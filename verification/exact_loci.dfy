/** The oldest HLA counter, `src/utils/matching.ts`: one point per locus
    whose stored strings are identical, with no trimming or case folding. */
module ExactLoci {
  import opened Wrappers
  import opened Records

  /** How many positions hold equal strings in two equally long lists. */
  function EqualPositions(xs: seq<string>, ys: seq<string>): (n: nat)
    requires |xs| == |ys|
    ensures n <= |xs|
    decreases |xs|
  {
    if xs == [] then 0 else (if xs[0] == ys[0] then 1 else 0) + EqualPositions(xs[1..], ys[1..])
  }

  /** Zero without both typings; otherwise the number of loci whose raw
      strings are equal, so at most 6. */
  function CalculateHLAMatches(donor: Option<HlaTyping>, recipient: Option<HlaTyping>): (matches: nat)
    ensures matches <= 6
    ensures donor.None? || recipient.None? ==> matches == 0
    ensures donor.Some? && recipient.Some? ==>
      matches == EqualPositions(Loci(donor.value), Loci(recipient.value))
  {
    if donor.Some? && recipient.Some? then
      var d := donor.value;
      var r := recipient.value;
      SixLoci(d, r);
      (if d.a == r.a then 1 else 0) + (if d.b == r.b then 1 else 0) + (if d.c == r.c then 1 else 0)
      + (if d.dr == r.dr then 1 else 0) + (if d.dq == r.dq then 1 else 0) + (if d.dp == r.dp then 1 else 0)
    else 0
  }

  /** The count over the locus list, spelled out locus by locus. */
  lemma {:induction false} SixLoci(d: HlaTyping, r: HlaTyping)
    ensures EqualPositions(Loci(d), Loci(r)) ==
      (if d.a == r.a then 1 else 0) + (if d.b == r.b then 1 else 0) + (if d.c == r.c then 1 else 0)
      + (if d.dr == r.dr then 1 else 0) + (if d.dq == r.dq then 1 else 0) + (if d.dp == r.dp then 1 else 0)
  {
    var xs := Loci(d);
    var ys := Loci(r);
    assert xs[1..] == [d.b, d.c, d.dr, d.dq, d.dp] && ys[1..] == [r.b, r.c, r.dr, r.dq, r.dp];
    assert xs[2..] == [d.c, d.dr, d.dq, d.dp] && ys[2..] == [r.c, r.dr, r.dq, r.dp];
    assert xs[3..] == [d.dr, d.dq, d.dp] && ys[3..] == [r.dr, r.dq, r.dp];
    assert xs[4..] == [d.dq, d.dp] && ys[4..] == [r.dq, r.dp];
    assert xs[5..] == [d.dp] && ys[5..] == [r.dp];
    assert EqualPositions(xs[5..], ys[5..]) == (if d.dp == r.dp then 1 else 0);
    assert EqualPositions(xs[4..], ys[4..]) == (if d.dq == r.dq then 1 else 0) + EqualPositions(xs[5..], ys[5..]);
    assert EqualPositions(xs[3..], ys[3..]) == (if d.dr == r.dr then 1 else 0) + EqualPositions(xs[4..], ys[4..]);
    assert EqualPositions(xs[2..], ys[2..]) == (if d.c == r.c then 1 else 0) + EqualPositions(xs[3..], ys[3..]);
    assert EqualPositions(xs[1..], ys[1..]) == (if d.b == r.b then 1 else 0) + EqualPositions(xs[2..], ys[2..]);
  }

  /** Swapping donor and recipient changes nothing. */
  lemma Symmetric(donor: Option<HlaTyping>, recipient: Option<HlaTyping>)
    ensures CalculateHLAMatches(donor, recipient) == CalculateHLAMatches(recipient, donor)
  {
  }

  /** Identical typings score all six loci, whatever the strings hold. */
  lemma IdenticalTypings(t: HlaTyping)
    ensures CalculateHLAMatches(Some(t), Some(t)) == 6
  {
  }

  /** Six equal positions means every locus string is equal. */
  lemma {:induction false} AllPositionsEqual(xs: seq<string>, ys: seq<string>)
    requires |xs| == |ys|
    ensures EqualPositions(xs, ys) == |xs| <==> xs == ys
    decreases |xs|
  {
    if xs != [] {
      AllPositionsEqual(xs[1..], ys[1..]);
      assert xs == [xs[0]] + xs[1..];
      assert ys == [ys[0]] + ys[1..];
    }
  }

  /** A full score of 6 happens exactly for identical typings. */
  lemma FullScoreMeansIdentical(d: HlaTyping, r: HlaTyping)
    ensures CalculateHLAMatches(Some(d), Some(r)) == 6 <==> d == r
  {
    AllPositionsEqual(Loci(d), Loci(r));
    assert Loci(d) == Loci(r) ==> d == r by {
      if Loci(d) == Loci(r) {
        assert Loci(d)[0] == Loci(r)[0] && Loci(d)[5] == Loci(r)[5];
      }
    }
  }
}
