/** The ranking step of `findCompatibleDonors`: every donor is evaluated
    independently and the results are sorted stably so that donors with
    unacceptable antigens come last and, within each group, higher scores
    come first. `Array.prototype.sort` is stable, so the sort is modelled as
    a stable insertion sort. */
module Ranking {
  import opened Records
  import opened Matching

  /** The comparator of the source returns a negative number: `a` must precede `b`. */
  predicate Before(a: MatchResult, b: MatchResult) {
    || (!Excluded(a) && Excluded(b))
    || (Excluded(a) == Excluded(b) && a.compatibilityScore > b.compatibilityScore)
  }

  /** The comparator returns zero: neither result must precede the other. */
  predicate SameKey(a: MatchResult, b: MatchResult) {
    Excluded(a) == Excluded(b) && a.compatibilityScore == b.compatibilityScore
  }

  /** No result is placed after one that must follow it. */
  predicate Ranked(xs: seq<MatchResult>) {
    forall i, j :: 0 <= i < j < |xs| ==> !Before(xs[j], xs[i])
  }

  /** Places `x` after the results that must precede it and before all others. */
  function Insert(x: MatchResult, ys: seq<MatchResult>): (r: seq<MatchResult>)
    ensures |r| == |ys| + 1
    ensures multiset(r) == multiset(ys) + multiset{x}
    decreases |ys|
  {
    if ys == [] then [x]
    else if Before(ys[0], x) then
      assert ys == [ys[0]] + ys[1..];
      [ys[0]] + Insert(x, ys[1..])
    else [x] + ys
  }

  /** Stable insertion sort by `Before`. */
  function Rank(xs: seq<MatchResult>): (r: seq<MatchResult>)
    ensures |r| == |xs|
    ensures multiset(r) == multiset(xs)
    decreases |xs|
  {
    if xs == [] then []
    else
      assert xs == [xs[0]] + xs[1..];
      Insert(xs[0], Rank(xs[1..]))
  }

  /** Inserting into a ranked list keeps it ranked. */
  lemma {:induction false} InsertRanked(x: MatchResult, ys: seq<MatchResult>)
    requires Ranked(ys)
    ensures Ranked(Insert(x, ys))
    decreases |ys|
  {
    if ys != [] {
      var r := Insert(x, ys);
      if Before(ys[0], x) {
        var rest := Insert(x, ys[1..]);
        InsertRanked(x, ys[1..]);
        assert r == [ys[0]] + rest;
        forall j | 0 <= j < |rest|
          ensures !Before(rest[j], ys[0])
        {
          assert rest[j] in multiset(rest);
          assert rest[j] == x || rest[j] in multiset(ys[1..]);
          if rest[j] != x {
            var k :| 0 <= k < |ys[1..]| && ys[1..][k] == rest[j];
            assert ys[k + 1] == rest[j];
          }
        }
      } else {
        assert r == [x] + ys;
        forall j | 0 <= j < |ys|
          ensures !Before(ys[j], x)
        {
          if j > 0 {
            assert !Before(ys[j], ys[0]);
          }
        }
      }
    }
  }

  /** The sort's output is ranked. */
  lemma {:induction false} RankRanked(xs: seq<MatchResult>)
    ensures Ranked(Rank(xs))
    decreases |xs|
  {
    if xs != [] {
      RankRanked(xs[1..]);
      InsertRanked(xs[0], Rank(xs[1..]));
    }
  }

  /** The results of `xs` whose sort key equals that of `k`, in order. */
  function KeyClass(xs: seq<MatchResult>, k: MatchResult): seq<MatchResult>
    decreases |xs|
  {
    if xs == [] then []
    else (if SameKey(xs[0], k) then [xs[0]] else []) + KeyClass(xs[1..], k)
  }

  lemma {:induction false} KeyClassCons(a: MatchResult, s: seq<MatchResult>, k: MatchResult)
    ensures KeyClass([a] + s, k) == (if SameKey(a, k) then [a] else []) + KeyClass(s, k)
  {
    assert ([a] + s)[1..] == s;
  }

  /** Inserting `x` puts it ahead of every result with the same key. */
  lemma {:induction false} InsertKeyClass(x: MatchResult, ys: seq<MatchResult>, k: MatchResult)
    ensures KeyClass(Insert(x, ys), k) == (if SameKey(x, k) then [x] else []) + KeyClass(ys, k)
    decreases |ys|
  {
    if ys == [] {
      KeyClassCons(x, [], k);
    } else if Before(ys[0], x) {
      InsertKeyClass(x, ys[1..], k);
      InsertBehindKeyClass(x, ys, k);
    } else {
      KeyClassCons(x, ys, k);
    }
  }

  /** The step of `InsertKeyClass` where `x` goes behind `ys[0]`. */
  lemma {:induction false} InsertBehindKeyClass(x: MatchResult, ys: seq<MatchResult>, k: MatchResult)
    requires ys != [] && Before(ys[0], x)
    requires KeyClass(Insert(x, ys[1..]), k) == (if SameKey(x, k) then [x] else []) + KeyClass(ys[1..], k)
    ensures KeyClass(Insert(x, ys), k) == (if SameKey(x, k) then [x] else []) + KeyClass(ys, k)
  {
    assert Insert(x, ys) == [ys[0]] + Insert(x, ys[1..]);
    assert ys == [ys[0]] + ys[1..];
    if SameKey(ys[0], k) {
      BehindInClass(x, ys[0], Insert(x, ys[1..]), ys[1..], k);
    } else {
      BehindOutsideClass(x, ys[0], Insert(x, ys[1..]), ys[1..], k);
    }
  }

  /** `y` is in the class, so `x`, whose key differs, is not. */
  lemma {:induction false} BehindInClass(x: MatchResult, y: MatchResult, rest: seq<MatchResult>,
                                         tail: seq<MatchResult>, k: MatchResult)
    requires Before(y, x) && SameKey(y, k)
    requires KeyClass(rest, k) == (if SameKey(x, k) then [x] else []) + KeyClass(tail, k)
    ensures KeyClass([y] + rest, k) == (if SameKey(x, k) then [x] else []) + KeyClass([y] + tail, k)
  {
    KeyClassCons(y, rest, k);
    KeyClassCons(y, tail, k);
    assert !SameKey(x, k);
    assert [] + KeyClass(tail, k) == KeyClass(tail, k);
  }

  /** `y` is outside the class and drops out on both sides. */
  lemma {:induction false} BehindOutsideClass(x: MatchResult, y: MatchResult, rest: seq<MatchResult>,
                                              tail: seq<MatchResult>, k: MatchResult)
    requires !SameKey(y, k)
    requires KeyClass(rest, k) == (if SameKey(x, k) then [x] else []) + KeyClass(tail, k)
    ensures KeyClass([y] + rest, k) == (if SameKey(x, k) then [x] else []) + KeyClass([y] + tail, k)
  {
    KeyClassCons(y, rest, k);
    KeyClassCons(y, tail, k);
    assert [] + KeyClass(rest, k) == KeyClass(rest, k);
    assert [] + KeyClass(tail, k) == KeyClass(tail, k);
  }

  /** Stability: results with equal sort keys keep their input order. */
  lemma {:induction false} RankStable(xs: seq<MatchResult>, k: MatchResult)
    ensures KeyClass(Rank(xs), k) == KeyClass(xs, k)
    decreases |xs|
  {
    if xs != [] {
      RankStable(xs[1..], k);
      InsertKeyClass(xs[0], Rank(xs[1..]), k);
    }
  }

  /** Each donor through the gates, in input order (the `map` of the source). */
  function EvaluateAll(recipient: Recipient, donors: seq<Donor>): (r: seq<MatchResult>)
    ensures |r| == |donors|
    ensures forall i :: 0 <= i < |donors| ==> r[i] == EvaluateDonor(recipient, donors[i])
  {
    seq(|donors|, i requires 0 <= i < |donors| => EvaluateDonor(recipient, donors[i]))
  }

  /** The pure part of `findCompatibleDonors` over an already loaded
      recipient and donor pool: a permutation of the per-donor results in
      which every donor without unacceptable antigens precedes every donor
      with them, scores never increase within each group, and results with
      equal keys keep the order of the pool. */
  function FindCompatibleDonors(recipient: Recipient, donors: seq<Donor>): (r: seq<MatchResult>)
    ensures multiset(r) == multiset(EvaluateAll(recipient, donors))
    ensures forall i, j :: 0 <= i < j < |r| && Excluded(r[i]) ==> Excluded(r[j])
    ensures forall i, j :: 0 <= i < j < |r| && Excluded(r[i]) == Excluded(r[j]) ==>
              r[i].compatibilityScore >= r[j].compatibilityScore
    ensures forall k :: KeyClass(r, k) == KeyClass(EvaluateAll(recipient, donors), k)
  {
    var evaluated := EvaluateAll(recipient, donors);
    var r := Rank(evaluated);
    RankRanked(evaluated);
    forall k
      ensures KeyClass(r, k) == KeyClass(evaluated, k)
    {
      RankStable(evaluated, k);
    }
    r
  }
}
