/** The comma-separated allele helpers of `src/lib/utils/matching/hla.ts`.
    Unlike the matching engine they split on `,` only and never change case. */
module HlaAlleles {
  import opened Seqs
  import opened Text

  function TrimAll(xs: seq<string>): (r: seq<string>)
    ensures |r| == |xs|
    ensures forall i :: 0 <= i < |xs| ==> r[i] == Trim(xs[i])
  {
    seq(|xs|, i requires 0 <= i < |xs| => Trim(xs[i]))
  }

  /** Split on `,`, trim each piece, drop empty ones. Whitespace and `;`
      inside a piece stay. */
  function ParseHLAAlleles(hlaString: string): (r: seq<string>)
    ensures hlaString == [] ==> r == []
    ensures Formattable(r)
  {
    if hlaString == [] then []
    else
      var pieces := Split(hlaString, {','});
      CleanNonEmpty(pieces);
      NonEmpty(TrimAll(pieces))
  }

  /** The non-empty trimmed pieces of a comma-free split are clean alleles. */
  lemma {:induction false} CleanNonEmpty(pieces: seq<string>)
    requires forall i, j :: 0 <= i < |pieces| && 0 <= j < |pieces[i]| ==> pieces[i][j] != ','
    ensures Formattable(NonEmpty(TrimAll(pieces)))
  {
    var trimmed := TrimAll(pieces);
    CleanPieces(pieces);
    var r := NonEmpty(trimmed);
    SubsequenceMembers(r, trimmed);
    forall i | 0 <= i < |r|
      ensures CleanAllele(r[i])
    {
      assert r[i] in trimmed;
    }
  }

  /** Trimmed comma-free pieces stay comma-free. */
  lemma {:induction false} CleanPieces(pieces: seq<string>)
    requires forall i, j :: 0 <= i < |pieces| && 0 <= j < |pieces[i]| ==> pieces[i][j] != ','
    ensures forall x :: x in TrimAll(pieces) ==> IsTrimmed(x) && ',' !in x
  {
    var trimmed := TrimAll(pieces);
    forall x | x in trimmed
      ensures IsTrimmed(x) && ',' !in x
    {
      var k :| 0 <= k < |trimmed| && trimmed[k] == x;
      TrimInside(pieces[k]);
    }
  }

  /** The characters of a trimmed string come from the original. */
  lemma {:induction false} TrimInside(s: string)
    ensures forall c :: c in Trim(s) ==> c in s
  {
    var t := TrimStart(s);
    assert forall c :: c in t ==> c in s;
    assert forall c :: c in TrimEnd(t) ==> c in t;
  }

  /** `'Not Available'` for no alleles, otherwise the alleles joined by `", "`. */
  function FormatHLAAlleles(alleles: seq<string>): (r: string)
    ensures alleles == [] ==> r == "Not Available"
    ensures |alleles| == 1 ==> r == alleles[0]
  {
    if |alleles| == 0 then "Not Available"
    else Join(alleles, ", ")
  }

  /** What the parser gives back for one allele: non-empty, trimmed, comma-free. */
  predicate CleanAllele(s: string) {
    s != [] && IsTrimmed(s) && ',' !in s
  }

  /** Alleles the parser can give back. */
  predicate Formattable(alleles: seq<string>) {
    forall i :: 0 <= i < |alleles| ==> CleanAllele(alleles[i])
  }

  function Blanked(xs: seq<string>): (r: seq<string>)
    ensures |r| == |xs|
    ensures forall i :: 0 <= i < |xs| ==> r[i] == [' '] + xs[i]
  {
    seq(|xs|, i requires 0 <= i < |xs| => [' '] + xs[i])
  }

  /** Splitting a `", "`-joined list at commas gives the first item and then
      each later item behind one blank. */
  lemma {:induction false} SplitJoined(xs: seq<string>)
    requires xs != [] && Formattable(xs)
    ensures Split(Join(xs, ", "), {','}) == [xs[0]] + Blanked(xs[1..])
    decreases |xs|
  {
    if |xs| == 1 {
      SplitNoComma(xs[0]);
    } else {
      SplitJoined(xs[1..]);
      SplitJoinedStep(xs);
    }
  }

  lemma {:induction false} SplitJoinedStep(xs: seq<string>)
    requires |xs| >= 2 && Formattable(xs)
    requires Split(Join(xs[1..], ", "), {','}) == [xs[1]] + Blanked(xs[2..])
    ensures Split(Join(xs, ", "), {','}) == [xs[0]] + Blanked(xs[1..])
  {
    var tail := Join(xs[1..], ", ");
    JoinCons(xs);
    assert CleanAllele(xs[0]);
    SplitAtDelimiter(xs[0], ',', [' '] + tail, {','});
    SplitBlank(tail);
    BlankedCons(xs[1..]);
    assert xs[1..][1..] == xs[2..];
  }

  lemma {:induction false} JoinCons(xs: seq<string>)
    requires |xs| >= 2
    ensures Join(xs, ", ") == xs[0] + [','] + ([' '] + Join(xs[1..], ", "))
  {
  }

  lemma {:induction false} BlankedCons(xs: seq<string>)
    requires xs != []
    ensures Blanked(xs) == [[' '] + xs[0]] + Blanked(xs[1..])
  {
    var b := Blanked(xs);
    assert forall i :: 1 <= i < |xs| ==> b[i] == Blanked(xs[1..])[i - 1];
  }

  /** A leading blank joins the first piece. */
  lemma {:induction false} SplitBlank(q: string)
    ensures Split([' '] + q, {','}) == [[' '] + Split(q, {','})[0]] + Split(q, {','})[1..]
  {
    assert ([' '] + q)[1..] == q;
  }

  /** A comma-free string splits into itself. */
  lemma {:induction false} SplitNoComma(s: string)
    requires ',' !in s
    ensures Split(s, {','}) == [s]
  {
    SplitUndelimited(s, {','});
  }

  /** Round trip: parsing what the formatter writes gives back any non-empty
      list of trimmed, non-empty, comma-free alleles. */
  lemma {:induction false} FormatThenParse(xs: seq<string>)
    requires xs != [] && Formattable(xs)
    ensures ParseHLAAlleles(FormatHLAAlleles(xs)) == xs
  {
    var text := FormatHLAAlleles(xs);
    SplitJoined(xs);
    var pieces := Split(text, {','});
    assert text != [] by {
      assert |pieces[0]| <= |text| by { JoinSplit(text, ','); }
    }
    TrimBlanked(xs);
    assert forall i :: 0 <= i < |xs| ==> xs[i] != [];
  }

  /** Trimming the split pieces strips the blank the formatter put after
      each comma. */
  lemma {:induction false} TrimBlanked(xs: seq<string>)
    requires xs != [] && Formattable(xs)
    ensures TrimAll([xs[0]] + Blanked(xs[1..])) == xs
  {
    var pieces := [xs[0]] + Blanked(xs[1..]);
    forall i | 0 <= i < |xs|
      ensures Trim(pieces[i]) == xs[i]
    {
      TrimPiece(xs, i);
    }
    TrimAllPointwise(pieces, xs);
  }

  lemma {:induction false} TrimPiece(xs: seq<string>, i: nat)
    requires i < |xs| && CleanAllele(xs[i])
    ensures Trim(([xs[0]] + Blanked(xs[1..]))[i]) == xs[i]
  {
    var piece := ([xs[0]] + Blanked(xs[1..]))[i];
    PieceAt(xs, i);
    if i == 0 {
      TrimOfTrimmed(xs[0]);
    } else {
      assert piece == [' '] + xs[i];
      TrimOfTrimmed(xs[i]);
    }
  }

  lemma {:induction false} PieceAt(xs: seq<string>, i: nat)
    requires i < |xs|
    ensures ([xs[0]] + Blanked(xs[1..]))[i] == if i == 0 then xs[0] else [' '] + xs[i]
  {
    if i > 0 {
      assert ([xs[0]] + Blanked(xs[1..]))[i] == Blanked(xs[1..])[i - 1];
    }
  }

  lemma {:induction false} TrimAllPointwise(pieces: seq<string>, xs: seq<string>)
    requires |pieces| == |xs|
    requires forall i :: 0 <= i < |xs| ==> Trim(pieces[i]) == xs[i]
    ensures TrimAll(pieces) == xs
  {
    var trimmed := TrimAll(pieces);
    assert forall i :: 0 <= i < |xs| ==> trimmed[i] == xs[i];
  }

  /** The round trip fails for the empty list: the placeholder parses back
      as one allele. */
  lemma {:induction false} EmptyDoesNotRoundTrip()
    ensures ParseHLAAlleles(FormatHLAAlleles([])) == ["Not Available"]
  {
    ParseSingle("Not Available");
  }

  /** One trimmed, comma-free allele parses to itself. */
  lemma {:induction false} ParseSingle(s: string)
    requires s != [] && ',' !in s && IsTrimmed(s)
    ensures ParseHLAAlleles(s) == [s]
  {
    assert Split(s, {','}) == [s] by { SplitNoComma(s); }
    assert TrimAll([s]) == [s] by { TrimSingle(s); }
    assert NonEmpty([s]) == [s] by { assert [s][0] != []; }
  }

  lemma {:induction false} TrimSingle(s: string)
    requires IsTrimmed(s)
    ensures TrimAll([s]) == [s]
  {
    TrimOfTrimmed(s);
    var trimmed := TrimAll([s]);
    assert |trimmed| == 1 && trimmed[0] == s;
  }

  datatype Comparison = Comparison(matches: nat, total: nat)

  /** How many entries of `xs` occur in `pool`, repetitions counted. */
  function CountIn(xs: seq<string>, pool: seq<string>): (n: nat)
    decreases |xs|
  {
    if xs == [] then 0 else (if xs[0] in pool then 1 else 0) + CountIn(xs[1..], pool)
  }

  /** `total` is the number of recipient alleles and `matches` the number of
      them, repetitions counted, that occur verbatim among the donor's. */
  function CompareHLAAlleles(donor: string, recipient: string): (r: Comparison)
    ensures r.total == |ParseHLAAlleles(recipient)|
    ensures r.matches == CountIn(ParseHLAAlleles(recipient), ParseHLAAlleles(donor))
    ensures r.matches <= r.total
  {
    var donorAlleles := ParseHLAAlleles(donor);
    var recipientAlleles := ParseHLAAlleles(recipient);
    var matched := Filter((allele: string) => allele in donorAlleles, recipientAlleles);
    FilterCount(recipientAlleles, donorAlleles);
    Comparison(|matched|, |recipientAlleles|)
  }

  lemma {:induction false} FilterCount(xs: seq<string>, pool: seq<string>)
    ensures |Filter((allele: string) => allele in pool, xs)| == CountIn(xs, pool)
    decreases |xs|
  {
    if xs != [] {
      FilterCount(xs[1..], pool);
    }
  }

  /** Comparing a typing with itself matches every allele. */
  lemma {:induction false} CompareWithItself(s: string)
    ensures CompareHLAAlleles(s, s).matches == CompareHLAAlleles(s, s).total
  {
    var xs := ParseHLAAlleles(s);
    AllIn(xs, xs);
  }

  lemma {:induction false} AllIn(xs: seq<string>, pool: seq<string>)
    requires forall i :: 0 <= i < |xs| ==> xs[i] in pool
    ensures CountIn(xs, pool) == |xs|
    decreases |xs|
  {
    if xs != [] {
      AllIn(xs[1..], pool);
    }
  }
}
