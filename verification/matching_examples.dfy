/** Worked instances of the compatibility engine in `src/lib/api/matching.ts`. */
module MatchingExamples {
  import opened Text
  import opened Matching

  /** Six HLA matches through both gates score three quarters. */
  lemma ScoreAtSixMatches()
    ensures CalculateCompatibilityScore(true, 6, true) == 0.75
    ensures CalculateCompatibilityScore(true, 2, true) == 0.0
    ensures CalculateCompatibilityScore(true, 20, true) == 1.0
  {
  }

  /** The per-locus cap depends on the running total: a locus with two
      matching donor tokens adds 2 when entered with an even total and only 1
      when entered with an odd one. */
  lemma {:induction false} LocusCapFollowsParity(x: string, y: string, recipientTokens: seq<string>)
    requires x != [] && y != [] && x in recipientTokens && y in recipientTokens
    ensures ScanLocus(0, [x, y], recipientTokens) == 2
    ensures ScanLocus(1, [x, y], recipientTokens) == 2
    ensures ScanLocus(2, [x, y], recipientTokens) == 4
  {
    assert [x, y][1..] == [y];
    assert [y][1..] == [];
    assert MatchCount([y], recipientTokens) == 1;
    assert MatchCount([x, y], recipientTokens) == 2;
  }

  /** An antigen name as both tokenizers leave it: non-empty, upper case,
      no comma, semicolon or whitespace. */
  predicate PlainName(x: string) {
    x != [] && forall i :: 0 <= i < |x| ==> x[i] !in AntigenDelims && !IsLowerLetter(x[i])
  }

  lemma {:induction false} PlainNameNormalizes(x: string)
    requires PlainName(x)
    ensures Normalize(x) == x
  {
    assert NoSpace(x);
    assert Upper(x) == x;
  }

  lemma {:induction false} SplitTwoNames(x: string, y: string)
    requires PlainName(x) && PlainName(y)
    ensures Split(x + [';'] + y, AntigenDelims) == [x, y]
  {
    assert ';' in AntigenDelims;
    SplitAtDelimiter(x, ';', y, AntigenDelims);
    SplitUndelimited(y, AntigenDelims);
  }

  lemma {:induction false} NormalizeTwoNames(x: string, y: string)
    requires PlainName(x) && PlainName(y)
    ensures NormalizeAll([x, y]) == [x, y]
  {
    var names := [x, y];
    assert forall i :: 0 <= i < |names| ==> PlainName(names[i]);
    PlainNamesNormalize(names);
  }

  lemma {:induction false} PlainNamesNormalize(xs: seq<string>)
    requires forall i :: 0 <= i < |xs| ==> PlainName(xs[i])
    ensures NormalizeAll(xs) == xs
  {
    forall i | 0 <= i < |xs|
      ensures Normalize(xs[i]) == xs[i]
    {
      PlainNameNormalizes(xs[i]);
    }
    var normalized := NormalizeAll(xs);
    assert forall i :: 0 <= i < |xs| ==> normalized[i] == xs[i];
  }

  /** The screen splits two names joined by a semicolon into two antigens. */
  lemma {:induction false} ScreenSplitsSemicolon(x: string, y: string)
    requires PlainName(x) && PlainName(y)
    ensures AntigenTokens(x + [';'] + y) == [x, y]
  {
    SplitTwoNames(x, y);
    NormalizeTwoNames(x, y);
    NonEmptyOfTwo(x, y);
  }

  lemma {:induction false} NonEmptyOfTwo(x: string, y: string)
    requires x != [] && y != []
    ensures NonEmpty([x, y]) == [x, y]
  {
    var names := [x, y];
    assert names[0] == x && names[1] == y;
  }

  /** The HLA counter keeps them as one token, semicolon included. */
  lemma {:induction false} CounterKeepsSemicolon(x: string, y: string)
    requires PlainName(x) && PlainName(y)
    ensures LocusTokens(x + [';'] + y) == [x + [';'] + y]
  {
    JoinedCounterName(x, y);
    CounterNameIsOneToken(x + [';'] + y);
  }

  /** Upper case, and free of the counter's delimiters (a semicolon may occur). */
  predicate CounterName(s: string) {
    forall i :: 0 <= i < |s| ==> s[i] !in LocusDelims && !IsLowerLetter(s[i])
  }

  lemma {:induction false} JoinedCounterName(x: string, y: string)
    requires PlainName(x) && PlainName(y)
    ensures CounterName(x + [';'] + y)
  {
    var s := x + [';'] + y;
    forall i | 0 <= i < |s|
      ensures s[i] !in LocusDelims && !IsLowerLetter(s[i])
    {
      if i < |x| { assert s[i] == x[i]; }
      else if i > |x| { assert s[i] == y[i - |x| - 1]; }
    }
  }

  lemma {:induction false} CounterNameIsOneToken(s: string)
    requires CounterName(s)
    ensures LocusTokens(s) == [s]
  {
    assert Split(s, LocusDelims) == [s] by { SplitUndelimited(s, LocusDelims); }
    assert Normalize(s) == s by { CounterNameNormalizes(s); }
    var tokens := NormalizeAll([s]);
    assert |tokens| == 1 && tokens[0] == s;
  }

  lemma {:induction false} CounterNameNormalizes(s: string)
    requires CounterName(s)
    ensures Normalize(s) == s
  {
    assert NoSpace(s) by {
      forall i | 0 <= i < |s|
        ensures !IsSpace(s[i])
      {
        assert s[i] !in LocusDelims;
      }
    }
    assert Upper(s) == s;
  }

  /** The instance `B7;DR4`: two antigens for the screen, one token for the
      HLA counter. */
  lemma SemicolonExample()
    ensures AntigenTokens("B7;DR4") == ["B7", "DR4"]
    ensures LocusTokens("B7;DR4") == ["B7;DR4"]
  {
    assert PlainName("B7");
    assert PlainName("DR4");
    assert "B7;DR4" == "B7" + [';'] + "DR4";
    ScreenSplitsSemicolon("B7", "DR4");
    CounterKeepsSemicolon("B7", "DR4");
  }
}
