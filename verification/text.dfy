/** ASCII text helpers shared by the matching engine and the utilities:
    character classes, case mapping, trimming, splitting, joining and
    substring search. JavaScript's `\s`, `trim` and case mapping are
    Unicode-wide; this model covers their ASCII part. */
module Text {
  import opened Seqs

  /** The ASCII members of JavaScript's `\s` class (also what `trim` strips). */
  const Whitespace: set<char> := {' ', '\t', '\n', '\r', '\U{000B}', '\U{000C}'}

  predicate IsSpace(c: char) { c in Whitespace }
  predicate IsDigit(c: char) { '0' <= c <= '9' }
  predicate IsLowerLetter(c: char) { 'a' <= c <= 'z' }
  predicate IsUpperLetter(c: char) { 'A' <= c <= 'Z' }
  predicate IsAlnum(c: char) { IsDigit(c) || IsLowerLetter(c) || IsUpperLetter(c) }

  predicate AllSpace(s: string) { forall i :: 0 <= i < |s| ==> IsSpace(s[i]) }
  predicate NoSpace(s: string) { forall i :: 0 <= i < |s| ==> !IsSpace(s[i]) }

  /** ASCII `toUpperCase` of one character. */
  function UpperChar(c: char): (u: char)
    ensures IsLowerLetter(c) ==> IsUpperLetter(u) && u as int == c as int - 32
    ensures !IsLowerLetter(c) ==> u == c
  {
    if IsLowerLetter(c) then (c as int - 32) as char else c
  }

  /** ASCII `toLowerCase` of one character. */
  function LowerChar(c: char): (l: char)
    ensures IsUpperLetter(c) ==> IsLowerLetter(l) && l as int == c as int + 32
    ensures !IsUpperLetter(c) ==> l == c
  {
    if IsUpperLetter(c) then (c as int + 32) as char else c
  }

  function Upper(s: string): (r: string)
    ensures |r| == |s|
    ensures forall i :: 0 <= i < |s| ==> r[i] == UpperChar(s[i])
  {
    seq(|s|, i requires 0 <= i < |s| => UpperChar(s[i]))
  }

  function Lower(s: string): (r: string)
    ensures |r| == |s|
    ensures forall i :: 0 <= i < |s| ==> r[i] == LowerChar(s[i])
  {
    seq(|s|, i requires 0 <= i < |s| => LowerChar(s[i]))
  }

  /** Drops leading whitespace: the result is the suffix left after an all-space prefix. */
  function TrimStart(s: string): (r: string)
    ensures |r| <= |s| && r == s[|s| - |r|..]
    ensures AllSpace(s[..|s| - |r|])
    ensures r == [] || !IsSpace(r[0])
    decreases |s|
  {
    if s != [] && IsSpace(s[0]) then TrimStart(s[1..]) else s
  }

  /** Drops trailing whitespace: the result is the prefix left before an all-space suffix. */
  function TrimEnd(s: string): (r: string)
    ensures |r| <= |s| && r == s[..|r|]
    ensures AllSpace(s[|r|..])
    ensures r == [] || !IsSpace(r[|r| - 1])
    decreases |s|
  {
    if s != [] && IsSpace(s[|s| - 1]) then TrimEnd(s[..|s| - 1]) else s
  }

  /** JavaScript's `String.prototype.trim`. */
  function Trim(s: string): (r: string)
    ensures |r| <= |s|
    ensures r == [] || (!IsSpace(r[0]) && !IsSpace(r[|r| - 1]))
    ensures r == [] <==> AllSpace(s)
    ensures NoSpace(s) ==> r == s
  {
    TrimmedEnds(s);
    TrimmedEmpty(s);
    if NoSpace(s) then TrimmedNoSpace(s); TrimEnd(TrimStart(s))
    else TrimEnd(TrimStart(s))
  }

  /** Neither end of the trimmed string is whitespace. */
  lemma {:induction false} TrimmedEnds(s: string)
    ensures var r := TrimEnd(TrimStart(s));
            r == [] || (!IsSpace(r[0]) && !IsSpace(r[|r| - 1]))
  {
    var t := TrimStart(s);
    var r := TrimEnd(t);
    assert r != [] ==> r[0] == t[0];
  }

  /** Trimming leaves nothing exactly when the string is all whitespace. */
  lemma {:induction false} TrimmedEmpty(s: string)
    ensures TrimEnd(TrimStart(s)) == [] <==> AllSpace(s)
  {
    if TrimEnd(TrimStart(s)) == [] {
      EmptyTrimIsSpace(s);
    }
    if AllSpace(s) {
      SpaceTrimsStartToEmpty(s);
    }
  }

  lemma {:induction false} EmptyTrimIsSpace(s: string)
    requires TrimEnd(TrimStart(s)) == []
    ensures AllSpace(s)
  {
    var t := TrimStart(s);
    assert AllSpace(t) by { assert t[0..] == t; }
    assert t == [];
    assert AllSpace(s[..|s|]);
    assert s[..|s|] == s;
  }

  lemma {:induction false} SpaceTrimsStartToEmpty(s: string)
    requires AllSpace(s)
    ensures TrimStart(s) == []
    decreases |s|
  {
    if s != [] {
      assert AllSpace(s[1..]) by { assert forall i :: 0 <= i < |s| - 1 ==> s[1..][i] == s[i + 1]; }
      SpaceTrimsStartToEmpty(s[1..]);
    }
  }

  /** A string without whitespace trims to itself. */
  lemma {:induction false} TrimmedNoSpace(s: string)
    requires NoSpace(s)
    ensures TrimEnd(TrimStart(s)) == s
  {
    if s != [] {
      assert !IsSpace(s[0]) && !IsSpace(s[|s| - 1]);
    }
  }

  /** Neither end is whitespace. */
  predicate IsTrimmed(s: string) {
    s == [] || (!IsSpace(s[0]) && !IsSpace(s[|s| - 1]))
  }

  /** Trimming leaves a trimmed string unchanged, and strips a leading blank. */
  lemma TrimOfTrimmed(s: string)
    requires IsTrimmed(s)
    ensures Trim(s) == s
    ensures Trim([' '] + s) == s
  {
    assert TrimStart([' '] + s) == TrimStart(s);
    assert s != [] ==> ([' '] + s)[1..] == s;
  }

  /** Splits at every character of `delims`, like `split` with a one-character
      class: `k` delimiters give `k + 1` pieces, empty pieces included. */
  function Split(s: string, delims: set<char>): (pieces: seq<string>)
    ensures |pieces| >= 1
    ensures forall i, j :: 0 <= i < |pieces| && 0 <= j < |pieces[i]| ==> pieces[i][j] !in delims
    decreases |s|
  {
    if s == [] then [[]]
    else
      var rest := Split(s[1..], delims);
      if s[0] in delims then [[]] + rest
      else [[s[0]] + rest[0]] + rest[1..]
  }

  /** The strings of `xs` with `sep` between each neighbouring pair. */
  function Join(xs: seq<string>, sep: string): string
    decreases |xs|
  {
    if |xs| == 0 then []
    else if |xs| == 1 then xs[0]
    else xs[0] + sep + Join(xs[1..], sep)
  }

  /** Splitting at a single delimiter character loses nothing: joining the
      pieces back with that character gives the original string. */
  lemma {:induction false} JoinSplit(s: string, c: char)
    ensures Join(Split(s, {c}), [c]) == s
    decreases |s|
  {
    if s != [] {
      JoinSplit(s[1..], c);
      var rest := Split(s[1..], {c});
      if s[0] == c {
        assert Split(s, {c}) == [[]] + rest;
        JoinEmptyHead(rest, [c]);
      } else {
        assert Split(s, {c}) == [[s[0]] + rest[0]] + rest[1..];
        JoinExtendHead([s[0]], rest, [c]);
      }
      assert s == [s[0]] + s[1..];
    }
  }

  /** An empty first string contributes only the separator after it. */
  lemma {:induction false} JoinEmptyHead(xs: seq<string>, sep: string)
    requires xs != []
    ensures Join([[]] + xs, sep) == sep + Join(xs, sep)
  {
    assert ([[]] + xs)[1..] == xs;
  }

  /** Prefixing the first string prefixes the joined text. */
  lemma {:induction false} JoinExtendHead(a: string, xs: seq<string>, sep: string)
    requires xs != []
    ensures Join([a + xs[0]] + xs[1..], sep) == a + Join(xs, sep)
  {
    var ys := [a + xs[0]] + xs[1..];
    if |xs| > 1 {
      assert ys[1..] == xs[1..];
    }
  }

  /** Splitting a string made only of delimiters yields only empty pieces. */
  lemma {:induction false} SplitOfDelimiters(s: string, delims: set<char>)
    requires forall i :: 0 <= i < |s| ==> s[i] in delims
    ensures forall p :: p in Split(s, delims) ==> p == []
    decreases |s|
  {
    if s != [] {
      SplitOfDelimiters(s[1..], delims);
    }
  }

  /** A string with no delimiter in it is a single piece. */
  lemma {:induction false} SplitUndelimited(s: string, delims: set<char>)
    requires forall i :: 0 <= i < |s| ==> s[i] !in delims
    ensures Split(s, delims) == [s]
    decreases |s|
  {
    if s != [] {
      SplitUndelimited(s[1..], delims);
      assert s == [s[0]] + s[1..];
    }
  }

  /** A delimiter ends the first piece: what precedes it is that piece and
      the rest is split on its own. */
  lemma {:induction false} SplitAtDelimiter(x: string, c: char, y: string, delims: set<char>)
    requires forall i :: 0 <= i < |x| ==> x[i] !in delims
    requires c in delims
    ensures Split(x + [c] + y, delims) == [x] + Split(y, delims)
    decreases |x|
  {
    if x == [] {
      assert x + [c] + y == [c] + y;
      assert ([c] + y)[1..] == y;
    } else {
      SplitAtDelimiter(x[1..], c, y, delims);
      var s := x + [c] + y;
      assert s[0] == x[0];
      assert s[1..] == x[1..] + [c] + y;
      assert x == [x[0]] + x[1..];
    }
  }

  /** The non-empty strings of `xs` (`.filter(Boolean)` on strings). */
  function NonEmpty(xs: seq<string>): (r: seq<string>)
    ensures forall i :: 0 <= i < |r| ==> r[i] != []
    ensures IsSubsequence(r, xs)
    ensures (forall x :: x in xs ==> x == []) ==> r == []
    ensures (forall i :: 0 <= i < |xs| ==> xs[i] != []) ==> r == xs
  {
    var keep := (x: string) => x != [];
    var r := Filter(keep, xs);
    assert r != [] ==> multiset(r)[r[0]] > 0 && multiset(xs)[r[0]] > 0 && r[0] in xs;
    if forall i :: 0 <= i < |xs| ==> xs[i] != [] then
      FilterKeepsAll(keep, xs);
      r
    else r
  }

  /** The non-empty pieces between delimiters: what `split(/[...]+/)` followed
      by dropping empty strings gives, since collapsing runs of delimiters
      only removes pieces that are empty anyway. */
  function Tokens(s: string, delims: set<char>): (r: seq<string>)
    ensures forall i :: 0 <= i < |r| ==> r[i] != []
    ensures forall i, j :: 0 <= i < |r| && 0 <= j < |r[i]| ==> r[i][j] !in delims
  {
    var pieces := Split(s, delims);
    var r := NonEmpty(pieces);
    SubsequenceMembers(r, pieces);
    r
  }

  /** `needle` occurs in `hay` starting at offset `k`. */
  predicate OccursAt(hay: string, needle: string, k: int) {
    0 <= k && k + |needle| <= |hay| && hay[k..k + |needle|] == needle
  }

  /** `String.prototype.includes`: `needle` occurs in `hay` at some offset. */
  predicate Contains(hay: string, needle: string)
    decreases |hay|
  {
    || (|needle| <= |hay| && hay[..|needle|] == needle)
    || (hay != [] && Contains(hay[1..], needle))
  }

  /** `Contains` agrees with the offset-based definition of a substring. */
  lemma {:induction false} ContainsAtOffset(hay: string, needle: string)
    ensures Contains(hay, needle) <==> exists k :: OccursAt(hay, needle, k)
    decreases |hay|
  {
    if |needle| <= |hay| && hay[..|needle|] == needle {
      assert OccursAt(hay, needle, 0);
    }
    if hay != [] {
      ContainsAtOffset(hay[1..], needle);
      if Contains(hay[1..], needle) {
        var k :| OccursAt(hay[1..], needle, k);
        assert hay[1..][k..k + |needle|] == hay[k + 1..k + 1 + |needle|];
        assert OccursAt(hay, needle, k + 1);
      }
      if exists k :: OccursAt(hay, needle, k) {
        var k :| OccursAt(hay, needle, k);
        if k > 0 {
          assert hay[1..][k - 1..k - 1 + |needle|] == hay[k..k + |needle|];
          assert OccursAt(hay[1..], needle, k - 1);
        }
      }
    } else {
      if exists k :: OccursAt(hay, needle, k) {
        var k :| OccursAt(hay, needle, k);
        assert k == 0;
      }
    }
  }
}
