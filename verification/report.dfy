/** The data decisions of the PDF report, `src/lib/utils/report.ts`: how
    results are split into compatible, incompatible and excluded donors, the
    summary figures, the order of the compatible section, the rows of the
    "Other Donors" table, and the colour parser `hexToRgb`. */
module Report {
  import opened Wrappers
  import opened Seqs
  import opened Text
  import opened Records
  import Ranking

  predicate IsCompatible(m: MatchResult) {
    !m.matchDetails.hasUnacceptableAntigens && m.compatibilityScore > 0.0
  }

  predicate IsIncompatible(m: MatchResult) {
    m.compatibilityScore == 0.0 && !m.matchDetails.hasUnacceptableAntigens
  }

  function CompatibleDonors(results: seq<MatchResult>): (r: seq<MatchResult>)
    ensures IsSubsequence(r, results)
    ensures forall i :: 0 <= i < |r| ==> IsCompatible(r[i])
    ensures forall m :: multiset(r)[m] == if IsCompatible(m) then multiset(results)[m] else 0
  {
    Filter(IsCompatible, results)
  }

  function IncompatibleDonors(results: seq<MatchResult>): (r: seq<MatchResult>)
    ensures IsSubsequence(r, results)
    ensures forall i :: 0 <= i < |r| ==> IsIncompatible(r[i])
    ensures forall m :: multiset(r)[m] == if IsIncompatible(m) then multiset(results)[m] else 0
  {
    Filter(IsIncompatible, results)
  }

  function ExcludedDonors(results: seq<MatchResult>): (r: seq<MatchResult>)
    ensures IsSubsequence(r, results)
    ensures forall i :: 0 <= i < |r| ==> Excluded(r[i])
    ensures forall m :: multiset(r)[m] == if Excluded(m) then multiset(results)[m] else 0
  {
    Filter(Excluded, results)
  }

  /** With no negative score, every result lands in exactly one of the three
      lists, so their lengths add up to the total. */
  lemma {:induction false} PartitionSizes(results: seq<MatchResult>)
    requires forall i :: 0 <= i < |results| ==> results[i].compatibilityScore >= 0.0
    ensures |CompatibleDonors(results)| + |IncompatibleDonors(results)| + |ExcludedDonors(results)| == |results|
    decreases |results|
  {
    if results != [] {
      PartitionSizes(results[1..]);
      FilterCons(IsCompatible, results);
      FilterCons(IsIncompatible, results);
      FilterCons(Excluded, results);
    }
  }

  /** No result is in two of the lists. */
  lemma {:induction false} PartitionDisjoint(results: seq<MatchResult>)
    ensures forall m :: m in CompatibleDonors(results) ==> m !in IncompatibleDonors(results) && m !in ExcludedDonors(results)
    ensures forall m :: m in IncompatibleDonors(results) ==> m !in ExcludedDonors(results)
  {
    var compatible := CompatibleDonors(results);
    var incompatible := IncompatibleDonors(results);
    assert forall m :: m in compatible ==> IsCompatible(m);
    assert forall m :: m in incompatible ==> IsIncompatible(m);
  }

  /** The largest score in a non-empty list (`Math.max(...)`). */
  function MaxScore(xs: seq<MatchResult>): (best: real)
    requires xs != []
    ensures exists i :: 0 <= i < |xs| && xs[i].compatibilityScore == best
    ensures forall i :: 0 <= i < |xs| ==> xs[i].compatibilityScore <= best
    decreases |xs|
  {
    if |xs| == 1 then xs[0].compatibilityScore
    else
      var rest := MaxScore(xs[1..]);
      assert forall i :: 1 <= i < |xs| ==> xs[i] == xs[1..][i - 1];
      if xs[0].compatibilityScore >= rest then xs[0].compatibilityScore else rest
  }

  datatype Summary = Summary(total: nat, compatible: nat, incompatible: nat, excluded: nat, bestScore: Option<real>)

  /** The "Matching Summary" figures; the best score is reported only when
      some donor is compatible, and is then the highest compatible score. */
  function Summarize(results: seq<MatchResult>): (s: Summary)
    ensures s.total == |results|
    ensures s.compatible == |CompatibleDonors(results)|
    ensures s.incompatible == |IncompatibleDonors(results)|
    ensures s.excluded == |ExcludedDonors(results)|
    ensures s.bestScore.None? <==> s.compatible == 0
    ensures s.bestScore.Some? ==>
      && (exists m :: m in CompatibleDonors(results) && m.compatibilityScore == s.bestScore.value)
      && (forall m :: m in CompatibleDonors(results) ==> m.compatibilityScore <= s.bestScore.value)
  {
    var compatible := CompatibleDonors(results);
    Summary(|results|, |compatible|, |IncompatibleDonors(results)|, |ExcludedDonors(results)|,
      if |compatible| > 0 then Some(MaxScore(compatible)) else None)
  }

  /** The "Compatible Donors" section: the compatible donors by descending
      score, equal scores in list order. */
  function SortedCompatibleDonors(results: seq<MatchResult>): (r: seq<MatchResult>)
    ensures multiset(r) == multiset(CompatibleDonors(results))
    ensures forall i, j :: 0 <= i < j < |r| ==> r[i].compatibilityScore >= r[j].compatibilityScore
    ensures forall k :: Ranking.KeyClass(r, k) == Ranking.KeyClass(CompatibleDonors(results), k)
  {
    var compatible := CompatibleDonors(results);
    var r := Ranking.Rank(compatible);
    Ranking.RankRanked(compatible);
    forall k
      ensures Ranking.KeyClass(r, k) == Ranking.KeyClass(compatible, k)
    {
      Ranking.RankStable(compatible, k);
    }
    forall i | 0 <= i < |r|
      ensures !r[i].matchDetails.hasUnacceptableAntigens
    {
      assert multiset(r)[r[i]] > 0;
    }
    r
  }

  datatype OtherRow = OtherRow(donorName: string, bloodType: string, status: string, reason: string)

  function OrNA(s: string): (t: string)
    ensures t != []
    ensures s != [] ==> t == s
  {
    if s == [] then "N/A" else s
  }

  /** The stored reason, or "Incompatible match" when it is missing or empty. */
  function ReasonText(reason: Option<string>): (t: string)
    ensures reason.Some? && reason.value != [] ==> t == reason.value
    ensures reason.None? || reason.value == [] ==> t == "Incompatible match"
  {
    match reason
    case Some(text) => if text != [] then text else "Incompatible match"
    case None => "Incompatible match"
  }

  function RowOf(m: MatchResult): (row: OtherRow)
    ensures row.donorName != [] && row.bloodType != [] && row.reason != []
  {
    OtherRow(OrNA(m.donor.fullName), OrNA(m.donor.bloodType),
      if m.matchDetails.hasUnacceptableAntigens then "Excluded" else "Incompatible",
      ReasonText(m.matchDetails.excludedReason))
  }

  /** The "Other Donors" table: the incompatible donors first, then the
      excluded ones; the status says "Excluded" exactly for donors with
      unacceptable antigens, and the reason falls back to
      "Incompatible match". */
  function OtherDonorRows(results: seq<MatchResult>): (rows: seq<OtherRow>)
    ensures |rows| == |IncompatibleDonors(results)| + |ExcludedDonors(results)|
    ensures forall i :: 0 <= i < |IncompatibleDonors(results)| ==>
      rows[i].status == "Incompatible" && rows[i].reason == ReasonText(IncompatibleDonors(results)[i].matchDetails.excludedReason)
    ensures forall i :: |IncompatibleDonors(results)| <= i < |rows| ==>
      rows[i].status == "Excluded"
      && rows[i].reason == ReasonText(ExcludedDonors(results)[i - |IncompatibleDonors(results)|].matchDetails.excludedReason)
    ensures forall i :: 0 <= i < |rows| ==> rows[i].donorName != [] && rows[i].bloodType != [] && rows[i].reason != []
  {
    OtherRowsOf(IncompatibleDonors(results), ExcludedDonors(results))
  }

  function OtherRowsOf(incompatible: seq<MatchResult>, excluded: seq<MatchResult>): (rows: seq<OtherRow>)
    requires forall i :: 0 <= i < |incompatible| ==> !incompatible[i].matchDetails.hasUnacceptableAntigens
    requires forall i :: 0 <= i < |excluded| ==> excluded[i].matchDetails.hasUnacceptableAntigens
    ensures |rows| == |incompatible| + |excluded|
    ensures forall i :: 0 <= i < |incompatible| ==>
      rows[i].status == "Incompatible" && rows[i].reason == ReasonText(incompatible[i].matchDetails.excludedReason)
    ensures forall i :: |incompatible| <= i < |rows| ==>
      rows[i].status == "Excluded"
      && rows[i].reason == ReasonText(excluded[i - |incompatible|].matchDetails.excludedReason)
    ensures forall i :: 0 <= i < |rows| ==> rows[i].donorName != [] && rows[i].bloodType != [] && rows[i].reason != []
  {
    RowsOf(incompatible) + RowsOf(excluded)
  }

  function RowsOf(xs: seq<MatchResult>): (rows: seq<OtherRow>)
    ensures |rows| == |xs|
    ensures forall i :: 0 <= i < |xs| ==> rows[i] == RowOf(xs[i])
    ensures forall i :: 0 <= i < |rows| ==> rows[i].donorName != [] && rows[i].bloodType != [] && rows[i].reason != []
  {
    seq(|xs|, i requires 0 <= i < |xs| => RowOf(xs[i]))
  }

  // ---------------------------------------------------------------------
  // hexToRgb

  datatype Rgb = Rgb(r: nat, g: nat, b: nat)

  predicate IsHexDigit(c: char) {
    IsDigit(c) || 'a' <= c <= 'f' || 'A' <= c <= 'F'
  }

  function HexValue(c: char): (v: nat)
    requires IsHexDigit(c)
    ensures v < 16
  {
    if IsDigit(c) then c as int - '0' as int
    else if 'a' <= c <= 'f' then c as int - 'a' as int + 10
    else c as int - 'A' as int + 10
  }

  /** The value of a two-digit hex number, high digit first. */
  function PairValue(hi: char, lo: char): (v: nat)
    requires IsHexDigit(hi) && IsHexDigit(lo)
    ensures v < 256
  {
    HexValue(hi) * 16 + HexValue(lo)
  }

  predicate AllHex(s: string) {
    forall i :: 0 <= i < |s| ==> IsHexDigit(s[i])
  }

  /** An optional `#` followed by exactly six hex digits of either case. */
  predicate WellFormedHex(s: string) {
    || (|s| == 6 && AllHex(s))
    || (|s| == 7 && s[0] == '#' && AllHex(s[1..]))
  }

  /** `hexToRgb`: a colour exactly for an optional `#` and six hex digits of
      either case, each component the value of its digit pair. */
  function HexToRgb(hex: string): (c: Option<Rgb>)
    ensures c.Some? <==> WellFormedHex(hex)
    ensures c.Some? ==> c.value.r < 256 && c.value.g < 256 && c.value.b < 256
    ensures c.Some? ==>
      var d := hex[|hex| - 6..];
      c.value == Rgb(PairValue(d[0], d[1]), PairValue(d[2], d[3]), PairValue(d[4], d[5]))
  {
    var digits := if |hex| > 0 && hex[0] == '#' then hex[1..] else hex;
    if |digits| == 6 && AllHex(digits) then
      Some(Rgb(PairValue(digits[0], digits[1]), PairValue(digits[2], digits[3]), PairValue(digits[4], digits[5])))
    else None
  }

  function HexChar(v: nat): (c: char)
    requires v < 16
    ensures IsHexDigit(c) && HexValue(c) == v
  {
    if v < 10 then ('0' as int + v) as char else ('a' as int + v - 10) as char
  }

  /** Writes a colour as `#rrggbb` in lower case. */
  function ToHex(c: Rgb): (s: string)
    requires c.r < 256 && c.g < 256 && c.b < 256
    ensures |s| == 7 && s[0] == '#'
  {
    ['#', HexChar(c.r / 16), HexChar(c.r % 16), HexChar(c.g / 16), HexChar(c.g % 16),
     HexChar(c.b / 16), HexChar(c.b % 16)]
  }

  /** Round trip: every colour written by `ToHex` parses back to itself. */
  lemma HexRoundTrip(c: Rgb)
    requires c.r < 256 && c.g < 256 && c.b < 256
    ensures HexToRgb(ToHex(c)) == Some(c)
  {
    var s := ToHex(c);
    assert AllHex(s[1..]);
  }

  /** The green of the compatible figures. */
  lemma CompatibleGreen()
    ensures HexToRgb("#22c55e") == Some(Rgb(34, 197, 94))
  {
    HexRoundTrip(Rgb(34, 197, 94));
    assert ToHex(Rgb(34, 197, 94)) == "#22c55e";
  }
}
