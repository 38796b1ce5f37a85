/** The donor–recipient compatibility engine of `src/lib/api/matching.ts`:
    the blood-type lookup, the unacceptable-antigen screen, the HLA match
    counter, the gated score and the per-donor gate sequence. The ranking of
    the per-donor results is in module Ranking. */
module Matching {
  import opened Wrappers
  import opened Seqs
  import opened Text
  import opened Records
  import BloodGroups

  // ---------------------------------------------------------------------
  // Blood type

  /** The recipient types listed for each donor type; `None` for a label
      the table has no row for. */
  function CompatibilityRow(donorType: string): Option<seq<string>> {
    if donorType == "O-" then Some(["O-"])
    else if donorType == "O+" then Some(["O-", "O+", "A+", "B+", "AB+"])
    else if donorType == "A-" then Some(["A-", "A+", "AB-", "AB+"])
    else if donorType == "A+" then Some(["A+", "AB+"])
    else if donorType == "B-" then Some(["B-", "B+", "AB-", "AB+"])
    else if donorType == "B+" then Some(["B+", "AB+"])
    else if donorType == "AB-" then Some(["AB-", "AB+"])
    else if donorType == "AB+" then Some(["AB+"])
    else None
  }

  /** `O-` donates to any recipient label at all, a label outside the eight
      blood types never donates, and otherwise the table row decides. */
  function IsBloodTypeCompatible(donorType: string, recipientType: string): (ok: bool)
    ensures donorType == "O-" ==> ok
    ensures BloodGroups.Parse(donorType).None? ==> !ok
    ensures ok && donorType != "O-" ==> BloodGroups.Parse(recipientType).Some?
  {
    if donorType == "O-" then true
    else
      match CompatibilityRow(donorType)
      case Some(row) => recipientType in row
      case None => false
  }

  /** Against the standard ABO/Rh rule the table agrees everywhere except one
      entry: it lets an `O+` donor give to an `O-` recipient. */
  lemma BloodTableAgainstStandardRule(donor: BloodGroups.BloodType, recipient: BloodGroups.BloodType)
    ensures IsBloodTypeCompatible(BloodGroups.Name(donor), BloodGroups.Name(recipient))
      <==> (BloodGroups.CanDonate(donor, recipient)
            || (BloodGroups.Name(donor) == "O+" && BloodGroups.Name(recipient) == "O-"))
  {
    match donor.abo
    case O =>
    case A =>
    case B =>
    case AB =>
  }

  // ---------------------------------------------------------------------
  // Antigen tokens

  /** Delimiters of the antigen screen: comma, semicolon and whitespace. */
  const AntigenDelims: set<char> := {',', ';'} + Whitespace

  /** Delimiters of the HLA counter: comma and whitespace, not semicolon. */
  const LocusDelims: set<char> := {','} + Whitespace

  /** One token as both tokenizers clean it: trimmed, then upper-cased. */
  function Normalize(t: string): (r: string)
    ensures |r| <= |t|
    ensures r == [] <==> AllSpace(t)
  {
    Upper(Trim(t))
  }

  function NormalizeAll(xs: seq<string>): (r: seq<string>)
    ensures |r| == |xs|
    ensures forall i :: 0 <= i < |xs| ==> r[i] == Normalize(xs[i])
  {
    seq(|xs|, i requires 0 <= i < |xs| => Normalize(xs[i]))
  }

  /** The screen's tokenizer: split on comma/semicolon/whitespace, trim,
      upper-case, drop empty strings. */
  function AntigenTokens(text: string): (r: seq<string>)
    ensures forall i :: 0 <= i < |r| ==> r[i] != []
  {
    NonEmpty(NormalizeAll(Split(text, AntigenDelims)))
  }

  /** Text with no token in it (empty or whitespace only) gives no tokens. */
  lemma BlankTextHasNoTokens(text: string)
    requires AllSpace(text)
    ensures AntigenTokens(text) == []
  {
    SplitOfDelimiters(text, AntigenDelims);
    var pieces := Split(text, AntigenDelims);
    var normalized := NormalizeAll(pieces);
    forall i | 0 <= i < |normalized|
      ensures normalized[i] == []
    {
      assert pieces[i] in pieces;
    }
  }

  /** Every donor antigen of every locus, in locus order. */
  function DonorAntigens(loci: seq<string>): seq<string>
  {
    if loci == [] then []
    else (if loci[0] == [] then [] else AntigenTokens(loci[0])) + DonorAntigens(loci[1..])
  }

  // ---------------------------------------------------------------------
  // Unacceptable-antigen screen

  datatype AntigenScreen = AntigenScreen(hasUnacceptableAntigens: bool, matchedAntigens: seq<string>)

  /** `matchedAntigens` keeps, in order and with repetitions, exactly the
      recipient's unacceptable tokens that occur among the donor's tokens;
      the donor is excluded iff that list is non-empty. */
  function CheckUnacceptableAntigens(donorHla: HlaTyping, unacceptableAntigens: string): (r: AntigenScreen)
    ensures r.hasUnacceptableAntigens <==> r.matchedAntigens != []
    ensures IsSubsequence(r.matchedAntigens, AntigenTokens(unacceptableAntigens))
    ensures forall t ::
              multiset(r.matchedAntigens)[t] ==
              (if t in DonorAntigens(Loci(donorHla)) then multiset(AntigenTokens(unacceptableAntigens))[t] else 0)
    ensures AllSpace(unacceptableAntigens) || AntigenTokens(unacceptableAntigens) == []
      ==> r == AntigenScreen(false, [])
  {
    if Trim(unacceptableAntigens) == [] then
      BlankTextHasNoTokens(unacceptableAntigens);
      AntigenScreen(false, [])
    else
      ScreenTokens(DonorAntigens(Loci(donorHla)), AntigenTokens(unacceptableAntigens))
  }

  /** The screen of a non-blank list: an empty list passes, otherwise the
      matched tokens decide. */
  function ScreenTokens(donorAntigens: seq<string>, unacceptableList: seq<string>): (r: AntigenScreen)
    ensures r.hasUnacceptableAntigens <==> r.matchedAntigens != []
    ensures IsSubsequence(r.matchedAntigens, unacceptableList)
    ensures forall t ::
              multiset(r.matchedAntigens)[t] ==
              (if t in donorAntigens then multiset(unacceptableList)[t] else 0)
    ensures unacceptableList == [] ==> r == AntigenScreen(false, [])
  {
    if |unacceptableList| == 0 then AntigenScreen(false, [])
    else
      var matched := MatchedTokens(donorAntigens, unacceptableList);
      AntigenScreen(|matched| > 0, matched)
  }

  /** The tokens, in order and with repetitions, that occur among `donorAntigens`. */
  function MatchedTokens(donorAntigens: seq<string>, tokens: seq<string>): (matched: seq<string>)
    ensures IsSubsequence(matched, tokens)
    ensures forall t :: multiset(matched)[t] == if t in donorAntigens then multiset(tokens)[t] else 0
  {
    Filter((a: string) => a in donorAntigens, tokens)
  }

  // ---------------------------------------------------------------------
  // HLA match counter

  function Min(x: int, y: int): int { if x <= y then x else y }

  /** The most one locus may add to a running total: 2 from an even total,
      1 from an odd one (the source stops a locus once the total is even). */
  function Cap(total: nat): nat { if total % 2 == 0 then 2 else 1 }

  /** How many donor tokens are non-empty and present among the recipient's. */
  function MatchCount(donorTokens: seq<string>, recipientTokens: seq<string>): nat
    decreases |donorTokens|
  {
    if donorTokens == [] then 0
    else
      var here := if donorTokens[0] != [] && donorTokens[0] in recipientTokens then 1 else 0;
      here + MatchCount(donorTokens[1..], recipientTokens)
  }

  /** The inner loop over one locus' donor tokens, entered with running total
      `total`: it adds one per matching token and stops as soon as the total
      is even. It therefore adds the number of matching tokens, capped by `Cap`. */
  function ScanLocus(total: nat, donorTokens: seq<string>, recipientTokens: seq<string>): (r: nat)
    ensures r == total + Min(Cap(total), MatchCount(donorTokens, recipientTokens))
    decreases |donorTokens|
  {
    if donorTokens == [] then total
    else if donorTokens[0] != [] && donorTokens[0] in recipientTokens then
      if (total + 1) % 2 == 0 then total + 1
      else ScanLocus(total + 1, donorTokens[1..], recipientTokens)
    else ScanLocus(total, donorTokens[1..], recipientTokens)
  }

  /** The counter's tokenizer for an already trimmed locus value: split on
      comma/whitespace, trim, upper-case (empty pieces are never counted). */
  function LocusTokens(value: string): seq<string> {
    NormalizeAll(Split(value, LocusDelims))
  }

  /** One locus: nothing when either side is blank, otherwise the capped
      number of donor tokens found among the recipient's. */
  function LocusMatches(total: nat, donorValue: string, recipientValue: string): (r: nat)
    ensures AllSpace(donorValue) || AllSpace(recipientValue) ==> r == total
    ensures total <= r <= total + Cap(total)
    ensures !AllSpace(donorValue) && !AllSpace(recipientValue) ==>
      r == total + Min(Cap(total), MatchCount(LocusTokens(Trim(donorValue)), LocusTokens(Trim(recipientValue))))
  {
    var dv := Trim(donorValue);
    var rv := Trim(recipientValue);
    if dv != [] && rv != [] then ScanLocus(total, LocusTokens(dv), LocusTokens(rv))
    else total
  }

  /** Some locus at position `i` is blank on the donor's or the recipient's side. */
  predicate BlankPair(donorLoci: seq<string>, recipientLoci: seq<string>, i: int)
    requires 0 <= i < |donorLoci| && i < |recipientLoci|
  {
    AllSpace(donorLoci[i]) || AllSpace(recipientLoci[i])
  }

  /** The outer loop over the loci, threading the running total: each locus
      adds at most 2, and loci blank on either side add nothing. */
  function CountLoci(total: nat, donorLoci: seq<string>, recipientLoci: seq<string>): (r: nat)
    requires |donorLoci| == |recipientLoci|
    ensures total <= r <= total + 2 * |donorLoci|
    ensures (forall i :: 0 <= i < |donorLoci| ==> BlankPair(donorLoci, recipientLoci, i)) ==> r == total
    decreases |donorLoci|
  {
    if donorLoci == [] then total
    else
      var next := LocusMatches(total, donorLoci[0], recipientLoci[0]);
      var r := CountLoci(next, donorLoci[1..], recipientLoci[1..]);
      if forall i :: 0 <= i < |donorLoci| ==> BlankPair(donorLoci, recipientLoci, i) then
        BlankTail(donorLoci, recipientLoci);
        r
      else r
  }

  /** All-blank pairs stay all-blank after the first locus. */
  lemma {:induction false} BlankTail(donorLoci: seq<string>, recipientLoci: seq<string>)
    requires |donorLoci| == |recipientLoci| && donorLoci != []
    requires forall i :: 0 <= i < |donorLoci| ==> BlankPair(donorLoci, recipientLoci, i)
    ensures AllSpace(donorLoci[0]) || AllSpace(recipientLoci[0])
    ensures forall i :: 0 <= i < |donorLoci| - 1 ==> BlankPair(donorLoci[1..], recipientLoci[1..], i)
  {
    assert BlankPair(donorLoci, recipientLoci, 0);
    forall i | 0 <= i < |donorLoci| - 1
      ensures BlankPair(donorLoci[1..], recipientLoci[1..], i)
    {
      assert BlankPair(donorLoci, recipientLoci, i + 1);
    }
  }

  /** The source accumulates from the first locus on: counting one more locus
      is one more `LocusMatches` step on the total so far. */
  lemma {:induction false} CountLociStep(total: nat, donorLoci: seq<string>, recipientLoci: seq<string>,
                                         donorValue: string, recipientValue: string)
    requires |donorLoci| == |recipientLoci|
    ensures CountLoci(total, donorLoci + [donorValue], recipientLoci + [recipientValue])
         == LocusMatches(CountLoci(total, donorLoci, recipientLoci), donorValue, recipientValue)
    decreases |donorLoci|
  {
    if donorLoci == [] {
      assert donorLoci + [donorValue] == [donorValue];
      assert recipientLoci + [recipientValue] == [recipientValue];
    } else {
      assert (donorLoci + [donorValue])[1..] == donorLoci[1..] + [donorValue];
      assert (recipientLoci + [recipientValue])[1..] == recipientLoci[1..] + [recipientValue];
      CountLociStep(LocusMatches(total, donorLoci[0], recipientLoci[0]), donorLoci[1..], recipientLoci[1..],
                    donorValue, recipientValue);
    }
  }

  /** Zero when either typing is absent or every locus is blank on one side;
      never more than 12. */
  function CalculateHLAMatches(donorHla: Option<HlaTyping>, recipientHla: Option<HlaTyping>): (r: nat)
    ensures donorHla.None? || recipientHla.None? ==> r == 0
    ensures (&& donorHla.Some? && recipientHla.Some?
             && forall i :: 0 <= i < 6 ==> BlankPair(Loci(donorHla.value), Loci(recipientHla.value), i))
            ==> r == 0
    ensures r <= 12
  {
    if donorHla.None? || recipientHla.None? then 0
    else CountLoci(0, Loci(donorHla.value), Loci(recipientHla.value))
  }

  /** The count is the running total after the six loci in the order A, B,
      C, DR, DQ, DP, each locus one `LocusMatches` step. */
  lemma {:induction false} HlaMatchesLocusByLocus(d: HlaTyping, r: HlaTyping)
    ensures CalculateHLAMatches(Some(d), Some(r))
      == LocusMatches(LocusMatches(LocusMatches(LocusMatches(LocusMatches(LocusMatches(0,
           d.a, r.a), d.b, r.b), d.c, r.c), d.dr, r.dr), d.dq, r.dq), d.dp, r.dp)
  {
    CountSixLoci(Loci(d), Loci(r));
  }

  /** Six loci are six `LocusMatches` steps from a total of zero. */
  lemma {:induction false} CountSixLoci(ds: seq<string>, rs: seq<string>)
    requires |ds| == 6 && |rs| == 6
    ensures CountLoci(0, ds, rs)
      == LocusMatches(LocusMatches(LocusMatches(LocusMatches(LocusMatches(LocusMatches(0,
           ds[0], rs[0]), ds[1], rs[1]), ds[2], rs[2]), ds[3], rs[3]), ds[4], rs[4]), ds[5], rs[5])
  {
    var t1 := LocusMatches(0, ds[0], rs[0]);
    var t2 := LocusMatches(t1, ds[1], rs[1]);
    var t3 := LocusMatches(t2, ds[2], rs[2]);
    var t4 := LocusMatches(t3, ds[3], rs[3]);
    var t5 := LocusMatches(t4, ds[4], rs[4]);
    var t6 := LocusMatches(t5, ds[5], rs[5]);
    assert CountLoci(0, ds, rs) == CountLoci(t1, ds[1..], rs[1..]) by {
      assert ds[0..] == ds && rs[0..] == rs;
      SkipLocus(0, ds, rs, 0);
    }
    assert CountLoci(t1, ds[1..], rs[1..]) == CountLoci(t2, ds[2..], rs[2..]) by { SkipLocus(t1, ds, rs, 1); }
    assert CountLoci(t2, ds[2..], rs[2..]) == CountLoci(t3, ds[3..], rs[3..]) by { SkipLocus(t2, ds, rs, 2); }
    assert CountLoci(t3, ds[3..], rs[3..]) == CountLoci(t4, ds[4..], rs[4..]) by { SkipLocus(t3, ds, rs, 3); }
    assert CountLoci(t4, ds[4..], rs[4..]) == CountLoci(t5, ds[5..], rs[5..]) by { SkipLocus(t4, ds, rs, 4); }
    assert CountLoci(t5, ds[5..], rs[5..]) == CountLoci(t6, ds[6..], rs[6..]) by { SkipLocus(t5, ds, rs, 5); }
    assert CountLoci(t6, ds[6..], rs[6..]) == t6 by { assert ds[6..] == []; }
  }

  /** One unfolding of `CountLoci` at position `k`. */
  lemma {:induction false} SkipLocus(total: nat, ds: seq<string>, rs: seq<string>, k: nat)
    requires |ds| == |rs| && k < |ds|
    ensures CountLoci(total, ds[k..], rs[k..])
         == CountLoci(LocusMatches(total, ds[k], rs[k]), ds[k + 1..], rs[k + 1..])
  {
    assert ds[k..][1..] == ds[k + 1..];
    assert rs[k..][1..] == rs[k + 1..];
  }

  /** The inner loop of the source over one locus' donor tokens. */
  method ScanLocusLoop(total: nat, donorAntigens: seq<string>, recipientAntigens: seq<string>)
    returns (matches: nat)
    ensures matches == ScanLocus(total, donorAntigens, recipientAntigens)
    ensures matches == total + Min(Cap(total), MatchCount(donorAntigens, recipientAntigens))
  {
    matches := total;
    var k := 0;
    while k < |donorAntigens|
      invariant 0 <= k <= |donorAntigens|
      invariant ScanLocus(total, donorAntigens, recipientAntigens)
        == ScanLocus(matches, donorAntigens[k..], recipientAntigens)
    {
      var dAntigen := donorAntigens[k];
      if dAntigen != [] && dAntigen in recipientAntigens {
        matches := matches + 1;
        if matches % 2 == 0 {
          break;
        }
      }
      k := k + 1;
    }
  }

  /** One pass of the source's outer loop: a locus is scanned only when both
      trimmed values are non-empty. */
  method LocusStep(matches: nat, donorLocus: string, recipientLocus: string) returns (r: nat)
    ensures r == LocusMatches(matches, donorLocus, recipientLocus)
  {
    var donorValue := Trim(donorLocus);
    var recipientValue := Trim(recipientLocus);
    r := matches;
    if donorValue != [] && recipientValue != [] {
      r := ScanLocusLoop(matches, LocusTokens(donorValue), LocusTokens(recipientValue));
    }
  }

  /** The counter as the source writes it: a loop over the loci and, inside,
      a loop over the donor's tokens that breaks once the total is even. */
  method CountHLAMatches(donorHla: Option<HlaTyping>, recipientHla: Option<HlaTyping>) returns (matches: nat)
    ensures matches == CalculateHLAMatches(donorHla, recipientHla)
    ensures matches <= 12
  {
    if donorHla.None? || recipientHla.None? {
      return 0;
    }
    var donorLoci := Loci(donorHla.value);
    var recipientLoci := Loci(recipientHla.value);
    matches := 0;
    var l := 0;
    while l < 6
      invariant 0 <= l <= 6
      invariant CountLoci(0, donorLoci, recipientLoci) == CountLoci(matches, donorLoci[l..], recipientLoci[l..])
    {
      assert donorLoci[l..][1..] == donorLoci[l + 1..];
      assert recipientLoci[l..][1..] == recipientLoci[l + 1..];
      matches := LocusStep(matches, donorLoci[l], recipientLoci[l]);
      l := l + 1;
    }
  }

  // ---------------------------------------------------------------------
  // Score

  /** Zero exactly when a gate fails (blood type, crossmatch, fewer than 3 HLA
      matches); otherwise one half plus one twenty-fourth per HLA match, up to 12. */
  function CalculateCompatibilityScore(bloodTypeMatch: bool, hlaMatches: int, crossmatchCompatible: bool): (r: real)
    ensures r == 0.0 <==> !bloodTypeMatch || !crossmatchCompatible || hlaMatches < 3
    ensures r != 0.0 ==> r == 0.5 + Min(hlaMatches, 12) as real / 24.0
    ensures r != 0.0 ==> 0.625 <= r <= 1.0
  {
    if !bloodTypeMatch || !crossmatchCompatible then 0.0
    else if hlaMatches < 3 then 0.0
    else
      var maxPossibleHLAMatches := 12;
      var hlaScore := (Min(hlaMatches, maxPossibleHLAMatches) as real / maxPossibleHLAMatches as real) * 50.0;
      var score := hlaScore + (if bloodTypeMatch then 30.0 else 0.0) + (if crossmatchCompatible then 20.0 else 0.0);
      score / 100.0
  }

  /** More HLA matches never lower the score. */
  lemma ScoreMonotoneInHla(bloodTypeMatch: bool, crossmatchCompatible: bool, h1: int, h2: int)
    requires h1 <= h2
    ensures CalculateCompatibilityScore(bloodTypeMatch, h1, crossmatchCompatible)
         <= CalculateCompatibilityScore(bloodTypeMatch, h2, crossmatchCompatible)
  {
  }

  // ---------------------------------------------------------------------
  // Gate sequence for one donor

  const ReasonBloodType: string := "Excluded: Blood type incompatible"
  const ReasonCrossmatch: string := "Excluded: Crossmatch incompatible"
  const ReasonInsufficientHla: string := "Excluded: Insufficient HLA matches"

  function AntigenReason(matched: seq<string>): string {
    "Excluded: Unacceptable antigens present (" + Join(matched, ", ") + ")"
  }

  /** One donor through the gates, in order: unacceptable antigens, blood
      type, crossmatch, then HLA count and score. */
  function EvaluateDonor(recipient: Recipient, donor: Donor): (m: MatchResult)
    ensures m.donor == donor
    ensures 0 <= m.matchDetails.hlaMatches <= 12
    // the antigen screen comes first and, when it fires, decides everything
    ensures m.matchDetails.hasUnacceptableAntigens
      <==> CheckUnacceptableAntigens(donor.hlaTyping, recipient.unacceptableAntigens).hasUnacceptableAntigens
    ensures m.matchDetails.hasUnacceptableAntigens ==>
      && !m.matchDetails.bloodTypeMatch && !m.matchDetails.crossmatchCompatible
      && m.matchDetails.hlaMatches == 0 && m.compatibilityScore == 0.0
      && m.matchDetails.excludedReason == Some(AntigenReason(
           CheckUnacceptableAntigens(donor.hlaTyping, recipient.unacceptableAntigens).matchedAntigens))
    // then blood type
    ensures !m.matchDetails.hasUnacceptableAntigens ==>
      (m.matchDetails.bloodTypeMatch <==> IsBloodTypeCompatible(donor.bloodType, recipient.bloodType))
    ensures !m.matchDetails.hasUnacceptableAntigens && !m.matchDetails.bloodTypeMatch ==>
      && !m.matchDetails.crossmatchCompatible && m.matchDetails.hlaMatches == 0
      && m.compatibilityScore == 0.0 && m.matchDetails.excludedReason == Some(ReasonBloodType)
    // then crossmatch, by string equality
    ensures m.matchDetails.bloodTypeMatch ==>
      (m.matchDetails.crossmatchCompatible <==> donor.crossmatchResult == recipient.crossmatchRequirement)
    ensures m.matchDetails.bloodTypeMatch && !m.matchDetails.crossmatchCompatible ==>
      && m.matchDetails.hlaMatches == 0 && m.compatibilityScore == 0.0
      && m.matchDetails.excludedReason == Some(ReasonCrossmatch)
    // a donor through every gate
    ensures m.matchDetails.crossmatchCompatible ==>
      && m.matchDetails.bloodTypeMatch && !m.matchDetails.hasUnacceptableAntigens
      && m.matchDetails.hlaMatches == CalculateHLAMatches(Some(donor.hlaTyping), Some(recipient.hlaTyping))
      && (m.matchDetails.excludedReason == Some(ReasonInsufficientHla) <==> m.matchDetails.hlaMatches < 3)
      && (m.matchDetails.excludedReason.None? <==> m.matchDetails.hlaMatches >= 3)
      && m.compatibilityScore == CalculateCompatibilityScore(true, m.matchDetails.hlaMatches, true)
    // the score is zero exactly when some gate failed, and then a reason is given
    ensures m.compatibilityScore == 0.0 <==>
      (|| m.matchDetails.hasUnacceptableAntigens || !m.matchDetails.bloodTypeMatch
       || !m.matchDetails.crossmatchCompatible || m.matchDetails.hlaMatches < 3)
    ensures m.compatibilityScore == 0.0 <==> m.matchDetails.excludedReason.Some?
    ensures m.compatibilityScore != 0.0 ==> 0.625 <= m.compatibilityScore <= 1.0
  {
    var screen := CheckUnacceptableAntigens(donor.hlaTyping, recipient.unacceptableAntigens);
    if screen.hasUnacceptableAntigens then
      MatchResult(donor, 0.0, MatchDetails(false, 0, false, true, Some(AntigenReason(screen.matchedAntigens))))
    else if !IsBloodTypeCompatible(donor.bloodType, recipient.bloodType) then
      MatchResult(donor, 0.0, MatchDetails(false, 0, false, false, Some(ReasonBloodType)))
    else if donor.crossmatchResult != recipient.crossmatchRequirement then
      MatchResult(donor, 0.0, MatchDetails(true, 0, false, false, Some(ReasonCrossmatch)))
    else
      var hlaMatches := CalculateHLAMatches(Some(donor.hlaTyping), Some(recipient.hlaTyping));
      var score := CalculateCompatibilityScore(true, hlaMatches, true);
      MatchResult(donor, score, MatchDetails(true, hlaMatches, true, false,
        if score == 0.0 then Some(ReasonInsufficientHla) else None))
  }
}
