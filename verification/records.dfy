/** The entities the matching engine and the pages exchange. Strings that the
    storage layer may leave absent are the empty string here, as the record
    transforms of the application make them. */
module Records {
  import opened Wrappers

  /** Six HLA loci, each a free-text list of antigen codes. */
  datatype HlaTyping = HlaTyping(a: string, b: string, c: string, dr: string, dq: string, dp: string)

  /** The loci in the order A, B, C, DR, DQ, DP. */
  function Loci(t: HlaTyping): (r: seq<string>)
    ensures |r| == 6
  {
    [t.a, t.b, t.c, t.dr, t.dq, t.dp]
  }

  datatype DonorStatus = Available | Utilized

  function StatusName(s: DonorStatus): string {
    match s
    case Available => "Available"
    case Utilized => "Utilized"
  }

  datatype Donor = Donor(
    id: string,
    mrn: string,
    fullName: string,
    bloodType: string,
    hlaTyping: HlaTyping,
    crossmatchResult: string,
    status: DonorStatus)

  datatype Recipient = Recipient(
    id: string,
    mrn: string,
    fullName: string,
    bloodType: string,
    hlaTyping: HlaTyping,
    crossmatchRequirement: string,
    unacceptableAntigens: string)

  datatype MatchDetails = MatchDetails(
    bloodTypeMatch: bool,
    hlaMatches: int,
    crossmatchCompatible: bool,
    hasUnacceptableAntigens: bool,
    excludedReason: Option<string>)

  /** One donor's outcome; scores are exact reals rather than IEEE doubles. */
  datatype MatchResult = MatchResult(donor: Donor, compatibilityScore: real, matchDetails: MatchDetails)

  /** A donor excluded by the unacceptable-antigen screen. */
  predicate Excluded(m: MatchResult) {
    m.matchDetails.hasUnacceptableAntigens
  }
}
