/** The eight ABO/Rh blood types and the standard red-cell donation rule,
    used as the reference against which the source's lookup tables are judged. */
module BloodGroups {
  import opened Wrappers

  datatype Abo = O | A | B | AB

  datatype BloodType = BloodType(abo: Abo, rhPositive: bool)

  /** The label the application stores, e.g. `"AB-"`. */
  function Name(t: BloodType): string {
    match (t.abo, t.rhPositive)
    case (O, false) => "O-"
    case (O, true) => "O+"
    case (A, false) => "A-"
    case (A, true) => "A+"
    case (B, false) => "B-"
    case (B, true) => "B+"
    case (AB, false) => "AB-"
    case (AB, true) => "AB+"
  }

  const Names: seq<string> := ["O-", "O+", "A-", "A+", "B-", "B+", "AB-", "AB+"]

  /** Reads one of the eight labels; anything else is unknown. */
  function Parse(s: string): (r: Option<BloodType>)
    ensures r.Some? <==> s in Names
    ensures r.Some? ==> Name(r.value) == s
  {
    if s == "O-" then Some(BloodType(O, false))
    else if s == "O+" then Some(BloodType(O, true))
    else if s == "A-" then Some(BloodType(A, false))
    else if s == "A+" then Some(BloodType(A, true))
    else if s == "B-" then Some(BloodType(B, false))
    else if s == "B+" then Some(BloodType(B, true))
    else if s == "AB-" then Some(BloodType(AB, false))
    else if s == "AB+" then Some(BloodType(AB, true))
    else None
  }

  /** Every blood type reads back from its label. */
  lemma ParseName(t: BloodType)
    ensures Parse(Name(t)) == Some(t)
  {
    match t.abo
    case O =>
    case A =>
    case B =>
    case AB =>
  }

  /** Standard rule: the donor's red cells carry no ABO or RhD antigen the recipient lacks. */
  predicate CanDonate(donor: BloodType, recipient: BloodType) {
    && (donor.abo == O || donor.abo == recipient.abo || recipient.abo == AB)
    && (!donor.rhPositive || recipient.rhPositive)
  }
}
