/** The older blood-type utility of `src/lib/utils/matching/blood-type.ts`.
    Its table lists, for each key, the types that key can RECEIVE from, but
    the lookup reads the row of the DONOR; `IsBloodTypeCompatible` models
    that as written and `IsBloodTypeCompatibleCorrected` the reading the
    table supports. */
module BloodTypeTable {
  import opened BloodGroups

  const ONeg := BloodType(O, false)
  const OPos := BloodType(O, true)
  const ANeg := BloodType(A, false)
  const APos := BloodType(A, true)
  const BNeg := BloodType(B, false)
  const BPos := BloodType(B, true)
  const ABNeg := BloodType(AB, false)
  const ABPos := BloodType(AB, true)

  /** The row the compatibility table holds for `key`: the types `key` may receive from. */
  function Row(key: BloodType): seq<BloodType> {
    match (key.abo, key.rhPositive)
    case (O, false) => [ONeg]
    case (O, true) => [ONeg, OPos]
    case (A, false) => [ONeg, ANeg]
    case (A, true) => [ONeg, OPos, ANeg, APos]
    case (B, false) => [ONeg, BNeg]
    case (B, true) => [ONeg, OPos, BNeg, BPos]
    case (AB, false) => [ONeg, ANeg, BNeg, ABNeg]
    case (AB, true) => [ONeg, OPos, ANeg, APos, BNeg, BPos, ABNeg, ABPos]
  }

  /** Each row lists exactly the donors its key may receive from under the
      standard rule; hence every row holds its own key and `O-`. */
  lemma RowIsReceiverList(key: BloodType, t: BloodType)
    ensures t in Row(key) <==> CanDonate(t, key)
    ensures key in Row(key) && ONeg in Row(key)
  {
    match key.abo
    case O =>
    case A =>
    case B =>
    case AB =>
  }

  /** As written: `O-` donates to everyone, any other donor to the types in
      its own row. */
  function IsBloodTypeCompatible(donorType: BloodType, recipientType: BloodType): (ok: bool)
    ensures donorType == ONeg ==> ok
    ensures ok <==> donorType == ONeg || CanDonate(recipientType, donorType)
  {
    RowIsReceiverList(donorType, recipientType);
    if donorType == ONeg then true
    else recipientType in Row(donorType)
  }

  /** As written the relation is reflexive: every type may give to itself. */
  lemma AsWrittenReflexive(t: BloodType)
    ensures IsBloodTypeCompatible(t, t)
  {
    RowIsReceiverList(t, t);
  }

  /** As written, `AB+` gives to all eight types and `O+` only to group O. */
  lemma AsWrittenExtremes(recipientType: BloodType)
    ensures IsBloodTypeCompatible(ABPos, recipientType)
    ensures IsBloodTypeCompatible(OPos, recipientType) <==> recipientType == ONeg || recipientType == OPos
  {
  }

  /** The discrepancy: as written an `AB+` donor is accepted for an `O-`
      recipient, which the standard rule forbids, and an `O+` donor is
      refused for an `A+` recipient, which the rule allows. */
  lemma AsWrittenCounterexample()
    ensures IsBloodTypeCompatible(ABPos, ONeg) && !CanDonate(ABPos, ONeg)
    ensures !IsBloodTypeCompatible(OPos, APos) && CanDonate(OPos, APos)
  {
  }

  /** Corrected: read the row of the RECIPIENT, as the table is laid out. */
  function IsBloodTypeCompatibleCorrected(donorType: BloodType, recipientType: BloodType): (ok: bool)
    ensures ok <==> CanDonate(donorType, recipientType)
    ensures donorType == ONeg ==> ok
  {
    RowIsReceiverList(recipientType, donorType);
    donorType == ONeg || donorType in Row(recipientType)
  }
}
