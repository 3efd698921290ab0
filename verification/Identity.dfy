/** Identities, cardinalities and the intent envelope. */
module Identity {
  import opened Common

  datatype IntentStatus =
    Proposed | Rejected | Admitted | Submitting | ExecutionUnknown | Executed | Settled | Cancelled

  datatype ExecutionCardinality = ZeroOrOne | ExactlyOne | Multiple | SplitGroup

  datatype ExecutionGroupIdentity = ExecutionGroupIdentity(groupId: uint64, expectedMembers: uint32) {
    predicate ValidFor(cardinality: ExecutionCardinality) {
      match cardinality
      case ZeroOrOne => groupId == 0 && expectedMembers <= 1
      case ExactlyOne => expectedMembers == 1
      case Multiple => groupId != 0 && expectedMembers >= 2
      case SplitGroup => groupId != 0 && expectedMembers >= 2
    }

    /** ZERO_OR_ONE may omit the member count; its one slot is still reserved. */
    function NormalizedFor(cardinality: ExecutionCardinality): ExecutionGroupIdentity {
      if cardinality.ZeroOrOne? then this.(expectedMembers := 1) else this
    }
  }

  /** The identity part of an intent; the broker request and the intent's own revision play no role here. */
  datatype TradeIntent = TradeIntent(
    intentId: uint64,
    originSignalId: uint64,
    seriesId: uint64,
    seriesStep: int32,
    executionGroup: ExecutionGroupIdentity,
    cardinality: ExecutionCardinality,
    status: IntentStatus,
    idempotencyKey: string)
  {
    predicate Valid() {
      && intentId != 0
      && ((seriesId == 0 && seriesStep == -1) || (seriesId != 0 && seriesStep >= 0))
      && idempotencyKey != ""
      && executionGroup.ValidFor(cardinality)
    }

    function NormalizedGroup(): ExecutionGroupIdentity {
      executionGroup.NormalizedFor(cardinality)
    }
  }

  /** One slot for at most one execution, exactly one, or a numbered group of two or more. */
  lemma ShapesExactly(identity: ExecutionGroupIdentity)
    ensures identity.ValidFor(ZeroOrOne) <==>
      identity.groupId == 0 && (identity.expectedMembers == 0 || identity.expectedMembers == 1)
    ensures identity.ValidFor(ExactlyOne) <==> identity.expectedMembers == 1
    ensures identity.ValidFor(Multiple) <==> identity.groupId > 0 && identity.expectedMembers > 1
    ensures identity.ValidFor(SplitGroup) <==> identity.groupId > 0 && identity.expectedMembers > 1
    ensures identity.NormalizedFor(ZeroOrOne) == ExecutionGroupIdentity(identity.groupId, 1)
    ensures forall c :: c != ZeroOrOne ==> identity.NormalizedFor(c) == identity
  {
  }

  /** An intent is numbered and keyed, stands alone or in a series, and has a fitting group. */
  lemma IntentsExactly(intent: TradeIntent)
    ensures intent.Valid() <==>
      && intent.intentId > 0 && |intent.idempotencyKey| > 0
      && (intent.seriesId == 0 ==> intent.seriesStep == -1) && (intent.seriesId > 0 ==> intent.seriesStep > -1)
      && intent.executionGroup.ValidFor(intent.cardinality)
    ensures intent.NormalizedGroup().groupId == intent.executionGroup.groupId
    ensures intent.NormalizedGroup().expectedMembers ==
      if intent.cardinality.ZeroOrOne? then 1 else intent.executionGroup.expectedMembers
  {
  }
}
