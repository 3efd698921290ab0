/** Money and settlement events: the values all three owners exchange. */
module Settlement {
  import opened Common

  datatype CurrencyType = UNKNOWN | USD | EUR | GBP | BTC | ETH | USDT | USDC | RUB | UAH | KZT

  const MAX_MONEY_PRECISION: uint8 := 18

  datatype MoneyAmount = MoneyAmount(units: int64, precision: uint8, currency: CurrencyType) {
    predicate ValidMetadata() {
      precision <= MAX_MONEY_PRECISION && currency != UNKNOWN
    }

    predicate SameCurrency(other: MoneyAmount) {
      currency == other.currency && precision == other.precision
    }
  }

  datatype OutcomeKind = Win | Loss | Draw | Rejected | Cancelled | Unknown
  datatype ExecutionEvidence = NotSubmitted | MayHaveExecuted | Executed
  datatype AggregationStatus = Pending | Ready | NumericOverflow

  datatype ProgressionResult =
    | Applied
    | Duplicate
    | SettlementConflict
    | RevisionConflict
    | RevisionOverflow
    | InvalidState
    | InvalidIdentity
    | InvalidConfiguration
    | UnsupportedCardinality
    | IntentAlreadyUsed
    | WrongOperation
    | UnknownMember
    | MemberAlreadyTerminal
    | InvalidOutcome
    | CurrencyMismatch
    | PrecisionMismatch
    | StepLimitReached
    | IdempotencyKeyAlreadyUsed

  /** One event for one physical member. The source's field-by-field equality is `==` here. */
  datatype TradeSettlement = TradeSettlement(
    settlementId: uint64,
    intentId: uint64,
    groupId: uint64,
    tradeId: uint64,
    kind: OutcomeKind,
    evidence: ExecutionEvidence,
    netProfit: Option<MoneyAmount>)
  {
    predicate Terminal() {
      kind != Unknown
    }

    predicate IsTradingResult() {
      kind.Win? || kind.Loss? || kind.Draw?
    }

    predicate Valid() {
      && settlementId != 0 && intentId != 0 && tradeId != 0
      && if IsTradingResult() then
           && evidence.Executed?
           && netProfit.Some?
           && netProfit.value.ValidMetadata()
           && (kind.Win? ==> netProfit.value.units > 0)
           && (kind.Loss? ==> netProfit.value.units < 0)
           && (kind.Draw? ==> netProfit.value.units == 0)
         else
           && netProfit.None?
           && evidence == if kind.Unknown? then MayHaveExecuted else NotSubmitted
    }
  }

  datatype GroupOutcome = GroupOutcome(
    final: bool,
    unresolved: bool,
    allMembersTerminal: bool,
    completedMembers: uint32,
    status: AggregationStatus,
    kind: Option<OutcomeKind>,
    netProfit: Option<MoneyAmount>)

  const NO_OUTCOME := GroupOutcome(false, false, false, 0, Pending, None, None)

  /** The logical kind of a closed group: the sign of its net, or why nothing ran. */
  function ClosingKind(executed: bool, rejected: bool, net: int): OutcomeKind {
    if executed then (if net > 0 then Win else if net < 0 then Loss else Draw)
    else if rejected then OutcomeKind.Rejected
    else OutcomeKind.Cancelled
  }

  /** Money is known in a real currency, to at most eighteen decimals, and compares within one of both. */
  lemma MoneyExactly(a: MoneyAmount, b: MoneyAmount)
    ensures a.ValidMetadata() <==> 0 <= a.precision as int <= 18 && !a.currency.UNKNOWN?
    ensures a.SameCurrency(b) <==> MoneyAmount(0, a.precision, a.currency) == MoneyAmount(0, b.precision, b.currency)
  {
  }

  /**
   * An event is valid exactly if its ids are set and its kind is what its evidence says: the sign of the
   * profit of something executed, a refusal or cancellation of something never submitted, or unknown.
   */
  lemma EventsExactly(e: TradeSettlement)
    ensures e.Valid() <==>
      && e.settlementId > 0 && e.intentId > 0 && e.tradeId > 0
      && match e.evidence
         case Executed => e.netProfit.Some? && e.netProfit.value.ValidMetadata()
                          && e.kind == ClosingKind(true, false, e.netProfit.value.units as int)
         case NotSubmitted => e.netProfit.None? && (e.kind.Rejected? || e.kind.Cancelled?)
         case MayHaveExecuted => e.netProfit.None? && e.kind.Unknown?
    ensures e.Terminal() <==> e.kind in {Win, Loss, Draw, OutcomeKind.Rejected, OutcomeKind.Cancelled}
  {
  }

  lemma ClosingKindsExactly(rejected: bool, net: int)
    ensures ClosingKind(true, rejected, net) == Win <==> net > 0
    ensures ClosingKind(true, rejected, net) == Loss <==> net < 0
    ensures ClosingKind(true, rejected, net) == Draw <==> net == 0
    ensures ClosingKind(false, rejected, net) == if rejected then OutcomeKind.Rejected else OutcomeKind.Cancelled
  {
  }
}
