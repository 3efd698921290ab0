/** Why the risk owner grants or refuses each call, and what a granted one leaves behind. */
module RiskLaws {
  import opened Common
  import opened Identity
  import opened Settlement
  import opened Aggregator
  import opened GroupRuns
  import opened GroupLaws
  import opened RiskEvidence
  import R = Risk

  /** A configuration that can admit at all: a numbered scope, an age limit, a positive limit in known money. */
  lemma ConfigurationsExactly(b: R.Book)
    ensures b.Valid() <==>
      && b.idsValid && b.config.scope.scopeId > 0 && b.config.maxSnapshotAgeMs as int >= 0
      && match b.config.maxReservedRisk
         case None => true
         case Some(limit) => limit.units as int > 0 && limit.precision as int <= 18 && !limit.currency.UNKNOWN?
  {
  }

  /** A new owner knows no account and no reservation, and has every id from the first one left. */
  lemma NewBookIs(config: R.RiskAdmissionConfig, firstId: uint64)
    ensures
      var b := R.NewBook(config, firstId);
      && b.config == config && b.nextId == firstId && (b.idsValid <==> firstId > 0) && !b.idsExhausted
      && b.snapshot.None? && |b.byKey| == 0 && |b.byIntent| == 0
  {
  }

  lemma RequestsExactly(request: R.RiskRequest)
    ensures request.ValidIdentity() <==>
      && request.intentId > 0 && |request.idempotencyKey| > 0
      && request.executionGroup.ValidFor(request.cardinality)
      && request.intentStatus in {Proposed, Admitted}
  {
  }

  lemma SnapshotsExactly(snapshot: R.RiskAccountSnapshot)
    ensures snapshot.Valid() <==>
      && snapshot.availability == R.RiskAvailability.Supported
      && snapshot.availableBalance.units as int >= 0
      && snapshot.availableBalance.precision as int <= 18 && !snapshot.availableBalance.currency.UNKNOWN?
  {
  }

  // Reservation requests.

  /** The configuration is usable, the request well-formed, its key and intent are new and an id is left. */
  ghost predicate NewRequest(b: R.Book, request: R.RiskRequest) {
    && b.Valid() && request.ValidIdentity()
    && request.idempotencyKey !in b.byKey && request.intentId !in b.byIntent
    && !b.idsExhausted
  }

  predicate KnownMoney(m: MoneyAmount) {
    m.precision as int <= 18 && !m.currency.UNKNOWN?
  }

  predicate InOneMoney(a: MoneyAmount, b: MoneyAmount) {
    a.currency == b.currency && a.precision == b.precision
  }

  /** Stake and risk are positive amounts of one known money. */
  predicate SoundMoney(request: R.RiskRequest) {
    && KnownMoney(request.stake) && KnownMoney(request.potentialRisk)
    && InOneMoney(request.stake, request.potentialRisk)
    && request.stake.units > 0 && request.potentialRisk.units > 0
  }

  /** A supported snapshot in the money of the request, not from the future and not too old. */
  predicate Quoted(b: R.Book, request: R.RiskRequest) {
    b.snapshot.Some? && b.snapshot.value.availability.Supported?
    && InOneMoney(b.snapshot.value.availableBalance, request.potentialRisk)
  }

  predicate FreshQuote(b: R.Book, request: R.RiskRequest, nowMs: int64) {
    && Quoted(b, request)
    && b.snapshot.value.capturedAtMs <= nowMs
    && nowMs as int <= b.snapshot.value.capturedAtMs as int + b.config.maxSnapshotAgeMs as int
  }

  /** The exact total with the request, against the balance and against the limit. */
  ghost function TotalWith(b: R.Book, request: R.RiskRequest): int {
    R.RiskSum(b.byKey) + request.potentialRisk.units as int
  }

  ghost predicate Affordable(b: R.Book, request: R.RiskRequest)
    requires b.snapshot.Some?
  {
    TotalWith(b, request) <= b.snapshot.value.availableBalance.units as int
  }

  ghost predicate UnderLimit(b: R.Book, request: R.RiskRequest) {
    match b.config.maxReservedRisk
    case None => true
    case Some(limit) =>
      InOneMoney(limit, request.potentialRisk) && TotalWith(b, request) <= limit.units as int
  }

  /** A request is admitted exactly if nothing at all speaks against it. */
  lemma ReserveExactly(b: R.Book, request: R.RiskRequest, nowMs: int64)
    ensures R.Answer(b, R.RiskCall.Reserve(request, nowMs)).kind.Admitted? <==>
      && NewRequest(b, request) && SoundMoney(request) && FreshQuote(b, request, nowMs)
      && TotalWith(b, request) <= INT64_MAX && Affordable(b, request) && UnderLimit(b, request)
  {
    hide R.RiskSum;
  }

  /** Refusals by identity, in their order. */
  lemma IdentityRefusalsExactly(b: R.Book, request: R.RiskRequest, nowMs: int64)
    ensures
      var a := R.Answer(b, R.RiskCall.Reserve(request, nowMs));
      var known := b.Valid() && request.ValidIdentity() && request.idempotencyKey in b.byKey;
      var same := known && PayloadOf(b.byKey[request.idempotencyKey], request);
      && (a == R.RejectedFor(R.InvalidConfiguration) <==> !b.Valid())
      && (a == R.RejectedFor(R.InvalidRequest) <==> b.Valid() && !request.ValidIdentity())
      && (a.kind.Duplicate? <==> same)
      && (same ==> a.reason.NoReason? && a.reservation == Some(b.byKey[request.idempotencyKey]))
      && (a == R.ConflictFor(R.PayloadConflict) <==>
            (known && !same)
            || (b.Valid() && request.ValidIdentity() && !known && request.intentId in b.byIntent))
      && (!known && b.Valid() && request.ValidIdentity() && request.intentId !in b.byIntent && b.idsExhausted ==>
            a == R.RejectedFor(R.NumericOverflow))
  {
    hide R.RiskSum;
  }

  /** The stored reservation is what this request would have been stored as, in every compared field. */
  predicate PayloadOf(stored: RiskReservation, request: R.RiskRequest) {
    && stored.intentId == request.intentId
    && stored.executionGroup.groupId == request.executionGroup.groupId
    && stored.executionGroup.expectedMembers ==
       (if request.cardinality.ZeroOrOne? then 1 else request.executionGroup.expectedMembers)
    && stored.cardinality == request.cardinality
    && stored.stake == request.stake && stored.potentialRisk == request.potentialRisk
  }

  /** Refusals by the money of a new request, in their order. */
  lemma MoneyRefusalsExactly(b: R.Book, request: R.RiskRequest, nowMs: int64)
    requires NewRequest(b, request)
    ensures
      var a := R.Answer(b, R.RiskCall.Reserve(request, nowMs));
      var stake, risk := request.stake, request.potentialRisk;
      var known := KnownMoney(stake) && KnownMoney(risk);
      var alike := known && InOneMoney(stake, risk);
      var sound := alike && stake.units > 0 && risk.units > 0;
      var supported := b.snapshot.Some? && b.snapshot.value.availability.Supported?;
      && (a == R.RejectedFor(R.InvalidRisk) <==> !known || (alike && !sound))
      && (known && !alike ==>
            a == R.RejectedFor(if stake.currency != risk.currency then R.CurrencyMismatch else R.PrecisionMismatch))
      && (a == R.UnavailableFor(R.SnapshotUnavailable) <==> sound && !supported)
      && (sound && supported && !Quoted(b, request) ==>
            a == R.RejectedFor(if b.snapshot.value.availableBalance.currency != risk.currency
                               then R.CurrencyMismatch else R.PrecisionMismatch))
      && (a == R.UnavailableFor(R.SnapshotStale) <==>
            sound && Quoted(b, request) && !FreshQuote(b, request, nowMs))
  {
    hide R.RiskSum;
  }

  /** Refusals by the limits of a new request in sound money against a fresh snapshot. */
  lemma LimitRefusalsExactly(b: R.Book, request: R.RiskRequest, nowMs: int64)
    requires NewRequest(b, request) && SoundMoney(request) && FreshQuote(b, request, nowMs)
    ensures
      var a := R.Answer(b, R.RiskCall.Reserve(request, nowMs));
      var total := TotalWith(b, request);
      var affordable := total <= INT64_MAX && Affordable(b, request);
      var limit := b.config.maxReservedRisk;
      && (a == R.RejectedFor(R.NumericOverflow) <==> total > INT64_MAX)
      && (a == R.RejectedFor(R.BalanceLimitExceeded) <==> total <= INT64_MAX && !Affordable(b, request))
      && (a == R.RejectedFor(R.CurrencyMismatch) <==>
            affordable && limit.Some? && limit.value.currency != request.potentialRisk.currency)
      && (a == R.RejectedFor(R.PrecisionMismatch) <==>
            affordable && limit.Some? && limit.value.currency == request.potentialRisk.currency
            && limit.value.precision != request.potentialRisk.precision)
      && (a == R.RejectedFor(R.RiskLimitExceeded) <==>
            affordable && limit.Some? && InOneMoney(limit.value, request.potentialRisk)
            && total > limit.value.units as int)
  {
    hide R.RiskSum;
  }

  /** The caller may submit exactly after an admission or on a repeat of one that is still only reserved. */
  lemma SubmissionExactly(b: R.Book, request: R.RiskRequest, nowMs: int64)
    ensures
      var a := R.Answer(b, R.RiskCall.Reserve(request, nowMs));
      R.IsSubmissionAdmission(a) <==>
        || a.kind.Admitted?
        || (&& b.Valid() && request.ValidIdentity() && request.idempotencyKey in b.byKey
            && PayloadOf(b.byKey[request.idempotencyKey], request)
            && b.byKey[request.idempotencyKey].state == ReservationState.Reserved)
  {
    IdentityRefusalsExactly(b, request, nowMs);
    hide R.Answer;
  }

  /** What an admission stores and returns. */
  lemma AdmittedIs(b: R.Book, request: R.RiskRequest, nowMs: int64)
    requires R.Answer(b, R.RiskCall.Reserve(request, nowMs)).kind.Admitted?
    ensures
      var a := R.Answer(b, R.RiskCall.Reserve(request, nowMs));
      var c := R.Next(b, R.RiskCall.Reserve(request, nowMs));
      var key := request.idempotencyKey;
      && a.reason == R.RiskAdmissionReason.Reserved
      && c.byKey.Keys == b.byKey.Keys + {key} && key !in b.byKey
      && (forall k :: k in b.byKey ==> c.byKey[k] == b.byKey[k])
      && c.byIntent.Keys == b.byIntent.Keys + {request.intentId} && c.byIntent[request.intentId] == key
      && (forall i :: i in b.byIntent ==> c.byIntent[i] == b.byIntent[i])
      && c.nextId as int == (b.nextId as int + 1) % TWO_64 && (c.idsExhausted <==> c.nextId == 0)
      && c.config == b.config && c.snapshot == b.snapshot && c.idsValid == b.idsValid
      && a.reservation == Some(c.byKey[key])
      && var stored := c.byKey[key];
      && stored.reservationId == b.nextId && stored.idempotencyKey == key
      && PayloadOf(stored, request)
      && stored.scope == b.config.scope && stored.state == ReservationState.Reserved
      && b.snapshot.Some? && stored.accountRevision == b.snapshot.value.revision
  {
    R.AcceptedIsNew(b, request, nowMs);
    hide R.MoneyAnswer, R.LimitAnswer, R.RiskSum, R.IdentityAnswer;
  }

  // Snapshots.

  /** A valid snapshot replaces an older one of the same money, and nothing else does. */
  lemma SnapshotExactly(b: R.Book, next: R.RiskAccountSnapshot)
    ensures
      var call := R.RiskCall.UpdateSnapshot(next);
      var a := R.Answer(b, call);
      var usable := b.Valid() && next.Valid();
      var newer := usable && (b.snapshot.Some? ==> next.revision > b.snapshot.value.revision);
      var alike := newer && (b.snapshot.Some? ==>
                               InOneMoney(b.snapshot.value.availableBalance, next.availableBalance));
      && (a.kind.Applied? <==> alike)
      && (a.kind.Unavailable? <==> !usable)
      && (!usable ==> a.reason == if next.availability.Stale? then R.SnapshotStale else R.SnapshotUnavailable)
      && (a.kind.Duplicate? <==> usable && b.snapshot == Some(next))
      && (a == R.ConflictFor(R.RevisionConflict) <==> usable && !newer && b.snapshot != Some(next))
      && (newer && !alike ==>
            a == R.ConflictFor(if b.snapshot.value.availableBalance.currency != next.availableBalance.currency
                               then R.CurrencyMismatch else R.PrecisionMismatch))
      && R.Next(b, call) == if alike then b.(snapshot := Some(next)) else b
  {
  }

  // Transitions.

  /** The token names the stored reservation in every field but the state and the account revision. */
  predicate Names(token: RiskReservation, stored: RiskReservation) {
    && token.reservationId == stored.reservationId && token.scope == stored.scope
    && token.intentId == stored.intentId && token.executionGroup == stored.executionGroup
    && token.cardinality == stored.cardinality && token.idempotencyKey == stored.idempotencyKey
    && token.stake == stored.stake && token.potentialRisk == stored.potentialRisk
  }

  /** A move to `target` from one of `sources`: when it is made, and why it is not. */
  ghost predicate MovesExactly(
    b: R.Book, call: R.RiskCall, token: RiskReservation, sources: set<ReservationState>, target: ReservationState,
    reason: R.RiskAdmissionReason)
  {
    var a := R.Answer(b, call);
    var key := token.idempotencyKey;
    var stored := key in b.byKey;
    var named := stored && Names(token, b.byKey[key]);
    var movable := named && b.byKey[key].state in sources;
    && (a.kind.Applied? <==> movable)
    && (a == R.InvalidStateFor(R.UnknownReservation) <==> !stored)
    && (a == R.ConflictFor(R.PayloadConflict) <==> stored && !named)
    && (a.kind.Duplicate? <==> named && b.byKey[key].state == target)
    && (named && b.byKey[key].state == target ==> a.reservation == Some(b.byKey[key]))
    && (a == R.InvalidStateFor(R.InvalidTransition) <==> named && !movable && b.byKey[key].state != target)
    && (movable ==>
          && a.reason == reason && a.reservation == Some(b.byKey[key].(state := target))
          && R.Next(b, call) == b.(byKey := b.byKey[key := b.byKey[key].(state := target)]))
    && (!movable ==> R.Next(b, call) == b)
  }

  lemma CommitExactly(b: R.Book, token: RiskReservation)
    ensures MovesExactly(b, R.RiskCall.Commit(token), token, {ReservationState.Reserved}, Submitted, R.Committed)
  {
  }

  lemma ReleaseExactly(b: R.Book, token: RiskReservation)
    ensures MovesExactly(b, R.RiskCall.Release(token), token, {ReservationState.Reserved}, ReservationState.Released,
                         R.RiskAdmissionReason.Released)
  {
  }

  lemma MarkUnknownExactly(b: R.Book, token: RiskReservation)
    ensures MovesExactly(b, R.RiskCall.MarkUnknown(token), token, {ReservationState.Reserved, Submitted},
                         ReservationState.ExecutionUnknown, R.RiskAdmissionReason.ExecutionUnknown)
  {
  }

  /** With evidence a settlement is an ordinary move, without it is refused whatever is stored. */
  lemma SettleExactly(b: R.Book, token: RiskReservation, evidence: RiskSettlementEvidence)
    ensures
      var call := R.RiskCall.Settle(token, evidence);
      if Proves(evidence, token) then
        MovesExactly(b, call, token, {Submitted, ReservationState.ExecutionUnknown}, ReservationState.Settled,
                     R.RiskAdmissionReason.Settled)
      else R.Answer(b, call) == R.RejectedFor(R.InvalidSettlementEvidence) && R.Next(b, call) == b
  {
    hide Proves;
  }

  // Evidence.

  /** A terminal event of the reservation's operation, in its money. */
  predicate Concerns(e: TradeSettlement, reservation: RiskReservation) {
    && e.Valid() && !e.kind.Unknown?
    && e.intentId == reservation.intentId && e.groupId == reservation.executionGroup.groupId
    && (e.netProfit.Some? ==> InOneMoney(e.netProfit.value, reservation.potentialRisk))
  }

  /** The claimed outcome is that of a closed group with these events. */
  ghost predicate ClaimsClosing(o: GroupOutcome, events: seq<TradeSettlement>, money: MoneyAmount) {
    var earned := exists e :: e in events && e.netProfit.Some?;
    var rejected := exists e :: e in events && e.kind.Rejected?;
    var net := Earnings(events);
    && o.final && o.allMembersTerminal && !o.unresolved && o.status.Ready?
    && o.completedMembers as int == |events|
    && (earned ==> INT64_MIN <= net <= INT64_MAX)
    && (o.netProfit.Some? <==> earned)
    && (earned ==> o.netProfit.value.units as int == net && InOneMoney(o.netProfit.value, money))
    && o.kind == Some(if earned && net > 0 then Win else if earned && net < 0 then Loss else if earned then Draw
                      else if rejected then OutcomeKind.Rejected else OutcomeKind.Cancelled)
  }

  /** No settlement id and no trade id comes up at two places. */
  predicate NothingTwice(events: seq<TradeSettlement>) {
    forall i, j :: 0 <= i < |events| && 0 <= j < |events| && i != j ==>
      events[i].settlementId != events[j].settlementId && events[i].tradeId != events[j].tradeId
  }

  lemma RosterExactly(reservation: RiskReservation, events: seq<TradeSettlement>)
    ensures TerminalRoster(reservation, events) <==>
      (forall e :: e in events ==> Concerns(e, reservation)) && NothingTwice(events)
  {
    assert DistinctEvents(events) <==> NothingTwice(events);
    hide DistinctEvents, NothingTwice;
  }

  /**
   * Evidence proves a reservation exactly if it names the same reservation, intent and group and lists one
   * terminal event for each expected member, whose sum is the claimed outcome.
   */
  lemma ProvesExactly(evidence: RiskSettlementEvidence, reservation: RiskReservation)
    ensures Proves(evidence, reservation) <==>
      var events := evidence.settlements;
      && evidence.reservationId == reservation.reservationId && evidence.intentId == reservation.intentId
      && evidence.executionGroup.groupId == reservation.executionGroup.groupId
      && evidence.executionGroup.expectedMembers == reservation.executionGroup.expectedMembers
      && |events| == reservation.executionGroup.expectedMembers as int >= 1
      && (|events| >= 2 ==> reservation.executionGroup.groupId > 0)
      && KnownMoney(reservation.potentialRisk)
      && (forall e :: e in events ==> Concerns(e, reservation))
      && NothingTwice(events)
      && ClaimsClosing(evidence.outcome, events, reservation.potentialRisk)
  {
    var events := evidence.settlements;
    assert TerminalRoster(reservation, events) <==>
           (forall e :: e in events ==> Concerns(e, reservation)) && NothingTwice(events) by {
      hide Concerns;
      RosterExactly(reservation, events);
    }
    if TerminalRoster(reservation, events) && |events| == reservation.executionGroup.expectedMembers as int {
      EarningsAreTotal(events);
      ClosingClaimed(evidence.outcome, events, reservation.potentialRisk);
    }
    hide TerminalRoster, ClosedOutcome, ClaimsClosing, NothingTwice, Concerns;
  }

  lemma ClosingClaimed(o: GroupOutcome, events: seq<TradeSettlement>, money: MoneyAmount)
    requires TotalProfit(events) == Earnings(events) && |events| <= UINT32_MAX
    ensures var closed := ClosedOutcome(events, MoneyAmount(0, money.precision, money.currency));
      ClaimsClosing(o, events, money) <==> closed.status.Ready? && o == closed
  {
    hide Earnings, TotalProfit;
  }
}
