/** The reservations of one risk scope: admission under limits, lifecycle, settlement. */
module Risk {
  import opened Common
  import Identity
  import Settlement
  import opened Sums
  import opened RiskEvidence

  datatype RiskAvailability = Supported | Unavailable | Stale

  datatype RiskAccountSnapshot = RiskAccountSnapshot(
    availability: RiskAvailability, availableBalance: Settlement.MoneyAmount, capturedAtMs: int64, revision: uint64)
  {
    predicate Valid() {
      availability.Supported? && availableBalance.ValidMetadata() && availableBalance.units >= 0
    }
  }

  datatype RiskAdmissionConfig = RiskAdmissionConfig(
    scope: RiskScope, maxSnapshotAgeMs: int64, maxReservedRisk: Option<Settlement.MoneyAmount>)
  {
    predicate Valid() {
      && scope.scopeId != 0
      && maxSnapshotAgeMs >= 0
      && (maxReservedRisk.Some? ==> maxReservedRisk.value.ValidMetadata() && maxReservedRisk.value.units > 0)
    }
  }

  datatype RiskRequest = RiskRequest(
    intentId: uint64,
    executionGroup: Identity.ExecutionGroupIdentity,
    cardinality: Identity.ExecutionCardinality,
    intentStatus: Identity.IntentStatus,
    idempotencyKey: string,
    stake: Settlement.MoneyAmount,
    potentialRisk: Settlement.MoneyAmount)
  {
    predicate ValidIdentity() {
      && intentId != 0 && idempotencyKey != ""
      && executionGroup.ValidFor(cardinality)
      && (intentStatus.Proposed? || intentStatus.Admitted?)
    }
  }

  datatype RiskAdmissionKind = Admitted | Applied | Duplicate | Rejected | Unavailable | Conflict | InvalidState

  datatype RiskAdmissionReason =
    | NoReason
    | Reserved
    | Committed
    | Released
    | ExecutionUnknown
    | Settled
    | InvalidConfiguration
    | InvalidRequest
    | InvalidRisk
    | CurrencyMismatch
    | PrecisionMismatch
    | SnapshotUnavailable
    | SnapshotStale
    | BalanceLimitExceeded
    | RiskLimitExceeded
    | NumericOverflow
    | UnknownReservation
    | InvalidTransition
    | PayloadConflict
    | RevisionConflict
    | InvalidSettlementEvidence

  datatype RiskAdmissionResult = RiskAdmissionResult(
    kind: RiskAdmissionKind, reason: RiskAdmissionReason, reservation: Option<RiskReservation>)

  function RejectedFor(reason: RiskAdmissionReason): RiskAdmissionResult {
    RiskAdmissionResult(Rejected, reason, None)
  }

  function UnavailableFor(reason: RiskAdmissionReason): RiskAdmissionResult {
    RiskAdmissionResult(RiskAdmissionKind.Unavailable, reason, None)
  }

  function ConflictFor(reason: RiskAdmissionReason): RiskAdmissionResult {
    RiskAdmissionResult(Conflict, reason, None)
  }

  function InvalidStateFor(reason: RiskAdmissionReason): RiskAdmissionResult {
    RiskAdmissionResult(InvalidState, reason, None)
  }

  function DuplicateOf(reservation: RiskReservation): RiskAdmissionResult {
    RiskAdmissionResult(Duplicate, NoReason, Some(reservation))
  }

  /** The caller may go on to submit. */
  predicate IsSubmissionAdmission(result: RiskAdmissionResult) {
    || result.kind.Admitted?
    || (result.kind.Duplicate? && result.reservation.Some? && result.reservation.value.state.Reserved?)
  }

  const SNAPSHOT_APPLIED := RiskAdmissionResult(Applied, NoReason, None)
  const SNAPSHOT_DUPLICATE := RiskAdmissionResult(Duplicate, NoReason, None)

  /** The currency is compared before the precision. */
  function MismatchReason(a: Settlement.MoneyAmount, b: Settlement.MoneyAmount): RiskAdmissionReason {
    if a.currency != b.currency then CurrencyMismatch else PrecisionMismatch
  }

  type Reservations = map<string, RiskReservation>

  predicate HoldsRisk(reservation: RiskReservation) {
    !reservation.state.Released? && !reservation.state.Settled?
  }

  function ActiveRisk(reservation: RiskReservation): int {
    if HoldsRisk(reservation) then reservation.potentialRisk.units as int else 0
  }

  ghost function Risks(byKey: Reservations): map<string, int> {
    map key | key in byKey :: ActiveRisk(byKey[key])
  }

  /** The exact, unbounded sum of the risk that is still reserved. */
  ghost function RiskSum(byKey: Reservations): int {
    Sum(Risks(byKey))
  }

  /** The observable value of one owner. */
  datatype Book = Book(
    config: RiskAdmissionConfig,
    snapshot: Option<RiskAccountSnapshot>,
    nextId: uint64,
    idsValid: bool,
    idsExhausted: bool,
    byKey: Reservations,
    byIntent: map<uint64, string>)
  {
    predicate Valid() {
      config.Valid() && idsValid
    }
  }

  function NewBook(config: RiskAdmissionConfig, firstId: uint64): Book {
    Book(config, None, firstId, firstId != 0, false, map[], map[])
  }

  /** Both indexes describe the same set of reservations. */
  ghost predicate IndexesAgree(b: Book) {
    && (forall key :: key in b.byKey ==>
          && b.byKey[key].idempotencyKey == key
          && b.byKey[key].intentId in b.byIntent && b.byIntent[b.byKey[key].intentId] == key)
    && (forall intent :: intent in b.byIntent ==>
          b.byIntent[intent] in b.byKey && b.byKey[b.byIntent[intent]].intentId == intent)
  }

  /** Every reservation is positive and in the money of the snapshot and of the limit. */
  ghost predicate OneCurrency(b: Book) {
    forall key :: key in b.byKey ==>
      && b.byKey[key].potentialRisk.units > 0
      && b.snapshot.Some? && b.byKey[key].potentialRisk.SameCurrency(b.snapshot.value.availableBalance)
      && (b.config.maxReservedRisk.Some? ==>
            b.byKey[key].potentialRisk.SameCurrency(b.config.maxReservedRisk.value))
  }

  ghost predicate WithinLimits(b: Book) {
    && 0 <= RiskSum(b.byKey) <= INT64_MAX
    && (b.config.maxReservedRisk.Some? && b.byKey != map[] ==>
          RiskSum(b.byKey) <= b.config.maxReservedRisk.value.units as int)
  }

  ghost predicate BookInvariant(b: Book) {
    && IndexesAgree(b)
    && OneCurrency(b)
    && WithinLimits(b)
    && (b.snapshot.Some? ==> b.snapshot.value.Valid())
  }

  lemma TakeRisk(rest: Reservations, key: string)
    requires key in rest
    ensures RiskSum(rest) == ActiveRisk(rest[key]) + RiskSum(rest - {key})
  {
    SumTake(Risks(rest), key);
    assert Risks(rest) - {key} == Risks(rest - {key});
  }

  lemma StoreRisk(byKey: Reservations, key: string, reservation: RiskReservation)
    ensures RiskSum(byKey[key := reservation])
            == RiskSum(byKey) - (if key in byKey then ActiveRisk(byKey[key]) else 0) + ActiveRisk(reservation)
  {
    SumStore(Risks(byKey), key, ActiveRisk(reservation));
    assert Risks(byKey[key := reservation]) == Risks(byKey)[key := ActiveRisk(reservation)];
  }

  lemma RiskNotNegative(byKey: Reservations)
    requires forall key :: key in byKey ==> byKey[key].potentialRisk.units > 0
    ensures RiskSum(byKey) >= 0
  {
    SumNonNegative(Risks(byKey));
  }

  datatype RiskCall =
    | UpdateSnapshot(snapshot: RiskAccountSnapshot)
    | Reserve(request: RiskRequest, nowMs: int64)
    | Commit(token: RiskReservation)
    | Release(token: RiskReservation)
    | MarkUnknown(token: RiskReservation)
    | Settle(token: RiskReservation, evidence: RiskSettlementEvidence)

  function SnapshotAnswer(b: Book, snapshot: RiskAccountSnapshot): RiskAdmissionResult {
    if !b.Valid() || !snapshot.Valid() then
      UnavailableFor(if snapshot.availability.Stale? then SnapshotStale else SnapshotUnavailable)
    else if b.snapshot.Some? && snapshot.revision < b.snapshot.value.revision then ConflictFor(RevisionConflict)
    else if b.snapshot.Some? && snapshot.revision == b.snapshot.value.revision then
      if snapshot == b.snapshot.value then SNAPSHOT_DUPLICATE else ConflictFor(RevisionConflict)
    else if b.snapshot.Some? && !b.snapshot.value.availableBalance.SameCurrency(snapshot.availableBalance) then
      ConflictFor(MismatchReason(b.snapshot.value.availableBalance, snapshot.availableBalance))
    else SNAPSHOT_APPLIED
  }

  function SameRequest(stored: RiskReservation, request: RiskRequest): bool {
    && stored.intentId == request.intentId
    && stored.executionGroup == request.executionGroup.NormalizedFor(request.cardinality)
    && stored.cardinality == request.cardinality
    && stored.stake == request.stake
    && stored.potentialRisk == request.potentialRisk
  }

  /** Whether the request is new, as far as keys, intents and ids go. */
  function IdentityAnswer(b: Book, request: RiskRequest): Option<RiskAdmissionResult> {
    if !b.Valid() then Some(RejectedFor(InvalidConfiguration))
    else if !request.ValidIdentity() then Some(RejectedFor(InvalidRequest))
    else if request.idempotencyKey in b.byKey then
      if SameRequest(b.byKey[request.idempotencyKey], request)
      then Some(DuplicateOf(b.byKey[request.idempotencyKey]))
      else Some(ConflictFor(PayloadConflict))
    else if request.intentId in b.byIntent then Some(ConflictFor(PayloadConflict))
    else if b.idsExhausted then Some(RejectedFor(NumericOverflow))
    else None
  }

  /** Whether the money of the request is well-formed and in the money of a fresh snapshot. */
  function MoneyAnswer(b: Book, request: RiskRequest, nowMs: int64): Option<RiskAdmissionResult> {
    var stake, risk := request.stake, request.potentialRisk;
    if !stake.ValidMetadata() || !risk.ValidMetadata() then Some(RejectedFor(InvalidRisk))
    else if !stake.SameCurrency(risk) then Some(RejectedFor(MismatchReason(stake, risk)))
    else if stake.units <= 0 || risk.units <= 0 then Some(RejectedFor(InvalidRisk))
    else if b.snapshot.None? || !b.snapshot.value.availability.Supported? then
      Some(UnavailableFor(SnapshotUnavailable))
    else
      var snapshot := b.snapshot.value;
      if !snapshot.availableBalance.SameCurrency(risk) then
        Some(RejectedFor(MismatchReason(snapshot.availableBalance, risk)))
      else if !(0 <= nowMs as int - snapshot.capturedAtMs as int <= b.config.maxSnapshotAgeMs as int) then
        Some(UnavailableFor(SnapshotStale))
      else None
  }

  /** Whether the exact total after admission stays representable and within both limits. */
  function LimitAnswer(b: Book, risk: Settlement.MoneyAmount, total: int): Option<RiskAdmissionResult>
    requires b.snapshot.Some?
  {
    var limit := b.config.maxReservedRisk;
    if total > INT64_MAX then Some(RejectedFor(NumericOverflow))
    else if total > b.snapshot.value.availableBalance.units as int then Some(RejectedFor(BalanceLimitExceeded))
    else if limit.Some? && !limit.value.SameCurrency(risk) then
      Some(RejectedFor(MismatchReason(limit.value, risk)))
    else if limit.Some? && total > limit.value.units as int then Some(RejectedFor(RiskLimitExceeded))
    else None
  }

  ghost function Refusal(b: Book, request: RiskRequest, nowMs: int64): Option<RiskAdmissionResult> {
    var identity := IdentityAnswer(b, request);
    if identity.Some? then identity
    else
      var money := MoneyAnswer(b, request, nowMs);
      if money.Some? then money
      else LimitAnswer(b, request.potentialRisk, RiskSum(b.byKey) + request.potentialRisk.units as int)
  }

  /** The reservation that an accepted request becomes. */
  function Reservation(b: Book, request: RiskRequest): RiskReservation
    requires b.snapshot.Some?
  {
    RiskReservation(
      b.nextId, b.config.scope, request.intentId,
      request.executionGroup.NormalizedFor(request.cardinality), request.cardinality, request.idempotencyKey,
      request.stake, request.potentialRisk, ReservationState.Reserved, b.snapshot.value.revision)
  }

  function Admit(b: Book, reservation: RiskReservation): Book {
    b.(byKey := b.byKey[reservation.idempotencyKey := reservation],
       byIntent := b.byIntent[reservation.intentId := reservation.idempotencyKey],
       nextId := if b.nextId == UINT64_MAX then 0 else b.nextId + 1,
       idsExhausted := b.nextId == UINT64_MAX)
  }

  /** A token names a stored reservation: everything but the state and the account revision is compared. */
  predicate Matches(stored: RiskReservation, token: RiskReservation) {
    stored == token.(state := stored.state, accountRevision := stored.accountRevision)
  }

  /** The states from which a reservation may move to `target`. */
  predicate Allowed(target: ReservationState, from: ReservationState) {
    match target
    case Submitted => from.Reserved?
    case Released => from.Reserved?
    case ExecutionUnknown => from.Reserved? || from.Submitted?
    case Settled => from.Submitted? || from.ExecutionUnknown?
    case Reserved => false
  }

  function TransitionReason(target: ReservationState): RiskAdmissionReason {
    match target
    case Submitted => Committed
    case Released => RiskAdmissionReason.Released
    case ExecutionUnknown => RiskAdmissionReason.ExecutionUnknown
    case Settled => RiskAdmissionReason.Settled
    case Reserved => RiskAdmissionReason.Reserved
  }

  function TransitionAnswer(b: Book, token: RiskReservation, target: ReservationState): RiskAdmissionResult {
    if token.idempotencyKey !in b.byKey then InvalidStateFor(UnknownReservation)
    else
      var stored := b.byKey[token.idempotencyKey];
      if !Matches(stored, token) then ConflictFor(PayloadConflict)
      else if stored.state == target then DuplicateOf(stored)
      else if !Allowed(target, stored.state) then InvalidStateFor(InvalidTransition)
      else RiskAdmissionResult(Applied, TransitionReason(target), Some(stored.(state := target)))
  }

  function Target(call: RiskCall): ReservationState {
    match call
    case Commit(_) => Submitted
    case Release(_) => ReservationState.Released
    case MarkUnknown(_) => ReservationState.ExecutionUnknown
    case Settle(_, _) => ReservationState.Settled
    case _ => ReservationState.Reserved
  }

  ghost function Answer(b: Book, call: RiskCall): RiskAdmissionResult {
    match call
    case UpdateSnapshot(snapshot) => SnapshotAnswer(b, snapshot)
    case Reserve(request, nowMs) =>
      var refusal := Refusal(b, request, nowMs);
      if refusal.Some? then refusal.value
      else RiskAdmissionResult(Admitted, RiskAdmissionReason.Reserved, Some(Reservation(b, request)))
    case Settle(token, evidence) =>
      if !Proves(evidence, token) then RejectedFor(InvalidSettlementEvidence)
      else TransitionAnswer(b, token, ReservationState.Settled)
    case Commit(token) => TransitionAnswer(b, token, Submitted)
    case Release(token) => TransitionAnswer(b, token, ReservationState.Released)
    case MarkUnknown(token) => TransitionAnswer(b, token, ReservationState.ExecutionUnknown)
  }

  /** The owner after a call: only an admitted or applied call changes anything. */
  ghost function Next(b: Book, call: RiskCall): Book {
    var answer := Answer(b, call);
    if answer.kind.Admitted? then Admit(b, answer.reservation.value)
    else if !answer.kind.Applied? then b
    else if call.UpdateSnapshot? then b.(snapshot := Some(call.snapshot))
    else b.(byKey := b.byKey[call.token.idempotencyKey := answer.reservation.value])
  }

  /** An accepted request is under a new key and a new intent, against a known snapshot. */
  lemma AcceptedIsNew(b: Book, request: RiskRequest, nowMs: int64)
    ensures Refusal(b, request, nowMs).None? ==>
      && b.snapshot.Some? && request.idempotencyKey !in b.byKey && request.intentId !in b.byIntent
      && var reservation := Reservation(b, request);
      && reservation.idempotencyKey == request.idempotencyKey && reservation.intentId == request.intentId
      && reservation.reservationId == b.nextId
    ensures Refusal(b, request, nowMs).Some? ==>
      !Refusal(b, request, nowMs).value.kind.Admitted? && !Refusal(b, request, nowMs).value.kind.Applied?
  {
  }

  lemma NextKeepsInvariant(b: Book, call: RiskCall)
    requires BookInvariant(b)
    ensures BookInvariant(Next(b, call))
  {
    hide Refusal, Reservation, TransitionAnswer, SnapshotAnswer, Admit, Proves, BookInvariant;
    var answer := Answer(b, call);
    if call.Reserve? {
      AcceptedIsNew(b, call.request, call.nowMs);
      if answer.kind.Admitted? {
        AdmitKeepsInvariant(b, call.request, call.nowMs);
      }
    } else if call.UpdateSnapshot? {
      SnapshotKeepsInvariant(b, call.snapshot);
    } else {
      NeverAdmits(b, call.token, Target(call));
      if answer.kind.Applied? {
        MoveKeepsInvariant(b, call.token, Target(call));
      }
    }
  }

  lemma SnapshotKeepsInvariant(b: Book, snapshot: RiskAccountSnapshot)
    requires BookInvariant(b)
    ensures var answer := SnapshotAnswer(b, snapshot);
      !answer.kind.Admitted? && (answer.kind.Applied? ==> BookInvariant(b.(snapshot := Some(snapshot))))
  {
  }

  lemma NeverAdmits(b: Book, token: RiskReservation, target: ReservationState)
    ensures !TransitionAnswer(b, token, target).kind.Admitted?
  {
  }

  lemma AdmitKeepsInvariant(b: Book, request: RiskRequest, nowMs: int64)
    requires BookInvariant(b) && Refusal(b, request, nowMs).None?
    ensures BookInvariant(Admit(b, Reservation(b, request)))
  {
    hide IndexesAgree, OneCurrency, WithinLimits, Refusal, Reservation;
    AcceptedIsNew(b, request, nowMs);
    AdmitKeepsIndexes(b, Reservation(b, request));
    AdmitKeepsCurrency(b, request, nowMs);
    AdmitKeepsLimits(b, request, nowMs);
  }

  lemma AdmitKeepsIndexes(b: Book, reservation: RiskReservation)
    requires IndexesAgree(b)
    requires reservation.idempotencyKey !in b.byKey && reservation.intentId !in b.byIntent
    ensures IndexesAgree(Admit(b, reservation))
  {
  }

  lemma AdmitKeepsCurrency(b: Book, request: RiskRequest, nowMs: int64)
    requires OneCurrency(b) && Refusal(b, request, nowMs).None?
    ensures OneCurrency(Admit(b, Reservation(b, request)))
  {
    hide RiskSum, IdentityAnswer;
  }

  lemma AdmitKeepsLimits(b: Book, request: RiskRequest, nowMs: int64)
    requires WithinLimits(b) && Refusal(b, request, nowMs).None?
    ensures WithinLimits(Admit(b, Reservation(b, request)))
  {
    StoreRisk(b.byKey, request.idempotencyKey, Reservation(b, request));
    hide RiskSum;
  }

  lemma MoveKeepsInvariant(b: Book, token: RiskReservation, target: ReservationState)
    requires BookInvariant(b) && TransitionAnswer(b, token, target).kind.Applied?
    ensures var moved := TransitionAnswer(b, token, target).reservation.value;
      BookInvariant(b.(byKey := b.byKey[token.idempotencyKey := moved]))
  {
    var moved := TransitionAnswer(b, token, target).reservation.value;
    var byKey := b.byKey[token.idempotencyKey := moved];
    StoreRisk(b.byKey, token.idempotencyKey, moved);
    RiskNotNegative(byKey);
  }

  /** Every method is one atomic step under the owner's mutex; a run of clients is a sequence of calls. */
  class RiskAdmission {
    const config: RiskAdmissionConfig
    var snapshot: Option<RiskAccountSnapshot>
    var nextId: uint64
    const idsValid: bool
    var idsExhausted: bool
    var byKey: Reservations
    var byIntent: map<uint64, string>

    ghost function State(): Book
      reads this
    {
      Book(config, snapshot, nextId, idsValid, idsExhausted, byKey, byIntent)
    }

    ghost predicate Valid()
      reads this
    {
      BookInvariant(State())
    }

    predicate Usable() {
      config.Valid() && idsValid
    }

    constructor (config: RiskAdmissionConfig, firstReservationId: uint64)
      ensures Valid() && State() == NewBook(config, firstReservationId)
    {
      this.config, snapshot, nextId := config, None, firstReservationId;
      idsValid, idsExhausted, byKey, byIntent := firstReservationId != 0, false, map[], map[];
      new;
      assert Risks(byKey) == map[];
    }

    method UpdateSnapshot(next: RiskAccountSnapshot) returns (result: RiskAdmissionResult)
      requires Valid()
      modifies `snapshot
      ensures Valid()
      ensures result == Answer(old(State()), RiskCall.UpdateSnapshot(next))
      ensures State() == Next(old(State()), RiskCall.UpdateSnapshot(next))
    {
      NextKeepsInvariant(State(), RiskCall.UpdateSnapshot(next));
      if !Usable() || !next.Valid() {
        return UnavailableFor(if next.availability.Stale? then SnapshotStale else SnapshotUnavailable);
      }
      if snapshot.Some? && next.revision < snapshot.value.revision {
        return ConflictFor(RevisionConflict);
      }
      if snapshot.Some? && next.revision == snapshot.value.revision {
        return if snapshot.value == next then SNAPSHOT_DUPLICATE else ConflictFor(RevisionConflict);
      }
      if snapshot.Some? && !snapshot.value.availableBalance.SameCurrency(next.availableBalance) {
        return ConflictFor(MismatchReason(snapshot.value.availableBalance, next.availableBalance));
      }
      snapshot := Some(next);
      return SNAPSHOT_APPLIED;
    }

    method Reserve(request: RiskRequest, nowMs: int64) returns (result: RiskAdmissionResult)
      requires Valid()
      modifies this
      ensures Valid()
      ensures result == Answer(old(State()), RiskCall.Reserve(request, nowMs))
      ensures State() == Next(old(State()), RiskCall.Reserve(request, nowMs))
    {
      hide BookInvariant, Refusal, Reservation;
      NextKeepsInvariant(State(), RiskCall.Reserve(request, nowMs));
      AcceptedIsNew(State(), request, nowMs);
      var refusal := Assess(request, nowMs);
      if refusal.Some? {
        return refusal.value;
      }
      var reservation := Draft(request);
      Publish(reservation);
      return RiskAdmissionResult(Admitted, RiskAdmissionReason.Reserved, Some(reservation));
    }

    method Draft(request: RiskRequest) returns (reservation: RiskReservation)
      requires snapshot.Some?
      ensures reservation == Reservation(State(), request)
    {
      var group := request.executionGroup;
      if request.cardinality.ZeroOrOne? {
        group := group.(expectedMembers := 1);
      }
      return RiskReservation(
          nextId, config.scope, request.intentId, group, request.cardinality, request.idempotencyKey,
          request.stake, request.potentialRisk, ReservationState.Reserved, snapshot.value.revision);
    }

    /** The first reason, if any, not to admit the request. */
    method Assess(request: RiskRequest, nowMs: int64) returns (refusal: Option<RiskAdmissionResult>)
      requires Valid()
      ensures refusal == Refusal(State(), request, nowMs)
    {
      refusal := CheckIdentity(request);
      if refusal.None? {
        refusal := CheckMoney(request, nowMs);
        if refusal.None? {
          refusal := CheckLimits(request.potentialRisk);
        }
      }
    }

    method CheckIdentity(request: RiskRequest) returns (refusal: Option<RiskAdmissionResult>)
      ensures refusal == IdentityAnswer(State(), request)
    {
      if !Usable() {
        return Some(RejectedFor(InvalidConfiguration));
      }
      if !request.ValidIdentity() {
        return Some(RejectedFor(InvalidRequest));
      }
      if request.idempotencyKey in byKey {
        var existing := byKey[request.idempotencyKey];
        if SameRequest(existing, request) {
          return Some(DuplicateOf(existing));
        }
        return Some(ConflictFor(PayloadConflict));
      }
      if request.intentId in byIntent {
        return Some(ConflictFor(PayloadConflict));
      }
      if idsExhausted {
        return Some(RejectedFor(NumericOverflow));
      }
      return None;
    }

    method CheckMoney(request: RiskRequest, nowMs: int64) returns (refusal: Option<RiskAdmissionResult>)
      requires config.Valid()
      ensures refusal == MoneyAnswer(State(), request, nowMs)
    {
      var stake, risk := request.stake, request.potentialRisk;
      if !stake.ValidMetadata() || !risk.ValidMetadata() {
        return Some(RejectedFor(InvalidRisk));
      }
      if !stake.SameCurrency(risk) {
        return Some(RejectedFor(MismatchReason(stake, risk)));
      }
      if stake.units <= 0 || risk.units <= 0 {
        return Some(RejectedFor(InvalidRisk));
      }
      if snapshot.None? || !snapshot.value.availability.Supported? {
        return Some(UnavailableFor(SnapshotUnavailable));
      }
      if !snapshot.value.availableBalance.SameCurrency(risk) {
        return Some(RejectedFor(MismatchReason(snapshot.value.availableBalance, risk)));
      }
      if nowMs < snapshot.value.capturedAtMs
         || WrappingSubtract(ToUnsigned(nowMs), ToUnsigned(snapshot.value.capturedAtMs))
            > config.maxSnapshotAgeMs as uint64 {
        return Some(UnavailableFor(SnapshotStale));
      }
      return None;
    }

    method CheckLimits(risk: Settlement.MoneyAmount) returns (refusal: Option<RiskAdmissionResult>)
      requires Valid() && snapshot.Some? && risk.units > 0
      ensures refusal == LimitAnswer(State(), risk, RiskSum(byKey) + risk.units as int)
    {
      var reserved := ActiveRiskUnits();
      if !CanAdd(reserved, risk.units) {
        return Some(RejectedFor(NumericOverflow));
      }
      var nextReserved := reserved + risk.units;
      if nextReserved > snapshot.value.availableBalance.units {
        return Some(RejectedFor(BalanceLimitExceeded));
      }
      if config.maxReservedRisk.Some? {
        var limit := config.maxReservedRisk.value;
        if limit.currency != risk.currency {
          return Some(RejectedFor(CurrencyMismatch));
        }
        if limit.precision != risk.precision {
          return Some(RejectedFor(PrecisionMismatch));
        }
        if nextReserved > limit.units {
          return Some(RejectedFor(RiskLimitExceeded));
        }
      }
      return None;
    }

    static predicate CanAdd(lhs: int64, rhs: int64)
      ensures rhs >= 0 && lhs >= 0 ==> (CanAdd(lhs, rhs) <==> lhs as int + rhs as int <= INT64_MAX)
    {
      rhs >= 0 && lhs <= 0x7fff_ffff_ffff_ffff - rhs
    }

    /** The bounded loop returns the exact sum; its saturating exit is never taken. */
    method ActiveRiskUnits() returns (total: int64)
      requires Valid()
      ensures total as int == RiskSum(byKey)
    {
      total := 0;
      var rest := byKey;
      while rest != map[]
        invariant forall key :: key in rest ==> key in byKey && rest[key] == byKey[key]
        invariant total >= 0 && total as int + RiskSum(rest) == RiskSum(byKey)
        decreases |rest|
      {
        var key :| key in rest;
        var reservation := rest[key];
        TakeRisk(rest, key);
        assert |rest - {key}| == |rest| - 1;
        rest := rest - {key};
        RiskNotNegative(rest);
        if !reservation.state.Released? && !reservation.state.Settled? {
          assert CanAdd(total, reservation.potentialRisk.units);
          total := total + reservation.potentialRisk.units;
        }
      }
      assert Risks(rest) == map[];
    }

    /** Publishes both indexes and the id sequence together. Neither key is taken, so no insertion can fail. */
    method Publish(reservation: RiskReservation)
      requires reservation.idempotencyKey !in byKey && reservation.intentId !in byIntent
      requires reservation.reservationId == nextId
      modifies this
      ensures State() == Admit(old(State()), reservation)
    {
      var candidateByKey := byKey[reservation.idempotencyKey := reservation];
      var candidateByIntent := byIntent[reservation.intentId := reservation.idempotencyKey];
      var exhaustIds := reservation.reservationId == UINT64_MAX;
      var following := if exhaustIds then 0 else reservation.reservationId + 1;
      byKey, byIntent := candidateByKey, candidateByIntent;
      nextId, idsExhausted := following, exhaustIds;
    }

    method Commit(token: RiskReservation) returns (result: RiskAdmissionResult)
      requires Valid()
      modifies `byKey
      ensures Valid()
      ensures result == Answer(old(State()), RiskCall.Commit(token))
      ensures State() == Next(old(State()), RiskCall.Commit(token))
    {
      hide BookInvariant;
      NextKeepsInvariant(State(), RiskCall.Commit(token));
      result := Transition(token, Submitted, Committed, (state: ReservationState) => state.Reserved?);
    }

    method Release(token: RiskReservation) returns (result: RiskAdmissionResult)
      requires Valid()
      modifies `byKey
      ensures Valid()
      ensures result == Answer(old(State()), RiskCall.Release(token))
      ensures State() == Next(old(State()), RiskCall.Release(token))
    {
      hide BookInvariant;
      NextKeepsInvariant(State(), RiskCall.Release(token));
      result := Transition(token, ReservationState.Released, RiskAdmissionReason.Released,
                           (state: ReservationState) => state.Reserved?);
    }

    method MarkUnknown(token: RiskReservation) returns (result: RiskAdmissionResult)
      requires Valid()
      modifies `byKey
      ensures Valid()
      ensures result == Answer(old(State()), RiskCall.MarkUnknown(token))
      ensures State() == Next(old(State()), RiskCall.MarkUnknown(token))
    {
      hide BookInvariant;
      NextKeepsInvariant(State(), RiskCall.MarkUnknown(token));
      result := Transition(token, ReservationState.ExecutionUnknown, RiskAdmissionReason.ExecutionUnknown,
                           (state: ReservationState) => state.Reserved? || state.Submitted?);
    }

    method Settle(token: RiskReservation, evidence: RiskSettlementEvidence) returns (result: RiskAdmissionResult)
      requires Valid()
      modifies `byKey
      ensures Valid()
      ensures result == Answer(old(State()), RiskCall.Settle(token, evidence))
      ensures State() == Next(old(State()), RiskCall.Settle(token, evidence))
    {
      hide BookInvariant, Proves;
      NextKeepsInvariant(State(), RiskCall.Settle(token, evidence));
      var proved := ValidFor(evidence, token);
      if !proved {
        return RejectedFor(InvalidSettlementEvidence);
      }
      result := Transition(token, ReservationState.Settled, RiskAdmissionReason.Settled,
                           (state: ReservationState) => state.Submitted? || state.ExecutionUnknown?);
    }

    method Transition(
      token: RiskReservation, target: ReservationState, reason: RiskAdmissionReason, allowed: ReservationState -> bool)
      returns (result: RiskAdmissionResult)
      requires reason == TransitionReason(target)
      requires forall state :: allowed(state) == Allowed(target, state)
      modifies `byKey
      ensures result == TransitionAnswer(old(State()), token, target)
      ensures byKey == if result.kind.Applied? then old(byKey)[token.idempotencyKey := result.reservation.value]
                       else old(byKey)
    {
      if token.idempotencyKey !in byKey {
        return InvalidStateFor(UnknownReservation);
      }
      var stored := byKey[token.idempotencyKey];
      if !Matches(stored, token) {
        return ConflictFor(PayloadConflict);
      }
      if stored.state == target {
        return DuplicateOf(stored);
      }
      if !allowed(stored.state) {
        return InvalidStateFor(InvalidTransition);
      }
      stored := stored.(state := target);
      byKey := byKey[token.idempotencyKey := stored];
      return RiskAdmissionResult(Applied, reason, Some(stored));
    }
  }
}
