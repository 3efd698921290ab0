/** Whole-run properties of one risk owner: any interleaving of its clients' calls. */
module RiskRuns {
  import opened Common
  import opened RiskEvidence
  import opened Risk

  ghost function AfterCalls(b: Book, calls: seq<RiskCall>): Book
    decreases calls
  {
    if calls == [] then b else AfterCalls(Next(b, calls[0]), calls[1..])
  }

  lemma {:induction false} RunKeepsBook(b: Book, calls: seq<RiskCall>)
    requires BookInvariant(b)
    ensures BookInvariant(AfterCalls(b, calls))
    decreases calls
  {
    if calls != [] {
      NextKeepsInvariant(b, calls[0]);
      RunKeepsBook(Next(b, calls[0]), calls[1..]);
    }
  }

  /** In every reachable state: two agreeing indexes, one currency, and an exact total within the limits. */
  lemma ReachableBook(config: RiskAdmissionConfig, firstId: uint64, calls: seq<RiskCall>)
    ensures var b := AfterCalls(NewBook(config, firstId), calls);
            && (forall intent, key :: (intent in b.byIntent && b.byIntent[intent] == key)
                                      <==> (key in b.byKey && b.byKey[key].intentId == intent))
            && 0 <= RiskSum(b.byKey) <= INT64_MAX
            && (config.maxReservedRisk.Some? && b.byKey != map[] ==>
                  RiskSum(b.byKey) <= config.maxReservedRisk.value.units as int)
            && (forall key :: key in b.byKey ==>
                  b.snapshot.Some?
                  && b.byKey[key].potentialRisk.SameCurrency(b.snapshot.value.availableBalance))
  {
    var start := NewBook(config, firstId);
    assert Risks(start.byKey) == map[];
    RunKeepsBook(start, calls);
    RunConfig(start, calls);
  }

  lemma {:induction false} RunConfig(b: Book, calls: seq<RiskCall>)
    ensures AfterCalls(b, calls).config == b.config && AfterCalls(b, calls).idsValid == b.idsValid
    decreases calls
  {
    if calls != [] {
      RunConfig(Next(b, calls[0]), calls[1..]);
    }
  }

  ghost predicate Admits(b: Book, call: RiskCall) {
    Answer(b, call).kind.Admitted?
  }

  ghost predicate Moves(b: Book, call: RiskCall) {
    Answer(b, call).kind.Applied? && !call.UpdateSnapshot?
  }

  // The three effects a call can have, so that later proofs need not look inside the calls again.

  lemma AdmitEffect(b: Book, call: RiskCall)
    requires Admits(b, call)
    ensures call.Reserve? && b.snapshot.Some? && !b.idsExhausted
    ensures call.request.idempotencyKey !in b.byKey && call.request.intentId !in b.byIntent
    ensures Answer(b, call).reservation == Some(Reservation(b, call.request))
    ensures Next(b, call) == Admit(b, Reservation(b, call.request))
  {
  }

  lemma MoveEffect(b: Book, call: RiskCall)
    requires Moves(b, call)
    ensures !call.UpdateSnapshot? && !call.Reserve?
    ensures call.token.idempotencyKey in b.byKey
    ensures var stored := b.byKey[call.token.idempotencyKey];
            && Matches(stored, call.token)
            && Allowed(Target(call), stored.state)
            && (call.Settle? ==> Proves(call.evidence, call.token))
            && Next(b, call) == b.(byKey := b.byKey[call.token.idempotencyKey := stored.(state := Target(call))])
  {
  }

  lemma OtherEffect(b: Book, call: RiskCall)
    requires !Admits(b, call) && !Moves(b, call)
    ensures Next(b, call) == b
            || (b.snapshot.Some? ==>
                  && call.UpdateSnapshot?
                  && b.snapshot.value.revision < call.snapshot.revision
                  && call.snapshot.availableBalance.SameCurrency(b.snapshot.value.availableBalance))
    ensures Next(b, call) == b
            || (call.UpdateSnapshot? && Next(b, call) == b.(snapshot := Some(call.snapshot)))
  {
  }

  /** The risk that the call gives back: all of it for a release or a settlement, nothing otherwise. */
  ghost function Freed(b: Book, call: RiskCall): int {
    if Moves(b, call) && (call.Release? || call.Settle?) then call.token.potentialRisk.units as int else 0
  }

  ghost function Taken(b: Book, call: RiskCall): int {
    if Admits(b, call) then call.request.potentialRisk.units as int else 0
  }

  /**
   * Conservation: the total moves only by what an admission takes and what a release of a never-submitted
   * reservation or a proved settlement gives back.
   */
  lemma RiskConserved(b: Book, call: RiskCall)
    requires BookInvariant(b)
    ensures RiskSum(Next(b, call).byKey) == RiskSum(b.byKey) + Taken(b, call) - Freed(b, call)
    ensures Freed(b, call) > 0 ==>
              && call.token.idempotencyKey in b.byKey
              && var stored := b.byKey[call.token.idempotencyKey];
                 && (call.Release? ==> stored.state.Reserved?)
                 && (call.Settle? ==> !stored.state.Reserved? && Proves(call.evidence, stored))
  {
    hide Next, Admits, Moves;
    if Admits(b, call) {
      AdmitEffect(b, call);
      StoreRisk(b.byKey, call.request.idempotencyKey, Reservation(b, call.request));
    } else if Moves(b, call) {
      MoveEffect(b, call);
      var stored := b.byKey[call.token.idempotencyKey];
      StoreRisk(b.byKey, call.token.idempotencyKey, stored.(state := Target(call)));
    } else {
      OtherEffect(b, call);
    }
  }

  /** An admission never takes the exact total beyond the balance or the limit it was checked against. */
  lemma AdmissionFits(b: Book, call: RiskCall)
    requires BookInvariant(b) && Admits(b, call)
    ensures b.snapshot.Some?
    ensures RiskSum(Next(b, call).byKey) <= b.snapshot.value.availableBalance.units as int
    ensures b.config.maxReservedRisk.Some? ==>
              RiskSum(Next(b, call).byKey) <= b.config.maxReservedRisk.value.units as int
    ensures 0 <= call.nowMs as int - b.snapshot.value.capturedAtMs as int <= b.config.maxSnapshotAgeMs as int
  {
    AdmitEffect(b, call);
    StoreRisk(b.byKey, call.request.idempotencyKey, Reservation(b, call.request));
    AcceptedWithin(b, call.request, call.nowMs);
    hide Next, Admits, Refusal;
  }

  lemma AcceptedWithin(b: Book, request: RiskRequest, nowMs: int64)
    requires Refusal(b, request, nowMs).None?
    ensures b.snapshot.Some?
    ensures var total := RiskSum(b.byKey) + request.potentialRisk.units as int;
            && total <= b.snapshot.value.availableBalance.units as int
            && (b.config.maxReservedRisk.Some? ==> total <= b.config.maxReservedRisk.value.units as int)
            && 0 <= nowMs as int - b.snapshot.value.capturedAtMs as int <= b.config.maxSnapshotAgeMs as int
  {
  }

  /** A settlement that is applied is proved for the stored reservation, not only for the caller's token. */
  lemma SettledMeansProved(b: Book, token: RiskReservation, evidence: RiskSettlementEvidence)
    requires Answer(b, Settle(token, evidence)).kind.Applied?
    ensures token.idempotencyKey in b.byKey && Proves(evidence, b.byKey[token.idempotencyKey])
  {
    assert Matches(b.byKey[token.idempotencyKey], token);
  }

  /** How many more transitions a reservation can take. */
  function Budget(state: ReservationState): nat {
    match state
    case Reserved => 3
    case Submitted => 2
    case ExecutionUnknown => 1
    case Released => 0
    case Settled => 0
  }

  /** A reservation, once published, stays for ever; only its state moves, and only downwards. */
  ghost predicate Follows(b: Book, c: Book) {
    && (forall key :: key in b.byKey ==>
          && key in c.byKey
          && c.byKey[key] == b.byKey[key].(state := c.byKey[key].state)
          && Budget(c.byKey[key].state) <= Budget(b.byKey[key].state)
          && (!HoldsRisk(b.byKey[key]) ==> c.byKey[key] == b.byKey[key]))
    && b.byIntent.Keys <= c.byIntent.Keys
    && (b.snapshot.Some? ==>
          && c.snapshot.Some? && b.snapshot.value.revision <= c.snapshot.value.revision
          && c.snapshot.value.availableBalance.SameCurrency(b.snapshot.value.availableBalance))
  }

  lemma {:induction false} RunFollows(b: Book, calls: seq<RiskCall>)
    requires BookInvariant(b)
    ensures Follows(b, AfterCalls(b, calls))
    decreases calls
  {
    hide Next, BookInvariant, HoldsRisk;
    if calls != [] {
      NextKeepsInvariant(b, calls[0]);
      StepFollows(b, calls[0]);
      RunFollows(Next(b, calls[0]), calls[1..]);
    }
  }

  lemma StepFollows(b: Book, call: RiskCall)
    requires BookInvariant(b)
    ensures Follows(b, Next(b, call))
  {
    hide Next, Admits, Moves, BookInvariant;
    if Admits(b, call) {
      AdmitEffect(b, call);
    } else if Moves(b, call) {
      MoveEffect(b, call);
      MoveFollows(b, call.token.idempotencyKey, Target(call));
    } else {
      OtherEffect(b, call);
    }
  }

  lemma MoveFollows(b: Book, key: string, target: ReservationState)
    requires key in b.byKey && Allowed(target, b.byKey[key].state)
    ensures Follows(b, b.(byKey := b.byKey[key := b.byKey[key].(state := target)]))
  {
  }

  /** A key, and an intent, is admitted at most once for ever, even after release or settlement. */
  lemma AdmittedOnce(b: Book, first: RiskCall, later: seq<RiskCall>, again: RiskCall)
    requires BookInvariant(b) && first.Reserve? && Admits(b, first)
    requires again.Reserve?
    requires again.request.idempotencyKey == first.request.idempotencyKey
             || again.request.intentId == first.request.intentId
    ensures !Admits(AfterCalls(Next(b, first), later), again)
  {
    hide Next, Admits;
    NextKeepsInvariant(b, first);
    RunFollows(Next(b, first), later);
    AdmitEffect(b, first);
    var c := AfterCalls(Next(b, first), later);
    assert first.request.idempotencyKey in Next(b, first).byKey;
    assert first.request.intentId in Next(b, first).byIntent.Keys;
    if Admits(c, again) {
      AdmitEffect(c, again);
    }
  }

  lemma SubmissionMeans(b: Book, call: RiskCall)
    requires call.Reserve? && IsSubmissionAdmission(Answer(b, call))
    ensures var key := call.request.idempotencyKey;
      if key in b.byKey then b.byKey[key].intentId == call.request.intentId && b.byKey[key].state.Reserved?
      else call.request.intentId !in b.byIntent
  {
  }

  /**
   * Once any transition of a reservation has been applied, no request under its key or its intent is ever
   * again answered with leave to submit.
   */
  lemma NoSecondSubmission(b: Book, move: RiskCall, later: seq<RiskCall>, again: RiskCall)
    requires BookInvariant(b) && Moves(b, move) && again.Reserve?
    requires again.request.idempotencyKey == move.token.idempotencyKey
             || again.request.intentId == move.token.intentId
    ensures !IsSubmissionAdmission(Answer(AfterCalls(Next(b, move), later), again))
  {
    hide Next, Moves, Answer;
    MoveEffect(b, move);
    var key := move.token.idempotencyKey;
    var c := AfterCalls(Next(b, move), later);
    NextKeepsInvariant(b, move);
    RunFollows(Next(b, move), later);
    RunKeepsBook(Next(b, move), later);
    assert key in c.byKey && !c.byKey[key].state.Reserved? && c.byKey[key].intentId == move.token.intentId;
    if IsSubmissionAdmission(Answer(c, again)) {
      SubmissionMeans(c, again);
    }
  }

  ghost function MovesOf(b: Book, calls: seq<RiskCall>, key: string): nat
    decreases calls
  {
    if calls == [] then 0
    else (if Moves(b, calls[0]) && calls[0].token.idempotencyKey == key then 1 else 0)
         + MovesOf(Next(b, calls[0]), calls[1..], key)
  }

  function BudgetOf(b: Book, key: string): nat {
    if key in b.byKey then Budget(b.byKey[key].state) else 3
  }

  /** Each reservation takes at most three applied transitions over any run. */
  lemma {:induction false} AtMostThreeMoves(b: Book, calls: seq<RiskCall>, key: string)
    requires BookInvariant(b)
    ensures MovesOf(b, calls, key) + BudgetOf(AfterCalls(b, calls), key) <= BudgetOf(b, key) <= 3
    decreases calls
  {
    hide Next, Moves;
    if calls != [] {
      NextKeepsInvariant(b, calls[0]);
      StepBudget(b, calls[0], key);
      AtMostThreeMoves(Next(b, calls[0]), calls[1..], key);
    }
  }

  /** An applied transition spends at least one unit of its reservation's budget and of no other's. */
  lemma StepBudget(b: Book, call: RiskCall, key: string)
    requires BookInvariant(b)
    ensures (if Moves(b, call) && call.token.idempotencyKey == key then 1 else 0)
            + BudgetOf(Next(b, call), key) <= BudgetOf(b, key)
  {
    hide Next, Answer, BookInvariant;
    if Admits(b, call) {
      AdmitEffect(b, call);
    } else if Moves(b, call) {
      MoveEffect(b, call);
    } else {
      OtherEffect(b, call);
    }
  }

  /** Released and settled reservations are absorbing: no call moves them again. */
  lemma ClosedReservationStays(b: Book, calls: seq<RiskCall>, key: string)
    requires BookInvariant(b) && key in b.byKey && !HoldsRisk(b.byKey[key])
    ensures MovesOf(b, calls, key) == 0
    ensures key in AfterCalls(b, calls).byKey && AfterCalls(b, calls).byKey[key] == b.byKey[key]
  {
    AtMostThreeMoves(b, calls, key);
    RunFollows(b, calls);
  }

  /** Ids run from the first id, one per reservation, and the sequence ends for good after 2^64 - 1. */
  ghost predicate IdsInOrder(b: Book, firstId: uint64) {
    && b.idsExhausted == (firstId as int + |b.byKey| == TWO_64)
    && (if b.idsExhausted then b.nextId == 0 else b.nextId as int == firstId as int + |b.byKey| < TWO_64)
    && (forall key :: key in b.byKey ==>
          firstId as int <= b.byKey[key].reservationId as int < firstId as int + |b.byKey|)
    && (forall k, l :: k in b.byKey && l in b.byKey && k != l ==>
          b.byKey[k].reservationId != b.byKey[l].reservationId)
  }

  lemma StepIds(b: Book, firstId: uint64, call: RiskCall)
    requires BookInvariant(b) && IdsInOrder(b, firstId)
    ensures IdsInOrder(Next(b, call), firstId)
  {
    hide Next, Admits, Moves;
    if Admits(b, call) {
      AdmitEffect(b, call);
      AdmitIds(b, firstId, Reservation(b, call.request));
    } else if Moves(b, call) {
      MoveEffect(b, call);
      MoveIds(b, firstId, call.token.idempotencyKey, Target(call));
    } else {
      OtherEffect(b, call);
    }
  }

  lemma AdmitIds(b: Book, firstId: uint64, reservation: RiskReservation)
    requires IdsInOrder(b, firstId) && !b.idsExhausted
    requires reservation.reservationId == b.nextId && reservation.idempotencyKey !in b.byKey
    ensures IdsInOrder(Admit(b, reservation), firstId)
  {
    var c := Admit(b, reservation);
    assert |c.byKey| == |b.byKey| + 1;
  }

  lemma MoveIds(b: Book, firstId: uint64, key: string, target: ReservationState)
    requires IdsInOrder(b, firstId) && key in b.byKey
    ensures IdsInOrder(b.(byKey := b.byKey[key := b.byKey[key].(state := target)]), firstId)
  {
    var byKey := b.byKey[key := b.byKey[key].(state := target)];
    assert byKey.Keys == b.byKey.Keys;
    assert |byKey| == |byKey.Keys| && |b.byKey| == |b.byKey.Keys|;
  }

  lemma {:induction false} RunIds(b: Book, firstId: uint64, calls: seq<RiskCall>)
    requires BookInvariant(b) && IdsInOrder(b, firstId)
    ensures IdsInOrder(AfterCalls(b, calls), firstId)
    decreases calls
  {
    if calls != [] {
      StepIds(b, firstId, calls[0]);
      NextKeepsInvariant(b, calls[0]);
      RunIds(Next(b, calls[0]), firstId, calls[1..]);
    }
  }

  /** Over every run the next reservation gets the first id plus the number of reservations before it. */
  lemma IssuedInSequence(config: RiskAdmissionConfig, firstId: uint64, calls: seq<RiskCall>, call: RiskCall)
    ensures var b := AfterCalls(NewBook(config, firstId), calls);
      && IdsInOrder(b, firstId)
      && (Admits(b, call) ==>
            Answer(b, call).reservation.value.reservationId as int == firstId as int + |b.byKey| < TWO_64)
      && (firstId as int + |b.byKey| == TWO_64 ==> !Admits(b, call))
  {
    var start := NewBook(config, firstId);
    assert Risks(start.byKey) == map[];
    RunIds(start, firstId, calls);
    var b := AfterCalls(start, calls);
    if Admits(b, call) {
      AdmitEffect(b, call);
    }
    hide Admits, Answer;
  }
}
