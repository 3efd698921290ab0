/** Reservations and the evidence that one execution group reached its terminal state. */
module RiskEvidence {
  import opened Common
  import opened Identity
  import opened Settlement
  import opened Aggregator
  import opened GroupRuns

  datatype RiskScopeKind = Account | Strategy | Group

  datatype RiskScope = RiskScope(kind: RiskScopeKind, scopeId: uint64)

  datatype ReservationState = Reserved | Submitted | ExecutionUnknown | Released | Settled

  datatype RiskReservation = RiskReservation(
    reservationId: uint64,
    scope: RiskScope,
    intentId: uint64,
    executionGroup: ExecutionGroupIdentity,
    cardinality: ExecutionCardinality,
    idempotencyKey: string,
    stake: MoneyAmount,
    potentialRisk: MoneyAmount,
    state: ReservationState,
    accountRevision: uint64)

  datatype RiskSettlementEvidence = RiskSettlementEvidence(
    reservationId: uint64,
    intentId: uint64,
    executionGroup: ExecutionGroupIdentity,
    outcome: GroupOutcome,
    settlements: seq<TradeSettlement>)

  function ZeroOf(reservation: RiskReservation): MoneyAmount {
    MoneyAmount(0, reservation.potentialRisk.precision, reservation.potentialRisk.currency)
  }

  /** The empty group that a replay of the evidence starts from. */
  ghost function StartOf(reservation: RiskReservation, roster: seq<uint64>): Group {
    FreshGroup(reservation.intentId, reservation.executionGroup, roster, ZeroOf(reservation))
  }

  /** Terminal events of this very group, in its currency, no settlement or trade twice. */
  ghost predicate TerminalRoster(reservation: RiskReservation, settlements: seq<TradeSettlement>) {
    && (forall e :: e in settlements ==>
          e.Terminal() && BelongsTo(e, reservation.intentId, reservation.executionGroup, ZeroOf(reservation)))
    && DistinctEvents(settlements)
  }

  ghost predicate DistinctEvents(settlements: seq<TradeSettlement>) {
    forall i, j :: 0 <= i < j < |settlements| ==>
                     settlements[i].settlementId != settlements[j].settlementId
                     && settlements[i].tradeId != settlements[j].tradeId
  }

  /**
   * The evidence proves the reservation's group closed: one terminal event per expected member, and the
   * claimed outcome is the representable outcome of those events.
   */
  ghost predicate Proves(evidence: RiskSettlementEvidence, reservation: RiskReservation) {
    var settlements := evidence.settlements;
    var closed := ClosedOutcome(settlements, ZeroOf(reservation));
    && evidence.reservationId == reservation.reservationId
    && evidence.intentId == reservation.intentId
    && evidence.executionGroup == reservation.executionGroup
    && 0 < |settlements| == reservation.executionGroup.expectedMembers as int
    && (|settlements| > 1 ==> reservation.executionGroup.groupId != 0)
    && reservation.potentialRisk.ValidMetadata()
    && TerminalRoster(reservation, settlements)
    && closed.status.Ready?
    && evidence.outcome == closed
  }

  lemma AfterAllSnoc(g: Group, events: seq<TradeSettlement>, event: TradeSettlement)
    ensures AfterAll(g, events + [event]) == After(AfterAll(g, events), event)
    ensures AllApplied(g, events + [event])
            <==> AllApplied(g, events) && Verdict(AfterAll(g, events), event) == Applied
    decreases events
  {
    if events == [] {
      assert (events + [event])[1..] == [];
    } else {
      AfterAllSnoc(After(g, events[0]), events[1..], event);
      assert (events + [event])[1..] == events[1..] + [event];
    }
  }

  /** An applied event belongs to the group. */
  lemma {:induction false} AppliedBelong(g: Group, events: seq<TradeSettlement>)
    requires AllApplied(g, events)
    ensures forall e :: e in events ==> BelongsTo(e, g.intentId, g.identity, g.zero)
    decreases events
  {
    if events != [] {
      AppliedBelong(After(g, events[0]), events[1..]);
      assert events == [events[0]] + events[1..];
    }
  }

  lemma {:induction false} DistinctOnce(events: seq<TradeSettlement>, e: TradeSettlement)
    requires DistinctEvents(events) && e in events
    ensures multiset(events)[e] == 1
  {
    assert events == [events[0]] + events[1..];
    if e in events[1..] {
      DistinctOnce(events[1..], e);
    }
  }

  /** A terminal roster is a batch for the freshly opened group of its own trades. */
  lemma RosterIsBatch(reservation: RiskReservation, settlements: seq<TradeSettlement>, roster: seq<uint64>)
    requires TerminalRoster(reservation, settlements)
    requires forall e :: e in settlements ==> e.tradeId in roster
    ensures Batch(StartOf(reservation, roster), multiset(settlements))
  {
    forall e | e in settlements
      ensures multiset(settlements)[e] == 1
    {
      DistinctOnce(settlements, e);
    }
    assert forall e :: e in multiset(settlements) <==> e in settlements;
  }

  method ValidFor(evidence: RiskSettlementEvidence, reservation: RiskReservation) returns (ok: bool)
    ensures ok <==> Proves(evidence, reservation)
  {
    var settlements, outcome := evidence.settlements, evidence.outcome;
    ClaimMustBeClosed(evidence, reservation);
    if evidence.reservationId != reservation.reservationId
       || evidence.intentId != reservation.intentId
       || evidence.executionGroup != reservation.executionGroup
       || !outcome.final || !outcome.allMembersTerminal || outcome.unresolved
       || !outcome.status.Ready?
       || outcome.kind.None?
       || outcome.completedMembers != evidence.executionGroup.expectedMembers
       || |settlements| != evidence.executionGroup.expectedMembers as int {
      return false;
    }
    var admissible, tradeIds := ScanSettlements(evidence);
    if !admissible {
      return false;
    }
    var roster := Listing(tradeIds);
    assert evidence.intentId == 0 ==> settlements == [] by {
      assert settlements != [] ==> settlements[0] in settlements;
    }
    var aggregator := new ExecutionGroupAggregator(
      reservation.intentId, reservation.executionGroup, roster,
      reservation.potentialRisk.currency, reservation.potentialRisk.precision);
    if !aggregator.valid {
      return false;
    }
    ok := Replays(evidence, reservation, aggregator, roster);
  }

  /** The flags checked first are implied by the full comparison at the end. */
  lemma ClaimMustBeClosed(evidence: RiskSettlementEvidence, reservation: RiskReservation)
    ensures Proves(evidence, reservation) ==>
              && evidence.outcome.final && evidence.outcome.allMembersTerminal && !evidence.outcome.unresolved
              && evidence.outcome.status.Ready? && evidence.outcome.kind.Some?
              && evidence.outcome.completedMembers == evidence.executionGroup.expectedMembers
  {
  }

  ghost predicate Admissible(evidence: RiskSettlementEvidence, e: TradeSettlement) {
    e.Valid() && e.Terminal() && e.intentId == evidence.intentId && e.groupId == evidence.executionGroup.groupId
  }

  ghost function SettlementsBefore(events: seq<TradeSettlement>, i: nat): set<uint64>
    requires i <= |events|
  {
    if i == 0 then {} else SettlementsBefore(events, i - 1) + {events[i - 1].settlementId}
  }

  ghost function TradesBefore(events: seq<TradeSettlement>, i: nat): set<uint64>
    requires i <= |events|
  {
    if i == 0 then {} else TradesBefore(events, i - 1) + {events[i - 1].tradeId}
  }

  /** Each of the first `i` events is admissible and repeats no earlier id. */
  ghost predicate ScannedWell(evidence: RiskSettlementEvidence, i: nat)
    requires i <= |evidence.settlements|
  {
    var events := evidence.settlements;
    i == 0
    || (&& ScannedWell(evidence, i - 1)
        && Admissible(evidence, events[i - 1])
        && events[i - 1].settlementId !in SettlementsBefore(events, i - 1)
        && events[i - 1].tradeId !in TradesBefore(events, i - 1))
  }

  lemma {:induction false} BeforeMeans(events: seq<TradeSettlement>, i: nat)
    requires i <= |events|
    ensures forall s :: s in SettlementsBefore(events, i) <==> exists j :: 0 <= j < i && events[j].settlementId == s
    ensures forall t :: t in TradesBefore(events, i) <==> exists j :: 0 <= j < i && events[j].tradeId == t
  {
    if i > 0 {
      BeforeMeans(events, i - 1);
    }
  }

  /** Scanning one event after the other amounts to the statement about all pairs. */
  lemma {:induction false} ScanMeans(evidence: RiskSettlementEvidence, i: nat)
    requires i <= |evidence.settlements|
    ensures var events := evidence.settlements;
            ScannedWell(evidence, i) <==>
              && (forall j :: 0 <= j < i ==> Admissible(evidence, events[j]))
              && (forall j, k :: 0 <= j < k < i ==>
                    events[j].settlementId != events[k].settlementId && events[j].tradeId != events[k].tradeId)
  {
    if i > 0 {
      ScanMeans(evidence, i - 1);
      BeforeMeans(evidence.settlements, i - 1);
    }
  }

  lemma ScanIsComplete(evidence: RiskSettlementEvidence)
    ensures ScannedWell(evidence, |evidence.settlements|) <==>
            (forall e :: e in evidence.settlements ==> Admissible(evidence, e)) && DistinctEvents(evidence.settlements)
  {
    hide ScannedWell, Admissible;
    ScanMeans(evidence, |evidence.settlements|);
  }

  lemma TradesAreAll(events: seq<TradeSettlement>)
    ensures TradesBefore(events, |events|) == TradeIds(events)
  {
    hide TradesBefore, SettlementsBefore;
    BeforeMeans(events, |events|);
  }

  lemma {:induction false} ScanShrinks(evidence: RiskSettlementEvidence, i: nat, j: nat)
    requires j <= i <= |evidence.settlements| && ScannedWell(evidence, i)
    ensures ScannedWell(evidence, j)
    decreases i
  {
    if j < i {
      ScanShrinks(evidence, i - 1, j);
    }
  }

  /** Collects the trade ids while every settlement is terminal, of this group and new. */
  method ScanSettlements(evidence: RiskSettlementEvidence) returns (ok: bool, tradeIds: set<uint64>)
    ensures ok <==> (forall e :: e in evidence.settlements ==> Admissible(evidence, e))
                    && DistinctEvents(evidence.settlements)
    ensures ok ==> tradeIds == TradeIds(evidence.settlements) && |tradeIds| == |evidence.settlements|
  {
    ok, tradeIds := Scan(evidence);
    ScanIsComplete(evidence);
    TradesAreAll(evidence.settlements);
  }

  method Scan(evidence: RiskSettlementEvidence) returns (ok: bool, tradeIds: set<uint64>)
    ensures ok <==> ScannedWell(evidence, |evidence.settlements|)
    ensures ok ==> tradeIds == TradesBefore(evidence.settlements, |evidence.settlements|)
                   && |tradeIds| == |evidence.settlements|
  {
    var settlements := evidence.settlements;
    var settlementIds: set<uint64> := {};
    tradeIds := {};
    for i := 0 to |settlements|
      invariant ScannedWell(evidence, i)
      invariant settlementIds == SettlementsBefore(settlements, i)
      invariant tradeIds == TradesBefore(settlements, i) && |tradeIds| == i
    {
      var settlement := settlements[i];
      if !settlement.Valid() || !settlement.Terminal()
         || settlement.intentId != evidence.intentId
         || settlement.groupId != evidence.executionGroup.groupId
         || settlement.settlementId in settlementIds || settlement.tradeId in tradeIds {
        assert !ScannedWell(evidence, i + 1);
        if ScannedWell(evidence, |settlements|) {
          ScanShrinks(evidence, |settlements|, i + 1);
        }
        return false, {};
      }
      settlementIds := settlementIds + {settlement.settlementId};
      tradeIds := tradeIds + {settlement.tradeId};
    }
    return true, tradeIds;
  }

  lemma DistinctSnoc(ids: seq<uint64>, id: uint64)
    requires Distinct(ids) && id !in ids
    ensures Distinct(ids + [id])
  {
  }

  /** The ids as a list without repetition. */
  method Listing(ids: set<uint64>) returns (roster: seq<uint64>)
    ensures Distinct(roster) && |roster| == |ids|
    ensures forall id :: id in roster <==> id in ids
  {
    roster := [];
    var rest := ids;
    while rest != {}
      invariant rest <= ids && Distinct(roster) && |roster| + |rest| == |ids|
      invariant forall id :: id in roster <==> id in ids - rest
      decreases |rest|
    {
      var id :| id in rest;
      DistinctSnoc(roster, id);
      rest := rest - {id};
      roster := roster + [id];
    }
  }

  /** What the scan has established about the evidence before the replay. */
  ghost predicate Replayable(evidence: RiskSettlementEvidence, reservation: RiskReservation, roster: seq<uint64>) {
    && RosterAccepted(reservation.intentId, reservation.executionGroup, roster, ZeroOf(reservation))
    && evidence.reservationId == reservation.reservationId
    && evidence.intentId == reservation.intentId
    && evidence.executionGroup == reservation.executionGroup
    && (forall e :: e in evidence.settlements ==> Admissible(evidence, e) && e.tradeId in roster)
    && DistinctEvents(evidence.settlements)
    && |evidence.settlements| == |roster|
  }

  /** Replays the settlements through a new aggregator and compares its outcome with the claim. */
  method Replays(
    evidence: RiskSettlementEvidence, reservation: RiskReservation, aggregator: ExecutionGroupAggregator,
    ghost roster: seq<uint64>) returns (ok: bool)
    requires aggregator.Valid() && aggregator.State() == StartOf(reservation, roster)
    requires Replayable(evidence, reservation, roster)
    modifies aggregator
    ensures ok <==> Proves(evidence, reservation)
  {
    var settlements := evidence.settlements;
    ghost var start := StartOf(reservation, roster);
    for i := 0 to |settlements|
      invariant aggregator.Valid()
      invariant aggregator.State() == AfterAll(start, settlements[..i]) && AllApplied(start, settlements[..i])
    {
      ReplayStep(start, settlements, i);
      var result := aggregator.Apply(settlements[i]);
      if result != Applied {
        RefusedMeansNoProof(evidence, reservation, roster, i);
        return false;
      }
    }
    assert settlements[..|settlements|] == settlements;
    ReplayDecides(evidence, reservation, roster);
    return aggregator.outcome.status.Ready? && aggregator.outcome == evidence.outcome;
  }

  lemma ReplayStep(g: Group, events: seq<TradeSettlement>, i: nat)
    requires i < |events|
    ensures AfterAll(g, events[..i + 1]) == After(AfterAll(g, events[..i]), events[i])
    ensures AllApplied(g, events[..i + 1])
            <==> AllApplied(g, events[..i]) && Verdict(AfterAll(g, events[..i]), events[i]) == Applied
  {
    AfterAllSnoc(g, events[..i], events[i]);
    assert events[..i] + [events[i]] == events[..i + 1];
  }

  lemma {:induction false} PrefixApplied(g: Group, events: seq<TradeSettlement>, i: nat)
    requires i <= |events| && AllApplied(g, events)
    ensures AllApplied(g, events[..i])
    decreases |events| - i
  {
    if i == |events| {
      assert events[..i] == events;
    } else {
      PrefixApplied(g, events, i + 1);
      ReplayStep(g, events, i);
    }
  }

  lemma RefusedMeansNoProof(
    evidence: RiskSettlementEvidence, reservation: RiskReservation, roster: seq<uint64>, i: nat)
    requires Replayable(evidence, reservation, roster) && i < |evidence.settlements|
    requires !AllApplied(StartOf(reservation, roster), evidence.settlements[..i + 1])
    ensures !Proves(evidence, reservation)
  {
    var start := StartOf(reservation, roster);
    if Proves(evidence, reservation) {
      RosterIsBatch(reservation, evidence.settlements, roster);
      BatchRecorded(start, evidence.settlements);
      PrefixApplied(start, evidence.settlements, i + 1);
    }
  }

  lemma ReplayDecides(evidence: RiskSettlementEvidence, reservation: RiskReservation, roster: seq<uint64>)
    requires Replayable(evidence, reservation, roster)
    requires AllApplied(StartOf(reservation, roster), evidence.settlements)
    ensures var actual := AfterAll(StartOf(reservation, roster), evidence.settlements).outcome;
            Proves(evidence, reservation) <==> actual.status.Ready? && actual == evidence.outcome
  {
    var start := StartOf(reservation, roster);
    var settlements := evidence.settlements;
    AppliedBelong(start, settlements);
    assert TerminalRoster(reservation, settlements);
    RosterIsBatch(reservation, settlements, roster);
    StartInvariant(reservation, roster);
    FullBatchCloses(start, settlements);
  }

  lemma StartInvariant(reservation: RiskReservation, roster: seq<uint64>)
    requires RosterAccepted(reservation.intentId, reservation.executionGroup, roster, ZeroOf(reservation))
    ensures GroupInvariant(StartOf(reservation, roster))
    ensures |StartOf(reservation, roster).members| == |roster|
  {
    RosterSize(roster);
    FreshInvariant(reservation.intentId, reservation.executionGroup, roster, ZeroOf(reservation));
    var members := StartOf(reservation, roster).members;
    assert |members| == |members.Keys|;
  }

  /** The order in which the settlements are listed plays no role. */
  lemma EvidenceOrderIsIrrelevant(
    evidence: RiskSettlementEvidence, reservation: RiskReservation, reordered: seq<TradeSettlement>)
    requires multiset(evidence.settlements) == multiset(reordered)
    requires Proves(evidence, reservation)
    ensures Proves(evidence.(settlements := reordered), reservation)
  {
    var settlements := evidence.settlements;
    assert |multiset(settlements)| == |settlements| && |multiset(reordered)| == |reordered|;
    assert forall e :: e in reordered <==> e in multiset(reordered);
    assert forall e :: e in settlements <==> e in multiset(settlements);
    ReorderedDistinct(settlements, reordered);
    SameClosing(reservation, settlements, reordered);
  }

  lemma ReorderedDistinct(settlements: seq<TradeSettlement>, reordered: seq<TradeSettlement>)
    requires multiset(settlements) == multiset(reordered) && DistinctEvents(settlements)
    ensures DistinctEvents(reordered)
  {
    forall i, j | 0 <= i < j < |reordered|
      ensures reordered[i].settlementId != reordered[j].settlementId && reordered[i].tradeId != reordered[j].tradeId
    {
      var d, e := reordered[i], reordered[j];
      assert d in multiset(reordered) && e in multiset(reordered);
      if d == e {
        TwiceCounted(reordered, i, j);
        DistinctOnce(settlements, d);
      }
      assert d in settlements && e in settlements;
    }
  }

  lemma TwiceCounted<T>(s: seq<T>, i: nat, j: nat)
    requires i < j < |s| && s[i] == s[j]
    ensures multiset(s)[s[i]] >= 2
  {
    assert s == s[..j] + [s[j]] + s[j + 1..];
    assert s[i] in s[..j];
    assert multiset(s) == multiset(s[..j]) + multiset{s[j]} + multiset(s[j + 1..]);
  }

  /** The listed trades make a roster for which the settlements are a full batch. */
  lemma RosterOf(reservation: RiskReservation, settlements: seq<TradeSettlement>) returns (start: Group)
    requires TerminalRoster(reservation, settlements)
    requires 0 < |settlements| == reservation.executionGroup.expectedMembers as int
    requires reservation.potentialRisk.ValidMetadata()
    requires |settlements| > 1 ==> reservation.executionGroup.groupId != 0
    ensures GroupInvariant(start) && Batch(start, multiset(settlements)) && |start.members| == |settlements|
    ensures start.zero == ZeroOf(reservation)
  {
    var roster := seq(|settlements|, i requires 0 <= i < |settlements| => settlements[i].tradeId);
    assert forall i :: 0 <= i < |settlements| ==> roster[i] == settlements[i].tradeId && roster[i] in roster;
    assert settlements[0] in settlements;
    RosterIsBatch(reservation, settlements, roster);
    StartInvariant(reservation, roster);
    start := StartOf(reservation, roster);
  }

  lemma SameClosing(
    reservation: RiskReservation, settlements: seq<TradeSettlement>, reordered: seq<TradeSettlement>)
    requires multiset(settlements) == multiset(reordered)
    requires TerminalRoster(reservation, settlements)
    requires 0 < |settlements| == reservation.executionGroup.expectedMembers as int
    requires reservation.potentialRisk.ValidMetadata()
    requires |settlements| > 1 ==> reservation.executionGroup.groupId != 0
    ensures ClosedOutcome(settlements, ZeroOf(reservation)) == ClosedOutcome(reordered, ZeroOf(reservation))
  {
    var start := RosterOf(reservation, settlements);
    assert forall e :: e in reordered ==> e in multiset(reordered);
    assert forall e :: e in multiset(settlements) ==> e in settlements;
    assert |multiset(settlements)| == |settlements| && |multiset(reordered)| == |reordered|;
    hide GroupInvariant, Batch, ClosedOutcome, AfterAll, AllApplied;
    OrderIndependence(start, settlements, reordered);
    FullBatchCloses(start, settlements);
    FullBatchCloses(start, reordered);
  }
}
