/** From a closed group to a settled reservation: what one owner closes, the other can settle. */
module Closing {
  import opened Common
  import opened Settlement
  import opened Aggregator
  import opened GroupRuns
  import Progression
  import SeriesRuns
  import opened RiskEvidence
  import Risk
  import RiskRuns

  /** The reservation is for this very group, in its money. */
  predicate ReservedFor(reservation: RiskReservation, g: Group) {
    && reservation.intentId == g.intentId && reservation.executionGroup == g.identity
    && reservation.potentialRisk.SameCurrency(g.zero)
  }

  /** The events recorded in the group, one per member, in any order. */
  predicate Lists(g: Group, settlements: seq<TradeSettlement>) {
    && |settlements| == |g.members|
    && (forall e :: e in settlements ==> e.tradeId in g.members && g.members[e.tradeId] == Some(e))
    && forall i, j :: 0 <= i < j < |settlements| ==> settlements[i].tradeId != settlements[j].tradeId
  }

  function EvidenceOf(
    reservation: RiskReservation, outcome: GroupOutcome, settlements: seq<TradeSettlement>): RiskSettlementEvidence
  {
    RiskSettlementEvidence(
      reservation.reservationId, reservation.intentId, reservation.executionGroup, outcome, settlements)
  }

  /** A group whose members have all finished can be listed. */
  lemma {:induction false} SlotsAreListed(members: Members) returns (settlements: seq<TradeSettlement>)
    requires forall id :: id in members ==> members[id].Some? && members[id].value.tradeId == id
    ensures |settlements| == |members|
    ensures forall e :: e in settlements ==> e.tradeId in members && members[e.tradeId] == Some(e)
    ensures forall i, j :: 0 <= i < j < |settlements| ==> settlements[i].tradeId != settlements[j].tradeId
    decreases members.Keys
  {
    if members == map[] {
      settlements := [];
    } else {
      var id :| id in members.Keys;
      var rest := members - {id};
      assert rest.Keys < members.Keys && |rest| == |members| - 1;
      var others := SlotsAreListed(rest);
      settlements := others + [members[id].value];
      forall i | 0 <= i < |others|
        ensures others[i].tradeId != id
      {
        assert others[i] in others;
      }
    }
  }

  lemma ClosedGroupIsListed(g: Group) returns (settlements: seq<TradeSettlement>)
    requires GroupInvariant(g) && g.valid && g.outcome.allMembersTerminal
    ensures Lists(g, settlements)
  {
    forall id | id in g.members
      ensures g.members[id].Some? && g.members[id].value.tradeId == id
    {
      assert id in FinishedMembers(g.members);
    }
    settlements := SlotsAreListed(g.members);
  }

  lemma ListedTrades(g: Group, settlements: seq<TradeSettlement>)
    requires Lists(g, settlements)
    ensures TradeIds(settlements) == g.members.Keys && |g.members.Keys| == |settlements|
  {
    assert |g.members| == |g.members.Keys|;
    assert TradeIds(settlements) <= g.members.Keys;
    DistinctTrades(settlements);
    SameSize(TradeIds(settlements), g.members.Keys);
  }

  lemma {:induction false} DistinctTrades(settlements: seq<TradeSettlement>)
    requires forall i, j :: 0 <= i < j < |settlements| ==> settlements[i].tradeId != settlements[j].tradeId
    ensures |TradeIds(settlements)| == |settlements|
    decreases |settlements|
  {
    if settlements != [] {
      DistinctTrades(settlements[1..]);
      TradeIdsSplit(settlements);
    }
  }

  /** The net of the recorded members is the net of the list. */
  lemma {:induction false} ListedNet(members: Members, settlements: seq<TradeSettlement>)
    requires members.Keys == TradeIds(settlements)
    requires forall e :: e in settlements ==> e.tradeId in members && members[e.tradeId] == Some(e)
    requires forall i, j :: 0 <= i < j < |settlements| ==> settlements[i].tradeId != settlements[j].tradeId
    ensures NetProfit(members) == TotalProfit(settlements)
    decreases |settlements|
  {
    if settlements == [] {
      assert Profits(members) == map[];
    } else {
      ListedRest(members, settlements);
      hide NetProfit, TradeIds, Profit;
      TakeSlot(members, settlements[0].tradeId);
      ListedNet(members - {settlements[0].tradeId}, settlements[1..]);
    }
  }

  lemma ListedRest(members: Members, settlements: seq<TradeSettlement>)
    requires settlements != [] && members.Keys == TradeIds(settlements)
    requires forall e :: e in settlements ==> e.tradeId in members && members[e.tradeId] == Some(e)
    requires forall i, j :: 0 <= i < j < |settlements| ==> settlements[i].tradeId != settlements[j].tradeId
    ensures var first, rest := settlements[0], settlements[1..];
      var others := members - {first.tradeId};
      && first.tradeId in members && members[first.tradeId] == Some(first)
      && others.Keys == TradeIds(rest)
      && (forall e :: e in rest ==> e.tradeId in others && others[e.tradeId] == Some(e))
  {
    TradeIdsSplit(settlements);
    assert settlements[0] in settlements;
    assert forall e :: e in settlements[1..] ==> e in settlements && e.tradeId != settlements[0].tradeId;
    assert settlements[0].tradeId !in TradeIds(settlements[1..]);
  }

  /** Recorded events never share a settlement id. */
  lemma ListedDistinct(g: Group, settlements: seq<TradeSettlement>)
    requires GroupInvariant(g) && Lists(g, settlements)
    ensures DistinctEvents(settlements)
  {
    forall i, j | 0 <= i < j < |settlements|
      ensures settlements[i].settlementId != settlements[j].settlementId
    {
      assert settlements[i] in settlements && settlements[j] in settlements;
      assert RecordedSlot(g, settlements[i].tradeId, settlements[i]);
      assert RecordedSlot(g, settlements[j].tradeId, settlements[j]);
    }
  }

  lemma ListedTerminal(g: Group, reservation: RiskReservation, settlements: seq<TradeSettlement>)
    requires GroupInvariant(g) && g.valid && g.outcome.allMembersTerminal
    requires ReservedFor(reservation, g) && Lists(g, settlements)
    ensures TerminalRoster(reservation, settlements) && ZeroOf(reservation) == g.zero
  {
    ListedDistinct(g, settlements);
    forall e | e in settlements
      ensures e.Terminal() && BelongsTo(e, g.intentId, g.identity, g.zero)
    {
      assert e.tradeId in FinishedMembers(g.members);
      assert RecordedSlot(g, e.tradeId, e);
    }
  }

  /** The outcome of a closed group is the outcome of its list. */
  lemma ListedOutcome(g: Group, settlements: seq<TradeSettlement>)
    requires GroupInvariant(g) && g.valid && g.outcome.allMembersTerminal && Lists(g, settlements)
    ensures g.outcome == ClosedOutcome(settlements, g.zero)
  {
    ListedTrades(g, settlements);
    ListedNet(g.members, settlements);
    ListedFlags(g, settlements);
    hide Lists, NetProfit, TotalProfit, TradeIds, AnyEarned, AnyRefused;
    OutcomeOfClosedRoster(g.members, settlements, g.zero);
  }

  lemma ListedFlags(g: Group, settlements: seq<TradeSettlement>)
    requires GroupInvariant(g) && g.valid && g.outcome.allMembersTerminal && Lists(g, settlements)
    ensures FinishedMembers(g.members) == g.members.Keys && !AnyUncertain(g.members)
    ensures AnyEarned(g.members) <==> exists e :: e in settlements && e.netProfit.Some?
    ensures AnyRefused(g.members) <==> exists e :: e in settlements && e.kind.Rejected?
  {
    ListedSlots(g, settlements);
    hide Lists, GroupInvariant;
    assert forall id :: id in g.members ==> g.members[id].value.tradeId == id;
  }

  lemma ListedSlots(g: Group, settlements: seq<TradeSettlement>)
    requires GroupInvariant(g) && g.valid && g.outcome.allMembersTerminal && Lists(g, settlements)
    ensures FinishedMembers(g.members) == g.members.Keys
    ensures forall id :: id in g.members ==>
      && g.members[id].Some? && Finished(g.members[id])
      && g.members[id].value in settlements && g.members[id].value.tradeId == id
    ensures forall e :: e in settlements ==> e.tradeId in g.members && g.members[e.tradeId] == Some(e)
  {
    ListedTrades(g, settlements);
    hide TotalProfit, NetProfit;
    forall id | id in g.members
      ensures g.members[id].Some? && g.members[id].value in settlements && g.members[id].value.tradeId == id
      ensures Finished(g.members[id])
    {
      assert id in FinishedMembers(g.members) && id in TradeIds(settlements);
    }
  }

  /**
   * For a group whose members have all finished, a claim made of its recorded events proves the reservation
   * if and only if the group closed with a representable net and the claim is its outcome. So what a group
   * closes can be settled, and no evidence made of the events of an overflowed group settles anything.
   */
  lemma ClosedGroupProvesExactlyWhen(
    g: Group, reservation: RiskReservation, settlements: seq<TradeSettlement>, claim: GroupOutcome)
    requires GroupInvariant(g) && g.valid && g.outcome.allMembersTerminal
    requires ReservedFor(reservation, g) && Lists(g, settlements)
    ensures Proves(EvidenceOf(reservation, claim, settlements), reservation) <==> g.outcome.final && claim == g.outcome
  {
    ListedTerminal(g, reservation, settlements);
    ListedOutcome(g, settlements);
    hide TerminalRoster, Lists, TotalProfit;
  }

  /**
   * A series that takes one terminal event per member either finishes the operation, and then its outcome
   * with these events proves the reservation, or blocks, and then no claim with these events does.
   */
  lemma ClosedSeriesProvesExactlyWhen(
    s: Progression.Series, events: seq<TradeSettlement>, reservation: RiskReservation, claim: GroupOutcome)
    requires SeriesRuns.Deliverables(s, events) && |events| == |s.group.members|
    requires (forall e :: e in events ==> e.Terminal()) && ReservedFor(reservation, s.group)
    ensures var t := SeriesRuns.AfterCalls(s, SeriesRuns.Deliveries(events, s.state.series.stateRevision as int));
      Proves(EvidenceOf(reservation, claim, events), reservation) <==>
      t.state.status == Progression.Active && claim == t.state.outcome
  {
    SeriesRuns.FullRosterSettlesSeries(s, events);
    var g := AfterAll(s.group, events);
    RunKeepsInvariant(s.group, events);
    RunExtends(s.group, events);
    FullBatchCloses(s.group, events);
    DeliveredAreListed(s.group, events);
    ClosedGroupProvesExactlyWhen(g, reservation, events, claim);
  }

  lemma DeliveredAreListed(g: Group, events: seq<TradeSettlement>)
    requires Batch(g, multiset(events)) && |events| == |g.members|
    ensures Lists(AfterAll(g, events), events)
  {
    BatchRecorded(g, events);
    RunExtends(g, events);
    var h := AfterAll(g, events);
    assert h.members.Keys == g.members.Keys && |h.members| == |h.members.Keys| && |g.members| == |g.members.Keys|;
    forall e | e in events
      ensures e.tradeId in h.members && h.members[e.tradeId] == Some(e)
    {
      assert Filed(h, e);
    }
    forall i, j | 0 <= i < j < |events|
      ensures events[i].tradeId != events[j].tradeId
    {
      assert events[i] in multiset(events) && events[j] in multiset(events);
      if events[i] == events[j] {
        TwiceCounted(events, i, j);
      }
    }
  }

  /**
   * The risk owner settles a submitted or unknown reservation against the closed group exactly when the
   * group's net was representable; its risk is then given back.
   */
  lemma ClosedGroupSettlesExactlyWhen(
    b: Risk.Book, key: string, g: Group, settlements: seq<TradeSettlement>, claim: GroupOutcome)
    requires Risk.BookInvariant(b) && key in b.byKey
    requires b.byKey[key].state.Submitted? || b.byKey[key].state.ExecutionUnknown?
    requires GroupInvariant(g) && g.valid && g.outcome.allMembersTerminal
    requires ReservedFor(b.byKey[key], g) && Lists(g, settlements)
    ensures var reservation := b.byKey[key];
      var call := Risk.Settle(reservation, EvidenceOf(reservation, claim, settlements));
      && (Risk.Answer(b, call).kind.Applied? <==> g.outcome.final && claim == g.outcome)
      && (Risk.Answer(b, call).kind.Applied? ==>
            Risk.RiskSum(Risk.Next(b, call).byKey) == Risk.RiskSum(b.byKey) - reservation.potentialRisk.units as int)
  {
    var reservation := b.byKey[key];
    var call := Risk.Settle(reservation, EvidenceOf(reservation, claim, settlements));
    ClosedGroupProvesExactlyWhen(g, reservation, settlements, claim);
    RiskRuns.RiskConserved(b, call);
    hide GroupInvariant, Proves, Risk.RiskSum;
  }

  // An overflowed group holds its risk.

  predicate InFlight(reservation: RiskReservation) {
    reservation.state.Submitted? || reservation.state.ExecutionUnknown?
  }

  ghost predicate Overflowed(g: Group) {
    GroupInvariant(g) && g.valid && g.outcome.allMembersTerminal && !g.outcome.final
  }

  /** Every attempt to settle this key is made of the group's own events. */
  predicate SettlesFrom(g: Group, key: string, call: Risk.RiskCall) {
    call.Settle? && call.token.idempotencyKey == key ==> Lists(g, call.evidence.settlements)
  }

  lemma NoProofFromOverflow(g: Group, token: RiskReservation, evidence: RiskSettlementEvidence)
    requires Overflowed(g) && ReservedFor(token, g) && Lists(g, evidence.settlements)
    ensures !Proves(evidence, token)
  {
    ClosedGroupProvesExactlyWhen(g, token, evidence.settlements, evidence.outcome);
  }

  lemma StepHoldsRisk(b: Risk.Book, call: Risk.RiskCall, key: string, g: Group)
    requires key in b.byKey && InFlight(b.byKey[key]) && ReservedFor(b.byKey[key], g)
    requires Overflowed(g) && SettlesFrom(g, key, call)
    ensures var next := Risk.Next(b, call);
      key in next.byKey && InFlight(next.byKey[key]) && ReservedFor(next.byKey[key], g)
  {
    hide Risk.Next, Risk.Answer, Proves, GroupInvariant, Lists;
    if RiskRuns.Admits(b, call) {
      RiskRuns.AdmitEffect(b, call);
    } else if RiskRuns.Moves(b, call) {
      RiskRuns.MoveEffect(b, call);
      if call.Settle? && call.token.idempotencyKey == key {
        NoProofFromOverflow(g, call.token, call.evidence);
      }
    } else {
      RiskRuns.OtherEffect(b, call);
    }
  }

  /** Over every run that settles only from the events of the overflowed group, its risk stays reserved. */
  lemma {:induction false} OverflowHoldsRisk(b: Risk.Book, calls: seq<Risk.RiskCall>, key: string, g: Group)
    requires key in b.byKey && InFlight(b.byKey[key]) && ReservedFor(b.byKey[key], g) && Overflowed(g)
    requires forall call :: call in calls ==> SettlesFrom(g, key, call)
    ensures var last := RiskRuns.AfterCalls(b, calls); key in last.byKey && Risk.HoldsRisk(last.byKey[key])
    decreases |calls|
  {
    if calls != [] {
      hide Risk.Next, Overflowed, SettlesFrom, ReservedFor;
      assert calls[0] in calls;
      StepHoldsRisk(b, calls[0], key, g);
      OverflowHoldsRisk(Risk.Next(b, calls[0]), calls[1..], key, g);
    }
  }
}
