/** What an execution group answers and publishes, said of its members and its deliveries alone. */
module GroupLaws {
  import opened Common
  import opened Identity
  import opened Settlement
  import opened Aggregator
  import opened GroupRuns

  ghost predicate SomebodyEarned(members: Members) {
    exists id :: id in members && members[id].Some? && members[id].value.netProfit.Some?
  }

  ghost predicate SomebodyRejected(members: Members) {
    exists id :: id in members && members[id].Some? && members[id].value.kind.Rejected?
  }

  ghost predicate SomebodyUnknown(members: Members) {
    exists id :: id in members && members[id].Some? && members[id].value.kind.Unknown?
  }

  ghost predicate EverybodyClosed(members: Members) {
    forall id :: id in members ==> members[id].Some? && !members[id].value.kind.Unknown?
  }

  /** The flags of the published outcome, open members included. */
  lemma PublishedFlags(g: Group)
    requires GroupInvariant(g) && g.valid
    ensures
      var overflow := SomebodyEarned(g.members) && !FitsInt64(NetProfit(g.members));
      var o := g.outcome;
      && o.completedMembers as int == |FinishedMembers(g.members)|
      && (o.unresolved <==> SomebodyUnknown(g.members))
      && (o.allMembersTerminal <==> EverybodyClosed(g.members))
      && (o.status.NumericOverflow? <==> overflow)
      && (o.status.Ready? <==> EverybodyClosed(g.members) && !overflow)
      && (o.final <==> EverybodyClosed(g.members) && !overflow)
  {
    FinishedWithin(g.members);
    FlagsAgree(g);
    hide FinishedMembers, NetProfit, SomebodyEarned, SomebodyUnknown, EverybodyClosed, AnyEarned, AnyUncertain;
  }

  /**
   * The money of the published outcome: the exact net as soon as one member earned, open members or not,
   * unless no signed word holds it.
   */
  lemma PublishedMoney(g: Group)
    requires GroupInvariant(g) && g.valid
    ensures
      var net := NetProfit(g.members);
      var o := g.outcome;
      && (o.netProfit.Some? <==> SomebodyEarned(g.members) && INT64_MIN <= net <= INT64_MAX)
      && (o.netProfit.Some? ==>
            && o.netProfit.value.units as int == net
            && o.netProfit.value.currency == g.zero.currency && o.netProfit.value.precision == g.zero.precision)
  {
    FlagsAgree(g);
    hide FinishedMembers, NetProfit, SomebodyEarned, AnyEarned;
  }

  /** The kind of the published outcome: none while open, then the sign of the net or why nothing ran. */
  lemma PublishedKind(g: Group)
    requires GroupInvariant(g) && g.valid
    ensures
      var net := NetProfit(g.members);
      var o := g.outcome;
      && (o.kind.Some? <==> o.final)
      && (o.kind == Some(Win) <==> o.final && SomebodyEarned(g.members) && net > 0)
      && (o.kind == Some(Loss) <==> o.final && SomebodyEarned(g.members) && net < 0)
      && (o.kind == Some(Draw) <==> o.final && SomebodyEarned(g.members) && net == 0)
      && (o.kind == Some(OutcomeKind.Rejected) <==>
            o.final && !SomebodyEarned(g.members) && SomebodyRejected(g.members))
      && (o.kind == Some(OutcomeKind.Cancelled) <==>
            o.final && !SomebodyEarned(g.members) && !SomebodyRejected(g.members))
  {
    FlagsAgree(g);
    hide FinishedMembers, NetProfit, SomebodyEarned, SomebodyRejected, AnyEarned, AnyRefused;
  }

  lemma FlagsAgree(g: Group)
    requires GroupInvariant(g)
    ensures SomebodyEarned(g.members) <==> AnyEarned(g.members)
    ensures SomebodyRejected(g.members) <==> AnyRefused(g.members)
    ensures SomebodyUnknown(g.members) <==> AnyUncertain(g.members)
    ensures EverybodyClosed(g.members) <==> FinishedMembers(g.members) == g.members.Keys
  {
    RecordedAreValid(g);
    hide GroupInvariant;
    RejectedAgree(g.members);
    assert EverybodyClosed(g.members) <==> FinishedMembers(g.members) == g.members.Keys by {
      assert forall id :: id in g.members ==> (id in FinishedMembers(g.members) <==> Finished(g.members[id]));
    }
  }

  lemma RejectedAgree(members: Members)
    ensures SomebodyRejected(members) <==> AnyRefused(members)
    ensures SomebodyUnknown(members) <==> AnyUncertain(members)
  {
  }

  /** Every recorded event is valid; in particular unknown ones carry no profit. */
  lemma RecordedAreValid(g: Group)
    requires GroupInvariant(g)
    ensures forall id :: id in g.members && g.members[id].Some? ==> g.members[id].value.Valid()
    ensures forall id :: id in g.members && g.members[id].Some? && g.members[id].value.netProfit.Some? ==>
      g.members[id].value.Terminal()
  {
    forall id | id in g.members && g.members[id].Some?
      ensures g.members[id].value.Valid()
    {
      assert RecordedSlot(g, id, g.members[id].value);
    }
  }

  function TerminalCount(events: seq<TradeSettlement>): nat {
    if events == [] then 0 else (if events[0].Terminal() then 1 else 0) + TerminalCount(events[1..])
  }

  lemma {:induction false} BatchFinishes(g: Group, events: seq<TradeSettlement>)
    requires Batch(g, multiset(events))
    ensures |FinishedMembers(AfterAll(g, events).members)| == |FinishedMembers(g.members)| + TerminalCount(events)
    decreases events
  {
    if events != [] {
      BatchTail(g, events);
      assert events[0] in multiset(events);
      EventFinishes(g, events[0]);
      BatchFinishes(After(g, events[0]), events[1..]);
      hide Batch, FinishedMembers, After;
    }
  }

  lemma EventFinishes(g: Group, event: TradeSettlement)
    requires Verdict(g, event) == Applied
    ensures |FinishedMembers(After(g, event).members)| ==
            |FinishedMembers(g.members)| + if event.Terminal() then 1 else 0
  {
    hide OutcomeOf, FinishedMembers;
    SlotFinishes(g.members, event.tradeId, event);
  }

  lemma SlotFinishes(members: Members, id: uint64, event: TradeSettlement)
    requires id in members && !Finished(members[id])
    ensures |FinishedMembers(members[id := Some(event)])| ==
            |FinishedMembers(members)| + if event.Terminal() then 1 else 0
  {
    assert FinishedMembers(members[id := Some(event)]) ==
           FinishedMembers(members) + if event.Terminal() then {id} else {};
  }

  /** After a batch into an empty roster the slots hold the deliveries and nothing else. */
  lemma BatchSlots(g: Group, events: seq<TradeSettlement>)
    requires Batch(g, multiset(events)) && forall id :: id in g.members ==> g.members[id].None?
    ensures var h := AfterAll(g, events);
      && (forall e :: e in events ==> e.tradeId in h.members && h.members[e.tradeId] == Some(e))
      && (forall id :: id in h.members && h.members[id].Some? ==> h.members[id].value in events)
  {
    var h := AfterAll(g, events);
    BatchRecorded(g, events);
    hide AfterAll, AllApplied, Batch;
    forall e | e in events
      ensures e.tradeId in h.members && h.members[e.tradeId] == Some(e)
    {
      assert Filed(h, e);
    }
    forall id | id in h.members && h.members[id].Some?
      ensures h.members[id].value in events
    {
      assert SlotFrom(g, events, h, id);
    }
  }

  /** The flags of the members are then the flags of the deliveries. */
  lemma SlotFlags(members: Members, events: seq<TradeSettlement>)
    requires forall e :: e in events ==> e.tradeId in members && members[e.tradeId] == Some(e)
    requires forall id :: id in members && members[id].Some? ==> members[id].value in events
    ensures SomebodyEarned(members) <==> exists e :: e in events && e.netProfit.Some?
    ensures SomebodyUnknown(members) <==> exists e :: e in events && e.kind.Unknown?
  {
    if e :| e in events && e.netProfit.Some? {
      assert members[e.tradeId] == Some(e);
    }
    if e :| e in events && e.kind.Unknown? {
      assert members[e.tradeId] == Some(e);
    }
  }

  /** The plain sum of the profits reported by a list of events. */
  function Earnings(events: seq<TradeSettlement>): int {
    if events == [] then 0
    else (if events[0].netProfit.Some? then events[0].netProfit.value.units as int else 0) + Earnings(events[1..])
  }

  lemma {:induction false} EarningsAreTotal(events: seq<TradeSettlement>)
    requires forall e :: e in events ==> e.Valid()
    ensures TotalProfit(events) == Earnings(events)
  {
    if events != [] {
      assert events[0] in events && forall e :: e in events[1..] ==> e in events;
      EarningsAreTotal(events[1..]);
    }
  }

  /** What a newly opened roster shows after any deliveries for distinct members, from the two lists alone. */
  ghost predicate ShowsDeliveries(o: GroupOutcome, members: nat, zero: MoneyAmount, events: seq<TradeSettlement>) {
    var net := Earnings(events);
    var earned := exists e :: e in events && e.netProfit.Some?;
    var overflow := earned && !(INT64_MIN <= net <= INT64_MAX);
    && o.completedMembers as int == TerminalCount(events)
    && (o.unresolved <==> exists e :: e in events && e.kind.Unknown?)
    && (o.allMembersTerminal <==> TerminalCount(events) == members)
    && (o.status.NumericOverflow? <==> overflow)
    && (o.status.Ready? <==> TerminalCount(events) == members && !overflow)
    && (o.kind.Some? <==> o.status.Ready?)
    && (o.netProfit.Some? <==> earned && !overflow)
    && (o.netProfit.Some? ==> o.netProfit.value.units as int == net && o.netProfit.value.SameCurrency(zero))
  }

  lemma DeliveredOutcome(g: Group, events: seq<TradeSettlement>)
    requires GroupInvariant(g) && Batch(g, multiset(events)) && forall id :: id in g.members ==> g.members[id].None?
    ensures ShowsDeliveries(AfterAll(g, events).outcome, |g.members|, g.zero, events)
  {
    var h := AfterAll(g, events);
    RunKeepsInvariant(g, events);
    DeliveredMembers(g, events);
    BatchSlots(g, events);
    SlotFlags(h.members, events);
    PublishedFlags(h);
    PublishedMoney(h);
    PublishedKind(h);
    AllFinished(h);
    hide AfterAll, GroupInvariant, Batch, FinishedMembers, NetProfit, Earnings,
      SomebodyEarned, SomebodyUnknown, SomebodyRejected, EverybodyClosed, TerminalCount;
  }

  lemma DeliveredMembers(g: Group, events: seq<TradeSettlement>)
    requires GroupInvariant(g) && Batch(g, multiset(events)) && forall id :: id in g.members ==> g.members[id].None?
    ensures var h := AfterAll(g, events);
      && h.valid && h.zero == g.zero && |h.members| == |g.members|
      && NetProfit(h.members) == Earnings(events)
      && |FinishedMembers(h.members)| == TerminalCount(events)
  {
    var h := AfterAll(g, events);
    RunExtends(g, events);
    BatchNet(g, events);
    assert TotalProfit(events) == Earnings(events) by {
      assert forall e :: e in events ==> e in multiset(events);
      EarningsAreTotal(events);
    }
    NothingEarned(g.members);
    BatchFinishes(g, events);
    assert FinishedMembers(g.members) == {};
    assert |h.members| == |h.members.Keys| && |g.members| == |g.members.Keys|;
    hide AfterAll, GroupInvariant, NetProfit, TotalProfit, Earnings, TerminalCount;
  }

  /** Which rosters are accepted: as many different members as announced, numbered, in known money. */
  lemma RostersExactly(
    intentId: uint64, identity: ExecutionGroupIdentity, tradeIds: seq<uint64>, zero: MoneyAmount)
    ensures RosterAccepted(intentId, identity, tradeIds, zero) <==>
      && intentId > 0 && zero.precision as int <= 18 && !zero.currency.UNKNOWN?
      && identity.expectedMembers >= 1 && |tradeIds| == identity.expectedMembers as int
      && (identity.expectedMembers == 1 || identity.groupId > 0)
      && (forall i :: 0 <= i < |tradeIds| ==> tradeIds[i] > 0)
      && (forall i, j :: 0 <= i < |tradeIds| && 0 <= j < |tradeIds| && tradeIds[i] == tradeIds[j] ==> i == j)
  {
  }

  /** A newly opened roster is such a group. */
  lemma RosterOpens(intentId: uint64, identity: ExecutionGroupIdentity, tradeIds: seq<uint64>, zero: MoneyAmount)
    requires RosterAccepted(intentId, identity, tradeIds, zero) && zero.units == 0
    ensures var g := FreshGroup(intentId, identity, tradeIds, zero);
      && GroupInvariant(g) && |g.members| == |tradeIds| && g.receipts == map[]
      && g.valid && g.intentId == intentId && g.identity == identity && g.zero == zero
      && g.members.Keys == (set id | id in tradeIds) && forall id :: id in g.members ==> g.members[id].None?
  {
    RosterSize(tradeIds);
    FreshInvariant(intentId, identity, tradeIds, zero);
    var g := FreshGroup(intentId, identity, tradeIds, zero);
    assert |g.members| == |g.members.Keys|;
    hide GroupInvariant, OutcomeOf;
  }

  lemma AllFinished(g: Group)
    ensures EverybodyClosed(g.members) <==> |FinishedMembers(g.members)| == |g.members|
  {
    FinishedWithin(g.members);
    assert forall id :: id in g.members ==> (id in FinishedMembers(g.members) <==> Finished(g.members[id]));
  }

  /** Each verdict says exactly why: the first thing that stands in the way of the event, or nothing does. */
  lemma VerdictsExactly(g: Group, event: TradeSettlement)
    ensures
      var v := Verdict(g, event);
      var unseen := event.settlementId !in g.receipts;
      var usable := unseen && g.valid && event.Valid();
      var mine := usable && event.intentId == g.intentId && event.groupId == g.identity.groupId;
      var member := mine && event.tradeId in g.members;
      var open := member && !(g.members[event.tradeId].Some? && g.members[event.tradeId].value.kind != Unknown);
      && (v == Duplicate <==> !unseen && g.receipts[event.settlementId] == event)
      && (v == SettlementConflict <==> !unseen && g.receipts[event.settlementId] != event)
      && (v == InvalidConfiguration <==> unseen && !g.valid)
      && (v == InvalidOutcome <==> unseen && g.valid && !event.Valid())
      && (v == WrongOperation <==> usable && !mine)
      && (v == UnknownMember <==> mine && !member)
      && (v == MemberAlreadyTerminal <==> member && !open)
      && (v == CurrencyMismatch <==>
            open && event.netProfit.Some? && event.netProfit.value.currency != g.zero.currency)
      && (v == PrecisionMismatch <==>
            open && event.netProfit.Some? && event.netProfit.value.currency == g.zero.currency
            && event.netProfit.value.precision != g.zero.precision)
      && (v == Applied <==>
            open && (event.netProfit.Some? ==> event.netProfit.value.currency == g.zero.currency
                                               && event.netProfit.value.precision == g.zero.precision))
  {
  }

  /** An applied event is filed in its slot and among the receipts, and nowhere else; any other changes nothing. */
  lemma EventIsFiled(g: Group, event: TradeSettlement)
    ensures var h := After(g, event);
      if Verdict(g, event) == Applied then
        && h.members.Keys == g.members.Keys && h.receipts.Keys == g.receipts.Keys + {event.settlementId}
        && h.members[event.tradeId] == Some(event) && h.receipts[event.settlementId] == event
        && (forall id :: id in g.members && id != event.tradeId ==> h.members[id] == g.members[id])
        && (forall s :: s in g.receipts ==> h.receipts[s] == g.receipts[s])
        && h.intentId == g.intentId && h.identity == g.identity && h.zero == g.zero && h.valid == g.valid
      else h == g
  {
  }
}
