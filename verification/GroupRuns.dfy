/** Whole-run properties of one execution group: any sequence of deliveries, in any order. */
module GroupRuns {
  import opened Common
  import opened Settlement
  import opened Sums
  import opened Aggregator

  ghost function AfterAll(g: Group, events: seq<TradeSettlement>): Group
    decreases events
  {
    if events == [] then g else AfterAll(After(g, events[0]), events[1..])
  }

  ghost predicate AllApplied(g: Group, events: seq<TradeSettlement>)
    decreases events
  {
    events == []
    || (Verdict(g, events[0]) == Applied && AllApplied(After(g, events[0]), events[1..]))
  }

  lemma {:induction false} RunKeepsInvariant(g: Group, events: seq<TradeSettlement>)
    requires GroupInvariant(g)
    ensures GroupInvariant(AfterAll(g, events))
    decreases events
  {
    if events != [] {
      AfterKeepsInvariant(g, events[0]);
      RunKeepsInvariant(After(g, events[0]), events[1..]);
    }
  }

  /** Receipts are never lost or rewritten, finished members never reopened, the roster never changes. */
  ghost predicate Extends(g: Group, h: Group) {
    && h.intentId == g.intentId && h.identity == g.identity && h.zero == g.zero && h.valid == g.valid
    && h.members.Keys == g.members.Keys
    && (forall s :: s in g.receipts ==> s in h.receipts && h.receipts[s] == g.receipts[s])
    && (forall id :: id in g.members && Finished(g.members[id]) ==> h.members[id] == g.members[id])
  }

  lemma {:induction false} RunExtends(g: Group, events: seq<TradeSettlement>)
    ensures Extends(g, AfterAll(g, events))
    decreases events
  {
    if events != [] {
      RunExtends(After(g, events[0]), events[1..]);
    }
  }

  /** The number of completed members never goes down. */
  lemma CompletedNeverDecreases(g: Group, events: seq<TradeSettlement>)
    requires GroupInvariant(g) && g.valid
    ensures g.outcome.completedMembers <= AfterAll(g, events).outcome.completedMembers
  {
    var h := AfterAll(g, events);
    assert h.valid && FinishedMembers(g.members) <= FinishedMembers(h.members) by {
      RunExtends(g, events);
    }
    SubsetCount(FinishedMembers(g.members), FinishedMembers(h.members));
    CompletedCount(g);
    RunKeepsInvariant(g, events);
    CompletedCount(h);
  }

  lemma CompletedCount(g: Group)
    requires GroupInvariant(g) && g.valid
    ensures g.outcome.completedMembers as int == |FinishedMembers(g.members)|
  {
    FinishedWithin(g.members);
  }

  lemma SubsetCount<T>(a: set<T>, b: set<T>)
    requires a <= b
    ensures |a| <= |b|
  {
    assert b == a + (b - a);
  }

  /** Once applied, an event replays as a duplicate for ever, and its id refuses any other payload. */
  lemma AppliedOnce(g: Group, event: TradeSettlement, later: seq<TradeSettlement>, other: TradeSettlement)
    requires Verdict(g, event) == Applied
    requires other.settlementId == event.settlementId
    ensures var h := AfterAll(After(g, event), later);
            && Verdict(h, other) == (if other == event then Duplicate else SettlementConflict)
            && After(h, other) == h
  {
    RunExtends(After(g, event), later);
  }

  /** A closed group is permanent: no event whatever changes anything any more. */
  lemma {:induction false} ClosedIsPermanent(g: Group, events: seq<TradeSettlement>)
    requires GroupInvariant(g) && g.valid && g.outcome.allMembersTerminal
    ensures AfterAll(g, events) == g
    decreases events
  {
    if events != [] {
      assert forall id :: id in g.members ==> id in FinishedMembers(g.members);
      ClosedIsPermanent(g, events[1..]);
    }
  }

  /** A set of deliveries for distinct open members under distinct new ids. */
  ghost predicate Batch(g: Group, events: multiset<TradeSettlement>) {
    && g.valid
    && (forall e :: e in events ==> events[e] == 1 && Deliverable(g, e))
    && (forall d, e :: d in events && e in events && d != e ==>
          d.settlementId != e.settlementId && d.tradeId != e.tradeId)
  }

  predicate Deliverable(g: Group, event: TradeSettlement) {
    && BelongsTo(event, g.intentId, g.identity, g.zero)
    && event.settlementId !in g.receipts
    && event.tradeId in g.members && !Finished(g.members[event.tradeId])
  }

  /** The exact net of a list of events. */
  ghost function TotalProfit(events: seq<TradeSettlement>): int {
    if events == [] then 0 else Profit(Some(events[0])) + TotalProfit(events[1..])
  }

  lemma BatchTail(g: Group, events: seq<TradeSettlement>)
    requires events != [] && Batch(g, multiset(events))
    ensures Verdict(g, events[0]) == Applied
    ensures Batch(After(g, events[0]), multiset(events[1..]))
    ensures forall e :: e in events[1..] ==> e.tradeId != events[0].tradeId && e.settlementId != events[0].settlementId
  {
    var first, rest := events[0], events[1..];
    assert events == [first] + rest;
    assert multiset(events) == multiset{first} + multiset(rest);
    assert first in multiset(events);
    forall e | e in rest
      ensures e != first && e in multiset(events) && multiset(rest)[e] == 1
    {
      assert e in multiset(rest) && multiset(events)[e] == 1;
    }
  }

  /** Every delivery of a batch is accepted, and the run records exactly the batch. */
  lemma {:induction false} BatchRecorded(g: Group, events: seq<TradeSettlement>)
    requires Batch(g, multiset(events))
    ensures AllApplied(g, events)
    ensures forall e :: e in events ==> Filed(AfterAll(g, events), e)
    ensures forall id :: id in AfterAll(g, events).members ==> SlotFrom(g, events, AfterAll(g, events), id)
    ensures forall s :: s in AfterAll(g, events).receipts ==> ReceiptFrom(g, events, AfterAll(g, events), s)
    decreases events
  {
    if events != [] {
      BatchTail(g, events);
      BatchRecorded(After(g, events[0]), events[1..]);
      RunExtends(After(g, events[0]), events[1..]);
      hide Batch, Extends, SlotFrom, ReceiptFrom, After;
      RecordedStep(g, events, AfterAll(After(g, events[0]), events[1..]));
    }
  }

  /** What the rest of the batch records, the whole batch records, and its first event besides. */
  lemma RecordedStep(g: Group, events: seq<TradeSettlement>, h: Group)
    requires events != [] && Verdict(g, events[0]) == Applied
    requires forall e :: e in events[1..] ==>
      e.tradeId != events[0].tradeId && e.settlementId != events[0].settlementId
    requires Extends(After(g, events[0]), h)
    requires forall e :: e in events[1..] ==> Filed(h, e)
    requires forall id :: id in h.members ==> SlotFrom(After(g, events[0]), events[1..], h, id)
    requires forall s :: s in h.receipts ==> ReceiptFrom(After(g, events[0]), events[1..], h, s)
    ensures forall e :: e in events ==> Filed(h, e)
    ensures forall id :: id in h.members ==> SlotFrom(g, events, h, id)
    ensures forall s :: s in h.receipts ==> ReceiptFrom(g, events, h, s)
  {
    hide OutcomeOf, Verdict;
    var next, rest := After(g, events[0]), events[1..];
    forall id | id in h.members
      ensures SlotFrom(g, events, h, id)
    {
      assert SlotFrom(next, rest, h, id);
    }
    forall s | s in h.receipts
      ensures ReceiptFrom(g, events, h, s)
    {
      assert ReceiptFrom(next, rest, h, s);
    }
    assert Filed(h, events[0]) by {
      assert SlotFrom(next, rest, h, events[0].tradeId);
    }
  }

  /** The event is in its slot and in the receipts. */
  predicate Filed(h: Group, event: TradeSettlement) {
    && event.tradeId in h.members && h.members[event.tradeId] == Some(event)
    && event.settlementId in h.receipts && h.receipts[event.settlementId] == event
  }

  /** A slot of `h` holds an event of the list, or still holds what `g` had there. */
  ghost predicate SlotFrom(g: Group, events: seq<TradeSettlement>, h: Group, id: uint64)
    requires id in h.members
  {
    (exists e :: e in events && e.tradeId == id && h.members[id] == Some(e))
    || (id in g.members && h.members[id] == g.members[id])
  }

  /** A receipt of `h` is one of the list, or was there in `g`. */
  predicate ReceiptFrom(g: Group, events: seq<TradeSettlement>, h: Group, id: uint64)
    requires id in h.receipts
  {
    id in g.receipts || (h.receipts[id] in events && h.receipts[id].settlementId == id)
  }

  /** Any two arrival orders of the same deliveries end in the same group, whatever overflowed on the way. */
  lemma OrderIndependence(g: Group, events: seq<TradeSettlement>, reordered: seq<TradeSettlement>)
    requires GroupInvariant(g) && Batch(g, multiset(events))
    requires multiset(events) == multiset(reordered)
    ensures AllApplied(g, events) && AllApplied(g, reordered)
    ensures AfterAll(g, events) == AfterAll(g, reordered)
  {
    var h, k := AfterAll(g, events), AfterAll(g, reordered);
    assert forall e :: e in events <==> e in multiset(events);
    assert forall e :: e in reordered <==> e in multiset(reordered);
    SameRecords(g, events, reordered);
    RunExtends(g, events);
    RunExtends(g, reordered);
    RunKeepsInvariant(g, events);
    RunKeepsInvariant(g, reordered);
  }

  lemma SameRecords(g: Group, events: seq<TradeSettlement>, reordered: seq<TradeSettlement>)
    requires Batch(g, multiset(events)) && Batch(g, multiset(reordered))
    requires forall e :: e in events <==> e in reordered
    ensures AllApplied(g, events) && AllApplied(g, reordered)
    ensures AfterAll(g, events).members == AfterAll(g, reordered).members
    ensures AfterAll(g, events).receipts == AfterAll(g, reordered).receipts
  {
    var h, k := AfterAll(g, events), AfterAll(g, reordered);
    BatchRecorded(g, events);
    BatchRecorded(g, reordered);
    RunExtends(g, events);
    RunExtends(g, reordered);
    hide Batch, AllApplied, AfterAll, Filed, Extends, SlotFrom, ReceiptFrom;
    SameMembers(g, events, reordered, h, k);
    SameReceipts(g, events, reordered, h, k);
  }

  lemma SameMembers(
    g: Group, events: seq<TradeSettlement>, reordered: seq<TradeSettlement>, h: Group, k: Group)
    requires forall e :: e in events <==> e in reordered
    requires Extends(g, h) && Extends(g, k)
    requires forall id :: id in h.members ==> SlotFrom(g, events, h, id)
    requires forall id :: id in k.members ==> SlotFrom(g, reordered, k, id)
    requires forall e :: e in events ==> Filed(h, e)
    requires forall e :: e in reordered ==> Filed(k, e)
    ensures h.members == k.members
  {
    assert h.members.Keys == g.members.Keys == k.members.Keys;
    hide Extends, SlotFrom, Filed;
    forall id | id in g.members
      ensures h.members[id] == k.members[id]
    {
      SameSlot(g, events, reordered, h, k, id);
    }
  }

  lemma SameSlot(
    g: Group, events: seq<TradeSettlement>, reordered: seq<TradeSettlement>, h: Group, k: Group, id: uint64)
    requires forall e :: e in events <==> e in reordered
    requires id in g.members && id in h.members && id in k.members
    requires SlotFrom(g, events, h, id) && SlotFrom(g, reordered, k, id)
    requires forall e :: e in events ==> Filed(h, e)
    requires forall e :: e in reordered ==> Filed(k, e)
    ensures h.members[id] == k.members[id]
  {
    if e :| e in events && e.tradeId == id {
      assert Filed(h, e) && Filed(k, e);
    }
  }

  lemma SameReceipts(
    g: Group, events: seq<TradeSettlement>, reordered: seq<TradeSettlement>, h: Group, k: Group)
    requires forall e :: e in events <==> e in reordered
    requires forall s :: s in h.receipts ==> ReceiptFrom(g, events, h, s)
    requires forall s :: s in k.receipts ==> ReceiptFrom(g, reordered, k, s)
    requires Extends(g, h) && Extends(g, k)
    requires forall e :: e in events ==> Filed(h, e)
    requires forall e :: e in reordered ==> Filed(k, e)
    ensures h.receipts == k.receipts
  {
    forall s | s in h.receipts
      ensures s in k.receipts && h.receipts[s] == k.receipts[s]
    {
      assert ReceiptFrom(g, events, h, s);
      assert s !in g.receipts ==> Filed(k, h.receipts[s]);
    }
    forall s | s in k.receipts
      ensures s in h.receipts
    {
      assert ReceiptFrom(g, reordered, k, s);
      assert s !in g.receipts ==> Filed(h, k.receipts[s]);
    }
  }

  /** The net grows by exactly the profits of the batch. */
  lemma {:induction false} BatchNet(g: Group, events: seq<TradeSettlement>)
    requires Batch(g, multiset(events))
    ensures NetProfit(AfterAll(g, events).members) == NetProfit(g.members) + TotalProfit(events)
    decreases events
  {
    if events != [] {
      BatchTail(g, events);
      var first := events[0];
      var next := After(g, first);
      assert first in multiset(events);
      assert Profits(next.members) == Profits(g.members)[first.tradeId := Profit(Some(first))];
      SumStore(Profits(g.members), first.tradeId, Profit(Some(first)));
      BatchNet(next, events[1..]);
    }
  }

  /** The outcome of one terminal event per member, from the list alone. */
  ghost function ClosedOutcome(events: seq<TradeSettlement>, zero: MoneyAmount): GroupOutcome {
    var net := TotalProfit(events);
    var earned := exists e :: e in events && e.netProfit.Some?;
    var rejected := exists e :: e in events && e.kind.Rejected?;
    var count := (|events| % 0x1_0000_0000) as uint32;
    if earned && !FitsInt64(net) then
      GroupOutcome(false, false, true, count, NumericOverflow, None, None)
    else
      GroupOutcome(true, false, true, count, Ready, Some(ClosingKind(earned, rejected, net)),
                   if earned then Some(zero.(units := net as int64)) else None)
  }

  ghost function TradeIds(events: seq<TradeSettlement>): set<uint64> {
    set e | e in events :: e.tradeId
  }

  lemma {:induction false} CountTrades(g: Group, events: seq<TradeSettlement>)
    requires Batch(g, multiset(events))
    ensures |TradeIds(events)| == |events|
    ensures TradeIds(events) <= g.members.Keys
    decreases events
  {
    if events != [] {
      BatchTail(g, events);
      CountTrades(After(g, events[0]), events[1..]);
      assert events[0] in multiset(events);
      TradeIdsSplit(events);
      assert events[0].tradeId !in TradeIds(events[1..]);
    }
  }

  lemma TradeIdsSplit(events: seq<TradeSettlement>)
    requires events != []
    ensures TradeIds(events) == TradeIds(events[1..]) + {events[0].tradeId}
  {
    assert events == [events[0]] + events[1..];
  }

  lemma SameSize<T>(a: set<T>, b: set<T>)
    requires a <= b && |a| == |b|
    ensures a == b
  {
    assert b == a + (b - a);
  }

  /** One terminal delivery per member closes the group with the outcome of the list. */
  lemma FullBatchCloses(g: Group, events: seq<TradeSettlement>)
    requires GroupInvariant(g) && Batch(g, multiset(events))
    requires |events| == |g.members|
    requires forall e :: e in events ==> e.Terminal()
    ensures AfterAll(g, events).outcome == ClosedOutcome(events, g.zero)
  {
    var h := AfterAll(g, events);
    AllMembersCovered(g, events);
    assert h.members.Keys == g.members.Keys && h.valid && h.zero == g.zero by {
      RunExtends(g, events);
    }
    assert h.outcome == OutcomeOf(h.members, h.zero) by {
      RunKeepsInvariant(g, events);
    }
    assert NetProfit(h.members) == TotalProfit(events) by {
      NoneFinishedBefore(g, events);
      NothingEarned(g.members);
      BatchNet(g, events);
    }
    FullBatchFiled(g, events);
    AllSlotsFiled(events, h);
    assert |events| == |h.members.Keys|;
    OutcomeOfClosedRoster(h.members, events, g.zero);
  }

  lemma FullBatchFiled(g: Group, events: seq<TradeSettlement>)
    requires Batch(g, multiset(events))
    ensures forall e :: e in events ==> Filed(AfterAll(g, events), e)
  {
    BatchRecorded(g, events);
  }

  lemma AllMembersCovered(g: Group, events: seq<TradeSettlement>)
    requires Batch(g, multiset(events)) && |events| == |g.members|
    ensures TradeIds(events) == g.members.Keys
  {
    CountTrades(g, events);
    assert |g.members| == |g.members.Keys|;
    SameSize(TradeIds(events), g.members.Keys);
  }

  lemma OutcomeOfClosedRoster(members: Members, events: seq<TradeSettlement>, zero: MoneyAmount)
    requires members.Keys == TradeIds(events) && |members.Keys| == |events|
    requires FinishedMembers(members) == members.Keys && !AnyUncertain(members)
    requires AnyEarned(members) <==> exists e :: e in events && e.netProfit.Some?
    requires AnyRefused(members) <==> exists e :: e in events && e.kind.Rejected?
    requires NetProfit(members) == TotalProfit(events)
    ensures OutcomeOf(members, zero) == ClosedOutcome(events, zero)
  {
  }

  lemma NoneFinishedBefore(g: Group, events: seq<TradeSettlement>)
    requires Batch(g, multiset(events)) && TradeIds(events) == g.members.Keys
    ensures forall id :: id in g.members ==> !Finished(g.members[id])
  {
    forall id | id in g.members
      ensures !Finished(g.members[id])
    {
      var e :| e in events && e.tradeId == id;
      assert e in multiset(events);
    }
  }

  lemma AllSlotsFiled(events: seq<TradeSettlement>, h: Group)
    requires h.members.Keys == TradeIds(events)
    requires forall e :: e in events ==> Filed(h, e) && e.Terminal()
    ensures FinishedMembers(h.members) == h.members.Keys
    ensures !AnyUncertain(h.members)
    ensures AnyEarned(h.members) <==> exists e :: e in events && e.netProfit.Some?
    ensures AnyRefused(h.members) <==> exists e :: e in events && e.kind.Rejected?
  {
    forall id | id in h.members
      ensures exists e :: e in events && h.members[id] == Some(e) && e.Terminal()
    {
      var e :| e in events && e.tradeId == id;
      assert Filed(h, e);
    }
    forall e | e in events
      ensures e.tradeId in h.members && h.members[e.tradeId] == Some(e)
    {
      assert Filed(h, e);
    }
  }
}
