/** Whole-run properties of one series: any sequence of begin, apply and complete calls. */
module SeriesRuns {
  import opened Common
  import opened Settlement
  import opened Aggregator
  import opened GroupRuns
  import opened Progression

  ghost function AfterCalls(s: Series, calls: seq<Call>): Series
    decreases calls
  {
    if calls == [] then s else AfterCalls(Next(s, calls[0]), calls[1..])
  }

  ghost predicate Accepted(s: Series, call: Call) {
    Answer(s, call) == Applied
  }

  /** The call finalizes the operation with a net profit value. */
  ghost predicate Finances(s: Series, call: Call) {
    && Accepted(s, call) && call.Deliver?
    && var outcome := After(s.group, call.event).outcome;
       outcome.final && outcome.netProfit.Some?
  }

  ghost function Count(s: Series, calls: seq<Call>, counts: (Series, Call) -> bool): nat
    decreases calls
  {
    if calls == [] then 0
    else (if counts(s, calls[0]) then 1 else 0) + Count(Next(s, calls[0]), calls[1..], counts)
  }

  ghost predicate AllAccepted(s: Series, calls: seq<Call>)
    decreases calls
  {
    calls == [] || (Accepted(s, calls[0]) && AllAccepted(Next(s, calls[0]), calls[1..]))
  }

  lemma {:induction false} RunKeepsSeries(s: Series, calls: seq<Call>)
    requires SeriesInvariant(s)
    ensures SeriesInvariant(AfterCalls(s, calls))
    decreases calls
  {
    if calls != [] {
      NextKeepsInvariant(s, calls[0]);
      RunKeepsSeries(Next(s, calls[0]), calls[1..]);
    }
  }

  /** Inside a series the group itself never sees a known settlement id, nor runs without a roster. */
  lemma InnerApplyIsFresh(s: Series, event: TradeSettlement)
    requires SeriesInvariant(s) && s.hasGroup && event.settlementId !in s.receipts
    ensures Verdict(s.group, event) !in {Duplicate, SettlementConflict, InvalidConfiguration}
  {
  }

  /** One call moves the counters exactly by what it achieved. */
  lemma StepCounts(s: Series, call: Call)
    requires SeriesInvariant(s)
    ensures var t := Next(s, call);
            && t.state.series.stateRevision as int
               == s.state.series.stateRevision as int + (if Accepted(s, call) then 1 else 0)
            && t.state.series.nextStep as int
               == s.state.series.nextStep as int + (if Finances(s, call) then 1 else 0)
    ensures s.state.series.nextStep <= MAX_SERIES_STEP ==> Next(s, call).state.series.nextStep <= MAX_SERIES_STEP
    ensures !Accepted(s, call) ==> Next(s, call) == s
  {
    if Accepted(s, call) && call.Deliver? {
      AfterKeepsInvariant(s.group, call.event);
    }
  }

  /** Over any run the revision counts the applied calls and the step counts the financed operations. */
  lemma {:induction false} RunCounts(s: Series, calls: seq<Call>)
    requires SeriesInvariant(s)
    ensures var t := AfterCalls(s, calls);
            && t.state.series.stateRevision as int
               == s.state.series.stateRevision as int + Count(s, calls, Accepted)
            && t.state.series.nextStep as int
               == s.state.series.nextStep as int + Count(s, calls, Finances)
    ensures s.state.series.nextStep <= MAX_SERIES_STEP ==>
              AfterCalls(s, calls).state.series.nextStep <= MAX_SERIES_STEP
    decreases calls
  {
    if calls != [] {
      StepCounts(s, calls[0]);
      NextKeepsInvariant(s, calls[0]);
      RunCounts(Next(s, calls[0]), calls[1..]);
    }
  }

  /** Receipts, used intents and used keys only grow. */
  ghost predicate Remembers(s: Series, t: Series) {
    && s.usedIntents <= t.usedIntents
    && s.usedKeys <= t.usedKeys
    && (forall id :: id in s.receipts ==> id in t.receipts && t.receipts[id] == s.receipts[id])
  }

  lemma {:induction false} RunRemembers(s: Series, calls: seq<Call>)
    ensures Remembers(s, AfterCalls(s, calls))
    decreases calls
  {
    if calls != [] {
      RunRemembers(Next(s, calls[0]), calls[1..]);
    }
  }

  /**
   * An applied event takes effect once in the whole life of the series: at any later time and under any
   * revision its id answers with a duplicate or a conflict, and nothing changes.
   */
  lemma AppliedEventOnce(s: Series, event: TradeSettlement, revision: uint64, later: seq<Call>, again: Call)
    requires Accepted(s, Deliver(event, revision))
    requires again.Deliver? && again.event.settlementId == event.settlementId
    ensures var t := AfterCalls(Next(s, Deliver(event, revision)), later);
            && Answer(t, again) == (if again.event == event then Duplicate else SettlementConflict)
            && Next(t, again) == t
  {
    RunRemembers(Next(s, Deliver(event, revision)), later);
  }

  /** An intent id, and an idempotency key, begins at most one operation. */
  lemma BegunIntentOnce(s: Series, first: Call, later: seq<Call>, again: Call)
    requires first.Begin? && Accepted(s, first)
    requires again.Begin?
    requires again.intent.intentId == first.intent.intentId
             || again.intent.idempotencyKey == first.intent.idempotencyKey
    ensures !Accepted(AfterCalls(Next(s, first), later), again)
  {
    RunRemembers(Next(s, first), later);
  }

  /** A completed series and a series blocked by an overflowing net never apply anything again. */
  lemma {:induction false} EndStatesAreFinal(s: Series, calls: seq<Call>)
    requires SeriesInvariant(s) && (s.state.status.BlockedError? || s.state.status.Completed?)
    ensures AfterCalls(s, calls) == s && Count(s, calls, Accepted) == 0
    decreases calls
  {
    if calls != [] {
      assert forall id :: id in s.group.members && s.state.status.BlockedError? ==>
                            id in FinishedMembers(s.group.members);
      assert !Accepted(s, calls[0]);
      EndStatesAreFinal(s, calls[1..]);
    }
  }

  /** In every reachable state the status tells exactly how far the operation in flight is. */
  lemma StatusMeaning(series: TradeSeries, empty: Group, calls: seq<Call>)
    requires GroupInvariant(empty)
    ensures var s := AfterCalls(Idle(series, empty), calls);
            && (s.hasGroup <==> Outstanding(s.state.status))
            && (s.hasGroup ==> StatusFits(s.state.status, s.group.members))
            && (s.state.status.BlockedError? <==>
                  s.hasGroup && FinishedMembers(s.group.members) == s.group.members.Keys)
            && (s.state.status.Unresolved? <==> s.hasGroup && AnyUncertain(s.group.members))
  {
    RunKeepsSeries(Idle(series, empty), calls);
    var s := AfterCalls(Idle(series, empty), calls);
    assert forall id :: id in s.group.members ==>
        (id in FinishedMembers(s.group.members) <==> Finished(s.group.members[id]));
  }

  /** The same deliveries, each under the revision that is current when it arrives. */
  ghost function Deliveries(events: seq<TradeSettlement>, revision: int): seq<Call>
    requires 0 <= revision && revision + |events| <= UINT64_MAX as int
    decreases events
  {
    if events == [] then [] else [Deliver(events[0], revision as uint64)] + Deliveries(events[1..], revision + 1)
  }

  /** The series whose operation now has this group, after `count` accepted deliveries. */
  ghost predicate LeftBy(s: Series, group: Group, count: int, t: Series)
    requires 0 <= s.state.series.stateRevision as int + count <= UINT64_MAX as int
  {
    var state := OutcomeTaken(s.state, group.outcome);
    && t.state == state.(series := state.series.(
                           stateRevision := (s.state.series.stateRevision as int + count) as uint64))
    && t.group == group
    && t.hasGroup == (Overflowed(group.outcome) || !group.outcome.final)
    && t.receipts == s.receipts + group.receipts
    && t.usedIntents == s.usedIntents && t.usedKeys == s.usedKeys
  }

  lemma StillOpen(g: Group, events: seq<TradeSettlement>)
    requires GroupInvariant(g) && events != [] && Batch(g, multiset(events))
    ensures !g.outcome.allMembersTerminal && !g.outcome.final
  {
    assert events[0] in multiset(events);
    assert events[0].tradeId !in FinishedMembers(g.members);
  }

  lemma DeliveriesUnfold(events: seq<TradeSettlement>, revision: int)
    requires 0 <= revision && revision + |events| <= UINT64_MAX as int && events != []
    ensures var calls := Deliveries(events, revision);
            && calls != [] && calls[0] == Deliver(events[0], revision as uint64)
            && calls[1..] == Deliveries(events[1..], revision + 1)
  {
  }

  /** An operation in flight and deliveries for distinct open members of it, new to the series. */
  ghost predicate Deliverables(s: Series, events: seq<TradeSettlement>) {
    && SeriesInvariant(s) && s.hasGroup && s.state.series.seriesId != 0
    && s.state.series.stateRevision as int + |events| <= UINT64_MAX as int
    && Batch(s.group, multiset(events))
    && (forall e :: e in events ==> e.settlementId !in s.receipts)
  }

  ghost function CurrentDelivery(s: Series, event: TradeSettlement): Call {
    Deliver(event, s.state.series.stateRevision)
  }

  /** The series accepts every one of the deliveries. */
  lemma {:induction false} DeliveriesAccepted(s: Series, events: seq<TradeSettlement>)
    requires Deliverables(s, events)
    ensures AllAccepted(s, Deliveries(events, s.state.series.stateRevision as int))
    decreases events
  {
    if events != [] {
      var rest, revision := events[1..], s.state.series.stateRevision as int;
      var t, tail := Next(s, CurrentDelivery(s, events[0])), Deliveries(events[1..], revision + 1);
      DeliveriesUnfold(events, revision);
      assert Accepted(s, CurrentDelivery(s, events[0])) && AllAccepted(t, tail) by {
        DeliveryStep(s, events);
        if rest != [] {
          DeliveriesAccepted(t, rest);
        }
      }
      AcceptedChain(s, Deliveries(events, revision));
    }
  }

  lemma AcceptedChain(s: Series, calls: seq<Call>)
    requires calls != [] && Accepted(s, calls[0]) && AllAccepted(Next(s, calls[0]), calls[1..])
    ensures AllAccepted(s, calls)
  {
  }

  /** The deliveries leave the series where the standalone aggregator's outcome puts it. */
  lemma {:induction false} DeliveriesLand(s: Series, events: seq<TradeSettlement>)
    requires Deliverables(s, events) && events != []
    ensures LeftBy(s, AfterAll(s.group, events), |events|,
                   AfterCalls(s, Deliveries(events, s.state.series.stateRevision as int)))
    decreases events
  {
    hide SeriesInvariant, LeftBy, Batch, After, OutcomeOf, Verdict, Extends, Next;
    var rest, revision := events[1..], s.state.series.stateRevision as int;
    var t := Next(s, CurrentDelivery(s, events[0]));
    DeliveriesUnfold(events, revision);
    DeliveryStep(s, events);
    var u := AfterCalls(t, Deliveries(rest, revision + 1));
    assert AfterCalls(s, Deliveries(events, revision)) == u;
    if rest == [] {
      assert Deliveries(rest, revision + 1) == [];
    } else {
      DeliveriesLand(t, rest);
      RunExtends(t.group, rest);
      LeftByChain(s, t, AfterAll(t.group, rest), |rest|, u);
    }
  }

  lemma DeliveryStep(s: Series, events: seq<TradeSettlement>)
    requires Deliverables(s, events) && events != []
    ensures var call := CurrentDelivery(s, events[0]);
            var t := Next(s, call);
            && Accepted(s, call)
            && t.group == After(s.group, events[0])
            && LeftBy(s, t.group, 1, t)
            && (events[1..] != [] ==>
                  Deliverables(t, events[1..]) && !t.group.outcome.final && !Overflowed(t.group.outcome))
  {
    BatchTail(s.group, events);
    FirstDelivery(s, events[0]);
    NextKeepsInvariant(s, CurrentDelivery(s, events[0]));
    if events[1..] != [] {
      StillOpen(Next(s, CurrentDelivery(s, events[0])).group, events[1..]);
    }
  }

  lemma FirstDelivery(s: Series, event: TradeSettlement)
    requires SeriesInvariant(s) && s.hasGroup && s.state.series.seriesId != 0
    requires s.state.series.stateRevision < UINT64_MAX
    requires event.settlementId !in s.receipts && Verdict(s.group, event) == Applied
    ensures Accepted(s, Deliver(event, s.state.series.stateRevision))
    ensures LeftBy(s, After(s.group, event), 1, Next(s, Deliver(event, s.state.series.stateRevision)))
    ensures Next(s, Deliver(event, s.state.series.stateRevision)).receipts
            == s.receipts[event.settlementId := event]
  {
    DeliveryIs(s, event);
    DeliveredIsLeft(s, event);
    hide Next, Answer, Verdict, LeftBy, SeriesInvariant, After;
  }

  lemma DeliveredIsLeft(s: Series, event: TradeSettlement)
    requires s.hasGroup && s.state.series.stateRevision < UINT64_MAX && Verdict(s.group, event) == Applied
    requires forall id :: id in s.group.receipts ==> id in s.receipts && s.receipts[id] == s.group.receipts[id]
    ensures LeftBy(s, After(s.group, event), 1, Delivered(s, event))
  {
    hide OutcomeOf, Verdict;
    assert s.receipts + After(s.group, event).receipts == s.receipts[event.settlementId := event];
  }

  lemma DeliveryIs(s: Series, event: TradeSettlement)
    requires SeriesInvariant(s) && s.hasGroup && s.state.series.seriesId != 0
    requires s.state.series.stateRevision < UINT64_MAX
    requires event.settlementId !in s.receipts && Verdict(s.group, event) == Applied
    ensures Accepted(s, Deliver(event, s.state.series.stateRevision))
    ensures Next(s, Deliver(event, s.state.series.stateRevision)) == Delivered(s, event)
  {
    hide GroupInvariant, Delivered, Verdict;
  }

  lemma LeftByChain(s: Series, t: Series, group: Group, count: nat, u: Series)
    requires s.state.series.stateRevision as int + 1 + count <= UINT64_MAX as int
    requires LeftBy(s, t.group, 1, t) && !t.group.outcome.final && !Overflowed(t.group.outcome)
    requires LeftBy(t, group, count, u)
    requires Extends(t.group, group)
    ensures LeftBy(s, group, count + 1, u)
  {
  }

  lemma SameDeliverables(s: Series, events: seq<TradeSettlement>, reordered: seq<TradeSettlement>)
    requires Deliverables(s, events) && multiset(events) == multiset(reordered)
    requires |events| == |reordered| && forall e :: e in reordered ==> e in events
    ensures Deliverables(s, reordered)
  {
    hide SeriesInvariant, Batch;
  }

  lemma BatchOfDeliverables(s: Series, events: seq<TradeSettlement>)
    requires Deliverables(s, events)
    ensures GroupInvariant(s.group) && Batch(s.group, multiset(events))
  {
  }

  /** Every arrival order of one operation's deliveries leaves exactly the same series. */
  lemma SettlementOrderIsIrrelevant(s: Series, events: seq<TradeSettlement>, reordered: seq<TradeSettlement>)
    requires Deliverables(s, events) && events != []
    requires multiset(events) == multiset(reordered)
    ensures |events| == |reordered|
    ensures var calls := Deliveries(events, s.state.series.stateRevision as int);
            var recalls := Deliveries(reordered, s.state.series.stateRevision as int);
            && AllAccepted(s, calls) && AllAccepted(s, recalls)
            && AfterCalls(s, calls) == AfterCalls(s, recalls)
  {
    assert |multiset(events)| == |events| && |multiset(reordered)| == |reordered|;
    assert forall e :: e in reordered ==> e in multiset(reordered);
    assert forall e :: e in multiset(events) ==> e in events;
    hide AllAccepted, Deliverables, AfterCalls, Batch, GroupInvariant, AllApplied, AfterAll;
    SameDeliverables(s, events, reordered);
    BatchOfDeliverables(s, events);
    DeliveriesAccepted(s, events);
    DeliveriesAccepted(s, reordered);
    DeliveriesLand(s, events);
    DeliveriesLand(s, reordered);
    OrderIndependence(s.group, events, reordered);
  }

  lemma FullRosterOutcome(s: Series, events: seq<TradeSettlement>)
    requires Deliverables(s, events) && |events| == |s.group.members|
    requires forall e :: e in events ==> e.Terminal()
    ensures events != [] && AfterAll(s.group, events).outcome == ClosedOutcome(events, s.group.zero)
    ensures s.state.series.nextStep < MAX_SERIES_STEP
    ensures 0 <= s.state.series.stateRevision as int + |events| <= UINT64_MAX as int
  {
    FullBatchCloses(s.group, events);
  }

  /**
   * One terminal event per member, in any order, closes the operation: the net decides the step, a net
   * outside the signed 64-bit range blocks the series.
   */
  lemma FullRosterSettlesSeries(s: Series, events: seq<TradeSettlement>)
    requires Deliverables(s, events) && |events| == |s.group.members|
    requires forall e :: e in events ==> e.Terminal()
    ensures var t := AfterCalls(s, Deliveries(events, s.state.series.stateRevision as int));
            var earned := exists e :: e in events && e.netProfit.Some?;
            var blocked := earned && !FitsInt64(TotalProfit(events));
            && t.state.outcome == ClosedOutcome(events, s.group.zero)
            && t.state.status == (if blocked then BlockedError else Active)
            && t.hasGroup == blocked
            && t.state.series.nextStep as int
               == s.state.series.nextStep as int + (if earned && !blocked then 1 else 0)
  {
    hide Deliverables;
    FullRosterOutcome(s, events);
    DeliveriesLand(s, events);
  }
}
