/** Why a series accepts or refuses each call, and what an accepted one leaves behind. */
module SeriesLaws {
  import opened Common
  import opened Identity
  import opened Settlement
  import opened Aggregator
  import opened GroupRuns
  import opened GroupLaws
  import opened Progression
  import opened SeriesRuns

  /** A new series is active at its own revision and step, has nothing in flight and has seen nothing. */
  lemma IdleIs(series: TradeSeries, empty: Group)
    ensures
      var s := Idle(series, empty);
      && s.state.series == series && s.state.status.Active? && !s.hasGroup && s.group == empty
      && s.state.currentIntentId == 0 && s.state.currentGroupId == 0
      && |s.receipts| == 0 && |s.usedIntents| == 0 && |s.usedKeys| == 0
  {
  }

  /** The revision gate: the series has an id, the revision is current and both counters are below their ceilings. */
  ghost predicate PassesRevision(s: Series, revision: uint64) {
    && s.state.series.seriesId != 0
    && s.state.series.stateRevision == revision
    && revision as int < 0xffff_ffff_ffff_ffff
    && s.state.series.nextStep as int <= 0x7fff_ffff
  }

  lemma RevisionsExactly(series: TradeSeries, revision: uint64)
    ensures
      var v := RevisionVerdict(series, revision);
      var identified := series.seriesId > 0;
      var current := identified && series.stateRevision == revision;
      var revisable := current && revision as int + 1 < TWO_64;
      && (v == InvalidIdentity <==> !identified)
      && (v == RevisionConflict <==> identified && !current)
      && (v == RevisionOverflow <==> current && !revisable)
      && (v == StepLimitReached <==> revisable && series.nextStep as int >= 0x8000_0000)
      && (v == Applied <==> revisable && series.nextStep as int < 0x8000_0000)
  {
  }

  /** An intent may begin exactly if it is the next step of this idle series and was never seen. */
  ghost predicate MayBegin(s: Series, intent: TradeIntent) {
    && s.state.status == Active
    && s.state.series.nextStep as int < 0x7fff_ffff
    && intent.Valid()
    && intent.seriesId == s.state.series.seriesId
    && intent.originSignalId == s.state.series.originSignalId
    && intent.seriesStep as int == s.state.series.nextStep as int
    && intent.status in {Proposed, Admitted}
    && intent.cardinality in {ZeroOrOne, ExactlyOne, SplitGroup}
    && intent.intentId !in s.usedIntents
    && intent.idempotencyKey !in s.usedKeys
  }

  lemma BeginExactly(
    s: Series, intent: TradeIntent, tradeIds: seq<uint64>, currency: CurrencyType, precision: uint8, revision: uint64)
    ensures
      var call := Call.Begin(intent, tradeIds, currency, precision, revision);
      && (Answer(s, call) == Applied <==>
            && PassesRevision(s, revision) && MayBegin(s, intent)
            && RosterAccepted(
                 intent.intentId, intent.NormalizedGroup(), tradeIds, MoneyAmount(0, precision, currency)))
      && (Answer(s, call) == InvalidConfiguration <==>
            && PassesRevision(s, revision) && MayBegin(s, intent)
            && !RosterAccepted(
                  intent.intentId, intent.NormalizedGroup(), tradeIds, MoneyAmount(0, precision, currency)))
      && (!PassesRevision(s, revision) ==> Answer(s, call) == RevisionVerdict(s.state.series, revision))
  {
    hide RosterAccepted;
  }

  /** Past the revision gate, the reason for refusing an intent is the first condition it fails. */
  lemma IntentRefusalsExactly(s: Series, intent: TradeIntent)
    ensures
      var v := IntentVerdict(s.state, s.usedIntents, s.usedKeys, intent);
      var series := s.state.series;
      var idle := s.state.status == Active;
      var room := idle && series.nextStep as int != 0x7fff_ffff;
      var fits := room && intent.Valid() && intent.seriesId == series.seriesId
                  && intent.originSignalId == series.originSignalId
                  && intent.seriesStep as int == series.nextStep as int;
      var open := fits && intent.status in {Proposed, Admitted};
      var single := open && !intent.cardinality.Multiple?;
      && (v == InvalidState <==> !idle || (fits && !open))
      && (v == StepLimitReached <==> idle && !room)
      && (v == InvalidIdentity <==> room && !fits)
      && (v == UnsupportedCardinality <==> open && !single)
      && (v == IntentAlreadyUsed <==> single && intent.intentId in s.usedIntents)
      && (v == IdempotencyKeyAlreadyUsed <==>
            single && intent.intentId !in s.usedIntents && intent.idempotencyKey in s.usedKeys)
      && (v == Applied <==>
            single && intent.intentId !in s.usedIntents && intent.idempotencyKey !in s.usedKeys)
  {
  }

  /** An accepted intent is published whole: the operation, its empty roster and both used sets. */
  lemma BegunIs(
    s: Series, intent: TradeIntent, tradeIds: seq<uint64>, currency: CurrencyType, precision: uint8, revision: uint64)
    requires Answer(s, Call.Begin(intent, tradeIds, currency, precision, revision)) == Applied
    ensures
      var t := Next(s, Call.Begin(intent, tradeIds, currency, precision, revision));
      && t.state.series.stateRevision as int == revision as int + 1
      && t.state.series == s.state.series.(stateRevision := t.state.series.stateRevision)
      && t.state.status.WaitingOutcome? && t.hasGroup
      && t.state.currentIntentId == intent.intentId
      && t.state.currentGroupId == intent.executionGroup.groupId
      && t.state.currentStep == s.state.series.nextStep
      && t.state.outcome.completedMembers == 0 && !t.state.outcome.final && t.state.outcome.netProfit.None?
      && t.usedIntents == s.usedIntents + {intent.intentId} && t.usedKeys == s.usedKeys + {intent.idempotencyKey}
      && t.receipts == s.receipts
      && t.group.intentId == intent.intentId && t.group.identity == intent.NormalizedGroup() && t.group.valid
      && t.group.zero == MoneyAmount(0, precision, currency) && t.group.receipts == map[]
      && t.group.members.Keys == (set id | id in tradeIds)
      && forall id :: id in t.group.members ==> t.group.members[id].None?
  {
    RosterOpens(intent.intentId, intent.NormalizedGroup(), tradeIds, MoneyAmount(0, precision, currency));
    hide GroupInvariant, RosterAccepted, IntentVerdict, RevisionVerdict;
  }

  /** A delivery is judged by its id first, then by the revision and the status, then by the group. */
  lemma DeliverExactly(s: Series, event: TradeSettlement, revision: uint64)
    requires SeriesInvariant(s)
    ensures
      var a := Answer(s, Deliver(event, revision));
      var unseen := event.settlementId !in s.receipts;
      var gated := unseen && PassesRevision(s, revision);
      var outstanding := gated && s.state.status in {WaitingOutcome, Unresolved, BlockedError};
      && (a == Duplicate <==> !unseen && s.receipts[event.settlementId] == event)
      && (a == SettlementConflict <==> !unseen && s.receipts[event.settlementId] != event)
      && (unseen && !gated ==> a == RevisionVerdict(s.state.series, revision))
      && (gated && !outstanding ==> a == InvalidState)
      && (outstanding ==> a == Verdict(s.group, event))
      && (a == Applied <==> outstanding && Verdict(s.group, event) == Applied)
  {
    if s.hasGroup && event.settlementId !in s.receipts {
      InnerApplyIsFresh(s, event);
    }
    hide GroupInvariant, Verdict, InFlight;
  }

  /** Where a delivery leaves the series, from the members of its group alone. */
  lemma DeliveredIs(s: Series, event: TradeSettlement, revision: uint64)
    requires SeriesInvariant(s) && Answer(s, Deliver(event, revision)) == Applied
    ensures
      var t := Next(s, Deliver(event, revision));
      var members := t.group.members;
      var closed := EverybodyClosed(members);
      var earned := SomebodyEarned(members);
      var overflow := earned && !(INT64_MIN <= NetProfit(members) <= INT64_MAX);
      && t.group == After(s.group, event) && t.receipts == s.receipts[event.settlementId := event]
      && t.usedIntents == s.usedIntents && t.usedKeys == s.usedKeys
      && t.state.outcome == t.group.outcome && t.state.currentStep == s.state.currentStep
      && t.state.series.seriesId == s.state.series.seriesId
      && t.state.series.originSignalId == s.state.series.originSignalId
      && t.state.series.stateRevision as int == revision as int + 1
      && t.state.series.nextStep as int ==
         s.state.series.nextStep as int + (if closed && earned && !overflow then 1 else 0)
      && (t.state.status.BlockedError? <==> closed && overflow)
      && (t.state.status.Active? <==> closed && !overflow)
      && (t.state.status.Unresolved? <==> SomebodyUnknown(members))
      && (t.state.status.WaitingOutcome? <==> !closed && !SomebodyUnknown(members))
      && (t.hasGroup <==> !t.state.status.Active?)
      && (t.state.status.Active? ==> t.state.currentIntentId == 0 && t.state.currentGroupId == 0)
      && (!t.state.status.Active? ==> t.state.currentIntentId == s.state.currentIntentId
                                      && t.state.currentGroupId == s.state.currentGroupId)
  {
    var h := After(s.group, event);
    DeliveredGroup(s, event, revision);
    PublishedFlags(h);
    PublishedMoney(h);
    assert SomebodyUnknown(h.members) ==> !EverybodyClosed(h.members);
    hide GroupInvariant, After, SomebodyUnknown, SomebodyEarned, EverybodyClosed, NetProfit, FinishedMembers, InFlight;
  }

  lemma DeliveredGroup(s: Series, event: TradeSettlement, revision: uint64)
    requires SeriesInvariant(s) && Answer(s, Deliver(event, revision)) == Applied
    ensures GroupInvariant(After(s.group, event)) && After(s.group, event).valid
    ensures Next(s, Deliver(event, revision)) == Delivered(s, event)
    ensures s.state.series.stateRevision == revision && PassesRevision(s, revision)
    ensures s.state.series.nextStep as int < 0x7fff_ffff
  {
    AfterKeepsInvariant(s.group, event);
  }

  /** A series can be completed exactly while idle, under its current revision. */
  lemma CompleteExactly(s: Series, revision: uint64)
    ensures
      var a := Answer(s, Call.Complete(revision));
      && (a == Applied <==> PassesRevision(s, revision) && s.state.status == Active)
      && (a == InvalidState <==> PassesRevision(s, revision) && s.state.status != Active)
      && (!PassesRevision(s, revision) ==> a == RevisionVerdict(s.state.series, revision))
  {
  }

  /** An applied completion completes: the status says so, and no call is ever applied again. */
  lemma CompletesForGood(s: Series, revision: uint64, later: seq<Call>)
    requires SeriesInvariant(s) && Answer(s, Call.Complete(revision)) == Applied
    ensures
      var t := Next(s, Call.Complete(revision));
      && t.state.status.Completed? && t.state.series.stateRevision as int == revision as int + 1
      && t == s.(state := s.state.(status := t.state.status, series := t.state.series))
      && t.state.series == s.state.series.(stateRevision := t.state.series.stateRevision)
      && AfterCalls(t, later) == t && Count(t, later, Accepted) == 0
  {
    NextKeepsInvariant(s, Call.Complete(revision));
    EndStatesAreFinal(Next(s, Call.Complete(revision)), later);
  }

  /** A refused call changes nothing. */
  lemma RefusedChangesNothing(s: Series, call: Call)
    requires Answer(s, call) != Applied
    ensures Next(s, call) == s
  {
  }
}
