/** Revision-checked transitions of one trade series with at most one operation in flight. */
module Progression {
  import opened Common
  import opened Identity
  import opened Settlement
  import opened Aggregator

  const MAX_SERIES_STEP: uint32 := 0x7fff_ffff

  datatype SeriesStatus = Active | WaitingOutcome | Unresolved | Completed | BlockedError

  datatype TradeSeries = TradeSeries(
    seriesId: uint64, originSignalId: uint64, nextStep: uint32, stateRevision: uint64)

  datatype SeriesSnapshot = SeriesSnapshot(
    series: TradeSeries,
    status: SeriesStatus,
    currentIntentId: uint64,
    currentGroupId: uint64,
    currentStep: uint32,
    outcome: GroupOutcome)

  datatype Series = Series(
    state: SeriesSnapshot,
    group: Group,
    hasGroup: bool,
    receipts: map<uint64, TradeSettlement>,
    usedIntents: set<uint64>,
    usedKeys: set<string>)

  datatype Call =
    | Begin(intent: TradeIntent, tradeIds: seq<uint64>, currency: CurrencyType, precision: uint8, revision: uint64)
    | Deliver(event: TradeSettlement, revision: uint64)
    | Complete(revision: uint64)

  predicate Outstanding(status: SeriesStatus) {
    status.WaitingOutcome? || status.Unresolved? || status.BlockedError?
  }

  function RevisionVerdict(series: TradeSeries, expected: uint64): ProgressionResult {
    if series.seriesId == 0 then InvalidIdentity
    else if series.stateRevision != expected then RevisionConflict
    else if expected == UINT64_MAX then RevisionOverflow
    else if series.nextStep > MAX_SERIES_STEP then StepLimitReached
    else Applied
  }

  /** Everything `begin` checks about the intent before it builds the roster. */
  function IntentVerdict(
    s: SeriesSnapshot, usedIntents: set<uint64>, usedKeys: set<string>, intent: TradeIntent): ProgressionResult
  {
    if s.status != Active then InvalidState
    else if s.series.nextStep == MAX_SERIES_STEP then StepLimitReached
    else if !intent.Valid() || intent.seriesId != s.series.seriesId
            || intent.originSignalId != s.series.originSignalId
            || intent.seriesStep as int != s.series.nextStep as int then InvalidIdentity
    else if !intent.status.Proposed? && !intent.status.Admitted? then InvalidState
    else if intent.cardinality.Multiple? then UnsupportedCardinality
    else if intent.intentId in usedIntents then IntentAlreadyUsed
    else if intent.idempotencyKey in usedKeys then IdempotencyKeyAlreadyUsed
    else Applied
  }

  ghost function Answer(s: Series, call: Call): ProgressionResult {
    match call
    case Begin(intent, tradeIds, currency, precision, revision) =>
      var revised := RevisionVerdict(s.state.series, revision);
      if revised != Applied then revised
      else
        var verdict := IntentVerdict(s.state, s.usedIntents, s.usedKeys, intent);
        if verdict != Applied then verdict
        else if !RosterAccepted(
                  intent.intentId, intent.NormalizedGroup(), tradeIds, MoneyAmount(0, precision, currency))
        then InvalidConfiguration
        else Applied
    case Deliver(event, revision) =>
      if event.settlementId in s.receipts then
        if s.receipts[event.settlementId] == event then Duplicate else SettlementConflict
      else
        var revised := RevisionVerdict(s.state.series, revision);
        if revised != Applied then revised
        else if !s.hasGroup || !Outstanding(s.state.status) then InvalidState
        else Verdict(s.group, event)
    case Complete(revision) =>
      var revised := RevisionVerdict(s.state.series, revision);
      if revised != Applied then revised
      else if s.state.status != Active then InvalidState
      else Applied
  }

  function Revised(series: TradeSeries): TradeSeries {
    series.(stateRevision := if series.stateRevision == UINT64_MAX then 0 else series.stateRevision + 1)
  }

  function Stepped(series: TradeSeries): TradeSeries {
    series.(nextStep := if series.nextStep == 0xffff_ffff then 0 else series.nextStep + 1)
  }

  ghost function Begun(
    s: Series, intent: TradeIntent, tradeIds: seq<uint64>, currency: CurrencyType, precision: uint8): Series
  {
    var identity := intent.NormalizedGroup();
    s.(state := SeriesSnapshot(Revised(s.state.series), WaitingOutcome, intent.intentId, identity.groupId,
                               s.state.series.nextStep, NO_OUTCOME),
       group := FreshGroup(intent.intentId, identity, tradeIds, MoneyAmount(0, precision, currency)),
       hasGroup := true,
       usedIntents := s.usedIntents + {intent.intentId},
       usedKeys := s.usedKeys + {intent.idempotencyKey})
  }

  predicate Overflowed(outcome: GroupOutcome) {
    outcome.allMembersTerminal && outcome.status.NumericOverflow?
  }

  /** Where a new group outcome leaves the series. */
  function OutcomeTaken(state: SeriesSnapshot, outcome: GroupOutcome): SeriesSnapshot {
    if Overflowed(outcome) then state.(outcome := outcome, status := BlockedError)
    else if outcome.final then
      state.(outcome := outcome,
             series := if outcome.netProfit.Some? then Stepped(state.series) else state.series,
             status := Active, currentIntentId := 0, currentGroupId := 0)
    else state.(outcome := outcome, status := if outcome.unresolved then Unresolved else WaitingOutcome)
  }

  ghost function Delivered(s: Series, event: TradeSettlement): Series {
    var group := After(s.group, event);
    var state := OutcomeTaken(s.state, group.outcome);
    s.(state := state.(series := Revised(state.series)),
       group := group,
       hasGroup := Overflowed(group.outcome) || !group.outcome.final,
       receipts := s.receipts[event.settlementId := event])
  }

  /** The series after a call: only an applied call changes anything. */
  ghost function Next(s: Series, call: Call): Series {
    if Answer(s, call) != Applied then s
    else
      match call
      case Begin(intent, tradeIds, currency, precision, _) => Begun(s, intent, tradeIds, currency, precision)
      case Deliver(event, _) => Delivered(s, event)
      case Complete(_) => s.(state := s.state.(series := Revised(s.state.series), status := Completed))
  }

  ghost predicate HasOpenSlot(members: Members) {
    exists id :: id in members && members[id].None?
  }

  /** What the status of a series with an operation in flight says about its members. */
  ghost predicate StatusFits(status: SeriesStatus, members: Members) {
    match status
    case WaitingOutcome => !AnyUncertain(members) && HasOpenSlot(members)
    case Unresolved => AnyUncertain(members)
    case BlockedError => FinishedMembers(members) == members.Keys && !FitsInt64(NetProfit(members))
    case _ => false
  }

  /** What holds of every series between calls. */
  ghost predicate SeriesInvariant(s: Series) {
    && GroupInvariant(s.group)
    && (s.hasGroup <==> Outstanding(s.state.status))
    && (s.hasGroup ==> InFlight(s))
    && (!s.hasGroup ==> s.state.currentIntentId == 0 && s.state.currentGroupId == 0)
    && (forall id :: id in s.receipts ==> s.receipts[id].settlementId == id)
  }

  ghost predicate InFlight(s: Series) {
    && s.group.valid
    && s.state.outcome == s.group.outcome
    && s.state.currentIntentId == s.group.intentId
    && s.state.currentGroupId == s.group.identity.groupId
    && s.state.currentStep == s.state.series.nextStep < MAX_SERIES_STEP
    && s.state.currentIntentId in s.usedIntents
    && StatusFits(s.state.status, s.group.members)
    && (forall id :: id in s.group.receipts ==> id in s.receipts && s.receipts[id] == s.group.receipts[id])
  }

  ghost function Idle(series: TradeSeries, empty: Group): Series {
    Series(SeriesSnapshot(series, Active, 0, 0, 0, NO_OUTCOME), empty, false, map[], {}, {})
  }

  class SeriesProgression {
    var state: SeriesSnapshot
    const group: ExecutionGroupAggregator
    var hasGroup: bool
    var receipts: map<uint64, TradeSettlement>
    var usedIntents: set<uint64>
    var usedKeys: set<string>

    ghost function State(): Series
      reads this, group
    {
      Series(state, group.State(), hasGroup, receipts, usedIntents, usedKeys)
    }

    ghost predicate Valid()
      reads this, group
    {
      SeriesInvariant(State())
    }

    constructor (series: TradeSeries)
      ensures fresh(group) && Valid()
      ensures State() == Idle(series, group.State())
    {
      state := SeriesSnapshot(series, Active, 0, 0, 0, NO_OUTCOME);
      hasGroup, receipts, usedIntents, usedKeys := false, map[], {}, {};
      group := new ExecutionGroupAggregator.Empty();
    }

    constructor Copy(other: SeriesProgression)
      ensures fresh(group) && State() == other.State()
    {
      state, hasGroup := other.state, other.hasGroup;
      receipts, usedIntents, usedKeys := other.receipts, other.usedIntents, other.usedKeys;
      group := new ExecutionGroupAggregator.Copy(other.group);
    }

    /** Starts one operation with an immutable roster, or changes nothing. */
    method Begin(
      intent: TradeIntent, tradeIds: seq<uint64>, currency: CurrencyType, precision: uint8, expectedRevision: uint64)
      returns (result: ProgressionResult)
      requires Valid()
      modifies this, group
      ensures Valid()
      ensures result == Answer(old(State()), Call.Begin(intent, tradeIds, currency, precision, expectedRevision))
      ensures State() == Next(old(State()), Call.Begin(intent, tradeIds, currency, precision, expectedRevision))
    {
      NextKeepsInvariant(State(), Call.Begin(intent, tradeIds, currency, precision, expectedRevision));
      result := CheckRevision(expectedRevision);
      if result != Applied {
        return;
      }
      result := CheckIntent(intent);
      if result != Applied {
        return;
      }
      var identity := intent.executionGroup;
      if intent.cardinality.ZeroOrOne? {
        identity := identity.(expectedMembers := 1);
      }
      var aggregator := new ExecutionGroupAggregator(intent.intentId, identity, tradeIds, currency, precision);
      if !aggregator.valid {
        return InvalidConfiguration;
      }
      var candidate := new SeriesProgression.Copy(this);
      candidate.Open(intent, identity, aggregator);
      Swap(candidate);
    }

    method CheckIntent(intent: TradeIntent) returns (result: ProgressionResult)
      ensures result == IntentVerdict(state, usedIntents, usedKeys, intent)
    {
      if state.status != Active {
        return InvalidState;
      }
      if state.series.nextStep == MAX_SERIES_STEP {
        return StepLimitReached;
      }
      if !intent.Valid() || intent.seriesId != state.series.seriesId
         || intent.originSignalId != state.series.originSignalId
         || intent.seriesStep < 0
         || intent.seriesStep as uint32 != state.series.nextStep {
        return InvalidIdentity;
      }
      if !intent.status.Proposed? && !intent.status.Admitted? {
        return InvalidState;
      }
      if intent.cardinality.Multiple? {
        return UnsupportedCardinality;
      }
      if intent.intentId in usedIntents {
        return IntentAlreadyUsed;
      }
      if intent.idempotencyKey in usedKeys {
        return IdempotencyKeyAlreadyUsed;
      }
      return Applied;
    }

    /** Binds a candidate to its new operation; the aggregator's content moves into the series. */
    method Open(intent: TradeIntent, identity: ExecutionGroupIdentity, aggregator: ExecutionGroupAggregator)
      requires state.series.stateRevision < UINT64_MAX && aggregator != group
      modifies this, group, aggregator
      ensures State() ==
              var s := old(State());
              s.(state := SeriesSnapshot(Revised(s.state.series), WaitingOutcome, intent.intentId, identity.groupId,
                                         s.state.series.nextStep, NO_OUTCOME),
                 group := old(aggregator.State()),
                 hasGroup := true,
                 usedIntents := s.usedIntents + {intent.intentId},
                 usedKeys := s.usedKeys + {intent.idempotencyKey})
    {
      group.Swap(aggregator);
      hasGroup := true;
      usedIntents := usedIntents + {intent.intentId};
      usedKeys := usedKeys + {intent.idempotencyKey};
      state := state.(status := WaitingOutcome, currentIntentId := intent.intentId,
                      currentGroupId := identity.groupId, currentStep := state.series.nextStep,
                      outcome := NO_OUTCOME);
      state := state.(series := state.series.(stateRevision := state.series.stateRevision + 1));
    }

    /** Applies an event once; exact replays are recognised before the revision is looked at. */
    method Apply(event: TradeSettlement, expectedRevision: uint64) returns (result: ProgressionResult)
      requires Valid()
      modifies this, group
      ensures Valid()
      ensures result == Answer(old(State()), Deliver(event, expectedRevision))
      ensures State() == Next(old(State()), Deliver(event, expectedRevision))
    {
      NextKeepsInvariant(State(), Deliver(event, expectedRevision));
      if event.settlementId in receipts {
        return if receipts[event.settlementId] == event then Duplicate else SettlementConflict;
      }
      result := CheckRevision(expectedRevision);
      if result != Applied {
        return;
      }
      if !hasGroup || (state.status != WaitingOutcome && state.status != Unresolved && state.status != BlockedError) {
        return InvalidState;
      }
      var candidate := new SeriesProgression.Copy(this);
      result := candidate.Record(event);
      if result == Applied {
        Swap(candidate);
      }
    }

    /** Delivers the event to a candidate's group and moves the candidate to where the outcome leaves it. */
    method Record(event: TradeSettlement) returns (result: ProgressionResult)
      requires group.Valid()
      requires state.series.stateRevision < UINT64_MAX && state.series.nextStep <= MAX_SERIES_STEP
      requires hasGroup
      modifies this, group
      ensures result == Verdict(old(group.State()), event)
      ensures result == Applied ==> State() == Delivered(old(State()), event)
    {
      result := group.Apply(event);
      if result != Applied {
        return;
      }
      TakeOutcome(group.outcome);
      receipts := receipts[event.settlementId := event];
      state := state.(series := state.series.(stateRevision := state.series.stateRevision + 1));
    }

    /** Moves the series to where the group's new outcome leaves it. */
    method TakeOutcome(outcome: GroupOutcome)
      requires state.series.nextStep <= MAX_SERIES_STEP
      modifies `state, `hasGroup
      ensures state == OutcomeTaken(old(state), outcome)
      ensures hasGroup == (old(hasGroup) && (Overflowed(outcome) || !outcome.final))
    {
      state := state.(outcome := outcome);
      if outcome.allMembersTerminal && outcome.status.NumericOverflow? {
        state := state.(status := BlockedError);
      } else if outcome.final {
        if outcome.netProfit.Some? {
          state := state.(series := state.series.(nextStep := state.series.nextStep + 1));
        }
        state := state.(status := Active, currentIntentId := 0, currentGroupId := 0);
        hasGroup := false;
      } else {
        state := state.(status := if outcome.unresolved then Unresolved else WaitingOutcome);
      }
    }

    /** Closes an idle series; never cancels an outstanding operation. */
    method Complete(expectedRevision: uint64) returns (result: ProgressionResult)
      requires Valid()
      modifies this
      ensures Valid()
      ensures result == Answer(old(State()), Call.Complete(expectedRevision))
      ensures State() == Next(old(State()), Call.Complete(expectedRevision))
    {
      NextKeepsInvariant(State(), Call.Complete(expectedRevision));
      result := CheckRevision(expectedRevision);
      if result != Applied {
        return;
      }
      if state.status != Active {
        return InvalidState;
      }
      state := state.(status := Completed,
                      series := state.series.(stateRevision := state.series.stateRevision + 1));
    }

    method CheckRevision(expected: uint64) returns (result: ProgressionResult)
      ensures result == RevisionVerdict(state.series, expected)
    {
      if state.series.seriesId == 0 {
        return InvalidIdentity;
      }
      if state.series.stateRevision != expected {
        return RevisionConflict;
      }
      if expected == UINT64_MAX {
        return RevisionOverflow;
      }
      if state.series.nextStep > MAX_SERIES_STEP {
        return StepLimitReached;
      }
      return Applied;
    }

    method Swap(other: SeriesProgression)
      requires this != other && group != other.group
      modifies this, group, other, other.group
      ensures State() == old(other.State()) && other.State() == old(State())
    {
      state, other.state := other.state, state;
      group.Swap(other.group);
      hasGroup, other.hasGroup := other.hasGroup, hasGroup;
      receipts, other.receipts := other.receipts, receipts;
      usedIntents, other.usedIntents := other.usedIntents, usedIntents;
      usedKeys, other.usedKeys := other.usedKeys, usedKeys;
    }
  }

  lemma NextKeepsInvariant(s: Series, call: Call)
    requires SeriesInvariant(s)
    ensures SeriesInvariant(Next(s, call))
  {
    if Answer(s, call) == Applied {
      match call
      case Begin(intent, tradeIds, currency, precision, _) =>
        BegunKeepsInvariant(s, intent, tradeIds, currency, precision);
      case Deliver(event, _) =>
        DeliveredKeepsInvariant(s, event);
      case Complete(_) =>
    }
  }

  lemma BegunKeepsInvariant(
    s: Series, intent: TradeIntent, tradeIds: seq<uint64>, currency: CurrencyType, precision: uint8)
    requires SeriesInvariant(s) && s.state.series.nextStep < MAX_SERIES_STEP
    requires RosterAccepted(intent.intentId, intent.NormalizedGroup(), tradeIds, MoneyAmount(0, precision, currency))
    ensures SeriesInvariant(Begun(s, intent, tradeIds, currency, precision))
  {
    RosterSize(tradeIds);
    FreshInvariant(intent.intentId, intent.NormalizedGroup(), tradeIds, MoneyAmount(0, precision, currency));
    var t := Begun(s, intent, tradeIds, currency, precision);
    assert tradeIds[0] in t.group.members;
  }

  lemma DeliveredKeepsInvariant(s: Series, event: TradeSettlement)
    requires SeriesInvariant(s) && s.hasGroup && Verdict(s.group, event) == Applied
    ensures SeriesInvariant(Delivered(s, event))
  {
    AfterKeepsInvariant(s.group, event);
    var t := Delivered(s, event);
    MembersTell(t.group);
  }

  /** What the outcome says about the members it was computed from. */
  lemma MembersTell(g: Group)
    requires GroupInvariant(g) && g.valid
    ensures Overflowed(g.outcome) ==> StatusFits(BlockedError, g.members) && !g.outcome.final
    ensures !g.outcome.final && !Overflowed(g.outcome) ==>
              StatusFits(if g.outcome.unresolved then Unresolved else WaitingOutcome, g.members)
  {
    if !g.outcome.final && !Overflowed(g.outcome) && !AnyUncertain(g.members) {
      assert FinishedMembers(g.members) != g.members.Keys;
      var id :| id in g.members && id !in FinishedMembers(g.members);
      assert g.members[id].None?;
    }
  }
}
