/** Aggregation of a fixed roster of physical results with idempotent delivery. */
module Aggregator {
  import opened Common
  import opened Identity
  import opened Settlement
  import opened Sums
  import opened Accumulator

  type Members = map<uint64, Option<TradeSettlement>>

  predicate Finished(slot: Option<TradeSettlement>) {
    slot.Some? && slot.value.Terminal()
  }

  predicate Uncertain(slot: Option<TradeSettlement>) {
    slot.Some? && !slot.value.Terminal()
  }

  predicate Earned(slot: Option<TradeSettlement>) {
    Finished(slot) && slot.value.netProfit.Some?
  }

  predicate Refused(slot: Option<TradeSettlement>) {
    slot.Some? && slot.value.kind.Rejected?
  }

  function Profit(slot: Option<TradeSettlement>): int {
    if Earned(slot) then slot.value.netProfit.value.units as int else 0
  }

  ghost function FinishedMembers(members: Members): set<uint64> {
    set id | id in members && Finished(members[id])
  }

  ghost predicate AnyUncertain(members: Members) {
    exists id :: id in members && Uncertain(members[id])
  }

  ghost predicate AnyEarned(members: Members) {
    exists id :: id in members && Earned(members[id])
  }

  ghost predicate AnyRefused(members: Members) {
    exists id :: id in members && Refused(members[id])
  }

  ghost function Profits(members: Members): map<uint64, int> {
    map id | id in members :: Profit(members[id])
  }

  /** The exact, unbounded net of all recorded terminal members. */
  ghost function NetProfit(members: Members): int {
    Sum(Profits(members))
  }

  /** The 32-bit member counter. */
  ghost function Completed(members: Members): uint32 {
    (|FinishedMembers(members)| % 0x1_0000_0000) as uint32
  }

  /** What a roster with these recorded events amounts to, stated without loops or limbs. */
  ghost function OutcomeOf(members: Members, zero: MoneyAmount): GroupOutcome {
    var all := FinishedMembers(members) == members.Keys;
    var earned := AnyEarned(members);
    var net := NetProfit(members);
    if earned && !FitsInt64(net) then
      GroupOutcome(false, AnyUncertain(members), all, Completed(members), NumericOverflow, None, None)
    else
      GroupOutcome(
        all, AnyUncertain(members), all, Completed(members),
        if all then Ready else Pending,
        if all then Some(ClosingKind(earned, AnyRefused(members), net)) else None,
        if earned then Some(zero.(units := net as int64)) else None)
  }

  lemma FinishedWithin(members: Members)
    ensures FinishedMembers(members) <= members.Keys
    ensures |FinishedMembers(members)| <= |members|
    ensures FinishedMembers(members) == members.Keys <==> |FinishedMembers(members)| == |members|
  {
    var finished := FinishedMembers(members);
    var open := members.Keys - finished;
    assert members.Keys == finished + open;
    assert |members| == |members.Keys|;
  }

  /** Taking one slot off the unvisited part moves exactly its contribution. */
  lemma TakeSlot(rest: Members, id: uint64)
    requires id in rest
    ensures NetProfit(rest) == Profit(rest[id]) + NetProfit(rest - {id})
    ensures |FinishedMembers(rest)| == |FinishedMembers(rest - {id})| + if Finished(rest[id]) then 1 else 0
    ensures AnyUncertain(rest) <==> Uncertain(rest[id]) || AnyUncertain(rest - {id})
    ensures AnyEarned(rest) <==> Earned(rest[id]) || AnyEarned(rest - {id})
    ensures AnyRefused(rest) <==> Refused(rest[id]) || AnyRefused(rest - {id})
  {
    var less := rest - {id};
    SumTake(Profits(rest), id);
    assert Profits(rest) - {id} == Profits(less);
    assert FinishedMembers(less) == FinishedMembers(rest) - {id};
    assert forall other :: other in rest ==> other == id || (other in less && less[other] == rest[other]);
  }

  lemma NothingLeft()
    ensures FinishedMembers(map[]) == {} && NetProfit(map[]) == 0
    ensures !AnyUncertain(map[]) && !AnyEarned(map[]) && !AnyRefused(map[])
  {
    assert Profits(map[]) == map[];
  }

  /** The observable value of one aggregator. */
  datatype Group = Group(
    intentId: uint64,
    identity: ExecutionGroupIdentity,
    zero: MoneyAmount,
    valid: bool,
    outcome: GroupOutcome,
    members: Members,
    receipts: map<uint64, TradeSettlement>)

  /** When the constructor accepts a roster. */
  ghost predicate RosterAccepted(
    intentId: uint64, identity: ExecutionGroupIdentity, tradeIds: seq<uint64>, zero: MoneyAmount)
  {
    && intentId != 0
    && zero.ValidMetadata()
    && 0 < |tradeIds| == identity.expectedMembers as int
    && (|tradeIds| > 1 ==> identity.groupId != 0)
    && 0 !in tradeIds
    && Distinct(tradeIds)
  }

  ghost predicate Distinct<T>(ids: seq<T>) {
    forall i, j :: 0 <= i < j < |ids| ==> ids[i] != ids[j]
  }

  ghost function OpenSlots(tradeIds: seq<uint64>): Members {
    map id | id in tradeIds :: None
  }

  ghost function FreshGroup(
    intentId: uint64, identity: ExecutionGroupIdentity, tradeIds: seq<uint64>, zero: MoneyAmount): Group
  {
    Group(intentId, identity, zero, true, NO_OUTCOME, OpenSlots(tradeIds), map[])
  }

  /** An event that could be recorded in this group at all, whatever was recorded before. */
  predicate BelongsTo(event: TradeSettlement, intentId: uint64, identity: ExecutionGroupIdentity, zero: MoneyAmount) {
    && event.Valid()
    && event.intentId == intentId
    && event.groupId == identity.groupId
    && (event.netProfit.Some? ==> event.netProfit.value.SameCurrency(zero))
  }

  /** What holds of every aggregator between calls. */
  ghost predicate GroupInvariant(g: Group) {
    && (!g.valid ==> g.receipts == map[])
    && (g.valid ==>
          && g.intentId != 0 && g.zero.ValidMetadata() && g.zero.units == 0
          && 0 < |g.members| == g.identity.expectedMembers as int
          && (|g.members| > 1 ==> g.identity.groupId != 0)
          && g.outcome == OutcomeOf(g.members, g.zero))
    && (forall s :: s in g.receipts ==> g.receipts[s].settlementId == s && g.receipts[s].Valid())
    && (forall id :: id in g.members && g.members[id].Some? ==> g.valid && RecordedSlot(g, id, g.members[id].value))
  }

  /** A recorded event sits in its own slot, belongs to the group and is receipted. */
  ghost predicate RecordedSlot(g: Group, id: uint64, event: TradeSettlement) {
    && event.tradeId == id
    && BelongsTo(event, g.intentId, g.identity, g.zero)
    && event.settlementId in g.receipts && g.receipts[event.settlementId] == event
  }

  /** The verdict on an event. */
  function Verdict(g: Group, event: TradeSettlement): ProgressionResult {
    if event.settlementId in g.receipts then
      if g.receipts[event.settlementId] == event then Duplicate else SettlementConflict
    else if !g.valid then InvalidConfiguration
    else if !event.Valid() then InvalidOutcome
    else if event.intentId != g.intentId || event.groupId != g.identity.groupId then WrongOperation
    else if event.tradeId !in g.members then UnknownMember
    else if Finished(g.members[event.tradeId]) then MemberAlreadyTerminal
    else if event.netProfit.Some? && event.netProfit.value.currency != g.zero.currency then CurrencyMismatch
    else if event.netProfit.Some? && event.netProfit.value.precision != g.zero.precision then PrecisionMismatch
    else Applied
  }

  /** The group after an event: recorded when applied, otherwise untouched. */
  ghost function After(g: Group, event: TradeSettlement): Group {
    if Verdict(g, event) != Applied then g
    else
      var members := g.members[event.tradeId := Some(event)];
      g.(members := members,
         receipts := g.receipts[event.settlementId := event],
         outcome := OutcomeOf(members, g.zero))
  }

  lemma AfterKeepsInvariant(g: Group, event: TradeSettlement)
    requires GroupInvariant(g)
    ensures GroupInvariant(After(g, event))
  {
    var h := After(g, event);
    if Verdict(g, event) == Applied {
      assert h.members.Keys == g.members.Keys;
      assert |h.members| == |h.members.Keys| && |g.members| == |g.members.Keys|;
      forall id | id in h.members && h.members[id].Some?
        ensures RecordedSlot(h, id, h.members[id].value)
      {
        if id != event.tradeId {
          assert RecordedSlot(g, id, g.members[id].value);
        }
      }
    }
  }

  lemma FreshInvariant(intentId: uint64, identity: ExecutionGroupIdentity, tradeIds: seq<uint64>, zero: MoneyAmount)
    requires intentId != 0 && zero.ValidMetadata() && zero.units == 0
    requires 0 < |OpenSlots(tradeIds).Keys| == identity.expectedMembers as int
    requires |OpenSlots(tradeIds).Keys| > 1 ==> identity.groupId != 0
    ensures GroupInvariant(FreshGroup(intentId, identity, tradeIds, zero))
  {
    var g := FreshGroup(intentId, identity, tradeIds, zero);
    assert |g.members| == |g.members.Keys|;
    assert FinishedMembers(g.members) == {};
    NothingEarned(g.members);
  }

  lemma {:induction false} RosterSize(tradeIds: seq<uint64>)
    requires Distinct(tradeIds)
    ensures |OpenSlots(tradeIds).Keys| == |tradeIds|
  {
    if tradeIds != [] {
      var first, rest := tradeIds[0], tradeIds[1..];
      RosterSize(rest);
      assert first !in rest;
      assert forall id :: id in tradeIds <==> id == first || id in rest by {
        assert tradeIds == [first] + rest;
      }
      assert OpenSlots(tradeIds).Keys == OpenSlots(rest).Keys + {first};
    }
  }

  lemma {:induction false} NothingEarned(members: Members)
    requires forall id :: id in members ==> !Earned(members[id])
    ensures NetProfit(members) == 0
    decreases members.Keys
  {
    if members == map[] {
      assert Profits(members) == map[];
    } else {
      var id :| id in members;
      TakeSlot(members, id);
      assert (members - {id}).Keys < members.Keys;
      NothingEarned(members - {id});
    }
  }

  class ExecutionGroupAggregator {
    var intentId: uint64
    var identity: ExecutionGroupIdentity
    var zero: MoneyAmount
    var valid: bool
    var outcome: GroupOutcome
    var members: Members
    var receipts: map<uint64, TradeSettlement>

    ghost function State(): Group
      reads this
    {
      Group(intentId, identity, zero, valid, outcome, members, receipts)
    }

    ghost predicate Valid()
      reads this
    {
      GroupInvariant(State())
    }

    /** The empty, invalid aggregator of an idle owner. */
    constructor Empty()
      ensures Valid() && !valid
    {
      intentId, identity, valid := 0, ExecutionGroupIdentity(0, 0), false;
      zero, outcome := MoneyAmount(0, 2, UNKNOWN), NO_OUTCOME;
      members, receipts := map[], map[];
    }

    constructor Copy(other: ExecutionGroupAggregator)
      ensures State() == other.State()
    {
      intentId, identity, zero, valid := other.intentId, other.identity, other.zero, other.valid;
      outcome, members, receipts := other.outcome, other.members, other.receipts;
    }

    /** Fixes the roster; a rejected roster leaves the aggregator invalid. */
    constructor (
      intentId: uint64, identity: ExecutionGroupIdentity, tradeIds: seq<uint64>,
      currency: CurrencyType, precision: uint8)
      ensures Valid()
      ensures valid <==> RosterAccepted(intentId, identity, tradeIds, MoneyAmount(0, precision, currency))
      ensures valid ==>
                State() == FreshGroup(intentId, identity, tradeIds, MoneyAmount(0, precision, currency))
    {
      this.intentId, this.identity, this.zero := intentId, identity, MoneyAmount(0, precision, currency);
      valid, outcome, members, receipts := false, NO_OUTCOME, map[], map[];
      new;
      if intentId == 0 || !zero.ValidMetadata() || |tradeIds| == 0
         || |tradeIds| != identity.expectedMembers as int
         || (|tradeIds| > 1 && identity.groupId == 0) {
        return;
      }
      var enrolled := Enroll(tradeIds);
      if enrolled {
        FreshInvariant(intentId, identity, tradeIds, zero);
        valid := true;
      }
    }

    /** Opens one empty slot per trade id; stops at a zero or repeated id. */
    method Enroll(tradeIds: seq<uint64>) returns (enrolled: bool)
      requires members == map[]
      modifies `members
      ensures enrolled <==> 0 !in tradeIds && Distinct(tradeIds)
      ensures enrolled ==> members == OpenSlots(tradeIds) && |members.Keys| == |tradeIds|
      ensures forall id :: id in members ==> members[id].None?
    {
      for i := 0 to |tradeIds|
        invariant members == OpenSlots(tradeIds[..i]) && |members| == i
        invariant 0 !in tradeIds[..i] && Distinct(tradeIds[..i])
      {
        assert tradeIds[..i + 1] == tradeIds[..i] + [tradeIds[i]];
        if tradeIds[i] == 0 || tradeIds[i] in members {
          return false;
        }
        members := members[tradeIds[i] := None];
      }
      assert tradeIds[..|tradeIds|] == tradeIds;
      assert |members| == |members.Keys|;
      return true;
    }

    /** Records one event, or changes nothing. */
    method Apply(event: TradeSettlement) returns (result: ProgressionResult)
      requires Valid()
      modifies this
      ensures Valid()
      ensures result == Verdict(old(State()), event)
      ensures State() == After(old(State()), event)
    {
      if event.settlementId in receipts {
        return if receipts[event.settlementId] == event then Duplicate else SettlementConflict;
      }
      if !valid {
        return InvalidConfiguration;
      }
      if !event.Valid() {
        return InvalidOutcome;
      }
      if event.intentId != intentId || event.groupId != identity.groupId {
        return WrongOperation;
      }
      if event.tradeId !in members {
        return UnknownMember;
      }
      var member := members[event.tradeId];
      if member.Some? && member.value.Terminal() {
        return MemberAlreadyTerminal;
      }
      if event.netProfit.Some? {
        if event.netProfit.value.currency != zero.currency {
          return CurrencyMismatch;
        }
        if event.netProfit.value.precision != zero.precision {
          return PrecisionMismatch;
        }
      }
      AfterKeepsInvariant(State(), event);
      var candidate := new ExecutionGroupAggregator.Copy(this);
      candidate.Record(event);
      Swap(candidate);
      return Applied;
    }

    /** Stores an acceptable event, recomputes the outcome and files the receipt. */
    method Record(event: TradeSettlement)
      requires Valid() && Verdict(State(), event) == Applied
      modifies this
      ensures State() == After(old(State()), event)
    {
      ghost var slots := members.Keys;
      assert |members| == |slots|;
      members := members[event.tradeId := Some(event)];
      assert members.Keys == slots;
      assert |members| == |slots|;
      Aggregate();
      receipts := receipts[event.settlementId := event];
    }

    method Swap(other: ExecutionGroupAggregator)
      modifies this, other
      ensures State() == old(other.State()) && other.State() == old(State())
    {
      intentId, other.intentId := other.intentId, intentId;
      identity, other.identity := other.identity, identity;
      zero, other.zero := other.zero, zero;
      valid, other.valid := other.valid, valid;
      outcome, other.outcome := other.outcome, outcome;
      members, other.members := other.members, members;
      receipts, other.receipts := other.receipts, receipts;
    }

    /** Recomputes the outcome from the recorded members. */
    method Aggregate()
      requires zero.units == 0
      requires |members| == identity.expectedMembers as int
      modifies `outcome
      ensures outcome == OutcomeOf(members, zero)
    {
      var completed, unresolved, hasExecution, hasRejection, accumulator := Tally();
      FinishedWithin(members);
      var allTerminal := completed == identity.expectedMembers;
      var sum := zero;
      if hasExecution {
        var units := accumulator.ToUnits();
        if units.None? {
          outcome := GroupOutcome(false, unresolved, allTerminal, completed, NumericOverflow, None, None);
          return;
        }
        sum := sum.(units := units.value);
      }
      outcome := GroupOutcome(
        allTerminal, unresolved, allTerminal, completed,
        if allTerminal then Ready else Pending,
        if !allTerminal then None
        else if hasExecution then
          Some(if sum.units > 0 then Win else if sum.units < 0 then Loss else Draw)
        else Some(if hasRejection then OutcomeKind.Rejected else OutcomeKind.Cancelled),
        if hasExecution then Some(sum) else None);
    }

    /** One pass over the members, in any order. */
    method Tally()
      returns (completed: uint32, unresolved: bool, hasExecution: bool, hasRejection: bool,
               accumulator: NetAccumulator)
      requires |members| <= UINT32_MAX
      ensures fresh(accumulator) && accumulator.Valid()
      ensures completed as int == |FinishedMembers(members)|
      ensures unresolved <==> AnyUncertain(members)
      ensures hasExecution <==> AnyEarned(members)
      ensures hasRejection <==> AnyRefused(members)
      ensures accumulator.Net() == NetProfit(members)
    {
      FinishedWithin(members);
      NothingLeft();
      hide FinishedMembers, AnyUncertain, AnyEarned, AnyRefused, NetProfit, Profits;
      completed, unresolved, hasExecution, hasRejection := 0, false, false, false;
      accumulator := new NetAccumulator();
      var rest := members;
      while rest != map[]
        invariant |rest| <= |members|
        invariant completed as int + |FinishedMembers(rest)| == |FinishedMembers(members)|
        invariant unresolved || AnyUncertain(rest) <==> AnyUncertain(members)
        invariant hasExecution || AnyEarned(rest) <==> AnyEarned(members)
        invariant hasRejection || AnyRefused(rest) <==> AnyRefused(members)
        invariant accumulator.Valid() && accumulator.Within(|members| - |rest|)
        invariant accumulator.Net() + NetProfit(rest) == NetProfit(members)
        decreases |rest|
        modifies accumulator.positive, accumulator.negative
      {
        var id :| id in rest;
        var slot := rest[id];
        TakeSlot(rest, id);
        ghost var visited := |members| - |rest|;
        assert |rest - {id}| == |rest| - 1;
        rest := rest - {id};
        if slot.Some? {
          var event := slot.value;
          if !event.Terminal() {
            unresolved := true;
          } else {
            completed := completed + 1;
            hasRejection := hasRejection || event.kind.Rejected?;
            if event.netProfit.Some? {
              hasExecution := true;
              accumulator.Add(event.netProfit.value.units, visited);
            }
          }
        }
      }
    }
  }
}
