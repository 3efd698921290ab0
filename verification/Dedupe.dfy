/** The bridge's memory of recent transport keys, and how a dispatched command uses it. */
module Dedupe {
  import opened Common

  // Specification: the keys in the order they were accepted.

  predicate NoRepeats(order: seq<string>) {
    forall i, j :: 0 <= i < j < |order| ==> order[i] != order[j]
  }

  function Newest(order: seq<string>, size: nat): seq<string> {
    if |order| <= size then order else order[|order| - size..]
  }

  function Without(order: seq<string>, key: string): seq<string> {
    if order == [] then []
    else if order[0] == key then Without(order[1..], key)
    else [order[0]] + Without(order[1..], key)
  }

  predicate Accepts(order: seq<string>, key: string) {
    key !in order
  }

  function Remembered(order: seq<string>, key: string, size: nat): seq<string> {
    if key == "" || key in order then order else Newest(order + [key], size)
  }

  function Forgotten(order: seq<string>, key: string): seq<string> {
    if key == "" then order else Without(order, key)
  }

  ghost predicate CacheInvariant(order: seq<string>, size: nat) {
    NoRepeats(order) && |order| <= size && "" !in order
  }

  function Keys(order: seq<string>): set<string> {
    set k | k in order
  }

  // The cache.

  /** The two containers guarded by the runtime mutex: a queue and a set of the same keys. */
  class DedupeCache {
    var order: seq<string>
    var keys: set<string>

    ghost predicate Valid()
      reads this
    {
      NoRepeats(order) && keys == Keys(order) && "" !in order
    }

    constructor ()
      ensures Valid() && order == []
    {
      order, keys := [], {};
    }

    method Clear()
      modifies this
      ensures Valid() && order == []
    {
      order, keys := [], {};
    }

    /** False when the key is already there; the empty key is let through and not stored. */
    method RememberKey(key: string, cacheSize: nat) returns (accepted: bool)
      requires Valid()
      modifies this
      ensures Valid()
      ensures accepted <==> key == "" || Accepts(old(order), key)
      ensures order == Remembered(old(order), key, cacheSize)
    {
      if key == "" {
        return true;
      }
      if key in keys {
        return false;
      }
      keys := keys + {key};
      order := order + [key];
      while |order| > cacheSize
        invariant Valid()
        invariant Newest(order, cacheSize) == Newest(old(order) + [key], cacheSize)
      {
        KeysOfRest(order);
        NewestOfRest(order, cacheSize);
        keys := keys - {order[0]};
        order := order[1..];
      }
      return true;
    }

    /** The same for file names, which are never empty: they end in their extension. */
    method RememberFileSeen(name: string, cacheSize: nat) returns (isNew: bool)
      requires Valid() && name != ""
      modifies this
      ensures Valid()
      ensures isNew <==> Accepts(old(order), name)
      ensures order == Remembered(old(order), name, cacheSize)
    {
      isNew := RememberKey(name, cacheSize);
    }

    method ForgetKey(key: string)
      requires Valid()
      modifies this
      ensures Valid()
      ensures order == Forgotten(old(order), key)
    {
      if key == "" {
        return;
      }
      keys := keys - {key};
      order := RemoveAll(order, key);
      assert "" !in Keys(order);
    }

    /** The erase-remove idiom. */
    static method RemoveAll(queue: seq<string>, key: string) returns (kept: seq<string>)
      ensures kept == Without(queue, key)
      ensures Keys(kept) == Keys(queue) - {key}
      ensures NoRepeats(queue) ==> NoRepeats(kept)
    {
      kept := [];
      for i := 0 to |queue|
        invariant kept == Without(queue[..i], key)
      {
        WithoutStep(queue[..i], key, queue[i]);
        assert queue[..i + 1] == queue[..i] + [queue[i]];
        if queue[i] != key {
          kept := kept + [queue[i]];
        }
      }
      assert queue[..|queue|] == queue;
      WithoutKeeps(queue, key);
    }

    /**
     * One command while nothing else uses the cache. The callbacks run without the lock; of the exceptions of
     * the trade callback only the standard ones are caught. Whatever is not accepted is reported.
     */
    method DispatchCommand(key: string, executable: bool, callbacks: Callbacks, cacheSize: nat)
      returns (response: Response, report: Option<Report>)
      requires Valid()
      modifies this
      ensures Valid()
      ensures (order, response) == Dispatched(old(order), key, executable, callbacks, cacheSize)
      ensures report == ReportOf(response)
    {
      if !executable {
        return Invalid, Some(InvalidReport);
      }
      var accepted := RememberKey(key, cacheSize);
      if !accepted {
        return Duplicate, Some(DuplicateReport);
      }
      if callbacks.allocator.None? {
        ForgetKey(key);
        return Failed(MissingAllocator), Some(IntakeErrorReport(MissingAllocator));
      }
      if callbacks.trade.None? {
        ForgetKey(key);
        return Failed(MissingTradeCallback), Some(IntakeErrorReport(MissingTradeCallback));
      }
      if callbacks.allocator.value.AllocatorThrows? {
        ForgetKey(key);
        return Failed(AllocatorFailed), Some(IntakeErrorReport(AllocatorFailed));
      }
      if callbacks.allocator.value.id == 0 {
        ForgetKey(key);
        return Failed(NoSignalId), Some(IntakeErrorReport(NoSignalId));
      }
      match callbacks.trade.value
      case Delivered => return Accepted, None;
      case ThrowsStandard =>
        ForgetKey(key);
        return Failed(TradeCallbackFailed), Some(IntakeErrorReport(TradeCallbackFailed));
      case ThrowsOther => return Escapes, None;
    }
  }

  lemma NewestOfRest(order: seq<string>, size: nat)
    requires |order| > size
    ensures Newest(order[1..], size) == Newest(order, size)
  {
    if |order| - 1 > size {
      assert order[1..][|order| - 1 - size..] == order[|order| - size..];
    }
  }

  lemma KeysOfRest(order: seq<string>)
    requires NoRepeats(order) && order != []
    ensures Keys(order[1..]) == Keys(order) - {order[0]}
  {
    forall k | k in Keys(order) - {order[0]}
      ensures k in order[1..]
    {
      var i :| 0 <= i < |order| && order[i] == k;
      assert order[1..][i - 1] == k;
    }
  }

  lemma {:induction false} WithoutStep(order: seq<string>, key: string, next: string)
    ensures Without(order + [next], key) == Without(order, key) + if next == key then [] else [next]
  {
    if order == [] {
      assert ([next])[1..] == [];
    } else {
      assert (order + [next])[1..] == order[1..] + [next];
      WithoutStep(order[1..], key, next);
    }
  }

  lemma {:induction false} WithoutKeeps(order: seq<string>, key: string)
    ensures Keys(Without(order, key)) == Keys(order) - {key}
    ensures |Without(order, key)| <= |order|
    ensures NoRepeats(order) ==> NoRepeats(Without(order, key))
  {
    if order != [] {
      WithoutKeeps(order[1..], key);
      assert Keys(order) == {order[0]} + Keys(order[1..]);
      assert order[0] in order[1..] || order[0] !in Keys(Without(order[1..], key));
      if order[0] != key {
        var rest := Without(order[1..], key);
        assert Keys([order[0]] + rest) == {order[0]} + Keys(rest);
        if NoRepeats(order) {
          assert order[0] !in order[1..];
          assert order[0] !in Keys(rest);
        }
      }
    }
  }

  // One command.

  datatype Allocation = Allocated(id: uint64) | AllocatorThrows

  datatype Delivery = Delivered | ThrowsStandard | ThrowsOther

  /** What the registered callbacks, if any, will do. */
  datatype Callbacks = Callbacks(allocator: Option<Allocation>, trade: Option<Delivery>)

  datatype IntakeError = MissingAllocator | MissingTradeCallback | AllocatorFailed | NoSignalId | TradeCallbackFailed

  /** `Escapes` is an exception that leaves the dispatch. */
  datatype Response = Invalid | Duplicate | Failed(error: IntakeError) | Accepted | Escapes

  datatype Report = InvalidReport | DuplicateReport | IntakeErrorReport(error: IntakeError)

  function ReportOf(response: Response): Option<Report> {
    match response
    case Invalid => Some(InvalidReport)
    case Duplicate => Some(DuplicateReport)
    case Failed(error) => Some(IntakeErrorReport(error))
    case _ => None
  }

  predicate ReachesTrade(callbacks: Callbacks) {
    && callbacks.allocator.Some? && callbacks.trade.Some?
    && callbacks.allocator.value.Allocated? && callbacks.allocator.value.id != 0
  }

  /** The first thing that goes wrong, if any, in the order in which the dispatch comes upon it. */
  function FirstError(callbacks: Callbacks): Option<IntakeError> {
    if callbacks.allocator.None? then Some(MissingAllocator)
    else if callbacks.trade.None? then Some(MissingTradeCallback)
    else if callbacks.allocator.value.AllocatorThrows? then Some(AllocatorFailed)
    else if callbacks.allocator.value.id == 0 then Some(NoSignalId)
    else if callbacks.trade.value.ThrowsStandard? then Some(TradeCallbackFailed)
    else None
  }

  function Dispatched(order: seq<string>, key: string, executable: bool, callbacks: Callbacks, size: nat)
    : (seq<string>, Response)
  {
    if !executable then (order, Invalid)
    else if key != "" && !Accepts(order, key) then (order, Duplicate)
    else
      var remembered := Remembered(order, key, size);
      match FirstError(callbacks)
      case Some(error) => (Forgotten(remembered, key), Failed(error))
      case None => (remembered, if callbacks.trade.value.Delivered? then Accepted else Escapes)
  }

  /** The key of a command: its transport suffix when it has one, else the raw text. */
  function DedupeKey(suffix: string, raw: string): string {
    if suffix != "" then "suffix:" + suffix else "raw:" + raw
  }

  lemma KeysTellCommandsApart(suffix1: string, raw1: string, suffix2: string, raw2: string)
    ensures DedupeKey("", raw1) == "raw:" + raw1
    ensures suffix1 != "" ==> DedupeKey(suffix1, raw1) == "suffix:" + suffix1
    ensures DedupeKey(suffix1, raw1) != ""
    ensures DedupeKey(suffix1, raw1) == DedupeKey(suffix2, raw2) <==>
            suffix1 == suffix2 && (suffix1 == "" ==> raw1 == raw2)
  {
    var k1, k2 := DedupeKey(suffix1, raw1), DedupeKey(suffix2, raw2);
    assert k1[0] == if suffix1 == "" then 'r' else 's';
    assert k2[0] == if suffix2 == "" then 'r' else 's';
    if k1 == k2 {
      if suffix1 == "" {
        assert raw1 == k1[4..] && raw2 == k2[4..];
      } else {
        assert suffix1 == k1[7..] && suffix2 == k2[7..];
      }
    }
  }

  lemma RememberedKeeps(order: seq<string>, key: string, size: nat)
    requires CacheInvariant(order, size)
    ensures CacheInvariant(Remembered(order, key, size), size)
    ensures Keys(Remembered(order, key, size)) <= Keys(order) + {key}
  {
  }

  /** In sequential use a command that comes back as failed leaves its key free, and locks out no other. */
  lemma FailureIsRetryable(order: seq<string>, key: string, executable: bool, callbacks: Callbacks, size: nat)
    requires CacheInvariant(order, size)
    ensures var (after, response) := Dispatched(order, key, executable, callbacks, size);
      && CacheInvariant(after, size)
      && (response.Failed? ==> Accepts(after, key) && Keys(after) <= Keys(order))
  {
    var remembered := Remembered(order, key, size);
    RememberedKeeps(order, key, size);
    WithoutKeeps(remembered, key);
    assert Accepts(Without(remembered, key), key) by {
      assert key !in Keys(Without(remembered, key));
    }
    var forgotten := Without(remembered, key);
    assert "" !in Keys(remembered);
    assert "" !in Keys(forgotten);
    assert forall k :: k in Keys(forgotten) ==> k in Keys(order);
  }

  /**
   * A new key is locked after the command exactly when the trade callback was reached and did not throw a
   * standard exception: delivered, or left by an exception that the dispatch does not catch.
   */
  lemma LockedExactlyWhen(order: seq<string>, key: string, callbacks: Callbacks, size: nat)
    requires CacheInvariant(order, size) && size > 0 && key != "" && Accepts(order, key)
    ensures var (after, response) := Dispatched(order, key, true, callbacks, size);
      && (!Accepts(after, key) <==> ReachesTrade(callbacks) && !callbacks.trade.value.ThrowsStandard?)
      && (response == Escapes ==> Dispatched(after, key, true, callbacks, size).1 == Duplicate)
  {
    var remembered := Remembered(order, key, size);
    assert remembered[|remembered| - 1] == key;
    FailureIsRetryable(order, key, true, callbacks, size);
  }

  /** A trade callback that throws something else leaves the key locked: the retry is a duplicate. */
  lemma EscapeLocksKey()
    ensures var callbacks := Callbacks(Some(Allocated(1)), Some(ThrowsOther));
      var (after, response) := Dispatched([], "raw:x", true, callbacks, 1);
      && response == Escapes && after == ["raw:x"]
      && Dispatched(after, "raw:x", true, callbacks, 1) == (after, Duplicate)
  {
    var key: string := "raw:x";
    assert key[0] == 'r';
    assert Newest([] + [key], 1) == [key];
  }

  /**
   * What a command answers, from the callbacks alone: the first of them that is missing, fails or hands out
   * no id, and nothing else, stands between a new command and its delivery.
   */
  lemma DispatchAnswersExactly(order: seq<string>, key: string, executable: bool, callbacks: Callbacks, size: nat)
    ensures
      var response := Dispatched(order, key, executable, callbacks, size).1;
      var allocator, trade := callbacks.allocator, callbacks.trade;
      var seen := executable && key != "" && key in order;
      var isNew := executable && !seen;
      var numbered := isNew && trade != None
                      && allocator.Some? && allocator.value.Allocated? && allocator.value.id as int > 0;
      && (response == Invalid <==> !executable)
      && (response == Duplicate <==> seen)
      && (response == Failed(MissingAllocator) <==> isNew && allocator == None)
      && (response == Failed(MissingTradeCallback) <==> isNew && allocator != None && trade == None)
      && (response == Failed(AllocatorFailed) <==> isNew && allocator == Some(AllocatorThrows) && trade != None)
      && (response == Failed(NoSignalId) <==> isNew && allocator == Some(Allocated(0)) && trade != None)
      && (response == Failed(TradeCallbackFailed) <==> numbered && trade == Some(ThrowsStandard))
      && (response == Accepted <==> numbered && trade == Some(Delivered))
      && (response == Escapes <==> numbered && trade == Some(ThrowsOther))
  {
  }

  /** Everything that is not accepted is reported under its own name; an escaping exception reports nothing. */
  lemma ReportsExactly(response: Response)
    ensures ReportOf(response).None? <==> response in {Accepted, Escapes}
    ensures response == Invalid ==> ReportOf(response) == Some(InvalidReport)
    ensures response == Duplicate ==> ReportOf(response) == Some(DuplicateReport)
    ensures forall error :: response == Failed(error) ==> ReportOf(response) == Some(IntakeErrorReport(error))
  {
  }

  /** The queue after an acceptance is the longest end of the old queue and the key that fits. */
  lemma RememberedExactly(order: seq<string>, key: string, size: nat)
    requires CacheInvariant(order, size)
    ensures
      var after := Remembered(order, key, size);
      if key == "" || key in order then after == order
      else
        && after == (order + [key])[|order| + 1 - |after|..]
        && |after| == if |order| < size then |order| + 1 else size
  {
  }

  /** Forgetting cuts the key out and leaves the others in their order. */
  lemma {:induction false} ForgottenExactly(before: seq<string>, key: string, after: seq<string>)
    requires key != "" && key !in before && key !in after
    ensures Forgotten(before + [key] + after, key) == before + after
    ensures Forgotten(before, key) == before
  {
    AbsentStays(before, key);
    var whole := before + [key] + after;
    if before == [] {
      AbsentStays(after, key);
      assert whole[1..] == after;
    } else {
      ForgottenExactly(before[1..], key, after);
      assert whole[1..] == before[1..] + [key] + after;
      assert before + after == [before[0]] + (before[1..] + after);
    }
  }

  lemma {:induction false} AbsentStays(order: seq<string>, key: string)
    requires key !in order
    ensures Without(order, key) == order
  {
    if order != [] {
      AbsentStays(order[1..], key);
    }
  }

  // Runs.

  datatype Call = Remember(key: string) | Forget(key: string)

  function After(order: seq<string>, call: Call, size: nat): seq<string> {
    match call
    case Remember(key) => Remembered(order, key, size)
    case Forget(key) => Forgotten(order, key)
  }

  function AfterAll(order: seq<string>, calls: seq<Call>, size: nat): seq<string>
    decreases |calls|
  {
    if calls == [] then order else AfterAll(After(order, calls[0], size), calls[1..], size)
  }

  predicate Takes(order: seq<string>, call: Call) {
    call.Remember? && call.key != "" && Accepts(order, call.key)
  }

  /** How many keys the calls get accepted. */
  function AcceptedCount(order: seq<string>, calls: seq<Call>, size: nat): nat
    decreases |calls|
  {
    if calls == [] then 0
    else (if Takes(order, calls[0]) then 1 else 0) + AcceptedCount(After(order, calls[0], size), calls[1..], size)
  }

  lemma StepKeepsCache(order: seq<string>, call: Call, size: nat)
    requires CacheInvariant(order, size)
    ensures CacheInvariant(After(order, call, size), size)
  {
    match call
    case Remember(key) => RememberedKeeps(order, key, size);
    case Forget(key) =>
      WithoutKeeps(order, key);
      assert "" !in Keys(order);
      assert "" !in Keys(Without(order, key));
  }

  lemma {:induction false} RunKeepsCache(order: seq<string>, calls: seq<Call>, size: nat)
    requires CacheInvariant(order, size)
    ensures CacheInvariant(AfterAll(order, calls, size), size)
    decreases |calls|
  {
    if calls != [] {
      StepKeepsCache(order, calls[0], size);
      RunKeepsCache(After(order, calls[0], size), calls[1..], size);
    }
  }

  /** The key is in the queue with at most `n` keys behind it. */
  ghost predicate Behind(order: seq<string>, key: string, n: int) {
    exists i :: 0 <= i < |order| && order[i] == key && |order| - 1 - i <= n
  }

  lemma {:induction false} WithoutOther(order: seq<string>, key: string, other: string, n: nat)
    requires Behind(order, key, n) && key != other
    ensures Behind(Without(order, other), key, n)
  {
    var i :| 0 <= i < |order| && order[i] == key && |order| - 1 - i <= n;
    var rest := Without(order[1..], other);
    WithoutKeeps(order[1..], other);
    if i > 0 {
      assert order[1..][i - 1] == key;
      WithoutOther(order[1..], key, other, n);
      var j :| 0 <= j < |rest| && rest[j] == key && |rest| - 1 - j <= n;
      if order[0] != other {
        assert Without(order, other)[j + 1] == key;
      }
    } else {
      assert Without(order, other)[0] == key;
    }
  }

  lemma StepBehind(order: seq<string>, call: Call, key: string, n: nat, size: nat)
    requires CacheInvariant(order, size) && Behind(order, key, n) && call != Forget(key)
    requires n + (if Takes(order, call) then 1 else 0) < size
    ensures Behind(After(order, call, size), key, n + if Takes(order, call) then 1 else 0)
  {
    match call
    case Remember(other) =>
      if Takes(order, call) {
        var i :| 0 <= i < |order| && order[i] == key && |order| - 1 - i <= n;
        var longer := order + [other];
        var after := After(order, call, size);
        var dropped := |longer| - |after|;
        assert after[i - dropped] == longer[i];
      }
    case Forget(other) =>
      if other != "" {
        WithoutOther(order, key, other, n);
      }
  }

  /**
   * A key that was accepted and not forgotten is rejected until at least `size` further keys have been
   * accepted, whatever else is remembered and forgotten in between.
   */
  lemma {:induction false} KeyIsHeld(order: seq<string>, calls: seq<Call>, key: string, n: nat, size: nat)
    requires CacheInvariant(order, size) && Behind(order, key, n) && Forget(key) !in calls
    requires n + AcceptedCount(order, calls, size) < size
    ensures !Accepts(AfterAll(order, calls, size), key)
    decreases |calls|
  {
    if calls != [] {
      StepKeepsCache(order, calls[0], size);
      StepBehind(order, calls[0], key, n, size);
      KeyIsHeld(After(order, calls[0], size), calls[1..], key, n + (if Takes(order, calls[0]) then 1 else 0), size);
    }
  }

  /** Seen from the acceptance itself. */
  lemma AcceptedKeyIsRejected(order: seq<string>, key: string, calls: seq<Call>, size: nat)
    requires CacheInvariant(order, size) && key != "" && Accepts(order, key) && Forget(key) !in calls
    ensures var remembered := Remembered(order, key, size);
      AcceptedCount(remembered, calls, size) < size ==> !Accepts(AfterAll(remembered, calls, size), key)
  {
    var remembered := Remembered(order, key, size);
    RememberedKeeps(order, key, size);
    if AcceptedCount(remembered, calls, size) < size {
      assert remembered[|remembered| - 1] == key;
      assert Behind(remembered, key, 0);
      KeyIsHeld(remembered, calls, key, 0, size);
    }
  }

  /** The queue ends with the key and at least `n` keys behind it, or no longer has it. */
  ghost predicate Passed(order: seq<string>, key: string, n: int) {
    forall i :: 0 <= i < |order| && order[i] == key ==> |order| - 1 - i >= n
  }

  lemma {:induction false} KeyIsPassed(order: seq<string>, calls: seq<Call>, key: string, n: nat, size: nat)
    requires CacheInvariant(order, size) && Passed(order, key, n)
    requires forall call :: call in calls ==> call.Remember? && call.key != key
    ensures Passed(AfterAll(order, calls, size), key, n + AcceptedCount(order, calls, size))
    decreases |calls|
  {
    if calls != [] {
      var call := calls[0];
      var after := After(order, call, size);
      StepKeepsCache(order, call, size);
      if Takes(order, call) {
        var longer := order + [call.key];
        forall i | 0 <= i < |after| && after[i] == key
          ensures |after| - 1 - i >= n + 1
        {
          assert longer[i + |longer| - |after|] == key;
        }
      }
      KeyIsPassed(after, calls[1..], key, n + (if Takes(order, call) then 1 else 0), size);
    }
  }

  /** Without forgets, and while it is not offered again, it is accepted again exactly then. */
  lemma AcceptedAgainExactlyWhen(order: seq<string>, key: string, calls: seq<Call>, size: nat)
    requires CacheInvariant(order, size) && key != "" && Accepts(order, key)
    requires forall call :: call in calls ==> call.Remember? && call.key != key
    ensures var remembered := Remembered(order, key, size);
      Accepts(AfterAll(remembered, calls, size), key) <==> AcceptedCount(remembered, calls, size) >= size
  {
    var remembered := Remembered(order, key, size);
    var last := AfterAll(remembered, calls, size);
    RememberedKeeps(order, key, size);
    AcceptedKeyIsRejected(order, key, calls, size);
    KeyIsPassed(remembered, calls, key, 0, size);
    RunKeepsCache(remembered, calls, size);
    if key in last {
      var i :| 0 <= i < |last| && last[i] == key;
      assert |last| - 1 - i >= AcceptedCount(remembered, calls, size);
    }
  }
}
