/** Dispatches that overlap: when does a delivered key stay locked? */
module DedupeRuns {
  import opened Dedupe

  /** A dispatch between remembering its key and its end; `since` is the number of keys accepted by then. */
  datatype Flight = Flight(key: string, since: int)

  /** The cache and the dispatches of all threads that are under way. */
  datatype Desk = Desk(order: seq<string>, flights: map<nat, Flight>, accepted: int)

  const EMPTY_DESK := Desk([], map[], 0)

  /** A dispatch begins, ends with its key kept (delivered, or left by an exception), or fails and forgets it. */
  datatype Step = Begin(id: nat, key: string) | Leave(id: nat) | Fail(id: nat)

  predicate Possible(w: Desk, step: Step) {
    match step
    case Begin(id, key) => id !in w.flights && key != ""
    case Leave(id) => id in w.flights
    case Fail(id) => id in w.flights
  }

  predicate Accepting(w: Desk, step: Step) {
    step.Begin? && Accepts(w.order, step.key)
  }

  function After(w: Desk, step: Step, size: nat): Desk {
    if !Possible(w, step) then w
    else
      match step
      case Begin(id, key) =>
        if Accepts(w.order, key)
        then Desk(Remembered(w.order, key, size), w.flights[id := Flight(key, w.accepted + 1)], w.accepted + 1)
        else w
      case Leave(id) => w.(flights := w.flights - {id})
      case Fail(id) => w.(order := Forgotten(w.order, w.flights[id].key), flights := w.flights - {id})
  }

  function AfterAll(w: Desk, steps: seq<Step>, size: nat): Desk
    decreases |steps|
  {
    if steps == [] then w else AfterAll(After(w, steps[0], size), steps[1..], size)
  }

  predicate IsRun(w: Desk, steps: seq<Step>, size: nat)
    decreases |steps|
  {
    steps == [] || (Possible(w, steps[0]) && IsRun(After(w, steps[0], size), steps[1..], size))
  }

  /** How many keys are accepted during the run. */
  function AcceptedIn(w: Desk, steps: seq<Step>, size: nat): nat
    decreases |steps|
  {
    if steps == [] then 0
    else (if Possible(w, steps[0]) && Accepting(w, steps[0]) then 1 else 0)
         + AcceptedIn(After(w, steps[0], size), steps[1..], size)
  }

  predicate LockedThroughout(w: Desk, steps: seq<Step>, key: string, size: nat)
    decreases |steps|
  {
    !Accepts(w.order, key) && (steps == [] || LockedThroughout(After(w, steps[0], size), steps[1..], key, size))
  }

  /** A dispatch of this key fails during the run. */
  predicate SomeFails(w: Desk, steps: seq<Step>, key: string, size: nat)
    decreases |steps|
  {
    steps != []
    && (Fails(w, steps[0], key) || SomeFails(After(w, steps[0], size), steps[1..], key, size))
  }

  predicate Fails(w: Desk, step: Step, key: string) {
    step.Fail? && step.id in w.flights && w.flights[step.id].key == key
  }

  ghost predicate DeskInvariant(w: Desk, size: nat) {
    CacheInvariant(w.order, size) && forall id :: id in w.flights ==> w.flights[id].key != ""
  }

  /** The same step seen by the cache alone. */
  function CallOf(w: Desk, step: Step): Call {
    match step
    case Begin(_, key) => Remember(key)
    case Leave(_) => Forget("")
    case Fail(id) => if id in w.flights then Forget(w.flights[id].key) else Forget("")
  }

  lemma StepKeepsDesk(w: Desk, step: Step, size: nat)
    requires DeskInvariant(w, size) && Possible(w, step)
    ensures DeskInvariant(After(w, step, size), size)
    ensures After(w, step, size).order == Dedupe.After(w.order, CallOf(w, step), size)
  {
    StepKeepsCache(w.order, CallOf(w, step), size);
  }

  /** A step that is no failure of this key leaves it in the queue, unless it is pushed out. */
  lemma StepHolds(w: Desk, step: Step, key: string, n: nat, size: nat)
    requires DeskInvariant(w, size) && Possible(w, step) && Behind(w.order, key, n) && !Fails(w, step, key)
    requires key != "" && n + (if Accepting(w, step) then 1 else 0) < size
    ensures Behind(After(w, step, size).order, key, n + if Accepting(w, step) then 1 else 0)
  {
    StepKeepsDesk(w, step, size);
    StepBehind(w.order, CallOf(w, step), key, n, size);
  }

  lemma BehindIsLocked(order: seq<string>, key: string, n: int)
    requires Behind(order, key, n)
    ensures !Accepts(order, key)
  {
  }

  lemma FailureUnlocks(w: Desk, step: Step, key: string, size: nat)
    requires Possible(w, step) && Fails(w, step, key) && key != ""
    ensures Accepts(After(w, step, size).order, key)
  {
    WithoutKeeps(w.order, key);
    assert key !in Keys(Without(w.order, key));
  }

  /**
   * Over every interleaving that accepts fewer than `size` further keys, a locked key stays locked exactly
   * when no dispatch of the same key that is still under way fails.
   */
  lemma {:induction false} LockedThroughoutExactlyWhen(w: Desk, steps: seq<Step>, key: string, n: nat, size: nat)
    requires DeskInvariant(w, size) && IsRun(w, steps, size) && key != "" && Behind(w.order, key, n)
    requires n + AcceptedIn(w, steps, size) < size
    ensures LockedThroughout(w, steps, key, size) <==> !SomeFails(w, steps, key, size)
    decreases |steps|
  {
    BehindIsLocked(w.order, key, n);
    if steps != [] {
      var step, next := steps[0], After(w, steps[0], size);
      hide Behind, DeskInvariant, After;
      StepKeepsDesk(w, step, size);
      if Fails(w, step, key) {
        FailureUnlocks(w, step, key, size);
      } else {
        StepHolds(w, step, key, n, size);
        LockedThroughoutExactlyWhen(next, steps[1..], key, n + (if Accepting(w, step) then 1 else 0), size);
      }
    }
  }

  /** No dispatch of the key is under way, other than `d`. */
  predicate OnlyFlight(w: Desk, key: string, d: nat) {
    forall o :: o in w.flights && w.flights[o].key == key ==> o == d
  }

  lemma {:induction false} NobodyFails(w: Desk, steps: seq<Step>, key: string, d: nat, n: nat, size: nat)
    requires DeskInvariant(w, size) && IsRun(w, steps, size) && key != "" && Behind(w.order, key, n)
    requires n + AcceptedIn(w, steps, size) < size && OnlyFlight(w, key, d) && Fail(d) !in steps
    ensures !SomeFails(w, steps, key, size)
    decreases |steps|
  {
    if steps != [] {
      var step, next := steps[0], After(w, steps[0], size);
      BehindIsLocked(w.order, key, n);
      assert !Fails(w, step, key);
      assert OnlyFlight(next, key, d);
      hide Behind, DeskInvariant, After;
      StepKeepsDesk(w, step, size);
      StepHolds(w, step, key, n, size);
      NobodyFails(next, steps[1..], key, d, n + (if Accepting(w, step) then 1 else 0), size);
    }
  }

  /** The key just accepted is the newest. */
  lemma BeginIsNewest(w: Desk, d: nat, key: string, size: nat)
    requires DeskInvariant(w, size) && size > 0 && Possible(w, Begin(d, key)) && Accepts(w.order, key)
    ensures Behind(After(w, Begin(d, key), size).order, key, 0)
  {
    var order := After(w, Begin(d, key), size).order;
    assert order[|order| - 1] == key;
  }

  /**
   * A dispatch that does not fail keeps its key locked against every interleaving that accepts fewer than
   * `size` further keys, if and only if no other dispatch of the key is under way when it is accepted.
   */
  lemma DeliveryIsSafeExactlyWhen(w: Desk, d: nat, key: string, size: nat)
    requires DeskInvariant(w, size) && size > 0 && Possible(w, Begin(d, key)) && Accepts(w.order, key)
    ensures var begun := After(w, Begin(d, key), size);
      (forall steps :: IsRun(begun, steps, size) && AcceptedIn(begun, steps, size) < size && Fail(d) !in steps
                       ==> LockedThroughout(begun, steps, key, size))
      <==> forall o :: o in w.flights ==> w.flights[o].key != key
  {
    var begun := After(w, Begin(d, key), size);
    StepKeepsDesk(w, Begin(d, key), size);
    BeginIsNewest(w, d, key, size);
    if o :| o in w.flights && w.flights[o].key == key {
      LateFailure(begun, d, o, key, size);
    } else {
      forall steps | IsRun(begun, steps, size) && AcceptedIn(begun, steps, size) < size && Fail(d) !in steps
        ensures LockedThroughout(begun, steps, key, size)
      {
        NobodyFails(begun, steps, key, d, 0, size);
        LockedThroughoutExactlyWhen(begun, steps, key, 0, size);
      }
    }
  }

  /** The other dispatch fails after this one has delivered, and takes the key away. */
  lemma LateFailure(w: Desk, d: nat, o: nat, key: string, size: nat)
    requires d in w.flights && o in w.flights && o != d && w.flights[o].key == key != "" && size > 0
    ensures var steps := [Leave(d), Fail(o)];
      && IsRun(w, steps, size) && AcceptedIn(w, steps, size) < size && Fail(d) !in steps
      && !LockedThroughout(w, steps, key, size)
  {
    var left := After(w, Leave(d), size);
    var failed := After(left, Fail(o), size);
    assert [Leave(d), Fail(o)][1..] == [Fail(o)] && [Fail(o)][1..] == [];
    FailureUnlocks(left, Fail(o), key, size);
    assert !LockedThroughout(failed, [], key, size);
    assert IsRun(failed, [], size) && IsRun(left, [Fail(o)], size);
    assert AcceptedIn(failed, [], size) == 0 && AcceptedIn(left, [Fail(o)], size) == 0;
    assert !LockedThroughout(left, [Fail(o)], key, size);
  }

  /** One more step at the end of a run. */
  lemma {:induction false} RunSnoc(w: Desk, steps: seq<Step>, step: Step, size: nat)
    requires IsRun(w, steps, size) && Possible(AfterAll(w, steps, size), step)
    ensures IsRun(w, steps + [step], size)
    ensures AfterAll(w, steps + [step], size) == After(AfterAll(w, steps, size), step, size)
    decreases |steps|
  {
    if steps == [] {
      assert (steps + [step])[1..] == [];
    } else {
      assert (steps + [step])[1..] == steps[1..] + [step];
      RunSnoc(After(w, steps[0], size), steps[1..], step, size);
    }
  }

  lemma FiveSteps(w: Desk, steps: seq<Step>, w1: Desk, w2: Desk, w3: Desk, w4: Desk, w5: Desk, size: nat)
    requires |steps| == 5
    requires Possible(w, steps[0]) && After(w, steps[0], size) == w1
    requires Possible(w1, steps[1]) && After(w1, steps[1], size) == w2
    requires Possible(w2, steps[2]) && After(w2, steps[2], size) == w3
    requires Possible(w3, steps[3]) && After(w3, steps[3], size) == w4
    requires Possible(w4, steps[4]) && After(w4, steps[4], size) == w5
    ensures IsRun(w, steps, size) && AfterAll(w, steps, size) == w5
  {
    hide After, Possible;
    assert AfterAll(w, [], size) == w && IsRun(w, [], size);
    hide AfterAll, IsRun;
    assert steps[..0] == [] && steps[..5] == steps;
    NextPrefix(w, steps, 0, size);
    NextPrefix(w, steps, 1, size);
    NextPrefix(w, steps, 2, size);
    NextPrefix(w, steps, 3, size);
    NextPrefix(w, steps, 4, size);
  }

  lemma NextPrefix(w: Desk, steps: seq<Step>, i: nat, size: nat)
    requires i < |steps| && IsRun(w, steps[..i], size) && Possible(AfterAll(w, steps[..i], size), steps[i])
    ensures IsRun(w, steps[..i + 1], size)
    ensures AfterAll(w, steps[..i + 1], size) == After(AfterAll(w, steps[..i], size), steps[i], size)
  {
    assert steps[..i + 1] == steps[..i] + [steps[i]];
    RunSnoc(w, steps[..i], steps[i], size);
  }

  const OVERLAP: seq<Step> := [Begin(0, "k"), Begin(1, "j"), Leave(1), Begin(1, "k"), Leave(1), Fail(0)]

  /**
   * Two threads and a cache of one key suffice: while the first dispatch of "k" is under way, "j" pushes the
   * key out, a second dispatch delivers "k", and the failure of the first takes it away.
   */
  lemma DeliveredKeyIsUnlocked()
    ensures IsRun(EMPTY_DESK, OVERLAP, 1)
    ensures var delivered := AfterAll(EMPTY_DESK, OVERLAP[..5], 1);
      !Accepts(delivered.order, "k") && delivered.flights.Keys == {0} && delivered.flights[0].key == "k"
    ensures Accepts(AfterAll(EMPTY_DESK, OVERLAP, 1).order, "k")
  {
    var k: string, j: string := "k", "j";
    assert k[0] != j[0];
    var w1 := Desk([k], map[0 := Flight(k, 1)], 1);
    var w2 := Desk([j], map[0 := Flight(k, 1), 1 := Flight(j, 2)], 2);
    var w3 := Desk([j], map[0 := Flight(k, 1)], 2);
    var w4 := Desk([k], map[0 := Flight(k, 1), 1 := Flight(k, 3)], 3);
    var w5 := Desk([k], map[0 := Flight(k, 1)], 3);
    assert After(EMPTY_DESK, Begin(0, k), 1) == w1;
    assert After(w1, Begin(1, j), 1) == w2;
    assert After(w2, Leave(1), 1) == w3;
    assert After(w3, Begin(1, k), 1) == w4;
    assert After(w4, Leave(1), 1) == w5;
    FiveSteps(EMPTY_DESK, OVERLAP[..5], w1, w2, w3, w4, w5, 1);
    var delivered := AfterAll(EMPTY_DESK, OVERLAP[..5], 1);
    FailureUnlocks(delivered, Fail(0), "k", 1);
    assert OVERLAP[..5] + [Fail(0)] == OVERLAP;
    RunSnoc(EMPTY_DESK, OVERLAP[..5], Fail(0), 1);
  }

  // Two dispatches of one key overlap only after the key was pushed out.

  /** Fewer than `size` keys were accepted since any of the dispatches under way began. */
  predicate Young(w: Desk, size: nat) {
    forall id :: id in w.flights ==> w.accepted - w.flights[id].since < size
  }

  predicate YoungThroughout(w: Desk, steps: seq<Step>, size: nat)
    decreases |steps|
  {
    Young(w, size) && (steps == [] || YoungThroughout(After(w, steps[0], size), steps[1..], size))
  }

  /** Every dispatch under way has its key in the queue, and no two have the same one. */
  ghost predicate Tight(w: Desk) {
    && (forall id :: id in w.flights ==>
          w.flights[id].since <= w.accepted && Behind(w.order, w.flights[id].key, w.accepted - w.flights[id].since))
    && (forall a, b :: a in w.flights && b in w.flights && a != b ==> w.flights[a].key != w.flights[b].key)
  }

  lemma StepKeepsTight(w: Desk, step: Step, size: nat)
    requires DeskInvariant(w, size) && Tight(w) && Possible(w, step) && size > 0
    requires Young(After(w, step, size), size)
    ensures Tight(After(w, step, size))
  {
    var next := After(w, step, size);
    if Possible(w, step) && Accepting(w, step) {
      BeginIsNewest(w, step.id, step.key, size);
    }
    forall id | id in next.flights
      ensures next.flights[id].since <= next.accepted
      ensures Behind(next.order, next.flights[id].key, next.accepted - next.flights[id].since)
    {
      if id in w.flights && next.flights[id] == w.flights[id] {
        FlightHolds(w, step, id, size);
      }
    }
    forall a, b | a in next.flights && b in next.flights && a != b
      ensures next.flights[a].key != next.flights[b].key
    {
      if a in w.flights {
        BehindIsLocked(w.order, w.flights[a].key, w.accepted - w.flights[a].since);
      }
      if b in w.flights {
        BehindIsLocked(w.order, w.flights[b].key, w.accepted - w.flights[b].since);
      }
    }
  }

  lemma FlightHolds(w: Desk, step: Step, id: nat, size: nat)
    requires DeskInvariant(w, size) && Tight(w) && Possible(w, step)
    requires var next := After(w, step, size);
      id in w.flights && id in next.flights && next.accepted - w.flights[id].since < size
    requires !Fails(w, step, w.flights[id].key) || step.id == id
    ensures var next := After(w, step, size);
      Behind(next.order, w.flights[id].key, next.accepted - w.flights[id].since)
  {
    StepHolds(w, step, w.flights[id].key, w.accepted - w.flights[id].since, size);
  }

  lemma {:induction false} YoungRunIsTight(w: Desk, steps: seq<Step>, size: nat)
    requires DeskInvariant(w, size) && Tight(w) && IsRun(w, steps, size) && YoungThroughout(w, steps, size) && size > 0
    ensures DeskInvariant(AfterAll(w, steps, size), size) && Tight(AfterAll(w, steps, size))
    decreases |steps|
  {
    if steps != [] {
      var next := After(w, steps[0], size);
      assert YoungThroughout(next, steps[1..], size);
      hide Tight, DeskInvariant, After;
      StepKeepsDesk(w, steps[0], size);
      StepKeepsTight(w, steps[0], size);
      YoungRunIsTight(next, steps[1..], size);
    }
  }

  /**
   * So as long as no dispatch outlives `size` further acceptances, an accepted key is not under way anywhere
   * else, over every run from the empty cache: `DeliveryIsSafeExactlyWhen` then says that it is safe.
   */
  lemma YoungDispatchesNeverOverlap(steps: seq<Step>, key: string, size: nat)
    requires size > 0 && IsRun(EMPTY_DESK, steps, size) && YoungThroughout(EMPTY_DESK, steps, size)
    ensures var w := AfterAll(EMPTY_DESK, steps, size);
      && DeskInvariant(w, size)
      && (Accepts(w.order, key) ==> forall o :: o in w.flights ==> w.flights[o].key != key)
  {
    YoungRunIsTight(EMPTY_DESK, steps, size);
    var w := AfterAll(EMPTY_DESK, steps, size);
    forall o | o in w.flights
      ensures !Accepts(w.order, w.flights[o].key)
    {
      BehindIsLocked(w.order, w.flights[o].key, w.accepted - w.flights[o].since);
    }
  }
}
