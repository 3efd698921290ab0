/** A module whose `shutdown` calls the stack's `process`: when does the staging survive? */
module LifecycleReentry {
  import opened Lifecycle
  import opened LifecycleRuns

  /** `OutOfBounds` is the cursor decremented below zero: the walk goes on outside the vector. */
  datatype Outcome = Waits(stack: Stack) | Continues(stack: Stack) | OutOfBounds

  /** The walk asks the module below the cursor, and the module's call comes back into `process`. */
  function CalledBack(s: Stack): (next: Stack)
    requires 0 < s.cursor <= |s.modules|
    ensures next.cursor <= |next.modules| == |s.modules|
  {
    AfterProcess(Elapsed(Ask(s, s.cursor - 1)))
  }

  /** What the walk sees when that call has returned. */
  function Returned(s: Stack): (next: Stack)
    requires 0 < s.cursor <= |s.modules|
    ensures next.cursor <= |next.modules| == |s.modules|
  {
    Elapsed(Elapsed(CalledBack(s)))
  }

  /** The walk still means the module it asked, but lowers the cursor that the inner call has left. */
  function AfterReentry(s: Stack): Outcome
    requires 0 < s.cursor <= |s.modules|
  {
    var seen := Returned(s);
    if !seen.modules[s.cursor - 1].stopped then Waits(seen)
    else if seen.cursor == 0 then OutOfBounds
    else Continues(Lowered(seen))
  }

  /** The walk at a module that has not stopped and has not been asked. */
  ghost predicate AtModule(s: Stack) {
    && Staged(s) && s.requested && !s.stopped && s.cursor > 0 && !s.current
    && !s.modules[s.cursor - 1].stopped
  }

  ghost predicate KeepsStaging(outcome: Outcome) {
    !outcome.OutOfBounds? && Staged(outcome.stack)
  }

  lemma CalledBackIsStaged(s: Stack)
    requires AtModule(s)
    ensures Staged(CalledBack(s)) && CalledBack(s).cursor <= s.cursor
    ensures CalledBack(s).cursor > 0 ==> CalledBack(s).current
  {
    var asked := Ask(s, s.cursor - 1);
    AskStaysStaged(s);
    ElapsedEvolves(asked);
    EvolvingStaysStaged(asked, Elapsed(asked));
    hide Staged, Lands, Total, Rank, Stopping;
    ProcessLands(Elapsed(asked));
    LandsLower(Forward(Elapsed(asked), s.cursor));
    LandsMeans(Forward(Elapsed(asked), s.cursor), CalledBack(s));
  }

  lemma LandsMeans(s: Stack, next: Stack)
    requires Lands(s, next)
    ensures Staged(next) && (next.cursor > 0 ==> next.current)
  {
  }

  /** The walk never goes up. */
  lemma {:induction false} LandsLower(s: Stack)
    requires s.cursor <= |s.modules|
    ensures Advanced(s).cursor <= s.cursor
    decreases s.cursor
  {
    hide Stopping, Elapsed, Waited;
    if s.cursor > 0 {
      var seen := Elapsed(s);
      if seen.modules[s.cursor - 1].stopped {
        LandsLower(Lowered(seen));
      } else if Waited(seen).modules[s.cursor - 1].stopped {
        LandsLower(Lowered(Waited(seen)));
      }
    }
  }

  /** The modules from the cursor up have stopped, but the one just below has not: the staging is lost. */
  lemma NotLowered(s: Stack)
    requires Staged(s) && s.cursor > 0 && !s.modules[s.cursor - 1].stopped
    ensures !Staged(Lowered(s))
  {
    assert !Lowered(s).modules[Lowered(s).cursor].stopped;
  }

  /**
   * The staging survives such a call exactly when the module has not stopped when its `shutdown` returns, or
   * the inner call has not gone past it, or the module the inner call is waiting for has stopped meanwhile.
   */
  lemma KeepsStagingExactlyWhen(s: Stack)
    requires AtModule(s)
    ensures var inner, seen := CalledBack(s), Returned(s);
      KeepsStaging(AfterReentry(s)) <==>
      || !seen.modules[s.cursor - 1].stopped
      || inner.cursor == s.cursor
      || (inner.cursor > 0 && seen.modules[inner.cursor - 1].stopped)
  {
    var inner, seen := CalledBack(s), Returned(s);
    CalledBackIsStaged(s);
    ElapsedEvolves(inner);
    EvolvingStaysStaged(inner, Elapsed(inner));
    ElapsedEvolves(Elapsed(inner));
    EvolvingStaysStaged(Elapsed(inner), seen);
    hide Staged, Stopping, Elapsed, CalledBack;
    if seen.modules[s.cursor - 1].stopped && seen.cursor > 0 {
      if seen.modules[seen.cursor - 1].stopped {
        LoweredStaysStaged(seen);
      } else {
        NotLowered(seen);
      }
    }
  }

  /** Modules registered in order, at the moment of the shutdown request. */
  function Requested(addresses: seq<nat>, modules: seq<Module>): Stack {
    Stack(addresses, modules, |modules|, true, false, false, [], [], [])
  }

  lemma RequestedIsStaged(addresses: seq<nat>, modules: seq<Module>)
    requires forall i :: 0 <= i < |modules| ==> modules[i].shutdowns == 0
    ensures Staged(Requested(addresses, modules))
  {
  }

  const PROMPT := Module(false, 0, 0)
  const SLOW := Module(false, 5, 0)

  lemma NothingElapses(s: Stack)
    requires s.script == []
    ensures Elapsed(s) == s
  {
    assert Stopping(s.modules, {}) == s.modules;
  }

  /** A round of turns in which the first module runs and the second has stopped. */
  lemma PromptRound(s: Stack)
    requires s.script == [] && |s.modules| == 2 && s.cursor == 2 && s.requested
    requires s.modules == [SLOW, Module(true, 0, 1)]
    ensures Forward(s, 2) == s.(ran := s.ran + [0])
  {
    NothingElapses(s);
    var ran := Run(s, 0);
    assert ran.modules == s.modules;
    NothingElapses(ran);
    assert Turn(s, 0) == ran;
    assert Forward(s, 1) == ran by {
      ForwardNone(s);
      ForwardOne(s, 0);
    }
    assert Turn(ran, 1) == ran;
    ForwardOne(s, 1);
  }

  /** The walk that the inner call makes: past the stopped module, to the earlier one, which it asks. */
  lemma PromptWalk(round: Stack)
    requires round.script == [] && round.cursor == 2 && round.requested && !round.stopped
    requires round.modules == [SLOW, Module(true, 0, 1)]
    ensures Advanced(round) == Ask(Lowered(round), 0)
  {
    var lowered := Lowered(round);
    var inner := Ask(lowered, 0);
    NothingElapses(round);
    NothingElapses(lowered);
    NothingElapses(inner);
    hide Stopping, Elapsed;
    assert inner.modules == [Module(false, 5, 1), Module(true, 0, 1)];
    assert Waited(lowered) == inner;
  }

  /** So the inner call leaves the cursor at the earlier module, asked and waiting. */
  lemma PromptCallsBack()
    ensures var s := Requested([0, 1], [SLOW, PROMPT]);
      CalledBack(s) == Stack([0, 1], [Module(false, 5, 1), Module(true, 0, 1)], 1, true, true, false, [0], [1, 0], [])
  {
    var s := Requested([0, 1], [SLOW, PROMPT]);
    var asked := Stack([0, 1], [SLOW, Module(true, 0, 1)], 2, true, true, false, [], [1], []);
    var round := asked.(ran := [0]);
    assert Ask(s, 1) == asked;
    NothingElapses(asked);
    PromptRound(asked);
    PromptWalk(round);
    assert [] + [0] == [0] && [1] + [0] == [1, 0];
    hide Stopping, Elapsed, Advanced, Forward;
    assert Ask(Lowered(round), 0).modules == [Module(false, 5, 1), Module(true, 0, 1)];
    assert Forward(asked, 2) == round;
    assert AfterProcess(asked) == Advanced(round);
    assert CalledBack(s) == AfterProcess(asked);
  }

  /**
   * Two modules, of which the later one stops at once and comes back: the inner call asks the earlier one,
   * the walk lowers the cursor past it, and the stack reports that it has stopped although it has not.
   */
  lemma SkipsModule()
    ensures var s := Requested([0, 1], [SLOW, PROMPT]);
      && AtModule(s) && AfterReentry(s).Continues?
      && var last := Advanced(AfterReentry(s).stack);
      && last.stopped && !last.modules[0].stopped
  {
    var s := Requested([0, 1], [SLOW, PROMPT]);
    RequestedIsStaged([0, 1], [SLOW, PROMPT]);
    PromptCallsBack();
    NothingElapses(CalledBack(s));
    AdvanceEnds(Lowered(CalledBack(s)));
    hide Staged, Stopping, Elapsed, CalledBack, Advanced;
  }

  /** A single such module takes the walk out of bounds. */
  lemma RunsOutOfBounds()
    ensures AtModule(Requested([0], [PROMPT])) && AfterReentry(Requested([0], [PROMPT])).OutOfBounds?
  {
    var s := Requested([0], [PROMPT]);
    var asked := Ask(s, 0);
    NothingElapses(asked);
    assert asked.modules == [Module(true, 0, 1)];
    assert Turn(asked, 0) == asked;
    assert Forward(asked, 1) == asked by {
      ForwardNone(asked);
      ForwardOne(asked, 0);
    }
    AdvanceEnds(Lowered(asked));
    var inner := Lowered(asked).(stopped := true);
    assert Advanced(asked) == inner;
    assert CalledBack(s) == inner;
    NothingElapses(inner);
  }

  /** Both stacks are what registration and the request make of an empty one. */
  lemma RequestedIsReachable()
    ensures var two := AfterAll(EmptyStack([]), [Add(0, SLOW), Add(1, PROMPT)]);
      two.(requested := true, cursor := 2) == Requested([0, 1], [SLOW, PROMPT])
    ensures var one := AfterAll(EmptyStack([]), [Add(0, PROMPT)]);
      one.(requested := true, cursor := 1) == Requested([0], [PROMPT])
  {
    assert [Add(0, SLOW), Add(1, PROMPT)][1..] == [Add(1, PROMPT)] && [Add(1, PROMPT)][1..] == [];
    assert [Add(0, PROMPT)][1..] == [];
    var zero := EmptyStack([]);
    var one := AfterAdd(zero, 0, SLOW);
    var two := AfterAdd(one, 1, PROMPT);
    assert two.addresses == [0, 1] && two.modules == [SLOW, PROMPT];
    assert AfterAll(two, []) == two && AfterAll(one, [Add(1, PROMPT)]) == two;
    assert AfterAll(zero, [Add(0, SLOW), Add(1, PROMPT)]) == two;
    var single := AfterAdd(zero, 0, PROMPT);
    assert single.addresses == [0] && single.modules == [PROMPT];
    assert AfterAll(single, []) == single && AfterAll(zero, [Add(0, PROMPT)]) == single;
  }
}
