/** Staged shutdown over whole runs: modules may stop at any time, through anybody, and stay stopped. */
module LifecycleRuns {
  import opened Lifecycle

  predicate Decreasing(asked: seq<nat>) {
    forall i, j :: 0 <= i < j < |asked| ==> asked[i] > asked[j]
  }

  predicate NoRepeats(addresses: seq<nat>) {
    forall i, j :: 0 <= i < j < |addresses| ==> addresses[i] != addresses[j]
  }

  predicate AllStopped(modules: seq<Module>) {
    forall i :: 0 <= i < |modules| ==> modules[i].stopped
  }

  /** What holds whenever the shutdown looks at a module. */
  ghost predicate Staged(s: Stack) {
    && s.cursor <= |s.modules|
    && (forall i :: s.cursor <= i < |s.modules| ==> s.modules[i].stopped)
    && (forall i :: 0 <= i < |s.modules| ==> s.modules[i].shutdowns == if i in s.asked then 1 else 0)
    && (forall a :: a in s.asked ==> a < |s.modules| && a >= if s.current then s.cursor - 1 else s.cursor)
    && Decreasing(s.asked)
    && (s.current ==> s.cursor > 0 && s.cursor - 1 in s.asked && OpenAfterRequest(s.modules[s.cursor - 1]))
  }

  predicate OpenAfterRequest(m: Module) {
    m.stopped || m.budget > 0
  }

  /** What holds between two calls. */
  ghost predicate StackInvariant(s: Stack) {
    && s.cursor <= |s.modules| == |s.addresses|
    && NoRepeats(s.addresses)
    && (!s.requested ==>
          && s.cursor == 0 && !s.current && !s.stopped && s.asked == []
          && forall i :: 0 <= i < |s.modules| ==> s.modules[i].shutdowns == 0)
    && (s.requested ==> Staged(s) && (s.stopped <==> s.cursor == 0) && (!s.stopped ==> s.current))
  }

  // What looking and running changes, and what it does not.

  function Need(m: Module): nat {
    if m.stopped then 0 else m.budget
  }

  predicate ModuleEvolves(before: Module, after: Module) {
    && (before.stopped ==> after.stopped)
    && Need(after) <= Need(before)
    && after.shutdowns == before.shutdowns
    && (before.shutdowns > 0 && OpenAfterRequest(before) ==> OpenAfterRequest(after))
  }

  /** Modules only stop and need less; nobody is asked, and the walk stays where it is. */
  predicate Evolves(s: Stack, t: Stack) {
    && t.cursor == s.cursor && t.requested == s.requested && t.current == s.current && t.stopped == s.stopped
    && t.addresses == s.addresses && t.asked == s.asked
    && |t.modules| == |s.modules|
    && forall i :: 0 <= i < |s.modules| ==> ModuleEvolves(s.modules[i], t.modules[i])
  }

  lemma EvolvesOn(s: Stack, t: Stack, u: Stack)
    requires Evolves(s, t) && Evolves(t, u)
    ensures Evolves(s, u)
  {
    forall i | 0 <= i < |s.modules|
      ensures ModuleEvolves(s.modules[i], u.modules[i])
    {
      assert ModuleEvolves(s.modules[i], t.modules[i]) && ModuleEvolves(t.modules[i], u.modules[i]);
    }
  }

  lemma EvolvesSelf(s: Stack)
    ensures Evolves(s, s)
  {
  }

  lemma EvolvingControl(s: Stack, t: Stack)
    requires Evolves(s, t)
    ensures t.requested == s.requested && t.cursor == s.cursor && t.stopped == s.stopped && t.current == s.current
  {
  }

  lemma EvolvesAt(s: Stack, t: Stack, i: nat)
    requires Evolves(s, t) && i < |s.modules|
    ensures |t.modules| == |s.modules| && ModuleEvolves(s.modules[i], t.modules[i])
    ensures s.modules[i].stopped ==> t.modules[i].stopped
  {
  }

  lemma ElapsedEvolves(s: Stack)
    ensures Evolves(s, Elapsed(s)) && Elapsed(s).ran == s.ran
  {
  }

  /** A module's own call, up to where it may come back to the stack. */
  lemma RunEvolves(s: Stack, i: nat)
    requires i < |s.modules|
    ensures Evolves(s, Elapsed(Run(Elapsed(s), i))) && Elapsed(Run(Elapsed(s), i)).ran == s.ran + [i]
  {
    var seen := Elapsed(s);
    var ran := Run(seen, i);
    ElapsedEvolves(s);
    ElapsedEvolves(ran);
    hide Elapsed, Stopping;
    assert Evolves(seen, ran);
    hide Evolves, Run;
    EvolvesOn(seen, ran, Elapsed(ran));
    EvolvesOn(s, seen, Elapsed(ran));
  }

  /** During the shutdown another request has no effect. */
  lemma TurnEvolves(s: Stack, i: nat)
    requires i < |s.modules| && s.cursor <= |s.modules| && s.requested
    ensures Evolves(s, Turn(s, i))
  {
    ElapsedEvolves(s);
    RunEvolves(s, i);
  }

  lemma {:induction false} ForwardEvolves(s: Stack, m: nat, n: nat)
    requires m <= n <= |s.modules| && s.cursor <= |s.modules| && s.requested
    ensures Evolves(Forward(s, m), Forward(s, n)) && Forward(s, n).requested
    decreases n
  {
    hide Turn, Evolves;
    if m == n {
      EvolvesSelf(Forward(s, n));
      if n > 0 {
        ForwardEvolves(s, 0, n - 1);
        TurnEvolves(Forward(s, n - 1), n - 1);
        EvolvingControl(Forward(s, n - 1), Forward(s, n));
      }
    } else {
      ForwardEvolves(s, m, n - 1);
      TurnEvolves(Forward(s, n - 1), n - 1);
      EvolvesOn(Forward(s, m), Forward(s, n - 1), Forward(s, n));
      EvolvingControl(Forward(s, n - 1), Forward(s, n));
    }
  }

  // The moves of a shutdown.

  lemma EvolvingStaysStaged(s: Stack, t: Stack)
    requires Staged(s) && Evolves(s, t)
    ensures Staged(t)
  {
    assert forall i :: 0 <= i < |s.modules| ==> ModuleEvolves(s.modules[i], t.modules[i]);
  }

  lemma LoweredStaysStaged(s: Stack)
    requires Staged(s) && s.cursor > 0 && s.modules[s.cursor - 1].stopped
    ensures Staged(Lowered(s))
  {
  }

  lemma AskStaysStaged(s: Stack)
    requires Staged(s) && s.cursor > 0 && !s.current && !s.modules[s.cursor - 1].stopped
    ensures Staged(Ask(s, s.cursor - 1))
  {
    var asked := s.asked + [s.cursor - 1];
    assert asked[|asked| - 1] == s.cursor - 1;
    assert forall a :: a in asked <==> a in s.asked || a == s.cursor - 1;
    assert Decreasing(asked) by {
      assert forall i :: 0 <= i < |s.asked| ==> asked[i] == s.asked[i] && s.asked[i] in s.asked;
    }
  }

  /** Asking and waiting: the module below the cursor has been asked, and needs no more than before. */
  lemma WaitedIsStaged(s: Stack)
    requires Staged(s) && s.cursor > 0 && !s.modules[s.cursor - 1].stopped
    ensures var waited := Waited(s);
      && Staged(waited) && waited.current && waited.requested == s.requested && waited.stopped == s.stopped
      && waited.ran == s.ran && waited.addresses == s.addresses
      && StaysStopped(s.modules, waited.modules) && NeedsNoMore(waited.modules, s.modules, s.cursor)
  {
    var asked := Ask(s, s.cursor - 1);
    if s.current {
      ElapsedEvolves(s);
      EvolvingStaysStaged(s, Elapsed(s));
      hide Stopping, Elapsed, Staged;
      EvolvingMeans(s, Waited(s));
    } else {
      AskStaysStaged(s);
      AskMeans(s);
      ElapsedEvolves(asked);
      ElapsedEvolves(Elapsed(asked));
      hide Ask, Staged, Stopping, Elapsed;
      EvolvesOn(asked, Elapsed(asked), Elapsed(Elapsed(asked)));
      EvolvingStaysStaged(asked, Waited(s));
      EvolvingMeans(asked, Waited(s));
    }
  }

  lemma AskMeans(s: Stack)
    requires 0 < s.cursor <= |s.modules|
    ensures var asked := Ask(s, s.cursor - 1);
      StaysStopped(s.modules, asked.modules) && NeedsNoMore(asked.modules, s.modules, s.cursor)
  {
  }

  lemma EvolvingMeans(s: Stack, t: Stack)
    requires Evolves(s, t) && s.cursor <= |s.modules|
    ensures |t.modules| == |s.modules| && t.cursor == s.cursor && t.addresses == s.addresses
    ensures t.requested == s.requested && t.stopped == s.stopped && t.current == s.current
    ensures StaysStopped(s.modules, t.modules)
    ensures forall n :: 0 <= n <= |s.modules| ==> NeedsNoMore(t.modules, s.modules, n)
  {
    assert forall i :: 0 <= i < |s.modules| ==> ModuleEvolves(s.modules[i], t.modules[i]);
  }

  lemma StagedBounds(s: Stack)
    requires Staged(s)
    ensures s.cursor <= |s.modules|
  {
  }

  /** Nothing that has stopped runs again. */
  predicate StaysStopped(before: seq<Module>, after: seq<Module>) {
    |before| == |after| && forall i :: 0 <= i < |before| && before[i].stopped ==> after[i].stopped
  }

  predicate NeedsNoMore(after: seq<Module>, before: seq<Module>, n: nat) {
    n <= |after| == |before| && forall i :: 0 <= i < n ==> Need(after[i]) <= Need(before[i])
  }

  lemma NeedsOn(c: seq<Module>, b: seq<Module>, a: seq<Module>, n: nat)
    requires NeedsNoMore(c, b, n) && NeedsNoMore(b, a, n)
    ensures NeedsNoMore(c, a, n)
  {
  }

  lemma StopsOn(a: seq<Module>, b: seq<Module>, c: seq<Module>)
    requires StaysStopped(a, b) && StaysStopped(b, c)
    ensures StaysStopped(a, c)
  {
  }

  /** The process calls that the first `n` modules may still need. */
  function Total(modules: seq<Module>, n: nat): nat
    requires n <= |modules|
  {
    if n == 0 then 0 else Total(modules, n - 1) + Need(modules[n - 1])
  }

  lemma {:induction false} TotalMonotone(after: seq<Module>, before: seq<Module>, n: nat)
    requires NeedsNoMore(after, before, n)
    ensures Total(after, n) <= Total(before, n)
  {
    if n > 0 {
      TotalMonotone(after, before, n - 1);
    }
  }

  /** The current module takes at least one more call, even if it has just stopped unnoticed. */
  function Rank(s: Stack): nat
    requires s.cursor <= |s.modules|
  {
    if s.cursor == 0 then 0
    else
      var need := Need(s.modules[s.cursor - 1]);
      Total(s.modules, s.cursor - 1) + if s.current && need == 0 then 1 else need
  }

  /**
   * The walk ends below all stopped modules, at one that was asked and has not stopped, if there is one; it
   * runs nobody, and what is still needed is no more than before.
   */
  ghost predicate Lands(s: Stack, next: Stack) {
    && Staged(next) && next.requested && (next.stopped <==> next.cursor == 0)
    && (!next.stopped ==> next.current && !next.modules[next.cursor - 1].stopped)
    && next.addresses == s.addresses && next.ran == s.ran
    && s.cursor <= |s.modules|
    && StaysStopped(s.modules, next.modules)
    && Rank(next) <= Total(s.modules, s.cursor)
  }

  lemma {:induction false} AdvanceLands(s: Stack)
    requires Staged(s) && s.requested && !s.stopped
    ensures Lands(s, Advanced(s))
    decreases s.cursor
  {
    StagedBounds(s);
    if s.cursor > 0 {
      var seen := Elapsed(s);
      hide Staged, Lands, Elapsed, Waited, Total, Rank, StaysStopped, NeedsNoMore;
      SeenFrom(s);
      if seen.modules[s.cursor - 1].stopped {
        LoweredStaysStaged(seen);
        AdvanceLands(Lowered(seen));
        LandsOneLower(s, seen, Advanced(s));
      } else {
        var waited := Waited(seen);
        WaitedFrom(s);
        if waited.modules[s.cursor - 1].stopped {
          LoweredStaysStaged(waited);
          AdvanceLands(Lowered(waited));
          LandsOneLower(s, waited, Advanced(s));
        } else {
          LandsHere(s, waited);
        }
      }
    }
  }

  /** What every later stage of the walk has in common with the one it came from. */
  ghost predicate ComesFrom(s: Stack, t: Stack) {
    && s.cursor == t.cursor && t.requested == s.requested && t.stopped == s.stopped
    && t.ran == s.ran && t.addresses == s.addresses
    && StaysStopped(s.modules, t.modules) && NeedsNoMore(t.modules, s.modules, s.cursor)
  }

  lemma SeenFrom(s: Stack)
    requires Staged(s)
    ensures Staged(Elapsed(s)) && ComesFrom(s, Elapsed(s))
  {
    StagedBounds(s);
    ElapsedEvolves(s);
    EvolvingStaysStaged(s, Elapsed(s));
    EvolvingMeans(s, Elapsed(s));
    hide Staged, Elapsed, Evolves, StaysStopped, NeedsNoMore;
  }

  lemma WaitedFrom(s: Stack)
    requires Staged(s) && s.cursor > 0 && s.cursor <= |s.modules| && !Elapsed(s).modules[s.cursor - 1].stopped
    ensures var waited := Waited(Elapsed(s)); Staged(waited) && ComesFrom(s, waited) && waited.current
  {
    var seen := Elapsed(s);
    hide Staged, Elapsed, Evolves, StaysStopped, NeedsNoMore, Waited;
    SeenFrom(s);
    WaitedIsStaged(seen);
    StopsOn(s.modules, seen.modules, Waited(seen).modules);
    NeedsOn(Waited(seen).modules, seen.modules, s.modules, s.cursor);
  }

  lemma LandsOneLower(s: Stack, t: Stack, next: Stack)
    requires 0 < s.cursor && ComesFrom(s, t) && Lands(Lowered(t), next)
    ensures Lands(s, next)
  {
    StopsOn(s.modules, t.modules, next.modules);
    TotalMonotone(t.modules, s.modules, s.cursor - 1);
    hide Staged, StaysStopped;
  }

  lemma LandsHere(s: Stack, next: Stack)
    requires 0 < s.cursor && ComesFrom(s, next)
    requires Staged(next) && next.requested && !next.stopped && next.current
    requires !next.modules[next.cursor - 1].stopped
    ensures Lands(s, next)
  {
    TotalMonotone(next.modules, s.modules, s.cursor);
    assert OpenAfterRequest(next.modules[next.cursor - 1]);
  }

  // Runs.

  /**
   * `Thrown` is a `process` call that the call of module `i` leaves by an exception; `Outside` is anything
   * that stops modules between two calls of the stack.
   */
  datatype Call = Add(address: nat, m: Module) | Process | Thrown(i: nat) | Shutdown | Outside(who: set<nat>)

  function After(s: Stack, call: Call): (next: Stack)
    requires s.cursor <= |s.modules|
    ensures next.cursor <= |next.modules|
  {
    match call
    case Add(address, m) => AfterAdd(s, address, m)
    case Process => AfterProcess(s)
    case Thrown(i) => if s.stopped || i >= Limit(s) then s else Forward(s, i + 1)
    case Shutdown => AfterShutdown(s)
    case Outside(who) => s.(modules := Stopping(s.modules, who))
  }

  function AfterAll(s: Stack, calls: seq<Call>): Stack
    requires s.cursor <= |s.modules|
    decreases |calls|
  {
    if calls == [] then s else AfterAll(After(s, calls[0]), calls[1..])
  }

  /** A module that is added has not been shut down before. */
  predicate AddsNewModules(calls: seq<Call>) {
    forall call :: call in calls && call.Add? ==> call.m.shutdowns == 0
  }

  /** The stack goes on in order: nothing un-stops, and a request stands. */
  ghost predicate GoesOn(s: Stack, t: Stack) {
    && StackInvariant(t) && t.addresses == s.addresses && (s.requested ==> t.requested)
    && StaysStopped(s.modules, t.modules)
  }

  /** What the stack says about being stopped is what the modules say. */
  predicate Noticed(s: Stack) {
    s.stopped <==> AllStopped(s.modules)
  }

  lemma GoesOnOn(s: Stack, t: Stack, u: Stack)
    requires GoesOn(s, t) && GoesOn(t, u)
    ensures GoesOn(s, u)
  {
    StopsOn(s.modules, t.modules, u.modules);
    hide StackInvariant, StaysStopped;
  }

  lemma GoesOnSelf(s: Stack)
    requires StackInvariant(s)
    ensures GoesOn(s, s)
  {
    hide StackInvariant;
  }

  lemma WalkGoesOn(s: Stack)
    requires StackInvariant(s) && s.requested
    ensures GoesOn(s, Advanced(s)) && Advanced(s).requested && Noticed(Advanced(s)) && Advanced(s).ran == s.ran
  {
    if s.stopped {
      AdvanceEnds(s);
    } else {
      AdvanceLands(s);
      hide Total, Rank;
    }
  }

  lemma RequestGoesOn(s: Stack)
    requires StackInvariant(s)
    ensures GoesOn(s, AfterShutdown(s)) && AfterShutdown(s).ran == s.ran
    ensures !s.requested ==> AfterShutdown(s).requested && Noticed(AfterShutdown(s))
  {
    if s.requested {
      GoesOnSelf(s);
    } else {
      AdvanceLands(s.(requested := true, cursor := |s.modules|));
      hide Total, Rank;
    }
  }

  lemma EvolvingGoesOn(s: Stack, t: Stack)
    requires StackInvariant(s) && Evolves(s, t)
    ensures GoesOn(s, t)
  {
    EvolvingKeepsStack(s, t);
    EvolvingMeans(s, t);
  }

  lemma TurnGoesOn(s: Stack, i: nat)
    requires StackInvariant(s) && i < |s.modules|
    ensures GoesOn(s, Turn(s, i))
    ensures Turn(s, i).ran == s.ran + if Elapsed(s).modules[i].stopped then [] else [i]
  {
    ElapsedEvolves(s);
    RunEvolves(s, i);
    InvariantBounds(s);
    hide StackInvariant, Elapsed, Run, Evolves, StaysStopped;
    var after := Elapsed(Run(Elapsed(s), i));
    EvolvingGoesOn(s, Elapsed(s));
    EvolvingGoesOn(s, after);
    RequestGoesOn(after);
    GoesOnOn(s, after, AfterShutdown(after));
  }

  lemma GoesOnKeeps(s: Stack, t: Stack)
    requires GoesOn(s, t)
    ensures StackInvariant(t) && |t.modules| == |s.modules| && t.cursor <= |t.modules|
  {
  }

  lemma {:induction false} ForwardKeepsStack(s: Stack, n: nat)
    requires StackInvariant(s) && n <= |s.modules| && s.cursor <= |s.modules|
    ensures StackInvariant(Forward(s, n))
  {
    hide StackInvariant, Turn, GoesOn, Forward;
    if n == 0 {
      ForwardNone(s);
    } else {
      ForwardKeepsStack(s, n - 1);
      ForwardOne(s, n - 1);
      TurnGoesOn(Forward(s, n - 1), n - 1);
      GoesOnKeeps(Forward(s, n - 1), Forward(s, n));
    }
  }

  lemma {:induction false} ForwardGoesOn(s: Stack, m: nat, n: nat)
    requires StackInvariant(s) && m <= n <= |s.modules| && s.cursor <= |s.modules|
    ensures StackInvariant(Forward(s, m)) && GoesOn(Forward(s, m), Forward(s, n))
    decreases n
  {
    hide StackInvariant, Turn, GoesOn, Forward;
    ForwardKeepsStack(s, m);
    if m == n {
      GoesOnSelf(Forward(s, n));
    } else {
      ForwardGoesOn(s, m, n - 1);
      ForwardKeepsStack(s, n - 1);
      ForwardOne(s, n - 1);
      TurnGoesOn(Forward(s, n - 1), n - 1);
      GoesOnOn(Forward(s, m), Forward(s, n - 1), Forward(s, n));
    }
  }

  lemma ProcessGoesOn(s: Stack)
    requires StackInvariant(s)
    ensures GoesOn(s, AfterProcess(s))
    ensures !s.stopped && AfterProcess(s).requested ==> Noticed(AfterProcess(s))
  {
    InvariantBounds(s);
    if s.stopped {
      GoesOnSelf(s);
    } else {
      var n := Limit(s);
      ForwardNone(s);
      ForwardGoesOn(s, 0, n);
      var round := Forward(s, n);
      hide StackInvariant, StaysStopped, Forward, Noticed;
      if round.requested {
        WalkGoesOn(round);
        GoesOnOn(s, round, Advanced(round));
      }
    }
  }

  /** One process call during the shutdown: a round of turns, then the walk. */
  lemma ProcessLands(s: Stack)
    requires Staged(s) && s.requested && !s.stopped
    ensures var round := Forward(s, s.cursor); Staged(round) && Evolves(s, round) && Lands(round, AfterProcess(s))
  {
    var round := Forward(s, s.cursor);
    ForwardEvolves(s, 0, s.cursor);
    EvolvingStaysStaged(s, round);
    hide Staged, Evolves, Lands;
    AdvanceLands(round);
  }

  lemma AddKeepsStack(s: Stack, address: nat, m: Module)
    requires StackInvariant(s) && m.shutdowns == 0
    ensures StackInvariant(AfterAdd(s, address, m))
  {
    hide Staged;
  }

  lemma ThrownGoesOn(s: Stack, i: nat)
    requires StackInvariant(s) && s.cursor <= |s.modules|
    ensures GoesOn(s, After(s, Thrown(i)))
  {
    hide StackInvariant, GoesOn, Forward;
    if s.stopped || i >= Limit(s) {
      GoesOnSelf(s);
    } else {
      ForwardNone(s);
      ForwardGoesOn(s, 0, i + 1);
    }
  }

  lemma StepKeepsStack(s: Stack, call: Call)
    requires StackInvariant(s) && (call.Add? ==> call.m.shutdowns == 0)
    ensures StackInvariant(After(s, call))
  {
    InvariantBounds(s);
    hide StackInvariant, GoesOn, AfterProcess, AfterShutdown, AfterAdd, Forward, Noticed, Evolves, Stopping;
    match call
    case Add(address, m) => AddKeepsStack(s, address, m);
    case Process =>
      ProcessGoesOn(s);
      GoesOnKeeps(s, AfterProcess(s));
    case Thrown(i) =>
      ThrownGoesOn(s, i);
      GoesOnKeeps(s, After(s, call));
    case Shutdown =>
      RequestGoesOn(s);
      GoesOnKeeps(s, AfterShutdown(s));
    case Outside(_) =>
      OutsideEvolves(s, call.who);
      EvolvingKeepsStack(s, After(s, call));
  }

  lemma OutsideEvolves(s: Stack, who: set<nat>)
    requires s.cursor <= |s.modules|
    ensures Evolves(s, After(s, Outside(who)))
  {
  }

  lemma EvolvingKeepsStack(s: Stack, t: Stack)
    requires StackInvariant(s) && Evolves(s, t)
    ensures StackInvariant(t)
  {
    assert forall i :: 0 <= i < |s.modules| ==> ModuleEvolves(s.modules[i], t.modules[i]);
    if s.requested {
      EvolvingStaysStaged(s, t);
    }
  }

  lemma {:induction false} RunKeepsStack(s: Stack, calls: seq<Call>)
    requires StackInvariant(s) && AddsNewModules(calls)
    ensures StackInvariant(AfterAll(s, calls))
    decreases |calls|
  {
    hide Staged;
    if calls != [] {
      assert calls[0] in calls;
      StepKeepsStack(s, calls[0]);
      RunKeepsStack(After(s, calls[0]), calls[1..]);
    }
  }

  /**
   * Over every run, whoever stops modules and when, the stack asks a module to stop at most once, in reverse
   * order of registration and only when every later module has stopped; a stopped stack means that shutdown
   * was requested and every module has stopped.
   */
  lemma ShutdownIsStaged(script: seq<Moment>, calls: seq<Call>)
    requires AddsNewModules(calls)
    ensures var s := AfterAll(EmptyStack(script), calls);
      && NoRepeats(s.addresses)
      && Decreasing(s.asked)
      && (forall i :: 0 <= i < |s.modules| ==> s.modules[i].shutdowns == if i in s.asked then 1 else 0)
      && (forall i, j :: 0 <= i < j < |s.modules| && i in s.asked ==> s.modules[j].stopped)
      && (s.stopped ==> s.requested && AllStopped(s.modules))
  {
    RunKeepsStack(EmptyStack(script), calls);
  }

  /** The call that ends a walk leaves the stack stopped exactly when all modules have stopped. */
  lemma StopIsNoticed(s: Stack)
    requires StackInvariant(s)
    ensures !s.stopped && AfterProcess(s).requested ==> Noticed(AfterProcess(s))
    ensures !s.requested ==> Noticed(AfterShutdown(s))
  {
    ProcessGoesOn(s);
    RequestGoesOn(s);
  }

  // The modules that are still needed keep running.

  /** Module `i` has stopped when its turn comes. */
  predicate StoppedAtTurn(s: Stack, i: nat)
    requires i < |s.modules| && s.cursor <= |s.modules|
  {
    Elapsed(Forward(s, i)).modules[i].stopped
  }

  /** The modules among the first `n` that run, in order. */
  function Runners(s: Stack, n: nat): seq<nat>
    requires n <= |s.modules| && s.cursor <= |s.modules|
  {
    if n == 0 then [] else Runners(s, n - 1) + if StoppedAtTurn(s, n - 1) then [] else [n - 1]
  }

  predicate Increasing(runners: seq<nat>) {
    forall i, j :: 0 <= i < j < |runners| ==> runners[i] < runners[j]
  }

  lemma {:induction false} ForwardRuns(s: Stack, n: nat)
    requires StackInvariant(s) && n <= |s.modules| && s.cursor <= |s.modules|
    ensures Forward(s, n).ran == s.ran + Runners(s, n)
  {
    hide Turn, Elapsed, Stopping, StackInvariant, Forward, GoesOn;
    if n == 0 {
      ForwardNone(s);
    } else {
      ForwardRuns(s, n - 1);
      ForwardKeepsStack(s, n - 1);
      ForwardOne(s, n - 1);
      TurnGoesOn(Forward(s, n - 1), n - 1);
      Regroup(s.ran, Runners(s, n - 1), if StoppedAtTurn(s, n - 1) then [] else [n - 1]);
    }
  }

  lemma Regroup(a: seq<nat>, b: seq<nat>, c: seq<nat>)
    ensures a + b + c == a + (b + c)
  {
  }

  lemma {:induction false} RunnersAre(s: Stack, n: nat)
    requires n <= |s.modules| && s.cursor <= |s.modules|
    ensures Increasing(Runners(s, n))
    ensures forall i: nat :: i in Runners(s, n) <==> i < n && !StoppedAtTurn(s, i)
  {
    hide StoppedAtTurn;
    if n > 0 {
      RunnersAre(s, n - 1);
      var before := Runners(s, n - 1);
      forall i | 0 <= i < |before|
        ensures before[i] < n - 1
      {
        assert before[i] in before;
      }
    }
  }

  /**
   * A process call runs, once each and in order of registration, exactly the modules still needed that have
   * not stopped when their turn comes: none that had stopped before the call, all that have not after it.
   */
  lemma EarlierModulesKeepRunning(s: Stack)
    requires StackInvariant(s) && !s.stopped
    ensures var next := AfterProcess(s); var runners := Runners(s, Limit(s));
      && next.ran == s.ran + runners && Increasing(runners)
      && (forall i: nat :: i in runners <==> i < Limit(s) && !StoppedAtTurn(s, i))
      && (forall i :: i in runners ==> !s.modules[i].stopped)
      && (forall i :: 0 <= i < Limit(s) && !next.modules[i].stopped ==> i in runners)
  {
    var n := Limit(s);
    InvariantBounds(s);
    ForwardRuns(s, n);
    RunnersAre(s, n);
    ForwardGoesOn(s, n, n);
    hide StackInvariant, Runners, Forward, Increasing;
    var round := Forward(s, n);
    if round.requested {
      WalkGoesOn(round);
    }
    forall i: nat | i < n
      ensures s.modules[i].stopped ==> StoppedAtTurn(s, i)
      ensures StoppedAtTurn(s, i) ==> AfterProcess(s).modules[i].stopped
    {
      TurnSees(s, i, n);
    }
  }

  /** A module that had stopped before is seen stopped, and one that is seen stopped stays so. */
  lemma TurnSees(s: Stack, i: nat, n: nat)
    requires StackInvariant(s) && i < n <= |s.modules|
    ensures s.modules[i].stopped ==> StoppedAtTurn(s, i)
    ensures StoppedAtTurn(s, i) ==> Forward(s, n).modules[i].stopped
  {
    InvariantBounds(s);
    hide StackInvariant, Forward, Evolves, Elapsed, Turn, ModuleEvolves;
    ForwardNone(s);
    ForwardGoesOn(s, 0, i);
    ElapsedEvolves(Forward(s, i));
    EvolvesAt(Forward(s, i), Elapsed(Forward(s, i)), i);
    if StoppedAtTurn(s, i) {
      StaysSeen(s, i, n);
    }
  }

  lemma TurnOfStopped(s: Stack, i: nat)
    requires i < |s.modules| == |Elapsed(s).modules| && s.cursor <= |s.modules| && Elapsed(s).modules[i].stopped
    ensures Turn(s, i) == Elapsed(s)
  {
  }

  lemma StaysSeen(s: Stack, i: nat, n: nat)
    requires StackInvariant(s) && i < n <= |s.modules| && s.cursor <= |s.modules| && StoppedAtTurn(s, i)
    ensures Forward(s, n).modules[i].stopped
  {
    hide StackInvariant, Forward, Elapsed, Turn;
    ForwardOne(s, i);
    TurnOfStopped(Forward(s, i), i);
    ForwardGoesOn(s, i + 1, n);
  }

  // Termination.

  /** The current module runs, or is found stopped: either way it needs less. */
  lemma CurrentNeedsLess(s: Stack)
    requires Staged(s) && s.current && s.requested
    ensures Total(Forward(s, s.cursor).modules, s.cursor) < Rank(s)
  {
    hide Forward, Evolves, Turn, Elapsed, ModuleEvolves, Stopping, Need;
    var n := s.cursor - 1;
    var before, round := Forward(s, n), Forward(s, s.cursor);
    ForwardEvolves(s, 0, n);
    ForwardEvolves(s, 0, s.cursor);
    ForwardNone(s);
    ForwardOne(s, n);
    CurrentIsAsked(s, before);
    EvolvingMeans(s, round);
    TotalMonotone(round.modules, s.modules, n);
    TurnNeedsLess(before, n);
    hide Staged, NeedsNoMore, StaysStopped;
  }

  lemma CurrentIsAsked(s: Stack, before: Stack)
    requires Staged(s) && s.current && Evolves(s, before)
    ensures 0 < s.cursor == before.cursor <= |before.modules| == |s.modules| && before.requested == s.requested
    ensures before.modules[s.cursor - 1].shutdowns > 0
    ensures Need(before.modules[s.cursor - 1]) <= Need(s.modules[s.cursor - 1])
  {
    EvolvingControl(s, before);
    EvolvesAt(s, before, s.cursor - 1);
    hide Evolves;
  }

  lemma TurnNeedsLess(s: Stack, i: nat)
    requires i < |s.modules| && s.cursor <= |s.modules| && s.requested && s.modules[i].shutdowns > 0
    ensures Need(Turn(s, i).modules[i]) == 0 || Need(Turn(s, i).modules[i]) < Need(s.modules[i])
  {
  }

  lemma ProcessNeedsLess(s: Stack)
    requires StackInvariant(s) && s.requested && !s.stopped
    ensures Rank(AfterProcess(s)) < Rank(s)
  {
    CurrentNeedsLess(s);
    ProcessLands(s);
    hide Total, Rank;
  }

  lemma EvolvingNeedsNoMore(s: Stack, t: Stack)
    requires s.cursor <= |s.modules| && Evolves(s, t)
    ensures t.cursor <= |t.modules| && Rank(t) <= Rank(s)
  {
    EvolvingMeans(s, t);
    if s.cursor > 0 {
      EvolvesAt(s, t, s.cursor - 1);
      TotalMonotone(t.modules, s.modules, s.cursor - 1);
    }
    hide Evolves, Total;
  }

  function Processes(calls: seq<Call>): nat {
    if calls == [] then 0 else (if calls[0].Process? then 1 else 0) + Processes(calls[1..])
  }

  lemma StoppedStays(s: Stack, call: Call)
    requires StackInvariant(s) && s.requested && s.stopped
    ensures After(s, call).requested && After(s, call).stopped
  {
    hide Staged, Forward, Advanced;
  }

  lemma WaitingNeedsSome(s: Stack)
    requires StackInvariant(s) && s.requested && !s.stopped
    ensures Rank(s) > 0
  {
    hide Staged;
  }

  lemma ThrownNeedsNoMore(s: Stack, i: nat)
    requires s.cursor <= |s.modules| && s.requested
    ensures After(s, Thrown(i)).requested && Rank(After(s, Thrown(i))) <= Rank(s)
  {
    hide Forward, Evolves, Rank;
    if !s.stopped && i < s.cursor {
      ForwardNone(s);
      ForwardEvolves(s, 0, i + 1);
      EvolvingNeedsNoMore(s, After(s, Thrown(i)));
    }
  }

  lemma StepTowardsStop(s: Stack, call: Call)
    requires StackInvariant(s) && s.requested && (call.Add? ==> call.m.shutdowns == 0)
    ensures var next := After(s, call);
      && StackInvariant(next) && next.requested
      && (s.stopped ==> next.stopped)
      && (!s.stopped ==> Rank(s) > 0 && Rank(next) + (if call.Process? then 1 else 0) <= Rank(s))
  {
    StepKeepsStack(s, call);
    InvariantBounds(s);
    if s.stopped {
      StoppedStays(s, call);
    } else {
      WaitingNeedsSome(s);
      hide StackInvariant, GoesOn, AfterProcess, Forward, Evolves, Stopping, Rank;
      match call
      case Add(_, _) =>
      case Process =>
        ProcessGoesOn(s);
        GoesOnRequested(s, AfterProcess(s));
        ProcessNeedsLess(s);
      case Thrown(i) => ThrownNeedsNoMore(s, i);
      case Shutdown =>
      case Outside(who) =>
        OutsideEvolves(s, who);
        EvolvingControl(s, After(s, call));
        EvolvingNeedsNoMore(s, After(s, call));
    }
  }

  lemma GoesOnRequested(s: Stack, t: Stack)
    requires GoesOn(s, t) && s.requested
    ensures t.requested
  {
  }

  lemma {:induction false} StopsWithinRank(s: Stack, calls: seq<Call>)
    requires StackInvariant(s) && s.requested && AddsNewModules(calls)
    requires s.stopped || Processes(calls) >= Rank(s)
    ensures AfterAll(s, calls).stopped
    decreases |calls|
  {
    hide StackInvariant, After, Rank;
    if calls == [] {
      if !s.stopped {
        StepTowardsStop(s, Shutdown);
      }
    } else {
      assert calls[0] in calls;
      InvariantBounds(s);
      StepTowardsStop(s, calls[0]);
      StopsWithinRank(After(s, calls[0]), calls[1..]);
    }
  }

  lemma InvariantBounds(s: Stack)
    requires StackInvariant(s)
    ensures s.cursor <= |s.modules|
  {
  }

  /**
   * If module `i` needs at most k_i process calls after its request, then any run after the shutdown request
   * with as many process calls as the sum of the k_i ends with the stack stopped, whatever else happens in it.
   */
  lemma ShutdownCompletes(s: Stack, calls: seq<Call>)
    requires StackInvariant(s) && !s.requested && AddsNewModules(calls)
    requires Processes(calls) >= Total(s.modules, |s.modules|)
    ensures AfterAll(AfterShutdown(s), calls).stopped
  {
    var started := s.(requested := true, cursor := |s.modules|);
    StepKeepsStack(s, Shutdown);
    AdvanceLands(started);
    StopsWithinRank(AfterShutdown(s), calls);
  }
}
