/** What the stop protocol keeps over every interleaving. */
module BridgeRuns {
  import opened Common
  import opened Sums
  import opened BridgeStop

  // Every step keeps the order.

  /** The agents a step does not name stay as they are. */
  ghost predicate Named(step: Step, x: nat) {
    x == step.t || ((step.Drain? || step.Launch?) && x == step.spawned)
  }

  lemma OthersStay(w: World, step: Step, next: World)
    requires Possible(w, step) && next == After(w, step)
    ensures forall x {:trigger x in next.agents} {:trigger next.agents[x]} :: !Named(step, x) ==>
      (x in next.agents <==> x in w.agents) && (x in w.agents ==> next.agents[x] == w.agents[x])
    ensures forall x {:trigger Holds(next, x)} :: !Named(step, x) ==>
      Holds(next, x) == Holds(w, x) && Taken(next, x) == Taken(w, x)
    ensures forall x {:trigger Starts(next, x)} :: !Named(step, x) ==> Starts(next, x) == Starts(w, x)
  {
    forall x | !Named(step, x)
      ensures (x in next.agents <==> x in w.agents) && (x in w.agents ==> next.agents[x] == w.agents[x])
    {
    }
  }

  lemma HolderStays(w: World, step: Step, next: World)
    requires Possible(w, step) && next == After(w, step) && StopOwned(w)
    requires w.runtime.stopping && !w.runtime.pending && forall x :: Holds(w, x) ==> !Named(step, x)
    ensures exists x :: Holds(next, x)
  {
    var h :| Holds(w, h);
    assert Holds(next, h);
  }

  lemma DebtorStays(w: World, step: Step, next: World)
    requires Possible(w, step) && next == After(w, step)
    requires exists x :: Owes(w, x) && !Named(step, x)
    ensures exists x :: Owes(next, x)
  {
    var o :| Owes(w, o) && !Named(step, o);
    assert Owes(next, o);
  }

  lemma ClaimKeepsOwner(w: World, step: Step, next: World)
    requires !w.terminated && StopOwned(w) && ThreadsHeld(w) && AgentsPlaced(w)
    requires Enabled(w, step) && step.RunClaim? && next == After(w, step)
    ensures !next.terminated && StopOwned(next) && ThreadsHeld(next) && AgentsPlaced(next)
  {
    OthersStay(w, step, next);
  }

  lemma ClaimKeepsDebt(w: World, step: Step, next: World)
    requires Orderly(w) && Enabled(w, step) && step.RunClaim? && next == After(w, step)
    ensures DrainOwed(next)
  {
    assert ServingAgents(next) == {};
  }

  lemma StartEndKeepsOwner(w: World, step: Step, next: World)
    requires !w.terminated && StopOwned(w) && ThreadsHeld(w) && AgentsPlaced(w)
    requires Enabled(w, step) && (step.RunAbort? || step.RunInstall?) && next == After(w, step)
    ensures !next.terminated && StopOwned(next) && ThreadsHeld(next) && AgentsPlaced(next)
  {
    OthersStay(w, step, next);
    if w.runtime.stopping && !w.runtime.pending {
      HolderStays(w, step, next);
    }
    forall x | x in next.agents
      ensures Placed(next.agents[x], next.threads, next.nextEpoch)
    {
      assert !Starts(w, x);
    }
  }

  lemma StartEndKeepsDebt(w: World, step: Step, next: World)
    requires Orderly(w) && Enabled(w, step) && (step.RunAbort? || step.RunInstall?) && next == After(w, step)
    ensures DrainOwed(next)
  {
    assert ServingAgents(next) == ServingAgents(w);
    if w.runtime.pending && w.runtime.active == 0 {
      DebtorStays(w, step, next);
    }
  }

  lemma BeginKeepsOwner(w: World, step: Step, next: World)
    requires !w.terminated && StopOwned(w) && ThreadsHeld(w) && AgentsPlaced(w)
    requires Enabled(w, step) && step.BeginRequest? && next == After(w, step)
    ensures !next.terminated && StopOwned(next) && ThreadsHeld(next) && AgentsPlaced(next)
  {
    OthersStay(w, step, next);
  }

  lemma BeginKeepsDebt(w: World, step: Step, next: World)
    requires Orderly(w) && Enabled(w, step) && step.BeginRequest? && next == After(w, step)
    ensures DrainOwed(next)
  {
    hide ThreadsHeld, AgentsPlaced;
    if next != w {
      assert ServingAgents(next) == ServingAgents(w) + {step.t};
    }
  }

  lemma EndKeepsOwner(w: World, step: Step, next: World)
    requires !w.terminated && StopOwned(w) && ThreadsHeld(w) && AgentsPlaced(w)
    requires Enabled(w, step) && step.EndRequest? && next == After(w, step)
    ensures !next.terminated && StopOwned(next) && ThreadsHeld(next) && AgentsPlaced(next)
  {
    OthersStay(w, step, next);
    if w.runtime.stopping && !w.runtime.pending {
      HolderStays(w, step, next);
    }
  }

  lemma EndKeepsDebt(w: World, step: Step, next: World)
    requires Orderly(w) && Enabled(w, step) && step.EndRequest? && next == After(w, step)
    ensures DrainOwed(next)
  {
    assert step.t in ServingAgents(w);
    assert ServingAgents(next) == ServingAgents(w) - {step.t};
    if DrainDue(next.runtime) {
      assert Owes(next, step.t);
    }
  }

  lemma DrainKeepsOwner(w: World, step: Step, next: World)
    requires !w.terminated && StopOwned(w) && ThreadsHeld(w) && AgentsPlaced(w)
    requires Enabled(w, step) && step.Drain? && next == After(w, step)
    ensures !next.terminated && StopOwned(next) && ThreadsHeld(next) && AgentsPlaced(next)
  {
    OthersStay(w, step, next);
    if w.runtime.stopping && !w.runtime.pending {
      HolderStays(w, step, next);
    }
    if DrainDue(w.runtime) {
      assert Holds(next, step.spawned);
    }
  }

  lemma DrainKeepsDebt(w: World, step: Step, next: World)
    requires Orderly(w) && Enabled(w, step) && step.Drain? && next == After(w, step)
    ensures DrainOwed(next)
  {
    assert ServingAgents(next) == ServingAgents(w);
    assert w.agents[step.t].activity.serving ==> step.t in ServingAgents(w);
  }

  lemma CallbackKeepsOwner(w: World, step: Step, next: World)
    requires !w.terminated && StopOwned(w) && ThreadsHeld(w) && AgentsPlaced(w)
    requires Enabled(w, step) && (step.CallbackShutdown? || step.RequestCallbackShutdown?) && next == After(w, step)
    ensures !next.terminated && StopOwned(next) && ThreadsHeld(next) && AgentsPlaced(next)
  {
    OthersStay(w, step, next);
    if w.runtime.stopping && !w.runtime.pending {
      HolderStays(w, step, next);
    }
  }

  lemma CallbackKeepsDebt(w: World, step: Step, next: World)
    requires Orderly(w) && Enabled(w, step) && (step.CallbackShutdown? || step.RequestCallbackShutdown?)
    requires next == After(w, step)
    ensures DrainOwed(next)
  {
    assert ServingAgents(next) == ServingAgents(w);
    if next != w {
      assert Owes(next, step.t);
    }
  }

  lemma StopKeepsOwner(w: World, step: Step, next: World)
    requires !w.terminated && StopOwned(w) && ThreadsHeld(w) && AgentsPlaced(w)
    requires Enabled(w, step) && (step.OutsideShutdown? || step.FailStart?) && next == After(w, step)
    ensures !next.terminated && StopOwned(next) && ThreadsHeld(next) && AgentsPlaced(next)
  {
    OthersStay(w, step, next);
    if next != w {
      assert Holds(next, step.t);
    }
  }

  lemma StopKeepsDebt(w: World, step: Step, next: World)
    requires Orderly(w) && Enabled(w, step) && (step.OutsideShutdown? || step.FailStart?) && next == After(w, step)
    ensures DrainOwed(next)
  {
    hide ThreadsHeld, AgentsPlaced;
    if next != w {
      assert ServingAgents(next) == ServingAgents(w);
    }
  }

  lemma LaunchKeepsOwner(w: World, step: Step, next: World)
    requires !w.terminated && StopOwned(w) && ThreadsHeld(w) && AgentsPlaced(w)
    requires Enabled(w, step) && step.Launch? && next == After(w, step)
    ensures !next.terminated && StopOwned(next) && ThreadsHeld(next) && AgentsPlaced(next)
  {
    OthersStay(w, step, next);
    assert Holds(w, step.t) && Holds(next, step.spawned);
  }

  lemma LaunchKeepsDebt(w: World, step: Step, next: World)
    requires Orderly(w) && Enabled(w, step) && step.Launch? && next == After(w, step)
    ensures DrainOwed(next)
  {
    assert ServingAgents(next) == ServingAgents(w);
    assert Holds(w, step.t);
  }

  lemma FinishKeepsOwner(w: World, step: Step, next: World)
    requires !w.terminated && StopOwned(w) && ThreadsHeld(w) && AgentsPlaced(w)
    requires Enabled(w, step) && step.Finish? && next == After(w, step)
    ensures !next.terminated && StopOwned(next) && ThreadsHeld(next) && AgentsPlaced(next)
  {
    OthersStay(w, step, next);
    assert Holds(w, step.t);
  }

  lemma FinishKeepsDebt(w: World, step: Step, next: World)
    requires Orderly(w) && Enabled(w, step) && step.Finish? && next == After(w, step)
    ensures DrainOwed(next)
  {
    assert ServingAgents(next) == ServingAgents(w);
    assert Holds(w, step.t);
  }

  lemma StepKeepsOrder(w: World, step: Step)
    requires Orderly(w) && Enabled(w, step)
    ensures Orderly(After(w, step))
  {
    hide StopOwned, ThreadsHeld, AgentsPlaced, DrainOwed, After, Possible;
    var next := After(w, step);
    match step
    case RunClaim(_) => ClaimKeepsOwner(w, step, next); ClaimKeepsDebt(w, step, next);
    case RunAbort(_) => StartEndKeepsOwner(w, step, next); StartEndKeepsDebt(w, step, next);
    case RunInstall(_, _, _) => StartEndKeepsOwner(w, step, next); StartEndKeepsDebt(w, step, next);
    case BeginRequest(_, _) => BeginKeepsOwner(w, step, next); BeginKeepsDebt(w, step, next);
    case EndRequest(_) => EndKeepsOwner(w, step, next); EndKeepsDebt(w, step, next);
    case Drain(_, _) => DrainKeepsOwner(w, step, next); DrainKeepsDebt(w, step, next);
    case CallbackShutdown(_, _) => CallbackKeepsOwner(w, step, next); CallbackKeepsDebt(w, step, next);
    case RequestCallbackShutdown(_) => CallbackKeepsOwner(w, step, next); CallbackKeepsDebt(w, step, next);
    case OutsideShutdown(_) => StopKeepsOwner(w, step, next); StopKeepsDebt(w, step, next);
    case FailStart(_, _) => StopKeepsOwner(w, step, next); StopKeepsDebt(w, step, next);
    case Launch(_, _) => LaunchKeepsOwner(w, step, next); LaunchKeepsDebt(w, step, next);
    case Finish(_) => FinishKeepsOwner(w, step, next); FinishKeepsDebt(w, step, next);
  }

  // Runs.

  /** An interleaving: every step is enabled when it is taken. */
  ghost predicate Interleaving(w: World, steps: seq<Step>)
    decreases |steps|
  {
    steps == [] || (Enabled(w, steps[0]) && Interleaving(After(w, steps[0]), steps[1..]))
  }

  /** The same without the assumption that only one thread at a time is inside `run`. */
  ghost predicate Execution(w: World, steps: seq<Step>)
    decreases |steps|
  {
    steps == [] || (Possible(w, steps[0]) && Execution(After(w, steps[0]), steps[1..]))
  }

  ghost function AfterAll(w: World, steps: seq<Step>): World
    decreases |steps|
  {
    if steps == [] || !Possible(w, steps[0]) then w else AfterAll(After(w, steps[0]), steps[1..])
  }

  lemma IdleIsOrderly()
    ensures Orderly(IDLE_WORLD)
  {
    assert ServingAgents(IDLE_WORLD) == {};
  }

  lemma {:induction false} RunKeepsOrder(w: World, steps: seq<Step>)
    requires Orderly(w) && Interleaving(w, steps)
    ensures Orderly(AfterAll(w, steps))
    decreases |steps|
  {
    hide Orderly, After;
    if steps != [] {
      StepKeepsOrder(w, steps[0]);
      RunKeepsOrder(After(w, steps[0]), steps[1..]);
    }
  }

  /**
   * Whenever the bridge is stopping, the stop is either pending behind the requests still served or with
   * exactly one agent that holds the handles; once it is neither running nor stopping, every thread has
   * been joined and no request is left.
   */
  lemma StopHasOneOwner(steps: seq<Step>)
    requires Interleaving(IDLE_WORLD, steps)
    ensures var w := AfterAll(IDLE_WORLD, steps); var r := w.runtime;
      && (r.stopping <==> r.pending || exists t :: Holds(w, t))
      && (r.pending ==> forall t :: !Holds(w, t))
      && (forall s, t :: Holds(w, s) && Holds(w, t) ==> s == t)
      && r.active == |ServingAgents(w)|
      && (r.pending && r.active == 0 ==> exists t :: Owes(w, t))
      && (!r.stopping && !r.running ==> w.threads == {} && ServingAgents(w) == {} && r.handles == NO_HANDLES)
  {
    IdleIsOrderly();
    RunKeepsOrder(IDLE_WORLD, steps);
    var w := AfterAll(IDLE_WORLD, steps);
    if !w.runtime.stopping && !w.runtime.running {
      NothingLeftBehind(w);
    }
  }

  lemma NothingLeftBehind(w: World)
    requires Orderly(w) && !w.runtime.stopping && !w.runtime.running
    ensures w.threads == {} && ServingAgents(w) == {} && w.runtime.handles == NO_HANDLES
  {
  }

  // Hand-over: a thread leaves the state once, into the hands of one agent.

  /** The handle of this thread is in the state, or may still come there. */
  ghost predicate Available(w: World, h: Host) {
    || h in Joined(w.runtime.handles)
    || (!h.Elsewhere? && h.epoch >= w.nextEpoch)
    || exists t :: Starts(w, t) && h in StartedThreads(w.agents[t].activity.epoch, true, true)
  }

  ghost predicate HandsOver(w: World, step: Step, h: Host)
    requires Possible(w, step)
  {
    h in Joined(w.runtime.handles) && h !in Joined(After(w, step).runtime.handles)
  }

  ghost function HandOvers(w: World, steps: seq<Step>, h: Host): nat
    requires Interleaving(w, steps)
    decreases |steps|
  {
    if steps == [] then 0
    else (if HandsOver(w, steps[0], h) then 1 else 0) + HandOvers(After(w, steps[0]), steps[1..], h)
  }

  lemma HandOverIsTaken(w: World, step: Step, h: Host)
    requires Orderly(w) && Enabled(w, step) && HandsOver(w, step, h)
    ensures var next := After(w, step); exists t :: Holds(next, t) && Taken(next, t) == w.runtime.handles
  {
    hide AgentsPlaced, DrainOwed, ThreadsHeld;
    NobodyStarts(w, h);
    var next := After(w, step);
    if step.Drain? {
      assert Holds(next, step.spawned);
    } else {
      assert Holds(next, step.t);
    }
  }

  lemma NothingBecomesAvailable(w: World, step: Step, h: Host)
    requires Enabled(w, step)
    ensures Available(After(w, step), h) ==> Available(w, h)
  {
    var next := After(w, step);
    if t :| Starts(next, t) && h in StartedThreads(next.agents[t].activity.epoch, true, true) {
      assert (step.RunClaim? && t == step.t) || Starts(w, t);
    }
    if step.RunInstall? && h in Joined(next.runtime.handles) && next.runtime.running {
      assert Starts(w, step.t);
    }
  }

  lemma HandedIsSpent(w: World, step: Step, h: Host)
    requires Orderly(w) && Enabled(w, step) && HandsOver(w, step, h)
    ensures Available(w, h) && !Available(After(w, step), h)
  {
    hide AgentsPlaced, DrainOwed;
    var next := After(w, step);
    NobodyStarts(w, h);
    assert h in w.threads;
    assert step.Drain? || step.OutsideShutdown? || step.FailStart?;
    forall t
      ensures !Starts(next, t)
    {
      assert !Starts(w, t);
    }
  }

  lemma NobodyStarts(w: World, h: Host)
    requires Orderly(w) && h in Joined(w.runtime.handles)
    ensures h in w.threads && forall t :: !Starts(w, t)
  {
  }

  lemma {:induction false} HandedOverOnce(w: World, steps: seq<Step>, h: Host)
    requires Orderly(w) && Interleaving(w, steps)
    ensures HandOvers(w, steps, h) <= if Available(w, h) then 1 else 0
    decreases |steps|
  {
    hide Orderly, After, Available;
    if steps != [] {
      StepKeepsOrder(w, steps[0]);
      NothingBecomesAvailable(w, steps[0], h);
      HandedOverOnce(After(w, steps[0]), steps[1..], h);
      if HandsOver(w, steps[0], h) {
        HandedIsSpent(w, steps[0], h);
      }
    }
  }

  // Progress: a stop that has begun is never lost.

  predicate Productive(step: Step) {
    step.EndRequest? || step.Drain? || step.Launch? || step.Finish?
  }

  function Weight(a: Agent): int {
    match a.activity
    case Starting(_) => 0
    case Serving => 2
    case OwesDrain(serving) => if serving then 3 else 1
    case Launching(_) => 2
    case Finalizing(_, _) => 1
  }

  function Weights(agents: map<nat, Agent>): map<nat, int> {
    map t | t in agents :: Weight(agents[t])
  }

  /** How many productive steps the stop can still take. */
  ghost function Rank(w: World): int {
    Sum(Weights(w.agents)) + if w.runtime.pending then 1 else 0
  }

  lemma PutWeight(agents: map<nat, Agent>, t: nat, a: Agent)
    ensures Sum(Weights(agents[t := a])) ==
            Sum(Weights(agents)) - (if t in agents then Weight(agents[t]) else 0) + Weight(a)
  {
    assert Weights(agents[t := a]) == Weights(agents)[t := Weight(a)];
    SumStore(Weights(agents), t, Weight(a));
  }

  lemma DropWeight(agents: map<nat, Agent>, t: nat)
    requires t in agents
    ensures Sum(Weights(agents - {t})) == Sum(Weights(agents)) - Weight(agents[t])
  {
    assert Weights(agents - {t}) == Weights(agents) - {t};
    SumTake(Weights(agents), t);
  }

  lemma UnusedId(agents: map<nat, Agent>) returns (id: nat)
    ensures id !in agents
  {
    id := UnusedIdIn(agents.Keys);
  }

  lemma {:induction false} UnusedIdIn(used: set<nat>) returns (id: nat)
    ensures forall x :: x in used ==> x < id
  {
    id := 0;
    if used != {} {
      var x :| x in used;
      id := UnusedIdIn(used - {x});
      if id <= x {
        id := x + 1;
      }
      assert forall y :: y in used ==> y == x || y in used - {x};
    }
  }

  /** While the bridge is stopping, some thread that still has to act is able to. */
  lemma SomebodyCanGoOn(w: World) returns (step: Step)
    requires Orderly(w) && w.runtime.stopping
    ensures Productive(step) && Enabled(w, step)
  {
    var id := UnusedId(w.agents);
    if w.runtime.pending {
      if w.runtime.active == 0 {
        var t :| Owes(w, t);
        step := Drain(t, id);
      } else {
        assert ServingAgents(w) != {};
        var t :| t in ServingAgents(w);
        step := if w.agents[t].activity.Serving? then EndRequest(t) else Drain(t, id);
      }
    } else {
      var t :| Holds(w, t);
      if w.agents[t].activity.Launching? {
        step := Launch(t, id);
      } else if JoinsReturn(w, w.agents[t].activity.taken) {
        step := Finish(t);
      } else {
        var x :| x in w.agents && !w.agents[x].host.Elsewhere?;
        assert x != t && !Holds(w, x) && !Starts(w, x);
        step := if w.agents[x].activity.Serving? then EndRequest(x) else Drain(x, id);
      }
    }
  }

  lemma StepLowersRank(w: World, step: Step)
    requires Orderly(w) && Enabled(w, step) && w.runtime.stopping
    ensures Rank(After(w, step)) <= Rank(w) - if Productive(step) then 1 else 0
  {
    hide ThreadsHeld, AgentsPlaced, DrainOwed, JoinsReturn;
    var t := step.t;
    match step
    case RunClaim(_) =>
    case RunAbort(_) => DropWeight(w.agents, t);
    case RunInstall(_, _, _) => DropWeight(w.agents, t);
    case BeginRequest(_, _) =>
    case EndRequest(_) => RequestEndLowersRank(w, step);
    case Drain(_, _) => DrainLowersRank(w, step);
    case CallbackShutdown(_, _) =>
    case RequestCallbackShutdown(_) =>
    case OutsideShutdown(_) =>
    case FailStart(_, _) =>
    case Launch(_, spawned) =>
      DropWeight(w.agents, t);
      PutWeight(w.agents - {t}, spawned, Agent(Elsewhere, Finalizing(w.agents[t].activity.taken, true)));
    case Finish(_) => DropWeight(w.agents, t);
  }

  lemma RequestEndLowersRank(w: World, step: Step)
    requires step.EndRequest? && Enabled(w, step)
    ensures Rank(After(w, step)) < Rank(w)
  {
    var t := step.t;
    DropWeight(w.agents, t);
    PutWeight(w.agents, t, w.agents[t].(activity := OwesDrain(false)));
  }

  lemma DrainLowersRank(w: World, step: Step)
    requires step.Drain? && Enabled(w, step)
    ensures Rank(After(w, step)) < Rank(w)
  {
    var t := step.t;
    var agents := w.agents;
    var back := agents[t].(activity := Serving);
    var finalizer := Agent(Elsewhere, Finalizing(w.runtime.handles, true));
    DropWeight(agents, t);
    PutWeight(agents, t, back);
    PutWeight(agents[t := back], step.spawned, finalizer);
    PutWeight(agents - {t}, step.spawned, finalizer);
  }

  /** The bridge is stopping before every step and at the end. */
  ghost predicate StopsThroughout(w: World, steps: seq<Step>)
    requires Interleaving(w, steps)
    decreases |steps|
  {
    w.runtime.stopping && (steps == [] || StopsThroughout(After(w, steps[0]), steps[1..]))
  }

  function Productives(steps: seq<Step>): nat {
    if steps == [] then 0 else (if Productive(steps[0]) then 1 else 0) + Productives(steps[1..])
  }

  /**
   * As long as the bridge is stopping, nobody is admitted, some thread can take a productive step, and only
   * as many of those as the rank says fit before the stop completes.
   */
  lemma {:induction false} StopIsNeverLost(w: World, steps: seq<Step>)
    requires Orderly(w) && Interleaving(w, steps) && StopsThroughout(w, steps)
    ensures var last := AfterAll(w, steps);
      && ServingAgents(last) <= ServingAgents(w)
      && Productives(steps) + Rank(last) <= Rank(w)
      && Rank(last) > 0
      && exists step :: Productive(step) && Enabled(last, step)
    decreases |steps|
  {
    hide Orderly, After, Possible, ServingAgents, Rank;
    if steps == [] {
      var step := SomebodyCanGoOn(w);
      RankIsPositive(w, step);
    } else {
      StepKeepsOrder(w, steps[0]);
      StepLowersRank(w, steps[0]);
      StoppingAdmitsNobody(w, steps[0]);
      StopIsNeverLost(After(w, steps[0]), steps[1..]);
    }
  }

  lemma RankIsPositive(w: World, step: Step)
    requires Orderly(w) && w.runtime.stopping && Productive(step) && Enabled(w, step)
    ensures Rank(w) > 0
  {
    StepLowersRank(w, step);
    SumNonNegative(Weights(After(w, step).agents));
  }

  lemma StoppingAdmitsNobody(w: World, step: Step)
    requires Possible(w, step) && w.runtime.stopping
    ensures ServingAgents(After(w, step)) <= ServingAgents(w)
  {
  }

  // The assumption that only one thread at a time calls `run` is needed.

  /** Somebody can stop the server that this HTTP thread runs. */
  ghost predicate ServerHeld(w: World, epoch: nat) {
    w.runtime.handles.server == Some(epoch) || exists t :: Holds(w, t) && Taken(w, t).server == Some(epoch)
  }

  /** Somebody can join this thread. */
  ghost predicate ThreadHeld(w: World, h: Host) {
    h in Joined(w.runtime.handles) || exists t :: Holds(w, t) && h in Joined(Taken(w, t))
  }

  /** An HTTP thread serves for ever: the only handle that could stop its server is gone. */
  ghost predicate ServerLost(w: World, epoch: nat) {
    HttpThread(epoch) in w.threads && !ServerHeld(w, epoch)
  }

  /** The process was terminated, or a server can never be stopped. */
  ghost predicate Failed(w: World) {
    w.terminated || exists epoch :: ServerLost(w, epoch)
  }

  lemma OrderlyFailsNowhere(w: World)
    requires Orderly(w)
    ensures !Failed(w) && forall h :: h in w.threads ==> ThreadHeld(w, h)
  {
    if w.runtime.stopping && !w.runtime.pending {
      var t :| Holds(w, t);
      assert Taken(w, t).server == Taken(w, t).httpThread;
    }
  }

  /**
   * With one thread at a time in `run` the process is never terminated and every live thread, and the server
   * it runs, is in somebody's hands, over every run.
   */
  lemma NothingIsLost(steps: seq<Step>)
    requires Interleaving(IDLE_WORLD, steps)
    ensures var w := AfterAll(IDLE_WORLD, steps); !Failed(w) && forall h :: h in w.threads ==> ThreadHeld(w, h)
  {
    IdleIsOrderly();
    RunKeepsOrder(IDLE_WORLD, steps);
    OrderlyFailsNowhere(AfterAll(IDLE_WORLD, steps));
  }

  lemma TwoSteps(w: World, first: Step, second: Step)
    requires Enabled(w, first) && Enabled(After(w, first), second)
    ensures Interleaving(w, [first, second])
    ensures AfterAll(w, [first, second]) == After(After(w, first), second)
  {
    var one, two := After(w, first), After(After(w, first), second);
    assert [second][1..] == [] && [first, second][1..] == [second];
    assert Interleaving(two, []) && Interleaving(one, [second]);
    assert AfterAll(two, []) == two && AfterAll(one, [second]) == two;
  }

  /** A second claim between the two blocks of a first `run`: both install HTTP, and the process terminates. */
  lemma SecondRunnerTerminates(w: World, a: nat, b: nat)
    requires Orderly(w) && Starts(w, a) && Possible(w, RunClaim(b))
    ensures var steps := [RunInstall(b, true, false), RunInstall(a, true, false)];
      && Interleaving(After(w, RunClaim(b)), steps)
      && AfterAll(After(w, RunClaim(b)), steps).terminated
  {
    var claimed := After(w, RunClaim(b));
    assert Starts(claimed, b) && Starts(claimed, a);
    var first := After(claimed, RunInstall(b, true, false));
    assert Starts(first, a);
    TwoSteps(claimed, RunInstall(b, true, false), RunInstall(a, true, false));
  }

  /** The same when the first `run` has only the file transport: the second one's server is lost. */
  lemma SecondRunnerLosesServer(w: World, a: nat, b: nat)
    requires Orderly(w) && Starts(w, a) && Possible(w, RunClaim(b))
    ensures var steps := [RunInstall(b, true, false), RunInstall(a, false, true)];
      && Interleaving(After(w, RunClaim(b)), steps)
      && ServerLost(AfterAll(After(w, RunClaim(b)), steps), w.nextEpoch)
  {
    var claimed := After(w, RunClaim(b));
    assert Starts(claimed, b) && Starts(claimed, a);
    var first := After(claimed, RunInstall(b, true, false));
    assert Starts(first, a);
    var second := After(first, RunInstall(a, false, true));
    TwoSteps(claimed, RunInstall(b, true, false), RunInstall(a, false, true));
    forall t | Holds(second, t)
      ensures false
    {
      assert Holds(w, t);
    }
  }

  /**
   * The exact condition: after this claim a failure can follow, with every later claim made alone, if and
   * only if another thread is between the two blocks of `run` when the claim is made.
   */
  lemma ClaimCanFailExactlyWhen(w: World, b: nat)
    requires Orderly(w) && Possible(w, RunClaim(b))
    ensures (exists steps :: Interleaving(After(w, RunClaim(b)), steps)
                             && Failed(AfterAll(After(w, RunClaim(b)), steps)))
            <==> exists a :: Starts(w, a)
  {
    var claimed := After(w, RunClaim(b));
    if a :| Starts(w, a) {
      SecondRunnerTerminates(w, a, b);
      assert Interleaving(claimed, [RunInstall(b, true, false), RunInstall(a, true, false)]);
    } else {
      StepKeepsOrder(w, RunClaim(b));
      forall steps | Interleaving(claimed, steps)
        ensures !Failed(AfterAll(claimed, steps))
      {
        RunKeepsOrder(claimed, steps);
        OrderlyFailsNowhere(AfterAll(claimed, steps));
      }
    }
  }

  lemma {:induction false} ExecutionOf(w: World, steps: seq<Step>, more: seq<Step>)
    requires Interleaving(w, steps) && Execution(AfterAll(w, steps), more)
    ensures Execution(w, steps + more)
    ensures AfterAll(w, steps + more) == AfterAll(AfterAll(w, steps), more)
    decreases |steps|
  {
    if steps == [] {
      assert steps + more == more;
    } else {
      assert (steps + more)[1..] == steps[1..] + more;
      ExecutionOf(After(w, steps[0]), steps[1..], more);
    }
  }

  /** Such a moment is reachable: a stop from outside completes while the first `run` prepares. */
  lemma SecondRunnerIsReachable()
    ensures var steps := [RunClaim(0), OutsideShutdown(1), Finish(1)];
      && Interleaving(IDLE_WORLD, steps)
      && Starts(AfterAll(IDLE_WORLD, steps), 0)
      && Possible(AfterAll(IDLE_WORLD, steps), RunClaim(2))
  {
    var claimed := After(IDLE_WORLD, RunClaim(0));
    var stopped := After(claimed, OutsideShutdown(1));
    var finished := After(stopped, Finish(1));
    assert Interleaving(finished, []);
    assert [Finish(1)][1..] == [];
    assert Interleaving(stopped, [Finish(1)]);
    assert [OutsideShutdown(1), Finish(1)][1..] == [Finish(1)];
    assert Interleaving(claimed, [OutsideShutdown(1), Finish(1)]);
    assert [RunClaim(0), OutsideShutdown(1), Finish(1)][1..] == [OutsideShutdown(1), Finish(1)];
  }

  /** The whole failing run, from the idle bridge to the terminated process. */
  lemma TwoRunnersTerminate()
    ensures var steps := [RunClaim(0), OutsideShutdown(1), Finish(1)]
                         + [RunClaim(2), RunInstall(2, true, false), RunInstall(0, true, false)];
      Execution(IDLE_WORLD, steps) && AfterAll(IDLE_WORLD, steps).terminated
  {
    var steps := [RunClaim(0), OutsideShutdown(1), Finish(1)];
    var installs := [RunInstall(2, true, false), RunInstall(0, true, false)];
    var w := AfterAll(IDLE_WORLD, steps);
    SecondRunnerIsReachable();
    IdleIsOrderly();
    RunKeepsOrder(IDLE_WORLD, steps);
    SecondRunnerTerminates(w, 0, 2);
    var claimed := After(w, RunClaim(2));
    InterleavingExecutes(claimed, installs);
    assert ([RunClaim(2)] + installs)[1..] == installs;
    assert [RunClaim(2)] + installs == [RunClaim(2), RunInstall(2, true, false), RunInstall(0, true, false)];
    ExecutionOf(IDLE_WORLD, steps, [RunClaim(2)] + installs);
  }

  lemma {:induction false} InterleavingExecutes(w: World, steps: seq<Step>)
    requires Interleaving(w, steps)
    ensures Execution(w, steps)
    decreases |steps|
  {
    if steps != [] {
      InterleavingExecutes(After(w, steps[0]), steps[1..]);
    }
  }
}
