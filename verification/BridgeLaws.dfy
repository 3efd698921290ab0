/** What each step of the stop protocol does, said of flags, agents and threads. */
module BridgeLaws {
  import opened Common
  import opened BridgeStop
  import opened BridgeRuns

  /** Something runs or is still to be joined, and nobody is stopping it yet. */
  predicate CanBeStopped(r: Runtime) {
    && !r.stopping
    && (r.running || r.handles.server.Some? || r.handles.httpThread.Some? || r.handles.fileThread.Some?)
  }

  predicate AsksToStop(step: Step) {
    step.CallbackShutdown? || step.RequestCallbackShutdown? || step.OutsideShutdown? || step.FailStart?
  }

  /**
   * Every request to stop a bridge that can be stopped starts the stop, in every world, orderly or not, and
   * whatever is being served: nothing runs any more, nobody new is admitted, every thread is still there.
   */
  lemma StopRequestTakesEffect(w: World, step: Step)
    requires Possible(w, step) && AsksToStop(step) && CanBeStopped(w.runtime)
    ensures
      var next := After(w, step);
      && next.runtime.stopping && !next.runtime.running && next.runtime.stopRequested
      && next.runtime.active == w.runtime.active
      && next.threads == w.threads && !next.terminated && next.nextEpoch == w.nextEpoch
      && next.agents.Keys == w.agents.Keys + {step.t}
      && forall x :: x in w.agents && x != step.t ==> next.agents[x] == w.agents[x]
  {
  }

  /** Inside a callback the stop stays pending, the caller owes the drain and the handles stay in the state. */
  lemma CallbackStopIsPending(w: World, step: Step)
    requires Possible(w, step) && (step.CallbackShutdown? || step.RequestCallbackShutdown?) && CanBeStopped(w.runtime)
    ensures
      var next := After(w, step);
      && next.runtime.pending && next.runtime.handles == w.runtime.handles
      && Owes(next, step.t) && ServingAgents(next) == ServingAgents(w)
      && (next.agents[step.t].activity.serving <==> step.RequestCallbackShutdown?)
      && next.agents[step.t].host == if step.CallbackShutdown? then step.host else w.agents[step.t].host
  {
  }

  /** Elsewhere the caller takes the handles out of the state and stops what it has taken. */
  lemma OutsideStopTakesHandles(w: World, step: Step)
    requires Possible(w, step) && (step.OutsideShutdown? || step.FailStart?) && CanBeStopped(w.runtime)
    ensures
      var next := After(w, step);
      && next.runtime.handles == Handles(None, None, None)
      && Holds(next, step.t) && Taken(next, step.t) == w.runtime.handles
      && (step.OutsideShutdown? ==> !next.runtime.pending
                                    && next.agents[step.t].activity.Finalizing? && next.agents[step.t].host.Elsewhere?
                                    && !next.agents[step.t].activity.clearsPending)
      && (step.FailStart? ==> next.runtime.pending == w.runtime.pending
                              && next.agents[step.t].activity.Launching?
                              && next.agents[step.t].host == HttpThread(step.epoch))
  {
  }

  /** There is nothing else that a request to stop could do: a second one, or one on an idle bridge, is dropped. */
  lemma NothingToStop(w: World, step: Step)
    requires Possible(w, step) && AsksToStop(step) && !CanBeStopped(w.runtime)
    ensures After(w, step) == w
  {
  }

  /** In an orderly world the bridge can be stopped exactly while it runs. */
  lemma CanBeStoppedExactlyWhen(w: World)
    requires Orderly(w)
    ensures CanBeStopped(w.runtime) <==> w.runtime.running
    ensures w.threads != {} ==> w.runtime.running || w.runtime.stopping
  {
    if w.runtime.stopping && !w.runtime.pending {
      var t :| Holds(w, t);
    }
  }

  /**
   * Any request to stop a running bridge is carried through: in whatever way the threads go on, nobody is
   * admitted, somebody can act, and only a bounded number of such acts fit before the stop completes.
   */
  lemma RequestedStopIsCarriedThrough(w: World, step: Step, later: seq<Step>)
    requires Orderly(w) && w.runtime.running && Enabled(w, step) && AsksToStop(step)
    requires Interleaving(After(w, step), later)
    requires StopsThroughout(After(w, step), later)
    ensures
      var last := AfterAll(After(w, step), later);
      && ServingAgents(last) <= ServingAgents(After(w, step))
      && Productives(later) < Rank(After(w, step))
      && exists next :: Productive(next) && Enabled(last, next)
  {
    StepKeepsOrder(w, step);
    StopRequestTakesEffect(w, step);
    StopIsNeverLost(After(w, step), later);
    hide Orderly, ServingAgents, Rank;
  }

  /** A request is admitted exactly while the bridge runs, beside any number of others. */
  lemma RequestAdmittedExactlyWhen(w: World, t: nat, epoch: nat)
    requires Orderly(w) && Enabled(w, BeginRequest(t, epoch))
    ensures
      var next := After(w, BeginRequest(t, epoch));
      if w.runtime.running then
        && next == w.(runtime := w.runtime.(active := w.runtime.active + 1),
                      agents := w.agents[t := Agent(Request(epoch), Serving)])
        && ServingAgents(next) == ServingAgents(w) + {t} && t !in ServingAgents(w)
      else next == w
  {
    assert w.threads != {};
    OpenExactlyWhenRunning(w);
    hide Orderly, ServingAgents;
    if w.runtime.running {
      OneMoreServes(w, t, epoch, After(w, BeginRequest(t, epoch)));
    }
  }

  lemma OpenExactlyWhenRunning(w: World)
    requires Orderly(w) && w.threads != {}
    ensures w.runtime.running <==> !w.runtime.stopping && !w.runtime.stopRequested
  {
    CanBeStoppedExactlyWhen(w);
    hide ThreadsHeld, AgentsPlaced, DrainOwed;
  }

  lemma OneMoreServes(w: World, t: nat, epoch: nat, next: World)
    requires t !in w.agents && next.agents == w.agents[t := Agent(Request(epoch), Serving)]
    ensures ServingAgents(next) == ServingAgents(w) + {t} && t !in ServingAgents(w)
  {
  }

  /** A request that ends leaves, except for the last one under a pending stop: that one owes the drain. */
  lemma RequestEnds(w: World, t: nat)
    requires Orderly(w) && Enabled(w, EndRequest(t))
    ensures
      var next := After(w, EndRequest(t));
      && ServingAgents(next) == ServingAgents(w) - {t} && t in ServingAgents(w)
      && next.runtime == w.runtime.(active := w.runtime.active - 1)
      && next.threads == w.threads && !next.terminated && next.nextEpoch == w.nextEpoch
      && (if w.runtime.pending && ServingAgents(w) == {t} then
            next.agents == w.agents[t := Agent(w.agents[t].host, OwesDrain(false))]
          else next.agents == w.agents - {t})
  {
    OneLessServes(w, t);
    hide ThreadsHeld, AgentsPlaced, StopOwned, ServingAgents;
    LastOne(ServingAgents(w), t);
  }

  lemma OneLessServes(w: World, t: nat)
    requires Possible(w, EndRequest(t))
    ensures ServingAgents(After(w, EndRequest(t))) == ServingAgents(w) - {t} && t in ServingAgents(w)
  {
  }

  lemma LastOne(s: set<nat>, t: nat)
    requires t in s
    ensures |s| > 0 && (|s| == 1 <==> s == {t})
  {
    assert s == {t} + (s - {t});
  }

  /** A drain takes the handles exactly if a stop is pending and nobody is served any more. */
  lemma DrainTakesExactlyWhen(w: World, t: nat, spawned: nat)
    requires Orderly(w) && Enabled(w, Drain(t, spawned))
    ensures
      var next := After(w, Drain(t, spawned));
      if w.runtime.pending && ServingAgents(w) == {} then
        && next.runtime == Runtime(false, true, true, false, 0, Handles(None, None, None))
        && next.agents == w.agents[spawned := Agent(Elsewhere, Finalizing(w.runtime.handles, true))] - {t}
      else
        && next.runtime == w.runtime && next.agents.Keys <= w.agents.Keys
  {
    NobodyServed(w);
    DebtorServes(w, t);
    hide ThreadsHeld, AgentsPlaced, DrainOwed, ServingAgents;
  }

  lemma NobodyServed(w: World)
    requires DrainOwed(w)
    ensures w.runtime.active == 0 <==> ServingAgents(w) == {}
  {
    hide ServingAgents;
  }

  lemma DebtorServes(w: World, t: nat)
    requires Owes(w, t)
    ensures w.agents[t].activity.serving <==> t in ServingAgents(w)
  {
  }

  /** Whatever the drain does, the debtor goes back to its request or leaves, and the others stay. */
  lemma DrainPaysDebt(w: World, t: nat, spawned: nat)
    requires Possible(w, Drain(t, spawned))
    ensures
      var next := After(w, Drain(t, spawned));
      && next.threads == w.threads && !next.terminated && next.nextEpoch == w.nextEpoch
      && next.runtime.active == w.runtime.active
      && (t in next.agents <==> t in ServingAgents(w))
      && (t in next.agents ==> next.agents[t] == Agent(w.agents[t].host, Serving))
      && (forall x :: x in w.agents && x != t ==> x in next.agents && next.agents[x] == w.agents[x])
  {
  }

  /** No state of the flags keeps anybody from asking: threads, requests and outsiders may do so at any time. */
  lemma AskingIsAlwaysPossible(w: World, t: nat, epoch: nat)
    requires !w.terminated
    ensures t !in w.agents ==> Possible(w, OutsideShutdown(t)) && Possible(w, CallbackShutdown(t, Elsewhere))
    ensures t !in w.agents && HttpThread(epoch) in w.threads ==>
      && Possible(w, BeginRequest(t, epoch)) && Possible(w, FailStart(t, epoch))
      && Possible(w, CallbackShutdown(t, HttpThread(epoch)))
    ensures t !in w.agents && FileThread(epoch) in w.threads ==> Possible(w, CallbackShutdown(t, FileThread(epoch)))
    ensures t in w.agents && w.agents[t].activity == Serving ==>
      Possible(w, EndRequest(t)) && Possible(w, RequestCallbackShutdown(t))
  {
  }

  /** The handles pass from the failed start to the thread it spawns. */
  lemma LaunchPassesHandles(w: World, t: nat, spawned: nat)
    requires Possible(w, Launch(t, spawned))
    ensures
      var next := After(w, Launch(t, spawned));
      && Holds(w, t) && t !in next.agents && next.runtime == w.runtime && next.threads == w.threads
      && next.agents.Keys == w.agents.Keys - {t} + {spawned}
      && next.agents[spawned] == Agent(Elsewhere, Finalizing(Taken(w, t), true))
      && (forall x :: x in w.agents && x != t ==> x in next.agents && next.agents[x] == w.agents[x])
      && !next.terminated && next.nextEpoch == w.nextEpoch
  {
  }

  /** When the holder is done nothing is left: no thread, no flag, no handle, and the bridge can run again. */
  lemma FinishLeavesNothing(w: World, t: nat)
    requires Orderly(w) && Enabled(w, Finish(t))
    ensures
      var next := After(w, Finish(t));
      && next.threads == {} && next.agents == w.agents - {t}
      && next.runtime == Runtime(false, false, false, false, w.runtime.active, Handles(None, None, None))
      && !next.terminated && next.nextEpoch == w.nextEpoch
  {
    assert Holds(w, t);
    hide DrainOwed, AgentsPlaced;
  }

  /** A run is claimed over an idle bridge, with every flag and the counter reset. */
  lemma ClaimStarts(w: World, t: nat)
    requires Orderly(w) && Enabled(w, RunClaim(t))
    ensures
      var next := After(w, RunClaim(t));
      && next.runtime == Runtime(true, false, false, false, 0, Handles(None, None, None))
      && next.agents == w.agents[t := Agent(Elsewhere, Starting(w.nextEpoch))]
      && next.threads == w.threads == {} && next.nextEpoch == w.nextEpoch + 1 && !next.terminated
  {
  }

  /** The claimed run installs what it was configured with, unless it was stopped in between. */
  lemma InstallStartsThreads(w: World, t: nat, http: bool, file: bool)
    requires Orderly(w) && Enabled(w, RunInstall(t, http, file))
    ensures
      var next := After(w, RunInstall(t, http, file));
      var epoch := w.agents[t].activity.epoch;
      && next.agents == w.agents - {t} && !next.terminated && next.nextEpoch == w.nextEpoch
      && if w.runtime.running then
           && next.runtime == w.runtime.(handles := next.runtime.handles)
           && (if http then next.runtime.handles.server == next.runtime.handles.httpThread == Some(epoch)
               else next.runtime.handles.server == next.runtime.handles.httpThread == None)
           && next.runtime.handles.fileThread == (if file then Some(epoch) else None)
           && forall h :: h in next.threads <==> (http && h == HttpThread(epoch)) || (file && h == FileThread(epoch))
         else next.runtime == w.runtime && next.threads == w.threads
  {
  }

  /** An install ends the process exactly if it would assign over a thread that is still to be joined. */
  lemma InstallTerminatesExactlyWhen(w: World, t: nat, http: bool, file: bool)
    requires Possible(w, RunInstall(t, http, file))
    ensures After(w, RunInstall(t, http, file)).terminated <==>
      && w.runtime.running
      && ((http && w.runtime.handles.httpThread.Some?) || (file && w.runtime.handles.fileThread.Some?))
  {
  }

  /** In any world the holder's last block ends the stop; the outside one does not touch the pending flag. */
  lemma FinishEndsStop(w: World, t: nat)
    requires Possible(w, Finish(t))
    ensures
      var next := After(w, Finish(t));
      && !next.runtime.stopping && !next.runtime.stopRequested
      && next.runtime.pending == (w.runtime.pending && !w.agents[t].activity.clearsPending)
      && next.runtime.running == w.runtime.running && next.runtime.handles == w.runtime.handles
      && forall h :: h in next.threads <==>
           h in w.threads && (h.HttpThread? ==> Taken(w, t).httpThread != Some(h.epoch))
           && (h.FileThread? ==> Taken(w, t).fileThread != Some(h.epoch))
  {
  }

  /** A run that cannot start gives the bridge back. */
  lemma AbortGivesBack(w: World, t: nat)
    requires Possible(w, RunAbort(t))
    ensures
      var next := After(w, RunAbort(t));
      && !next.runtime.running && next.runtime.stopRequested
      && next.runtime == w.runtime.(running := false, stopRequested := true)
      && next.agents == w.agents - {t} && next.threads == w.threads && !next.terminated
      && next.nextEpoch == w.nextEpoch
  {
  }
}
