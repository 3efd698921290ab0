/**
 * The stop protocol of the BotBinary bridge: every lock-protected block is one atomic step, and the
 * threads between two blocks are agents that remember what they still owe.
 */
module BridgeStop {
  import opened Common
  import opened Dedupe

  /** The transports started together by one `run`, named by its epoch; a transport may be disabled. */
  datatype Handles = Handles(server: Option<nat>, httpThread: Option<nat>, fileThread: Option<nat>)

  const NO_HANDLES := Handles(None, None, None)

  /** The flags, counter and handles guarded by the runtime mutex. */
  datatype Runtime = Runtime(
    running: bool, stopping: bool, stopRequested: bool, pending: bool, active: nat, handles: Handles)

  /** There is something to stop. */
  predicate Started(r: Runtime) {
    r.running || r.handles != NO_HANDLES
  }

  // The lock-protected blocks.

  function ClaimedForRun(r: Runtime): Runtime {
    r.(running := true, stopRequested := false, pending := false, active := 0)
  }

  /** A thread handle that still names a thread cannot be assigned over: the process terminates. */
  predicate Collides(h: Handles, http: bool, file: bool) {
    (http && h.httpThread.Some?) || (file && h.fileThread.Some?)
  }

  /** The server is replaced in any case, a thread only by a new one. */
  function InstalledOver(h: Handles, epoch: nat, http: bool, file: bool): Handles {
    Handles(if http then Some(epoch) else None,
            if http then Some(epoch) else h.httpThread,
            if file then Some(epoch) else h.fileThread)
  }

  datatype InstallOutcome = NotRunning | Installed | Terminated

  function StartAborted(r: Runtime): Runtime {
    r.(running := false, stopRequested := true)
  }

  function Admitted(r: Runtime): Runtime {
    if r.stopping || r.stopRequested then r else r.(active := r.active + 1)
  }

  function Released(r: Runtime): Runtime {
    if r.active > 0 then r.(active := r.active - 1) else r
  }

  predicate DrainDue(r: Runtime) {
    r.active == 0 && r.pending
  }

  function Drained(r: Runtime): Runtime {
    if r.pending && r.active == 0 && r.stopping then r.(pending := false, handles := NO_HANDLES) else r
  }

  function StoppedLater(r: Runtime): Runtime {
    if r.stopping || !Started(r) then r
    else r.(stopping := true, running := false, stopRequested := true, pending := true)
  }

  function StoppedNow(r: Runtime): Runtime {
    if r.stopping || !Started(r) then r
    else r.(stopping := true, running := false, stopRequested := true, pending := false, handles := NO_HANDLES)
  }

  function StartFailed(r: Runtime): Runtime {
    if r.stopping || !Started(r) then r
    else r.(stopping := true, running := false, stopRequested := true, handles := NO_HANDLES)
  }

  function Finalized(r: Runtime, clearsPending: bool): Runtime {
    r.(stopping := false, stopRequested := false, pending := if clearsPending then false else r.pending)
  }

  /** The guarded state itself; each method is the body of one lock scope. */
  class RuntimeState {
    var running: bool
    var stopping: bool
    var stopRequested: bool
    var pendingCallbackShutdown: bool
    var activeHttpRequests: nat
    var handles: Handles
    const dedupe: DedupeCache
    const seenFiles: DedupeCache

    ghost function State(): Runtime
      reads this
    {
      Runtime(running, stopping, stopRequested, pendingCallbackShutdown, activeHttpRequests, handles)
    }

    constructor ()
      ensures State() == Runtime(false, false, false, false, 0, NO_HANDLES)
      ensures fresh(dedupe) && fresh(seenFiles) && dedupe != seenFiles
      ensures dedupe.Valid() && dedupe.order == [] && seenFiles.Valid() && seenFiles.order == []
    {
      running, stopping, stopRequested, pendingCallbackShutdown := false, false, false, false;
      activeHttpRequests, handles := 0, NO_HANDLES;
      dedupe := new DedupeCache();
      seenFiles := new DedupeCache();
    }

    method BeginHttpRequest() returns (admitted: bool)
      modifies this
      ensures State() == Admitted(old(State()))
      ensures admitted <==> activeHttpRequests == old(activeHttpRequests) + 1
    {
      if stopping || stopRequested {
        return false;
      }
      activeHttpRequests := activeHttpRequests + 1;
      return true;
    }

    method EndHttpRequest() returns (shouldDrain: bool)
      modifies this
      ensures State() == Released(old(State()))
      ensures shouldDrain <==> DrainDue(State())
    {
      if activeHttpRequests > 0 {
        activeHttpRequests := activeHttpRequests - 1;
      }
      shouldDrain := activeHttpRequests == 0 && pendingCallbackShutdown;
    }

    method DrainPendingCallbackShutdown() returns (taken: Option<Handles>)
      modifies this
      ensures State() == Drained(old(State()))
      ensures taken.Some? <==> DrainDue(old(State())) && old(stopping)
      ensures taken.Some? ==> taken.value == old(handles)
    {
      if !(pendingCallbackShutdown && activeHttpRequests == 0 && stopping) {
        return None;
      }
      pendingCallbackShutdown := false;
      taken := Some(handles);
      handles := NO_HANDLES;
    }

    /** The block of `shutdown`: deferred inside a callback, immediate elsewhere. */
    method Shutdown(insideCallback: bool) returns (taken: Option<Handles>)
      modifies this
      ensures State() == if insideCallback then StoppedLater(old(State())) else StoppedNow(old(State()))
      ensures taken.Some? <==> !insideCallback && !old(stopping) && Started(old(State()))
      ensures taken.Some? ==> taken.value == old(handles)
    {
      if stopping {
        return None;
      }
      var shouldNotify := running || handles.server.Some? || handles.httpThread.Some? || handles.fileThread.Some?;
      if !shouldNotify {
        return None;
      }
      stopping, running, stopRequested := true, false, true;
      pendingCallbackShutdown := insideCallback;
      if insideCallback {
        return None;
      }
      taken := Some(handles);
      handles := NO_HANDLES;
    }

    method FailStart() returns (taken: Option<Handles>)
      modifies this
      ensures State() == StartFailed(old(State()))
      ensures taken.Some? <==> !old(stopping) && Started(old(State()))
      ensures taken.Some? ==> taken.value == old(handles)
    {
      var shouldFinalize := running || handles.server.Some? || handles.httpThread.Some? || handles.fileThread.Some?;
      if !shouldFinalize || stopping {
        return None;
      }
      stopping, running, stopRequested := true, false, true;
      taken := Some(handles);
      handles := NO_HANDLES;
    }

    /** The first block of `run`, past its wait; false when the bridge is already running. */
    method ClaimRun() returns (claimed: bool)
      requires !stopping && dedupe != seenFiles
      modifies this, dedupe, seenFiles
      ensures claimed <==> !old(running)
      ensures State() == if claimed then ClaimedForRun(old(State())) else old(State())
      ensures claimed ==> dedupe.Valid() && dedupe.order == [] && seenFiles.Valid() && seenFiles.order == []
      ensures !claimed ==> unchanged(dedupe) && unchanged(seenFiles)
    {
      if running {
        return false;
      }
      running, stopRequested, pendingCallbackShutdown, activeHttpRequests := true, false, false, 0;
      dedupe.Clear();
      seenFiles.Clear();
      return true;
    }

    method AbortStart()
      modifies this
      ensures State() == StartAborted(old(State()))
    {
      running, stopRequested := false, true;
    }

    /** The second block of `run`: install the transports one by one unless a stop came in between. */
    method InstallTransports(epoch: nat, http: bool, file: bool) returns (outcome: InstallOutcome)
      modifies this
      ensures outcome == if !old(running) then NotRunning
                         else if Collides(old(handles), http, file) then Terminated else Installed
      ensures outcome.NotRunning? ==> State() == old(State())
      ensures outcome.Installed? ==>
        State() == old(State()).(handles := InstalledOver(old(handles), epoch, http, file))
    {
      if !running {
        return NotRunning;
      }
      handles := handles.(server := if http then Some(epoch) else None);
      if http {
        if handles.httpThread.Some? {
          return Terminated;
        }
        handles := handles.(httpThread := Some(epoch));
      }
      if file {
        if handles.fileThread.Some? {
          return Terminated;
        }
        handles := handles.(fileThread := Some(epoch));
      }
      return Installed;
    }

    /** The last block of every finalizer; only the outside one leaves the pending flag alone. */
    method CompleteStop(clearsPending: bool)
      modifies this
      ensures State() == Finalized(old(State()), clearsPending)
    {
      stopping, stopRequested := false, false;
      if clearsPending {
        pendingCallbackShutdown := false;
      }
    }
  }

  // The threads.

  /** Where an agent runs; a request runs on the HTTP thread of its epoch. */
  datatype Host = Request(epoch: nat) | HttpThread(epoch: nat) | FileThread(epoch: nat) | Elsewhere

  datatype Activity =
    | Starting(epoch: nat)                                  // run(), between its two blocks
    | Serving                                               // an admitted request
    | OwesDrain(serving: bool)                              // about to call drain_pending_callback_shutdown
    | Launching(taken: Handles)                             // failed start, about to spawn the finalizer
    | Finalizing(taken: Handles, clearsPending: bool)       // stopping and joining what it has taken

  datatype Agent = Agent(host: Host, activity: Activity)

  /** `threads` and `nextEpoch` record which transport threads were started and not yet joined. */
  datatype World = World(
    runtime: Runtime, agents: map<nat, Agent>, threads: set<Host>, nextEpoch: nat, terminated: bool)

  const IDLE_WORLD := World(Runtime(false, false, false, false, 0, NO_HANDLES), map[], {}, 0, false)

  /** `t` is the agent that steps; `spawned` names a thread that the step creates. */
  datatype Step =
    | RunClaim(t: nat)
    | RunAbort(t: nat)
    | RunInstall(t: nat, http: bool, file: bool)
    | BeginRequest(t: nat, epoch: nat)
    | EndRequest(t: nat)
    | Drain(t: nat, spawned: nat)
    | CallbackShutdown(t: nat, host: Host)
    | RequestCallbackShutdown(t: nat)
    | OutsideShutdown(t: nat)
    | FailStart(t: nat, epoch: nat)
    | Launch(t: nat, spawned: nat)
    | Finish(t: nat)

  predicate IsServing(a: Agent) {
    a.activity.Serving? || (a.activity.OwesDrain? && a.activity.serving)
  }

  predicate Starts(w: World, t: nat) {
    t in w.agents && w.agents[t].activity.Starting?
  }

  predicate Owes(w: World, t: nat) {
    t in w.agents && w.agents[t].activity.OwesDrain?
  }

  /** The agent has taken the handles out of the state. */
  predicate Holds(w: World, t: nat) {
    t in w.agents && (w.agents[t].activity.Launching? || w.agents[t].activity.Finalizing?)
  }

  function Taken(w: World, t: nat): Handles {
    if Holds(w, t) then w.agents[t].activity.taken else NO_HANDLES
  }

  /** The threads that these handles join. */
  function Joined(taken: Handles): set<Host> {
    (if taken.httpThread.Some? then {HttpThread(taken.httpThread.value)} else {})
    + (if taken.fileThread.Some? then {FileThread(taken.fileThread.value)} else {})
  }

  function ThreadOf(host: Host): Host {
    if host.Request? then HttpThread(host.epoch) else host
  }

  predicate OnThreads(host: Host, threads: set<Host>) {
    host.Elsewhere? || ThreadOf(host) in threads
  }

  /** No agent runs on a thread that the handles join: the joins return. */
  ghost predicate JoinsReturn(w: World, taken: Handles) {
    forall t :: t in w.agents ==> w.agents[t].host.Elsewhere? || ThreadOf(w.agents[t].host) !in Joined(taken)
  }

  /** What each step needs, apart from the assumption that only one thread at a time calls `run`. */
  ghost predicate Possible(w: World, step: Step) {
    !w.terminated &&
    match step
    case RunClaim(t) => t !in w.agents && !w.runtime.stopping && !w.runtime.running
    case RunAbort(t) => Starts(w, t)
    case RunInstall(t, http, file) => Starts(w, t) && (http || file)
    case BeginRequest(t, e) => t !in w.agents && HttpThread(e) in w.threads
    case EndRequest(t) => t in w.agents && w.agents[t].activity.Serving?
    case Drain(t, spawned) => Owes(w, t) && spawned !in w.agents
    case CallbackShutdown(t, host) => t !in w.agents && !host.Request? && OnThreads(host, w.threads)
    case RequestCallbackShutdown(t) => t in w.agents && w.agents[t].activity.Serving?
    case OutsideShutdown(t) => t !in w.agents
    case FailStart(t, e) => t !in w.agents && HttpThread(e) in w.threads
    case Launch(t, spawned) => t in w.agents && w.agents[t].activity.Launching? && spawned !in w.agents
    case Finish(t) => t in w.agents && w.agents[t].activity.Finalizing? && JoinsReturn(w, w.agents[t].activity.taken)
  }

  ghost predicate Enabled(w: World, step: Step) {
    Possible(w, step) && (step.RunClaim? ==> forall t :: !Starts(w, t))
  }

  /** The threads that an install starts. */
  function StartedThreads(epoch: nat, http: bool, file: bool): set<Host> {
    (if http then {HttpThread(epoch)} else {}) + (if file then {FileThread(epoch)} else {})
  }

  ghost function After(w: World, step: Step): World
    requires Possible(w, step)
  {
    var r := w.runtime;
    match step
    case RunClaim(t) =>
      w.(runtime := ClaimedForRun(r), agents := w.agents[t := Agent(Elsewhere, Starting(w.nextEpoch))],
         nextEpoch := w.nextEpoch + 1)
    case RunAbort(t) => w.(runtime := StartAborted(r), agents := w.agents - {t})
    case RunInstall(t, http, file) =>
      var epoch := w.agents[t].activity.epoch;
      if !r.running then w.(agents := w.agents - {t})
      else if Collides(r.handles, http, file) then w.(terminated := true)
      else w.(runtime := r.(handles := InstalledOver(r.handles, epoch, http, file)), agents := w.agents - {t},
              threads := w.threads + StartedThreads(epoch, http, file))
    case BeginRequest(t, e) =>
      if r.stopping || r.stopRequested then w
      else w.(runtime := Admitted(r), agents := w.agents[t := Agent(Request(e), Serving)])
    case EndRequest(t) =>
      w.(runtime := Released(r),
         agents := if DrainDue(Released(r)) then w.agents[t := w.agents[t].(activity := OwesDrain(false))]
                   else w.agents - {t})
    case Drain(t, spawned) =>
      var returned := if w.agents[t].activity.serving then w.agents[t := w.agents[t].(activity := Serving)]
                      else w.agents - {t};
      w.(runtime := Drained(r),
         agents := if DrainDue(r) && r.stopping then returned[spawned := Agent(Elsewhere, Finalizing(r.handles, true))]
                   else returned)
    case CallbackShutdown(t, host) =>
      if r.stopping || !Started(r) then w
      else w.(runtime := StoppedLater(r), agents := w.agents[t := Agent(host, OwesDrain(false))])
    case RequestCallbackShutdown(t) =>
      if r.stopping || !Started(r) then w
      else w.(runtime := StoppedLater(r), agents := w.agents[t := w.agents[t].(activity := OwesDrain(true))])
    case OutsideShutdown(t) =>
      if r.stopping || !Started(r) then w
      else w.(runtime := StoppedNow(r), agents := w.agents[t := Agent(Elsewhere, Finalizing(r.handles, false))])
    case FailStart(t, e) =>
      if r.stopping || !Started(r) then w
      else w.(runtime := StartFailed(r), agents := w.agents[t := Agent(HttpThread(e), Launching(r.handles))])
    case Launch(t, spawned) =>
      w.(agents := (w.agents - {t})[spawned := Agent(Elsewhere, Finalizing(w.agents[t].activity.taken, true))])
    case Finish(t) =>
      var activity := w.agents[t].activity;
      w.(runtime := Finalized(r, activity.clearsPending), agents := w.agents - {t},
         threads := w.threads - Joined(activity.taken))
  }

  // The invariant.

  function ServingAgents(w: World): set<nat> {
    set t | t in w.agents && IsServing(w.agents[t])
  }

  predicate OneEpoch(h: Handles) {
    && h.server == h.httpThread
    && (h.httpThread.Some? && h.fileThread.Some? ==> h.httpThread == h.fileThread)
  }

  /** Stopping belongs to the pending callback shutdown or to the agent that took the handles. */
  ghost predicate StopOwned(w: World) {
    var r := w.runtime;
    && (r.pending ==> r.stopping)
    && (r.stopping ==> !r.running && r.stopRequested)
    && (r.running ==> !r.stopRequested)
    && (r.stopping && !r.pending ==> exists t :: Holds(w, t))
    && (forall t :: Holds(w, t) ==> r.stopping && !r.pending)
    && (forall s, t :: Holds(w, s) && Holds(w, t) ==> s == t)
  }

  /** The handles of every live thread are in one place: in the state, or with that agent. */
  ghost predicate ThreadsHeld(w: World) {
    var r := w.runtime;
    && OneEpoch(r.handles)
    && (!r.running && !r.pending ==> r.handles == NO_HANDLES)
    && (!r.stopping || r.pending ==> w.threads == Joined(r.handles))
    && (forall t :: Holds(w, t) ==> w.threads == Joined(Taken(w, t)) && OneEpoch(Taken(w, t)))
    && (forall h :: h in w.threads ==> !h.Elsewhere? && h.epoch < w.nextEpoch)
  }

  /** An agent runs on a live thread, and starting happens while there is none. */
  predicate Placed(a: Agent, threads: set<Host>, nextEpoch: nat) {
    && OnThreads(a.host, threads)
    && (IsServing(a) ==> a.host.Request?)
    && (a.activity.Finalizing? ==> a.host.Elsewhere?)
    && (a.activity.Starting? ==> a.host.Elsewhere? && threads == {} && a.activity.epoch < nextEpoch)
  }

  ghost predicate AgentsPlaced(w: World) {
    && (forall t :: t in w.agents ==> Placed(w.agents[t], w.threads, w.nextEpoch))
    && (forall s, t :: Starts(w, s) && Starts(w, t) ==> s == t)
  }

  /** The counter is exact, and a pending shutdown nobody serves against has someone who drains it. */
  ghost predicate DrainOwed(w: World) {
    && w.runtime.active == |ServingAgents(w)|
    && (w.runtime.pending && w.runtime.active == 0 ==> exists t :: Owes(w, t))
  }

  ghost predicate Orderly(w: World) {
    !w.terminated && StopOwned(w) && ThreadsHeld(w) && AgentsPlaced(w) && DrainOwed(w)
  }
}
