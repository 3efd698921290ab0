/** Ordered processing and staged reverse shutdown of a stack of modules. */
module Lifecycle {

  /**
   * A module as the stack sees it. It never un-stops. `budget` bounds the `process` calls it still needs
   * after its shutdown request; everything else about when it stops is up to the script below.
   */
  datatype Module = Module(stopped: bool, budget: nat, shutdowns: nat)

  function Processed(m: Module): Module {
    Module(m.stopped || (m.shutdowns > 0 && m.budget <= 1),
           if m.shutdowns > 0 && m.budget > 0 then m.budget - 1 else m.budget, m.shutdowns)
  }

  function ShutDown(m: Module): Module {
    Module(m.stopped || m.budget == 0, m.budget, m.shutdowns + 1)
  }

  /** Any of the modules may stop, each of them for good. */
  function Stopping(modules: seq<Module>, who: set<nat>): (after: seq<Module>)
    ensures |after| == |modules|
  {
    seq(|modules|, i requires 0 <= i < |modules| => if i in who then modules[i].(stopped := true) else modules[i])
  }

  /** Which modules have stopped by then, and whether a `process` call has called the stack's `shutdown`. */
  datatype Moment = Moment(stops: set<nat>, requests: bool)

  /**
   * The stack and its modules. `script` has a moment for each coming read of a stopped flag and for the end
   * of each coming module call: modules stop through other threads, or through one another.
   * `ran` and `asked` list the modules in the order of their `process` and `shutdown` calls.
   */
  datatype Stack = Stack(
    addresses: seq<nat>, modules: seq<Module>, cursor: nat, requested: bool, current: bool, stopped: bool,
    ran: seq<nat>, asked: seq<nat>, script: seq<Moment>)

  function EmptyStack(script: seq<Moment>): Stack {
    Stack([], [], 0, false, false, false, [], [], script)
  }

  // Specification.

  function Head(script: seq<Moment>): Moment {
    if script == [] then Moment({}, false) else script[0]
  }

  function Tail(script: seq<Moment>): seq<Moment> {
    if script == [] then [] else script[1..]
  }

  /** Whatever happens outside the stack until its next look. */
  function Elapsed(s: Stack): (next: Stack)
    ensures |next.modules| == |s.modules| && next.cursor == s.cursor
  {
    s.(modules := Stopping(s.modules, Head(s.script).stops), script := Tail(s.script))
  }

  function Run(s: Stack, i: nat): Stack
    requires i < |s.modules|
  {
    s.(modules := s.modules[i := Processed(s.modules[i])], ran := s.ran + [i])
  }

  function Ask(s: Stack, i: nat): Stack
    requires i < |s.modules|
  {
    s.(modules := s.modules[i := ShutDown(s.modules[i])], asked := s.asked + [i], current := true)
  }

  /** The module below the cursor has not stopped yet: it is asked once, and looked at again. */
  function Waited(s: Stack): (next: Stack)
    requires 0 < s.cursor <= |s.modules|
    ensures |next.modules| == |s.modules| && next.cursor == s.cursor
  {
    Elapsed(if s.current then s else Elapsed(Ask(s, s.cursor - 1)))
  }

  function Lowered(s: Stack): Stack
    requires s.cursor > 0
  {
    s.(cursor := s.cursor - 1, current := false)
  }

  function Advanced(s: Stack): (next: Stack)
    requires s.cursor <= |s.modules|
    ensures next.cursor <= |next.modules| == |s.modules|
    decreases s.cursor
  {
    if s.cursor == 0 then s.(stopped := true)
    else
      var seen := Elapsed(s);
      if seen.modules[s.cursor - 1].stopped then Advanced(Lowered(seen))
      else
        var waited := Waited(seen);
        if waited.modules[s.cursor - 1].stopped then Advanced(Lowered(waited)) else waited
  }

  function AfterShutdown(s: Stack): (next: Stack)
    requires s.cursor <= |s.modules|
    ensures next.cursor <= |next.modules| == |s.modules|
  {
    if s.stopped || s.requested then s
    else Advanced(s.(requested := true, cursor := |s.modules|))
  }

  /** One module is looked at, and runs unless it has stopped; its call may request the shutdown. */
  function Turn(s: Stack, i: nat): (next: Stack)
    requires i < |s.modules| && s.cursor <= |s.modules|
    ensures next.cursor <= |next.modules| == |s.modules|
  {
    var seen := Elapsed(s);
    if seen.modules[i].stopped then seen
    else
      var ran := Run(seen, i);
      if Head(ran.script).requests then AfterShutdown(Elapsed(ran)) else Elapsed(ran)
  }

  /** The first `n` modules get their turn, in order. */
  function Forward(s: Stack, n: nat): (next: Stack)
    requires n <= |s.modules| && s.cursor <= |s.modules|
    ensures next.cursor <= |next.modules| == |s.modules|
  {
    if n == 0 then s else Turn(Forward(s, n - 1), n - 1)
  }

  /** How many modules a process call looks at; fixed when it begins. */
  function Limit(s: Stack): nat {
    if s.requested then s.cursor else |s.modules|
  }

  function AfterProcess(s: Stack): (next: Stack)
    requires s.cursor <= |s.modules|
    ensures next.cursor <= |next.modules| == |s.modules|
  {
    if s.stopped then s
    else
      var round := Forward(s, Limit(s));
      if round.requested then Advanced(round) else round
  }

  function AfterAdd(s: Stack, address: nat, m: Module): Stack {
    if s.requested || address in s.addresses then s
    else s.(addresses := s.addresses + [address], modules := s.modules + [m])
  }

  // The objects.

  /** The registered modules, and whatever else drives them: every call and every look lets the script go on. */
  class Modules {
    var states: seq<Module>
    var script: seq<Moment>

    constructor (script: seq<Moment>)
      ensures states == [] && this.script == script
    {
      states, this.script := [], script;
    }

    method Elapse()
      modifies this
      ensures states == Stopping(old(states), Head(old(script)).stops) && script == Tail(old(script))
    {
      states := Stopping(states, Head(script).stops);
      script := Tail(script);
    }

    method IsStopped(i: nat) returns (stopped: bool)
      requires i < |states|
      modifies this
      ensures states == Stopping(old(states), Head(old(script)).stops) && script == Tail(old(script))
      ensures |states| == |old(states)| && stopped == states[i].stopped
    {
      Elapse();
      stopped := states[i].stopped;
    }

    /** `requests` tells that the module's call has called back to request the shutdown. */
    method Process(i: nat) returns (requests: bool)
      requires i < |states|
      modifies this
      ensures requests == Head(old(script)).requests
      ensures states == Stopping(old(states)[i := Processed(old(states)[i])], Head(old(script)).stops)
      ensures script == Tail(old(script)) && |states| == |old(states)|
    {
      requests := Head(script).requests;
      states := states[i := Processed(states[i])];
      Elapse();
    }

    method Shutdown(i: nat)
      requires i < |states|
      modifies this
      ensures states == Stopping(old(states)[i := ShutDown(old(states)[i])], Head(old(script)).stops)
      ensures script == Tail(old(script)) && |states| == |old(states)|
    {
      states := states[i := ShutDown(states[i])];
      Elapse();
    }
  }

  lemma AdvanceMoves(s: Stack, stopped: Stack, next: Stack)
    requires 0 < s.cursor <= |s.modules| == |stopped.modules|
    requires stopped == Elapsed(s) || (!Elapsed(s).modules[s.cursor - 1].stopped && stopped == Waited(Elapsed(s)))
    requires stopped.modules[s.cursor - 1].stopped && next == Lowered(stopped)
    ensures Advanced(s) == Advanced(next)
  {
  }

  lemma AdvanceWaits(s: Stack, next: Stack)
    requires 0 < s.cursor <= |s.modules| == |next.modules|
    requires !Elapsed(s).modules[s.cursor - 1].stopped && next == Waited(Elapsed(s))
    requires !next.modules[s.cursor - 1].stopped
    ensures Advanced(s) == next
  {
  }

  lemma ForwardNone(s: Stack)
    requires s.cursor <= |s.modules|
    ensures Forward(s, 0) == s
  {
  }

  lemma ForwardOne(s: Stack, n: nat)
    requires n < |s.modules| && s.cursor <= |s.modules|
    ensures Forward(s, n + 1) == Turn(Forward(s, n), n)
  {
  }

  class LifecycleStack {
    /** Where the stack itself is; registering it with itself is refused. */
    const address: nat
    const world: Modules
    var addresses: seq<nat>
    var shutdownCursor: nat
    var shutdownRequested: bool
    var currentShutdownRequested: bool
    var stopped: bool
    ghost var ran: seq<nat>
    ghost var asked: seq<nat>

    ghost predicate Valid()
      reads this, world
    {
      shutdownCursor <= |addresses| == |world.states|
    }

    ghost function State(): Stack
      reads this, world
    {
      Stack(addresses, world.states, shutdownCursor, shutdownRequested, currentShutdownRequested, stopped,
            ran, asked, world.script)
    }

    constructor (address: nat, script: seq<Moment>)
      ensures fresh(world) && Valid() && State() == EmptyStack(script) && this.address == address
    {
      this.address := address;
      world := new Modules(script);
      addresses, shutdownCursor, ran, asked := [], 0, [], [];
      shutdownRequested, currentShutdownRequested, stopped := false, false, false;
    }

    /** False for the stack itself, for a module that is already there, and after shutdown has started. */
    method AddModule(candidate: nat, initial: Module) returns (added: bool)
      requires Valid()
      modifies this, world
      ensures Valid()
      ensures added <==> !old(shutdownRequested) && candidate != address && candidate !in old(addresses)
      ensures State() == if candidate == address then old(State()) else AfterAdd(old(State()), candidate, initial)
    {
      if shutdownRequested || candidate == address {
        return false;
      }
      if candidate in addresses {
        return false;
      }
      addresses := addresses + [candidate];
      world.states := world.states + [initial];
      return true;
    }

    method Process()
      requires Valid()
      modifies this, world
      ensures Valid()
      ensures State() == AfterProcess(old(State()))
    {
      hide Turn, Forward, Advanced;
      if stopped {
        return;
      }
      ForwardNone(State());
      var processCount := if shutdownRequested then shutdownCursor else |addresses|;
      for index := 0 to processCount
        invariant Valid() && |addresses| == |old(addresses)|
        invariant State() == Forward(old(State()), index)
      {
        ForwardOne(old(State()), index);
        TakeTurn(index);
      }
      if shutdownRequested {
        AdvanceShutdown();
      }
    }

    /** The module's call may come back into `Shutdown`. */
    method TakeTurn(index: nat)
      requires Valid() && index < |addresses|
      modifies this, world
      ensures Valid() && |addresses| == |old(addresses)| && State() == Turn(old(State()), index)
    {
      hide Advanced, Stopping;
      var isStopped := world.IsStopped(index);
      if !isStopped {
        ran := ran + [index];
        var requests := world.Process(index);
        if requests {
          Shutdown();
        }
      }
    }

    method Shutdown()
      requires Valid()
      modifies this, world
      ensures Valid()
      ensures State() == AfterShutdown(old(State()))
    {
      if stopped || shutdownRequested {
        return;
      }
      shutdownRequested := true;
      shutdownCursor := |addresses|;
      AdvanceShutdown();
    }

    /** Asks the current module unless it was asked before, and looks whether it has stopped. */
    method AskCurrent() returns (isStopped: bool)
      requires Valid() && shutdownCursor > 0
      modifies this, world
      ensures Valid() && State() == Waited(old(State()))
      ensures isStopped == State().modules[shutdownCursor - 1].stopped
    {
      hide Stopping, ShutDown;
      if !currentShutdownRequested {
        currentShutdownRequested := true;
        world.Shutdown(shutdownCursor - 1);
        asked := asked + [shutdownCursor - 1];
      }
      isStopped := world.IsStopped(shutdownCursor - 1);
    }

    method AdvanceShutdown()
      requires Valid()
      modifies this, world
      ensures Valid()
      ensures State() == Advanced(old(State()))
    {
      hide Advanced, Waited, Stopping;
      while shutdownCursor != 0
        invariant Valid()
        invariant Advanced(State()) == Advanced(old(State()))
        decreases shutdownCursor
      {
        ghost var before := State();
        var isStopped := world.IsStopped(shutdownCursor - 1);
        ghost var seen := State();
        if isStopped {
          shutdownCursor := shutdownCursor - 1;
          currentShutdownRequested := false;
          AdvanceMoves(before, seen, State());
          continue;
        }
        isStopped := AskCurrent();
        seen := State();
        if !isStopped {
          AdvanceWaits(before, seen);
          return;
        }
        shutdownCursor := shutdownCursor - 1;
        currentShutdownRequested := false;
        AdvanceMoves(before, seen, State());
      }
      AdvanceEnds(State());
      stopped := true;
    }
  }

  lemma AdvanceEnds(s: Stack)
    requires s.cursor == 0
    ensures Advanced(s) == s.(stopped := true)
  {
  }
}
