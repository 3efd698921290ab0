/** What one call of the stack does: registration, the request, one turn and one step of the walk. */
module LifecycleLaws {
  import opened Lifecycle
  import opened LifecycleRuns

  /** A new stack has no modules, and nothing has been requested, asked or stopped. */
  lemma EmptyIs(script: seq<Moment>)
    ensures
      var s := EmptyStack(script);
      && |s.modules| == |s.addresses| == 0 && !s.requested && !s.stopped && !s.current
      && |s.asked| == |s.ran| == 0 && s.script == script
  {
  }

  /** A new module goes behind the others, before the shutdown is requested and never twice. */
  lemma AddExactly(s: Stack, address: nat, m: Module)
    requires StackInvariant(s)
    ensures
      var next := AfterAdd(s, address, m);
      if !s.requested && address !in s.addresses then
        && |next.modules| == |s.modules| + 1 && next.modules[|s.modules|] == m
        && next.addresses[|s.modules|] == address
        && (forall i :: 0 <= i < |s.modules| ==> next.modules[i] == s.modules[i])
        && (forall i :: 0 <= i < |s.modules| ==> next.addresses[i] == s.addresses[i])
        && next == s.(modules := next.modules, addresses := next.addresses)
      else next == s
  {
    hide Staged;
  }

  /** Later on the list of those asked is no shorter, nobody has run and no request was taken back. */
  predicate OnlyAsks(s: Stack, next: Stack) {
    s.asked <= next.asked && next.ran == s.ran && next.requested == s.requested && next.addresses == s.addresses
  }

  lemma LookingOnlyAsks(s: Stack)
    requires 0 < s.cursor <= |s.modules|
    ensures OnlyAsks(s, Lowered(Elapsed(s))) && OnlyAsks(s, Waited(Elapsed(s)))
    ensures OnlyAsks(s, Lowered(Waited(Elapsed(s))))
  {
    hide Stopping;
  }

  lemma {:induction false} WalkAsks(s: Stack)
    requires s.cursor <= |s.modules|
    ensures OnlyAsks(s, Advanced(s))
    decreases s.cursor
  {
    if s.cursor > 0 {
      LookingOnlyAsks(s);
      var seen := Elapsed(s);
      var waited := Waited(seen);
      hide Stopping, Elapsed, Waited;
      if seen.modules[s.cursor - 1].stopped {
        WalkAsks(Lowered(seen));
      } else if waited.modules[s.cursor - 1].stopped {
        WalkAsks(Lowered(waited));
      }
    }
  }

  /**
   * The first request is registered and asks the last module, unless that is found stopped; a walk that finds
   * nobody to ask has stopped. A second request changes nothing.
   */
  lemma RequestIsMade(s: Stack)
    requires StackInvariant(s)
    ensures
      var next := AfterShutdown(s);
      var n := |s.modules|;
      if s.requested then next == s
      else
        && next.requested && next.ran == s.ran && next.addresses == s.addresses
        && (n == 0 ==> next.stopped && next.asked == [])
        && (n > 0 && !Stopping(s.modules, Head(s.script).stops)[n - 1].stopped ==>
              next.asked != [] && next.asked[0] == n - 1)
  {
    InvariantBounds(s);
    hide Staged, Stopping;
    if !s.requested {
      var begun := s.(requested := true, cursor := |s.modules|);
      WalkAsks(begun);
      if begun.cursor > 0 {
        FirstIsAsked(begun);
      }
    }
  }

  /** A module that the walk finds running and not yet asked is asked at once. */
  lemma FirstIsAsked(s: Stack)
    requires 0 < s.cursor <= |s.modules| && !s.current
    ensures !Elapsed(s).modules[s.cursor - 1].stopped ==> s.asked + [s.cursor - 1] <= Advanced(s).asked
  {
    var seen := Elapsed(s);
    var waited := Waited(seen);
    hide Stopping;
    WalkAsks(Lowered(waited));
    assert waited.asked == s.asked + [s.cursor - 1];
  }

  /** A module that is not seen stopped runs, and its request is taken up at once; one that is gets no turn. */
  lemma TurnExactly(s: Stack, i: nat)
    requires StackInvariant(s) && i < |s.modules| && s.cursor <= |s.modules|
    ensures
      var next := Turn(s, i);
      var runs := !Stopping(s.modules, Head(s.script).stops)[i].stopped;
      && next.ran == s.ran + (if runs then [i] else [])
      && (next.requested <==> s.requested || (runs && Head(Tail(s.script)).requests))
      && (!runs ==> next == s.(modules := next.modules, script := next.script))
  {
    TurnGoesOn(s, i);
    hide Staged, Stopping;
    var ran := Run(Elapsed(s), i);
    if !Elapsed(s).modules[i].stopped && Head(ran.script).requests && !s.requested {
      var begun := Elapsed(ran).(requested := true, cursor := |s.modules|);
      WalkAsks(begun);
    }
  }

  /** Without a request a process call only gives the turns: nobody is asked and nothing stops. */
  lemma {:induction false} TurnsOnly(s: Stack, n: nat)
    requires StackInvariant(s) && n <= |s.modules| && s.cursor <= |s.modules| && !Forward(s, n).requested
    ensures !s.requested && Forward(s, n).asked == [] && !Forward(s, n).stopped
  {
    hide Turn, Staged;
    ForwardKeepsStack(s, n);
    if n > 0 {
      ForwardKeepsStack(s, n - 1);
      ForwardOne(s, n - 1);
      TurnExactly(Forward(s, n - 1), n - 1);
      TurnsOnly(s, n - 1);
    }
  }

  /** A process call is a round of turns, and then a walk exactly if the shutdown has been requested by then. */
  lemma ProcessExactly(s: Stack)
    requires StackInvariant(s) && s.cursor <= |s.modules|
    ensures
      var next := AfterProcess(s);
      var count := if s.requested then s.cursor else |s.modules|;
      && (s.stopped ==> next == s)
      && (!s.stopped ==>
            var round := Forward(s, count);
            && next.requested == round.requested
            && (next.stopped <==> round.requested && AllStopped(next.modules))
            && (!round.requested ==> next == round && next.asked == []))
  {
    if !s.stopped {
      var round := Forward(s, Limit(s));
      ForwardKeepsStack(s, Limit(s));
      if round.requested {
        WalkGoesOn(round);
      } else {
        TurnsOnly(s, Limit(s));
      }
    }
    hide Staged, Forward;
  }
}
