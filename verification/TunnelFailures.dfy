/**
 * What can go wrong in the tunnel protocol, and exactly when: after MarkFailed, or the late error of an older
 * forward, took the tunnel out of Starting under its starter, and never before.
 */
module TunnelFailures {
  import opened Wrappers
  import opened Tunnel
  import opened TunnelThreads

  /** From a good state, MarkFailed panics exactly when a restart has not yet replaced a closed stop channel. */
  lemma MarkFailedPanicsIff(s: Sys, e: Error)
    requires Inv(s)
    ensures Apply(s, MarkFailedCall(e)).panicked
       <==> s.state == Starting && s.stop.Some? && s.stop.value in s.closed
  {
  }

  // ---------------------------------------------------------------- runs without a foreign exit

  /** No step of the run is a foreign exit from Starting. */
  ghost predicate Orderly(from: Sys, acts: seq<Action>) {
    acts == [] ||
    var n := |acts| - 1;
    ValidFrom(from, acts) && Orderly(from, acts[..n]) && !ForeignExit(TunnelThreads.Exec(from, acts[..n]), acts[n])
  }

  /** Some run without a foreign exit leads from one state to the other. */
  ghost predicate Goes(from: Sys, s: Sys) {
    exists acts :: ValidFrom(from, acts) && Orderly(from, acts) && TunnelThreads.Exec(from, acts) == s
  }

  lemma GoesNowhere(s: Sys)
    ensures Goes(s, s)
  {
    assert ValidFrom(s, []) && Orderly(s, []) && TunnelThreads.Exec(s, []) == s;
  }

  lemma Go(from: Sys, s: Sys, a: Action) returns (s': Sys)
    requires Goes(from, s) && Enabled(s, a) && !ForeignExit(s, a)
    ensures s' == Apply(s, a) && Goes(from, s')
  {
    var acts :| ValidFrom(from, acts) && Orderly(from, acts) && TunnelThreads.Exec(from, acts) == s;
    s' := Apply(s, a);
    assert (acts + [a])[..|acts|] == acts;
    assert Orderly(from, acts + [a]);
  }

  lemma {:induction false} OrderlyRunKeepsInv(from: Sys, acts: seq<Action>)
    requires Inv(from) && ValidFrom(from, acts) && Orderly(from, acts)
    ensures Inv(TunnelThreads.Exec(from, acts))
  {
    if acts != [] {
      var n := |acts| - 1;
      OrderlyRunKeepsInv(from, acts[..n]);
      InvKept(TunnelThreads.Exec(from, acts[..n]), acts[n]);
    }
  }

  // ---------------------------------------------------------------- the three failures

  /** A stop channel can be closed twice. */
  ghost predicate CanPanic(m: Sys) {
    exists s :: Goes(m, s) && s.panicked
  }

  /** The tunnel can come to be Running on a closed stop channel, or on none. */
  ghost predicate CanRunOnClosed(m: Sys) {
    exists s :: Goes(m, s) && s.state == Running && !StopOpen(s)
  }

  /** The tunnel can come to be Failed without an error. */
  ghost predicate CanFailBare(m: Sys) {
    exists s :: Goes(m, s) && s.state == Failed && s.lastError == None
  }

  /** A waiter can be released by such a failure, and returns nil. */
  ghost predicate CanReleaseWithNil(m: Sys) {
    exists s, w :: Goes(m, s) && Enabled(s, Poll(w)) && PollsBareFailure(s, Poll(w), w)
  }

  lemma GoodStatesAreSafe(m: Sys)
    requires Inv(m)
    ensures !CanPanic(m) && !CanRunOnClosed(m) && !CanFailBare(m) && !CanReleaseWithNil(m)
  {
    forall s | Goes(m, s)
      ensures !s.panicked && (s.state == Running ==> StopOpen(s)) && (s.state == Failed ==> s.lastError.Some?)
    {
      var acts :| ValidFrom(m, acts) && Orderly(m, acts) && TunnelThreads.Exec(m, acts) == s;
      OrderlyRunKeepsInv(m, acts);
    }
  }

  /** A thread waits for a forward whose stop channel was closed behind its back, and another waits for it. */
  predicate Doomed(s: Sys, v: Tid, w: Tid) {
    && !s.panicked && v != w && At(s, w, Await)
    && v in s.threads && s.threads[v].Waiting?
    && s.stop == Some(s.threads[v].fwd) && s.threads[v].fwd in s.closed
  }

  lemma DoomedPanics(from: Sys, s: Sys, v: Tid, w: Tid)
    requires Goes(from, s) && Doomed(s, v, w)
    ensures CanPanic(from)
  {
    var s' := Go(from, s, GotTimeout(v));
  }

  lemma DoomedRunsOnClosed(from: Sys, s: Sys, v: Tid, w: Tid)
    requires Goes(from, s) && Doomed(s, v, w)
    ensures CanRunOnClosed(from)
  {
    var m := Bound(s.threads.Keys);
    var s1 := Go(from, s, GotReady(v));
    var s2 := Go(from, s1, PortsOk(v, 40000));
    var s3 := Go(from, s2, Commit(v, m));
  }

  lemma DoomedReleasesWithNil(from: Sys, s: Sys, v: Tid, w: Tid)
    requires Goes(from, s) && Doomed(s, v, w)
    ensures CanFailBare(from) && CanReleaseWithNil(from)
  {
    var s1 := Go(from, s, GotEnd(v, None));
    var s2 := Go(from, s1, Fail(v));
    assert Enabled(s2, Poll(w)) && PollsBareFailure(s2, Poll(w), w);
  }

  // ---------------------------------------------------------------- from a foreign exit to each failure

  /** Right after a foreign exit: Failed, with the old starter still inside. */
  predicate Left(s: Sys, t: Tid) {
    && !s.panicked && s.state == Failed && IsStarter(s, t)
    && (forall c | c in s.closed :: c < s.made)
  }

  lemma EntersStart(from: Sys, s: Sys, u: Tid) returns (s': Sys)
    requires Goes(from, s) && !s.panicked && u !in s.threads && s.state != Starting && s.state != Running
    ensures Goes(from, s') && s' == s.(state := Starting, threads := s.threads[u := Discover])
  {
    var s1 := Go(from, s, Call(u));
    s' := Go(from, s1, Enter(u));
    assert s'.threads == s.threads[u := Discover];
  }

  /** A new thread starts a forward and waits for it. */
  lemma BeginsForward(from: Sys, s: Sys, u: Tid) returns (s': Sys)
    requires Goes(from, s) && !s.panicked && u !in s.threads && s.state != Starting && s.state != Running
    ensures Goes(from, s') && s' == Forwarding(s, u)
  {
    var s1 := EntersStart(from, s, u);
    var s2 := Go(from, s1, DiscoverOk(u));
    assert s2 == Creating(s, u);
    s' := CreatesForward(from, s, u);
  }

  lemma CreatesForward(from: Sys, s: Sys, u: Tid) returns (s': Sys)
    requires Goes(from, Creating(s, u)) && !s.panicked
    ensures Goes(from, s') && s' == Forwarding(s, u)
  {
    s' := Go(from, Creating(s, u), CreateOk(u));
    assert s'.threads == s.threads[u := Waiting(s.made)];
  }

  /** Another thread calls Start meanwhile, and waits. */
  lemma BeginsWaiting(from: Sys, s: Sys, w: Tid) returns (s': Sys)
    requires Goes(from, s) && !s.panicked && w !in s.threads && s.state == Starting
    ensures Goes(from, s') && s' == s.(threads := s.threads[w := Await])
  {
    var s1 := Go(from, s, Call(w));
    s' := Go(from, s1, Enter(w));
    assert s'.threads == s.threads[w := Await];
  }

  predicate Leaves(s: Sys, s': Sys, t: Tid) {
    && !s'.panicked && (s'.state == Failed || s'.state == Idle)
    && s'.stop == s.stop && s'.closed == s.closed && s'.made == s.made
    && t in s'.threads && s'.threads == s.threads[t := s'.threads[t]]
  }

  lemma LeavesByFailing(from: Sys, s: Sys, t: Tid) returns (s': Sys)
    requires Goes(from, s) && !s.panicked && t in s.threads && s.threads[t].Failing?
    ensures Goes(from, s') && Leaves(s, s', t)
  {
    s' := Go(from, s, Fail(t));
  }

  lemma BecomesFailing(from: Sys, s: Sys, t: Tid) returns (s': Sys)
    requires Goes(from, s) && !s.panicked && t in s.threads
    requires var pc := s.threads[t]; pc.Discover? || pc.Create? || pc.Waiting? || pc.Ports?
    ensures Goes(from, s') && t in s'.threads && s'.threads[t].Failing?
    ensures s' == s.(threads := s.threads[t := s'.threads[t]])
  {
    s' := Go(from, s, LeavingStep(s.threads[t], t));
  }

  /** A starter that is not about to succeed can leave, without touching a channel. */
  lemma StarterLeaves(from: Sys, s: Sys, t: Tid) returns (s': Sys)
    requires Goes(from, s) && !s.panicked && IsStarter(s, t) && !s.threads[t].Succeeding?
    ensures Goes(from, s') && Leaves(s, s', t)
  {
    var pc := s.threads[t];
    if pc.ContextClosed? {
      s' := Go(from, s, SetIdle(t));
    } else if pc.Failing? {
      s' := LeavesByFailing(from, s, t);
    } else {
      var s1 := BecomesFailing(from, s, t);
      s' := LeavesByFailing(from, s1, t);
      assert s'.threads == s.threads[t := s'.threads[t]];
    }
  }

  function LeavingStep(pc: Pc, t: Tid): Action {
    match pc
    case Discover => DiscoverErr(t, Other(0))
    case Create => TransportErr(t, Other(0))
    case Waiting(_) => GotEnd(t, Some(Other(0)))
    case _ => PortsErr(t, Other(0))
  }

  /** The old starter does not succeed: a third start makes the channel that the second one's time-out closes. */
  lemma DoomsThird(from: Sys, s: Sys, t: Tid, u: Tid, w: Tid) returns (s': Sys, v: Tid)
    requires Goes(from, s) && !s.panicked && IsStarter(s, t) && !s.threads[t].Succeeding?
    requires At(s, w, Await) && u in s.threads && s.threads[u].Waiting? && t != u
    requires forall c | c in s.closed :: c < s.made
    ensures Goes(from, s') && Doomed(s', v, w)
  {
    var s1 := StarterLeaves(from, s, t);
    s', v := DoomsNext(from, s1, u, w);
  }

  lemma DoomsNext(from: Sys, s: Sys, u: Tid, w: Tid) returns (s': Sys, v: Tid)
    requires Goes(from, s) && !s.panicked && (s.state == Failed || s.state == Idle)
    requires At(s, w, Await) && u in s.threads && s.threads[u].Waiting? && s.made !in s.closed
    ensures Goes(from, s') && Doomed(s', v, w)
  {
    v := Bound(s.threads.Keys);
    var s1 := BeginsForward(from, s, v);
    assert s1.stop == Some(s.made) && s1.threads[v] == Waiting(s.made) && u != v && w != v;
    s' := Go(from, s1, GotTimeout(u));
  }

  /** The old starter succeeds: Stop closes the second one's channel. */
  lemma DoomsSecond(from: Sys, s: Sys, t: Tid, u: Tid, w: Tid) returns (s': Sys)
    requires Goes(from, s) && !s.panicked && t in s.threads && s.threads[t].Succeeding?
    requires At(s, w, Await) && u in s.threads && s.threads[u].Waiting? && t != u && u != w
    requires s.stop == Some(s.threads[u].fwd) && s.threads[u].fwd !in s.closed
    ensures Goes(from, s') && Doomed(s', u, w)
  {
    var m := Bound(s.threads.Keys);
    var s1 := Go(from, s, Commit(t, m));
    s' := Go(from, s1, StopCall);
  }

  lemma LeftIsDoomed(s: Sys, t: Tid) returns (s': Sys, v: Tid, w: Tid)
    requires Left(s, t)
    ensures Goes(s, s') && Doomed(s', v, w)
  {
    GoesNowhere(s);
    var u := Bound(s.threads.Keys);
    var s1 := BeginsForward(s, s, u);
    w := Bound(s1.threads.Keys);
    var s2 := BeginsWaiting(s, s1, w);
    if s2.threads[t].Succeeding? {
      v := u;
      s' := DoomsSecond(s, s2, t, u, w);
    } else {
      s', v := DoomsThird(s, s2, t, u, w);
    }
  }

  lemma ForeignExitDooms(s: Sys, a: Action)
    requires Inv(s) && Enabled(s, a) && ForeignExit(s, a) && !Apply(s, a).panicked
    ensures var m := Apply(s, a); CanPanic(m) && CanRunOnClosed(m) && CanFailBare(m) && CanReleaseWithNil(m)
  {
    var t :| IsStarter(s, t);
    assert Left(Apply(s, a), t);
    var d, v, w := LeftIsDoomed(Apply(s, a), t);
    DoomedPanics(Apply(s, a), d, v, w);
    DoomedRunsOnClosed(Apply(s, a), d, v, w);
    DoomedReleasesWithNil(Apply(s, a), d, v, w);
  }

  // ---------------------------------------------------------------- exactly when

  /**
   * From a good state, a step makes a double close possible, now or later and without any further foreign exit,
   * if and only if it is a foreign exit from Starting.
   */
  lemma DoubleCloseIff(s: Sys, a: Action)
    requires Inv(s) && Enabled(s, a)
    ensures CanPanic(Apply(s, a)) <==> ForeignExit(s, a)
  {
    if !ForeignExit(s, a) {
      InvKept(s, a);
      GoodStatesAreSafe(Apply(s, a));
    } else if Apply(s, a).panicked {
      GoesNowhere(Apply(s, a));
    } else {
      ForeignExitDooms(s, a);
    }
  }

  /** The same for Running on a closed channel, for a step that does not itself panic. */
  lemma RunningOnClosedIff(s: Sys, a: Action)
    requires Inv(s) && Enabled(s, a) && !Apply(s, a).panicked
    ensures CanRunOnClosed(Apply(s, a)) <==> ForeignExit(s, a)
  {
    if ForeignExit(s, a) {
      ForeignExitDooms(s, a);
    } else {
      InvKept(s, a);
      GoodStatesAreSafe(Apply(s, a));
    }
  }

  /** The same for a failure without an error, and for a waiter that it releases with nil. */
  lemma NilReleaseIff(s: Sys, a: Action)
    requires Inv(s) && Enabled(s, a) && !Apply(s, a).panicked
    ensures CanFailBare(Apply(s, a)) <==> ForeignExit(s, a)
    ensures CanReleaseWithNil(Apply(s, a)) <==> ForeignExit(s, a)
  {
    if ForeignExit(s, a) {
      ForeignExitDooms(s, a);
    } else {
      InvKept(s, a);
      GoodStatesAreSafe(Apply(s, a));
    }
  }

  /** The first foreign exit of a run. */
  lemma {:induction false} FirstForeignExit(now: int, acts: seq<Action>, n: nat) returns (i: nat)
    requires ValidFrom(Init(now), acts) && n <= |acts|
    requires exists k | 0 <= k < n :: ForeignExit(After(now, acts, k), acts[k])
    ensures i < n && ForeignExit(After(now, acts, i), acts[i])
    ensures forall k | 0 <= k < i :: !ForeignExit(After(now, acts, k), acts[k])
  {
    if exists k | 0 <= k < n - 1 :: ForeignExit(After(now, acts, k), acts[k]) {
      i := FirstForeignExit(now, acts, n - 1);
    } else {
      i := n - 1;
    }
  }

  /**
   * Over a whole run of any number of threads: a double close is possible from some state of the run, without
   * any further foreign exit, if and only if the run holds a foreign exit.
   */
  lemma DoubleCloseRunIff(now: int, acts: seq<Action>)
    requires ValidFrom(Init(now), acts)
    ensures (exists i | 0 <= i <= |acts| :: CanPanic(After(now, acts, i))) <==> !OnlyStarterLeavesStarting(now, acts)
  {
    if OnlyStarterLeavesStarting(now, acts) {
      forall i | 0 <= i <= |acts|
        ensures !CanPanic(After(now, acts, i))
      {
        InvBefore(now, acts, i);
        GoodStatesAreSafe(After(now, acts, i));
      }
    } else {
      var i := FirstForeignExit(now, acts, |acts|);
      InvBefore(now, acts, i);
      PrefixValid(Init(now), acts, i);
      DoubleCloseIff(After(now, acts, i), acts[i]);
      assert CanPanic(After(now, acts, i + 1));
    }
  }

  // ---------------------------------------------------------------- the shortest runs from a new tunnel

  /** A first Start, up to the point where it waits for its forward. */
  lemma WaitingStart(now: int) returns (acts: seq<Action>, s: Sys)
    ensures Reached(Init(now), acts, s)
    ensures s == Init(now).(state := Starting, stop := Some(0), made := 1, threads := map[0 := Waiting(0)])
  {
    acts, s := [], Init(now);
    acts, s := Step(Init(now), acts, s, Call(0));
    acts, s := Step(Init(now), acts, s, Enter(0));
    acts, s := Step(Init(now), acts, s, DiscoverOk(0));
    acts, s := Step(Init(now), acts, s, CreateOk(0));
    assert s.threads == map[0 := Waiting(0)];
  }

  /** The same, with a second Start that waits for the first. */
  lemma StartAndWaiter(now: int) returns (acts: seq<Action>, s: Sys)
    ensures Reached(Init(now), acts, s)
    ensures s == Init(now).(state := Starting, stop := Some(0), made := 1, threads := map[0 := Waiting(0), 1 := Await])
  {
    acts, s := WaitingStart(now);
    acts, s := Step(Init(now), acts, s, Call(1));
    acts, s := Step(Init(now), acts, s, Enter(1));
    assert s.threads == map[0 := Waiting(0), 1 := Await];
  }

  /** MarkFailed on a Starting tunnel, then the starter's time-out: the stop channel is closed twice. */
  lemma MarkFailedWhileStartingClosesTwice(now: int)
    ensures exists acts, s :: Reached(Init(now), acts, s) && s.panicked
  {
    var acts, s := WaitingStart(now);
    acts, s := Step(Init(now), acts, s, MarkFailedCall(Other(1)));
    acts, s := Step(Init(now), acts, s, GotTimeout(0));
  }

  /** MarkFailed on a Starting tunnel, then ready: Failed is overwritten by Running on a closed stop channel. */
  lemma MarkFailedWhileStartingRunsOnClosedChannel(now: int)
    ensures exists acts, s :: Reached(Init(now), acts, s) && s.state == Running && !StopOpen(s)
  {
    var acts, s := WaitingStart(now);
    acts, s := Step(Init(now), acts, s, GotReady(0));
    acts, s := Step(Init(now), acts, s, MarkFailedCall(Other(1)));
    acts, s := Step(Init(now), acts, s, PortsOk(0, 40000));
    acts, s := Step(Init(now), acts, s, Commit(0, 1));
  }

  /** MarkFailed on a Starting tunnel ends the forward with nil: a waiter returns nil, and nothing ever ran. */
  lemma MarkFailedWhileStartingReleasesWaiterWithNil(now: int)
    ensures exists acts, s ::
      Reached(Init(now), acts, s) && At(s, 1, Returned(None)) && s.state == Failed && s.localPort == 0
  {
    var acts, s := ForwardEndsBare(now);
    acts, s := Step(Init(now), acts, s, Fail(0));
    assert s.lastError == None && s.threads[1] == Await;
    acts, s := Step(Init(now), acts, s, Poll(1));
  }

  lemma ForwardEndsBare(now: int) returns (acts: seq<Action>, s: Sys)
    ensures Reached(Init(now), acts, s)
    ensures s == Init(now).(state := Failed, lastError := Some(Other(1)), stop := Some(0), made := 1, closed := {0},
                            threads := map[0 := Failing(None, Other(0)), 1 := Await])
  {
    acts, s := StartAndWaiter(now);
    acts, s := Step(Init(now), acts, s, MarkFailedCall(Other(1)));
    acts, s := Step(Init(now), acts, s, GotEnd(0, None));
    assert s.threads == map[0 := Failing(None, Other(0)), 1 := Await];
  }
}
