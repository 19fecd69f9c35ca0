/**
 * The tunnel protocol split at its lock releases and channel operations, for any number of threads.
 * A state holds the tunnel's fields, the set of closed stop channels and the program counter of every
 * goroutine that is, or was, inside Start or monitorErrors.  Stop, MarkFailed and Touch take the lock
 * once, so each is one action, whichever thread calls it.
 */
module TunnelThreads {
  import opened Wrappers
  import opened Tunnel

  type Tid = nat
  type Chan = nat

  datatype Pc =
    | Entry                                   // Start called (or called again by awaitReady)
    | Await                                   // polling in awaitReady
    | Discover                                // in startPortForward, state was set to Starting
    | Create
    | Waiting(fwd: Chan)                      // in waitForReady; fwd is the channel given to the forwarder
    | Ports(fwd: Chan)                        // ready was signalled, handleReady entered
    | Succeeding(port: Port, fwd: Chan)       // about to lock and set Running
    | ContextClosed                           // closed the stop channel, about to lock and set Idle
    | Failing(cause: Option<Error>, ret: Error) // about to lock in setFailed
    | Returned(result: Option<Error>)
    | Monitor(fwd: Chan)                      // monitorErrors, waiting on the forward's error channel
    | MonitorFailing(err: Error)              // got an error, about to lock in setFailed
    | MonitorDone

  datatype Sys = Sys(
    state: State,
    localPort: nat,
    lastAccess: int,
    lastError: Option<Error>,
    stop: Option<Chan>,
    closed: set<Chan>,
    made: Chan,               // channels below this number have been made
    panicked: bool,            // some goroutine closed a nil or a closed channel
    threads: map<Tid, Pc>)

  datatype Action =
    | Call(t: Tid)
    | Enter(t: Tid)
    | Poll(t: Tid)
    | AwaitCancel(t: Tid)
    | DiscoverOk(t: Tid)
    | DiscoverErr(t: Tid, err: Error)
    | TransportErr(t: Tid, err: Error)
    | ForwarderErr(t: Tid, err: Error)
    | CreateOk(t: Tid)
    | GotReady(t: Tid)
    | GotEnd(t: Tid, cause: Option<Error>)    // ForwardPorts returned
    | GotContextDone(t: Tid)
    | GotTimeout(t: Tid)
    | PortsErr(t: Tid, err: Error)
    | PortsOk(t: Tid, port: Port)
    | Commit(t: Tid, monitor: Tid)            // lock, set Running, spawn the monitor, return nil
    | SetIdle(t: Tid)
    | Fail(t: Tid)
    | MonitorGets(t: Tid, cause: Option<Error>)
    | MonitorFail(t: Tid)
    | StopCall
    | MarkFailedCall(err: Error)
    | TouchCall(now: int)

  function Init(now: int): Sys {
    Sys(Idle, 0, now, None, None, {}, 0, false, map[])
  }

  predicate At(s: Sys, t: Tid, pc: Pc) {
    t in s.threads && s.threads[t] == pc
  }

  /**
   * When an action can happen.  Nothing happens after a panic.  ForwardPorts, whose end GotEnd and
   * MonitorGets report, returns nil only after its stop channel was closed.
   */
  predicate Enabled(s: Sys, a: Action) {
    && !s.panicked
    && match a
       case Call(t) => t in s.threads ==> s.threads[t].Returned?
       case Enter(t) => At(s, t, Entry)
       case Poll(t) => At(s, t, Await)
       case AwaitCancel(t) => At(s, t, Await)
       case DiscoverOk(t) => At(s, t, Discover)
       case DiscoverErr(t, _) => At(s, t, Discover)
       case TransportErr(t, _) => At(s, t, Create)
       case ForwarderErr(t, _) => At(s, t, Create)
       case CreateOk(t) => At(s, t, Create)
       case GotReady(t) => t in s.threads && s.threads[t].Waiting?
       case GotEnd(t, cause) =>
         t in s.threads && s.threads[t].Waiting? && (cause.None? ==> s.threads[t].fwd in s.closed)
       case GotContextDone(t) => t in s.threads && s.threads[t].Waiting?
       case GotTimeout(t) => t in s.threads && s.threads[t].Waiting?
       case PortsErr(t, _) => t in s.threads && s.threads[t].Ports?
       case PortsOk(t, _) => t in s.threads && s.threads[t].Ports?
       case Commit(t, m) => t in s.threads && s.threads[t].Succeeding? && m !in s.threads
       case SetIdle(t) => At(s, t, ContextClosed)
       case Fail(t) => t in s.threads && s.threads[t].Failing?
       case MonitorGets(t, cause) =>
         t in s.threads && s.threads[t].Monitor? && (cause.None? ==> s.threads[t].fwd in s.closed)
       case MonitorFail(t) => t in s.threads && s.threads[t].MonitorFailing?
       case StopCall => true
       case MarkFailedCall(_) => true
       case TouchCall(_) => true
  }

  function Goto(s: Sys, t: Tid, pc: Pc): Sys {
    s.(threads := s.threads[t := pc])
  }

  /** close(t.stopChan): a panic unless the channel was made and is open. */
  function CloseStop(s: Sys): Sys {
    if s.stop.None? || s.stop.value in s.closed then s.(panicked := true)
    else s.(closed := s.closed + {s.stop.value})
  }

  function SetFailed(s: Sys, err: Option<Error>): Sys {
    s.(lastError := err, state := Failed)
  }

  function MakeChannels(s: Sys): Sys {
    s.(stop := Some(s.made), made := s.made + 1)
  }

  function Apply(s: Sys, a: Action): Sys
    requires Enabled(s, a)
  {
    match a
    case Call(t) => Goto(s, t, Entry)
    case Enter(t) =>
      if s.state == Running then Goto(s, t, Returned(None))
      else if s.state == Starting then Goto(s, t, Await)
      else Goto(s.(state := Starting), t, Discover)
    case Poll(t) =>
      if s.state == Running then Goto(s, t, Returned(None))
      else if s.state == Failed then Goto(s, t, Returned(s.lastError))
      else if s.state == Idle then Goto(s, t, Entry)
      else s
    case AwaitCancel(t) => Goto(s, t, Returned(Some(Cancelled)))
    case DiscoverOk(t) => Goto(s, t, Create)
    case DiscoverErr(t, e) => Goto(s, t, Failing(Some(e), e))
    case TransportErr(t, e) => Goto(s, t, Failing(Some(e), e))
    case ForwarderErr(t, e) => Goto(MakeChannels(s), t, Failing(Some(e), e))
    case CreateOk(t) => Goto(MakeChannels(s), t, Waiting(s.made))
    case GotReady(t) => Goto(s, t, Ports(s.threads[t].fwd))
    case GotEnd(t, cause) => Goto(s, t, Failing(cause, if cause.Some? then cause.value else Other(0)))
    case GotContextDone(t) => Goto(CloseStop(s), t, ContextClosed)
    case GotTimeout(t) => Goto(CloseStop(s), t, Failing(Some(ReadyTimeout), ReadyTimeout))
    case PortsErr(t, e) => Goto(s, t, Failing(Some(e), e))
    case PortsOk(t, p) => Goto(s, t, Succeeding(p, s.threads[t].fwd))
    case Commit(t, m) =>
      var s' := s.(localPort := s.threads[t].port, state := Running);
      Goto(Goto(s', t, Returned(None)), m, Monitor(s.threads[t].fwd))
    case SetIdle(t) => Goto(s.(state := Idle), t, Returned(Some(Cancelled)))
    case Fail(t) => Goto(SetFailed(s, s.threads[t].cause), t, Returned(Some(s.threads[t].ret)))
    case MonitorGets(t, cause) =>
      Goto(s, t, if cause.None? then MonitorDone else MonitorFailing(cause.value))
    case MonitorFail(t) => Goto(SetFailed(s, Some(s.threads[t].err)), t, MonitorDone)
    case StopCall =>
      if s.state != Running then s
      else
        var s' := s.(state := Stopping);
        (if s'.stop.Some? then CloseStop(s') else s').(state := Idle)
    case MarkFailedCall(e) =>
      if s.state == Running || s.state == Starting then
        var s' := SetFailed(s, Some(e));
        if s'.stop.Some? then CloseStop(s') else s'
      else s
    case TouchCall(now) => s.(lastAccess := now)
  }

  // ---------------------------------------------------------------- runs

  predicate ValidFrom(s: Sys, acts: seq<Action>)
    decreases |acts|, 0
  {
    if acts == [] then true
    else
      var n := |acts| - 1;
      ValidFrom(s, acts[..n]) && Enabled(Exec(s, acts[..n]), acts[n])
  }

  function Exec(s: Sys, acts: seq<Action>): Sys
    requires ValidFrom(s, acts)
    decreases |acts|, 1
  {
    if acts == [] then s
    else Apply(Exec(s, acts[..|acts| - 1]), acts[|acts| - 1])
  }

  lemma {:induction false} PrefixValid(s: Sys, acts: seq<Action>, i: nat)
    requires ValidFrom(s, acts) && i <= |acts|
    ensures ValidFrom(s, acts[..i])
    ensures i < |acts| ==> Enabled(Exec(s, acts[..i]), acts[i])
    ensures i < |acts| ==> ValidFrom(s, acts[..i + 1])
    ensures i < |acts| ==> Exec(s, acts[..i + 1]) == Apply(Exec(s, acts[..i]), acts[i])
  {
    var n := |acts| - 1;
    if i == |acts| {
      assert acts[..i] == acts;
    } else if i == n {
      assert acts[..i + 1] == acts;
    } else {
      PrefixValid(s, acts[..n], i);
      assert acts[..n][..i] == acts[..i];
      assert acts[..n][..i + 1] == acts[..i + 1];
    }
  }

  /** The state after the first i actions of a run from a new tunnel. */
  function After(now: int, acts: seq<Action>, i: nat): Sys
    requires ValidFrom(Init(now), acts) && i <= |acts|
  {
    PrefixValid(Init(now), acts, i);
    Exec(Init(now), acts[..i])
  }

  // ---------------------------------------------------------------- the invariant

  /** The thread is between entry and exit of startPortForward. */
  predicate Starter(pc: Pc) {
    pc.Discover? || pc.Create? || pc.Waiting? || pc.Ports? || pc.Succeeding? || pc.ContextClosed? || pc.Failing?
  }

  predicate IsStarter(s: Sys, t: Tid) {
    t in s.threads && Starter(s.threads[t])
  }

  ghost predicate OneStarterIffStarting(s: Sys) {
    && (forall t, u | IsStarter(s, t) && IsStarter(s, u) :: t == u)
    && (s.state == Starting <==> exists t :: IsStarter(s, t))
  }

  predicate StopOpen(s: Sys) {
    s.stop.Some? && s.stop.value !in s.closed
  }

  predicate PcOk(s: Sys, pc: Pc) {
    && (pc.Waiting? || pc.Ports? || pc.Succeeding? ==> s.stop == Some(pc.fwd) && pc.fwd !in s.closed)
    && (pc.Failing? ==> pc.cause.Some?)
  }

  ghost predicate Inv(s: Sys) {
    && !s.panicked
    && s.state != Stopping
    && OneStarterIffStarting(s)
    && (s.state == Running ==> StopOpen(s) && s.localPort != 0)
    && (s.state == Failed ==> s.lastError.Some?)
    && (forall c | c in s.closed :: c < s.made)
    && (s.stop.Some? ==> s.stop.value < s.made)
    && (forall t | IsStarter(s, t) :: PcOk(s, s.threads[t]))
  }

  /** MarkFailed, or the monitor of an older forward, takes the tunnel out of Starting under the starter. */
  predicate ForeignExit(s: Sys, a: Action) {
    s.state == Starting && (a.MarkFailedCall? || a.MonitorFail?)
  }

  /** An action of a monitor, or a call other than Start. */
  predicate Outside(a: Action) {
    a.MonitorFail? || a.StopCall? || a.MarkFailedCall? || a.TouchCall? || a.MonitorGets?
  }

  lemma StarterMoves(s: Sys, a: Action)
    requires Inv(s) && Enabled(s, a) && !Outside(a) && IsStarter(s, a.t)
    ensures Inv(Apply(s, a))
  {
    var s' := Apply(s, a);
    forall u | IsStarter(s', u)
      ensures u == a.t
    {
      assert u != a.t ==> IsStarter(s, u);
    }
    if Starter(s'.threads[a.t]) {
      assert IsStarter(s', a.t);
    }
  }

  /** A thread enters startPortForward, when nobody was inside. */
  lemma StarterEnters(s: Sys, t: Tid)
    requires Inv(s) && Enabled(s, Enter(t)) && s.state != Running && s.state != Starting
    ensures Inv(Apply(s, Enter(t)))
  {
    var s' := Apply(s, Enter(t));
    forall u | IsStarter(s', u)
      ensures u == t
    {
      assert !IsStarter(s, u);
    }
    assert IsStarter(s', t);
  }

  /** No other action of threads outside startPortForward changes who is inside. */
  lemma OthersMove(s: Sys, a: Action)
    requires Inv(s) && Enabled(s, a) && !ForeignExit(s, a)
    requires Outside(a) || !IsStarter(s, a.t)
    requires a.Enter? ==> s.state == Running || s.state == Starting
    ensures Inv(Apply(s, a))
  {
    var s' := Apply(s, a);
    forall u
      ensures IsStarter(s', u) <==> IsStarter(s, u)
    {
    }
  }

  lemma InvKept(s: Sys, a: Action)
    requires Inv(s) && Enabled(s, a) && !ForeignExit(s, a)
    ensures Inv(Apply(s, a))
  {
    if Outside(a) {
      OthersMove(s, a);
    } else if IsStarter(s, a.t) {
      StarterMoves(s, a);
    } else if a.Enter? && s.state != Running && s.state != Starting {
      StarterEnters(s, a.t);
    } else {
      OthersMove(s, a);
    }
  }

  /** One step from a good state: mutual exclusion of starters survives exactly when the step is no foreign exit. */
  lemma StepKeepsInvIff(s: Sys, a: Action)
    requires Inv(s) && Enabled(s, a)
    ensures Inv(Apply(s, a)) <==> !ForeignExit(s, a)
  {
    if ForeignExit(s, a) {
      ForeignExitBreaks(s, a);
    } else {
      InvKept(s, a);
    }
  }

  lemma ForeignExitBreaks(s: Sys, a: Action)
    requires OneStarterIffStarting(s) && Enabled(s, a) && ForeignExit(s, a)
    ensures !OneStarterIffStarting(Apply(s, a))
  {
    var t :| IsStarter(s, t);
    assert IsStarter(Apply(s, a), t);
  }

  /** No action of the run is a foreign exit of Starting: a caller-side condition on MarkFailed and late monitors. */
  ghost predicate OnlyStarterLeavesStarting(now: int, acts: seq<Action>) {
    ValidFrom(Init(now), acts) && forall i | 0 <= i < |acts| :: !ForeignExit(After(now, acts, i), acts[i])
  }

  /** Up to the first foreign exit of a run the invariant holds. */
  lemma {:induction false} InvBefore(now: int, acts: seq<Action>, i: nat)
    requires ValidFrom(Init(now), acts) && i <= |acts|
    requires forall k | 0 <= k < i :: !ForeignExit(After(now, acts, k), acts[k])
    ensures Inv(After(now, acts, i))
  {
    if i > 0 {
      InvBefore(now, acts, i - 1);
      PrefixValid(Init(now), acts, i - 1);
      InvKept(After(now, acts, i - 1), acts[i - 1]);
    }
  }

  /**
   * In every interleaving: "exactly one thread is inside startPortForward iff the state is Starting" holds
   * in all states of a run if and only if only the starter leaves Starting in that run.
   */
  lemma OneStarterIff(now: int, acts: seq<Action>)
    requires ValidFrom(Init(now), acts)
    ensures (forall i | 0 <= i <= |acts| :: OneStarterIffStarting(After(now, acts, i)))
       <==> OnlyStarterLeavesStarting(now, acts)
  {
    if OnlyStarterLeavesStarting(now, acts) {
      forall i | 0 <= i <= |acts|
        ensures OneStarterIffStarting(After(now, acts, i))
      {
        InvBefore(now, acts, i);
      }
    } else {
      var i :| 0 <= i < |acts| && ForeignExit(After(now, acts, i), acts[i]);
      PrefixValid(Init(now), acts, i);
      if OneStarterIffStarting(After(now, acts, i)) {
        ForeignExitBreaks(After(now, acts, i), acts[i]);
        assert !OneStarterIffStarting(After(now, acts, i + 1));
      }
    }
  }

  /**
   * Under that condition no stop channel is closed twice (no panic), Stopping is never visible at a lock
   * release, Running implies an allocated open stop channel and a local port, and Failed carries an error.
   */
  lemma ChannelsSafe(now: int, acts: seq<Action>)
    requires ValidFrom(Init(now), acts) && OnlyStarterLeavesStarting(now, acts)
    ensures var s := Exec(Init(now), acts);
      && !s.panicked && s.state != Stopping
      && (s.state == Running ==> s.stop.Some? && s.stop.value !in s.closed && s.localPort != 0)
      && (s.state == Failed ==> s.lastError.Some?)
  {
    InvBefore(now, acts, |acts|);
    assert acts[..|acts|] == acts;
  }

  // ---------------------------------------------------------------- what Start returns

  /** ForwardPorts returned nil before it was ready. */
  predicate NilEnd(a: Action) {
    a.GotEnd? && a.cause.None?
  }

  ghost predicate ErrorsCarried(s: Sys) {
    && (s.state == Running ==> s.localPort != 0)
    && (s.state == Failed ==> s.lastError.Some?)
    && (forall t | t in s.threads && s.threads[t].Failing? :: s.threads[t].cause.Some?)
  }

  lemma StepCarriesErrors(s: Sys, a: Action)
    requires ErrorsCarried(s) && Enabled(s, a) && !NilEnd(a)
    ensures ErrorsCarried(Apply(s, a))
  {
  }

  lemma {:induction false} RunCarriesErrors(now: int, acts: seq<Action>, i: nat)
    requires ValidFrom(Init(now), acts) && i <= |acts|
    requires forall j | 0 <= j < |acts| :: !NilEnd(acts[j])
    ensures ErrorsCarried(After(now, acts, i))
  {
    if i > 0 {
      RunCarriesErrors(now, acts, i - 1);
      PrefixValid(Init(now), acts, i - 1);
      StepCarriesErrors(After(now, acts, i - 1), acts[i - 1]);
    }
  }

  /** When only the starter leaves Starting, ForwardPorts cannot return nil under a waiting starter. */
  lemma NoNilEnds(now: int, acts: seq<Action>, j: nat)
    requires ValidFrom(Init(now), acts) && OnlyStarterLeavesStarting(now, acts) && j < |acts|
    ensures !NilEnd(acts[j])
  {
    InvBefore(now, acts, j);
    PrefixValid(Init(now), acts, j);
    var s := After(now, acts, j);
    if acts[j].GotEnd? {
      assert IsStarter(s, acts[j].t);
    }
  }

  /** What the environment's forwards leave: Running has a port. */
  ghost predicate RunningHasPort(s: Sys) {
    s.state == Running ==> s.localPort != 0
  }

  lemma {:induction false} RunHasPort(now: int, acts: seq<Action>, i: nat)
    requires ValidFrom(Init(now), acts) && i <= |acts|
    ensures RunningHasPort(After(now, acts, i))
  {
    if i > 0 {
      RunHasPort(now, acts, i - 1);
      PrefixValid(Init(now), acts, i - 1);
    }
  }

  /** The thread polls a Failed tunnel that carries no error. */
  predicate PollsBareFailure(s: Sys, a: Action, t: Tid) {
    a == Poll(t) && s.state == Failed && s.lastError.None?
  }

  /** A Start returns nil only while the state is, or becomes, Running, or by polling a failure without an error. */
  lemma NilReturnStep(s: Sys, a: Action, t: Tid)
    requires RunningHasPort(s) && Enabled(s, a) && a != Call(t)
    requires !At(s, t, Returned(None)) && At(Apply(s, a), t, Returned(None))
    ensures SeenRunning(Apply(s, a)) || PollsBareFailure(s, a, t)
  {
  }

  predicate SeenRunning(s: Sys) {
    s.state == Running && s.localPort != 0
  }

  lemma CallIsNoReturn(s: Sys, a: Action, t: Tid)
    requires Enabled(s, a) && At(Apply(s, a), t, Returned(None))
    ensures a != Call(t)
  {
  }

  /** By moment i the state was Running with a port, or the thread has just polled a failure without an error. */
  predicate NilExplained(now: int, acts: seq<Action>, t: Tid, i: nat) {
    && ValidFrom(Init(now), acts) && i <= |acts|
    && (SeenRunning(After(now, acts, i)) || (i > 0 && PollsBareFailure(After(now, acts, i - 1), acts[i - 1], t)))
  }

  lemma {:induction false} NilReturnBy(now: int, acts: seq<Action>, t: Tid, m: nat, n: nat)
    requires ValidFrom(Init(now), acts) && m < n <= |acts| && acts[m] == Call(t)
    requires forall j | m < j < n :: acts[j] != Call(t)
    requires At(After(now, acts, n), t, Returned(None))
    ensures exists i | m < i <= n :: NilExplained(now, acts, t, i)
  {
    var s, a := After(now, acts, n - 1), acts[n - 1];
    PrefixValid(Init(now), acts, n - 1);
    CallIsNoReturn(s, a, t);
    if At(s, t, Returned(None)) {
      NilReturnBy(now, acts, t, m, n - 1);
    } else {
      RunHasPort(now, acts, n - 1);
      NilReturnStep(s, a, t);
      assert NilExplained(now, acts, t, n);
    }
  }

  /**
   * In every run: a Start that was called at step m and has returned nil by the end, as starter or as waiter and
   * through any number of retries, saw a moment when the state was Running with a local port; or it is a waiter
   * that polled Failed while no error was recorded.
   */
  lemma NilReturnExplained(now: int, acts: seq<Action>, t: Tid, m: nat)
    requires ValidFrom(Init(now), acts) && m < |acts| && acts[m] == Call(t)
    requires forall j | m < j < |acts| :: acts[j] != Call(t)
    requires At(Exec(Init(now), acts), t, Returned(None))
    ensures exists i | m < i <= |acts| :: NilExplained(now, acts, t, i)
  {
    assert acts[..|acts|] == acts;
    NilReturnBy(now, acts, t, m, |acts|);
  }

  /** Without forwards that end with nil under a waiting starter, the second case does not arise. */
  lemma NilReturnSawRunning(now: int, acts: seq<Action>, t: Tid, m: nat)
    requires ValidFrom(Init(now), acts) && m < |acts| && acts[m] == Call(t)
    requires forall j | 0 <= j < |acts| :: !NilEnd(acts[j])
    requires forall j | m < j < |acts| :: acts[j] != Call(t)
    requires At(Exec(Init(now), acts), t, Returned(None))
    ensures exists i | m < i <= |acts| :: SeenRunning(After(now, acts, i))
  {
    NilReturnExplained(now, acts, t, m);
    var i :| m < i <= |acts| && NilExplained(now, acts, t, i);
    RunCarriesErrors(now, acts, i - 1);
    assert SeenRunning(After(now, acts, i));
  }

  /** The same under the hypothesis that only the starter leaves Starting. */
  lemma StartReturnsNilAfterRunning(now: int, acts: seq<Action>, t: Tid, m: nat)
    requires ValidFrom(Init(now), acts) && OnlyStarterLeavesStarting(now, acts)
    requires m < |acts| && acts[m] == Call(t) && (forall j | m < j < |acts| :: acts[j] != Call(t))
    requires At(Exec(Init(now), acts), t, Returned(None))
    ensures exists i | m < i <= |acts| :: SeenRunning(After(now, acts, i))
  {
    forall j | 0 <= j < |acts|
      ensures !NilEnd(acts[j])
    {
      NoNilEnds(now, acts, j);
    }
    NilReturnSawRunning(now, acts, t, m);
  }

  /** A waiter that finds the tunnel Failed returns an error, not nil. */
  lemma WaiterReleasedByFailedGetsError(now: int, acts: seq<Action>, t: Tid)
    requires ValidFrom(Init(now), acts) && OnlyStarterLeavesStarting(now, acts)
    requires var s := Exec(Init(now), acts); Enabled(s, Poll(t)) && s.state == Failed
    ensures var s := Exec(Init(now), acts);
      exists e :: At(Apply(s, Poll(t)), t, Returned(Some(e))) && s.lastError == Some(e)
  {
    ChannelsSafe(now, acts);
    var s := Exec(Init(now), acts);
    assert At(Apply(s, Poll(t)), t, Returned(Some(s.lastError.value)));
  }

  /** While the state is Starting, some starter can take its next step, so no waiter waits for nobody. */
  lemma StartingIsNeverStuck(s: Sys)
    requires Inv(s) && s.state == Starting
    ensures exists a :: Enabled(s, a) && !Outside(a) && IsStarter(s, a.t)
  {
    var t :| IsStarter(s, t);
    var m := Bound(s.threads.Keys);
    var a := match s.threads[t]
      case Discover => DiscoverOk(t)
      case Create => CreateOk(t)
      case Waiting(_) => GotTimeout(t)
      case Ports(_) => PortsErr(t, NoPortsForwarded)
      case Succeeding(_, _) => Commit(t, m)
      case ContextClosed => SetIdle(t)
      case _ => Fail(t);
    assert Enabled(s, a);
  }

  lemma {:induction false} Bound(used: set<Tid>) returns (m: Tid)
    ensures forall t | t in used :: t < m
    decreases |used|
  {
    m := 0;
    if used != {} {
      var x :| x in used;
      var b := Bound(used - {x});
      m := if x < b then b else x + 1;
      assert forall t | t in used :: t == x || t in used - {x};
    }
  }

  // ---------------------------------------------------------------- building runs

  ghost predicate Reached(from: Sys, acts: seq<Action>, s: Sys) {
    ValidFrom(from, acts) && Exec(from, acts) == s
  }

  lemma Step(from: Sys, acts: seq<Action>, s: Sys, a: Action) returns (acts': seq<Action>, s': Sys)
    requires Reached(from, acts, s) && Enabled(s, a)
    ensures acts' == acts + [a] && s' == Apply(s, a) && Reached(from, acts', s')
  {
    acts', s' := acts + [a], Apply(s, a);
  }

  // ---------------------------------------------------------------- method grain is the uninterrupted run

  /** The fields a whole operation reads and writes, with the channel's identity forgotten. */
  function CoreOf(s: Sys): Core {
    Core(s.state, s.localPort, s.lastAccess,
         if s.stop.None? then Absent else if s.stop.value in s.closed then Closed else Open, s.lastError)
  }

  /** The actions of one thread that runs Start to its end while nobody else moves. */
  function Script(s: Sys, o: Outcome, t: Tid, m: Tid): seq<Action> {
    if s.state == Running then [Call(t), Enter(t)]
    else match o
      case DiscoverFails(e) => [Call(t), Enter(t), DiscoverErr(t, e), Fail(t)]
      case TransportFails(e) => [Call(t), Enter(t), DiscoverOk(t), TransportErr(t, e), Fail(t)]
      case ForwarderFails(e) => [Call(t), Enter(t), DiscoverOk(t), ForwarderErr(t, e), Fail(t)]
      case _ => [Call(t), Enter(t), DiscoverOk(t), CreateOk(t)] + Answer(o, t, m)
  }

  /** The rest of the script, once the forward was started. */
  function Answer(o: Outcome, t: Tid, m: Tid): seq<Action> {
    match o
    case ForwardEnds(cause) => [GotEnd(t, cause), Fail(t)]
    case ContextDone => [GotContextDone(t), SetIdle(t)]
    case TimedOut => [GotTimeout(t), Fail(t)]
    case PortsFail(e) => [GotReady(t), PortsErr(t, e), Fail(t)]
    case Ready(p) => [GotReady(t), PortsOk(t, p), Commit(t, m)]
    case _ => []
  }

  /** A chain of states, each reached from the one before by the script's next action, is a run. */
  lemma {:induction false} Chain(script: seq<Action>, states: seq<Sys>)
    requires |states| == |script| + 1
    requires forall i | 0 <= i < |script| ::
      Enabled(states[i], script[i]) && states[i + 1] == Apply(states[i], script[i])
    ensures Reached(states[0], script, states[|script|])
  {
    var n := |script| - 1;
    if n >= 0 {
      Chain(script[..n], states[..n + 1]);
    }
  }

  lemma {:induction false} RunConcat(s: Sys, a: seq<Action>, b: seq<Action>)
    requires ValidFrom(s, a) && ValidFrom(Exec(s, a), b)
    ensures ValidFrom(s, a + b) && Exec(s, a + b) == Exec(Exec(s, a), b)
  {
    if b == [] {
      assert a + b == a;
    } else {
      var n := |b| - 1;
      RunConcat(s, a, b[..n]);
      assert (a + b)[..|a| + n] == a + b[..n];
    }
  }

  /** No panic, nobody starting, and the next channel is new. */
  predicate Calm(s: Sys) {
    !s.panicked && s.state != Starting && s.made !in s.closed
  }

  /** The state an uninterrupted Start must end in. */
  predicate Outcomes(s: Sys, o: Outcome, t: Tid, s': Sys) {
    && CoreOf(s') == StartCore(CoreOf(s), o).0
    && At(s', t, Returned(StartCore(CoreOf(s), o).1))
    && !s'.panicked
  }

  function Forwarding(s: Sys, t: Tid): Sys {
    MakeChannels(s).(state := Starting, threads := s.threads[t := Waiting(s.made)])
  }

  lemma StartsForward(s: Sys, t: Tid)
    requires Calm(s) && t !in s.threads && s.state != Running
    ensures Reached(s, [Call(t), Enter(t), DiscoverOk(t), CreateOk(t)], Forwarding(s, t))
  {
    var s1 := Apply(s, Call(t));
    var s2 := Apply(s1, Enter(t));
    var s3 := Apply(s2, DiscoverOk(t));
    var s4 := Apply(s3, CreateOk(t));
    assert s4.threads == s.threads[t := Waiting(s.made)];
    Chain([Call(t), Enter(t), DiscoverOk(t), CreateOk(t)], [s, s1, s2, s3, s4]);
  }

  /** The forward ends, the caller gives up, or the time is up. */
  lemma GetsNoForward(s: Sys, o: Outcome, t: Tid, m: Tid) returns (s': Sys)
    requires Calm(s) && t !in s.threads && s.state != Running && m !in s.threads && t != m
    requires o.ForwardEnds? || o.ContextDone? || o.TimedOut?
    requires o != ForwardEnds(None)
    ensures Reached(Forwarding(s, t), Answer(o, t, m), s') && Outcomes(s, o, t, s')
  {
    var f, answer := Forwarding(s, t), Answer(o, t, m);
    var s1 := Apply(f, answer[0]);
    s' := Apply(s1, answer[1]);
    Chain(answer, [f, s1, s']);
  }

  /** The forward is ready, but its ports cannot be read. */
  lemma GetsNoPorts(s: Sys, e: Error, t: Tid, m: Tid) returns (s': Sys)
    requires Calm(s) && t !in s.threads && s.state != Running && m !in s.threads && t != m
    ensures Reached(Forwarding(s, t), Answer(PortsFail(e), t, m), s') && Outcomes(s, PortsFail(e), t, s')
  {
    var f, answer := Forwarding(s, t), Answer(PortsFail(e), t, m);
    var s1 := f.(threads := f.threads[t := Ports(s.made)]);
    var s2 := Apply(s1, answer[1]);
    s' := Apply(s2, answer[2]);
    Chain(answer, [f, s1, s2, s']);
  }

  lemma GetsForward(s: Sys, p: Port, t: Tid, m: Tid) returns (s': Sys)
    requires Calm(s) && t !in s.threads && s.state != Running && m !in s.threads && t != m
    ensures Reached(Forwarding(s, t), Answer(Ready(p), t, m), s') && Outcomes(s, Ready(p), t, s')
  {
    var f, answer := Forwarding(s, t), Answer(Ready(p), t, m);
    var s1 := f.(threads := f.threads[t := Ports(s.made)]);
    var s2 := f.(threads := f.threads[t := Succeeding(p, s.made)]);
    s' := Apply(s2, answer[2]);
    Chain(answer, [f, s1, s2, s']);
  }

  lemma FailsToDiscover(s: Sys, e: Error, t: Tid, m: Tid) returns (s': Sys)
    requires Calm(s) && t !in s.threads && s.state != Running
    ensures Reached(s, Script(s, DiscoverFails(e), t, m), s') && Outcomes(s, DiscoverFails(e), t, s')
  {
    var s1 := Apply(s, Call(t));
    var s2 := Apply(s1, Enter(t));
    var s3 := Apply(s2, DiscoverErr(t, e));
    s' := Apply(s3, Fail(t));
    Chain(Script(s, DiscoverFails(e), t, m), [s, s1, s2, s3, s']);
  }

  function Creating(s: Sys, t: Tid): Sys {
    s.(state := Starting, threads := s.threads[t := Create])
  }

  lemma StartsCreating(s: Sys, t: Tid)
    requires Calm(s) && t !in s.threads && s.state != Running
    ensures Reached(s, [Call(t), Enter(t), DiscoverOk(t)], Creating(s, t))
  {
    var s1 := Apply(s, Call(t));
    var s2 := Apply(s1, Enter(t));
    Chain([Call(t), Enter(t), DiscoverOk(t)], [s, s1, s2, Creating(s, t)]);
  }

  /** The step that fails, when a forward cannot be created. */
  function CreateErr(o: Outcome, t: Tid): Action {
    if o.TransportFails? then TransportErr(t, o.err)
    else if o.ForwarderFails? then ForwarderErr(t, o.err)
    else CreateOk(t)
  }

  lemma CreateFails(s: Sys, o: Outcome, t: Tid) returns (s': Sys)
    requires Calm(s) && t !in s.threads && s.state != Running
    requires o.TransportFails? || o.ForwarderFails?
    ensures Reached(Creating(s, t), [CreateErr(o, t), Fail(t)], s') && Outcomes(s, o, t, s')
  {
    var s1 := Apply(Creating(s, t), CreateErr(o, t));
    s' := Apply(s1, Fail(t));
    Chain([CreateErr(o, t), Fail(t)], [Creating(s, t), s1, s']);
  }

  lemma FailsToCreate(s: Sys, o: Outcome, t: Tid, m: Tid) returns (s': Sys)
    requires Calm(s) && t !in s.threads && s.state != Running
    requires o.TransportFails? || o.ForwarderFails?
    ensures Reached(s, Script(s, o, t, m), s') && Outcomes(s, o, t, s')
  {
    StartsCreating(s, t);
    s' := CreateFails(s, o, t);
    RunConcat(s, [Call(t), Enter(t), DiscoverOk(t)], [CreateErr(o, t), Fail(t)]);
    assert Script(s, o, t, m) == [Call(t), Enter(t), DiscoverOk(t)] + [CreateErr(o, t), Fail(t)];
  }

  /**
   * The method-grain Start of module Tunnel is the run of one thread that nobody interrupts: same fields
   * afterwards, same returned error, and no panic.
   */
  lemma StartIsUninterruptedRun(s: Sys, o: Outcome, t: Tid, m: Tid)
    requires Calm(s) && o != ForwardEnds(None)
    requires t !in s.threads && m !in s.threads && t != m
    ensures ValidFrom(s, Script(s, o, t, m)) && Outcomes(s, o, t, Exec(s, Script(s, o, t, m)))
  {
    if s.state == Running {
      var s1 := Apply(s, Call(t));
      Chain([Call(t), Enter(t)], [s, s1, Apply(s1, Enter(t))]);
    } else if o.DiscoverFails? {
      var s' := FailsToDiscover(s, o.err, t, m);
    } else if o.TransportFails? || o.ForwarderFails? {
      var s' := FailsToCreate(s, o, t, m);
    } else {
      StartsForward(s, t);
      var s';
      if o.PortsFail? {
        s' := GetsNoPorts(s, o.err, t, m);
      } else if o.Ready? {
        s' := GetsForward(s, o.port, t, m);
      } else {
        s' := GetsNoForward(s, o, t, m);
      }
      RunConcat(s, [Call(t), Enter(t), DiscoverOk(t), CreateOk(t)], Answer(o, t, m));
    }
  }

  /** Stop, MarkFailed and Touch agree with module Tunnel while nobody is starting. */
  lemma AtomicCallsAgree(s: Sys, e: Error, now: int)
    requires Inv(s) && s.state != Starting
    ensures CoreOf(Apply(s, StopCall)) == StopCore(CoreOf(s))
    ensures CoreOf(Apply(s, MarkFailedCall(e))) == MarkFailedCore(CoreOf(s), e)
    ensures CoreOf(Apply(s, TouchCall(now))) == TouchCore(CoreOf(s), now)
  {
  }

  lemma LateReportAgrees(s: Sys, e: Error, t: Tid)
    requires !s.panicked && At(s, t, MonitorFailing(e))
    ensures CoreOf(Apply(s, MonitorFail(t))) == ReportCore(CoreOf(s), e)
  {
  }
}
