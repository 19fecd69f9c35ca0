/**
 * One port-forward tunnel at method grain: every call of Start, Stop, MarkFailed and Touch is one step.
 * The specification functions below are pure; class Tunnel updates its fields in place and is proved
 * against them.  TunnelThreads splits the same operations at their lock releases.
 */
module Tunnel {
  import opened Wrappers
  import Config

  datatype State = Idle | Starting | Running | Stopping | Failed

  datatype Error = Cancelled | ReadyTimeout | NoPortsForwarded | Other(code: nat)

  /** A port chosen by the operating system for the local end of a forward. */
  type Port = p: nat | 0 < p < 65536 witness 1

  /** The stop channel: not made yet, open, or closed.  Closing it is legal only while it is open. */
  datatype StopChan = Absent | Open | Closed

  /** The fields of a tunnel that its methods write. */
  datatype Core = Core(state: State, localPort: nat, lastAccess: int, stop: StopChan, lastError: Option<Error>)

  /** What the environment does to one run of startPortForward, in the order the code meets it. */
  datatype Outcome =
    | DiscoverFails(err: Error)          // no pod or service: no channel was made
    | TransportFails(err: Error)         // no round tripper: no channel was made
    | ForwarderFails(err: Error)         // channels made, then portforward.New failed
    | ForwardEnds(cause: Option<Error>)  // ForwardPorts returned before it was ready
    | ContextDone
    | TimedOut
    | PortsFail(err: Error)              // ready, but the ports cannot be read (or there are none)
    | Ready(port: Port)

  /** A new tunnel. */
  function NewCore(now: int): Core {
    Core(Idle, 0, now, Absent, None)
  }

  function FailCore(c: Core, err: Option<Error>): Core {
    c.(state := Failed, lastError := err)
  }

  /** The new state and the returned error of one uninterrupted Start. */
  function StartCore(c: Core, o: Outcome): (Core, Option<Error>)
  {
    if c.state == Running then
      (c, None)
    else
      match o
      case DiscoverFails(e) => (FailCore(c, Some(e)), Some(e))
      case TransportFails(e) => (FailCore(c, Some(e)), Some(e))
      case ForwarderFails(e) => (FailCore(c.(stop := Open), Some(e)), Some(e))
      case ForwardEnds(cause) =>
        (FailCore(c.(stop := Open), cause), Some(if cause.Some? then cause.value else Other(0)))
      case ContextDone => (c.(stop := Closed, state := Idle), Some(Cancelled))
      case TimedOut => (FailCore(c.(stop := Closed), Some(ReadyTimeout)), Some(ReadyTimeout))
      case PortsFail(e) => (FailCore(c.(stop := Open), Some(e)), Some(e))
      case Ready(p) => (c.(stop := Open, localPort := p, state := Running), None)
  }

  function StopCore(c: Core): Core {
    if c.state != Running then c
    else c.(state := Idle, stop := if c.stop == Absent then Absent else Closed)
  }

  function MarkFailedCore(c: Core, err: Error): Core {
    if c.state == Running || c.state == Starting then
      FailCore(c, Some(err)).(stop := if c.stop == Absent then Absent else Closed)
    else c
  }

  function TouchCore(c: Core, now: int): Core {
    c.(lastAccess := now)
  }

  /** An error reported by the monitor goroutine of some forward, possibly an older one. */
  function ReportCore(c: Core, err: Error): Core {
    FailCore(c, Some(err))
  }

  /** The operations a tunnel handle offers. */
  datatype Op = Start(o: Outcome) | Stop | MarkFailed(err: Error) | Touch(now: int) | Report(err: Error)

  function ApplyOp(c: Core, op: Op): Core {
    match op
    case Start(o) => StartCore(c, o).0
    case Stop => StopCore(c)
    case MarkFailed(e) => MarkFailedCore(c, e)
    case Touch(now) => TouchCore(c, now)
    case Report(e) => ReportCore(c, e)
  }

  /** What every reachable tunnel satisfies between two calls. */
  predicate Settled(c: Core) {
    && c.state != Starting
    && c.state != Stopping
    && (c.state == Running ==> c.stop == Open && c.localPort != 0)
  }

  /** Whether the operation closes the stop channel, and whether that close would panic. */
  predicate ClosesStop(c: Core, op: Op) {
    match op
    case Start(o) => c.state != Running && (o.ContextDone? || o.TimedOut?)
    case Stop => c.state == Running && c.stop != Absent
    case MarkFailed(_) => (c.state == Running || c.state == Starting) && c.stop != Absent
    case _ => false
  }

  function Exec(c: Core, ops: seq<Op>): Core {
    if ops == [] then c
    else ApplyOp(Exec(c, ops[..|ops| - 1]), ops[|ops| - 1])
  }

  /** Every run of whole operations, MarkFailed included, keeps the tunnel settled. */
  lemma {:induction false} RunsStaySettled(now: int, ops: seq<Op>)
    ensures Settled(Exec(NewCore(now), ops))
  {
    if ops != [] {
      RunsStaySettled(now, ops[..|ops| - 1]);
    }
  }

  /**
   * In every run of whole operations, Stop and MarkFailed close the stop channel only while it is open;
   * Start closes only the channel it has just made.  So no channel is closed twice.
   */
  lemma StopChannelClosedOnce(now: int, ops: seq<Op>, op: Op)
    requires ClosesStop(Exec(NewCore(now), ops), op) && !op.Start?
    ensures Exec(NewCore(now), ops).stop == Open
    ensures Exec(NewCore(now), ops + [op]).stop == Closed
    ensures Exec(NewCore(now), ops + [op]).state != Running
  {
    RunsStaySettled(now, ops);
    assert (ops + [op])[..|ops|] == ops;
  }

  /** Start reports success exactly when it leaves the tunnel Running. */
  lemma StartNilIffRunning(c: Core, o: Outcome)
    ensures StartCore(c, o).1 == None <==> StartCore(c, o).0.state == Running
  {
  }

  /** The error that a forward which did not become ready ends with. */
  predicate EndsWith(o: Outcome, err: Error) {
    match o
    case DiscoverFails(e) => err == e
    case TransportFails(e) => err == e
    case ForwarderFails(e) => err == e
    case ForwardEnds(cause) => err == if cause.Some? then cause.value else Other(0)
    case ContextDone => err == Cancelled
    case TimedOut => err == ReadyTimeout
    case PortsFail(e) => err == e
    case Ready(_) => false
  }

  /**
   * What a start of a tunnel that does not run leaves in its fields: running on the delivered port with a new open
   * channel, or idle because the caller gave up, or failed with the error it returns; and it does not touch.
   */
  lemma StartTells(c: Core, o: Outcome)
    requires c.state != Running
    ensures var (c', err) := StartCore(c, o);
      && (o.Ready? ==>
            && err.None? && c'.state == Running && c'.localPort == o.port && c'.stop == Open
            && c'.lastError == c.lastError)
      && (!o.Ready? ==> err.Some? && EndsWith(o, err.value) && c'.state != Running && c'.localPort == c.localPort)
      && (o.ContextDone? ==> c'.state == Idle && c'.lastError == c.lastError)
      && (!o.Ready? && !o.ContextDone? ==>
            && c'.state == Failed && (c'.lastError == err || (o == ForwardEnds(None) && c'.lastError == None)))
      && (o.ContextDone? || o.TimedOut? ==> c'.stop == Closed)
      && (o.DiscoverFails? || o.TransportFails? ==> c'.stop == c.stop)
      && (o.ForwarderFails? || o.ForwardEnds? || o.PortsFail? ==> c'.stop == Open)
      && c'.lastAccess == c.lastAccess
  {
  }

  /**
   * The other calls: Stop acts on a running tunnel only, MarkFailed on a running or starting one, a late error on
   * every one; each writes the state and closes an open channel as it should, and nothing else.
   */
  lemma CallsTell(c: Core, err: Error, now: int)
    ensures StopCore(c) == if c.state != Running then c else
                           Core(Idle, c.localPort, c.lastAccess, if c.stop == Open then Closed else c.stop, c.lastError)
    ensures MarkFailedCore(c, err) ==
            if c.state in {Idle, Stopping, Failed} then c else
            Core(Failed, c.localPort, c.lastAccess, if c.stop == Open then Closed else c.stop, Some(err))
    ensures TouchCore(c, now) == Core(c.state, c.localPort, now, c.stop, c.lastError)
    ensures ReportCore(c, err) == Core(Failed, c.localPort, c.lastAccess, c.stop, Some(err))
  {
  }

  /** Nothing but Touch moves the last access time: it holds the time of the last Touch, or of the creation. */
  lemma {:induction false} LastAccessIsLastTouch(now: int, ops: seq<Op>, k: int)
    requires k == -1 || (0 <= k < |ops| && ops[k].Touch?)
    requires forall j | k < j < |ops| :: !ops[j].Touch?
    ensures Exec(NewCore(now), ops).lastAccess == if k == -1 then now else ops[k].now
  {
    var n := |ops| - 1;
    if k < n {
      assert k >= 0 ==> ops[..n][k] == ops[k];
      LastAccessIsLastTouch(now, ops[..n], k);
    }
  }

  /** A tunnel object.  Its fields are the ones the source guards with the tunnel's mutex. */
  class Handle {
    const hostname: string
    const route: Config.Route
    var state: State
    var localPort: nat
    var lastAccess: int
    var stopChan: StopChan
    var lastError: Option<Error>

    function View(): Core
      reads this
    {
      Core(state, localPort, lastAccess, stopChan, lastError)
    }

    predicate Valid()
      reads this
    {
      Settled(View())
    }

    constructor (hostname: string, route: Config.Route, now: int)
      ensures View() == NewCore(now) && Valid()
      ensures this.hostname == hostname && this.route == route
    {
      this.hostname, this.route := hostname, route;
      state, localPort, lastAccess, stopChan, lastError := Idle, 0, now, Absent, None;
    }

    predicate IsRunning()
      reads this
    {
      state == Running
    }

    function IdleDuration(now: int): int
      reads this
    {
      now - lastAccess
    }

    /** close(stopChan): panics in the source unless the channel is open. */
    method CloseStop()
      requires stopChan == Open
      modifies this`stopChan
      ensures stopChan == Closed
    {
      stopChan := Closed;
    }

    method SetFailed(err: Option<Error>)
      modifies this`lastError, this`state
      ensures View() == FailCore(old(View()), err)
    {
      lastError := err;
      state := Failed;
    }

    method Start(o: Outcome) returns (err: Option<Error>)
      requires Valid()
      modifies this
      ensures Valid()
      ensures (View(), err) == StartCore(old(View()), o)
    {
      if state == Running {
        return None;
      }
      state := Starting;
      err := StartPortForward(o);
    }

    method StartPortForward(o: Outcome) returns (err: Option<Error>)
      requires state == Starting
      modifies this
      ensures Valid()
      ensures (View(), err) == StartCore(old(View()), o)
    {
      if o.DiscoverFails? || o.TransportFails? {
        SetFailed(Some(o.err));
        return Some(o.err);
      }
      stopChan := Open;
      match o {
        case ForwarderFails(e) =>
          SetFailed(Some(e));
          err := Some(e);
        case ForwardEnds(cause) =>
          SetFailed(cause);
          err := Some(if cause.Some? then cause.value else Other(0));
        case ContextDone =>
          CloseStop();
          state := Idle;
          err := Some(Cancelled);
        case TimedOut =>
          CloseStop();
          SetFailed(Some(ReadyTimeout));
          err := Some(ReadyTimeout);
        case PortsFail(e) =>
          SetFailed(Some(e));
          err := Some(e);
        case Ready(p) =>
          localPort := p;
          state := Running;
          err := None;
      }
    }

    method Stop()
      requires Valid()
      modifies this
      ensures Valid() && View() == StopCore(old(View()))
    {
      if state != Running {
        return;
      }
      state := Stopping;
      if stopChan != Absent {
        CloseStop();
      }
      state := Idle;
    }

    method MarkFailed(err: Error)
      requires Valid()
      modifies this
      ensures Valid() && View() == MarkFailedCore(old(View()), err)
    {
      if state == Running || state == Starting {
        lastError := Some(err);
        state := Failed;
        if stopChan != Absent {
          CloseStop();
        }
      }
    }

    method Touch(now: int)
      modifies this`lastAccess
      ensures View() == TouchCore(old(View()), now)
    {
      lastAccess := now;
    }

    /** monitorErrors: the error channel of a forward delivered a non-nil error. */
    method Report(err: Error)
      requires Valid()
      modifies this`lastError, this`state
      ensures Valid() && View() == ReportCore(old(View()), err)
    {
      SetFailed(Some(err));
    }
  }
}
