/**
 * Where the fields of a tunnel come from, in every interleaving of any number of threads: a port or an error that
 * is recorded or returned was delivered by the environment before, and the access time is that of the last touch.
 */
module TunnelOrigins {
  import opened Wrappers
  import Tunnel
  import opened TunnelThreads

  // ---------------------------------------------------------------- ports

  /** The tunnel has the port, or a starter is about to record it. */
  ghost predicate PortInHand(s: Sys, p: nat) {
    s.localPort == p || exists t :: t in s.threads && s.threads[t].Succeeding? && s.threads[t].port == p
  }

  lemma StepBringsPort(s: Sys, a: Action, p: nat)
    requires Enabled(s, a) && PortInHand(Apply(s, a), p)
    ensures PortInHand(s, p) || (a.PortsOk? && a.port == p)
  {
  }

  /** A port the tunnel has was reported by a forward that had become ready. */
  lemma {:induction false} PortWasReported(now: int, acts: seq<Action>, p: nat) returns (i: nat)
    requires ValidFrom(Init(now), acts) && p != 0 && PortInHand(Exec(Init(now), acts), p)
    ensures i < |acts| && acts[i].PortsOk? && acts[i].port == p
  {
    var n := |acts| - 1;
    var s := Exec(Init(now), acts[..n]);
    StepBringsPort(s, acts[n], p);
    if PortInHand(s, p) {
      i := PortWasReported(now, acts[..n], p);
    } else {
      i := n;
    }
  }

  // ---------------------------------------------------------------- errors

  predicate Carries(pc: Pc, e: Tunnel.Error) {
    match pc
    case Failing(cause, ret) => cause == Some(e) || ret == e
    case MonitorFailing(err) => err == e
    case Returned(result) => result == Some(e)
    case _ => false
  }

  /** Recorded, returned to a caller, or on its way to either. */
  ghost predicate ErrorInHand(s: Sys, e: Tunnel.Error) {
    s.lastError == Some(e) || exists t :: t in s.threads && Carries(s.threads[t], e)
  }

  /** The action is the one by which the error comes about. */
  predicate Delivers(a: Action, e: Tunnel.Error) {
    match a
    case DiscoverErr(_, err) => e == err
    case TransportErr(_, err) => e == err
    case ForwarderErr(_, err) => e == err
    case PortsErr(_, err) => e == err
    case GotEnd(_, cause) => e == if cause.Some? then cause.value else Tunnel.Other(0)
    case GotTimeout(_) => e == Tunnel.ReadyTimeout
    case AwaitCancel(_) => e == Tunnel.Cancelled
    case SetIdle(_) => e == Tunnel.Cancelled
    case MonitorGets(_, cause) => cause == Some(e)
    case MarkFailedCall(err) => e == err
    case _ => false
  }

  lemma StepRecords(s: Sys, a: Action, e: Tunnel.Error)
    requires Enabled(s, a) && Apply(s, a).lastError == Some(e)
    ensures ErrorInHand(s, e) || Delivers(a, e)
  {
    if a.Fail? || a.MonitorFail? {
      assert a.t in s.threads;
    }
  }

  lemma StepCarries(s: Sys, a: Action, t: Tid, e: Tunnel.Error)
    requires Enabled(s, a) && t in Apply(s, a).threads && Carries(Apply(s, a).threads[t], e)
    ensures ErrorInHand(s, e) || Delivers(a, e)
  {
    assert t in s.threads && s.threads[t] == Apply(s, a).threads[t] ==> Carries(s.threads[t], e);
  }

  lemma StepBringsError(s: Sys, a: Action, e: Tunnel.Error)
    requires Enabled(s, a) && ErrorInHand(Apply(s, a), e)
    ensures ErrorInHand(s, e) || Delivers(a, e)
  {
    if Apply(s, a).lastError == Some(e) {
      StepRecords(s, a, e);
    } else {
      var t :| t in Apply(s, a).threads && Carries(Apply(s, a).threads[t], e);
      StepCarries(s, a, t, e);
    }
  }

  /** An error the tunnel records, or a Start returns, was delivered by an action of the run; none is made up. */
  lemma {:induction false} ErrorWasDelivered(now: int, acts: seq<Action>, e: Tunnel.Error) returns (i: nat)
    requires ValidFrom(Init(now), acts) && ErrorInHand(Exec(Init(now), acts), e)
    ensures i < |acts| && Delivers(acts[i], e)
  {
    var n := |acts| - 1;
    var s := Exec(Init(now), acts[..n]);
    StepBringsError(s, acts[n], e);
    if ErrorInHand(s, e) {
      i := ErrorWasDelivered(now, acts[..n], e);
    } else {
      i := n;
    }
  }

  // ---------------------------------------------------------------- access times

  lemma StepTouches(s: Sys, a: Action)
    requires Enabled(s, a)
    ensures Apply(s, a).lastAccess == if a.TouchCall? then a.now else s.lastAccess
  {
  }

  /** Whatever the threads do, the access time is that of the last touch, or of the creation. */
  lemma {:induction false} LastAccessIsLastTouch(now: int, acts: seq<Action>, k: int)
    requires ValidFrom(Init(now), acts) && (k == -1 || (0 <= k < |acts| && acts[k].TouchCall?))
    requires forall j | k < j < |acts| :: !acts[j].TouchCall?
    ensures Exec(Init(now), acts).lastAccess == if k == -1 then now else acts[k].now
  {
    if acts != [] {
      var n := |acts| - 1;
      StepTouches(Exec(Init(now), acts[..n]), acts[n]);
      if k < n {
        assert k >= 0 ==> acts[..n][k] == acts[k];
        LastAccessIsLastTouch(now, acts[..n], k);
      }
    }
  }
}
