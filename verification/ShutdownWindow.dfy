/**
 * A shutdown stops the running tunnels of a side one by one and then replaces the map, while threads inside the
 * tunnels go on.  A start that is under way when Shutdown looks at its tunnel can outrun it.
 */
module ShutdownWindow {
  import opened Wrappers
  import opened Config
  import opened TunnelTable
  import opened TunnelLifetimes
  import Tunnel
  import TunnelThreads

  /** While Shutdown holds the lock of a side: no other operation of the manager on it, but looks at other keys. */
  predicate Locked(op: Op, key: Key) {
    match op
    case Get(k, _, _) => SideOf(k) != SideOf(key)
    case Sweep(side) => side != SideOf(key)
    case Shutdown(side) => side != SideOf(key)
    case ShutdownForget(side) => side != SideOf(key)
    case ShutdownLook(k) => k != key
    case _ => true
  }

  /** Before operation j, the last that was done to the tunnel, at operation k, left it running. */
  predicate StartedAt(trace: seq<Table>, ops: seq<Op>, id: Id, k: nat, j: nat)
  {
    && |trace| == |ops| + 1 && k < j <= |ops| && OnHandle(ops[k], id)
    && id < |trace[k + 1].made| && trace[k + 1].made[id].core.state == Tunnel.Running
    && forall i | k < i < j :: !OnHandle(ops[i], id)
  }

  /** The tunnel was started before operation j, and since operation 1. */
  predicate StartedBefore(trace: seq<Table>, ops: seq<Op>, id: Id, j: nat)
  {
    exists k | 1 <= k < j :: StartedAt(trace, ops, id, k, j)
  }

  lemma StartedNext(trace: seq<Table>, ops: seq<Op>, id: Id, j: nat)
    requires |trace| == |ops| + 1 && 1 <= j < |ops|
    ensures OnHandle(ops[j], id) ==> (StartedBefore(trace, ops, id, j + 1) <==> Runs(trace[j + 1], id))
    ensures !OnHandle(ops[j], id) ==> (StartedBefore(trace, ops, id, j + 1) <==> StartedBefore(trace, ops, id, j))
  {
    if OnHandle(ops[j], id) {
      assert StartedAt(trace, ops, id, j, j + 1) <==> Runs(trace[j + 1], id);
    } else {
      if StartedBefore(trace, ops, id, j + 1) {
        var k :| 1 <= k < j + 1 && StartedAt(trace, ops, id, k, j + 1);
        assert k < j && StartedAt(trace, ops, id, k, j);
      }
      if StartedBefore(trace, ops, id, j) {
        var k :| 1 <= k < j && StartedAt(trace, ops, id, k, j);
        assert StartedAt(trace, ops, id, k, j + 1);
      }
    }
  }

  predicate Runs(m: Table, id: Id) {
    id < |m.made| && m.made[id].core.state == Tunnel.Running
  }

  lemma LockedStep(c: Config, m: Table, op: Op, id: Id, key: Key)
    requires Inv(c, m) && Enabled(m, op) && HeldFor(m, id, key) && Locked(op, key)
    ensures HeldFor(Apply(c, m, op), id, key)
    ensures !OnHandle(op, id) ==> (Runs(Apply(c, m, op), id) <==> Runs(m, id))
  {
    StepKeeps(c, m, op);
    StepDropsIff(c, m, op, id);
    if Runs(m, id) && !op.OnTunnel? && !op.Threads? {
      ManagerStopsIff(c, m, op, id);
    }
  }

  /** The run from Shutdown's look at a key to the moment it forgets the side. */
  ghost predicate Window(c: Config, trace: seq<Table>, ops: seq<Op>, id: Id, key: Key) {
    && IsRun(c, trace, ops) && Inv(c, trace[0]) && |ops| >= 2 && HeldFor(trace[0], id, key)
    && ops[0] == ShutdownLook(key) && ops[|ops| - 1] == ShutdownForget(SideOf(key))
    && forall k {:trigger ops[k]} | 1 <= k < |ops| - 1 :: Locked(ops[k], key)
  }

  lemma {:induction false} WindowUpTo(c: Config, trace: seq<Table>, ops: seq<Op>, id: Id, key: Key, j: nat)
    requires Window(c, trace, ops, id, key) && 1 <= j < |ops|
    ensures HeldFor(trace[j], id, key) && (Runs(trace[j], id) <==> StartedBefore(trace, ops, id, j))
  {
    if j == 1 {
      assert Moves(c, trace[0], ops[0], trace[1]);
    } else {
      WindowUpTo(c, trace, ops, id, key, j - 1);
      WindowNext(c, trace, ops, id, key, j - 1);
      StartedNext(trace, ops, id, j - 1);
    }
  }

  lemma WindowNext(c: Config, trace: seq<Table>, ops: seq<Op>, id: Id, key: Key, j: nat)
    requires Window(c, trace, ops, id, key) && 1 <= j < |ops| - 1 && HeldFor(trace[j], id, key)
    ensures HeldFor(trace[j + 1], id, key)
    ensures !OnHandle(ops[j], id) ==> (Runs(trace[j + 1], id) <==> Runs(trace[j], id))
  {
    RunKeepsInv(c, trace, ops, j);
    LockedStep(c, trace[j], ops[j], id, key);
  }

  /**
   * Shutdown in its two halves, with threads inside the tunnels moving meanwhile: a held tunnel runs on when its
   * handle is dropped if and only if something started it after Shutdown looked at it, and nothing was done to it
   * after that.
   */
  lemma RunsThroughShutdownIff(c: Config, trace: seq<Table>, ops: seq<Op>, id: Id, key: Key)
    requires Window(c, trace, ops, id, key)
    ensures id in trace[|ops|].dropped
    ensures Runs(trace[|ops|], id) <==> StartedBefore(trace, ops, id, |ops| - 1)
  {
    var n := |ops| - 1;
    WindowUpTo(c, trace, ops, id, key, n);
    assert Moves(c, trace[n], ops[n], trace[n + 1]);
    assert id in trace[n + 1].dropped && trace[n + 1].made == trace[n].made;
  }

  /** A start that is under way when Shutdown looks, and done before it forgets: the dropped tunnel runs. */
  lemma StartOutrunsShutdown(c: Config, key: Key, scheme: string, p: Tunnel.Port)
    requires RouteFor(c, key, scheme).Some?
    ensures exists trace: seq<Table>, ops: seq<Op>, m: Table ::
      && Reaches(c, trace, ops, m) && 0 in m.dropped && Runs(m, 0)
      && |ops| >= 2 && ops[|ops| - 1] == ShutdownForget(SideOf(key))
  {
    var trace, ops, m := FirstGet(c, key, scheme);
    var starting := Tunnel.NewCore(0).(state := Tunnel.Starting);
    trace, ops, m := Step(c, trace, ops, m, Threads(0, starting));
    trace, ops, m := Step(c, trace, ops, m, ShutdownLook(key));
    var running := Tunnel.Core(Tunnel.Running, p, 0, Tunnel.Open, None);
    trace, ops, m := Step(c, trace, ops, m, Threads(0, running));
    assert HeldIn(m, 0, SideKeys(m, SideOf(key)));
    trace, ops, m := Step(c, trace, ops, m, ShutdownForget(SideOf(key)));
  }

  /** Every lock-grain step of a tunnel's threads is a step of this table. */
  lemma ThreadStepsAreCovered(m: Table, id: Id, s: TunnelThreads.Sys, a: TunnelThreads.Action)
    requires id < |m.made| && m.made[id].core == TunnelThreads.CoreOf(s) && s.lastAccess <= m.now
    requires TunnelThreads.Enabled(s, a) && (a.TouchCall? ==> a.now == m.now)
    ensures Enabled(m, Threads(id, TunnelThreads.CoreOf(TunnelThreads.Apply(s, a))))
  {
  }
}
