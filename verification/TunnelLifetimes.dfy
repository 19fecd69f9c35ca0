/**
 * How long tunnels live: what keeps a handle in hand, what a sweep guarantees about idle tunnels and when, and
 * what becomes of handles that were dropped.
 */
module TunnelLifetimes {
  import opened Wrappers
  import opened Config
  import opened TunnelTable
  import Tunnel

  // ---------------------------------------------------------------- idle time

  /** No shutdown of the key's side, and no get of the key that finds the handle failed. */
  predicate Undisturbed(trace: seq<Table>, ops: seq<Op>, id: Id, key: Key) {
    |trace| == |ops| + 1 && forall i {:trigger ops[i]} | 0 <= i < |ops| ::
      && ops[i] != Shutdown(SideOf(key)) && ops[i] != ShutdownForget(SideOf(key))
      && (ops[i].Get? && ops[i].key == key && id < |trace[i].made| ==> Usable(trace[i].made[id].core))
  }

  lemma TimesBetween(c: Config, trace: seq<Table>, ops: seq<Op>, id: Id, j: nat)
    requires IsRun(c, trace, ops) && Inv(c, trace[0]) && id < |trace[0].made| && j <= |ops|
    ensures Inv(c, trace[j]) && trace[j].now <= trace[|ops|].now
    ensures id < |trace[j].made| && trace[0].made[id].core.lastAccess <= trace[j].made[id].core.lastAccess
  {
    RunKeepsInv(c, trace, ops, j);
    RunContinues(c, trace, ops, 0, j);
    RunContinues(c, trace, ops, j, |ops|);
  }

  ghost predicate HeldFor(m: Table, id: Id, key: Key) {
    Holds(m, id) && m.made[id].key == key
  }

  /** A run that starts with the handle held, is undisturbed, and ends before the handle's timeout. */
  ghost predicate InUse(c: Config, trace: seq<Table>, ops: seq<Op>, id: Id, key: Key) {
    && IsRun(c, trace, ops) && Inv(c, trace[0])
    && HeldFor(trace[0], id, key) && Undisturbed(trace, ops, id, key)
    && trace[|ops|].now <= trace[0].made[id].core.lastAccess + IdleTimeout(c, SideOf(key))
  }

  /**
   * A handle in hand survives: until its last access time plus the timeout it stays in the table, whatever is
   * swept, got or done to tunnels, unless its side shuts down or a get of its key finds it failed.
   */
  lemma {:induction false} HandleInUseSurvives(c: Config, trace: seq<Table>, ops: seq<Op>, id: Id, key: Key, j: nat)
    requires InUse(c, trace, ops, id, key) && j <= |ops|
    ensures HeldFor(trace[j], id, key)
  {
    if j > 0 {
      HandleInUseSurvives(c, trace, ops, id, key, j - 1);
      SurvivesNext(c, trace, ops, id, key, j - 1);
    }
  }

  lemma SurvivesNext(c: Config, trace: seq<Table>, ops: seq<Op>, id: Id, key: Key, j: nat)
    requires InUse(c, trace, ops, id, key) && j < |ops| && HeldFor(trace[j], id, key)
    ensures HeldFor(trace[j + 1], id, key)
  {
    TimesBetween(c, trace, ops, id, j);
    SurvivesStep(c, trace[j], ops[j], id, key);
  }

  lemma SurvivesStep(c: Config, m: Table, op: Op, id: Id, key: Key)
    requires Inv(c, m) && Enabled(m, op) && Holds(m, id) && m.made[id].key == key
    requires op != Shutdown(SideOf(key)) && op != ShutdownForget(SideOf(key))
    requires op.Get? && op.key == key ==> Usable(m.made[id].core)
    requires m.now <= m.made[id].core.lastAccess + IdleTimeout(c, SideOf(key))
    ensures Holds(Apply(c, m, op), id) && Apply(c, m, op).made[id].key == key
  {
    StepKeeps(c, m, op);
    StepDropsIff(c, m, op, id);
  }

  ghost predicate RunsIdleSince(m: Table, id: Id, since: int) {
    Holds(m, id) && m.made[id].core.state == Tunnel.Running && m.made[id].core.lastAccess == since
  }

  function Clocks(trace: seq<Table>): seq<int> {
    seq(|trace|, j requires 0 <= j < |trace| => trace[j].now)
  }

  predicate SweptBetween(ops: seq<Op>, side: Side, i: nat, j: nat) {
    j <= |ops| && exists k | i <= k < j :: ops[k] == Sweep(side)
  }

  /** Between any two moments more than a period apart there is a sweep of the side. */
  predicate SweptEvery(nows: seq<int>, ops: seq<Op>, side: Side, period: int) {
    |nows| == |ops| + 1 &&
    forall i, j | 0 <= i < j <= |ops| :: nows[j] - nows[i] <= period || SweptBetween(ops, side, i, j)
  }

  /** Every sweep of a side ends at a moment within the limit. */
  predicate SweepsWithin(nows: seq<int>, ops: seq<Op>, side: Side, limit: int) {
    forall k | 0 <= k < |ops| && k + 1 < |nows| && ops[k] == Sweep(side) :: nows[k + 1] <= limit
  }

  /** The last moment within the limit. */
  lemma {:induction false} LastWithin(nows: seq<int>, limit: int) returns (i: nat)
    requires |nows| > 0 && nows[0] <= limit
    ensures i < |nows| && nows[i] <= limit && forall k | i < k < |nows| :: nows[k] > limit
  {
    var n := |nows| - 1;
    if n == 0 || nows[n] <= limit {
      i := n;
    } else {
      i := LastWithin(nows[..n], limit);
      forall k | i < k < |nows|
        ensures nows[k] > limit
      {
        if k < n {
          assert nows[k] == nows[..n][k];
        }
      }
    }
  }

  /** Sweeps that come in time, and never after the limit, keep the clock near the limit. */
  lemma ClockStaysNear(nows: seq<int>, ops: seq<Op>, side: Side, limit: int, period: nat)
    requires |nows| == |ops| + 1 && nows[0] <= limit
    requires SweepsWithin(nows, ops, side, limit) && SweptEvery(nows, ops, side, period)
    ensures nows[|ops|] <= limit + period
  {
    var n := |ops|;
    var last := LastWithin(nows, limit);
    forall k | last <= k < n
      ensures ops[k] != Sweep(side)
    {
      assert nows[k + 1] > limit;
    }
    assert !SweptBetween(ops, side, last, n);
    assert last < n ==> nows[n] - nows[last] <= period;
  }

  lemma SweepsMeetTheLimit(c: Config, trace: seq<Table>, ops: seq<Op>, id: Id, side: Side, since: int, k: nat)
    requires IsRun(c, trace, ops) && Inv(c, trace[0]) && Holds(trace[0], id) && SideOf(trace[0].made[id].key) == side
    requires k < |ops| && ops[k] == Sweep(side)
    requires RunsIdleSince(trace[k], id, since) && RunsIdleSince(trace[k + 1], id, since)
    ensures trace[k + 1].now <= since + IdleTimeout(c, side)
  {
    RunKeepsInv(c, trace, ops, k);
    RunContinues(c, trace, ops, 0, k);
  }

  /** A run, swept every period, at every moment of which a held tunnel of the side runs and is not touched. */
  ghost predicate IdleRun(c: Config, trace: seq<Table>, ops: seq<Op>, id: Id, side: Side, since: int, period: int) {
    && IsRun(c, trace, ops) && SweptEvery(Clocks(trace), ops, side, period)
    && Holds(trace[0], id) && SideOf(trace[0].made[id].key) == side
    && forall m | m in trace :: RunsIdleSince(m, id, since)
  }

  function Max(a: int, b: int): int {
    if a < b then b else a
  }

  /**
   * With a sweep in every period (the source sweeps every 30 seconds), a held tunnel that runs without being
   * touched runs for at most one period after its timeout, or after the moment it was found running.
   */
  lemma IdleRunIsBounded(c: Config, trace: seq<Table>, ops: seq<Op>, id: Id, side: Side, since: int, period: nat)
    requires IdleRun(c, trace, ops, id, side, since, period) && Inv(c, trace[0])
    ensures trace[|ops|].now <= Max(trace[0].now, since + IdleTimeout(c, side)) + period
  {
    var nows, limit := Clocks(trace), Max(trace[0].now, since + IdleTimeout(c, side));
    forall k | 0 <= k < |ops| && k + 1 < |nows| && ops[k] == Sweep(side)
      ensures nows[k + 1] <= limit
    {
      SweepsMeetTheLimit(c, trace, ops, id, side, since, k);
    }
    ClockStaysNear(nows, ops, side, limit, period);
  }

  /** So it is never idle for longer than its timeout plus one period, if it is within its timeout at first. */
  lemma StopsWithinOnePeriod(c: Config, trace: seq<Table>, ops: seq<Op>, id: Id, side: Side, since: int, period: nat)
    requires IdleRun(c, trace, ops, id, side, since, period) && Inv(c, trace[0])
    requires trace[0].now <= since + IdleTimeout(c, side)
    ensures trace[|ops|].now - since <= IdleTimeout(c, side) + period
  {
    IdleRunIsBounded(c, trace, ops, id, side, since, period);
  }

  /**
   * And only then: from a moment at which a held tunnel runs, no run lets it be idle for longer than its timeout
   * plus one period if and only if it is within its timeout at that moment.
   */
  lemma StopsWithinOnePeriodIff(c: Config, m: Table, id: Id, side: Side, since: int, period: nat)
    requires Inv(c, m) && RunsIdleSince(m, id, since) && SideOf(m.made[id].key) == side
    ensures m.now <= since + IdleTimeout(c, side) <==>
      forall trace: seq<Table>, ops: seq<Op> | IdleRun(c, trace, ops, id, side, since, period) && trace[0] == m ::
        trace[|ops|].now - since <= IdleTimeout(c, side) + period
  {
    if m.now <= since + IdleTimeout(c, side) {
      forall trace: seq<Table>, ops: seq<Op> | IdleRun(c, trace, ops, id, side, since, period) && trace[0] == m
        ensures trace[|ops|].now - since <= IdleTimeout(c, side) + period
      {
        StopsWithinOnePeriod(c, trace, ops, id, side, since, period);
      }
    } else {
      var later := m.now + period;
      var trace, ops := [m, m.(now := later)], [Tick(later)];
      assert RunsIdleSince(m.(now := later), id, since);
      assert IdleRun(c, trace, ops, id, side, since, period);
    }
  }

  // ---------------------------------------------------------------- concrete runs

  ghost predicate Reaches(c: Config, trace: seq<Table>, ops: seq<Op>, m: Table) {
    IsRun(c, trace, ops) && trace[0] == Empty(0) && trace[|ops|] == m
  }

  lemma Step(c: Config, trace: seq<Table>, ops: seq<Op>, m: Table, op: Op)
    returns (trace': seq<Table>, ops': seq<Op>, m': Table)
    requires Reaches(c, trace, ops, m) && Enabled(m, op)
    ensures m' == Apply(c, m, op) && trace' == trace + [m'] && ops' == ops + [op] && Reaches(c, trace', ops', m')
  {
    m' := Apply(c, m, op);
    trace', ops' := trace + [m'], ops + [op];
  }

  /** The table whose one handle, made at time 0, has these fields. */
  function Single(key: Key, route: Route, core: Tunnel.Core, now: int): Table {
    Table([Made(key, route, core)], map[key := 0], {}, now)
  }

  lemma FirstGet(c: Config, key: Key, scheme: string) returns (trace: seq<Table>, ops: seq<Op>, m: Table)
    requires RouteFor(c, key, scheme).Some?
    ensures trace == [Empty(0), m] && ops == [Get(key, scheme, true)] && Reaches(c, trace, ops, m)
    ensures m == Single(key, RouteFor(c, key, scheme).value, Tunnel.NewCore(0), 0)
  {
    trace, ops, m := Step(c, [Empty(0)], [], Empty(0), Get(key, scheme, true));
    assert m == Single(key, RouteFor(c, key, scheme).value, Tunnel.NewCore(0), 0);
  }

  /** The present was preceded by a sweep, except for moments at the present time. */
  ghost predicate JustSwept(nows: seq<int>, ops: seq<Op>, side: Side) {
    |nows| == |ops| + 1 &&
    forall i | 0 <= i <= |ops| :: nows[i] == nows[|ops|] || SweptBetween(ops, side, i, |ops|)
  }

  lemma SweptLonger(ops: seq<Op>, op: Op, side: Side, i: nat, j: nat)
    requires i <= j <= |ops| && SweptBetween(ops, side, i, j)
    ensures SweptBetween(ops + [op], side, i, j) && SweptBetween(ops + [op], side, i, |ops| + 1)
  {
    var k :| i <= k < j && ops[k] == Sweep(side);
    assert (ops + [op])[k] == Sweep(side);
  }

  /** Time moves on by a period at most, just after a sweep. */
  lemma TickKeepsSwept(nows: seq<int>, ops: seq<Op>, op: Op, now: int, side: Side, period: nat)
    requires |nows| == |ops| + 1 && SweptEvery(nows, ops, side, period) && JustSwept(nows, ops, side)
    requires now <= nows[|ops|] + period
    ensures SweptEvery(nows + [now], ops + [op], side, period)
  {
    var nows', ops' := nows + [now], ops + [op];
    forall i, j | 0 <= i < j <= |ops'|
      ensures nows'[j] - nows'[i] <= period || SweptBetween(ops', side, i, j)
    {
      if j <= |ops| && SweptBetween(ops, side, i, j) {
        SweptLonger(ops, op, side, i, j);
      } else if j == |ops'| && nows[i] != nows[|ops|] {
        SweptLonger(ops, op, side, i, |ops|);
      }
    }
  }

  lemma SweepKeepsSwept(nows: seq<int>, ops: seq<Op>, side: Side, period: nat)
    requires |nows| == |ops| + 1 && SweptEvery(nows, ops, side, period)
    ensures var (nows', ops') := (nows + [nows[|ops|]], ops + [Sweep(side)]);
      SweptEvery(nows', ops', side, period) && JustSwept(nows', ops', side)
  {
    var nows', ops' := nows + [nows[|ops|]], ops + [Sweep(side)];
    assert ops'[|ops|] == Sweep(side);
    forall i, j | 0 <= i < j <= |ops'|
      ensures nows'[j] - nows'[i] <= period || SweptBetween(ops', side, i, j)
    {
      if j <= |ops| && SweptBetween(ops, side, i, j) {
        SweptLonger(ops, Sweep(side), side, i, j);
      }
    }
  }

  lemma ClocksGrow(trace: seq<Table>, m: Table)
    ensures Clocks(trace + [m]) == Clocks(trace) + [m.now]
  {
  }

  /** A handle that nobody starts stays in the table, idle, through any number of sweeps. */
  lemma {:induction false} AgesUnstarted(c: Config, key: Key, scheme: string, period: nat, n: nat)
    returns (trace: seq<Table>, ops: seq<Op>, m: Table)
    requires RouteFor(c, key, scheme).Some?
    ensures Reaches(c, trace, ops, m)
    ensures m == Single(key, RouteFor(c, key, scheme).value, Tunnel.NewCore(0), n * period)
    ensures SweptEvery(Clocks(trace), ops, SideOf(key), period) && JustSwept(Clocks(trace), ops, SideOf(key))
  {
    if n == 0 {
      trace, ops, m := FirstGet(c, key, scheme);
      assert Clocks(trace) == [0, 0];
    } else {
      trace, ops, m := AgesUnstarted(c, key, scheme, period, n - 1);
      var was, done := trace, ops;
      trace, ops, m := Step(c, was, done, m, Tick(n * period));
      ClocksGrow(was, m);
      TickKeepsSwept(Clocks(was), done, Tick(n * period), n * period, SideOf(key), period);
      was, done := trace, ops;
      SweepKeepsSwept(Clocks(was), done, SideOf(key), period);
      trace, ops, m := SweepsUnstarted(c, key, RouteFor(c, key, scheme).value, was, done, m);
    }
  }

  lemma SweepsUnstarted(c: Config, key: Key, route: Route, was: seq<Table>, done: seq<Op>, m: Table)
    returns (trace: seq<Table>, ops: seq<Op>, m': Table)
    requires Reaches(c, was, done, m) && m == Single(key, route, Tunnel.NewCore(0), m.now)
    ensures m' == m && Reaches(c, trace, ops, m') && ops == done + [Sweep(SideOf(key))]
    ensures Clocks(trace) == Clocks(was) + [Clocks(was)[|done|]]
  {
    trace, ops, m' := Step(c, was, done, m, Sweep(SideOf(key)));
    assert OverdueKeys(c, m, SideOf(key)) == {};
    assert Drop(m, {}).made == m.made && Drop(m, {}).dropped == m.dropped;
    ClocksGrow(was, m');
  }

  /**
   * A start that comes late: a handle made and then left alone through all sweeps is started before anybody
   * touches it, and is held, running, and idle for longer than its timeout plus one period.
   */
  lemma LateStartIsOverdue(c: Config, key: Key, scheme: string, period: nat, p: Tunnel.Port)
    requires RouteFor(c, key, scheme).Some? && period > 0
    ensures exists trace: seq<Table>, ops: seq<Op>, m: Table ::
      && Reaches(c, trace, ops, m) && SweptEvery(Clocks(trace), ops, SideOf(key), period)
      && RunsIdleSince(m, 0, 0) && m.now - 0 > IdleTimeout(c, SideOf(key)) + period
  {
    var side := SideOf(key);
    var n := Max(IdleTimeout(c, side), 0) + 2;
    assert n * period > IdleTimeout(c, side) + period by {
      LateEnough(Max(IdleTimeout(c, side), 0), period);
    }
    var was, done, m0 := AgesUnstarted(c, key, scheme, period, n);
    var start := OnTunnel(0, Tunnel.Start(Tunnel.Ready(p)));
    var trace, ops, m := Step(c, was, done, m0, start);
    ClocksGrow(was, m);
    TickKeepsSwept(Clocks(was), done, start, m.now, side, period);
  }

  lemma LateEnough(timeout: nat, period: nat)
    requires period > 0
    ensures (timeout + 2) * period > timeout + period
  {
    assert timeout * period >= timeout;
    assert (timeout + 2) * period == timeout * period + 2 * period;
  }

  // ---------------------------------------------------------------- dropped handles

  predicate LeavesAlone(op: Op, id: Id) {
    !OnHandle(op, id)
  }

  /** A call on the handle, or what threads inside its tunnel do. */
  predicate OnHandle(op: Op, id: Id) {
    (op.OnTunnel? || op.Threads?) && op.id == id
  }

  predicate Parked(m: Table, id: Id, made: Made) {
    id in m.dropped && id < |m.made| && m.made[id] == made
  }

  /** Once a handle was dropped, only its holders move it: no sweep or shutdown reaches it. */
  lemma {:induction false} DroppedIsLeftAlone(
      c: Config, trace: seq<Table>, ops: seq<Op>, id: Id, made: Made, i: nat, j: nat)
    requires IsRun(c, trace, ops) && Inv(c, trace[0]) && i <= j <= |ops| && Parked(trace[i], id, made)
    requires forall k | i <= k < |ops| :: LeavesAlone(ops[k], id)
    ensures Parked(trace[j], id, made)
    decreases j
  {
    if i < j {
      DroppedIsLeftAlone(c, trace, ops, id, made, i, j - 1);
      RunKeepsInv(c, trace, ops, j - 1);
      DroppedStaysPut(c, trace[j - 1], ops[j - 1], id, made);
    }
  }

  lemma DroppedStaysPut(c: Config, m: Table, op: Op, id: Id, made: Made)
    requires Inv(c, m) && Enabled(m, op) && Parked(m, id, made) && LeavesAlone(op, id)
    ensures Parked(Apply(c, m, op), id, made)
  {
  }

  /**
   * A holder can start a handle after a sweep dropped it.  The tunnel then runs, and no later operation of
   * the manager stops it, however long it stays idle.
   */
  lemma DroppedHandleRunsUnswept(c: Config, trace: seq<Table>, ops: seq<Op>, id: Id, p: Tunnel.Port)
    requires IsRun(c, trace, ops) && Inv(c, trace[0]) && id in trace[0].dropped
    requires ops != [] && ops[0] == OnTunnel(id, Tunnel.Start(Tunnel.Ready(p)))
    requires forall k | 1 <= k < |ops| :: LeavesAlone(ops[k], id)
    ensures id < |trace[|ops|].made| && trace[|ops|].made[id].core.state == Tunnel.Running
  {
    RunContinues(c, trace, ops, 0, 1);
    assert Moves(c, trace[0], ops[0], trace[1]);
    assert trace[1].made[id].core.state == Tunnel.Running;
    DroppedIsLeftAlone(c, trace, ops, id, trace[1].made[id], 1, |ops|);
  }

  /**
   * What the manager itself can stop: one of its steps ends a running tunnel if and only if the tunnel is held
   * and the step is a shutdown of its side or its look at the key, or a sweep of its side while it is overdue.
   */
  lemma ManagerStopsIff(c: Config, m: Table, op: Op, id: Id)
    requires Inv(c, m) && Enabled(m, op) && !op.OnTunnel? && !op.Threads?
    requires id < |m.made| && m.made[id].core.state == Tunnel.Running
    ensures id < |Apply(c, m, op).made|
    ensures var side := SideOf(m.made[id].key);
      Apply(c, m, op).made[id].core.state != Tunnel.Running <==>
        && Holds(m, id)
        && (op == Shutdown(side) || op == ShutdownLook(m.made[id].key)
            || (op == Sweep(side) && m.now - m.made[id].core.lastAccess > IdleTimeout(c, side)))
  {
    match op
    case Get(key, scheme, client) =>
    case Sweep(side) =>
      var key := m.made[id].key;
      assert Holds(m, id) ==> (key in OverdueKeys(c, m, side) <==> SideOf(key) == side && Overdue(c, m, key));
    case _ =>
  }

  ghost predicate NothingRuns(m: Table) {
    forall id | 0 <= id < |m.made| :: m.made[id].core.state != Tunnel.Running
  }

  ghost function ShutDown(c: Config, m: Table): Table {
    Apply(c, Apply(c, m, Shutdown(HttpSide)), Shutdown(TcpSide))
  }

  /** A tunnel runs after both shutdowns exactly when it ran before and its handle had been dropped. */
  lemma RunsAfterShutdownIff(c: Config, m: Table, id: Id)
    requires Inv(c, m) && id < |m.made|
    ensures id < |ShutDown(c, m).made|
    ensures ShutDown(c, m).made[id].core.state == Tunnel.Running <==>
      m.made[id].core.state == Tunnel.Running && id in m.dropped
  {
    var m1 := Apply(c, m, Shutdown(HttpSide));
    StepKeeps(c, m, Shutdown(HttpSide));
  }

  /** So nothing runs after both shutdowns if and only if no dropped handle was running before them. */
  lemma NothingRunsAfterShutdownIff(c: Config, m: Table)
    requires Inv(c, m)
    ensures NothingRuns(ShutDown(c, m)) <==> forall id | id in m.dropped :: m.made[id].core.state != Tunnel.Running
  {
    forall id | 0 <= id < |m.made|
      ensures id < |ShutDown(c, m).made|
      ensures ShutDown(c, m).made[id].core.state == Tunnel.Running <==>
        m.made[id].core.state == Tunnel.Running && id in m.dropped
    {
      RunsAfterShutdownIff(c, m, id);
    }
    assert |ShutDown(c, m).made| == |m.made|;
  }

  /**
   * A run that leaves a tunnel behind: made, started, swept when idle, started again by its holder; both
   * shutdowns pass it by.
   */
  lemma DroppedHandleOutlivesShutdown(c: Config, key: Key, scheme: string, p: Tunnel.Port)
    requires RouteFor(c, key, scheme).Some?
    ensures exists trace: seq<Table>, ops: seq<Op>, m: Table ::
      && Reaches(c, trace, ops, m) && 0 in m.dropped && |m.made| == 1 && m.made[0].core.state == Tunnel.Running
      && |ops| >= 2 && ops[|ops| - 2..] == [Shutdown(HttpSide), Shutdown(TcpSide)]
  {
    var trace, before, m0 := SweptAway(c, key, scheme, p);
    trace, before, m0 := Step(c, trace, before, m0, OnTunnel(0, Tunnel.Start(Tunnel.Ready(p))));
    RunKeepsInv(c, trace, before, |before|);
    RunsAfterShutdownIff(c, m0, 0);
    var ops, m := before, m0;
    trace, ops, m := Step(c, trace, ops, m, Shutdown(HttpSide));
    trace, ops, m := Step(c, trace, ops, m, Shutdown(TcpSide));
    assert ops == before + [Shutdown(HttpSide), Shutdown(TcpSide)];
    assert m == ShutDown(c, m0);
  }

  /** A tunnel that ran until it was swept. */
  lemma SweptAway(c: Config, key: Key, scheme: string, p: Tunnel.Port)
    returns (trace: seq<Table>, ops: seq<Op>, m: Table)
    requires RouteFor(c, key, scheme).Some?
    ensures Reaches(c, trace, ops, m) && m.dropped == {0} && |m.made| == 1 && m.made[0].core.state == Tunnel.Idle
  {
    var late := Max(IdleTimeout(c, SideOf(key)), 0) + 1;
    trace, ops, m := FirstGet(c, key, scheme);
    trace, ops, m := Step(c, trace, ops, m, OnTunnel(0, Tunnel.Start(Tunnel.Ready(p))));
    trace, ops, m := Step(c, trace, ops, m, Tick(late));
    assert OverdueKeys(c, m, SideOf(key)) == {key};
    trace, ops, m := Step(c, trace, ops, m, Sweep(SideOf(key)));
  }

  // ---------------------------------------------------------------- failed handles

  predicate NoRestart(op: Op, id: Id) {
    && !(op.OnTunnel? && op.id == id && op.op.Start?)
    && (op.Threads? && op.id == id ==> op.core.state == Tunnel.Failed)
  }

  /** After a handle was marked failed, no get returns it until somebody starts it again. */
  lemma FailedIsNotReturned(c: Config, trace: seq<Table>, ops: seq<Op>, id: Id, key: Key, scheme: string, client: bool)
    requires IsRun(c, trace, ops) && Inv(c, trace[0]) && id < |trace[0].made|
    requires trace[0].made[id].core.state == Tunnel.Failed && forall k | 0 <= k < |ops| :: NoRestart(ops[k], id)
    ensures GetOrCreate(c, trace[|ops|], key, scheme, client).1 != Ok(id)
  {
    StaysFailed(c, trace, ops, id, |ops|);
  }

  lemma {:induction false} StaysFailed(c: Config, trace: seq<Table>, ops: seq<Op>, id: Id, j: nat)
    requires IsRun(c, trace, ops) && Inv(c, trace[0]) && id < |trace[0].made| && j <= |ops|
    requires trace[0].made[id].core.state == Tunnel.Failed && forall k | 0 <= k < |ops| :: NoRestart(ops[k], id)
    ensures id < |trace[j].made| && trace[j].made[id].core.state == Tunnel.Failed
  {
    if j > 0 {
      StaysFailed(c, trace, ops, id, j - 1);
      RunKeepsInv(c, trace, ops, j - 1);
      StepStaysFailed(c, trace[j - 1], ops[j - 1], id);
    }
  }

  lemma StepStaysFailed(c: Config, m: Table, op: Op, id: Id)
    requires Inv(c, m) && Enabled(m, op) && id < |m.made| && m.made[id].core.state == Tunnel.Failed && NoRestart(op, id)
    ensures id < |Apply(c, m, op).made| && Apply(c, m, op).made[id].core.state == Tunnel.Failed
  {
  }
}
