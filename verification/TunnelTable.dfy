/**
 * The tunnel manager: one handle per hostname and per local TCP port, created on demand, dropped when failed,
 * idle or at shutdown.  Every locked operation of the manager is one step, and a shutdown also comes in its two
 * halves.  Between the manager's steps tunnels move, by whole calls or by what threads inside them do between two
 * lock releases; holders of a handle may keep calling it after it was dropped.
 */
module TunnelTable {
  import opened Wrappers
  import opened Text
  import opened Config
  import opened DynamicRoute
  import Tunnel

  datatype Side = HttpSide | TcpSide

  datatype Key = Host(name: string) | LocalPort(port: Int64)

  function SideOf(key: Key): Side {
    if key.Host? then HttpSide else TcpSide
  }

  type Id = nat

  /** A handle the manager has made: what it was made for, and the tunnel's fields. */
  datatype Made = Made(key: Key, route: Route, core: Tunnel.Core)

  datatype Table = Table(
    made: seq<Made>,       // every handle ever made; its index is its identity
    held: map<Key, Id>,
    dropped: set<Id>,      // handles that were once held
    now: int)

  datatype Op =
    | Tick(now: int)
    | Get(key: Key, scheme: string, client: bool)  // client: whether the client factory has an answer
    | Sweep(side: Side)
    | Shutdown(side: Side)
    | ShutdownLook(key: Key)                       // Shutdown looks at one key, and stops its tunnel if it runs
    | ShutdownForget(side: Side)                   // Shutdown replaces the map
    | OnTunnel(id: Id, op: Tunnel.Op)              // a whole call on the tunnel
    | Threads(id: Id, core: Tunnel.Core)           // threads inside the tunnel leave it with these fields

  datatype GetError = NoRoute | NoClient

  function Empty(now: int): Table {
    Table([], map[], {}, now)
  }

  /** Static routes come first, then hostnames that spell a route. */
  function RouteFor(c: Config, key: Key, scheme: string): Option<Route> {
    match key
    case Host(name) =>
      if name in c.http.routes then Some(c.http.routes[name])
      else ParseDynamicHostname(name, c.http.dynamicHost, scheme)
    case LocalPort(p) =>
      if p in c.tcp.routes then Some(ToK8sRoute(c.tcp.routes[p])) else None
  }

  /** The TCP timeout falls back to the HTTP one. */
  function IdleTimeout(c: Config, side: Side): int {
    if side == HttpSide || c.tcp.idleTimeout == 0 then c.http.idleTimeout else c.tcp.idleTimeout
  }

  function Renew(m: Table, id: Id, core: Tunnel.Core): Table
    requires id < |m.made|
  {
    m.(made := m.made[id := m.made[id].(core := core)])
  }

  ghost predicate Holds(m: Table, id: Id) {
    id < |m.made| && m.made[id].key in m.held && m.held[m.made[id].key] == id
  }

  ghost predicate HeldIn(m: Table, id: Id, keys: set<Key>) {
    Holds(m, id) && m.made[id].key in keys
  }

  /** Stops the running handles of the given keys. */
  ghost function Stopped(m: Table, keys: set<Key>): (made: seq<Made>)
    ensures |made| == |m.made|
  {
    seq(|m.made|, i requires 0 <= i < |m.made| =>
      if HeldIn(m, i, keys) then m.made[i].(core := Tunnel.StopCore(m.made[i].core)) else m.made[i])
  }

  /** Stops and forgets the handles of the given keys. */
  ghost function Drop(m: Table, keys: set<Key>): Table {
    m.(made := Stopped(m, keys),
       held := m.held - keys,
       dropped := m.dropped + set i | 0 <= i < |m.made| && HeldIn(m, i, keys))
  }

  /** Forgets the handles of the given keys, and leaves their tunnels as they are. */
  ghost function Forget(m: Table, keys: set<Key>): Table {
    m.(held := m.held - keys, dropped := m.dropped + set i | 0 <= i < |m.made| && HeldIn(m, i, keys))
  }

  predicate Overdue(c: Config, m: Table, key: Key) {
    && key in m.held && m.held[key] < |m.made|
    && var core := m.made[m.held[key]].core;
       core.state == Tunnel.Running && m.now - core.lastAccess > IdleTimeout(c, SideOf(key))
  }

  predicate Usable(core: Tunnel.Core) {
    core.state != Tunnel.Stopping && core.state != Tunnel.Failed
  }

  /** The key's handle if it is usable. */
  function Find(m: Table, key: Key): Option<Id> {
    if key in m.held && m.held[key] < |m.made| && Usable(m.made[m.held[key]].core) then Some(m.held[key]) else None
  }

  function Create(m: Table, key: Key, route: Route): Table {
    m.(made := m.made + [Made(key, route, Tunnel.NewCore(m.now))], held := m.held[key := |m.made|])
  }

  /** GetOrCreateTunnel and GetOrCreateTCPTunnel. */
  ghost function GetOrCreate(c: Config, m: Table, key: Key, scheme: string, client: bool)
    : (Table, Result<Id, GetError>)
  {
    var found := Find(m, key);
    if found.Some? then
      (Renew(m, found.value, Tunnel.TouchCore(m.made[found.value].core, m.now)), Ok(found.value))
    else
      CreateRouted(c, Drop(m, {key}), key, scheme, client)
  }

  /** The rest of a get, when the key holds no usable handle. */
  function CreateRouted(c: Config, m: Table, key: Key, scheme: string, client: bool)
    : (Table, Result<Id, GetError>)
  {
    var route := RouteFor(c, key, scheme);
    if route.None? then (m, Err(NoRoute))
    else if !client then (m, Err(NoClient))
    else (Create(m, key, route.value), Ok(|m.made|))
  }

  ghost function SideKeys(m: Table, side: Side): set<Key> {
    set k | k in m.held && SideOf(k) == side
  }

  ghost function OverdueKeys(c: Config, m: Table, side: Side): set<Key> {
    set k | k in m.held && SideOf(k) == side && Overdue(c, m, k)
  }

  /** Time does not go back, and only handles that were made can be called. */
  predicate Enabled(m: Table, op: Op) {
    match op
    case Tick(now) => m.now <= now
    case OnTunnel(id, t) => id < |m.made| && (t.Touch? ==> t.now == m.now)
    case Threads(id, core) => id < |m.made| && m.made[id].core.lastAccess <= core.lastAccess <= m.now
    case _ => true
  }

  ghost function Apply(c: Config, m: Table, op: Op): Table
    requires Enabled(m, op)
  {
    match op
    case Tick(now) => m.(now := now)
    case Get(key, scheme, client) => GetOrCreate(c, m, key, scheme, client).0
    case Sweep(side) => Drop(m, OverdueKeys(c, m, side))
    case Shutdown(side) => Drop(m, SideKeys(m, side))
    case ShutdownLook(key) => m.(made := Stopped(m, {key}))
    case ShutdownForget(side) => Forget(m, SideKeys(m, side))
    case OnTunnel(id, t) => Renew(m, id, Tunnel.ApplyOp(m.made[id].core, t))
    case Threads(id, core) => Renew(m, id, core)
  }

  // ---------------------------------------------------------------- what every operation keeps

  ghost predicate BuiltFor(c: Config, m: Made) {
    exists scheme :: RouteFor(c, m.key, scheme) == Some(m.route)
  }

  /** Every handle is held under its own key. */
  predicate Keyed(m: Table) {
    forall k | k in m.held :: m.held[k] < |m.made| && m.made[m.held[k]].key == k
  }

  ghost predicate Inv(c: Config, m: Table) {
    && Keyed(m)
    && (forall i | 0 <= i < |m.made| :: Holds(m, i) <==> i !in m.dropped)
    && (forall i | i in m.dropped :: i < |m.made|)
    && (forall i | 0 <= i < |m.made| :: m.made[i].core.lastAccess <= m.now)
    && (forall i {:trigger BuiltFor(c, m.made[i])} | 0 <= i < |m.made| :: BuiltFor(c, m.made[i]))
  }

  /** Everything a step may do to the handles that were there before. */
  ghost predicate Continues(m: Table, m': Table) {
    && |m.made| <= |m'.made| && m.now <= m'.now && m.dropped <= m'.dropped
    && forall i | 0 <= i < |m.made| ::
         && m'.made[i].key == m.made[i].key && m'.made[i].route == m.made[i].route
         && m.made[i].core.lastAccess <= m'.made[i].core.lastAccess
  }

  lemma DropKeeps(c: Config, m: Table, keys: set<Key>)
    requires Inv(c, m)
    ensures Inv(c, Drop(m, keys)) && Continues(m, Drop(m, keys))
  {
    var m' := Drop(m, keys);
    forall i | 0 <= i < |m.made|
      ensures Holds(m', i) <==> Holds(m, i) && m.made[i].key !in keys
    {
    }
    assert forall i | 0 <= i < |m.made| :: BuiltFor(c, m.made[i]) ==> BuiltFor(c, m'.made[i]);
  }

  lemma RenewKeeps(c: Config, m: Table, id: Id, core: Tunnel.Core)
    requires Inv(c, m) && id < |m.made|
    requires m.made[id].core.lastAccess <= core.lastAccess <= m.now
    ensures Inv(c, Renew(m, id, core)) && Continues(m, Renew(m, id, core))
  {
    var m' := Renew(m, id, core);
    assert forall i | 0 <= i < |m.made| :: Holds(m, i) <==> Holds(m', i);
    assert forall i | 0 <= i < |m.made| :: BuiltFor(c, m.made[i]) ==> BuiltFor(c, m'.made[i]);
  }

  lemma CreateKeeps(c: Config, m: Table, key: Key, scheme: string)
    requires Inv(c, m) && key !in m.held && RouteFor(c, key, scheme).Some?
    ensures var m' := Create(m, key, RouteFor(c, key, scheme).value); Inv(c, m') && Continues(m, m')
  {
    var m' := Create(m, key, RouteFor(c, key, scheme).value);
    forall i | 0 <= i < |m.made|
      ensures m'.made[i] == m.made[i] && (Holds(m, i) <==> Holds(m', i))
    {
    }
    assert BuiltFor(c, m'.made[|m.made|]);
  }

  lemma StoppedKeeps(c: Config, m: Table, keys: set<Key>)
    requires Inv(c, m)
    ensures var m' := m.(made := Stopped(m, keys)); Inv(c, m') && Continues(m, m')
  {
    var m' := m.(made := Stopped(m, keys));
    assert forall i | 0 <= i < |m.made| :: Holds(m, i) <==> Holds(m', i);
    assert forall i | 0 <= i < |m.made| :: BuiltFor(c, m.made[i]) ==> BuiltFor(c, m'.made[i]);
  }

  lemma GetKeeps(c: Config, m: Table, key: Key, scheme: string, client: bool)
    requires Inv(c, m)
    ensures var m' := GetOrCreate(c, m, key, scheme, client).0; Inv(c, m') && Continues(m, m')
  {
    if Find(m, key).Some? {
      var id := Find(m, key).value;
      RenewKeeps(c, m, id, Tunnel.TouchCore(m.made[id].core, m.now));
    } else {
      DropKeeps(c, m, {key});
      if RouteFor(c, key, scheme).Some? {
        CreateKeeps(c, Drop(m, {key}), key, scheme);
      }
    }
  }

  lemma StepKeeps(c: Config, m: Table, op: Op)
    requires Inv(c, m) && Enabled(m, op)
    ensures Inv(c, Apply(c, m, op)) && Continues(m, Apply(c, m, op))
  {
    match op
    case Tick(now) =>
      assert forall i | 0 <= i < |m.made| :: Holds(m, i) <==> Holds(m.(now := now), i);
    case Get(key, scheme, client) => GetKeeps(c, m, key, scheme, client);
    case Sweep(side) => DropKeeps(c, m, OverdueKeys(c, m, side));
    case Shutdown(side) => DropKeeps(c, m, SideKeys(m, side));
    case ShutdownLook(key) => StoppedKeeps(c, m, {key});
    case ShutdownForget(side) =>
    case OnTunnel(id, t) => RenewKeeps(c, m, id, Tunnel.ApplyOp(m.made[id].core, t));
    case Threads(id, core) => RenewKeeps(c, m, id, core);
  }

  /** Between whole calls every tunnel is settled. */
  ghost predicate Calm(c: Config, m: Table) {
    Inv(c, m) && forall i | 0 <= i < |m.made| :: Tunnel.Settled(m.made[i].core)
  }

  lemma GetKeepsCalm(c: Config, m: Table, key: Key, scheme: string, client: bool)
    requires Calm(c, m)
    ensures var m' := GetOrCreate(c, m, key, scheme, client).0; Calm(c, m') && Continues(m, m')
  {
    GetKeeps(c, m, key, scheme, client);
  }

  /** Whole calls keep every tunnel settled. */
  lemma StepKeepsCalm(c: Config, m: Table, op: Op)
    requires Calm(c, m) && Enabled(m, op) && !op.Threads?
    ensures Calm(c, Apply(c, m, op)) && Continues(m, Apply(c, m, op))
  {
    StepKeeps(c, m, op);
    if op.Get? {
      GetKeepsCalm(c, m, op.key, op.scheme, op.client);
    }
  }

  /** Dropping keys one by one is dropping them together, and does not change what is overdue. */
  lemma DropMore(c: Config, m: Table, keys: set<Key>, key: Key)
    requires Keyed(m) && key in m.held && key !in keys
    ensures Drop(Drop(m, keys), {key}) == Drop(m, keys + {key})
    ensures Overdue(c, Drop(m, keys), key) <==> Overdue(c, m, key)
  {
    var m1 := Drop(m, keys);
    forall i | 0 <= i < |m.made|
      ensures Stopped(m1, {key})[i] == Stopped(m, keys + {key})[i]
      ensures HeldIn(m1, i, {key}) || HeldIn(m, i, keys) <==> HeldIn(m, i, keys + {key})
    {
    }
    assert Stopped(m1, {key}) == Stopped(m, keys + {key});
  }

  /** Stopping a handle before it is forgotten is the same as dropping it. */
  lemma DropStopped(m: Table, key: Key)
    requires Keyed(m) && key in m.held
    ensures var id := m.held[key];
      && Drop(Renew(m, id, Tunnel.StopCore(m.made[id].core)), {key}) == Drop(m, {key})
      && (m.made[id].core.state != Tunnel.Running ==>
            Drop(m, {key}) == m.(held := m.held - {key}, dropped := m.dropped + {id}))
  {
    var id := m.held[key];
    assert forall i | 0 <= i < |m.made| :: HeldIn(m, i, {key}) <==> i == id;
    var m1 := Renew(m, id, Tunnel.StopCore(m.made[id].core));
    assert forall i | 0 <= i < |m.made| :: HeldIn(m1, i, {key}) <==> i == id;
    assert Drop(m1, {key}).made == Drop(m, {key}).made;
    assert Drop(m1, {key}).dropped == Drop(m, {key}).dropped;
    assert m.made[id].core.state != Tunnel.Running ==> Drop(m, {key}).made == m.made;
  }

  /** A sweep that has still to look at some keys. */
  ghost function SweptBut(c: Config, m: Table, side: Side, left: set<Key>): Table {
    Drop(m, OverdueKeys(c, m, side) - left)
  }

  /** A sweep starts with all keys of its side to look at, and ends with none. */
  lemma SweepBounds(c: Config, m: Table, side: Side)
    ensures SweptBut(c, m, side, SideKeys(m, side)) == m
    ensures SweptBut(c, m, side, {}) == Drop(m, OverdueKeys(c, m, side))
  {
    var due := OverdueKeys(c, m, side);
    assert due - SideKeys(m, side) == {} && due - {} == due;
    assert Stopped(m, {}) == m.made && Drop(m, {}).dropped == m.dropped;
  }

  /** Looking at one more key. */
  lemma SweepNext(c: Config, m: Table, side: Side, left: set<Key>, key: Key)
    requires Keyed(m) && key in left && key in m.held && SideOf(key) == side
    ensures var m' := SweptBut(c, m, side, left);
      && key in m'.held
      && SweptBut(c, m, side, left - {key}) == if Overdue(c, m', key) then Drop(m', {key}) else m'
  {
    var due := OverdueKeys(c, m, side);
    DropMore(c, m, due - left, key);
    assert key in due <==> Overdue(c, m, key);
    assert due - (left - {key}) == if key in due then (due - left) + {key} else due - left;
  }

  /** A shutdown that has still to look at some keys: nothing is forgotten yet. */
  ghost function StoppedBut(m: Table, side: Side, left: set<Key>): Table {
    m.(made := Stopped(m, SideKeys(m, side) - left))
  }

  lemma StopNext(m: Table, side: Side, left: set<Key>, key: Key)
    requires Keyed(m) && key in left && key in m.held && SideOf(key) == side
    ensures var m', id := StoppedBut(m, side, left), m.held[key];
      StoppedBut(m, side, left - {key}) == Renew(m', id, Tunnel.StopCore(m'.made[id].core))
  {
    var m', id, keys := StoppedBut(m, side, left), m.held[key], SideKeys(m, side);
    forall i | 0 <= i < |m.made|
      ensures HeldIn(m, i, keys - (left - {key})) <==> HeldIn(m, i, keys - left) || i == id
    {
    }
    assert Stopped(m, keys - (left - {key})) == Renew(m', id, Tunnel.StopCore(m'.made[id].core)).made;
  }

  // ---------------------------------------------------------------- runs

  ghost predicate Moves(c: Config, m: Table, op: Op, m': Table) {
    Enabled(m, op) && m' == Apply(c, m, op)
  }

  /** The states a run of operations goes through: trace[i] is the one before operation i. */
  ghost predicate IsRun(c: Config, trace: seq<Table>, ops: seq<Op>) {
    && |trace| == |ops| + 1
    && forall i {:trigger ops[i]} | 0 <= i < |ops| :: Moves(c, trace[i], ops[i], trace[i + 1])
  }

  lemma ContinuesOn(m: Table, m': Table, m'': Table)
    requires Continues(m, m') && Continues(m', m'')
    ensures Continues(m, m'')
  {
  }

  lemma {:induction false} RunKeepsInv(c: Config, trace: seq<Table>, ops: seq<Op>, j: nat)
    requires IsRun(c, trace, ops) && Inv(c, trace[0]) && j <= |ops|
    ensures Inv(c, trace[j])
  {
    if j > 0 {
      RunKeepsInv(c, trace, ops, j - 1);
      StepKeeps(c, trace[j - 1], ops[j - 1]);
    }
  }

  /** No run undoes what an earlier step made or dropped. */
  lemma {:induction false} RunContinues(c: Config, trace: seq<Table>, ops: seq<Op>, i: nat, j: nat)
    requires IsRun(c, trace, ops) && Inv(c, trace[0]) && i <= j <= |ops|
    ensures Continues(trace[i], trace[j])
    decreases j
  {
    if i < j {
      RunContinues(c, trace, ops, i, j - 1);
      RunKeepsInv(c, trace, ops, j - 1);
      StepKeeps(c, trace[j - 1], ops[j - 1]);
      ContinuesOn(trace[i], trace[j - 1], trace[j]);
    }
  }

  /** A run of whole calls keeps every tunnel settled. */
  lemma {:induction false} RunKeepsCalm(c: Config, trace: seq<Table>, ops: seq<Op>, j: nat)
    requires IsRun(c, trace, ops) && Calm(c, trace[0]) && j <= |ops|
    requires forall k | 0 <= k < |ops| :: !ops[k].Threads?
    ensures Calm(c, trace[j])
  {
    if j > 0 {
      RunKeepsCalm(c, trace, ops, j - 1);
      StepKeepsCalm(c, trace[j - 1], ops[j - 1]);
    }
  }

  lemma EmptyInv(c: Config, now: int)
    ensures Calm(c, Empty(now))
  {
  }

  // ---------------------------------------------------------------- what a caller is given

  /**
   * A get succeeds exactly when the key has a usable handle, or a route and a client.  The handle it returns
   * is held under that key, was built for it from its route, is neither failed nor stopping (it may be starting),
   * and was touched now; on an error the key holds nothing.
   */
  lemma GetReturnsTheKeysHandle(c: Config, m: Table, key: Key, scheme: string, client: bool)
    requires Inv(c, m)
    ensures var (m', r) := GetOrCreate(c, m, key, scheme, client);
      && (r.Ok? <==> Find(m, key).Some? || (RouteFor(c, key, scheme).Some? && client))
      && (r == Err(NoRoute) <==> Find(m, key).None? && RouteFor(c, key, scheme).None?)
      && (r.Err? ==> key !in m'.held)
      && (r.Ok? ==>
           && Holds(m', r.value) && m'.made[r.value].key == key && BuiltFor(c, m'.made[r.value])
           && Usable(m'.made[r.value].core)
           && m'.made[r.value].core.lastAccess == m'.now
           && (r.value == |m.made| || (Holds(m, r.value) && Usable(m.made[r.value].core))))
  {
    GetKeeps(c, m, key, scheme, client);
    var (m', r) := GetOrCreate(c, m, key, scheme, client);
    if r.Ok? {
      assert m'.held[key] == r.value;
    }
  }

  /** A dropped handle is never given out again, in any run. */
  lemma DroppedNeverReturned(c: Config, trace: seq<Table>, ops: seq<Op>, id: Id, key: Key, scheme: string, client: bool)
    requires IsRun(c, trace, ops) && Inv(c, trace[0]) && id in trace[0].dropped
    ensures GetOrCreate(c, trace[|ops|], key, scheme, client).1 != Ok(id)
  {
    RunKeepsInv(c, trace, ops, |ops|);
    RunContinues(c, trace, ops, 0, |ops|);
  }

  /** With a valid configuration, every handle ever made targets a valid route, static or spelled in its hostname. */
  lemma HandlesTargetValidRoutes(c: Config, checks: NameChecks, m: Table, id: Id)
    requires ValidConfig(c, checks) && Inv(c, m) && id < |m.made|
    ensures ValidRoute(m.made[id].route)
  {
    assert BuiltFor(c, m.made[id]);
    var scheme :| RouteFor(c, m.made[id].key, scheme) == Some(m.made[id].route);
    if m.made[id].key.Host? && m.made[id].key.name !in c.http.routes {
      ParsedRouteIsCanonical(m.made[id].key.name, c.http.dynamicHost, scheme);
    }
  }

  /**
   * Where a handle's route comes from: the static route of its hostname if there is one, else the parts its
   * hostname spells; for a port, the port's route.
   */
  lemma HandleRoute(c: Config, m: Table, id: Id) returns (portStr: string)
    requires Inv(c, m) && id < |m.made|
    ensures match m.made[id].key
      case Host(name) =>
        if name in c.http.routes then m.made[id].route == c.http.routes[name]
        else ValidRoute(m.made[id].route) && SpelledBy(name, c.http.dynamicHost, m.made[id].route, portStr)
      case LocalPort(p) => p in c.tcp.routes && m.made[id].route == ToK8sRoute(c.tcp.routes[p])
  {
    assert BuiltFor(c, m.made[id]);
    var scheme :| RouteFor(c, m.made[id].key, scheme) == Some(m.made[id].route);
    portStr := "";
    if m.made[id].key.Host? && m.made[id].key.name !in c.http.routes {
      portStr := ParsedRouteIsSpelled(m.made[id].key.name, c.http.dynamicHost, scheme);
    }
  }

  // ---------------------------------------------------------------- when a handle is dropped

  /**
   * A step drops a held handle exactly when it is a shutdown of its side (or its second half), a get that finds
   * it failed, or a sweep that finds it running and idle beyond its timeout.
   */
  lemma StepDropsIff(c: Config, m: Table, op: Op, id: Id)
    requires Inv(c, m) && Enabled(m, op) && Holds(m, id)
    ensures var made := m.made[id];
      !Holds(Apply(c, m, op), id) <==>
        || op == Shutdown(SideOf(made.key)) || op == ShutdownForget(SideOf(made.key))
        || (op.Get? && op.key == made.key && !Usable(made.core))
        || (op == Sweep(SideOf(made.key)) && made.core.state == Tunnel.Running
            && m.now - made.core.lastAccess > IdleTimeout(c, SideOf(made.key)))
  {
    var key := m.made[id].key;
    match op
    case Get(k, scheme, client) =>
      GetDropsIff(c, m, k, scheme, client, id);
    case Sweep(side) =>
      assert key in OverdueKeys(c, m, side) <==> SideOf(key) == side && Overdue(c, m, key);
    case Shutdown(side) =>
      assert key in SideKeys(m, side) <==> SideOf(key) == side;
    case ShutdownForget(side) =>
      assert key in SideKeys(m, side) <==> SideOf(key) == side;
    case _ =>
  }

  lemma GetDropsIff(c: Config, m: Table, key: Key, scheme: string, client: bool, id: Id)
    requires Inv(c, m) && Holds(m, id)
    ensures !Holds(GetOrCreate(c, m, key, scheme, client).0, id) <==> key == m.made[id].key && !Usable(m.made[id].core)
  {
    assert m.held[m.made[id].key] == id;
    if Find(m, key).None? {
      assert Holds(Drop(m, {key}), id) <==> key != m.made[id].key;
    }
  }

  /**
   * A handle runs at the moment it is dropped exactly when the step is the second half of a shutdown and it was
   * running then; whole shutdowns, sweeps and gets drop no running handle.
   */
  lemma RunningWhenDroppedIff(c: Config, m: Table, op: Op, id: Id)
    requires Inv(c, m) && Enabled(m, op) && id in Apply(c, m, op).dropped && id !in m.dropped
    ensures id < |m.made|
    ensures Apply(c, m, op).made[id].core.state == Tunnel.Running <==>
      op.ShutdownForget? && m.made[id].core.state == Tunnel.Running
  {
  }

  /** A sweep stops the handles it removes and touches no other. */
  lemma SweepStopsWhatItRemoves(c: Config, m: Table, side: Side, id: Id)
    requires Inv(c, m) && id < |m.made|
    ensures var m' := Apply(c, m, Sweep(side));
      var gone := Holds(m, id) && !Holds(m', id);
      && |m'.made| == |m.made|
      && (gone ==> m'.made[id].core.state == Tunnel.Idle && m'.made[id].core.stop != Tunnel.Open)
      && (gone && Tunnel.Settled(m.made[id].core) ==> m'.made[id].core.stop == Tunnel.Closed)
      && (!gone ==> m'.made[id] == m.made[id])
  {
  }

  // ---------------------------------------------------------------- counting

  lemma {:induction false} CountIds(n: nat, ids: set<Id>)
    requires forall i :: i in ids <==> 0 <= i < n
    ensures |ids| == n
  {
    if n > 0 {
      CountIds(n - 1, ids - {n - 1});
    } else {
      assert ids == {};
    }
  }

  lemma {:induction false} CountValues<K, V>(f: map<K, V>)
    requires forall k, l | k in f && l in f && f[k] == f[l] :: k == l
    ensures |f.Values| == |f|
    decreases |f|
  {
    if f.Keys != {} {
      var k :| k in f;
      var g := f - {k};
      assert f.Keys == g.Keys + {k};
      assert f.Values == g.Values + {f[k]};
      CountValues(g);
    } else {
      assert f.Values == {};
    }
  }

  /** Every handle ever made is either held or dropped, never both. */
  lemma MadeIsHeldPlusDropped(c: Config, m: Table)
    requires Inv(c, m)
    ensures |m.made| == |m.held| + |m.dropped|
  {
    CountValues(m.held);
    assert m.held.Values !! m.dropped;
    forall i | 0 <= i < |m.made|
      ensures i in m.held.Values + m.dropped
    {
      if i !in m.dropped {
        assert Holds(m, i);
      }
    }
    CountIds(|m.made|, m.held.Values + m.dropped);
  }
}
