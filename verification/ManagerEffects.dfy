/**
 * What the manager's operations do, said in terms of the configuration and of the tunnels' fields: which route a
 * new handle gets, when there is none, when a sweep takes a tunnel, and what a shutdown leaves.
 */
module ManagerEffects {
  import opened Wrappers
  import opened Config
  import opened DynamicRoute
  import opened TunnelTable
  import Tunnel

  // ---------------------------------------------------------------- gets

  /** The static route of a hostname, or else the route that it names; the fields of a port's route. */
  ghost predicate HasRoute(c: Config, key: Key, scheme: string, r: Route) {
    match key
    case Host(name) =>
      if name in c.http.routes then r == c.http.routes[name] else NamesRoute(name, c.http.dynamicHost, scheme, r)
    case LocalPort(p) =>
      && p in c.tcp.routes
      && var t := c.tcp.routes[p];
         && r.context == t.context && r.namespace == t.namespace && r.service == t.service && r.pod == t.pod
         && r.port == t.port && r.scheme == "tcp"
  }

  lemma RouteForIff(c: Config, key: Key, scheme: string, r: Route)
    ensures RouteFor(c, key, scheme) == Some(r) <==> HasRoute(c, key, scheme, r)
  {
    if key.Host? {
      ParsesExactlyTheNames(key.name, c.http.dynamicHost, scheme, r);
    }
  }

  /** A handle that was just made: nothing has happened to it. */
  predicate IsNew(core: Tunnel.Core, now: int) {
    && core.state == Tunnel.Idle && core.localPort == 0 && core.lastAccess == now
    && core.stop == Tunnel.Absent && core.lastError == None
  }

  /** The key's handle, if there is one that can be given out. */
  predicate HasUsable(m: Table, key: Key) {
    && key in m.held && m.held[key] < |m.made|
    && m.made[m.held[key]].core.state in {Tunnel.Idle, Tunnel.Starting, Tunnel.Running}
  }

  /** A get gives back the handle its key holds, as it is but for the time, exactly when that one is usable. */
  lemma GetFindsIff(c: Config, m: Table, key: Key, scheme: string, client: bool)
    requires Inv(c, m)
    ensures var (m', r) := GetOrCreate(c, m, key, scheme, client);
      && (HasUsable(m, key) <==> r.Ok? && r.value < |m.made|)
      && (HasUsable(m, key) ==>
            && r.value == m.held[key] && m'.held == m.held && m'.dropped == m.dropped
            && m'.made[r.value].core == m.made[r.value].core.(lastAccess := m.now))
  {
  }

  /** Without a usable handle a get makes one for the key's route, if there is a client. */
  lemma GetMakesForRoute(c: Config, m: Table, key: Key, scheme: string, r: Route)
    requires Inv(c, m) && !HasUsable(m, key) && HasRoute(c, key, scheme, r)
    ensures var (m', got) := GetOrCreate(c, m, key, scheme, true);
      && got == Ok(|m.made|) && |m'.made| == |m.made| + 1 && Holds(m', |m.made|)
      && m'.made[|m.made|].key == key && m'.made[|m.made|].route == r && IsNew(m'.made[|m.made|].core, m.now)
    ensures GetOrCreate(c, m, key, scheme, false).1 == Err(NoClient)
  {
    RouteForIff(c, key, scheme, r);
  }

  /** There is no route exactly for a port that is not configured, and a hostname neither static nor naming one. */
  lemma GetNoRouteIff(c: Config, m: Table, key: Key, scheme: string, client: bool)
    requires Inv(c, m)
    ensures GetOrCreate(c, m, key, scheme, client).1 == Err(NoRoute) <==>
      !HasUsable(m, key) && forall r :: !HasRoute(c, key, scheme, r)
  {
    forall r: Route
      ensures RouteFor(c, key, scheme) == Some(r) <==> HasRoute(c, key, scheme, r)
    {
      RouteForIff(c, key, scheme, r);
    }
  }

  lemma PortHasRouteIff(c: Config, p: Text.Int64, scheme: string)
    ensures (exists r :: HasRoute(c, LocalPort(p), scheme, r)) <==> p in c.tcp.routes
  {
    if p in c.tcp.routes {
      var t := c.tcp.routes[p];
      assert HasRoute(c, LocalPort(p), scheme, Route(t.context, t.namespace, t.service, t.pod, t.port, "tcp"));
    }
  }

  /** In particular the printed hostname of every unambiguous route leads to that route. */
  lemma PrintedHostIsRouted(c: Config, m: Table, r: Route)
    requires Inv(c, m) && ValidRoute(r) && Unambiguous(r) && c.http.dynamicHost != ""
    requires var host := Print(r, c.http.dynamicHost); host !in c.http.routes && !HasUsable(m, Host(host))
    ensures var (m', got) := GetOrCreate(c, m, Host(Print(r, c.http.dynamicHost)), r.scheme, true);
      got == Ok(|m.made|) && |m'.made| == |m.made| + 1 && m'.made[|m.made|].route == r
  {
    var host := Print(r, c.http.dynamicHost);
    Text.PrintedSpells(r.port);
    assert SpelledBy(host, c.http.dynamicHost, r, Text.Itoa(r.port));
    GetMakesForRoute(c, m, Host(host), r.scheme, r);
  }

  /** A get leaves all other keys, and all handles but the one it returns, as they were. */
  lemma GetLeavesOthers(c: Config, m: Table, key: Key, scheme: string, client: bool)
    requires Inv(c, m)
    ensures var (m', r) := GetOrCreate(c, m, key, scheme, client);
      && m'.now == m.now
      && (forall k | k != key :: (k in m'.held <==> k in m.held) && (k in m.held ==> m'.held[k] == m.held[k]))
      && |m.made| <= |m'.made|
      && (forall id | 0 <= id < |m.made| && r != Ok(id) :: m'.made[id] == m.made[id])
  {
    if Find(m, key).None? {
      forall id | 0 <= id < |m.made|
        ensures Stopped(m, {key})[id] == m.made[id]
      {
      }
    }
  }

  // ---------------------------------------------------------------- sweeps

  /**
   * A sweep takes a running handle of its side exactly when that has been idle for longer than the configured
   * time: the HTTP one for hostnames, the TCP one for ports unless that is 0, and then the HTTP one.
   */
  lemma SweepDropsIff(c: Config, m: Table, id: Id)
    requires Inv(c, m) && Holds(m, id) && m.made[id].core.state == Tunnel.Running
    ensures var key, idle := m.made[id].key, m.now - m.made[id].core.lastAccess;
      var gone := !Holds(Apply(c, m, Sweep(SideOf(key))), id);
      && (key.Host? ==> (gone <==> idle > c.http.idleTimeout))
      && (key.LocalPort? && c.tcp.idleTimeout != 0 ==> (gone <==> idle > c.tcp.idleTimeout))
      && (key.LocalPort? && c.tcp.idleTimeout == 0 ==> (gone <==> idle > c.http.idleTimeout))
  {
    StepDropsIff(c, m, Sweep(SideOf(m.made[id].key)), id);
  }

  /** It takes nothing else: no handle that does not run, and none of the other side. */
  lemma SweepLeavesOthers(c: Config, m: Table, side: Side, id: Id)
    requires Inv(c, m) && Holds(m, id)
    ensures m.made[id].core.state != Tunnel.Running || m.made[id].key.Host? != side.HttpSide? ==>
      Holds(Apply(c, m, Sweep(side)), id)
  {
    StepDropsIff(c, m, Sweep(side), id);
  }

  /** With a valid configuration no sweep takes a tunnel at the moment it is touched. */
  lemma TouchedSurvivesSweep(c: Config, checks: NameChecks, m: Table, side: Side, id: Id)
    requires ValidConfig(c, checks) && Inv(c, m) && Holds(m, id) && m.made[id].core.lastAccess == m.now
    ensures Holds(Apply(c, m, Sweep(side)), id)
  {
    StepDropsIff(c, m, Sweep(side), id);
    if m.made[id].key.LocalPort? {
      assert BuiltFor(c, m.made[id]);
      assert m.made[id].key.port in c.tcp.routes.Keys;
      assert |c.tcp.routes| > 0;
    }
  }

  // ---------------------------------------------------------------- shutdowns

  /** What Stop does to the fields of a tunnel. */
  predicate IsStopped(before: Tunnel.Core, after: Tunnel.Core) {
    if before.state != Tunnel.Running then after == before
    else
      && after.state == Tunnel.Idle
      && (before.stop == Tunnel.Open ==> after.stop == Tunnel.Closed)
      && (before.stop != Tunnel.Open ==> after.stop == before.stop)
      && after.localPort == before.localPort && after.lastAccess == before.lastAccess
      && after.lastError == before.lastError
  }

  /** A shutdown forgets exactly the keys of its side, stops what ran there, and touches nothing else. */
  lemma ShutdownEmptiesItsSide(c: Config, m: Table, side: Side)
    requires Inv(c, m)
    ensures var m' := Apply(c, m, Shutdown(side));
      && (forall k :: k in m'.held <==> k in m.held && k.Host? != side.HttpSide?)
      && (forall k | k in m'.held :: m'.held[k] == m.held[k])
      && |m'.made| == |m.made| && m'.now == m.now
      && (forall id | 0 <= id < |m.made| ::
            if Holds(m, id) && m.made[id].key.Host? == side.HttpSide? then
              id in m'.dropped && IsStopped(m.made[id].core, m'.made[id].core)
            else m'.made[id] == m.made[id])
  {
    var m' := Apply(c, m, Shutdown(side));
    forall id | 0 <= id < |m.made|
      ensures if Holds(m, id) && m.made[id].key.Host? == side.HttpSide? then
                id in m'.dropped && IsStopped(m.made[id].core, m'.made[id].core)
              else m'.made[id] == m.made[id]
    {
      assert HeldIn(m, id, SideKeys(m, side)) <==> Holds(m, id) && m.made[id].key.Host? == side.HttpSide?;
    }
  }
}
