/** The tunnel manager as an object: two maps of handles, each handle an object its holders also update. */
module TunnelManager {
  import opened Wrappers
  import opened Text
  import opened Config
  import opened DynamicRoute
  import opened TunnelTable
  import Tunnel

  ghost predicate InRange(held: map<Key, Id>, keys: seq<Key>) {
    forall k | k in held :: held[k] < |keys| && keys[held[k]] == k
  }

  /** A key is in its map exactly when it is held, with the handle that is held. */
  ghost predicate Match<H>(
      tunnels: map<string, H>, tcpTunnels: map<Int64, H>, held: map<Key, Id>, made: seq<H>, k: Key)
  {
    match k
    case Host(h) =>
      (h in tunnels <==> k in held) && (k in held ==> held[k] < |made| && tunnels[h] == made[held[k]])
    case LocalPort(p) =>
      (p in tcpTunnels <==> k in held) && (k in held ==> held[k] < |made| && tcpTunnels[p] == made[held[k]])
  }

  /** The two maps hold exactly the handles that the specification says are held. */
  ghost predicate Agree<H>(
      tunnels: map<string, H>, tcpTunnels: map<Int64, H>, held: map<Key, Id>, made: seq<H>, keys: seq<Key>)
  {
    && |keys| == |made| && InRange(held, keys)
    && forall k :: Match(tunnels, tcpTunnels, held, made, k)
  }

  lemma AgreeDelete<H>(
      tunnels: map<string, H>, tcpTunnels: map<Int64, H>, held: map<Key, Id>, made: seq<H>, keys: seq<Key>, gone: Key)
    requires Agree(tunnels, tcpTunnels, held, made, keys)
    ensures Agree(if gone.Host? then tunnels - {gone.name} else tunnels,
                  if gone.Host? then tcpTunnels else tcpTunnels - {gone.port}, held - {gone}, made, keys)
  {
    var held' := held - {gone};
    var tunnels' := if gone.Host? then tunnels - {gone.name} else tunnels;
    var tcpTunnels' := if gone.Host? then tcpTunnels else tcpTunnels - {gone.port};
    forall k
      ensures Match(tunnels', tcpTunnels', held', made, k)
    {
      assert Match(tunnels, tcpTunnels, held, made, k);
    }
  }

  ghost function HostKeys(hosts: set<string>): set<Key> {
    set h | h in hosts :: Host(h)
  }

  lemma HostKeysOf<H>(
      tunnels: map<string, H>, tcpTunnels: map<Int64, H>, m: Table, made: seq<H>, keys: seq<Key>)
    requires Agree(tunnels, tcpTunnels, m.held, made, keys)
    ensures HostKeys(tunnels.Keys) == SideKeys(m, HttpSide) && HostKeys({}) == {}
  {
    forall k | k in HostKeys(tunnels.Keys)
      ensures k in SideKeys(m, HttpSide)
    {
      assert Match(tunnels, tcpTunnels, m.held, made, k);
    }
    forall k | k in SideKeys(m, HttpSide)
      ensures k in HostKeys(tunnels.Keys)
    {
      assert Match(tunnels, tcpTunnels, m.held, made, k);
    }
  }

  lemma HostKeysWithout(hosts: set<string>, h: string)
    ensures HostKeys(hosts - {h}) == HostKeys(hosts) - {Host(h)} && (Host(h) in HostKeys(hosts) <==> h in hosts)
  {
  }

  ghost function PortKeys(ports: set<Int64>): set<Key> {
    set p | p in ports :: LocalPort(p)
  }

  lemma PortKeysOf<H>(
      tunnels: map<string, H>, tcpTunnels: map<Int64, H>, m: Table, made: seq<H>, keys: seq<Key>)
    requires Agree(tunnels, tcpTunnels, m.held, made, keys)
    ensures PortKeys(tcpTunnels.Keys) == SideKeys(m, TcpSide) && PortKeys({}) == {}
  {
    forall k | k in PortKeys(tcpTunnels.Keys)
      ensures k in SideKeys(m, TcpSide)
    {
      assert Match(tunnels, tcpTunnels, m.held, made, k);
    }
    forall k | k in SideKeys(m, TcpSide)
      ensures k in PortKeys(tcpTunnels.Keys)
    {
      assert Match(tunnels, tcpTunnels, m.held, made, k);
    }
  }

  lemma PortKeysWithout(ports: set<Int64>, p: Int64)
    ensures PortKeys(ports - {p}) == PortKeys(ports) - {LocalPort(p)}
    ensures LocalPort(p) in PortKeys(ports) <==> p in ports
  {
  }

  /** Forgetting a whole side empties its map. */
  lemma AgreeClear<H>(
      tunnels: map<string, H>, tcpTunnels: map<Int64, H>, m: Table, made: seq<H>, keys: seq<Key>)
    requires Agree(tunnels, tcpTunnels, m.held, made, keys)
    ensures Agree(map[], tcpTunnels, m.held - SideKeys(m, HttpSide), made, keys)
    ensures Agree(tunnels, map[], m.held - SideKeys(m, TcpSide), made, keys)
  {
    forall k
      ensures Match(map[], tcpTunnels, m.held - SideKeys(m, HttpSide), made, k)
      ensures Match(tunnels, map[], m.held - SideKeys(m, TcpSide), made, k)
    {
      assert Match(tunnels, tcpTunnels, m.held, made, k);
    }
  }

  lemma AgreeInsert<H>(
      tunnels: map<string, H>, tcpTunnels: map<Int64, H>, held: map<Key, Id>, made: seq<H>, keys: seq<Key>,
      added: Key, x: H)
    requires Agree(tunnels, tcpTunnels, held, made, keys)
    ensures Agree(if added.Host? then tunnels[added.name := x] else tunnels,
                  if added.Host? then tcpTunnels else tcpTunnels[added.port := x],
                  held[added := |made|], made + [x], keys + [added])
  {
    var held', made' := held[added := |made|], made + [x];
    var tunnels' := if added.Host? then tunnels[added.name := x] else tunnels;
    var tcpTunnels' := if added.Host? then tcpTunnels else tcpTunnels[added.port := x];
    forall k
      ensures Match(tunnels', tcpTunnels', held', made', k)
    {
      assert Match(tunnels, tcpTunnels, held, made, k);
    }
  }

  /** The hostname given to the tunnel of a TCP route. */
  function PortName(p: Int64): string {
    var n: int := p;
    "tcp:" + if n < 0 then "-" + Itoa(-n) else Itoa(n)
  }

  /** It spells the port, so different ports have tunnels of different names. */
  lemma PortNamesDiffer(p: Int64, q: Int64)
    ensures exists s :: PortName(p) == "tcp:" + s && Spells(s, p)
    ensures PortName(p) == PortName(q) <==> p == q
  {
    var s := PortNameSpells(p);
    var t := PortNameSpells(q);
    AtoiIff(s, p);
    AtoiIff(t, q);
    assert PortName(p)[4..] == s && PortName(q)[4..] == t;
  }

  lemma PortNameSpells(p: Int64) returns (s: string)
    ensures PortName(p) == "tcp:" + s && Spells(s, p)
  {
    var n: int := p;
    s := if n < 0 then "-" + Itoa(-n) else Itoa(n);
    assert SpelledAs(s, n, if n < 0 then "-" else "", 0);
  }

  /** The hostname of the tunnel made for a key. */
  function HandleName(key: Key): string {
    if key.Host? then key.name else PortName(key.port)
  }

  predicate AllDifferent<H(==)>(s: seq<H>) {
    forall i, j | 0 <= i < j < |s| :: s[i] != s[j]
  }

  /** What the specification sees of the handles. */
  ghost function Cores(made: seq<Tunnel.Handle>, keys: seq<Key>): (r: seq<Made>)
    reads made
    requires |keys| == |made|
    ensures |r| == |made|
    ensures forall i | 0 <= i < |made| :: r[i] == Made(keys[i], made[i].route, made[i].View())
  {
    seq(|made|, i requires 0 <= i < |made| && |keys| == |made| reads made =>
      Made(keys[i], made[i].route, made[i].View()))
  }

  class Manager {
    const config: Config
    var tunnels: map<string, Tunnel.Handle>
    var tcpTunnels: map<Int64, Tunnel.Handle>

    // Every handle this manager has made, in order, with what the specification knows of it.
    ghost var made: seq<Tunnel.Handle>
    ghost var keys: seq<Key>
    ghost var held: map<Key, Id>
    ghost var dropped: set<Id>
    ghost var clock: int

    ghost function View(): Table
      reads this, made
      requires |keys| == |made|
    {
      Table(Cores(made, keys), held, dropped, clock)
    }

    ghost predicate Linked()
      reads this
    {
      AllDifferent(made) && Agree(tunnels, tcpTunnels, held, made, keys)
    }

    /** Every handle carries the name it was asked for. */
    ghost predicate Named()
      reads this
    {
      && |keys| == |made|
      && forall i {:trigger HandleName(keys[i])} | 0 <= i < |made| :: made[i].hostname == HandleName(keys[i])
    }

    ghost predicate Valid()
      reads this, made
    {
      Linked() && Named() && forall tun | tun in made :: tun.Valid()
    }

    constructor (config: Config, now: int)
      ensures Valid() && View() == Empty(now) && this.config == config
    {
      this.config := config;
      tunnels, tcpTunnels := map[], map[];
      made, keys, held, dropped, clock := [], [], map[], {}, now;
    }

    /** One handle was called, all else is as before. */
    twostate lemma HandleMoved(id: Id)
      requires old(Linked()) && Linked() && made == old(made) && keys == old(keys) && held == old(held)
      requires dropped == old(dropped) && clock == old(clock) && id < |made|
      requires forall i | 0 <= i < |made| && i != id :: made[i].View() == old(made[i].View())
      ensures View() == Renew(old(View()), id, made[id].View())
    {
    }

    /** Time passes. */
    ghost method Advance(now: int)
      requires Valid() && clock <= now
      modifies this`clock
      ensures Valid() && clock == now && View() == old(View()).(now := now)
    {
      clock := now;
    }

    method TouchHandle(key: Key, tun: Tunnel.Handle, now: int)
      requires Valid() && key in held && tun == made[held[key]] && now == clock
      modifies tun`lastAccess
      ensures Valid()
      ensures View() == Renew(old(View()), held[key], Tunnel.TouchCore(old(View()).made[held[key]].core, now))
    {
      ghost var id := held[key];
      tun.Touch(now);
      HandleMoved(id);
    }

    method StopHandle(key: Key, tun: Tunnel.Handle)
      requires Valid() && key in held && tun == made[held[key]]
      modifies tun
      ensures Valid() && tun.state != Tunnel.Running
      ensures View() == Renew(old(View()), held[key], Tunnel.StopCore(old(View()).made[held[key]].core))
    {
      ghost var id := held[key];
      tun.Stop();
      HandleMoved(id);
    }

    /** One turn of a shutdown. */
    method StopIfRunning(key: Key, tun: Tunnel.Handle)
      requires Valid() && key in held && tun == made[held[key]]
      modifies tun
      ensures Valid()
      ensures View() == Renew(old(View()), held[key], Tunnel.StopCore(old(View()).made[held[key]].core))
    {
      if tun.IsRunning() {
        StopHandle(key, tun);
      } else {
        assert Renew(View(), held[key], Tunnel.StopCore(View().made[held[key]].core)).made == View().made;
      }
    }

    method DeleteHost(hostname: string)
      requires Valid() && hostname in tunnels && tunnels[hostname].state != Tunnel.Running
      modifies this`tunnels, this`held, this`dropped
      ensures Valid() && View() == Drop(old(View()), {Host(hostname)}) && tunnels == old(tunnels) - {hostname}
    {
      assert Match(tunnels, tcpTunnels, held, made, Host(hostname));
      AgreeDelete(tunnels, tcpTunnels, held, made, keys, Host(hostname));
      dropped := dropped + {held[Host(hostname)]};
      held := held - {Host(hostname)};
      tunnels := tunnels - {hostname};
    }

    method DeletePort(port: Int64)
      requires Valid() && port in tcpTunnels && tcpTunnels[port].state != Tunnel.Running
      modifies this`tcpTunnels, this`held, this`dropped
      ensures Valid() && View() == Drop(old(View()), {LocalPort(port)}) && tcpTunnels == old(tcpTunnels) - {port}
    {
      assert Match(tunnels, tcpTunnels, held, made, LocalPort(port));
      AgreeDelete(tunnels, tcpTunnels, held, made, keys, LocalPort(port));
      dropped := dropped + {held[LocalPort(port)]};
      held := held - {LocalPort(port)};
      tcpTunnels := tcpTunnels - {port};
    }

    /** One turn of the HTTP sweep. */
    method SweepHost(h: string, now: int)
      requires Valid() && clock == now && h in tunnels
      modifies this`tunnels, this`held, this`dropped, tunnels[h]
      ensures Valid() && tunnels.Keys >= old(tunnels.Keys) - {h}
      ensures var m := old(View()); View() == if Overdue(config, m, Host(h)) then Drop(m, {Host(h)}) else m
    {
      var tun := tunnels[h];
      assert Match(tunnels, tcpTunnels, held, made, Host(h));
      if tun.IsRunning() && tun.IdleDuration(now) > config.http.idleTimeout {
        DropStopped(View(), Host(h));
        StopHandle(Host(h), tun);
        DeleteHost(h);
      }
    }

    /** Where a sweep stands that has these keys left to look at. */
    ghost predicate HostsLeft(start: Table, hosts: set<string>)
      reads this, made
    {
      Valid() && hosts <= tunnels.Keys && View() == SweptBut(config, start, HttpSide, HostKeys(hosts))
    }

    method SweepNextHost(ghost start: Table, ghost hosts: set<string>, h: string, now: int)
      requires Keyed(start) && HostsLeft(start, hosts) && h in hosts && clock == now
      modifies this`tunnels, this`held, this`dropped, tunnels[h]
      ensures HostsLeft(start, hosts - {h})
    {
      assert Match(tunnels, tcpTunnels, held, made, Host(h));
      SweepNext(config, start, HttpSide, HostKeys(hosts), Host(h));
      HostKeysWithout(hosts, h);
      SweepHost(h, now);
    }

    /** The HTTP sweep, in any order of the map. */
    method CleanupIdleHTTPTunnels(now: int)
      requires Valid() && clock <= now
      modifies this, made
      ensures Valid() && made == old(made)
      ensures View() == Apply(config, old(View()).(now := now), Sweep(HttpSide))
    {
      clock := now;
      var hosts := tunnels.Keys;
      ghost var start := View();
      HostKeysOf(tunnels, tcpTunnels, start, made, keys);
      SweepBounds(config, start, HttpSide);
      while hosts != {}
        invariant HostsLeft(start, hosts) && clock == now && made == old(made)
      {
        var h :| h in hosts;
        assert Match(tunnels, tcpTunnels, held, made, Host(h));
        SweepNextHost(start, hosts, h, now);
        hosts := hosts - {h};
      }
    }

    /** One turn of the TCP sweep. */
    method SweepPort(p: Int64, tcpIdleTimeout: int, now: int)
      requires Valid() && clock == now && p in tcpTunnels && tcpIdleTimeout == IdleTimeout(config, TcpSide)
      modifies this`tcpTunnels, this`held, this`dropped, tcpTunnels[p]
      ensures Valid() && tcpTunnels.Keys >= old(tcpTunnels.Keys) - {p}
      ensures var m := old(View());
        View() == if Overdue(config, m, LocalPort(p)) then Drop(m, {LocalPort(p)}) else m
    {
      var tun := tcpTunnels[p];
      assert Match(tunnels, tcpTunnels, held, made, LocalPort(p));
      if tun.IsRunning() && tun.IdleDuration(now) > tcpIdleTimeout {
        DropStopped(View(), LocalPort(p));
        StopHandle(LocalPort(p), tun);
        DeletePort(p);
      }
    }

    /** Where a sweep stands that has these keys left to look at. */
    ghost predicate PortsLeft(start: Table, ports: set<Int64>)
      reads this, made
    {
      Valid() && ports <= tcpTunnels.Keys && View() == SweptBut(config, start, TcpSide, PortKeys(ports))
    }

    method SweepNextPort(ghost start: Table, ghost ports: set<Int64>, p: Int64, tcpIdleTimeout: int, now: int)
      requires Keyed(start) && PortsLeft(start, ports) && p in ports && clock == now
      requires tcpIdleTimeout == IdleTimeout(config, TcpSide)
      modifies this`tcpTunnels, this`held, this`dropped, tcpTunnels[p]
      ensures PortsLeft(start, ports - {p})
    {
      assert Match(tunnels, tcpTunnels, held, made, LocalPort(p));
      SweepNext(config, start, TcpSide, PortKeys(ports), LocalPort(p));
      PortKeysWithout(ports, p);
      SweepPort(p, tcpIdleTimeout, now);
    }

    method SweepPorts(tcpIdleTimeout: int, now: int)
      requires Valid() && clock == now && tcpIdleTimeout == IdleTimeout(config, TcpSide)
      modifies this`tcpTunnels, this`held, this`dropped, made
      ensures Valid() && View() == Apply(config, old(View()), Sweep(TcpSide))
    {
      var ports := tcpTunnels.Keys;
      ghost var start := View();
      PortKeysOf(tunnels, tcpTunnels, start, made, keys);
      SweepBounds(config, start, TcpSide);
      while ports != {}
        invariant PortsLeft(start, ports)
      {
        var p :| p in ports;
        assert Match(tunnels, tcpTunnels, held, made, LocalPort(p));
        SweepNextPort(start, ports, p, tcpIdleTimeout, now);
        ports := ports - {p};
      }
    }

    /** The TCP sweep, in any order of the map; its timeout falls back to the HTTP one. */
    method CleanupIdleTCPTunnels(now: int)
      requires Valid() && clock <= now
      modifies this, made
      ensures Valid() && made == old(made)
      ensures View() == Apply(config, old(View()).(now := now), Sweep(TcpSide))
    {
      clock := now;
      var tcpIdleTimeout := config.tcp.idleTimeout;
      if tcpIdleTimeout == 0 {
        tcpIdleTimeout := config.http.idleTimeout;
      }
      SweepPorts(tcpIdleTimeout, now);
    }

    method ForgetHosts(ghost start: Table)
      requires Valid() && View() == start.(made := Stopped(start, SideKeys(start, HttpSide)))
      modifies this`tunnels, this`held, this`dropped
      ensures Valid() && tunnels == map[] && View() == Drop(start, SideKeys(start, HttpSide))
    {
      AgreeClear(tunnels, tcpTunnels, View(), made, keys);
      dropped := Drop(start, SideKeys(start, HttpSide)).dropped;
      held := held - SideKeys(start, HttpSide);
      tunnels := map[];
    }

    /** Stops every running HTTP tunnel, then forgets all HTTP tunnels. */
    method ShutdownHTTP()
      requires Valid()
      modifies this`tunnels, this`held, this`dropped, made
      ensures Valid() && tunnels == map[] && View() == Apply(config, old(View()), Op.Shutdown(HttpSide))
    {
      var hosts := tunnels.Keys;
      ghost var start, side := View(), SideKeys(View(), HttpSide);
      HostKeysOf(tunnels, tcpTunnels, start, made, keys);
      assert Stopped(start, side - HostKeys(hosts)) == start.made;
      while hosts != {}
        invariant Valid() && made == old(made) && keys == old(keys)
        invariant hosts <= tunnels.Keys && tunnels == old(tunnels)
        invariant View() == StoppedBut(start, HttpSide, HostKeys(hosts))
      {
        var h :| h in hosts;
        assert Match(tunnels, tcpTunnels, held, made, Host(h));
        StopNext(start, HttpSide, HostKeys(hosts), Host(h));
        HostKeysWithout(hosts, h);
        StopIfRunning(Host(h), tunnels[h]);
        hosts := hosts - {h};
      }
      assert side - HostKeys({}) == side;
      ForgetHosts(start);
    }

    method ForgetPorts(ghost start: Table)
      requires Valid() && View() == start.(made := Stopped(start, SideKeys(start, TcpSide)))
      modifies this`tcpTunnels, this`held, this`dropped
      ensures Valid() && tcpTunnels == map[] && View() == Drop(start, SideKeys(start, TcpSide))
    {
      AgreeClear(tunnels, tcpTunnels, View(), made, keys);
      dropped := Drop(start, SideKeys(start, TcpSide)).dropped;
      held := held - SideKeys(start, TcpSide);
      tcpTunnels := map[];
    }

    /** Stops every running TCP tunnel, then forgets all TCP tunnels. */
    method ShutdownTCP()
      requires Valid()
      modifies this`tcpTunnels, this`held, this`dropped, made
      ensures Valid() && tcpTunnels == map[] && View() == Apply(config, old(View()), Op.Shutdown(TcpSide))
    {
      var ports := tcpTunnels.Keys;
      ghost var start, side := View(), SideKeys(View(), TcpSide);
      PortKeysOf(tunnels, tcpTunnels, start, made, keys);
      assert Stopped(start, side - PortKeys(ports)) == start.made;
      while ports != {}
        invariant Valid() && made == old(made) && keys == old(keys)
        invariant ports <= tcpTunnels.Keys && tcpTunnels == old(tcpTunnels)
        invariant View() == StoppedBut(start, TcpSide, PortKeys(ports))
      {
        var p :| p in ports;
        assert Match(tunnels, tcpTunnels, held, made, LocalPort(p));
        StopNext(start, TcpSide, PortKeys(ports), LocalPort(p));
        PortKeysWithout(ports, p);
        StopIfRunning(LocalPort(p), tcpTunnels[p]);
        ports := ports - {p};
      }
      assert side - PortKeys({}) == side;
      ForgetPorts(start);
    }

    method Shutdown()
      requires Valid()
      modifies this, made
      ensures Valid() && tunnels == map[] && tcpTunnels == map[]
      ensures View() == Apply(config, Apply(config, old(View()), Op.Shutdown(HttpSide)), Op.Shutdown(TcpSide))
    {
      ShutdownHTTP();
      ShutdownTCP();
    }

    method InsertHost(hostname: string, tun: Tunnel.Handle)
      requires Valid() && tun !in made && tun.View() == Tunnel.NewCore(clock) && tun.hostname == hostname
      modifies this`tunnels, this`held, this`made, this`keys
      ensures Valid() && made == old(made) + [tun]
      ensures View() == Create(old(View()), Host(hostname), tun.route)
    {
      AgreeInsert(tunnels, tcpTunnels, held, made, keys, Host(hostname), tun);
      held := held[Host(hostname) := |made|];
      made, keys := made + [tun], keys + [Host(hostname)];
      tunnels := tunnels[hostname := tun];
    }

    method InsertPort(port: Int64, tun: Tunnel.Handle)
      requires Valid() && tun !in made && tun.View() == Tunnel.NewCore(clock) && tun.hostname == PortName(port)
      modifies this`tcpTunnels, this`held, this`made, this`keys
      ensures Valid() && made == old(made) + [tun]
      ensures View() == Create(old(View()), LocalPort(port), tun.route)
    {
      AgreeInsert(tunnels, tcpTunnels, held, made, keys, LocalPort(port), tun);
      held := held[LocalPort(port) := |made|];
      made, keys := made + [tun], keys + [LocalPort(port)];
      tcpTunnels := tcpTunnels[port := tun];
    }

    /** The new state, and the very handle, that the specification of a get names. */
    ghost predicate Answers(spec: (Table, Result<Id, GetError>), r: Result<Tunnel.Handle, GetError>)
      reads this, made
      requires |keys| == |made|
    {
      && View() == spec.0
      && match spec.1
         case Ok(i) => i < |made| && r == Ok(made[i])
         case Err(e) => r == Err(e)
    }

    /** The rest of a get, when the hostname holds no usable handle. */
    method CreateTunnel(hostname: string, scheme: string, client: bool, now: int)
      returns (r: Result<Tunnel.Handle, GetError>)
      requires Valid() && now == clock
      modifies this`tunnels, this`held, this`made, this`keys
      ensures Valid() && Answers(CreateRouted(config, old(View()), Host(hostname), scheme, client), r)
      ensures r.Ok? ==> r.value.hostname == hostname
      ensures old(made) <= made && fresh(made[|old(made)|..])
    {
      var route := if hostname in config.http.routes then Some(config.http.routes[hostname])
      else ParseDynamicHostname(hostname, config.http.dynamicHost, scheme);
      if route.None? {
        return Err(NoRoute);
      }
      if !client {
        return Err(NoClient);
      }
      var tun := new Tunnel.Handle(hostname, route.value, now);
      InsertHost(hostname, tun);
      return Ok(tun);
    }

    /** The first part of a get: the usable handle of the key, touched, or the key's entry deleted. */
    method FindHost(hostname: string, now: int) returns (found: Option<Tunnel.Handle>)
      requires Valid() && now == clock
      modifies this`tunnels, this`held, this`dropped, made
      ensures Valid() && made == old(made) && clock == old(clock)
      ensures var (m, key) := (old(View()), Host(hostname));
        match Find(m, key)
        case Some(id) => found == Some(made[id]) && View() == Renew(m, id, Tunnel.TouchCore(m.made[id].core, now))
        case None => found == None && View() == Drop(m, {key})
      ensures found.Some? ==> found.value.hostname == hostname
    {
      assert Match(tunnels, tcpTunnels, held, made, Host(hostname));
      assert Host(hostname) in held ==> HandleName(keys[held[Host(hostname)]]) == hostname;
      if hostname in tunnels {
        var tun := tunnels[hostname];
        if tun.state != Tunnel.Stopping && tun.state != Tunnel.Failed {
          TouchHandle(Host(hostname), tun, now);
          return Some(tun);
        }
        DeleteHost(hostname);
      }
      return None;
    }

    method GetOrCreateTunnel(hostname: string, scheme: string, client: bool, now: int)
      returns (r: Result<Tunnel.Handle, GetError>)
      requires Valid() && clock <= now
      modifies this, made
      ensures Valid() && clock == now
      ensures Answers(GetOrCreate(config, old(View()).(now := now), Host(hostname), scheme, client), r)
      ensures r.Ok? ==> r.value.hostname == hostname
      ensures old(made) <= made && fresh(made[|old(made)|..])
    {
      clock := now;
      var found := FindHost(hostname, now);
      if found.Some? {
        return Ok(found.value);
      }
      r := CreateTunnel(hostname, scheme, client, now);
    }

    method CreateTCPTunnel(localPort: Int64, client: bool, now: int) returns (r: Result<Tunnel.Handle, GetError>)
      requires Valid() && now == clock
      modifies this`tcpTunnels, this`held, this`made, this`keys
      ensures Valid() && Answers(CreateRouted(config, old(View()), LocalPort(localPort), "", client), r)
      ensures r.Ok? ==> r.value.hostname == PortName(localPort)
      ensures old(made) <= made && fresh(made[|old(made)|..])
    {
      if localPort !in config.tcp.routes {
        return Err(NoRoute);
      }
      if !client {
        return Err(NoClient);
      }
      var tun := new Tunnel.Handle(PortName(localPort), ToK8sRoute(config.tcp.routes[localPort]), now);
      InsertPort(localPort, tun);
      return Ok(tun);
    }

    /** The first part of a get: the usable handle of the key, touched, or the key's entry deleted. */
    method FindPort(localPort: Int64, now: int) returns (found: Option<Tunnel.Handle>)
      requires Valid() && now == clock
      modifies this`tcpTunnels, this`held, this`dropped, made
      ensures Valid() && made == old(made) && clock == old(clock)
      ensures var (m, key) := (old(View()), LocalPort(localPort));
        match Find(m, key)
        case Some(id) => found == Some(made[id]) && View() == Renew(m, id, Tunnel.TouchCore(m.made[id].core, now))
        case None => found == None && View() == Drop(m, {key})
      ensures found.Some? ==> found.value.hostname == PortName(localPort)
    {
      assert Match(tunnels, tcpTunnels, held, made, LocalPort(localPort));
      assert LocalPort(localPort) in held ==> HandleName(keys[held[LocalPort(localPort)]]) == PortName(localPort);
      if localPort in tcpTunnels {
        var tun := tcpTunnels[localPort];
        if tun.state != Tunnel.Stopping && tun.state != Tunnel.Failed {
          TouchHandle(LocalPort(localPort), tun, now);
          return Some(tun);
        }
        DeletePort(localPort);
      }
      return None;
    }

    method GetOrCreateTCPTunnel(localPort: Int64, client: bool, now: int)
      returns (r: Result<Tunnel.Handle, GetError>)
      requires Valid() && clock <= now
      modifies this, made
      ensures Valid() && clock == now
      ensures Answers(GetOrCreate(config, old(View()).(now := now), LocalPort(localPort), "", client), r)
      ensures r.Ok? ==> r.value.hostname == PortName(localPort)
      ensures old(made) <= made && fresh(made[|old(made)|..])
    {
      clock := now;
      var found := FindPort(localPort, now);
      if found.Some? {
        return Ok(found.value);
      }
      r := CreateTCPTunnel(localPort, client, now);
    }
  }
}
