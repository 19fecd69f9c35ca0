/** The table of TCP listeners built from a configuration, and its shutdown. */
module TcpServer {
  import opened Text
  import opened Config

  datatype Kind = RouteListener | JumpListener

  /** The loopback ports of the host: those that can be bound at all, and those bound at the moment. */
  class Network {
    const usable: set<Int64>
    var inUse: set<Int64>

    /** net.Listen on 127.0.0.1. */
    method Listen(port: Int64) returns (ok: bool)
      modifies this
      ensures ok <==> port in usable && port !in old(inUse)
      ensures inUse == if ok then old(inUse) + {port} else old(inUse)
    {
      ok := port in usable && port !in inUse;
      if ok {
        inUse := inUse + {port};
      }
    }

    method Release(port: Int64)
      modifies this
      ensures inUse == old(inUse) - {port}
    {
      inUse := inUse - {port};
    }
  }

  class PortListener {
    const port: Int64
    const kind: Kind
    var listening: bool
    var stopClosed: bool

    constructor (port: Int64, kind: Kind)
      ensures this.port == port && this.kind == kind && listening && !stopClosed
    {
      this.port, this.kind := port, kind;
      listening, stopClosed := true, false;
    }

    /** close(stopChan) panics when the channel is closed already. */
    method Close()
      requires listening && !stopClosed
      modifies this
      ensures !listening && stopClosed
    {
      stopClosed := true;
      listening := false;
    }
  }

  /** Route and jump ports can be bound, are free, and do not meet. */
  predicate CanListen(routes: set<Int64>, jump: set<Int64>, usable: set<Int64>, inUse: set<Int64>) {
    routes + jump <= usable && (routes + jump) !! inUse && routes !! jump
  }

  class Server {
    const tcp: Tcp
    const net: Network
    var listeners: map<Int64, PortListener>
    ghost var made: set<PortListener> // every listener this server has ever opened

    /** The table's listeners are open, each under its own port; all others ever made are closed. */
    ghost predicate Valid()
      reads this, net, made
    {
      && (forall p | p in listeners :: listeners[p] in made && listeners[p].port == p && p in net.inUse)
      && (forall l | l in made :: l.listening == !l.stopClosed)
      && (forall l | l in made :: l.listening <==> l.port in listeners && listeners[l.port] == l)
    }

    constructor (tcp: Tcp, net: Network)
      ensures Valid() && listeners == map[] && made == {}
      ensures this.tcp == tcp && this.net == net
    {
      this.tcp, this.net := tcp, net;
      listeners, made := map[], {};
    }

    method StartListener(port: Int64, kind: Kind) returns (ok: bool)
      requires Valid()
      modifies this`listeners, this`made, net
      ensures Valid()
      ensures ok <==> port in net.usable && port !in old(net.inUse)
      ensures net.inUse == if ok then old(net.inUse) + {port} else old(net.inUse)
      ensures !ok ==> listeners == old(listeners) && made == old(made)
      ensures ok ==> port !in old(listeners) && listeners.Keys == old(listeners.Keys) + {port}
      ensures ok ==> listeners[port].kind == kind
      ensures ok ==> forall p | p in old(listeners) :: listeners[p] == old(listeners)[p]
      ensures old(made) <= made && fresh(made - old(made))
    {
      ok := net.Listen(port);
      if ok {
        var pl := new PortListener(port, kind);
        listeners := listeners[port := pl];
        made := made + {pl};
      }
    }

    /** Opens one kind of listener on every port of a set, in any order, until one fails. */
    method StartAll(all: set<Int64>, kind: Kind) returns (ok: bool)
      requires Valid()
      modifies this`listeners, this`made, net
      ensures Valid()
      ensures ok <==> all <= net.usable && all !! old(net.inUse)
      ensures ok ==> net.inUse == old(net.inUse) + all && listeners.Keys == old(listeners.Keys) + all
      ensures ok ==> forall p | p in all :: listeners[p].kind == kind
      ensures forall p | p in old(listeners) :: p in listeners && listeners[p] == old(listeners)[p]
      ensures net.inUse - listeners.Keys == old(net.inUse) - old(listeners.Keys)
      ensures old(made) <= made && fresh(made - old(made))
    {
      var ports := all;
      while ports != {}
        invariant Valid() && ports <= all
        invariant all - ports <= net.usable && (all - ports) !! old(net.inUse)
        invariant net.inUse == old(net.inUse) + (all - ports)
        invariant listeners.Keys == old(listeners.Keys) + (all - ports)
        invariant forall p | p in all - ports :: listeners[p].kind == kind
        invariant forall p | p in old(listeners) :: listeners[p] == old(listeners)[p]
        invariant old(made) <= made && fresh(made - old(made))
      {
        var port :| port in ports;
        ok := StartListener(port, kind);
        if !ok {
          assert port in all;
          return;
        }
        ports := ports - {port};
      }
      ok := true;
    }

    /**
     * All or nothing: on success the table holds exactly the route and jump ports, each with its kind; on
     * failure it is empty, every listener ever opened is closed and every bound port is free again.  It
     * succeeds exactly when all those ports can be bound and no route port is a jump port.
     */
    method Start() returns (ok: bool)
      requires Valid() && listeners == map[]
      modifies this`listeners, this`made, net, made
      ensures Valid()
      ensures ok <==> CanListen(tcp.routes.Keys, tcp.jump.Keys, net.usable, old(net.inUse))
      ensures ok ==> listeners.Keys == tcp.routes.Keys + tcp.jump.Keys && net.inUse == old(net.inUse) + listeners.Keys
      ensures ok ==> forall p | p in listeners ::
                listeners[p].listening && listeners[p].kind == if p in tcp.routes then RouteListener else JumpListener
      ensures !ok ==> listeners == map[] && net.inUse == old(net.inUse)
      ensures !ok ==> forall l | l in made :: !l.listening && l.stopClosed
      ensures fresh(made - old(made))
    {
      ok := StartAll(tcp.routes.Keys, RouteListener);
      if ok {
        ok := StartAll(tcp.jump.Keys, JumpListener);
      }
      if !ok {
        Shutdown();
      }
    }

    /** Closes every stop channel and listener of the table once; more calls find an empty table. */
    method Shutdown()
      requires Valid()
      modifies this`listeners, net, made
      ensures Valid() && listeners == map[]
      ensures net.inUse == old(net.inUse) - old(listeners.Keys)
      ensures forall l | l in made :: !l.listening && l.stopClosed
      ensures made == old(made) && forall l | l in made && !old(l.listening) :: unchanged(l)
    {
      var ports := listeners.Keys;
      while ports != {}
        invariant listeners == old(listeners) && made == old(made) && ports <= listeners.Keys
        invariant net.inUse == old(net.inUse) - (listeners.Keys - ports)
        invariant forall l | l in made :: l.listening == !l.stopClosed
        invariant forall l | l in made :: l.listening <==> l.port in ports && listeners[l.port] == l
        invariant forall l | l in made && !old(l.listening) :: unchanged(l)
      {
        var port :| port in ports;
        var pl := listeners[port];
        pl.Close();
        net.Release(port);
        ports := ports - {port};
      }
      listeners := map[];
    }
  }

  /**
   * On a validated configuration the ports never stand in each other's way: Start succeeds exactly when the
   * host lets every port be bound.
   */
  lemma ValidConfigCanListen(c: Config, checks: NameChecks, usable: set<Int64>, inUse: set<Int64>)
    requires ValidConfig(c, checks)
    ensures var ports := c.tcp.routes.Keys + c.tcp.jump.Keys;
      CanListen(c.tcp.routes.Keys, c.tcp.jump.Keys, usable, inUse) <==> ports <= usable && ports !! inUse
    ensures ExtractPort(c.http.listenAddr).Some? ==>
      ExtractPort(c.http.listenAddr).value !in c.tcp.routes.Keys + c.tcp.jump.Keys
  {
    if !TcpUsed(c.tcp) {
      assert c.tcp.routes == map[] && c.tcp.jump == map[];
    }
    assert forall p | p in c.tcp.jump.Keys :: p !in c.tcp.routes.Keys;
  }

  /** A whole life: a start, a shutdown, and any number of shutdowns more. */
  method StartThenShutdowns(server: Server, more: nat)
    requires server.Valid() && server.listeners == map[]
    modifies server`listeners, server`made, server.net, server.made
    ensures server.Valid() && server.listeners == map[] && server.net.inUse == old(server.net.inUse)
    ensures forall l | l in server.made :: !l.listening && l.stopClosed
  {
    var ok := server.Start();
    server.Shutdown();
    for i := 0 to more
      invariant server.Valid() && server.listeners == map[]
      invariant server.net.inUse == old(server.net.inUse)
      invariant forall l | l in server.made :: !l.listening && l.stopClosed
      invariant fresh(server.made - old(server.made))
    {
      server.Shutdown();
    }
  }
}
