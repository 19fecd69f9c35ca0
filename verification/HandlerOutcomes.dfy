/**
 * Which answer a request or a TLS connection gets, exactly, from the configuration, the table and what the
 * environment does: the first stage that fails decides, and it is proxied or forwarded when none does.
 */
module HandlerOutcomes {
  import opened Wrappers
  import opened Config
  import opened TunnelTable
  import opened TunnelLifetimes
  import opened ManagerEffects
  import opened HttpHandler
  import opened ClientHello
  import opened Streams
  import opened TlsHandler
  import Tunnel

  // ---------------------------------------------------------------- one attempt

  ghost predicate Routed(c: Config, key: Key, scheme: string) {
    exists r :: HasRoute(c, key, scheme, r)
  }

  predicate RunsAlready(m: Table, key: Key) {
    key in m.held && m.held[key] < |m.made| && m.made[m.held[key]].core.state == Tunnel.Running
  }

  /** There is a handle to give out: the one that is held, or a new one for the host's route. */
  ghost predicate Gets(c: Config, m: Table, host: string, scheme: string, a: Attempt) {
    HasUsable(m, Host(host)) || (Routed(c, Host(host), scheme) && a.client)
  }

  ghost predicate Runs(c: Config, m: Table, host: string, scheme: string, a: Attempt) {
    RunsAlready(m, Host(host)) || (Gets(c, m, host, scheme, a) && a.start.Ready?)
  }

  lemma GotIff(c: Config, m: Table, host: string, scheme: string, a: Attempt)
    requires Inv(c, m) && m.now <= a.gotAt
    ensures var m0 := m.(now := a.gotAt);
      var (m', r) := GetOrCreate(c, m0, Host(host), scheme, a.client);
      && Inv(c, m0)
      && (r.Ok? <==> Gets(c, m, host, scheme, a))
      && (r.Ok? ==>
            && r.value == (if HasUsable(m, Host(host)) then m.held[Host(host)] else |m.made|)
            && r.value < |m'.made|
            && (RunsAlready(m, Host(host)) <==> m'.made[r.value].core.state == Tunnel.Running)
            && (RunsAlready(m, Host(host)) ==> m'.made[r.value].core.localPort == m.made[r.value].core.localPort))
  {
    var m0 := m.(now := a.gotAt);
    StepKeeps(c, m, Tick(a.gotAt));
    GetFindsIff(c, m0, Host(host), scheme, a.client);
    if HasUsable(m0, Host(host)) {
      assert HasUsable(m, Host(host));
    } else {
      GetNoRouteIff(c, m0, Host(host), scheme, a.client);
      if Routed(c, Host(host), scheme) {
        var r :| HasRoute(c, Host(host), scheme, r);
        GetMakesForRoute(c, m0, Host(host), scheme, r);
      }
    }
  }

  /** A host is reached exactly when its tunnel runs or can be got and started; and which tunnel, on which port. */
  lemma ReachedIff(c: Config, m: Table, host: string, scheme: string, a: Attempt)
    requires Inv(c, m) && m.now <= a.gotAt
    ensures var (m', r) := Reached(c, m, host, scheme, a);
      && (r == Err(NoService) <==> !Gets(c, m, host, scheme, a))
      && (r.Ok? <==> Runs(c, m, host, scheme, a))
      && (r.Err? && !r.error.NoService? ==> r.error.StartFailed? && Tunnel.EndsWith(a.start, r.error.err))
      && (r.Ok? ==>
            && r.value == (if HasUsable(m, Host(host)) then m.held[Host(host)] else |m.made|)
            && m'.made[r.value].core.localPort ==
               (if RunsAlready(m, Host(host)) then m.made[r.value].core.localPort else a.start.port)
            && m'.made[r.value].core.lastAccess == a.touchedAt)
  {
    GotIff(c, m, host, scheme, a);
    var (m1, got) := GetOrCreate(c, m.(now := a.gotAt), Host(host), scheme, a.client);
    if got.Ok? && m1.made[got.value].core.state != Tunnel.Running {
      Tunnel.StartTells(m1.made[got.value].core, a.start);
    }
  }

  // ---------------------------------------------------------------- TLS connections

  /**
   * A connection is forwarded exactly when it carries a name, the name's tunnel runs or can be got and started, and
   * neither the dial nor the write fails.  Each page goes with the first stage that fails.
   */
  lemma ConnectionOutcomeIff(c: Config, m: Table, hello: Bytes, a: Attempt, writeFails: bool)
    requires Inv(c, m) && m.now <= a.gotAt
    ensures var (_, outcome, _) := Handled(c, m, hello, a, writeFails);
      match ParseSni(hello)
      case Err(_) => outcome == ErrorPage(SniExtraction)
      case Ok(name) =>
        var gets, runs := Gets(c, m, NameOf(name), "https", a), Runs(c, m, NameOf(name), "https", a);
        && (outcome == Forwarded <==> runs && a.backendError.None? && !writeFails)
        && (outcome == ErrorPage(RouteNotFound) <==> !gets)
        && (outcome == ErrorPage(TunnelStartup) <==> gets && !runs)
        && (outcome == ErrorPage(BackendConnection) <==> runs && a.backendError.Some?)
        && (outcome == ErrorPage(Forwarding) <==> runs && a.backendError.None? && writeFails)
        && outcome != ErrorPage(SniExtraction)
  {
    if ParseSni(hello).Ok? {
      ReachedIff(c, m, NameOf(ParseSni(hello).value), "https", a);
    }
  }

  /** A handle for the route runs on the port since the given time. */
  predicate RunsFor(made: Made, r: Route, p: Tunnel.Port, now: int) {
    && made.route == r && made.core.state == Tunnel.Running && made.core.localPort == p
    && made.core.stop == Tunnel.Open && made.core.lastAccess == now
  }

  lemma StartsNew(m: Table, id: Id, r: Route, p: Tunnel.Port, now: int)
    requires id < |m.made| && m.made[id].route == r && m.made[id].core.state == Tunnel.Idle
    ensures var (m', err) := Started(m, id, Tunnel.Ready(p));
      && err.None?
      && |Touched(m', id, now).made| == |m.made| && RunsFor(Touched(m', id, now).made[id], r, p, now)
  {
  }

  /** A host with a route, a client and a forward that becomes ready is reached on a new handle for that route. */
  lemma RoutedHostIsReached(c: Config, m: Table, host: string, scheme: string, r: Route, p: Tunnel.Port, a: Attempt)
    requires Inv(c, m) && m.now <= a.gotAt && HasRoute(c, Host(host), scheme, r) && !HasUsable(m, Host(host))
    requires a.client && a.start == Tunnel.Ready(p)
    ensures var (m', got) := Reached(c, m, host, scheme, a);
      got == Ok(|m.made|) && |m'.made| == |m.made| + 1 && RunsFor(m'.made[|m.made|], r, p, a.touchedAt)
  {
    StepKeeps(c, m, Tick(a.gotAt));
    var m0 := m.(now := a.gotAt);
    GetMakesForRoute(c, m0, Host(host), scheme, r);
    var (m1, got) := GetOrCreate(c, m0, Host(host), scheme, true);
    StartsNew(m1, got.value, r, p, a.touchedAt);
  }

  /** So such a connection is forwarded, when the dial and the write succeed. */
  lemma RoutedHostIsForwarded(c: Config, m: Table, hello: Bytes, r: Route, p: Tunnel.Port, a: Attempt)
    requires Inv(c, m) && m.now <= a.gotAt && ParseSni(hello).Ok?
    requires var key := Host(NameOf(ParseSni(hello).value)); HasRoute(c, key, "https", r) && !HasUsable(m, key)
    requires a.client && a.start == Tunnel.Ready(p) && a.backendError.None?
    ensures var (m', outcome, id) := Handled(c, m, hello, a, false);
      && outcome == Forwarded && id == Some(|m.made|) && |m'.made| == |m.made| + 1
      && RunsFor(m'.made[|m.made|], r, p, a.touchedAt)
  {
    RoutedHostIsReached(c, m, NameOf(ParseSni(hello).value), "https", r, p, a);
  }

  // ---------------------------------------------------------------- HTTP requests

  /** After a proxy error the host is reached again exactly when it has a route, a client, and a start that works. */
  lemma RetriedIff(c: Config, m: Table, id: Id, host: string, err: Tunnel.Error, a: Attempt)
    requires Calm(c, m) && Reachable(m, id, host) && m.now <= a.gotAt
    ensures var (_, r) := Retried(c, m, id, host, err, a);
      var gets := Routed(c, Host(host), "http") && a.client;
      && (r.Ok? <==> gets && a.start.Ready?)
      && (!gets ==> r == Err(ProxyFailed(err)))
      && (gets && r.Err? ==> r.error.StartFailed? && Tunnel.EndsWith(a.start, r.error.err))
  {
    MarkedFailedKeeps(c, m, id, host, err);
    var m' := MarkedFailed(m, id, err);
    assert m'.held[Host(host)] == id;
    ReachedIff(c, m', host, "http", a);
  }

  /**
   * The response to a request: proxied exactly when the first attempt runs and its backend answers, or it does not
   * and the second one runs, on a new tunnel, and its backend answers; otherwise the error of the stage that failed.
   */
  lemma ResponseIff(c: Config, m: Table, host: string, first: Attempt, second: Attempt)
    requires Calm(c, m) && InOrder(m.now, first, second)
    ensures var (_, _, response) := Served(c, m, host, first, second);
      var gets, runs := Gets(c, m, host, "http", first), Runs(c, m, host, "http", first);
      var again := runs && first.backendError.Some?;
      var getsAgain := again && Routed(c, Host(host), "http") && second.client;
      var runsAgain := getsAgain && second.start.Ready?;
      && (response == NoService <==> !gets)
      && (response == Proxied <==> (runs && !again) || (runsAgain && second.backendError.None?))
      && (response.StartFailed? <==> (gets && !runs) || (getsAgain && !runsAgain))
      && (response.StartFailed? ==> Tunnel.EndsWith(if runs then second.start else first.start, response.err))
      && (again && !getsAgain ==> response == ProxyFailed(first.backendError.value))
      && (runsAgain && second.backendError.Some? ==> response == ProxyFailed(second.backendError.value))
  {
    ReachedIff(c, m, host, "http", first);
    ReachedRuns(c, m, host, "http", first);
    var (m1, r1) := Reached(c, m, host, "http", first);
    if r1.Ok? && first.backendError.Some? {
      RetriedIff(c, m1, r1.value, host, first.backendError.value, second);
    }
  }
}
