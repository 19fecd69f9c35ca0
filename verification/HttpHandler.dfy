/**
 * The HTTP request handler, the client program of the tunnel protocol: get a handle, start it, touch it,
 * proxy; when the backend is dead, mark the handle failed and do it once more.  Nobody else moves meanwhile.
 */
module HttpHandler {
  import opened Wrappers
  import opened Text
  import opened Config
  import opened TunnelTable
  import opened TunnelLifetimes
  import TunnelManager
  import Tunnel

  /** What the environment answers to one attempt. */
  datatype Attempt = Attempt(
    gotAt: int,                        // time of the get
    client: bool,                      // the client factory has an answer
    start: Tunnel.Outcome,             // how the forward starts, if it has to
    touchedAt: int,
    backendError: Option<Tunnel.Error>) // the backend failed before any byte of the response

  datatype Response = NoService | StartFailed(err: Tunnel.Error) | Proxied | ProxyFailed(err: Tunnel.Error)

  predicate InOrder(now: int, first: Attempt, second: Attempt) {
    now <= first.gotAt <= first.touchedAt <= second.gotAt <= second.touchedAt
  }

  /** The host of the request, without the port. */
  function HostOf(host: string): string {
    var i := LastIndex(host, ":");
    if i == -1 then host else host[..i]
  }

  /** What stands before the last colon; the whole host when there is none. */
  lemma HostOfIs(host: string, port: string)
    requires ':' !in port
    ensures HostOf(host + ":" + port) == host
    ensures HostOf(port) == port
  {
    LastDelim(host, ':', port);
    NoDelimAfter(port, ':');
  }

  // ---------------------------------------------------------------- specification

  /** Starts the tunnel unless it runs. */
  ghost function Started(m: Table, id: Id, o: Tunnel.Outcome): (Table, Option<Tunnel.Error>)
    requires id < |m.made|
  {
    if m.made[id].core.state == Tunnel.Running then (m, None)
    else
      var (core, err) := Tunnel.StartCore(m.made[id].core, o);
      (Renew(m, id, core), err)
  }

  ghost function Touched(m: Table, id: Id, now: int): Table
    requires id < |m.made|
  {
    Renew(m.(now := now), id, Tunnel.TouchCore(m.made[id].core, now))
  }

  /** Get, start, touch: a running tunnel for the host, or the response that tells why not. */
  ghost function Reached(c: Config, m: Table, host: string, scheme: string, a: Attempt)
    : (r: (Table, Result<Id, Response>))
    ensures r.1.Ok? ==> r.1.value < |r.0.made|
  {
    var (m1, got) := GetOrCreate(c, m.(now := a.gotAt), Host(host), scheme, a.client);
    if got.Err? then (m1, Err(NoService))
    else
      var (m2, err) := Started(m1, got.value, a.start);
      if err.Some? then (m2, Err(StartFailed(err.value))) else (Touched(m2, got.value, a.touchedAt), Ok(got.value))
  }

  ghost function MarkedFailed(m: Table, id: Id, err: Tunnel.Error): Table
    requires id < |m.made|
  {
    Renew(m, id, Tunnel.MarkFailedCore(m.made[id].core, err))
  }

  /** Marks the handle failed and reaches the host again; without a new handle the first error stands. */
  ghost function Retried(c: Config, m: Table, id: Id, host: string, err: Tunnel.Error, a: Attempt)
    : (r: (Table, Result<Id, Response>))
    requires id < |m.made|
    ensures r.1.Ok? ==> r.1.value < |r.0.made|
  {
    var (m', r) := Reached(c, MarkedFailed(m, id, err), host, "http", a);
    (m', if r == Err(NoService) then Err(ProxyFailed(err)) else r)
  }

  /** The whole request: the new table, the handles it was proxied to, and the response. */
  ghost function Served(c: Config, m: Table, host: string, first: Attempt, second: Attempt)
    : (Table, seq<Id>, Response)
  {
    var (m1, r1) := Reached(c, m, host, "http", first);
    if r1.Err? then (m1, [], r1.error)
    else if first.backendError.None? then (m1, [r1.value], Proxied)
    else ServedAgain(c, m1, r1.value, host, first.backendError.value, second)
  }

  /** The rest of a request whose first attempt failed. */
  ghost function ServedAgain(c: Config, m: Table, id: Id, host: string, err: Tunnel.Error, a: Attempt)
    : (Table, seq<Id>, Response)
    requires id < |m.made|
  {
    var (m', r) := Retried(c, m, id, host, err, a);
    if r.Err? then (m', [id], r.error)
    else (m', [id, r.value], if a.backendError.None? then Proxied else ProxyFailed(a.backendError.value))
  }

  // ---------------------------------------------------------------- what the protocol gives

  ghost predicate Reachable(m: Table, id: Id, host: string) {
    && HeldFor(m, id, Host(host))
    && m.made[id].core.state == Tunnel.Running
    && m.made[id].core.localPort != 0 && m.made[id].core.stop == Tunnel.Open
    && m.made[id].core.lastAccess == m.now
  }

  /** Held for the host, but the start failed: the state is Failed, or Idle when the caller gave up. */
  ghost predicate NotStarted(m: Table, id: Id, host: string, err: Tunnel.Error) {
    && HeldFor(m, id, Host(host))
    && (m.made[id].core.state == Tunnel.Failed
        || (m.made[id].core.state == Tunnel.Idle && err == Tunnel.Cancelled))
  }

  lemma StartedKeeps(c: Config, m: Table, id: Id, host: string, o: Tunnel.Outcome)
    requires Calm(c, m) && HeldFor(m, id, Host(host))
    ensures var (m', err) := Started(m, id, o);
      && Calm(c, m') && Continues(m, m') && m'.now == m.now && HeldFor(m', id, Host(host))
      && (err.None? <==> m'.made[id].core.state == Tunnel.Running)
      && (err.Some? ==> NotStarted(m', id, host, err.value))
  {
    StepKeepsCalm(c, m, OnTunnel(id, Tunnel.Start(o)));
    Tunnel.StartNilIffRunning(m.made[id].core, o);
  }

  lemma TouchedKeepsCalm(c: Config, m: Table, id: Id, now: int)
    requires Calm(c, m) && id < |m.made| && m.now <= now
    ensures Calm(c, Touched(m, id, now)) && Continues(m, Touched(m, id, now))
  {
    StepKeepsCalm(c, m, Tick(now));
    StepKeepsCalm(c, m.(now := now), OnTunnel(id, Tunnel.Touch(now)));
    ContinuesOn(m, m.(now := now), Touched(m, id, now));
  }

  lemma TouchedKeeps(c: Config, m: Table, id: Id, host: string, now: int)
    requires Calm(c, m) && HeldFor(m, id, Host(host)) && m.made[id].core.state == Tunnel.Running && m.now <= now
    ensures var m' := Touched(m, id, now); Calm(c, m') && Continues(m, m') && Reachable(m', id, host) && m'.now == now
  {
    TouchedKeepsCalm(c, m, id, now);
  }

  /** Start and touch, from a handle in hand. */
  lemma StartedRuns(c: Config, m: Table, id: Id, host: string, a: Attempt)
    requires Calm(c, m) && HeldFor(m, id, Host(host)) && m.now <= a.touchedAt
    ensures var (m', err) := Started(m, id, a.start);
      && Calm(c, m') && Continues(m, m') && m'.now == m.now
      && (err.Some? ==> NotStarted(m', id, host, err.value))
      && (err.None? ==>
            var m'' := Touched(m', id, a.touchedAt);
            Calm(c, m'') && Continues(m, m'') && Reachable(m'', id, host) && m''.now == a.touchedAt)
  {
    StartedKeeps(c, m, id, host, a.start);
    var (m', err) := Started(m, id, a.start);
    if err.None? {
      TouchedKeeps(c, m', id, host, a.touchedAt);
      ContinuesOn(m, m', Touched(m', id, a.touchedAt));
    }
  }

  /** The get of an attempt. */
  lemma GotHeld(c: Config, m: Table, host: string, scheme: string, a: Attempt)
    requires Calm(c, m) && m.now <= a.gotAt
    ensures var (m', r) := GetOrCreate(c, m.(now := a.gotAt), Host(host), scheme, a.client);
      && Calm(c, m') && Continues(m, m') && m'.now == a.gotAt
      && (r.Ok? ==> HeldFor(m', r.value, Host(host)))
      && (r.Err? ==> Host(host) !in m'.held)
  {
    var m0 := m.(now := a.gotAt);
    StepKeepsCalm(c, m, Tick(a.gotAt));
    GetKeepsCalm(c, m0, Host(host), scheme, a.client);
    GetReturnsTheKeysHandle(c, m0, Host(host), scheme, a.client);
    ContinuesOn(m, m0, GetOrCreate(c, m0, Host(host), scheme, a.client).0);
  }

  /** Why a tunnel was not reached: the host holds nothing, or it holds a handle that did not start. */
  ghost predicate NotReached(m: Table, host: string, response: Response) {
    match response
    case NoService => Host(host) !in m.held
    case StartFailed(err) => exists id :: NotStarted(m, id, host, err)
    case _ => false
  }

  /**
   * A tunnel that is reached is held for the host, runs, has a port and an open channel, and was touched now;
   * otherwise the response tells what is left in the table.
   */
  lemma ReachedRuns(c: Config, m: Table, host: string, scheme: string, a: Attempt)
    requires Calm(c, m) && m.now <= a.gotAt <= a.touchedAt
    ensures var (m', r) := Reached(c, m, host, scheme, a);
      && Calm(c, m') && Continues(m, m') && m'.now <= a.touchedAt
      && (r.Ok? ==> Reachable(m', r.value, host))
      && (r.Err? ==> NotReached(m', host, r.error))
  {
    GotHeld(c, m, host, scheme, a);
    var (m1, got) := GetOrCreate(c, m.(now := a.gotAt), Host(host), scheme, a.client);
    if got.Ok? {
      StartedRuns(c, m1, got.value, host, a);
      var (m2, err) := Started(m1, got.value, a.start);
      ContinuesOn(m, m1, m2);
      if err.None? {
        ContinuesOn(m, m1, Touched(m2, got.value, a.touchedAt));
      }
    }
  }

  /** From a handle marked failed, the next get of the host gives a handle that was not there before. */
  lemma ReachedAfresh(c: Config, m: Table, host: string, scheme: string, failed: Id, a: Attempt)
    requires Calm(c, m) && m.now <= a.gotAt <= a.touchedAt
    requires HeldFor(m, failed, Host(host)) && m.made[failed].core.state == Tunnel.Failed
    ensures var (m', r) := Reached(c, m, host, scheme, a);
      && failed in m'.dropped && (r.Ok? ==> r.value == |m.made|)
      && failed < |m'.made| && m'.made[failed] == m.made[failed]
  {
  }

  lemma MarkedFailedKeeps(c: Config, m: Table, id: Id, host: string, e: Tunnel.Error)
    requires Calm(c, m) && Reachable(m, id, host)
    ensures var m' := MarkedFailed(m, id, e);
      && Calm(c, m') && Continues(m, m') && HeldFor(m', id, Host(host)) && GivenUp(m'.made[id].core, Some(e))
  {
    StepKeepsCalm(c, m, OnTunnel(id, Tunnel.MarkFailed(e)));
  }

  /** Failed, with the proxy error and a closed stop channel. */
  predicate GivenUp(core: Tunnel.Core, err: Option<Tunnel.Error>) {
    core.state == Tunnel.Failed && core.lastError == err && core.stop == Tunnel.Closed
  }

  ghost predicate NotRetried(m: Table, host: string, e: Tunnel.Error, response: Response) {
    if response.StartFailed? then NotReached(m, host, response)
    else response == ProxyFailed(e) && Host(host) !in m.held
  }

  /** After a failed first attempt. */
  lemma SecondAttempt(c: Config, m: Table, id: Id, host: string, e: Tunnel.Error, a: Attempt)
    requires Calm(c, m) && Reachable(m, id, host) && m.now <= a.gotAt <= a.touchedAt
    ensures var (m', r) := Retried(c, m, id, host, e, a);
      && Calm(c, m') && id in m'.dropped && id < |m'.made| && GivenUp(m'.made[id].core, Some(e))
      && (r.Ok? ==> r.value == |m.made| && Reachable(m', r.value, host))
      && (r.Err? ==> NotRetried(m', host, e, r.error))
  {
    MarkedFailedKeeps(c, m, id, host, e);
    ReachedRuns(c, MarkedFailed(m, id, e), host, "http", a);
    ReachedAfresh(c, MarkedFailed(m, id, e), host, "http", id, a);
  }

  /** What a request may have tried. */
  ghost predicate RetriedAfresh(m: Table, m': Table, host: string, tried: seq<Id>, err: Option<Tunnel.Error>) {
    && |tried| <= 2
    && (|tried| == 2 ==>
          && err.Some? && tried[0] in m'.dropped && tried[0] < |m'.made| && GivenUp(m'.made[tried[0]].core, err)
          && Reachable(m', tried[1], host) && tried[1] >= |m.made| && tried[1] != tried[0])
  }

  /**
   * Over a whole request: at most two attempts; the handle of the first stays what it was left, failed with
   * the proxy error and a closed channel, and is dropped before the second attempt, which uses a new handle.
   */
  lemma RetryUsesFreshHandle(c: Config, m: Table, host: string, first: Attempt, second: Attempt)
    requires Calm(c, m) && InOrder(m.now, first, second)
    ensures var (m', tried, response) := Served(c, m, host, first, second);
      Calm(c, m') && RetriedAfresh(m, m', host, tried, first.backendError)
  {
    ReachedRuns(c, m, host, "http", first);
    var (m1, r1) := Reached(c, m, host, "http", first);
    if r1.Ok? && first.backendError.Some? {
      SecondAttempt(c, m1, r1.value, host, first.backendError.value, second);
    }
  }

  /** What a response tells about the table and the handles that were tried. */
  ghost predicate Tells(m: Table, host: string, tried: seq<Id>, response: Response, first: Attempt, second: Attempt) {
    match response
    case NoService => tried == [] && NotReached(m, host, response)
    case StartFailed(_) => |tried| <= 1 && NotReached(m, host, response)
    case Proxied => tried != [] && Reachable(m, tried[|tried| - 1], host)
    case ProxyFailed(err) =>
      || (|tried| == 1 && first.backendError == Some(err) && Host(host) !in m.held)
      || (|tried| == 2 && second.backendError == Some(err) && Reachable(m, tried[1], host))
  }

  lemma AgainTells(c: Config, m: Table, id: Id, host: string, first: Attempt, second: Attempt)
    requires Calm(c, m) && Reachable(m, id, host)
    requires m.now <= second.gotAt <= second.touchedAt && first.backendError.Some?
    ensures var (m', tried, response) := ServedAgain(c, m, id, host, first.backendError.value, second);
      Tells(m', host, tried, response, first, second)
  {
    SecondAttempt(c, m, id, host, first.backendError.value, second);
  }

  /**
   * Each response goes with a state of the host's handle: none, one that did not start, or the last tried one
   * running.  A second failure leaves its handle running: only the first one is marked failed.
   */
  lemma ResponseTellsTheHandle(c: Config, m: Table, host: string, first: Attempt, second: Attempt)
    requires Calm(c, m) && InOrder(m.now, first, second)
    ensures var (m', tried, response) := Served(c, m, host, first, second);
      Tells(m', host, tried, response, first, second)
  {
    ReachedRuns(c, m, host, "http", first);
    var (m1, r1) := Reached(c, m, host, "http", first);
    if r1.Ok? && first.backendError.Some? {
      AgainTells(c, m1, r1.value, host, first, second);
    }
  }

  /** So after two failures the next get of the host gives the second handle again. */
  lemma SecondFailureIsKept(
      c: Config, m: Table, host: string, first: Attempt, second: Attempt, scheme: string, client: bool)
    requires Calm(c, m) && InOrder(m.now, first, second)
    requires var (m', tried, response) := Served(c, m, host, first, second); response.ProxyFailed? && |tried| == 2
    ensures var (m', tried, response) := Served(c, m, host, first, second);
      GetOrCreate(c, m', Host(host), scheme, client).1 == Ok(tried[1])
  {
    ResponseTellsTheHandle(c, m, host, first, second);
    var (m', tried, response) := Served(c, m, host, first, second);
    assert Find(m', Host(host)) == Some(tried[1]);
  }

  /** Such requests exist: a new manager, a host with a route, two forwards that start and two backends that fail. */
  lemma TwoFailuresHappen(c: Config, host: string, p: Tunnel.Port)
    requires RouteFor(c, Host(host), "http").Some?
    ensures exists first, second ::
      && InOrder(0, first, second)
      && var (m', tried, response) := Served(c, Empty(0), host, first, second);
         response.ProxyFailed? && |tried| == 2
  {
    var a := Attempt(0, true, Tunnel.Ready(p), 0, Some(Tunnel.Other(1)));
    EmptyInv(c, 0);
    ReachesNew(c, Empty(0), host, "http", a);
    ReachedRuns(c, Empty(0), host, "http", a);
    var (m1, r1) := Reached(c, Empty(0), host, "http", a);
    RetryReaches(c, m1, r1.value, host, Tunnel.Other(1), a);
    assert InOrder(0, a, a);
  }

  lemma RetryReaches(c: Config, m: Table, id: Id, host: string, err: Tunnel.Error, a: Attempt)
    requires Reachable(m, id, host) && RouteFor(c, Host(host), "http").Some? && a.client && a.start.Ready?
    ensures Retried(c, m, id, host, err, a).1.Ok?
  {
    ReachesNew(c, MarkedFailed(m, id, err), host, "http", a);
  }

  /** With a route, a client and a forward that starts, a host without a usable handle is reached. */
  lemma ReachesNew(c: Config, m: Table, host: string, scheme: string, a: Attempt)
    requires Find(m, Host(host)).None? && RouteFor(c, Host(host), scheme).Some? && a.client && a.start.Ready?
    ensures Reached(c, m, host, scheme, a).1 == Ok(|m.made|)
  {
    var m0 := m.(now := a.gotAt);
    GetsNew(c, m0, Host(host), scheme);
    var (m1, got) := GetOrCreate(c, m0, Host(host), scheme, true);
    StartsReady(m1, got.value, a.start);
  }

  lemma GetsNew(c: Config, m: Table, key: Key, scheme: string)
    requires Find(m, key).None? && RouteFor(c, key, scheme).Some?
    ensures var (m', r) := GetOrCreate(c, m, key, scheme, true);
      r == Ok(|m.made|) && |m.made| < |m'.made| && m'.made[|m.made|].core.state == Tunnel.Idle
  {
    var m' := GetOrCreate(c, m, key, scheme, true).0;
    assert m' == Create(Drop(m, {key}), key, RouteFor(c, key, scheme).value);
  }

  lemma StartsReady(m: Table, id: Id, o: Tunnel.Outcome)
    requires id < |m.made| && o.Ready?
    ensures Started(m, id, o).1.None?
  {
  }

  /**
   * The retry among other requests: whatever others do between the moment a request marks its handle failed and
   * its second get, as long as none of them starts that handle again, the second get gives another handle, held
   * for the host and usable, and the failed one, if it was held for the host, is dropped by then.
   */
  lemma InterleavedRetryUsesFreshHandle(c: Config, trace: seq<Table>, ops: seq<Op>, host: string, id: Id)
    requires IsRun(c, trace, ops) && Inv(c, trace[0]) && |ops| >= 2 && HeldFor(trace[0], id, Host(host))
    requires ops[0].OnTunnel? && ops[0].id == id && ops[0].op.MarkFailed?
    requires trace[0].made[id].core.state == Tunnel.Running
    requires ops[|ops| - 1].Get? && ops[|ops| - 1].key == Host(host)
    requires forall k | 0 <= k < |ops| :: NoRestart(ops[k], id)
    ensures var (last, get) := (trace[|ops| - 1], ops[|ops| - 1]);
      var (m', r) := GetOrCreate(c, last, get.key, get.scheme, get.client);
      && trace[|ops|] == m' && id in m'.dropped
      && (r.Ok? ==> r.value != id && HeldFor(m', r.value, Host(host)) && Usable(m'.made[r.value].core))
  {
    var n := |ops| - 1;
    assert Moves(c, trace[0], ops[0], trace[1]);
    RunKeepsInv(c, trace, ops, n);
    FailedFrom(c, trace, ops, id, n);
    var get := ops[n];
    assert Moves(c, trace[n], get, trace[n + 1]);
    RunContinues(c, trace, ops, 0, n);
  }

  /** Failed from the first step on. */
  lemma {:induction false} FailedFrom(c: Config, trace: seq<Table>, ops: seq<Op>, id: Id, j: nat)
    requires IsRun(c, trace, ops) && Inv(c, trace[0]) && 1 <= j <= |ops|
    requires id < |trace[1].made| && trace[1].made[id].core.state == Tunnel.Failed
    requires forall k | 0 <= k < |ops| :: NoRestart(ops[k], id)
    ensures id < |trace[j].made| && trace[j].made[id].core.state == Tunnel.Failed
  {
    if j > 1 {
      FailedFrom(c, trace, ops, id, j - 1);
      RunKeepsInv(c, trace, ops, j - 1);
      StepStaysFailed(c, trace[j - 1], ops[j - 1], id);
    }
  }

  // ---------------------------------------------------------------- the handler

  class Server {
    const manager: TunnelManager.Manager

    constructor (manager: TunnelManager.Manager)
      ensures this.manager == manager
    {
      this.manager := manager;
    }

    method StartIfNeeded(tun: Tunnel.Handle, ghost id: Id, o: Tunnel.Outcome) returns (err: Option<Tunnel.Error>)
      requires manager.Valid() && id < |manager.made| && tun == manager.made[id]
      modifies tun
      ensures manager.Valid() && (manager.View(), err) == Started(old(manager.View()), id, o)
    {
      err := None;
      if !tun.IsRunning() {
        err := tun.Start(o);
      }
      manager.HandleMoved(id);
      assert tun.View() == old(tun.View()) ==> manager.View().made == old(manager.View()).made;
    }

    method TouchHandle(tun: Tunnel.Handle, ghost id: Id, now: int)
      requires manager.Valid() && id < |manager.made| && tun == manager.made[id] && manager.clock <= now
      modifies tun, manager`clock
      ensures manager.Valid() && manager.clock == now && manager.View() == Touched(old(manager.View()), id, now)
    {
      manager.Advance(now);
      ghost var before := manager.View();
      label advanced:
      tun.Touch(now);
      manager.HandleMoved@advanced(id);
    }

    method MarkHandleFailed(tun: Tunnel.Handle, ghost id: Id, err: Tunnel.Error)
      requires manager.Valid() && id < |manager.made| && tun == manager.made[id]
      modifies tun
      ensures manager.Valid() && manager.View() == MarkedFailed(old(manager.View()), id, err)
    {
      tun.MarkFailed(err);
      manager.HandleMoved(id);
    }

    /** Get, start, touch; the ghost result names the handle. */
    method Reach(host: string, scheme: string, a: Attempt)
      returns (tun: Result<Tunnel.Handle, Response>, ghost id: Result<Id, Response>)
      requires manager.Valid() && manager.clock <= a.gotAt <= a.touchedAt
      modifies manager, manager.made
      ensures manager.Valid() && manager.clock <= a.touchedAt
      ensures old(manager.made) <= manager.made && fresh(manager.made[|old(manager.made)|..])
      ensures (manager.View(), id) == Reached(manager.config, old(manager.View()), host, scheme, a)
      ensures match id
              case Ok(i) => i < |manager.made| && tun == Ok(manager.made[i])
              case Err(e) => tun == Err(e)
    {
      ghost var (m1, got) := GetOrCreate(manager.config, manager.View().(now := a.gotAt), Host(host), scheme, a.client);
      var r := manager.GetOrCreateTunnel(host, scheme, a.client, a.gotAt);
      if r.Err? {
        return Err(NoService), Err(NoService);
      }
      assert r.value in manager.made;
      var err := StartIfNeeded(r.value, got.value, a.start);
      if err.Some? {
        return Err(StartFailed(err.value)), Err(StartFailed(err.value));
      }
      TouchHandle(r.value, got.value, a.touchedAt);
      return Ok(r.value), Ok(got.value);
    }

    /** The proxy failed: give the handle up and reach the host once more. */
    method Retry(host: string, tun: Tunnel.Handle, ghost id: Id, err: Tunnel.Error, a: Attempt)
      returns (again: Result<Tunnel.Handle, Response>)
      requires manager.Valid() && manager.clock <= a.gotAt <= a.touchedAt
      requires id < |manager.made| && tun == manager.made[id]
      modifies manager, manager.made
      ensures manager.Valid() && old(manager.made) <= manager.made && fresh(manager.made[|old(manager.made)|..])
      ensures var (m', r) := Retried(manager.config, old(manager.View()), id, host, err, a);
        && manager.View() == m'
        && match r
           case Ok(i) => i < |manager.made| && again == Ok(manager.made[i])
           case Err(e) => again == Err(e)
    {
      MarkHandleFailed(tun, id, err);
      ghost var id2;
      again, id2 := Reach(host, "http", a);
      if again == Err(NoService) {
        again := Err(ProxyFailed(err));
      }
    }

    /** Everything after a failed first attempt. */
    method ServeAgain(host: string, tun: Tunnel.Handle, ghost id: Id, err: Tunnel.Error, a: Attempt)
      returns (response: Response, tried: seq<Tunnel.Handle>)
      requires manager.Valid() && manager.clock <= a.gotAt <= a.touchedAt
      requires id < |manager.made| && tun == manager.made[id]
      modifies manager, manager.made
      ensures manager.Valid()
      ensures var (m', ids, answer) := ServedAgain(manager.config, old(manager.View()), id, host, err, a);
        manager.View() == m' && response == answer && Named(tried, ids)
    {
      var again := Retry(host, tun, id, err, a);
      if again.Err? {
        return again.error, [tun];
      }
      response := if a.backendError.None? then Proxied else ProxyFailed(a.backendError.value);
      tried := [tun, again.value];
    }

    ghost predicate Named(tried: seq<Tunnel.Handle>, ids: seq<Id>)
      reads manager
    {
      |tried| == |ids| && forall i | 0 <= i < |ids| :: ids[i] < |manager.made| && tried[i] == manager.made[ids[i]]
    }

    /** The port of the host is cut off; tried holds the handles the request was proxied to. */
    method ServeHTTP(requestHost: string, first: Attempt, second: Attempt)
      returns (response: Response, tried: seq<Tunnel.Handle>)
      requires manager.Valid() && InOrder(manager.clock, first, second)
      modifies manager, manager.made
      ensures manager.Valid()
      ensures var (m', ids, answer) := Served(manager.config, old(manager.View()), HostOf(requestHost), first, second);
        manager.View() == m' && response == answer && Named(tried, ids)
    {
      var host := requestHost;
      var idx := LastIndex(host, ":");
      if idx != -1 {
        host := host[..idx];
      }
      var tun, id := Reach(host, "http", first);
      if tun.Err? {
        return tun.error, [];
      }
      if first.backendError.None? {
        return Proxied, [tun.value];
      }
      assert manager.made == old(manager.made) + manager.made[|old(manager.made)|..];
      response, tried := ServeAgain(host, tun.value, id.value, first.backendError.value, second);
    }
  }
}
