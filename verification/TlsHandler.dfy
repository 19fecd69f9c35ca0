/**
 * TLS passthrough, where the parser, the byte stream and the tunnel protocol meet: read the ClientHello, find
 * its server name, get, start and touch the tunnel, dial it and hand the bytes over; or answer with an error
 * page that replays what was read.
 */
module TlsHandler {
  import opened Wrappers
  import opened Config
  import opened TunnelTable
  import opened TunnelLifetimes
  import opened ClientHello
  import ClientHelloGrammar
  import opened Streams
  import opened HttpHandler
  import Tunnel

  datatype Page = SniExtraction | RouteNotFound | TunnelStartup | BackendConnection | Forwarding

  datatype Outcome = Forwarded | ErrorPage(page: Page)

  function StatusCode(page: Page): (code: nat)
    ensures code == 404 <==> page == RouteNotFound
    ensures code == 400 <==> page == SniExtraction
    ensures code in {400, 404, 502}
  {
    match page
    case RouteNotFound => 404
    case SniExtraction => 400
    case _ => 502
  }

  /** The bytes of a name as a string. */
  function NameOf(name: Bytes): string {
    seq(|name|, i requires 0 <= i < |name| => name[i] as char)
  }

  /** It has the same bytes, so different names stay different. */
  lemma NameOfKeepsBytes(name: Bytes, other: Bytes)
    ensures |NameOf(name)| == |name| && forall i | 0 <= i < |name| :: NameOf(name)[i] as int == name[i]
    ensures NameOf(name) == NameOf(other) <==> name == other
  {
    if NameOf(name) == NameOf(other) {
      assert forall i | 0 <= i < |name| :: NameOf(name)[i] as int == NameOf(other)[i] as int;
    }
  }

  /** The new table, the outcome, and the handle that was reached; writeFails is the hello's way to the backend. */
  ghost function Handled(c: Config, m: Table, hello: Bytes, a: Attempt, writeFails: bool)
    : (Table, Outcome, Option<Id>)
  {
    var sni := ParseSni(hello);
    if sni.Err? then (m, ErrorPage(SniExtraction), None) else PassedOn(c, m, NameOf(sni.value), a, writeFails)
  }

  /** The part after the name was found. */
  ghost function PassedOn(c: Config, m: Table, host: string, a: Attempt, writeFails: bool)
    : (Table, Outcome, Option<Id>)
  {
    var (m1, r) := Reached(c, m, host, "https", a);
    if r.Err? then (m1, ErrorPage(if r.error.NoService? then RouteNotFound else TunnelStartup), None)
    else if a.backendError.Some? then
      (MarkedFailed(m1, r.value, a.backendError.value), ErrorPage(BackendConnection), Some(r.value))
    else (m1, if writeFails then ErrorPage(Forwarding) else Forwarded, Some(r.value))
  }

  // ---------------------------------------------------------------- what a connection gets

  /** What the outcome says about the table after the connection was handled. */
  ghost predicate OutcomeOk(m: Table, m': Table, host: string, a: Attempt, outcome: Outcome, id: Option<Id>) {
    match outcome
    case Forwarded => id.Some? && Reachable(m', id.value, host)
    case ErrorPage(SniExtraction) => m' == m && id.None?
    case ErrorPage(BackendConnection) =>
      id.Some? && HeldFor(m', id.value, Host(host)) && GivenUp(m'.made[id.value].core, a.backendError)
    case ErrorPage(RouteNotFound) => id.None? && Host(host) !in m'.held
    case ErrorPage(TunnelStartup) => id.None? && exists err :: NotReached(m', host, StartFailed(err))
    case ErrorPage(Forwarding) => id.Some? && Reachable(m', id.value, host)
  }

  lemma HandledOk(c: Config, m: Table, hello: Bytes, a: Attempt, writeFails: bool)
    requires Calm(c, m) && m.now <= a.gotAt <= a.touchedAt
    ensures var (m', outcome, id) := Handled(c, m, hello, a, writeFails);
      && Calm(c, m') && Continues(m, m') && m'.now <= a.touchedAt
      && (outcome == ErrorPage(SniExtraction) <==> ParseSni(hello).Err?)
      && OutcomeOk(m, m', if ParseSni(hello).Ok? then NameOf(ParseSni(hello).value) else "", a, outcome, id)
  {
    if ParseSni(hello).Ok? {
      var host := NameOf(ParseSni(hello).value);
      ReachedRuns(c, m, host, "https", a);
      var (m1, r) := Reached(c, m, host, "https", a);
      if r.Ok? && a.backendError.Some? {
        MarkedFailedKeeps(c, m1, r.value, host, a.backendError.value);
        ContinuesOn(m, m1, MarkedFailed(m1, r.value, a.backendError.value));
      }
    }
  }

  /**
   * However the network splits a connection: whoever goes on with it, the backend after the hello or the error
   * page through its replay, sees the client's whole stream; and a connection is forwarded only to a running
   * tunnel held for the name that this whole stream carries.
   */
  lemma ConnectionIsPassedOn(c: Config, m: Table, chunks: seq<Bytes>, a: Attempt, writeFails: bool)
    requires Calm(c, m) && m.now <= a.gotAt <= a.touchedAt && NoneEmpty(chunks)
    ensures var (hello, rest) := FirstRead(chunks, HELLO_SIZE);
      var (m', outcome, id) := Handled(c, m, hello, a, writeFails);
      && hello + Flatten(rest.chunks) == Flatten(chunks)
      && Left(Replay(hello, false, rest.chunks)) == Flatten(chunks)
      && (outcome.Forwarded? ==>
            && ParseSni(Flatten(chunks)).Ok? && id.Some?
            && Reachable(m', id.value, NameOf(ParseSni(Flatten(chunks)).value)))
  {
    var (hello, rest) := FirstRead(chunks, HELLO_SIZE);
    FirstReadKeepsTheStream(chunks);
    HandledOk(c, m, hello, a, writeFails);
    if ParseSni(hello).Ok? {
      FirstReadNameIsTheStreams(chunks);
    }
  }

  /** Which page a client gets: 400 without a name, 404 without a handle for it, else 502. */
  lemma StatusTells(c: Config, m: Table, hello: Bytes, a: Attempt, writeFails: bool)
    requires Calm(c, m) && m.now <= a.gotAt <= a.touchedAt
    ensures var (m', outcome, id) := Handled(c, m, hello, a, writeFails);
      outcome.ErrorPage? ==>
        && (StatusCode(outcome.page) == 400 <==> ParseSni(hello).Err?)
        && (StatusCode(outcome.page) == 404 <==> ParseSni(hello).Ok? && Host(NameOf(ParseSni(hello).value)) !in m'.held)
  {
    HandledOk(c, m, hello, a, writeFails);
    if ParseSni(hello).Ok? {
      var host := NameOf(ParseSni(hello).value);
      NotReachedIsHeld(Handled(c, m, hello, a, writeFails).0, host);
    }
  }

  lemma NotReachedIsHeld(m: Table, host: string)
    ensures forall err | NotReached(m, host, StartFailed(err)) :: Host(host) in m.held
  {
  }

  /**
   * A client whose hello names a host is told that no name was found if and only if its hello did not come whole
   * in the first chunk, or is longer than the reader's buffer.
   */
  lemma NamePageIff(c: Config, m: Table, h: ClientHelloGrammar.Hello, t: Bytes, chunks: seq<Bytes>, a: Attempt)
    requires Calm(c, m) && m.now <= a.gotAt <= a.touchedAt && NoneEmpty(chunks) && chunks != []
    requires ClientHelloGrammar.HelloOk(h) && ClientHelloGrammar.FirstServerName(h.extensions).Ok?
    requires Flatten(chunks) == ClientHelloGrammar.Encode(h) + t
    ensures Handled(c, m, FirstRead(chunks, HELLO_SIZE).0, a, false).1 == ErrorPage(SniExtraction) <==>
      var size := |ClientHelloGrammar.Encode(h)|; size > |chunks[0]| || size > BUFFER_SIZE
  {
    HandledOk(c, m, FirstRead(chunks, HELLO_SIZE).0, a, false);
    HelloGetsThroughIff(h, t, chunks);
    ClientHelloGrammar.ParserInvertsEncoder(h, t);
    if ParseSni(FirstRead(chunks, HELLO_SIZE).0).Ok? {
      FirstReadNameIsTheStreams(chunks);
    }
  }

  /** After a dial that failed, the next request for the host, over TLS or HTTP, gets a new handle or none. */
  lemma NextRequestIsFresh(c: Config, m: Table, hello: Bytes, a: Attempt, scheme: string, next: Attempt)
    requires Calm(c, m) && m.now <= a.gotAt <= a.touchedAt <= next.gotAt <= next.touchedAt
    requires Handled(c, m, hello, a, false).1 == ErrorPage(BackendConnection)
    ensures var (m', outcome, id) := Handled(c, m, hello, a, false);
      var (m'', r) := Reached(c, m', NameOf(ParseSni(hello).value), scheme, next);
      id.Some? && id.value in m''.dropped && (r.Ok? ==> r.value == |m'.made|)
  {
    HandledOk(c, m, hello, a, false);
    var (m', outcome, id) := Handled(c, m, hello, a, false);
    ReachedAfresh(c, m', NameOf(ParseSni(hello).value), scheme, id.value, next);
  }

  // ---------------------------------------------------------------- the handler

  /** Reaches the tunnel, dials it and writes the hello. */
  method PassOn(server: Server, host: string, a: Attempt, writeFails: bool)
    returns (outcome: Outcome, tun: Option<Tunnel.Handle>)
    requires server.manager.Valid() && server.manager.clock <= a.gotAt <= a.touchedAt
    modifies server.manager, server.manager.made
    ensures server.manager.Valid()
    ensures var (m', o, id) := PassedOn(server.manager.config, old(server.manager.View()), host, a, writeFails);
      && server.manager.View() == m' && outcome == o
      && (id.Some? <==> tun.Some?)
      && (id.Some? ==> id.value < |server.manager.made| && tun.value == server.manager.made[id.value])
  {
    var r, id := server.Reach(host, "https", a);
    if r.Err? {
      return ErrorPage(if r.error.NoService? then RouteNotFound else TunnelStartup), None;
    }
    if a.backendError.Some? {
      assert r.value in server.manager.made;
      assert server.manager.made == old(server.manager.made) + server.manager.made[|old(server.manager.made)|..];
      server.MarkHandleFailed(r.value, id.value, a.backendError.value);
      return ErrorPage(BackendConnection), Some(r.value);
    }
    return if writeFails then ErrorPage(Forwarding) else Forwarded, Some(r.value);
  }

  /** Handles a connection that was found to be TLS. */
  method HandleTLSConnection(server: Server, conn: PeekConn, a: Attempt, writeFails: bool)
    returns (outcome: Outcome, hello: Bytes, tun: Option<Tunnel.Handle>)
    requires server.manager.Valid() && server.manager.clock <= a.gotAt <= a.touchedAt
    requires conn.Valid() && conn.View().buffered != []
    modifies server.manager, server.manager.made, conn, conn.conn, conn.buf
    ensures server.manager.Valid() && conn.Valid()
    ensures (hello, conn.View()) == BufferedRead(old(conn.View()), HELLO_SIZE)
    ensures var (m', o, id) := Handled(server.manager.config, old(server.manager.View()), hello, a, writeFails);
      && server.manager.View() == m' && outcome == o
      && (id.Some? <==> tun.Some?)
      && (id.Some? ==> id.value < |server.manager.made| && tun.value == server.manager.made[id.value])
  {
    var sni;
    hello, sni := ReadClientHello(conn);
    if sni.Err? {
      return ErrorPage(SniExtraction), hello, None;
    }
    outcome, tun := PassOn(server, NameOf(sni.value), a, writeFails);
  }
}
