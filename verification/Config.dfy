/** The decoded configuration and its validation. */
module Config {
  import opened Wrappers
  import opened Text

  /** An HTTP route, static or parsed from a hostname. */
  datatype Route = Route(context: string, namespace: string, service: string, pod: string, port: int, scheme: string)

  datatype TcpRoute = TcpRoute(context: string, namespace: string, service: string, pod: string, port: int)

  datatype Via = Via(pod: string, service: string, createImage: Option<string>)

  datatype JumpRoute = JumpRoute(
    context: string, namespace: string, via: Via, targetHost: string, targetPort: int, method_: string)

  datatype Http = Http(listenAddr: string, idleTimeout: int, routes: map<string, Route>, dynamicHost: string)

  datatype Tcp = Tcp(idleTimeout: int, routes: map<Int64, TcpRoute>, jump: map<Int64, JumpRoute>)

  datatype Config = Config(apiVersion: string, verbose: bool, execPath: seq<string>, http: Http, tcp: Tcp)

  const CURRENT_API_VERSION := "autotunnel/v1"

  function ToK8sRoute(r: TcpRoute): Route {
    Route(r.context, r.namespace, r.service, r.pod, r.port, "tcp")
  }

  /** Which names are safe as a jump target, and which as a container image. */
  datatype NameChecks = NameChecks(validTargetHost: string -> bool, validImage: string -> bool)

  // ---------------------------------------------------------------- what a valid configuration is

  /** Parts present, exactly one of service and pod, a real port. */
  predicate ValidRoute(r: Route) {
    && r.context != "" && r.namespace != ""
    && (r.service != "" || r.pod != "") && (r.service == "" || r.pod == "")
    && 0 < r.port <= 65535
  }

  predicate ValidVia(v: Via, checks: NameChecks) {
    && (v.pod == "") != (v.service == "")
    && (v.createImage.Some? ==> v.pod != "" && v.createImage.value != "" && checks.validImage(v.createImage.value))
  }

  predicate ValidJump(j: JumpRoute, checks: NameChecks) {
    && j.context != "" && j.namespace != ""
    && ValidVia(j.via, checks)
    && j.targetHost != "" && checks.validTargetHost(j.targetHost)
    && 0 < j.targetPort <= 65535
    && j.method_ in ["", "socat"]
  }

  predicate LocalPortOk(port: Int64, httpPort: Int64) {
    0 < port <= 65535 && port != httpPort
  }

  predicate TcpUsed(t: Tcp) {
    |t.routes| > 0 || |t.jump| > 0
  }

  predicate ValidTcp(t: Tcp, listenAddr: string, checks: NameChecks) {
    TcpUsed(t) ==>
      && t.idleTimeout >= 0
      && ExtractPort(listenAddr).Some?
      && (forall p | p in t.routes ::
            LocalPortOk(p, ExtractPort(listenAddr).value) && ValidRoute(ToK8sRoute(t.routes[p])))
      && (forall p | p in t.jump ::
            LocalPortOk(p, ExtractPort(listenAddr).value) && ValidJump(t.jump[p], checks) && p !in t.routes)
  }

  predicate ValidConfig(c: Config, checks: NameChecks) {
    && c.apiVersion in ["", CURRENT_API_VERSION]
    && c.http.listenAddr != ""
    && c.http.idleTimeout > 0
    && (forall h | h in c.http.routes :: ValidRoute(c.http.routes[h]))
    && ValidTcp(c.tcp, c.http.listenAddr, checks)
  }

  // ---------------------------------------------------------------- what validation reports

  datatype RouteError = NoContext | NoNamespace | NoTarget | TwoTargets | PortOutOfRange

  datatype JumpError =
    | JumpNoContext | JumpNoNamespace | NoVia | TwoVias | CreateWithService | CreateWithoutPod
    | NoImage | BadImage | NoTargetHost | BadTargetHost | BadTargetPort | BadMethod

  datatype Error =
    | BadApiVersion | NoListen | BadHttpIdleTimeout | BadTcpIdleTimeout | NoListenPort
    | BadHttpRoute(host: string, route: RouteError)
    | LocalPortRange(port: Int64) | LocalPortIsHttp(port: Int64) | LocalPortTaken(port: Int64)
    | BadTcpRoute(port: Int64, route: RouteError)
    | BadJumpRoute(port: Int64, jump: JumpError)

  predicate RouteFault(r: Route, e: RouteError) {
    match e
    case NoContext => r.context == ""
    case NoNamespace => r.namespace == ""
    case NoTarget => r.service == "" && r.pod == ""
    case TwoTargets => r.service != "" && r.pod != ""
    case PortOutOfRange => r.port <= 0 || r.port > 65535
  }

  predicate JumpFault(j: JumpRoute, checks: NameChecks, e: JumpError) {
    match e
    case JumpNoContext => j.context == ""
    case JumpNoNamespace => j.namespace == ""
    case NoVia => j.via.pod == "" && j.via.service == ""
    case TwoVias => j.via.pod != "" && j.via.service != ""
    case CreateWithService => j.via.createImage.Some? && j.via.service != ""
    case CreateWithoutPod => j.via.createImage.Some? && j.via.pod == ""
    case NoImage => j.via.createImage == Some("")
    case BadImage => j.via.createImage.Some? && !checks.validImage(j.via.createImage.value)
    case NoTargetHost => j.targetHost == ""
    case BadTargetHost => !checks.validTargetHost(j.targetHost)
    case BadTargetPort => j.targetPort <= 0 || j.targetPort > 65535
    case BadMethod => j.method_ != "" && j.method_ != "socat"
  }

  /** The reported error describes something that is wrong with the configuration. */
  predicate Fault(c: Config, checks: NameChecks, e: Error) {
    match e
    case BadApiVersion => c.apiVersion != "" && c.apiVersion != CURRENT_API_VERSION
    case NoListen => c.http.listenAddr == ""
    case BadHttpIdleTimeout => c.http.idleTimeout <= 0
    case BadTcpIdleTimeout => TcpUsed(c.tcp) && c.tcp.idleTimeout < 0
    case NoListenPort => TcpUsed(c.tcp) && ExtractPort(c.http.listenAddr).None?
    case BadHttpRoute(h, why) => h in c.http.routes && RouteFault(c.http.routes[h], why)
    case LocalPortRange(p) => p in c.tcp.routes.Keys + c.tcp.jump.Keys && (p <= 0 || p > 65535)
    case LocalPortIsHttp(p) => p in c.tcp.routes.Keys + c.tcp.jump.Keys && ExtractPort(c.http.listenAddr) == Some(p)
    case LocalPortTaken(p) => p in c.tcp.routes && p in c.tcp.jump
    case BadTcpRoute(p, why) => p in c.tcp.routes && RouteFault(ToK8sRoute(c.tcp.routes[p]), why)
    case BadJumpRoute(p, why) => p in c.tcp.jump && JumpFault(c.tcp.jump[p], checks, why)
  }

  // ---------------------------------------------------------------- the validator

  /** The port of an address such as ":8989" or "127.0.0.1:8989". */
  function ExtractPort(addr: string): Option<Int64> {
    var i := LastIndex(addr, ":");
    if i == -1 then None else Atoi(addr[i + 1..])
  }

  /** The address is a host, a colon, and a decimal spelling of the port. */
  ghost predicate IsAddress(addr: string, host: string, portStr: string, p: Int64) {
    addr == host + ":" + portStr && ':' !in portStr && Spells(portStr, p)
  }

  /** Exactly such addresses have a port. */
  lemma ExtractPortIff(addr: string, p: Int64)
    ensures ExtractPort(addr) == Some(p) <==> exists host, portStr :: IsAddress(addr, host, portStr, p)
  {
    if ExtractPort(addr) == Some(p) {
      AddressSplits(addr, p);
    }
    forall host, portStr | IsAddress(addr, host, portStr, p)
      ensures ExtractPort(addr) == Some(p)
    {
      ExtractsPort(host, portStr, p);
    }
  }

  lemma AddressSplits(addr: string, p: Int64)
    requires ExtractPort(addr) == Some(p)
    ensures var i := LastIndex(addr, ":"); i != -1 && IsAddress(addr, addr[..i], addr[i + 1..], p)
  {
    var i := LastIndex(addr, ":");
    NoDelimAfter(addr, ':');
    AtoiIff(addr[i + 1..], p);
    assert addr == addr[..i] + addr[i..i + 1] + addr[i + 1..];
  }

  lemma ExtractsPort(host: string, portStr: string, p: Int64)
    requires ':' !in portStr && Spells(portStr, p)
    ensures ExtractPort(host + ":" + portStr) == Some(p)
  {
    LastDelim(host, ':', portStr);
    AtoiIff(portStr, p);
    assert (host + ":" + portStr)[|host| + 1..] == portStr;
  }

  function ValidateRouteBase(r: Route): (e: Option<RouteError>)
    ensures e.None? <==> ValidRoute(r)
    ensures e.Some? ==> RouteFault(r, e.value)
  {
    if r.context == "" then Some(NoContext)
    else if r.namespace == "" then Some(NoNamespace)
    else if r.service == "" && r.pod == "" then Some(NoTarget)
    else if r.service != "" && r.pod != "" then Some(TwoTargets)
    else if r.port <= 0 || r.port > 65535 then Some(PortOutOfRange)
    else None
  }

  function ValidateJump(j: JumpRoute, checks: NameChecks): (e: Option<JumpError>)
    ensures e.None? <==> ValidJump(j, checks)
    ensures e.Some? ==> JumpFault(j, checks, e.value)
  {
    if j.context == "" then Some(JumpNoContext)
    else if j.namespace == "" then Some(JumpNoNamespace)
    else if j.via.pod == "" && j.via.service == "" then Some(NoVia)
    else if j.via.pod != "" && j.via.service != "" then Some(TwoVias)
    else if j.via.createImage.Some? && j.via.service != "" then Some(CreateWithService)
    else if j.via.createImage.Some? && j.via.pod == "" then Some(CreateWithoutPod)
    else if j.via.createImage == Some("") then Some(NoImage)
    else if j.via.createImage.Some? && !checks.validImage(j.via.createImage.value) then Some(BadImage)
    else if j.targetHost == "" then Some(NoTargetHost)
    else if !checks.validTargetHost(j.targetHost) then Some(BadTargetHost)
    else if j.targetPort <= 0 || j.targetPort > 65535 then Some(BadTargetPort)
    else if j.method_ != "" && j.method_ != "socat" then Some(BadMethod)
    else None
  }

  datatype PortUser = RoutesUser | JumpUser

  /** Checks one local port and records who uses it. */
  method ValidateLocalPort(port: Int64, httpPort: Int64, seenPorts: map<Int64, PortUser>, user: PortUser)
    returns (e: Option<Error>, seenPorts': map<Int64, PortUser>)
    ensures e.None? <==> LocalPortOk(port, httpPort) && port !in seenPorts
    ensures seenPorts' == if e.None? then seenPorts[port := user] else seenPorts
    ensures e.Some? ==>
      || (e.value == LocalPortRange(port) && (port <= 0 || port > 65535))
      || (e.value == LocalPortIsHttp(port) && port == httpPort)
      || (e.value == LocalPortTaken(port) && port in seenPorts)
  {
    seenPorts' := seenPorts;
    if port <= 0 || port > 65535 {
      return Some(LocalPortRange(port)), seenPorts';
    }
    if port == httpPort {
      return Some(LocalPortIsHttp(port)), seenPorts';
    }
    if port in seenPorts {
      return Some(LocalPortTaken(port)), seenPorts';
    }
    seenPorts' := seenPorts'[port := user];
    return None, seenPorts';
  }

  method ValidateTcpRoutes(c: Config, checks: NameChecks, httpPort: Int64)
    returns (e: Option<Error>, seenPorts: map<Int64, PortUser>)
    requires ExtractPort(c.http.listenAddr) == Some(httpPort)
    ensures e.None? <==>
      forall p | p in c.tcp.routes :: LocalPortOk(p, httpPort) && ValidRoute(ToK8sRoute(c.tcp.routes[p]))
    ensures e.Some? ==> Fault(c, checks, e.value)
    ensures e.None? ==> seenPorts.Keys == c.tcp.routes.Keys
  {
    seenPorts := map[];
    var ports := c.tcp.routes.Keys;
    while ports != {}
      invariant ports <= c.tcp.routes.Keys && seenPorts.Keys == c.tcp.routes.Keys - ports
      invariant forall p | p in c.tcp.routes && p !in ports ::
                  LocalPortOk(p, httpPort) && ValidRoute(ToK8sRoute(c.tcp.routes[p]))
    {
      var p :| p in ports;
      e, seenPorts := ValidateLocalPort(p, httpPort, seenPorts, RoutesUser);
      if e.Some? {
        return;
      }
      var why := ValidateRouteBase(ToK8sRoute(c.tcp.routes[p]));
      if why.Some? {
        return Some(BadTcpRoute(p, why.value)), seenPorts;
      }
      ports := ports - {p};
    }
    e := None;
  }

  predicate JumpEntryOk(c: Config, checks: NameChecks, httpPort: Int64, p: Int64) {
    p in c.tcp.jump && LocalPortOk(p, httpPort) && ValidJump(c.tcp.jump[p], checks) && p !in c.tcp.routes
  }

  /** One turn of the loop over the jump routes. */
  method ValidateJumpRoute(c: Config, checks: NameChecks, httpPort: Int64, p: Int64, seen: map<Int64, PortUser>)
    returns (e: Option<Error>, seen': map<Int64, PortUser>)
    requires ExtractPort(c.http.listenAddr) == Some(httpPort)
    requires p in c.tcp.jump && (p in seen <==> p in c.tcp.routes)
    ensures e.None? <==> JumpEntryOk(c, checks, httpPort, p)
    ensures e.Some? ==> Fault(c, checks, e.value)
    ensures e.None? ==> seen' == seen[p := JumpUser]
  {
    e, seen' := ValidateLocalPort(p, httpPort, seen, JumpUser);
    if e.None? {
      var why := ValidateJump(c.tcp.jump[p], checks);
      if why.Some? {
        e := Some(BadJumpRoute(p, why.value));
      }
    }
  }

  method ValidateJumpRoutes(c: Config, checks: NameChecks, httpPort: Int64, seen: map<Int64, PortUser>)
    returns (e: Option<Error>)
    requires ExtractPort(c.http.listenAddr) == Some(httpPort) && seen.Keys == c.tcp.routes.Keys
    ensures e.None? <==> forall p | p in c.tcp.jump :: JumpEntryOk(c, checks, httpPort, p)
    ensures e.Some? ==> Fault(c, checks, e.value)
  {
    var seenPorts, ports := seen, c.tcp.jump.Keys;
    while ports != {}
      invariant ports <= c.tcp.jump.Keys
      invariant forall p | p in ports :: p in seenPorts <==> p in c.tcp.routes
      invariant forall p | p in c.tcp.jump && p !in ports :: JumpEntryOk(c, checks, httpPort, p)
    {
      var p :| p in ports;
      e, seenPorts := ValidateJumpRoute(c, checks, httpPort, p, seenPorts);
      if e.Some? {
        return;
      }
      ports := ports - {p};
    }
    return None;
  }

  method ValidateTCP(c: Config, checks: NameChecks) returns (e: Option<Error>)
    ensures e.None? <==> ValidTcp(c.tcp, c.http.listenAddr, checks)
    ensures e.Some? ==> Fault(c, checks, e.value)
  {
    if |c.tcp.routes| == 0 && |c.tcp.jump| == 0 {
      return None;
    }
    if c.tcp.idleTimeout < 0 {
      return Some(BadTcpIdleTimeout);
    }
    var httpPort := ExtractPort(c.http.listenAddr);
    if httpPort.None? {
      return Some(NoListenPort);
    }
    var seenPorts;
    e, seenPorts := ValidateTcpRoutes(c, checks, httpPort.value);
    if e.Some? {
      return;
    }
    e := ValidateJumpRoutes(c, checks, httpPort.value, seenPorts);
  }

  /**
   * Accepts exactly the valid configurations, in whatever order the maps are walked; when it refuses one,
   * the error it reports is a fault the configuration has.
   */
  method Validate(c: Config, checks: NameChecks) returns (e: Option<Error>)
    ensures e.None? <==> ValidConfig(c, checks)
    ensures e.Some? ==> Fault(c, checks, e.value)
  {
    if c.apiVersion != "" && c.apiVersion != CURRENT_API_VERSION {
      return Some(BadApiVersion);
    }
    if c.http.listenAddr == "" {
      return Some(NoListen);
    }
    if c.http.idleTimeout <= 0 {
      return Some(BadHttpIdleTimeout);
    }
    var hosts := c.http.routes.Keys;
    while hosts != {}
      invariant hosts <= c.http.routes.Keys
      invariant forall h | h in c.http.routes && h !in hosts :: ValidRoute(c.http.routes[h])
    {
      var h :| h in hosts;
      var why := ValidateRouteBase(c.http.routes[h]);
      if why.Some? {
        return Some(BadHttpRoute(h, why.value));
      }
      hosts := hosts - {h};
    }
    e := ValidateTCP(c, checks);
  }

  /** A fault in the sense of Fault is never in a valid configuration, so no valid one can be refused. */
  lemma FaultMeansInvalid(c: Config, checks: NameChecks, e: Error)
    requires Fault(c, checks, e)
    ensures !ValidConfig(c, checks)
  {
    match e
    case BadHttpRoute(h, why) => assert !ValidRoute(c.http.routes[h]);
    case BadTcpRoute(p, why) => assert p in c.tcp.routes && !ValidRoute(ToK8sRoute(c.tcp.routes[p]));
    case BadJumpRoute(p, why) => assert p in c.tcp.jump && !ValidJump(c.tcp.jump[p], checks);
    case _ => assert TcpUsed(c.tcp) || (c.tcp.routes == map[] && c.tcp.jump == map[]);
  }
}
