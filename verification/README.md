# autotunnel, verified

autotunnel is a lazy port-forward proxy for Kubernetes: a request for a hostname or a local TCP port makes it
start a tunnel, idle tunnels are swept, the configuration is reloaded while the program runs. This project
models the logic between its network and Kubernetes libraries in Dafny and proves what that logic keeps.
`dafny verify dfyconfig.toml` checks everything.

## How it is built

Code that updates fields in place is a class whose methods are proved against pure functions; the promises are
then proved about those functions, over all inputs, all runs or all interleavings.

| files | what they hold |
|---|---|
| `Tunnel`, `TunnelThreads`, `TunnelFailures`, `TunnelOrigins` | the tunnel state machine: whole calls on an object, and the same calls split at every lock release and channel operation for any number of threads; the two are connected by a refinement; what can go wrong, and exactly when; where the ports, errors and access times of a tunnel come from |
| `TunnelTable`, `ManagerEffects`, `TunnelLifetimes`, `ShutdownWindow`, `TunnelManager`, `HttpHandler` | the manager as a state machine with explicit time, over its locked operations, whole tunnel calls and whatever threads inside the tunnels do between them; its operations in terms of the configuration and the tunnels' fields; how long its tunnels live; a shutdown in its two halves; the manager object over tunnel objects that its holders also call, and the request handler that drives both |
| `LruList`, `CertCache`, `RecencyOrder`, `CertHistory`, `CertThreads`, `CertOrigin` | the linked list as a ring of nodes, the certificate cache over it, recency of a history as an independent definition, the cache over all histories, and over all interleavings, and where its certificates come from |
| `ClientHello`, `Streams`, `TlsHandler`, `HandlerOutcomes` | the SNI parser, a grammar and an encoder for its input, the client's bytes on their way through peek, first read, forward and replay, and the TLS handler, where parser, stream and tunnel protocol meet; the exact outcome of every connection and request |
| `Text`, `Config`, `DynamicRoute`, `TcpServer` | string operations with their laws, validation against a declarative predicate, hostnames that spell routes, the table of TCP listeners |
| `ConfigReload`, `ExecPath`, `ClientFactory` | the reload protocol with overlapping reloaders, PATH expansion over repeated calls, the double-checked client cache |

What the environment decides (a pod found or not, a forward ready, ended, cancelled or timed out, a port bound or
not, a certificate generated, a chunk of bytes arriving, the time) is a parameter or an arbitrary action.

## What the proofs show about the code

* `MarkFailed` on a Starting tunnel, and a late error of an older forward, take the tunnel out of Starting under
  its starter. Starters exclude each other in all states of a run exactly when neither happens. And exactly such a
  step makes each of three failures possible, then or later and without another one: a stop channel is closed twice;
  Running sits on a closed channel; the tunnel is Failed without an error, and a waiter returns nil although nothing
  ran. Before the first such step none of them can be reached. Whole calls that do not overlap need no condition.
* A handle that was dropped can still be started by a holder; there is a run from an empty manager to such a tunnel,
  and both shutdowns pass it by. The manager's own steps stop a running tunnel exactly when it is held and its side
  shuts down, or is swept while the tunnel is overdue. When nothing moves during the shutdowns, nothing runs after
  both of them exactly when no dropped handle was running before.
* Shutdown looks at the tunnels one by one before it replaces the map. A tunnel runs on when it is forgotten exactly
  when something started it after that look, as a start that was under way can, and nothing was done to it after.
* "Never idle for longer than the timeout plus one sweep period" holds from a moment at which a held tunnel runs
  exactly when it is within its timeout then. A handle that is made, left alone and started late, before anybody
  touches it, breaks it: unstarted handles are never swept, and Start does not touch. In every case the next period
  ends it.
* A request whose second attempt fails too leaves that handle running and held: only the first failure is marked, so
  the next request gets the same handle again.
* The first read of a TLS connection has room for 16384 bytes but gets at most the first chunk that arrives and at
  most the 4096 bytes of the buffered reader, although the comment at
  `internal/httpserver/tls_passthrough.go:19` promises enough. A well-formed ClientHello gets through exactly when it
  comes whole in that chunk and fits that buffer; a long one, and a short one split by the network, are refused.
  Nothing is lost in any case because 4096 is at most 16384.
* Two overlapping reloads can store their results in the wrong order; no token is lost, but the program comes to
  rest on the older file. The current configuration is the newest stored exactly when no store goes back. Once the
  loads are done it stays the newest, whatever happens, exactly when at most one version waits to be stored and that
  one is newer; so it always is if at most one reloader at a time is between its load and its store.
* A route survives printing as a hostname and parsing exactly when no separator hides in its parts. The parser accepts
  more than printed hostnames, and exactly this more: a plus and zeros in front of the port.
* PATH expansion is idempotent exactly when no candidate directory that exists has the list separator in its name.

## Model

| member | source | states |
|---|---|---|
| `Tunnel.RunsStaySettled` | internal/tunnel/tunnel.go:74-130 | in every run of whole calls, MarkFailed and late monitor errors included: between calls the state is neither Starting nor Stopping, and Running has an open stop channel and a local port |
| `Tunnel.StopChannelClosedOnce` | internal/tunnel/operations.go:43-54 | in every such run Stop and MarkFailed close the stop channel only while it is open, and leave the tunnel not Running |
| `Tunnel.LastAccessIsLastTouch` | internal/tunnel/operations.go:14-18 | only Touch moves the access time; it holds the time of the last Touch of the run, or of the creation when there is none |
| `Tunnel.StartTells` | internal/tunnel/port_forward.go:17-174 | which answer of the environment leaves which fields: running on the very port that was reported, idle because the caller gave up, or failed with the error that is returned; which of them close the new channel; a start never touches |
| `Tunnel.CallsTell` | internal/tunnel/tunnel.go:117-130 | Stop changes a Running tunnel only, MarkFailed a Running or Starting one, a late error any; each of them writes state, error and channel as the other rows rely on, and no other field |
| `Tunnel.Handle.Start` | internal/tunnel/tunnel.go:74-87 | one whole Start, for every way the forward can go, ends in the state and returns the error that the specification names, and keeps the object settled |
| `Tunnel.Handle.StartPortForward` | internal/tunnel/port_forward.go:17-174 | the same for the starter's part: each of the eight ways out, which fields it writes, and that closing the channel is legal there |
| `Tunnel.Handle.Stop` | internal/tunnel/tunnel.go:117-130 | only a Running tunnel is stopped: channel closed, Idle; everything else unchanged |
| `Tunnel.Handle.MarkFailed` | internal/tunnel/operations.go:43-54 | a Running or Starting tunnel becomes Failed with the error and a closed channel; other states are left alone |
| `Tunnel.Handle.Touch` | internal/tunnel/operations.go:14-18 | only the access time changes |
| `Tunnel.Handle.Report` | internal/tunnel/port_forward.go:177-189 | an error of a monitor makes the tunnel Failed with that error, in whatever state it is |
| `TunnelThreads.StepKeepsInvIff` | internal/tunnel/port_forward.go:118-189 | from a good state, a step of any thread keeps the whole invariant if and only if it is not a foreign exit from Starting |
| `TunnelThreads.OneStarterIff` | internal/tunnel/tunnel.go:74-87 | in a run of any number of threads, "exactly one thread is inside startPortForward iff the state is Starting" holds in all states if and only if only the starter leaves Starting |
| `TunnelThreads.ChannelsSafe` | internal/tunnel/port_forward.go:76-189 | under that condition: no double close, Stopping never visible at a lock release, Running has an allocated open channel and a port, Failed carries an error |
| `TunnelThreads.NoNilEnds` | internal/tunnel/port_forward.go:123-125 | under that condition ForwardPorts cannot return nil under a starter that still waits |
| `TunnelThreads.NilReturnExplained` | internal/tunnel/tunnel.go:89-115 | in every run, without any condition: a Start that returned nil, as starter or waiter and through any number of retries, saw the state Running with a port after it was called, or polled Failed while no error was recorded |
| `TunnelThreads.NilReturnSawRunning` | internal/tunnel/port_forward.go:123-125 | the first of the two, when no forward of the run returned nil under a starter that still waited |
| `TunnelThreads.StartReturnsNilAfterRunning` | internal/tunnel/tunnel.go:74-115 | the same from the condition that only the starter leaves Starting |
| `TunnelThreads.WaiterReleasedByFailedGetsError` | internal/tunnel/tunnel.go:104-108 | a waiter released by Failed gets the non-nil last error |
| `TunnelThreads.StartingIsNeverStuck` | internal/tunnel/port_forward.go:118-140 | while the state is Starting some starter has a next step, so waiters do not wait for nobody |
| `TunnelFailures.DoubleCloseIff` | internal/tunnel/port_forward.go:127-138 | from a good state, a step makes a double close of a stop channel reachable, without any further foreign exit, if and only if it is a foreign exit from Starting |
| `TunnelFailures.RunningOnClosedIff` | internal/tunnel/port_forward.go:155-158 | the same for Running on a closed stop channel, for a step that does not itself panic |
| `TunnelFailures.NilReleaseIff` | internal/tunnel/tunnel.go:104-108 | the same for Failed without an error, and for a waiter that it releases with nil |
| `TunnelFailures.DoubleCloseRunIff` | internal/tunnel/operations.go:43-54 | over a whole run of any number of threads: a double close is reachable from some state of it, without any further foreign exit, if and only if the run holds a foreign exit |
| `TunnelFailures.MarkFailedPanicsIff` | internal/tunnel/operations.go:43-54 | from a good state MarkFailed panics exactly when a restart has not yet replaced a closed stop channel |
| `TunnelFailures.MarkFailedWhileStartingClosesTwice` | internal/tunnel/port_forward.go:134-138 | a run in which MarkFailed and then the starter's time-out close one channel twice |
| `TunnelFailures.MarkFailedWhileStartingRunsOnClosedChannel` | internal/tunnel/port_forward.go:155-158 | a run in which Failed is overwritten by Running on a closed channel |
| `TunnelFailures.MarkFailedWhileStartingReleasesWaiterWithNil` | internal/tunnel/tunnel.go:107-108 | a run in which a waiter returns nil although no forward ever ran |
| `TunnelThreads.StartIsUninterruptedRun` | internal/tunnel/port_forward.go:17-174 | the whole-call Start is the fine-grained run of one thread that nobody interrupts: same fields, same returned error, no panic |
| `TunnelThreads.AtomicCallsAgree` | internal/tunnel/tunnel.go:117-130 | Stop, MarkFailed and Touch mean the same in both models while nobody is starting |
| `TunnelThreads.LateReportAgrees` | internal/tunnel/port_forward.go:177-189 | a late monitor error means the same in both models |
| `TunnelOrigins.PortWasReported` | internal/tunnel/port_forward.go:142-158 | in every interleaving a port the tunnel has was reported, as it is, by a forward that had become ready |
| `TunnelOrigins.ErrorWasDelivered` | internal/tunnel/port_forward.go:118-189 | in every interleaving an error that is recorded, or that a Start returns, was delivered before by the action that stands for it: nothing is made up and nothing mixed up |
| `TunnelOrigins.LastAccessIsLastTouch` | internal/tunnel/operations.go:14-18 | in every interleaving the access time is that of the last touch, or of the creation |
| `TunnelTable.RunKeepsInv` | internal/tunnelmgr/operations.go:11-49 | over every run of gets, sweeps, shutdowns whole or in halves, tunnel calls, and arbitrary steps of threads inside the tunnels: each key holds at most one handle, built for that key from its route; every handle ever made is held or dropped, never both |
| `TunnelTable.RunKeepsCalm` | internal/tunnel/tunnel.go:74-130 | runs of whole calls also keep every tunnel settled |
| `TunnelTable.EmptyInv` | internal/tunnelmgr/manager.go:45-56 | a new manager satisfies the invariants that RunKeepsInv and RunKeepsCalm start from |
| `TunnelTable.RunContinues` | internal/tunnelmgr/manager.go:27-43 | no run takes back a handle made or dropped, changes what a handle was built for, or turns its access time back |
| `TunnelTable.GetReturnsTheKeysHandle` | internal/tunnelmgr/operations.go:11-49 | a get succeeds exactly when the key has a usable handle, or a route and a client; it returns that key's handle, not failed or stopping, possibly starting, and just touched, either the old one or a new one; on error the key holds nothing, and which error is exact. Which keys have which route: ManagerEffects.GetMakesForRoute and GetNoRouteIff |
| `ManagerEffects.GetFindsIff` | internal/tunnelmgr/operations.go:15-24 | a get gives back the handle its key holds, changed in its access time only, if and only if that one is Idle, Starting or Running |
| `ManagerEffects.GetMakesForRoute` | internal/tunnelmgr/operations.go:26-48 | without such a handle and with a client, a get makes an idle untouched one whose route is the static route of the hostname, or else the route the hostname names; for a port all fields of its entry, scheme tcp; without a client the error says so |
| `ManagerEffects.PrintedHostIsRouted` | internal/tunnelmgr/operations.go:27-36 | for every valid unambiguous route, a get of its printed hostname, if that is not static, makes a handle for exactly that route |
| `ManagerEffects.GetNoRouteIff` | internal/tunnelmgr/operations.go:27-39 | there is no route if and only if the hostname is neither static nor names a route, or the port is not configured, and no usable handle is held |
| `ManagerEffects.PortHasRouteIff` | internal/tunnelmgr/tcp_operations.go:25-28 | a port has a route if and only if it is configured |
| `ManagerEffects.GetLeavesOthers` | internal/tunnelmgr/operations.go:11-49 | a get leaves every other key and every handle but the returned one as they were |
| `TunnelTable.DroppedNeverReturned` | internal/tunnelmgr/operations.go:15-24 | in every run, a handle once dropped is never returned again |
| `TunnelTable.HandleRoute` | internal/tunnelmgr/operations.go:26-45 | in every reachable table a handle's route is the static route of its hostname if there is one, else the parts its hostname spells; for a port, the port's configured route |
| `TunnelTable.HandlesTargetValidRoutes` | internal/tunnelmgr/operations.go:26-45 | with a validated configuration every handle ever made targets a valid route, static or spelled in its hostname |
| `TunnelTable.StepDropsIff` | internal/tunnelmgr/operations.go:72-107 | a step drops a held handle if and only if it shuts its side down, gets its key and finds it failed, or sweeps its side while it is Running and idle beyond its timeout; the timeouts are those of ManagerEffects.SweepDropsIff |
| `ManagerEffects.SweepDropsIff` | internal/tunnelmgr/operations.go:72-107 | a sweep takes a running handle of its side if and only if that is idle for longer than the HTTP timeout, for a hostname; than the TCP timeout, for a port, or the HTTP one when the TCP one is 0 |
| `ManagerEffects.TouchedSurvivesSweep` | internal/tunnelmgr/operations.go:76-98 | with a validated configuration no sweep takes a handle at the moment it is touched |
| `TunnelTable.RunningWhenDroppedIff` | internal/tunnelmgr/manager.go:73-91 | a handle is Running at the moment it is dropped if and only if the step is the second half of a shutdown and it was Running then; sweeps, gets and uninterrupted shutdowns drop no Running handle |
| `ManagerEffects.ShutdownEmptiesItsSide` | internal/tunnelmgr/manager.go:69-91 | a shutdown forgets exactly the keys of its side, leaves what ran there Idle on a closed channel, and touches no field of anything else |
| `TunnelTable.SweepStopsWhatItRemoves` | internal/tunnelmgr/operations.go:72-107 | what a sweep removes is Idle, its channel not open (closed, for a settled tunnel); every other handle is unchanged |
| `TunnelTable.MadeIsHeldPlusDropped` | internal/tunnelmgr/manager.go:69-97 | number of handles made = held + dropped |
| `TunnelLifetimes.HandleInUseSurvives` | internal/tunnelmgr/operations.go:72-85 | a held handle stays held in every run that ends by its last access plus its timeout, unless its side shuts down or a get of its key finds it failed |
| `TunnelLifetimes.IdleRunIsBounded` | internal/tunnelmgr/operations.go:51-70 | with a sweep in every period, a held tunnel that runs untouched is stopped at most one period after its timeout, or after the moment it was found running if that is later |
| `TunnelLifetimes.StopsWithinOnePeriod` | internal/tunnelmgr/operations.go:51-70 | so if it is within its timeout when the run starts, it is never idle for longer than its timeout plus one period |
| `TunnelLifetimes.StopsWithinOnePeriodIff` | internal/tunnelmgr/operations.go:51-70 | from a moment at which a held tunnel runs, all swept runs keep it idle for at most timeout plus one period if and only if it is within its timeout at that moment |
| `TunnelLifetimes.LateStartIsOverdue` | internal/tunnelmgr/operations.go:76-78 | a run from an empty manager, with a sweep in every period, to a held tunnel running idle beyond its timeout plus one period: it was started late and not touched |
| `TunnelLifetimes.ManagerStopsIff` | internal/tunnelmgr/operations.go:72-107 | a step of the manager ends a running tunnel if and only if it is held and the step shuts its side down, is Shutdown's look at it, or sweeps it while the tunnel is overdue |
| `TunnelLifetimes.RunsAfterShutdownIff` | internal/tunnelmgr/manager.go:69-97 | when nothing moves meanwhile, a tunnel runs after both shutdowns if and only if it ran before and its handle had been dropped |
| `TunnelLifetimes.NothingRunsAfterShutdownIff` | internal/tunnelmgr/manager.go:69-97 | when nothing moves meanwhile, nothing runs after both shutdowns if and only if no dropped handle was running before |
| `TunnelLifetimes.DroppedHandleOutlivesShutdown` | internal/tunnelmgr/manager.go:73-91 | a run from an empty manager in which a swept handle is started again by its holder and runs on after both shutdowns |
| `ShutdownWindow.RunsThroughShutdownIff` | internal/tunnelmgr/manager.go:73-80 | Shutdown in its two halves, with tunnel calls and threads of all tunnels moving in between: a held tunnel is Running when its handle is dropped if and only if something started it after Shutdown looked at it and nothing was done to it after that |
| `ShutdownWindow.StartOutrunsShutdown` | internal/tunnelmgr/manager.go:73-80 | a run from an empty manager in which a start is under way at the look and done before the map is replaced: the dropped tunnel runs |
| `ShutdownWindow.ThreadStepsAreCovered` | internal/tunnel/port_forward.go:118-189 | every lock-grain step of a tunnel's threads, as in TunnelThreads, is a step of the manager's runs, so the laws over runs hold in all those interleavings |
| `TunnelLifetimes.DroppedIsLeftAlone` | internal/tunnelmgr/operations.go:72-107 | after a handle was dropped nothing but its holders changes it, in any run |
| `TunnelLifetimes.DroppedHandleRunsUnswept` | internal/tunnelmgr/operations.go:76-84 | started by a holder after it was dropped, a tunnel stays Running through every later run of the manager |
| `TunnelLifetimes.FailedIsNotReturned` | internal/tunnelmgr/operations.go:15-24 | after MarkFailed no get returns the handle until somebody starts it again |
| `TunnelManager.Manager.GetOrCreateTunnel` | internal/tunnelmgr/operations.go:11-49 | the maps, all tunnels and the returned handle are those of the specification of a get, error cases included, so what ManagerEffects says of gets holds of it; the handle carries the hostname |
| `TunnelManager.Manager.GetOrCreateTCPTunnel` | internal/tunnelmgr/tcp_operations.go:10-58 | the same for a local port |
| `TunnelManager.PortNamesDiffer` | internal/tunnelmgr/tcp_operations.go:40-42 | the name of a port's tunnel is "tcp:" and a decimal spelling of the port, so different ports have different names |
| `TunnelManager.Manager.CleanupIdleHTTPTunnels` | internal/tunnelmgr/operations.go:72-85 | in any map order the loop leaves exactly the state of a sweep of the HTTP side |
| `TunnelManager.Manager.CleanupIdleTCPTunnels` | internal/tunnelmgr/operations.go:87-107 | the same for the TCP side, with the timeout that ManagerEffects.SweepDropsIff states |
| `TunnelManager.Manager.Shutdown` | internal/tunnelmgr/manager.go:69-97 | both maps are empty, every running handle they held is stopped, dropped handles are left as they are, and so is the rest |
| `HttpHandler.ReachedRuns` | internal/httpserver/http_handler.go:26-41 | get, start and touch lead to a tunnel that is held for the host, Running, with a port and an open channel, and touched now |
| `HttpHandler.ReachedAfresh` | internal/httpserver/http_handler.go:48-59 | after a handle was marked failed the next get drops it and, if it succeeds, makes a new one |
| `HttpHandler.RetryUsesFreshHandle` | internal/httpserver/http_handler.go:16-76 | a request is proxied at most twice; the second time on a new running handle, while the first is dropped and stays failed with the proxy error and a closed channel |
| `HttpHandler.ResponseTellsTheHandle` | internal/httpserver/http_handler.go:26-75 | each response goes with a state of the host's handle: no handle held, one that did not start (Failed, or Idle when the client gave up), or the last tried one running; a second proxy error leaves its handle running |
| `HttpHandler.SecondFailureIsKept` | internal/httpserver/http_handler.go:71-75 | after two proxy errors the next get of the host returns the second handle again |
| `HttpHandler.TwoFailuresHappen` | internal/httpserver/http_handler.go:43-75 | from a new manager, for every host with a route, there is a request with two failed attempts |
| `HttpHandler.InterleavedRetryUsesFreshHandle` | internal/httpserver/http_handler.go:48-59 | whatever other requests, sweeps and monitors do between the failure mark and the second get: unless somebody starts the failed handle again, the second get drops it and gives another one, held for the host and usable |
| `HttpHandler.Server.ServeHTTP` | internal/httpserver/http_handler.go:16-76 | the handler on the manager and tunnel objects ends in the state, gives the response and tries the handles of the specification |
| `HttpHandler.HostOfIs` | internal/httpserver/http_handler.go:17-20 | the host that is looked up is what stands before the last colon, or the whole |
| `HandlerOutcomes.ReachedIff` | internal/httpserver/http_handler.go:26-41 | a host is reached if and only if its tunnel runs already, or can be got (held, or a route and a client) and the start becomes ready; which handle, on which port, touched when; and the error of a start that fails |
| `HandlerOutcomes.ResponseIff` | internal/httpserver/http_handler.go:16-76 | which response a request gets, from configuration, table and environment alone: proxied if and only if the first attempt works, or its backend fails and the second, on a new handle, works; each error with the stage that failed, and the error it carries |
| `LruList.List.MoveToFront` | internal/httpserver/tls_error_cert.go:82-84 | on the ring of nodes: the element moves to the front, the others keep their order, links stay well formed |
| `LruList.List.PushFront` | internal/httpserver/tls_error_cert.go:119 | a new element in front, links well formed |
| `LruList.List.Remove` | internal/httpserver/tls_error_cert.go:113 | exactly that element leaves the list |
| `LruList.List.Back` | internal/httpserver/tls_error_cert.go:109 | the last element, or null for an empty list |
| `CertCache.AgreeIsBijective` | internal/httpserver/tls_error_cert.go:34-37 | map and list hold the same elements, each under its own hostname, no hostname twice |
| `CertCache.Provider.Lookup` | internal/httpserver/tls_error_cert.go:79-89 | first lock section: map, list and returned certificate are those of the recency sequence |
| `CertCache.Provider.Evict` | internal/httpserver/tls_error_cert.go:107-115 | a full cache loses exactly its last entry, from both map and list |
| `CertCache.Provider.Insert` | internal/httpserver/tls_error_cert.go:97-122 | second lock section: double check, eviction and insertion as on the recency sequence; what it caches and returns is stated by CertOrigin.CompleteTells |
| `CertCache.Provider.GetCertificate` | internal/httpserver/tls_error_cert.go:78-123 | one uninterrupted call: a hit, a failed generation that changes nothing, or a generation and an insertion |
| `CertCache.Provider.GetTwice` | internal/httpserver/tls_error_cert.go:78-123 | two calls in a row for one host: the first certificate is returned again, whatever the second would have generated; a host that was not cached gets what its call generated |
| `CertCache.NewTLSErrorCertProvider` | internal/httpserver/tls_error_cert.go:70-75 | an empty cache for 1000 entries |
| `RecencyOrder.ByRecencyIsOrdered` | internal/httpserver/tls_error_cert.go:34-36 | the reversed, de-duplicated history lists every host once, each used later than all that follow |
| `CertHistory.CacheIsMostRecent` | internal/httpserver/tls_error_cert.go:78-123 | for every history of lock sections and every capacity of at least 1, the cached hosts are exactly the first capacity hosts of the reversed, de-duplicated history |
| `CertHistory.EvictsLeastRecentlyUsed` | internal/httpserver/tls_error_cert.go:107-115 | the host that a lock section drops was last used before every other cached host |
| `CertHistory.StackInclusion` | internal/httpserver/tls_error_cert.go:107-115 | on the same uses a smaller cache holds a prefix of what a larger one holds |
| `CertThreads.RunIsHistory` | internal/httpserver/tls_error_cert.go:79-122 | every interleaving of calls is a history of lock sections with the same cache |
| `CertThreads.InterleavedCacheIsMostRecent` | internal/httpserver/tls_error_cert.go:79-122 | in every interleaving the cache is the most recent hosts in order, each once, never more than the capacity |
| `CertThreads.OneCertPerResidence` | internal/httpserver/tls_error_cert.go:101-105 | any two calls for a host that return between its insertion and its eviction return the same certificate, even when several generated one |
| `CertOrigin.LookTells` | internal/httpserver/tls_error_cert.go:79-89 | the first lock section returns a certificate that is cached for the host if there is one, and loses nothing |
| `CertOrigin.CompleteTells` | internal/httpserver/tls_error_cert.go:97-122 | the second lock section returns and caches, in front, the certificate its own thread generated if the host is not cached; else it returns the cached one and drops nothing |
| `CertOrigin.CertsWereGenerated` | internal/httpserver/tls_error_cert.go:78-123 | in every interleaving each certificate cached or returned for a host was generated before, by a call for that same host |
| `CertOrigin.ReturnedWasGenerated` | internal/httpserver/tls_error_cert.go:78-123 | so every return of a certificate comes after its generation for that host |
| `ClientHello.FindSNIInExtensions` | internal/httpserver/tls_passthrough.go:161-190 | the cursor loop stays in range, ends, and computes the scan of the extensions |
| `ClientHello.ExtractSNI` | internal/httpserver/tls_passthrough.go:85-97 | on arbitrary bytes the parser answers what the three stages specify |
| `ClientHelloGrammar.ParserInvertsEncoder` | internal/httpserver/tls_passthrough.go:85-190 | for every well-formed single-record ClientHello (section 4.1.2 of RFC 8446, section 3 of RFC 6066) and any trailing bytes: the first name of its first server_name extension, whatever its name type, and an error when it has no such extension |
| `ClientHelloGrammar.ParsesExactlyTheGrammar` | internal/httpserver/tls_passthrough.go:85-190 | the parser returns a name if and only if the input follows the grammar with that name: record length not cut, handshake length and name type ignored, as in the code |
| `ClientHelloGrammar.SuccessIsPrefixStable` | internal/httpserver/tls_passthrough.go:85-190 | if it succeeds on some bytes it succeeds with the same name on any longer input |
| `ClientHelloGrammar.NameIsSlice` | internal/httpserver/tls_passthrough.go:173-183 | a returned name is a contiguous slice of the input, as long as the two bytes before it declare |
| `Streams.RawContinuationIff` | internal/httpserver/tls_passthrough.go:20-21 | however the network splits the bytes: after a peek and one read, the raw connection continues the stream if and only if the read was at least as large as what the peek had buffered |
| `Streams.FirstReadKeepsTheStream` | internal/httpserver/tls_passthrough.go:74-80 | with the source's sizes nothing is lost, duplicated or reordered, forwarded or replayed; the read gets at most 4096 bytes and is empty only on an empty stream |
| `Streams.FirstReadNameIsTheStreams` | internal/httpserver/tls_passthrough.go:21-31 | a name found in the first read is the name the whole stream carries |
| `Streams.HelloGetsThroughIff` | internal/httpserver/tls_passthrough.go:20-31 | for every well-formed hello, whatever follows it and however the network splits the connection: the first read is answered with the hello's first name (or its want of one) if and only if the hello comes whole in the first chunk and is at most 4096 bytes |
| `Streams.LongHelloIsRefused` | internal/httpserver/tls_passthrough.go:19-31 | a well-formed hello with a name that is refused although it arrives in one chunk |
| `Streams.SplitHelloIsRefused` | internal/httpserver/tls_passthrough.go:21 | a well-formed short hello with a name that is refused because it arrives in two chunks |
| `Streams.LongRecordIsRefused` | internal/httpserver/tls_passthrough.go:111-114 | on arbitrary bytes: a declared record longer than the reader's buffer is never parsed, however it arrives |
| `Streams.BufferedPrefix` | internal/httpserver/mux_listener.go:20-22 | any sequence of buffered reads, as plain HTTP makes them, gives the stream in order |
| `Streams.PeekConn.IsTLS` | internal/httpserver/mux_listener.go:28-35 | true if and only if the stream is not empty and its first byte is 0x16; nothing is consumed |
| `Streams.PeekIsFirst` | internal/httpserver/mux_listener.go:24-26 | a peek shows the first byte of the stream, if there is one, and takes nothing |
| `Streams.PeekConn.Read` | internal/httpserver/mux_listener.go:20-22 | the buffer object reads what the reader's specification says: buffered bytes, one fill, or one direct large read; the rest of the caller's buffer is untouched |
| `Streams.ReadClientHello` | internal/httpserver/tls_passthrough.go:20-31 | the bytes read and those left on the raw connection make up the stream, and the name is that of the bytes read |
| `Streams.ReplayedPrefix` | internal/httpserver/tls_error_handler.go:101-119 | for every sequence of buffer sizes the reads concatenate to a prefix of initial ++ rest, and k reads with room give at least k bytes or everything |
| `Streams.ReplayConn.Read` | internal/httpserver/tls_error_handler.go:107-119 | one read of the object: the replay's fields, the bytes copied, and the connection as specified |
| `TlsHandler.HandledOk` | internal/httpserver/tls_passthrough.go:31-71 | the manager's invariant is kept; without a name nothing in it changes; a forwarded connection, or one whose write fails, has a running tunnel held for its name; after a failed dial the handle is failed with that error and a closed channel; after a start that failed it is held and did not start; without a route nothing is held |
| `TlsHandler.NameOfKeepsBytes` | internal/httpserver/tls_passthrough.go:183 | the hostname that is looked up has exactly the bytes of the name in the hello, so different names stay different |
| `HandlerOutcomes.ConnectionOutcomeIff` | internal/httpserver/tls_passthrough.go:13-81 | the exact outcome of every connection, from the hello, configuration, table and environment alone: forwarded if and only if there is a name, its tunnel runs or can be got and started, and neither the dial nor the write fails; each of the five pages if and only if its stage is the first to fail |
| `HandlerOutcomes.RoutedHostIsForwarded` | internal/httpserver/tls_passthrough.go:38-80 | a host with a route, a client, and a forward, dial and write that succeed is forwarded, on a new handle with that route that runs on the reported port |
| `TlsHandler.ConnectionIsPassedOn` | internal/httpserver/tls_passthrough.go:13-81 | however the network splits a connection, the backend, or the error page through its replay, sees the client's whole stream, and only a tunnel for the name in that whole stream gets it |
| `TlsHandler.NamePageIff` | internal/httpserver/tls_passthrough.go:31-36 | a client whose hello names a host gets the page for a missing name if and only if its hello did not come whole in the first chunk or is longer than the buffer |
| `TlsHandler.StatusTells` | internal/httpserver/tls_error_handler.go:22-31 | an error page has status 400 exactly when no name was found, 404 exactly when the name has no handle afterwards, else 502 |
| `TlsHandler.NextRequestIsFresh` | internal/httpserver/tls_passthrough.go:62-70 | after a failed dial the next request for the host, over TLS or HTTP, gets a new handle or none |
| `TlsHandler.HandleTLSConnection` | internal/httpserver/tls_passthrough.go:13-81 | the handler on the connection, manager and tunnel objects reads, decides and ends as specified, so HandlerOutcomes.ConnectionOutcomeIff holds of it |
| `Text.AtoiInvertsItoa` | internal/tunnelmgr/dynamic_route.go:69-72 | decimal printing and strconv.Atoi are inverse on the ports; on all strings see AtoiIff |
| `Text.AtoiIff` | internal/tunnelmgr/dynamic_route.go:69-72 | on every string: strconv.Atoi reads n if and only if the string is a sign that fits, any number of zeros, and the printed absolute value of n, with n in the 64-bit range |
| `Text.AtoiRefusesIff` | internal/tunnelmgr/dynamic_route.go:69-72 | it refuses exactly the strings that spell no number in range |
| `DynamicRoute.ParsesExactlyTheNames` | internal/tunnelmgr/dynamic_route.go:10-88 | on every hostname: the parser returns a route if and only if that is valid and unambiguous, has the caller's scheme, and the hostname spells its parts, its port in some decimal spelling |
| `DynamicRoute.RefusesIff` | internal/tunnelmgr/dynamic_route.go:10-88 | it refuses exactly the hostnames that name no route |
| `DynamicRoute.NamesOneRoute` | internal/tunnelmgr/dynamic_route.go:10-88 | no hostname names two routes |
| `DynamicRoute.PortPartDecides` | internal/tunnelmgr/dynamic_route.go:57-72 | with parts that hide no separator, a hostname is accepted if and only if its port part is a decimal spelling of a port from 1 to 65535, and the route has that port |
| `DynamicRoute.RoundTripIff` | internal/tunnelmgr/dynamic_route.go:10-88 | printing a valid route and parsing it gives the route back if and only if no separator hides in its context, namespace or pod name; any port from 1 to 65535 |
| `DynamicRoute.ParsedRouteIsSpelled` | internal/tunnelmgr/dynamic_route.go:18-87 | an accepted hostname is the concatenation of the route's parts and the separators, up to a plus and zeros in front of the port, and the route is valid with the caller's scheme |
| `DynamicRoute.ParsedRouteIsCanonical` | internal/tunnelmgr/dynamic_route.go:13-88 | every route the parser returns is valid and unambiguous, and its printed form parses to it again |
| `DynamicRoute.SomeRoutesDoNotRoundTrip` | internal/tunnelmgr/dynamic_route.go:27-33 | a valid route, with ".ns." in its context, that is read as another one |
| `Config.ValidateRouteBase` | internal/config/validate.go:71-88 | accepts exactly the valid routes; a reported fault is one the route has |
| `Config.ValidateJump` | internal/config/validate.go:161-208 | accepts exactly the valid jump routes; a reported fault is one the route has |
| `Config.ValidateLocalPort` | internal/config/validate.go:56-68 | accepts exactly an unused port in range that is not the HTTP port, and records only that |
| `Config.ValidateTCP` | internal/config/validate.go:119-212 | accepts exactly the valid TCP parts, in any map order, with route and jump ports disjoint |
| `Config.Validate` | internal/config/validate.go:90-117 | accepts a configuration if and only if it satisfies the declarative predicate, so the verdict does not depend on map order; the error is a fault it has |
| `Config.FaultMeansInvalid` | internal/config/validate.go:90-212 | no valid configuration has any of the faults that can be reported |
| `Config.ExtractPortIff` | internal/config/validate.go:214-226 | an address has the port p if and only if it is a host, a colon and a decimal spelling of p without a colon |
| `TcpServer.Server.StartListener` | internal/tcpserver/server.go:72-104 | succeeds exactly when the port can be bound; then the table gains that port with its kind, else nothing changes |
| `TcpServer.Server.Start` | internal/tcpserver/server.go:54-70 | all or nothing: the table is exactly the route and jump ports with their kinds, or empty with every listener closed and every port free; which of the two is exact |
| `TcpServer.Server.Shutdown` | internal/tcpserver/server.go:202-215 | closes every listener of the table once, empties it, and touches no listener closed before |
| `TcpServer.ValidConfigCanListen` | internal/config/validate.go:138-159 | on a validated configuration Start fails only for ports the host will not bind: its own ports never collide, nor meet the HTTP port |
| `TcpServer.StartThenShutdowns` | internal/tcpserver/server.go:202-215 | a start and any number of shutdowns: each stop channel is closed exactly once and all ports are free |
| `ConfigReload.StepKeepsInv` | internal/watcher/watcher.go:109-134 | every step of any number of overlapping reloaders and of the run loop keeps the protocol's invariant |
| `ConfigReload.NoReloadLost` | main.go:90-127 | whenever the run loop waits with a configuration other than the current one, the token is there or a reloader is between its store and its send |
| `ConfigReload.LoadsAreConserved` | internal/watcher/watcher.go:126-133 | successful loads = restarts + token + unsent + coalesced + not yet stored; so restarts never outnumber loads |
| `ConfigReload.RunningConfigIsValid` | main.go:159-176 | what runs passed validation and is the decoded file with the command line's verbose flag kept |
| `ConfigReload.VersionsAreDecoded` | internal/watcher/watcher.go:109-124 | the versions of a run are the files it decoded, each as it was, in order |
| `ConfigReload.ReloadTakesEffect` | internal/watcher/watcher.go:115-133 | one whole reload makes the decoded file, with the flag kept, the current configuration under a new version and leaves a token |
| `ConfigReload.ComesToRest` | internal/watcher/watcher.go:109-134 | with no new events everything comes to rest within a number of steps that is known beforehand |
| `ConfigReload.RestsOnCurrent` | main.go:116-126 | exactly the quiet states have no step left, and in them the run loop runs the current configuration |
| `ConfigReload.NewestIff` | internal/watcher/watcher.go:122-124 | in a run, the current configuration is always the newest stored if and only if no store goes back to an older one |
| `ConfigReload.StartsNewest` | internal/watcher/watcher.go:28-50 | the state at the program's start, with a validated file, satisfies everything these results ask of the first state of a run |
| `ConfigReload.ApartKeepsNewest` | internal/watcher/watcher.go:109-124 | as long as at most one reloader at a time is between its load and its store, no store goes back and the current configuration is always the newest, however many reloads there are |
| `ConfigReload.StaysNewestIff` | internal/watcher/watcher.go:109-124 | from a state whose current configuration is the newest, every run without a further load keeps it so if and only if at most one version waits to be stored, and that one is newer than the current one |
| `ConfigReload.RestsOnNewest` | internal/watcher/watcher.go:122-124 | at rest after such a run the program runs the newest configuration loaded |
| `ConfigReload.OverlapCanRestOnOlder` | internal/watcher/watcher.go:94-96 | a run of two overlapping reloads that comes to rest on the older file |
| `ConfigReload.ConfigWatcher.ReloadConfig` | internal/watcher/watcher.go:109-134 | one whole reload: a failed load changes nothing, another one stores a new object with the verbose flag and leaves a token |
| `ConfigReload.ReloadIsUninterruptedRun` | internal/watcher/watcher.go:109-134 | the whole reload is the run of one reloader that nobody interrupts |
| `ConfigReload.Program.InitializeApp` | main.go:159-176 | runs the watcher's current object and sets the verbose flag on that shared object |
| `ConfigReload.Program.AwaitReload` | main.go:116-126 | restarts exactly when there is a token, takes it, and then runs the current configuration |
| `ExecPath.JoinInvertsSplit` | internal/config/execpath.go:56-58 | joining a split list gives it back |
| `ExecPath.SplitInvertsJoin` | internal/config/execpath.go:85 | splitting joined entries gives them back when none holds the separator |
| `ExecPath.ExtendTwiceIff` | internal/config/execpath.go:51-91 | expansion is idempotent if and only if no candidate that exists holds the separator |
| `ExecPath.ExtendCovers` | internal/config/execpath.go:62-81 | after a call every candidate that exists is an entry of PATH |
| `ExecPath.CandidateIff` | internal/config/execpath.go:13-46 | the candidates are exactly the user's paths, expanded, the directories of the operating system, and two in the home directory if there is one |
| `ExecPath.TildeExpands` | internal/config/execpath.go:93-102 | a tilde in front stands for the home directory if there is one; every other path is taken as it is |
| `ExecPath.RunAttaches` | internal/config/execpath.go:83-90 | any sequence of calls amounts to prepending its added entries once, the later ones first |
| `ExecPath.OriginalStaysBehind` | internal/config/execpath.go:83-90 | over any sequence of calls the original PATH stays a suffix, and the entries are the added ones followed by the original ones |
| `ExecPath.AddedAreNew` | internal/config/execpath.go:62-81 | every entry a sequence of calls adds exists and is not in the original PATH |
| `ExecPath.AddedOnce` | internal/config/execpath.go:66-69 | no entry is added twice over any sequence of calls |
| `ExecPath.UserEntriesFirst` | internal/config/execpath.go:62-81 | within one call the new user entries come first, then the defaults that are not among them |
| `ExecPath.ExpandExecPath` | internal/config/execpath.go:51-91 | the two loops compute the expansion: existing candidates only, each once, in order |
| `ClientFactory.OneBuildBetweenClears` | internal/k8sutil/client.go:46-80 | in every interleaving, between two builds for one context there is a Clear |
| `ClientFactory.ReturnsAgree` | internal/k8sutil/client.go:35-80 | in every interleaving, calls for a context with no Clear and no InjectClient of it between them return the same client, whatever each would have built |
| `ClientFactory.SlowLookTells` | internal/k8sutil/client.go:47-80 | under the write lock: a cached client is returned, else a build is cached and returned, else nothing changes |
| `ClientFactory.ReturnedAfterClear` | internal/k8sutil/client.go:83-87 | in every interleaving a client returned after a Clear was built, or injected, for its context after that Clear |
| `ClientFactory.InjectedIsReturned` | internal/k8sutil/client.go:90-97 | an injected client is what calls for its context return until the next Clear or injection |
| `ClientFactory.Factory.GetClientForContext` | internal/k8sutil/client.go:35-80 | a cached client is returned unchanged, a failed build changes nothing, another one is cached and returned |

## Left out

- client-go, SPDY, `portforward`, `remotecommand`, jump pods and their exec sessions: foreign code; their answers are the outcomes of the model.
- Key and certificate generation, the CA: a certificate is an arbitrary identity or an error.
- Reverse proxying, headers, error page text, logging, printing: no logic beyond what the handlers' responses say.
- `BidirectionalCopy`, half-close and socket deadlines: after the first read the raw connection is any sequence of reads.
- YAML decoding, default configuration, file reads and kubeconfig path resolution: the model starts from decoded configurations.
- fsnotify, renames and the debounce timer: any number of timers may fire at any time; `time.AfterFunc` does not wait for a reload that has begun.
- IsValidTargetHost and IsValidImageName: arbitrary predicates on strings.
- FindReadyPod, ResolveServicePort, ResolveNamedPort: single-pass searches inside one outcome of a start.
- The TCP connection handler as a client of the manager: the same get, start, fail and touch steps as the TLS handler, on a port.
- TlsHandler.HandleTLSConnection: read deadlines, and a connection that fails between the peek and the read, are not part of this model.
- Tunnel.Handle.Start: the stop channel is absent, open or closed, without identity, and the call is one step; identities and interleavings are in TunnelThreads. readyChan is the outcome Ready.
- TunnelThreads.StepKeepsInvIff: the assignments to stopChan and readyChan, made without the lock, are one step with the call that makes them; Go's memory model is not part of this model.
- TunnelTable.StepDropsIff: a sweep, and the look and touch of a get, are one step each: no thread moves a tunnel inside them, and a sweep reads the clock once.
- TunnelLifetimes.NothingRunsAfterShutdownIff: for shutdowns during which no tunnel moves; ShutdownWindow has the others.
- TunnelTable.GetReturnsTheKeysHandle: the client factory is a yes or no here; ClientFactory has its cache. The kubeconfig fallback of TCP routes is not part of this model.
- HttpHandler.RetryUsesFreshHandle: no other request moves during the request; InterleavedRetryUsesFreshHandle has the retry among others, and the manager's laws hold for all runs. A proxy error that the source ignores because the request was cancelled counts as no error.
- HttpHandler.Server.ServeHTTP: one request that nobody interrupts; the times and answers of the environment are arguments.
- TunnelManager.Manager.Shutdown: cancelling the sweep loop, waiting for it, and clearing the client factory are not part of this model; ClientFactory has the clearing.
- Streams.PeekConn.IsTLS: only a peek of one byte, the only one the source makes; read errors other than the end of the stream are that end.
- ClientHelloGrammar.ParserInvertsEncoder: hellos that fit one record; a hello split over several records is outside what the parser supports.
- ConfigReload.NoReloadLost: exit signals, server errors and the wait before a restart end or delay runs and are left out, as is the case of no watcher.
- ExecPath.ExpandExecPath: the file system, the home directory and filepath.Join are fixed functions; the default directories of systems other than Darwin and Linux are those of the default branch.
- TcpServer.Server.Start: accept loops, wait groups and the cancelled context are not part of this model; the HTTP listener is a port in use of the host.
- DynamicRoute.RoundTripIff: strings are sequences of characters; Atoi is that of a 64-bit int.
