/**
 * Any number of concurrent GetCertificate calls, split where the lock is dropped: one action looks the host
 * up, one generates outside the lock, one completes.  The two lock sections are those of module CertCache.
 */
module CertThreads {
  import opened Wrappers
  import opened LruList
  import opened CertCache
  import opened RecencyOrder
  import opened CertHistory

  type Tid = nat

  datatype Pc =
    | Looking(host: string)
    | Generating(host: string)
    | Completing(host: string, cert: Cert)
    | Returned(host: string, result: Option<Cert>)

  datatype Sys = Sys(cache: Recency, threads: map<Tid, Pc>)

  datatype Action =
    | Call(t: Tid, host: string)
    | Look(t: Tid)
    | Generate(t: Tid, cert: Cert)
    | GenerateFails(t: Tid)
    | Complete(t: Tid)

  const INIT := Sys([], map[])

  predicate Enabled(s: Sys, a: Action) {
    match a
    case Call(t, _) => t in s.threads ==> s.threads[t].Returned?
    case Look(t) => t in s.threads && s.threads[t].Looking?
    case Generate(t, _) => t in s.threads && s.threads[t].Generating?
    case GenerateFails(t) => t in s.threads && s.threads[t].Generating?
    case Complete(t) => t in s.threads && s.threads[t].Completing?
  }

  function Apply(s: Sys, capacity: nat, a: Action): Sys
    requires Enabled(s, a)
  {
    match a
    case Call(t, host) => s.(threads := s.threads[t := Looking(host)])
    case Look(t) =>
      var host := s.threads[t].host;
      var (cache, cert) := LookupSpec(s.cache, host);
      Sys(cache, s.threads[t := if cert.Some? then Returned(host, cert) else Generating(host)])
    case Generate(t, cert) => s.(threads := s.threads[t := Completing(s.threads[t].host, cert)])
    case GenerateFails(t) => s.(threads := s.threads[t := Returned(s.threads[t].host, None)])
    case Complete(t) =>
      var host := s.threads[t].host;
      var (cache, cert) := InsertSpec(s.cache, capacity, host, s.threads[t].cert);
      Sys(cache, s.threads[t := Returned(host, Some(cert))])
  }

  /** The lock section an action performs, when it used its host. */
  function EventOf(s: Sys, a: Action): seq<Event>
    requires Enabled(s, a)
  {
    match a
    case Look(t) =>
      if At(s.cache, s.threads[t].host) < |s.cache| then [Event.Hit(s.threads[t].host)] else []
    case Complete(t) => [Completion(s.threads[t].host, s.threads[t].cert)]
    case _ => []
  }

  predicate Valid(capacity: nat, acts: seq<Action>)
    decreases |acts|, 0
  {
    if acts == [] then true
    else
      var n := |acts| - 1;
      Valid(capacity, acts[..n]) && Enabled(Exec(capacity, acts[..n]), acts[n])
  }

  function Exec(capacity: nat, acts: seq<Action>): Sys
    requires Valid(capacity, acts)
    decreases |acts|, 1
  {
    if acts == [] then INIT
    else Apply(Exec(capacity, acts[..|acts| - 1]), capacity, acts[|acts| - 1])
  }

  /** The history a run leaves behind: its lock sections in lock order. */
  function History(capacity: nat, acts: seq<Action>): seq<Event>
    requires Valid(capacity, acts)
  {
    if acts == [] then []
    else
      var n := |acts| - 1;
      History(capacity, acts[..n]) + EventOf(Exec(capacity, acts[..n]), acts[n])
  }

  lemma {:induction false} PrefixValid(capacity: nat, acts: seq<Action>, i: nat)
    requires Valid(capacity, acts) && i <= |acts|
    ensures Valid(capacity, acts[..i])
    ensures i < |acts| ==> Enabled(Exec(capacity, acts[..i]), acts[i]) && Valid(capacity, acts[..i + 1])
    ensures i < |acts| ==> Exec(capacity, acts[..i + 1]) == Apply(Exec(capacity, acts[..i]), capacity, acts[i])
  {
    var n := |acts| - 1;
    if i == |acts| {
      assert acts[..i] == acts;
    } else if i == n {
      assert acts[..i + 1] == acts;
    } else {
      PrefixValid(capacity, acts[..n], i);
      assert acts[..n][..i] == acts[..i] && acts[..n][..i + 1] == acts[..i + 1];
    }
  }

  function CacheAfter(capacity: nat, acts: seq<Action>, i: nat): Recency
    requires Valid(capacity, acts) && i <= |acts|
  {
    PrefixValid(capacity, acts, i);
    Exec(capacity, acts[..i]).cache
  }

  /** An action changes the cache as its lock section does, and not otherwise. */
  lemma ActionServes(s: Sys, capacity: nat, a: Action)
    requires Enabled(s, a)
    ensures EventOf(s, a) == [] ==> Apply(s, capacity, a).cache == s.cache
    ensures EventOf(s, a) != [] ==>
      var e := EventOf(s, a)[0];
      && EventOf(s, a) == [e]
      && Apply(s, capacity, a).cache == Serve(s.cache, capacity, e)
      && (e.Hit? ==> e.host in Hosts(s.cache))
  {
    if a.Look? {
      AtIsHost(s.cache, s.threads[a.t].host);
    }
  }

  /** Every interleaving is a history of lock sections, and its cache is what that history leaves. */
  lemma {:induction false} RunIsHistory(capacity: nat, acts: seq<Action>)
    requires Valid(capacity, acts)
    ensures Possible(capacity, History(capacity, acts))
    ensures Exec(capacity, acts).cache == Replay(capacity, History(capacity, acts))
  {
    if acts != [] {
      var n := |acts| - 1;
      var s, before := Exec(capacity, acts[..n]), History(capacity, acts[..n]);
      RunIsHistory(capacity, acts[..n]);
      ActionServes(s, capacity, acts[n]);
      var events := EventOf(s, acts[n]);
      if events == [] {
        assert before + events == before;
      } else {
        assert (before + events)[..|before|] == before;
      }
    }
  }

  /**
   * In every interleaving the cached hosts are the most recently used ones, in order, each once, and never
   * more than the capacity.
   */
  lemma InterleavedCacheIsMostRecent(capacity: nat, acts: seq<Action>)
    requires 1 <= capacity && Valid(capacity, acts)
    ensures var cache := Exec(capacity, acts).cache;
      && Hosts(cache) == Take(capacity, ByRecency(Used(History(capacity, acts))))
      && NoRepeats(Hosts(cache)) && |cache| <= capacity
  {
    RunIsHistory(capacity, acts);
    CacheIsMostRecent(capacity, History(capacity, acts));
    CacheRepeatsNoHost(capacity, History(capacity, acts));
  }

  // ---------------------------------------------------------------- one certificate per residence

  predicate Cached(s: Recency, host: string) {
    At(s, host) < |s|
  }

  function CertOf(s: Recency, host: string): Cert {
    if Cached(s, host) then s[At(s, host)].cert else 0
  }

  lemma {:induction false} OnlyEntry(s: Recency, e: Entry)
    requires NoRepeats(Hosts(s)) && e in s
    ensures Cached(s, e.hostname) && CertOf(s, e.hostname) == e.cert
  {
    if s[0] != e {
      assert Hosts(s)[1..] == Hosts(s[1..]);
      OnlyEntry(s[1..], e);
      AtIsHost(s[1..], e.hostname);
    }
  }

  /** A lock section never changes the certificate of a host that stays cached. */
  lemma ServeKeepsCert(s: Recency, capacity: nat, e: Event, host: string)
    requires NoRepeats(Hosts(s)) && (e.Hit? ==> Cached(s, e.host))
    requires Cached(s, host) && Cached(Serve(s, capacity, e), host)
    ensures CertOf(Serve(s, capacity, e), host) == CertOf(s, host)
  {
    var s' := Serve(s, capacity, e);
    var entry := s'[At(s', host)];
    if !Cached(s, e.host) {
      assert entry == Entry(e.host, e.cert) || entry in Kept(s, capacity);
    }
    OnlyEntry(s, entry);
  }

  lemma ActionKeepsCert(s: Sys, capacity: nat, a: Action, host: string)
    requires Enabled(s, a) && NoRepeats(Hosts(s.cache))
    requires Cached(s.cache, host) && Cached(Apply(s, capacity, a).cache, host)
    ensures CertOf(Apply(s, capacity, a).cache, host) == CertOf(s.cache, host)
  {
    ActionServes(s, capacity, a);
    var events := EventOf(s, a);
    if events != [] {
      AtIsHost(s.cache, events[0].host);
      ServeKeepsCert(s.cache, capacity, events[0], host);
    }
  }

  lemma StepKeepsCert(capacity: nat, acts: seq<Action>, k: nat, host: string)
    requires 1 <= capacity && Valid(capacity, acts) && k < |acts|
    requires Cached(CacheAfter(capacity, acts, k), host) && Cached(CacheAfter(capacity, acts, k + 1), host)
    ensures CertOf(CacheAfter(capacity, acts, k + 1), host) == CertOf(CacheAfter(capacity, acts, k), host)
  {
    PrefixValid(capacity, acts, k);
    InterleavedCacheIsMostRecent(capacity, acts[..k]);
    ActionKeepsCert(Exec(capacity, acts[..k]), capacity, acts[k], host);
  }

  lemma {:induction false} CertStays(capacity: nat, acts: seq<Action>, i: nat, j: nat, host: string)
    requires 1 <= capacity && Valid(capacity, acts) && i <= j <= |acts|
    requires forall k | i <= k <= j :: Cached(CacheAfter(capacity, acts, k), host)
    ensures CertOf(CacheAfter(capacity, acts, j), host) == CertOf(CacheAfter(capacity, acts, i), host)
  {
    if i < j {
      CertStays(capacity, acts, i, j - 1, host);
      StepKeepsCert(capacity, acts, j - 1, host);
    }
  }

  /** Action k of the run makes its thread return a certificate for the host. */
  predicate ReturnsAt(capacity: nat, acts: seq<Action>, k: nat, host: string, cert: Cert)
    requires Valid(capacity, acts)
  {
    && k < |acts|
    && (acts[k].Look? || acts[k].Complete?)
    && (PrefixValid(capacity, acts, k);
        Exec(capacity, acts[..k + 1]).threads[acts[k].t] == Returned(host, Some(cert)))
  }

  lemma ReturnedIsCached(capacity: nat, acts: seq<Action>, k: nat, host: string, cert: Cert)
    requires 1 <= capacity && Valid(capacity, acts) && ReturnsAt(capacity, acts, k, host, cert)
    ensures var cache := CacheAfter(capacity, acts, k + 1); Cached(cache, host) && CertOf(cache, host) == cert
  {
    PrefixValid(capacity, acts, k);
    InterleavedCacheIsMostRecent(capacity, acts[..k]);
  }

  /**
   * Between a host's insertion and its eviction all calls for it return one certificate, even when several
   * of them generated one: any two returns in a stretch in which the host stays cached agree.
   */
  lemma OneCertPerResidence(capacity: nat, acts: seq<Action>, i: nat, j: nat, host: string, c: Cert, d: Cert)
    requires 1 <= capacity && Valid(capacity, acts) && i <= j
    requires ReturnsAt(capacity, acts, i, host, c) && ReturnsAt(capacity, acts, j, host, d)
    requires forall k | i < k <= j :: Cached(CacheAfter(capacity, acts, k), host)
    ensures c == d
  {
    ReturnedIsCached(capacity, acts, i, host, c);
    ReturnedIsCached(capacity, acts, j, host, d);
    CertStays(capacity, acts, i + 1, j + 1, host);
  }
}
