/**
 * What the certificate cache promises over whole histories, proved about the two lock sections of module
 * CertCache against the recency order of the history.
 */
module CertHistory {
  import opened LruList
  import opened CertCache
  import opened RecencyOrder

  /** A lock section that used a host: a first-phase hit, or a second-phase completion. */
  datatype Event = Hit(host: string) | Completion(host: string, cert: Cert)

  function Serve(s: Recency, capacity: nat, e: Event): Recency {
    match e
    case Hit(h) => LookupSpec(s, h).0
    case Completion(h, c) => InsertSpec(s, capacity, h, c).0
  }

  function Replay(capacity: nat, events: seq<Event>): Recency {
    if events == [] then []
    else Serve(Replay(capacity, events[..|events| - 1]), capacity, events[|events| - 1])
  }

  /** A first-phase event is a hit: its host is cached at that moment. */
  predicate Possible(capacity: nat, events: seq<Event>) {
    if events == [] then true
    else
      var n := |events| - 1;
      Possible(capacity, events[..n]) && (events[n].Hit? ==> events[n].host in Hosts(Replay(capacity, events[..n])))
  }

  /** The hosts of a history, in lock order. */
  function Used(events: seq<Event>): seq<string> {
    if events == [] then [] else Used(events[..|events| - 1]) + [events[|events| - 1].host]
  }

  lemma {:induction false} HostsLength(s: Recency)
    ensures |Hosts(s)| == |s|
  {
    if s != [] {
      HostsLength(s[1..]);
    }
  }

  lemma {:induction false} HostsTake(s: Recency, k: nat)
    requires k <= |s|
    ensures Hosts(s[..k]) == Take(k, Hosts(s))
  {
    if k > 0 {
      HostsTake(s[1..], k - 1);
      assert s[..k] == [s[0]] + s[1..][..k - 1];
      assert Hosts(s)[1..] == Hosts(s[1..]);
    }
  }

  lemma {:induction false} AtIsHost(s: Recency, host: string)
    ensures At(s, host) < |s| <==> host in Hosts(s)
  {
    if s != [] {
      AtIsHost(s[1..], host);
    }
  }

  /** Cutting out a host's only entry. */
  lemma {:induction false} HostsWithout(s: Recency, host: string)
    requires NoRepeats(Hosts(s)) && At(s, host) < |s|
    ensures var k := At(s, host); Hosts(s[..k] + s[k + 1..]) == Without(Hosts(s), host)
  {
    var k, rest := At(s, host), s[1..];
    assert Hosts(s)[1..] == Hosts(rest);
    if k == 0 {
      assert s[..0] + s[1..] == rest;
      WithoutAbsent(Hosts(rest), host);
    } else {
      HostsWithout(rest, host);
      var cut := rest[..k - 1] + rest[k..];
      assert s[..k] + s[k + 1..] == [s[0]] + cut;
    }
  }

  lemma {:induction false} TakeAll<T>(n: nat, s: seq<T>)
    requires |s| <= n
    ensures Take(n, s) == s
  {
    if s != [] {
      TakeAll(n - 1, s[1..]);
    }
  }

  lemma TakeCons<T>(n: nat, x: T, s: seq<T>)
    requires 1 <= n
    ensures Take(n, [x] + s) == [x] + Take(n - 1, s)
  {
    assert ([x] + s)[1..] == s;
  }

  /** A completion of a host that is not cached puts it in front, and the last host falls off a full cache. */
  lemma MissHosts(s: Recency, capacity: nat, host: string, cert: Cert)
    requires 1 <= capacity && |s| <= capacity && At(s, host) == |s|
    ensures Hosts([Entry(host, cert)] + Kept(s, capacity)) == [host] + Take(capacity - 1, Without(Hosts(s), host))
  {
    AtIsHost(s, host);
    HostsLength(s);
    WithoutAbsent(Hosts(s), host);
    if |s| >= capacity {
      HostsTake(s, |s| - 1);
    } else {
      TakeAll(capacity - 1, Hosts(s));
    }
  }

  /** Both lock sections in one formula. */
  lemma ServeHosts(s: Recency, capacity: nat, e: Event)
    requires 1 <= capacity && |s| <= capacity && NoRepeats(Hosts(s)) && (e.Hit? ==> e.host in Hosts(s))
    ensures Hosts(Serve(s, capacity, e)) == [e.host] + Take(capacity - 1, Without(Hosts(s), e.host))
  {
    AtIsHost(s, e.host);
    if At(s, e.host) < |s| {
      HostsWithout(s, e.host);
      HostsLength(s[..At(s, e.host)] + s[At(s, e.host) + 1..]);
      TakeAll(capacity - 1, Without(Hosts(s), e.host));
    } else {
      MissHosts(s, capacity, e.host, e.cert);
    }
  }

  /**
   * For every history of lock sections and every capacity of at least one, the cached hosts are exactly the
   * first capacity hosts of the reversed, de-duplicated history.
   */
  lemma {:induction false} CacheIsMostRecent(capacity: nat, events: seq<Event>)
    requires 1 <= capacity && Possible(capacity, events)
    ensures Hosts(Replay(capacity, events)) == Take(capacity, ByRecency(Used(events)))
  {
    if events != [] {
      var n := |events| - 1;
      var s, order, host := Replay(capacity, events[..n]), ByRecency(Used(events[..n])), events[n].host;
      CacheIsMostRecent(capacity, events[..n]);
      ByRecencyIsOrdered(Used(events[..n]));
      TakeNoRepeats(capacity, order);
      TakeLength(capacity, order);
      HostsLength(s);
      ServeHosts(s, capacity, events[n]);
      TakeWithout(capacity - 1, order, host);
      ByRecencySnoc(Used(events[..n]), host);
      TakeCons(capacity, host, Without(order, host));
    }
  }

  /** Stack inclusion: on the same reference string a larger cache holds what a smaller one holds, first. */
  lemma StackInclusion(small: nat, large: nat, events: seq<Event>, events': seq<Event>)
    requires 1 <= small <= large && Used(events) == Used(events')
    requires Possible(small, events) && Possible(large, events')
    ensures Hosts(Replay(small, events)) <= Hosts(Replay(large, events'))
  {
    var order := ByRecency(Used(events));
    CacheIsMostRecent(small, events);
    CacheIsMostRecent(large, events');
    TakeTake(small, large, order);
    TakeLength(small, Take(large, order));
  }

  /** A lock section that drops a host drops the one whose last use is the oldest of all cached hosts. */
  lemma EvictsLeastRecentlyUsed(capacity: nat, events: seq<Event>, e: Event, victim: string, kept: string)
    requires 1 <= capacity && Possible(capacity, events) && Possible(capacity, events + [e])
    requires victim in Hosts(Replay(capacity, events)) && victim !in Hosts(Replay(capacity, events + [e]))
    requires kept in Hosts(Replay(capacity, events)) && kept != victim
    ensures 0 <= LastUse(Used(events), victim) < LastUse(Used(events), kept)
  {
    assert (events + [e])[..|events|] == events;
    CacheIsMostRecent(capacity, events);
    CacheRepeatsNoHost(capacity, events);
    ServeHosts(Replay(capacity, events), capacity, e);
    PushedOutIsOldest(Used(events), capacity, e.host, victim, kept);
  }

  lemma CacheRepeatsNoHost(capacity: nat, events: seq<Event>)
    requires 1 <= capacity && Possible(capacity, events)
    ensures NoRepeats(Hosts(Replay(capacity, events))) && |Replay(capacity, events)| <= capacity
  {
    CacheIsMostRecent(capacity, events);
    ByRecencyIsOrdered(Used(events));
    TakeNoRepeats(capacity, ByRecency(Used(events)));
    TakeLength(capacity, ByRecency(Used(events)));
    HostsLength(Replay(capacity, events));
  }
}
