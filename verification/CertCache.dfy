/**
 * The LRU cache of generated certificates: a map and a linked list updated together, under a lock that
 * GetCertificate drops while it generates.  Its two lock sections are the methods Lookup and Insert; each
 * is proved against a pure function on the recency sequence, and what the cache promises over histories
 * and interleavings is proved about those functions.
 */
module CertCache {
  import opened Wrappers
  import opened LruList

  const MAX_CERT_CACHE_SIZE: nat := 1000

  // ---------------------------------------------------------------- recency sequences

  /** The cached entries, most recently used first. */
  type Recency = seq<Entry>

  function Hosts(s: Recency): seq<string> {
    if s == [] then [] else [s[0].hostname] + Hosts(s[1..])
  }

  /** The position of a host's first entry, or the length. */
  function At(s: Recency, host: string): (k: nat)
    ensures k <= |s| && (k < |s| ==> s[k].hostname == host)
  {
    if s == [] || s[0].hostname == host then 0 else 1 + At(s[1..], host)
  }

  function ToFront<T>(s: seq<T>, k: nat): seq<T>
    requires k < |s|
  {
    [s[k]] + (s[..k] + s[k + 1..])
  }

  /** First lock section: a hit moves the entry to the front and returns its certificate. */
  function LookupSpec(s: Recency, host: string): (Recency, Option<Cert>) {
    var k := At(s, host);
    if k < |s| then (ToFront(s, k), Some(s[k].cert)) else (s, None)
  }

  /** Second lock section, with a certificate generated meanwhile. */
  function InsertSpec(s: Recency, capacity: nat, host: string, cert: Cert): (Recency, Cert) {
    var k := At(s, host);
    if k < |s| then (ToFront(s, k), s[k].cert)
    else
      ([Entry(host, cert)] + Kept(s, capacity), cert)
  }

  /** What is left of a full cache when the entry at the back is dropped to make room. */
  function Kept(s: Recency, capacity: nat): Recency {
    if |s| >= capacity && s != [] then s[..|s| - 1] else s
  }

  // ---------------------------------------------------------------- the cache object

  function Entries(elems: seq<Element>): Recency {
    if elems == [] then [] else [elems[0].entry] + Entries(elems[1..])
  }

  /** The map and the list hold the same elements, each under its own hostname, and no hostname twice. */
  ghost predicate Agree(m: map<string, Element>, elems: seq<Element>) {
    if elems == [] then m == map[]
    else
      var host := elems[0].entry.hostname;
      host in m && m[host] == elems[0] && Agree(m - {host}, elems[1..])
  }

  lemma {:induction false} EntriesLength(elems: seq<Element>)
    ensures |Entries(elems)| == |elems|
  {
    if elems != [] {
      EntriesLength(elems[1..]);
    }
  }

  lemma EntriesCons(e: Element, elems: seq<Element>)
    ensures Entries([e] + elems) == [e.entry] + Entries(elems)
  {
    assert ([e] + elems)[1..] == elems;
  }

  lemma {:induction false} EntriesAppend(a: seq<Element>, b: seq<Element>)
    ensures Entries(a + b) == Entries(a) + Entries(b)
  {
    if a == [] {
      assert a + b == b;
    } else {
      EntriesAppend(a[1..], b);
      assert a + b == [a[0]] + (a[1..] + b);
      EntriesCons(a[0], a[1..] + b);
    }
  }

  lemma Around<T>(a: seq<T>, x: T, b: seq<T>)
    ensures var s := a + ([x] + b); |a| < |s| && s[|a|] == x && s[..|a|] == a && s[|a| + 1..] == b
  {
  }

  lemma EntriesCut(elems: seq<Element>, k: nat)
    requires k < |elems|
    ensures |Entries(elems)| == |elems| && Entries(elems)[k] == elems[k].entry
    ensures Entries(elems[..k] + elems[k + 1..]) == Entries(elems)[..k] + Entries(elems)[k + 1..]
  {
    var a, e, b := elems[..k], elems[k], elems[k + 1..];
    assert elems == a + ([e] + b);
    EntriesAppend(a, [e] + b);
    EntriesCons(e, b);
    EntriesAppend(a, b);
    EntriesLength(a);
    EntriesLength(elems);
    Around(Entries(a), e.entry, Entries(b));
  }

  /** Every element is filed under its own hostname, and search finds it there. */
  lemma {:induction false} Filed(m: map<string, Element>, elems: seq<Element>, k: nat)
    requires Agree(m, elems) && k < |elems|
    ensures var host := elems[k].entry.hostname;
      host in m && m[host] == elems[k] && At(Entries(elems), host) == k
  {
    if k > 0 {
      Filed(m - {elems[0].entry.hostname}, elems[1..], k - 1);
    }
  }

  /** Every filed element is in the list, and search by a hostname agrees with the map. */
  lemma {:induction false} Listed(m: map<string, Element>, elems: seq<Element>, host: string)
    requires Agree(m, elems)
    ensures host in m <==> At(Entries(elems), host) < |Entries(elems)|
    ensures host in m ==> m[host] in elems && m[host].entry.hostname == host
  {
    if elems != [] && elems[0].entry.hostname != host {
      Listed(m - {elems[0].entry.hostname}, elems[1..], host);
    }
  }

  lemma {:induction false} RemoveAgrees(m: map<string, Element>, elems: seq<Element>, k: nat)
    requires Agree(m, elems) && k < |elems|
    ensures Agree(m - {elems[k].entry.hostname}, elems[..k] + elems[k + 1..])
  {
    if k == 0 {
      assert elems[..0] + elems[1..] == elems[1..];
    } else {
      var first, gone := elems[0].entry.hostname, elems[k].entry.hostname;
      Filed(m - {first}, elems[1..], k - 1);
      RemoveAgrees(m - {first}, elems[1..], k - 1);
      var cut := elems[..k] + elems[k + 1..];
      assert cut[1..] == elems[1..][..k - 1] + elems[1..][k..];
      assert m - {gone} - {first} == m - {first} - {gone};
    }
  }

  lemma InsertAgrees(m: map<string, Element>, elems: seq<Element>, e: Element)
    requires Agree(m, elems) && e.entry.hostname !in m
    ensures Agree(m[e.entry.hostname := e], [e] + elems)
    ensures Entries([e] + elems) == [e.entry] + Entries(elems)
  {
    assert m[e.entry.hostname := e] - {e.entry.hostname} == m;
  }

  /** A hit on the element at position k. */
  lemma HitIsLookup(m: map<string, Element>, elems: seq<Element>, k: nat)
    requires Agree(m, elems) && k < |elems|
    ensures var host := elems[k].entry.hostname;
      LookupSpec(Entries(elems), host) == (Entries(ToFront(elems, k)), Some(elems[k].entry.cert))
    ensures Agree(m, ToFront(elems, k))
  {
    var e, cut := elems[k], elems[..k] + elems[k + 1..];
    Filed(m, elems, k);
    EntriesCut(elems, k);
    RemoveAgrees(m, elems, k);
    InsertAgrees(m - {e.entry.hostname}, cut, e);
    assert (m - {e.entry.hostname})[e.entry.hostname := e] == m;
  }

  /** What agreement gives: a bijection in which every element has its own hostname. */
  lemma AgreeIsBijective(m: map<string, Element>, elems: seq<Element>)
    requires Agree(m, elems)
    ensures forall i | 0 <= i < |elems| :: elems[i].entry.hostname in m && m[elems[i].entry.hostname] == elems[i]
    ensures forall i, j | 0 <= i < j < |elems| :: elems[i].entry.hostname != elems[j].entry.hostname
    ensures forall host | host in m :: m[host] in elems && m[host].entry.hostname == host
  {
    forall i | 0 <= i < |elems|
      ensures elems[i].entry.hostname in m && m[elems[i].entry.hostname] == elems[i]
    {
      Filed(m, elems, i);
    }
    forall i, j | 0 <= i < j < |elems|
      ensures elems[i].entry.hostname != elems[j].entry.hostname
    {
      FiledApart(m, elems, i, j);
    }
    forall host | host in m
      ensures m[host] in elems && m[host].entry.hostname == host
    {
      Listed(m, elems, host);
    }
  }

  lemma {:induction false} FiledApart(m: map<string, Element>, elems: seq<Element>, i: nat, j: nat)
    requires Agree(m, elems) && i < j < |elems|
    ensures elems[i].entry.hostname != elems[j].entry.hostname
  {
    var rest := m - {elems[0].entry.hostname};
    if i == 0 {
      Filed(rest, elems[1..], j - 1);
    } else {
      FiledApart(rest, elems[1..], i - 1, j - 1);
    }
  }

  class Provider {
    var certCache: map<string, Element>
    const lruList: List
    const capacity: nat

    ghost predicate Valid()
      reads this, lruList, lruList.root, lruList.elems
    {
      && lruList.Valid()
      && Agree(certCache, lruList.elems)
      && 1 <= capacity && |lruList.elems| <= capacity
    }

    ghost function Recent(): Recency
      reads lruList
    {
      Entries(lruList.elems)
    }

    constructor (capacity: nat)
      requires 1 <= capacity
      ensures Valid() && Recent() == [] && this.capacity == capacity
    {
      certCache := map[];
      lruList := new List();
      this.capacity := capacity;
    }

    /** A hit: MoveToFront on the host's element. */
    method Hit(host: string) returns (cert: Cert)
      requires Valid() && host in certCache
      modifies lruList, lruList.root, lruList.elems
      ensures Valid()
      ensures (Recent(), Some(cert)) == LookupSpec(old(Recent()), host)
      ensures forall i | 0 <= i < |lruList.elems| :: lruList.elems[i] in old(lruList.elems)
    {
      var elem := certCache[host];
      ghost var was := lruList.elems;
      Listed(certCache, was, host);
      ghost var k := lruList.MoveToFront(elem);
      HitIsLookup(certCache, was, k);
      cert := elem.entry.cert;
    }

    method Lookup(host: string) returns (cert: Option<Cert>)
      requires Valid()
      modifies lruList, lruList.root, lruList.elems
      ensures Valid()
      ensures (Recent(), cert) == LookupSpec(old(Recent()), host)
      ensures forall i | 0 <= i < |lruList.elems| :: lruList.elems[i] in old(lruList.elems)
    {
      if host in certCache {
        var c := Hit(host);
        return Some(c);
      }
      Listed(certCache, lruList.elems, host);
      return None;
    }

    /** Drops the least recently used entry when the cache is full. */
    method Evict()
      requires Valid()
      modifies this`certCache, lruList, lruList.root, lruList.elems
      ensures Recent() == Kept(old(Recent()), capacity)
      ensures certCache.Keys <= old(certCache.Keys)
      ensures forall i | 0 <= i < |lruList.elems| :: lruList.elems[i] in old(lruList.elems)
      ensures Valid() && |lruList.elems| < capacity
    {
      EntriesLength(lruList.elems);
      if lruList.len >= capacity {
        var oldest := lruList.Back();
        if oldest != null {
          ghost var was := lruList.elems;
          certCache := certCache - {oldest.entry.hostname};
          ghost var k := lruList.Remove(oldest);
          EntriesCut(was, k);
          RemoveAgrees(old(certCache), was, k);
        }
      }
    }

    method Insert(host: string, cert: Cert) returns (r: Cert)
      requires Valid()
      modifies this`certCache, lruList, lruList.root, lruList.elems
      ensures Valid()
      ensures (Recent(), r) == InsertSpec(old(Recent()), capacity, host, cert)
      ensures forall i | 0 <= i < |lruList.elems| :: lruList.elems[i] in old(lruList.elems) || fresh(lruList.elems[i])
    {
      Listed(certCache, lruList.elems, host);
      if host in certCache {
        r := Hit(host);
      } else {
        InsertNew(host, cert);
        r := cert;
      }
    }

    method InsertNew(host: string, cert: Cert)
      requires Valid() && host !in certCache
      modifies this`certCache, lruList, lruList.root, lruList.elems
      ensures Valid()
      ensures Recent() == [Entry(host, cert)] + Kept(old(Recent()), capacity)
      ensures forall i | 0 <= i < |lruList.elems| :: lruList.elems[i] in old(lruList.elems) || fresh(lruList.elems[i])
    {
      Evict();
      ghost var m, kept := certCache, lruList.elems;
      var elem := lruList.PushFront(Entry(host, cert));
      InsertAgrees(m, kept, elem);
      certCache := certCache[host := elem];
    }

    /** One call that nobody interrupts; generated is what generateCert would return. */
    method GetCertificate<E>(host: string, generated: Result<Cert, E>) returns (r: Result<Cert, E>)
      requires Valid()
      modifies this`certCache, lruList, lruList.root, lruList.elems
      ensures Valid()
      ensures var (s, cached) := LookupSpec(old(Recent()), host);
        && (cached.Some? ==> Recent() == s && r == Ok(cached.value))
        && (cached.None? ==> r == generated)
        && (cached.None? && generated.Err? ==> Recent() == old(Recent()))
        && (cached.None? && generated.Ok? ==>
              Recent() == InsertSpec(old(Recent()), capacity, host, generated.value).0)
      ensures forall i | 0 <= i < |lruList.elems| :: lruList.elems[i] in old(lruList.elems) || fresh(lruList.elems[i])
    {
      var cached := Lookup(host);
      if cached.Some? {
        return Ok(cached.value);
      }
      if generated.Err? {
        return generated;
      }
      var cert := Insert(host, generated.value);
      return Ok(cert);
    }

    /** Two calls in a row for one host: once there is a certificate, the same one is returned again. */
    method GetTwice<E>(host: string, generated: Result<Cert, E>, again: Result<Cert, E>)
      returns (first: Result<Cert, E>, second: Result<Cert, E>)
      requires Valid()
      modifies this`certCache, lruList, lruList.root, lruList.elems
      ensures Valid()
      ensures first.Ok? ==> second == first
      ensures first.Err? ==> first == generated && second == again
      ensures old(At(Recent(), host) == |Recent()|) ==> first == generated
    {
      first := GetCertificate(host, generated);
      second := GetCertificate(host, again);
    }
  }
  method NewTLSErrorCertProvider() returns (p: Provider)
    ensures fresh(p) && p.Valid() && p.Recent() == [] && p.capacity == MAX_CERT_CACHE_SIZE
  {
    p := new Provider(MAX_CERT_CACHE_SIZE);
  }
}
