/**
 * Where certificates come from: whatever interleaving, a certificate that is cached or returned for a host was
 * generated by a call for that host, and a host that is not cached gets the one that its own call generated.
 */
module CertOrigin {
  import opened Wrappers
  import opened LruList
  import opened CertCache
  import opened CertThreads

  /** Cached, returned, or about to be inserted. */
  ghost predicate InHand(s: Sys, host: string, cert: Cert) {
    || Entry(host, cert) in s.cache
    || exists t ::
         t in s.threads && (s.threads[t] == Returned(host, Some(cert)) || s.threads[t] == Completing(host, cert))
  }

  /** What the first lock section gives back is in the cache, and it only changes the order. */
  lemma LookTells(s: Sys, capacity: nat, t: Tid)
    requires Enabled(s, Look(t))
    ensures var (host, s') := (s.threads[t].host, Apply(s, capacity, Look(t)));
      && (forall e :: e in s'.cache <==> e in s.cache)
      && (if exists e :: e in s.cache && e.hostname == host then
            exists cert :: s'.threads[t] == Returned(host, Some(cert)) && Entry(host, cert) in s.cache
          else s'.threads[t] == Generating(host) && s'.cache == s.cache)
      && s'.threads == s.threads[t := s'.threads[t]]
  {
    var host := s.threads[t].host;
    FoundIff(s.cache, host);
    if At(s.cache, host) < |s.cache| {
      var e := s.cache[At(s.cache, host)];
      assert e == Entry(host, e.cert);
      FrontKeepsAll(s.cache, At(s.cache, host));
    }
  }

  lemma {:induction false} FoundIff(s: Recency, host: string)
    ensures At(s, host) < |s| <==> exists e :: e in s && e.hostname == host
  {
    if s != [] && s[0].hostname != host {
      FoundIff(s[1..], host);
      assert forall e :: e in s <==> e == s[0] || e in s[1..];
    }
  }

  lemma FrontKeepsAll<T>(s: seq<T>, k: nat)
    requires k < |s|
    ensures forall x :: x in ToFront(s, k) <==> x in s
  {
    assert s == s[..k] + [s[k]] + s[k + 1..];
  }

  /**
   * The second lock section: a host that is not cached gets the thread's own certificate, at the front, and that is
   * returned; one that was inserted meanwhile keeps the cached certificate, which is returned instead.
   */
  lemma CompleteTells(s: Sys, capacity: nat, t: Tid)
    requires Enabled(s, Complete(t))
    ensures var (host, own, s') := (s.threads[t].host, s.threads[t].cert, Apply(s, capacity, Complete(t)));
      && (if exists e :: e in s.cache && e.hostname == host then
            && (forall e :: e in s'.cache <==> e in s.cache)
            && exists cert :: s'.threads[t] == Returned(host, Some(cert)) && Entry(host, cert) in s.cache
          else
            && s'.threads[t] == Returned(host, Some(own))
            && s'.cache != [] && s'.cache[0] == Entry(host, own) && s'.cache[1..] <= s.cache)
      && s'.threads == s.threads[t := s'.threads[t]]
  {
    var host := s.threads[t].host;
    FoundIff(s.cache, host);
    if At(s.cache, host) < |s.cache| {
      var e := s.cache[At(s.cache, host)];
      assert e == Entry(host, e.cert);
      FrontKeepsAll(s.cache, At(s.cache, host));
    } else {
      var s' := Apply(s, capacity, Complete(t));
      assert s'.cache[1..] == Kept(s.cache, capacity);
    }
  }

  /** Only Generate brings a certificate in, and only for the host of its call. */
  lemma StepBrings(s: Sys, capacity: nat, a: Action, host: string, cert: Cert)
    requires Enabled(s, a) && InHand(Apply(s, capacity, a), host, cert)
    ensures InHand(s, host, cert) || (a.Generate? && a.cert == cert && s.threads[a.t].host == host)
  {
    var s' := Apply(s, capacity, a);
    if a.Look? {
      LookTells(s, capacity, a.t);
    } else if a.Complete? {
      CompleteTells(s, capacity, a.t);
      assert s'.cache != [] ==> s'.cache == [s'.cache[0]] + s'.cache[1..];
      assert s.threads[a.t] == Completing(s.threads[a.t].host, s.threads[a.t].cert);
    }
  }

  /** Action i of the run generates the certificate, in a call for the host. */
  predicate GeneratesAt(capacity: nat, acts: seq<Action>, i: nat, host: string, cert: Cert)
    requires Valid(capacity, acts)
  {
    && i < |acts| && acts[i].Generate? && acts[i].cert == cert
    && (PrefixValid(capacity, acts, i);
        Exec(capacity, acts[..i]).threads[acts[i].t].host == host)
  }

  lemma GeneratesInLonger(capacity: nat, acts: seq<Action>, k: nat, i: nat, host: string, cert: Cert)
    requires Valid(capacity, acts) && k <= |acts| && Valid(capacity, acts[..k])
    requires GeneratesAt(capacity, acts[..k], i, host, cert)
    ensures GeneratesAt(capacity, acts, i, host, cert) && i < k
  {
    PrefixValid(capacity, acts, i);
    assert acts[..k][..i] == acts[..i];
  }

  /** In every interleaving: what is cached or returned for a host was generated before, by a call for that host. */
  lemma {:induction false} CertsWereGenerated(capacity: nat, acts: seq<Action>, host: string, cert: Cert)
    returns (i: nat)
    requires Valid(capacity, acts) && InHand(Exec(capacity, acts), host, cert)
    ensures GeneratesAt(capacity, acts, i, host, cert)
  {
    var n := |acts| - 1;
    var s := Exec(capacity, acts[..n]);
    StepBrings(s, capacity, acts[n], host, cert);
    if InHand(s, host, cert) {
      i := CertsWereGenerated(capacity, acts[..n], host, cert);
      GeneratesInLonger(capacity, acts, n, i, host, cert);
    } else {
      i := n;
    }
  }

  lemma ReturnedInHand(capacity: nat, acts: seq<Action>, k: nat, host: string, cert: Cert)
    requires Valid(capacity, acts) && ReturnsAt(capacity, acts, k, host, cert)
    ensures Valid(capacity, acts[..k + 1]) && InHand(Exec(capacity, acts[..k + 1]), host, cert)
    ensures !acts[k].Generate?
  {
    PrefixValid(capacity, acts, k);
    assert acts[k].t in Exec(capacity, acts[..k + 1]).threads;
  }

  /** So every certificate a call returns was generated earlier in the run, by a call for the same host. */
  lemma ReturnedWasGenerated(capacity: nat, acts: seq<Action>, k: nat, host: string, cert: Cert) returns (i: nat)
    requires Valid(capacity, acts) && ReturnsAt(capacity, acts, k, host, cert)
    ensures i < k && GeneratesAt(capacity, acts, i, host, cert)
  {
    ReturnedInHand(capacity, acts, k, host, cert);
    i := CertsWereGenerated(capacity, acts[..k + 1], host, cert);
    GeneratesInLonger(capacity, acts, k + 1, i, host, cert);
    assert acts[i].Generate?;
  }
}
