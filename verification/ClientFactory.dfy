/**
 * The cache of Kubernetes clients, one per context: looked up under the read lock, looked up again and filled
 * under the write lock.  Threads interleave where the lock is released.
 */
module ClientFactory {
  import opened Wrappers

  /** A client set with its configuration; paths are the kubeconfig files it was built from. */
  datatype Client = Client(id: nat, paths: seq<string>)

  type Clients = map<string, Client>

  // ---------------------------------------------------------------- the two lock sections

  function Fast(clients: Clients, context: string): Option<Client> {
    if context in clients then Some(clients[context]) else None
  }

  /** built is what building a client would answer: it is asked for only when the second look fails too. */
  function Slow(clients: Clients, context: string, built: Option<Client>): (Clients, Option<Client>) {
    if context in clients then (clients, Some(clients[context]))
    else if built.None? then (clients, None)
    else (clients[context := built.value], built)
  }

  // ---------------------------------------------------------------- interleavings

  datatype Pc = Calling(context: string) | Missed(context: string) | Returned(client: Option<Client>)

  datatype Sys = Sys(clients: Clients, threads: map<nat, Pc>)

  datatype Op =
    | Call(t: nat, context: string)
    | FastLook(t: nat)
    | SlowLook(t: nat, built: Option<Client>)
    | Clear
    | Inject(context: string, client: Client)

  predicate Enabled(s: Sys, op: Op) {
    match op
    case Call(t, _) => t in s.threads ==> s.threads[t].Returned?
    case FastLook(t) => t in s.threads && s.threads[t].Calling?
    case SlowLook(t, _) => t in s.threads && s.threads[t].Missed?
    case _ => true
  }

  function Apply(s: Sys, op: Op): Sys
    requires Enabled(s, op)
  {
    match op
    case Call(t, context) => s.(threads := s.threads[t := Calling(context)])
    case FastLook(t) =>
      var context := s.threads[t].context;
      var hit := Fast(s.clients, context);
      s.(threads := s.threads[t := if hit.Some? then Returned(hit) else Missed(context)])
    case SlowLook(t, built) =>
      var (clients, r) := Slow(s.clients, s.threads[t].context, built);
      Sys(clients, s.threads[t := Returned(r)])
    case Clear => s.(clients := map[])
    case Inject(context, client) => s.(clients := s.clients[context := client])
  }

  predicate Moves(s: Sys, op: Op, s': Sys) {
    Enabled(s, op) && s' == Apply(s, op)
  }

  predicate IsRun(trace: seq<Sys>, ops: seq<Op>) {
    && |trace| == |ops| + 1
    && forall i {:trigger ops[i]} | 0 <= i < |ops| :: Moves(trace[i], ops[i], trace[i + 1])
  }

  /** The step makes a new client for the context. */
  predicate Builds(s: Sys, op: Op, context: string) {
    && op.SlowLook? && Enabled(s, op) && s.threads[op.t].context == context
    && context !in s.clients && op.built.Some?
  }

  /** The step makes a call for the context return a client. */
  predicate Returns(s: Sys, op: Op, context: string, client: Client) {
    && (op.FastLook? || op.SlowLook?) && Enabled(s, op) && s.threads[op.t].context == context
    && Apply(s, op).threads[op.t] == Returned(Some(client))
  }

  /** The step may change the context's client. */
  predicate Replaces(op: Op, context: string) {
    op.Clear? || (op.Inject? && op.context == context)
  }

  lemma ReturnedIsCached(s: Sys, op: Op, context: string, client: Client)
    requires Returns(s, op, context, client)
    ensures Fast(Apply(s, op).clients, context) == Some(client)
    ensures context in s.clients ==> s.clients[context] == client
  {
  }

  lemma {:induction false} StaysCached(trace: seq<Sys>, ops: seq<Op>, context: string, client: Client, i: nat, j: nat)
    requires IsRun(trace, ops) && i <= j <= |ops| && Fast(trace[i].clients, context) == Some(client)
    requires forall k | i <= k < j :: !Replaces(ops[k], context)
    ensures Fast(trace[j].clients, context) == Some(client)
    decreases j
  {
    if i < j {
      StaysCached(trace, ops, context, client, i, j - 1);
      assert Moves(trace[j - 1], ops[j - 1], trace[j]);
    }
  }

  lemma {:induction false} StaysFilled(trace: seq<Sys>, ops: seq<Op>, context: string, i: nat, j: nat)
    requires IsRun(trace, ops) && i <= j <= |ops| && context in trace[i].clients
    requires forall k | i <= k < j :: !ops[k].Clear?
    ensures context in trace[j].clients
    decreases j
  {
    if i < j {
      StaysFilled(trace, ops, context, i, j - 1);
      assert Moves(trace[j - 1], ops[j - 1], trace[j]);
    }
  }

  /** A build is kept and returned; a failed one changes nothing; and what is cached is not built again. */
  lemma SlowLookTells(s: Sys, t: nat, built: Option<Client>)
    requires Enabled(s, SlowLook(t, built))
    ensures var (context, s') := (s.threads[t].context, Apply(s, SlowLook(t, built)));
      && s'.threads == s.threads[t := s'.threads[t]]
      && (context in s.clients ==> s'.clients == s.clients && s'.threads[t] == Returned(Some(s.clients[context])))
      && (context !in s.clients && built.None? ==> s'.clients == s.clients && s'.threads[t] == Returned(None))
      && (context !in s.clients && built.Some? ==>
            s'.clients == s.clients[context := built.value] && s'.threads[t] == Returned(built))
  {
  }

  /** The step brings the client in for the context: it was built for it, or injected. */
  predicate Brings(s: Sys, op: Op, context: string, client: Client) {
    (Builds(s, op, context) && op.built == Some(client)) || op == Inject(context, client)
  }

  /** From any moment on: a cached client was cached then, or was built or injected for its context since. */
  lemma {:induction false} CachedWasBuilt(trace: seq<Sys>, ops: seq<Op>, context: string, i: nat, j: nat)
    requires IsRun(trace, ops) && i <= j <= |ops| && context in trace[j].clients
    ensures var client := trace[j].clients[context];
      || Fast(trace[i].clients, context) == Some(client)
      || exists k | i <= k < j :: Brings(trace[k], ops[k], context, client)
    decreases j
  {
    if i < j {
      assert Moves(trace[j - 1], ops[j - 1], trace[j]);
      if !Brings(trace[j - 1], ops[j - 1], context, trace[j].clients[context]) {
        CachedWasBuilt(trace, ops, context, i, j - 1);
      }
    }
  }

  /** So a client that a call returns after a Clear was built, or injected, for its context after that Clear. */
  lemma ReturnedAfterClear(trace: seq<Sys>, ops: seq<Op>, context: string, i: nat, j: nat, client: Client)
    requires IsRun(trace, ops) && i < j < |ops| && ops[i].Clear? && Returns(trace[j], ops[j], context, client)
    ensures exists k | i < k <= j :: Brings(trace[k], ops[k], context, client)
  {
    assert Moves(trace[i], ops[i], trace[i + 1]);
    assert Moves(trace[j], ops[j], trace[j + 1]);
    ReturnedIsCached(trace[j], ops[j], context, client);
    CachedWasBuilt(trace, ops, context, i + 1, j + 1);
  }

  /** And an injected client is what calls return until the next Clear or injection. */
  lemma InjectedIsReturned(
      trace: seq<Sys>, ops: seq<Op>, context: string, i: nat, j: nat, injected: Client, client: Client)
    requires IsRun(trace, ops) && i < j < |ops| && ops[i] == Inject(context, injected)
    requires Returns(trace[j], ops[j], context, client) && forall k | i < k < j :: !Replaces(ops[k], context)
    ensures client == injected
  {
    assert Moves(trace[i], ops[i], trace[i + 1]);
    StaysCached(trace, ops, context, injected, i + 1, j);
    ReturnedIsCached(trace[j], ops[j], context, client);
  }

  /**
   * All calls for a context that return a client with no Clear and no InjectClient of that context between
   * them return the same one, however many threads missed the cache together and whatever each would build.
   */
  lemma ReturnsAgree(trace: seq<Sys>, ops: seq<Op>, context: string, i: nat, j: nat, first: Client, second: Client)
    requires IsRun(trace, ops) && i < j < |ops|
    requires Returns(trace[i], ops[i], context, first) && Returns(trace[j], ops[j], context, second)
    requires forall k | i < k < j :: !Replaces(ops[k], context)
    ensures first == second
  {
    assert Moves(trace[i], ops[i], trace[i + 1]);
    ReturnedIsCached(trace[i], ops[i], context, first);
    StaysCached(trace, ops, context, first, i + 1, j);
    ReturnedIsCached(trace[j], ops[j], context, second);
  }

  /** Between two builds for one context there is a Clear. */
  lemma OneBuildBetweenClears(trace: seq<Sys>, ops: seq<Op>, context: string, i: nat, j: nat)
    requires IsRun(trace, ops) && i < j < |ops|
    requires Builds(trace[i], ops[i], context) && Builds(trace[j], ops[j], context)
    ensures exists k | i < k < j :: ops[k].Clear?
  {
    assert Moves(trace[i], ops[i], trace[i + 1]);
    if forall k | i < k < j :: !ops[k].Clear? {
      StaysFilled(trace, ops, context, i + 1, j);
    }
  }

  // ---------------------------------------------------------------- the object

  class Factory {
    var clients: Clients

    constructor ()
      ensures clients == map[]
    {
      clients := map[];
    }

    /** The fast path, under the read lock. */
    method Look(context: string) returns (client: Option<Client>)
      ensures client == Fast(clients, context)
    {
      if context in clients {
        return Some(clients[context]);
      }
      return None;
    }

    /** The slow path, under the write lock; others may have moved since the fast path. */
    method LookAgainAndBuild(context: string, built: Option<Client>) returns (client: Option<Client>)
      modifies this
      ensures (clients, client) == Slow(old(clients), context, built)
    {
      if context in clients {
        return Some(clients[context]);
      }
      if built.None? {
        return None;
      }
      clients := clients[context := built.value];
      return built;
    }

    method GetClientForContext(context: string, built: Option<Client>) returns (client: Option<Client>)
      modifies this
      ensures (clients, client) == Slow(old(clients), context, built)
    {
      client := Look(context);
      if client.None? {
        client := LookAgainAndBuild(context, built);
      }
    }

    method Clear()
      modifies this
      ensures clients == map[]
    {
      clients := map[];
    }

    method InjectClient(context: string, client: Client)
      modifies this
      ensures clients == old(clients)[context := client]
    {
      clients := clients[context := client];
    }
  }
}
