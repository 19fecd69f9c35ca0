/**
 * Configuration reload: any number of overlapping reloaders store a latest value and offer a token, and the
 * run loop takes the token and starts again with the value it then finds.  Configurations are objects shared
 * by pointer; a version number stands for the pointer.
 */
module ConfigReload {
  import opened Wrappers
  import opened Config

  type Version = nat

  /** The run loop: about to fetch, holding a fetched configuration, or running with it and waiting. */
  datatype Main = Restarting | Fetched(v: Version) | Waiting(v: Version)

  datatype Sys = Sys(
    cliVerbose: bool,
    files: seq<Config>,      // what each successful load decoded; version 0 is the one of the program's start
    configs: seq<Config>,    // the configuration objects as they are now
    current: Version,        // currentConfig
    token: bool,             // ReloadChan holds its one token
    loading: nat,            // reloaders that have not finished LoadConfig
    loaded: set<Version>,    // reloaders between load and store
    unsent: nat,             // reloaders between store and send
    main: Main,
    stores: nat,
    restarts: nat,
    coalesced: nat)          // sends that found a token in the channel

  datatype Op =
    | TimerFires
    | LoadFails
    | LoadOk(c: Config)
    | Store(v: Version)
    | Send
    | Fetch
    | Launch     // initializeApp sets the verbose flag on the fetched object
    | Receive

  function WithVerbose(c: Config, cliVerbose: bool): Config {
    c.(verbose := c.verbose || cliVerbose)
  }

  function Init(c: Config, cliVerbose: bool): Sys {
    Sys(cliVerbose, [c], [c], 0, false, 0, {}, 0, Restarting, 0, 0, 0)
  }

  /** LoadConfig returns only what passed validation. */
  predicate Enabled(s: Sys, checks: NameChecks, op: Op) {
    match op
    case TimerFires => true
    case LoadFails => s.loading > 0
    case LoadOk(c) => s.loading > 0 && ValidConfig(c, checks)
    case Store(v) => v in s.loaded
    case Send => s.unsent > 0
    case Fetch => s.main.Restarting?
    case Launch => s.main.Fetched? && s.main.v < |s.configs|
    case Receive => s.main.Waiting? && s.token
  }

  function Load(s: Sys, c: Config): Sys {
    s.(files := s.files + [c], configs := s.configs + [WithVerbose(c, s.cliVerbose)],
       loaded := s.loaded + {|s.configs|})
  }

  /** The send does not block: a full channel is left as it is. */
  function Offer(s: Sys): Sys {
    if s.token then s.(coalesced := s.coalesced + 1) else s.(token := true)
  }

  function Apply(s: Sys, checks: NameChecks, op: Op): Sys
    requires Enabled(s, checks, op)
  {
    match op
    case TimerFires => s.(loading := s.loading + 1)
    case LoadFails => s.(loading := s.loading - 1)
    case LoadOk(c) => Load(s, c).(loading := s.loading - 1)
    case Store(v) => s.(current := v, stores := s.stores + 1, loaded := s.loaded - {v}, unsent := s.unsent + 1)
    case Send => Offer(s).(unsent := s.unsent - 1)
    case Fetch => s.(main := Fetched(s.current))
    case Launch =>
      var launched := WithVerbose(s.configs[s.main.v], s.cliVerbose);
      s.(main := Waiting(s.main.v), configs := s.configs[s.main.v := launched])
    case Receive => s.(main := Restarting, token := false, restarts := s.restarts + 1)
  }

  // ---------------------------------------------------------------- the invariant

  /** A store the run loop has not seen is announced, or about to be. */
  predicate Announced(s: Sys) {
    s.main.Restarting? || s.main.v == s.current || s.token || s.unsent > 0
  }

  /** Every store is a restart, the token, an unsent announcement, or one that was coalesced with another. */
  predicate Balanced(s: Sys) {
    && s.stores == s.restarts + (if s.token then 1 else 0) + s.unsent + s.coalesced
    && |s.files| == 1 + s.stores + |s.loaded|
  }

  predicate Numbered(s: Sys) {
    && |s.files| == |s.configs|
    && s.current < |s.configs| && s.current !in s.loaded && (forall v | v in s.loaded :: v < |s.configs|)
    && (!s.main.Restarting? ==> s.main.v < |s.configs|)
  }

  predicate Checked(s: Sys, checks: NameChecks, v: Version)
  {
    && v < |s.files| && v < |s.configs| && ValidConfig(s.files[v], checks)
    && s.configs[v] in [s.files[v], WithVerbose(s.files[v], s.cliVerbose)]
  }

  ghost predicate AllChecked(s: Sys, checks: NameChecks) {
    && |s.files| == |s.configs|
    && (forall v {:trigger Checked(s, checks, v)} | 0 <= v < |s.configs| :: Checked(s, checks, v))
    && (s.main.Waiting? ==>
          s.main.v < |s.configs| && s.configs[s.main.v] == WithVerbose(s.files[s.main.v], s.cliVerbose))
  }

  ghost predicate Inv(s: Sys, checks: NameChecks) {
    Numbered(s) && Announced(s) && Balanced(s) && AllChecked(s, checks)
  }

  lemma StepAnnounces(s: Sys, checks: NameChecks, op: Op)
    requires Announced(s) && Enabled(s, checks, op)
    ensures Announced(Apply(s, checks, op))
  {
  }

  lemma StepChecks(s: Sys, checks: NameChecks, op: Op)
    requires Numbered(s) && AllChecked(s, checks) && Enabled(s, checks, op)
    ensures AllChecked(Apply(s, checks, op), checks)
  {
    var s' := Apply(s, checks, op);
    forall v | 0 <= v < |s'.configs|
      ensures Checked(s', checks, v)
    {
      if v < |s.configs| {
        assert Checked(s, checks, v);
      }
    }
    if op.Launch? {
      assert Checked(s, checks, s.main.v);
    }
  }

  lemma StepKeepsInv(s: Sys, checks: NameChecks, op: Op)
    requires Inv(s, checks) && Enabled(s, checks, op)
    ensures Inv(Apply(s, checks, op), checks)
  {
    StepAnnounces(s, checks, op);
    StepChecks(s, checks, op);
  }

  // ---------------------------------------------------------------- runs

  predicate Moves(s: Sys, checks: NameChecks, op: Op, s': Sys) {
    Enabled(s, checks, op) && s' == Apply(s, checks, op)
  }

  /** The states of a run of the program: trace[i] is the one before step i. */
  ghost predicate IsRun(trace: seq<Sys>, ops: seq<Op>, checks: NameChecks) {
    && |trace| == |ops| + 1
    && forall i {:trigger ops[i]} | 0 <= i < |ops| :: Moves(trace[i], checks, ops[i], trace[i + 1])
  }

  lemma InitInv(c: Config, cliVerbose: bool, checks: NameChecks)
    requires ValidConfig(c, checks)
    ensures Inv(Init(c, cliVerbose), checks)
  {
  }

  lemma {:induction false} RunKeepsInv(trace: seq<Sys>, ops: seq<Op>, checks: NameChecks, j: nat)
    requires IsRun(trace, ops, checks) && Inv(trace[0], checks) && j <= |ops|
    ensures Inv(trace[j], checks)
  {
    if j > 0 {
      RunKeepsInv(trace, ops, checks, j - 1);
      StepKeepsInv(trace[j - 1], checks, ops[j - 1]);
    }
  }

  /**
   * No reload is lost: whenever the run loop waits with a configuration other than the current one, the token
   * is in the channel or some reloader has still to send.
   */
  lemma NoReloadLost(trace: seq<Sys>, ops: seq<Op>, checks: NameChecks)
    requires IsRun(trace, ops, checks) && Inv(trace[0], checks)
    ensures var s := trace[|ops|];
      s.main.Waiting? && s.main.v != s.current ==> s.token || s.unsent > 0
  {
    RunKeepsInv(trace, ops, checks, |ops|);
  }

  /**
   * Every successful load is a restart, the token, an announcement to come, a coalesced one, or a load still
   * to be stored; so restarts never outnumber successful loads.
   */
  lemma LoadsAreConserved(trace: seq<Sys>, ops: seq<Op>, checks: NameChecks)
    requires IsRun(trace, ops, checks) && Inv(trace[0], checks)
    ensures var s := trace[|ops|]; var loads := |s.files| - 1;
      && loads == s.restarts + (if s.token then 1 else 0) + s.unsent + s.coalesced + |s.loaded|
      && s.restarts <= loads
  {
    RunKeepsInv(trace, ops, checks, |ops|);
    var s := trace[|ops|];
  }

  /** What the successful loads of a run decoded, in order. */
  function Decoded(ops: seq<Op>): seq<Config> {
    if ops == [] then []
    else
      var n := |ops| - 1;
      Decoded(ops[..n]) + if ops[n].LoadOk? then [ops[n].c] else []
  }

  /** The versions of a run are the files it decoded, each under its number. */
  lemma {:induction false} VersionsAreDecoded(trace: seq<Sys>, ops: seq<Op>, checks: NameChecks, j: nat)
    requires IsRun(trace, ops, checks) && j <= |ops|
    ensures trace[j].files == trace[0].files + Decoded(ops[..j])
    ensures trace[j].cliVerbose == trace[0].cliVerbose
  {
    if j > 0 {
      VersionsAreDecoded(trace, ops, checks, j - 1);
      assert Moves(trace[j - 1], checks, ops[j - 1], trace[j]);
      assert ops[..j][..j - 1] == ops[..j - 1];
    }
  }

  /** What runs has passed validation, and is the decoded file with the command line's verbose flag kept. */
  lemma RunningConfigIsValid(trace: seq<Sys>, ops: seq<Op>, checks: NameChecks)
    requires IsRun(trace, ops, checks) && Inv(trace[0], checks)
    ensures var s := trace[|ops|];
      s.main.Waiting? ==>
        && s.main.v < |s.configs| && s.main.v < |s.files|
        && var (file, running) := (s.files[s.main.v], s.configs[s.main.v]);
           && running == file.(verbose := file.verbose || s.cliVerbose)
           && ValidConfig(running, checks)
  {
    RunKeepsInv(trace, ops, checks, |ops|);
    var s := trace[|ops|];
    if s.main.Waiting? {
      assert Checked(s, checks, s.main.v);
    }
  }

  // ---------------------------------------------------------------- convergence

  predicate Quiet(s: Sys) {
    s.loading == 0 && s.loaded == {} && s.unsent == 0 && !s.token && s.main.Waiting?
  }

  /** What is left to do, counted in steps. */
  function Work(s: Sys): nat {
    6 * s.loading + 5 * |s.loaded| + 4 * s.unsent + (if s.token then 3 else 0)
      + match s.main { case Restarting => 2 case Fetched(_) => 1 case Waiting(_) => 0 }
  }

  lemma StepDoesWork(s: Sys, checks: NameChecks, op: Op)
    requires Inv(s, checks) && Enabled(s, checks, op) && !op.TimerFires?
    ensures Work(Apply(s, checks, op)) < Work(s)
  {
  }

  /** With no new events, the reloaders and the run loop come to rest after so many steps at most. */
  lemma {:induction false} ComesToRest(trace: seq<Sys>, ops: seq<Op>, checks: NameChecks, j: nat)
    requires IsRun(trace, ops, checks) && Inv(trace[0], checks) && j <= |ops|
    requires forall i | 0 <= i < |ops| :: !ops[i].TimerFires?
    ensures Inv(trace[j], checks) && Work(trace[j]) + j <= Work(trace[0])
  {
    if j > 0 {
      ComesToRest(trace, ops, checks, j - 1);
      StepKeepsInv(trace[j - 1], checks, ops[j - 1]);
      StepDoesWork(trace[j - 1], checks, ops[j - 1]);
    }
  }

  /** Only a quiet state has no step left, and then the run loop runs the current configuration. */
  lemma RestsOnCurrent(s: Sys, checks: NameChecks)
    requires Inv(s, checks)
    ensures Quiet(s) <==> forall op :: Enabled(s, checks, op) ==> op.TimerFires?
    ensures Quiet(s) ==> s.main.v == s.current
  {
    if !Quiet(s) {
      var op := NextStep(s, checks);
    }
  }

  lemma NextStep(s: Sys, checks: NameChecks) returns (op: Op)
    requires Inv(s, checks) && !Quiet(s)
    ensures Enabled(s, checks, op) && !op.TimerFires?
  {
    if s.loading > 0 {
      op := LoadFails;
    } else if s.loaded != {} {
      var v :| v in s.loaded;
      op := Store(v);
    } else if s.unsent > 0 {
      op := Send;
    } else {
      op := if s.main.Restarting? then Fetch else if s.main.Fetched? then Launch else Receive;
    }
  }

  // ---------------------------------------------------------------- overlapping reloaders

  /** No version newer than the current one was ever stored: every such version waits to be. */
  predicate Newest(s: Sys) {
    forall v | s.current < v < |s.configs| :: v in s.loaded
  }

  /** A store does not go back to an older version. */
  predicate GoesForward(s: Sys, op: Op) {
    op.Store? ==> s.current < op.v
  }

  lemma NewestStepIff(s: Sys, checks: NameChecks, op: Op)
    requires Inv(s, checks) && Enabled(s, checks, op) && Newest(s)
    ensures Newest(Apply(s, checks, op)) <==> GoesForward(s, op)
  {
    var s' := Apply(s, checks, op);
    if op.Store? && op.v < s.current {
      assert s'.current < s.current < |s'.configs| && s.current !in s'.loaded;
    } else {
      forall v | s'.current < v < |s'.configs|
        ensures v in s'.loaded
      {
        assert v < |s.configs| ==> v in s.loaded;
      }
    }
  }

  lemma NewestNext(trace: seq<Sys>, ops: seq<Op>, checks: NameChecks, n: nat)
    requires IsRun(trace, ops, checks) && Inv(trace[0], checks) && n < |ops| && Newest(trace[n])
    ensures Newest(trace[n + 1]) <==> GoesForward(trace[n], ops[n])
  {
    RunKeepsInv(trace, ops, checks, n);
    NewestStepIff(trace[n], checks, ops[n]);
  }

  lemma {:induction false} ForwardKeepsNewest(trace: seq<Sys>, ops: seq<Op>, checks: NameChecks, n: nat)
    requires IsRun(trace, ops, checks) && Inv(trace[0], checks) && n <= |ops| && Newest(trace[0])
    requires forall j | 0 <= j < n :: GoesForward(trace[j], ops[j])
    ensures Newest(trace[n])
  {
    if n > 0 {
      ForwardKeepsNewest(trace, ops, checks, n - 1);
      NewestNext(trace, ops, checks, n - 1);
    }
  }

  /** In a run, the current configuration is always the newest stored exactly when no store goes back. */
  lemma NewestIff(trace: seq<Sys>, ops: seq<Op>, checks: NameChecks)
    requires IsRun(trace, ops, checks) && Inv(trace[0], checks) && Newest(trace[0])
    ensures (forall j | 0 <= j <= |ops| :: Newest(trace[j]))
       <==> (forall j | 0 <= j < |ops| :: GoesForward(trace[j], ops[j]))
  {
    if forall j | 0 <= j <= |ops| :: Newest(trace[j]) {
      forall j | 0 <= j < |ops|
        ensures GoesForward(trace[j], ops[j])
      {
        NewestNext(trace, ops, checks, j);
      }
    } else if forall j | 0 <= j < |ops| :: GoesForward(trace[j], ops[j]) {
      forall j | 0 <= j <= |ops|
        ensures Newest(trace[j])
      {
        ForwardKeepsNewest(trace, ops, checks, j);
      }
    }
  }

  /** At most one reloader is between its load and its store. */
  predicate Apart(s: Sys) {
    |s.loaded| <= 1
  }

  /** Whatever waits to be stored is newer than what is current. */
  predicate Ahead(s: Sys) {
    forall v | v in s.loaded :: s.current < v
  }

  lemma ApartStaysAhead(s: Sys, checks: NameChecks, op: Op)
    requires Inv(s, checks) && Enabled(s, checks, op) && Apart(s) && Ahead(s)
    ensures Ahead(Apply(s, checks, op)) && GoesForward(s, op)
  {
    if op.Store? {
      assert s.loaded - {op.v} == {} by {
        assert |s.loaded - {op.v}| == |s.loaded| - 1;
      }
    }
  }

  /**
   * What a caller can arrange: as long as reloads do not overlap between load and store, however many there are
   * and however they overlap otherwise, no store goes back and the current configuration is always the newest.
   */
  lemma {:induction false} ApartKeepsNewest(trace: seq<Sys>, ops: seq<Op>, checks: NameChecks, n: nat)
    requires IsRun(trace, ops, checks) && Inv(trace[0], checks) && n <= |ops|
    requires Newest(trace[0]) && Ahead(trace[0]) && forall s | s in trace :: Apart(s)
    ensures Newest(trace[n]) && Ahead(trace[n])
  {
    if n > 0 {
      ApartKeepsNewest(trace, ops, checks, n - 1);
      RunKeepsInv(trace, ops, checks, n - 1);
      assert Apart(trace[n - 1]);
      ApartStaysAhead(trace[n - 1], checks, ops[n - 1]);
      NewestNext(trace, ops, checks, n - 1);
    }
  }

  /** A run from a state in which no further load completes. */
  ghost predicate Settles(trace: seq<Sys>, ops: seq<Op>, checks: NameChecks, s: Sys) {
    && IsRun(trace, ops, checks) && trace[0] == s
    && forall i {:trigger ops[i]} | 0 <= i < |ops| :: !ops[i].LoadOk?
  }

  lemma {:induction false} SettlesNewest(trace: seq<Sys>, ops: seq<Op>, checks: NameChecks, s: Sys, n: nat)
    requires Settles(trace, ops, checks, s) && Inv(s, checks) && Newest(s) && Apart(s) && Ahead(s) && n <= |ops|
    ensures Newest(trace[n]) && Apart(trace[n]) && Ahead(trace[n])
  {
    if n > 0 {
      SettlesNewest(trace, ops, checks, s, n - 1);
      RunKeepsInv(trace, ops, checks, n - 1);
      ApartStaysAhead(trace[n - 1], checks, ops[n - 1]);
      NewestNext(trace, ops, checks, n - 1);
      ApartStays(trace[n - 1], checks, ops[n - 1]);
    }
  }

  lemma ApartStays(s: Sys, checks: NameChecks, op: Op)
    requires Enabled(s, checks, op) && !op.LoadOk? && Apart(s)
    ensures Apart(Apply(s, checks, op))
  {
  }

  /** Of two versions in waiting the newer can be stored first. */
  lemma TwoGoBack(s: Sys, checks: NameChecks, v: Version, w: Version)
    requires Inv(s, checks) && Newest(s) && Ahead(s) && v in s.loaded && w in s.loaded && v < w
    ensures exists trace, ops :: Settles(trace, ops, checks, s) && !Newest(trace[|ops|])
  {
    var s1 := Apply(s, checks, Store(w));
    StepKeepsInv(s, checks, Store(w));
    NewestStepIff(s, checks, Store(w));
    var s2 := Apply(s1, checks, Store(v));
    NewestStepIff(s1, checks, Store(v));
    assert Settles([s, s1, s2], [Store(w), Store(v)], checks, s);
  }

  lemma TwoOf(a: set<Version>) returns (v: Version, w: Version)
    requires |a| > 1
    ensures v in a && w in a && v < w
  {
    var x :| x in a;
    assert |a - {x}| == |a| - 1;
    var y :| y in a - {x};
    v, w := if x < y then x else y, if x < y then y else x;
  }

  /**
   * Exactly when the loads that are done by now are safe: from a state whose current configuration is the newest,
   * every run without a further load keeps it so if and only if at most one version waits to be stored, and that
   * one is newer than the current one.
   */
  lemma StaysNewestIff(s: Sys, checks: NameChecks)
    requires Inv(s, checks) && Newest(s)
    ensures (forall trace, ops | Settles(trace, ops, checks, s) :: Newest(trace[|ops|])) <==> Apart(s) && Ahead(s)
  {
    if Apart(s) && Ahead(s) {
      forall trace, ops | Settles(trace, ops, checks, s)
        ensures Newest(trace[|ops|])
      {
        SettlesNewest(trace, ops, checks, s, |ops|);
      }
    } else if !Ahead(s) {
      var v :| v in s.loaded && v <= s.current;
      var s1 := Apply(s, checks, Store(v));
      NewestStepIff(s, checks, Store(v));
      assert Settles([s, s1], [Store(v)], checks, s);
    } else {
      var v, w := TwoOf(s.loaded);
      TwoGoBack(s, checks, v, w);
    }
  }

  /** The program's start satisfies what these results ask of the first state. */
  lemma StartsNewest(c: Config, cliVerbose: bool, checks: NameChecks)
    requires ValidConfig(c, checks)
    ensures var s := Init(c, cliVerbose); Inv(s, checks) && Newest(s) && Ahead(s) && Apart(s)
  {
    InitInv(c, cliVerbose, checks);
  }

  /** At rest after such a run, the program runs the newest configuration that was loaded. */
  lemma RestsOnNewest(s: Sys, checks: NameChecks)
    requires Inv(s, checks) && Quiet(s) && Newest(s)
    ensures s.main.v == |s.configs| - 1
  {
    RestsOnCurrent(s, checks);
    assert s.current < |s.configs| - 1 ==> |s.configs| - 1 in s.loaded;
  }

  ghost predicate Reaches(trace: seq<Sys>, ops: seq<Op>, checks: NameChecks, from: Sys, s: Sys) {
    IsRun(trace, ops, checks) && trace[0] == from && trace[|ops|] == s
  }

  lemma Step(trace: seq<Sys>, ops: seq<Op>, checks: NameChecks, from: Sys, s: Sys, op: Op)
    returns (trace': seq<Sys>, ops': seq<Op>, s': Sys)
    requires Reaches(trace, ops, checks, from, s) && Enabled(s, checks, op)
    ensures s' == Apply(s, checks, op) && Reaches(trace', ops', checks, from, s')
  {
    trace', ops', s' := trace + [Apply(s, checks, op)], ops + [op], Apply(s, checks, op);
  }

  /** Both files loaded, the newer stored first, one send coalesced. */
  function StoredBackwards(c: Config, older: Config, newer: Config): Sys {
    Sys(false, [c, older, newer], [c, older, newer], 1, true, 0, {}, 0, Restarting, 2, 0, 1)
  }

  /** Both files loaded, neither stored. */
  function BothLoaded(c: Config, older: Config, newer: Config): Sys {
    Sys(false, [c, older, newer], [c, older, newer], 0, false, 0, {1, 2}, 0, Restarting, 0, 0, 0)
  }

  lemma LoadsBoth(c: Config, older: Config, newer: Config, checks: NameChecks)
    returns (trace: seq<Sys>, ops: seq<Op>)
    requires ValidConfig(older, checks) && ValidConfig(newer, checks)
    ensures Reaches(trace, ops, checks, Init(c, false), BothLoaded(c, older, newer))
  {
    var from := Init(c, false);
    var s := from;
    trace, ops := [from], [];
    trace, ops, s := Step(trace, ops, checks, from, s, TimerFires);
    trace, ops, s := Step(trace, ops, checks, from, s, TimerFires);
    assert s == from.(loading := 2);
    assert WithVerbose(older, false) == older && WithVerbose(newer, false) == newer;
    trace, ops, s := Step(trace, ops, checks, from, s, LoadOk(older));
    assert s == from.(loading := 1, files := [c, older], configs := [c, older], loaded := {1});
    trace, ops, s := Step(trace, ops, checks, from, s, LoadOk(newer));
    assert s == BothLoaded(c, older, newer);
  }

  lemma StoresBackwards(c: Config, older: Config, newer: Config, checks: NameChecks)
    returns (trace: seq<Sys>, ops: seq<Op>)
    requires ValidConfig(older, checks) && ValidConfig(newer, checks)
    ensures Reaches(trace, ops, checks, Init(c, false), StoredBackwards(c, older, newer))
  {
    var from, s := Init(c, false), BothLoaded(c, older, newer);
    trace, ops := LoadsBoth(c, older, newer, checks);
    trace, ops, s := Step(trace, ops, checks, from, s, Store(2));
    trace, ops, s := Step(trace, ops, checks, from, s, Store(1));
    trace, ops, s := Step(trace, ops, checks, from, s, Send);
    trace, ops, s := Step(trace, ops, checks, from, s, Send);
  }

  /** Two reloaders that overlap can store in the wrong order; the program then rests on the older file. */
  lemma OverlapCanRestOnOlder(c: Config, older: Config, newer: Config, checks: NameChecks)
    requires ValidConfig(older, checks) && ValidConfig(newer, checks)
    ensures exists trace: seq<Sys>, ops: seq<Op>, s: Sys ::
      && Reaches(trace, ops, checks, Init(c, false), s)
      && Quiet(s) && s.files == [c, older, newer] && s.main.v == 1
  {
    var from, s := Init(c, false), StoredBackwards(c, older, newer);
    var trace, ops := StoresBackwards(c, older, newer, checks);
    trace, ops, s := Step(trace, ops, checks, from, s, Fetch);
    trace, ops, s := Step(trace, ops, checks, from, s, Launch);
    trace, ops, s := Step(trace, ops, checks, from, s, Receive);
    trace, ops, s := Step(trace, ops, checks, from, s, Fetch);
    trace, ops, s := Step(trace, ops, checks, from, s, Launch);
  }

  // ---------------------------------------------------------------- the objects

  /** A configuration object: the watcher and the program share it by pointer. */
  class Box {
    var value: Config

    constructor (value: Config)
      ensures this.value == value
    {
      this.value := value;
    }
  }

  class ConfigWatcher {
    const cliVerbose: bool
    var currentConfig: Box
    var reloadToken: bool // ReloadChan: one token or none
    ghost var boxes: seq<Box> // the objects of all versions

    /** The fields this object has in a state of the protocol. */
    ghost predicate Shows(s: Sys)
      reads this, boxes
    {
      && s.cliVerbose == cliVerbose && s.token == reloadToken
      && |boxes| == |s.configs| && (forall i, j | 0 <= i < j < |boxes| :: boxes[i] != boxes[j])
      && (forall i | 0 <= i < |boxes| :: boxes[i].value == s.configs[i])
      && s.current < |boxes| && currentConfig == boxes[s.current]
    }

    constructor (initial: Box, cliVerbose: bool)
      ensures Shows(Init(initial.value, cliVerbose)) && boxes == [initial] && this.cliVerbose == cliVerbose
    {
      this.cliVerbose := cliVerbose;
      currentConfig, reloadToken, boxes := initial, false, [initial];
    }

    /** One whole reload; loaded is what LoadConfig answers. */
    method ReloadConfig(loaded: Option<Config>, ghost s: Sys)
      requires Shows(s)
      modifies this
      ensures Shows(Reloaded(s, loaded))
      ensures loaded.Some? ==> fresh(currentConfig) && boxes == old(boxes) + [currentConfig]
      ensures loaded.None? ==> boxes == old(boxes)
    {
      if loaded.None? {
        return;
      }
      var newConfig := new Box(loaded.value);
      if cliVerbose {
        newConfig.value := newConfig.value.(verbose := true);
      }
      currentConfig := newConfig;
      boxes := boxes + [newConfig];
      if !reloadToken {
        reloadToken := true;
      }
    }

    method GetConfig() returns (cfg: Box)
      ensures cfg == currentConfig
    {
      return currentConfig;
    }
  }

  /** The effect of a reload that nobody interrupts. */
  function Reloaded(s: Sys, loaded: Option<Config>): Sys {
    if loaded.None? then s
    else
      var s1 := Load(s, loaded.value);
      Offer(s1.(current := |s.configs|, stores := s.stores + 1, loaded := s.loaded))
  }

  /** It makes the decoded file current, with the flag kept, under a new version, and announces it. */
  lemma ReloadTakesEffect(s: Sys, c: Config)
    requires Numbered(s)
    ensures var s' := Reloaded(s, Some(c));
      && s'.current == |s.configs| && s'.files == s.files + [c]
      && s'.configs == s.configs + [c.(verbose := c.verbose || s.cliVerbose)] && s'.token
    ensures Reloaded(s, None) == s
  {
  }

  /** The method-grain reload is the run of one reloader that nobody interrupts. */
  lemma ReloadIsUninterruptedRun(s: Sys, c: Config, checks: NameChecks) returns (trace: seq<Sys>, ops: seq<Op>)
    requires Numbered(s) && ValidConfig(c, checks)
    ensures Reaches(trace, ops, checks, s, Reloaded(s, Some(c)))
  {
    var s' := s;
    trace, ops := [s], [];
    trace, ops, s' := Step(trace, ops, checks, s, s', TimerFires);
    trace, ops, s' := Step(trace, ops, checks, s, s', LoadOk(c));
    trace, ops, s' := Step(trace, ops, checks, s, s', Store(|s.configs|));
    trace, ops, s' := Step(trace, ops, checks, s, s', Send);
    assert s.loaded + {|s.configs|} - {|s.configs|} == s.loaded;
  }

  class Program {
    var cfg: Box // what the running components were built from

    constructor (cfg: Box)
      ensures this.cfg == cfg
    {
      this.cfg := cfg;
    }

    /** initializeApp with a watcher: Fetch and Launch in one. */
    method InitializeApp(watcher: ConfigWatcher, ghost s: Sys)
      requires watcher.Shows(s)
      modifies this, watcher.currentConfig
      ensures watcher.Shows(s.(configs := s.configs[s.current := WithVerbose(s.configs[s.current], s.cliVerbose)]))
      ensures cfg == watcher.boxes[s.current]
    {
      cfg := watcher.GetConfig();
      if watcher.cliVerbose {
        cfg.value := cfg.value.(verbose := true);
      }
    }

    /** One turn of the run loop's select with no signal pending: a token means start again. */
    method AwaitReload(watcher: ConfigWatcher, ghost s: Sys) returns (restart: bool)
      requires watcher.Shows(s)
      modifies this, watcher`reloadToken, watcher.currentConfig
      ensures restart <==> s.token
      ensures watcher.Shows(if restart then
          s.(token := false, configs := s.configs[s.current := WithVerbose(s.configs[s.current], s.cliVerbose)]) else s)
      ensures if restart then cfg == watcher.boxes[s.current] else cfg == old(cfg)
    {
      restart := watcher.reloadToken;
      if restart {
        watcher.reloadToken := false;
        InitializeApp(watcher, s.(token := false));
      }
    }
  }
}
