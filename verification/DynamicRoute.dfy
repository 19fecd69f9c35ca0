/** Routes encoded in hostnames, {name}-{port}.{svc|pod}.{namespace}.ns.{context}.cx.{host}. */
module DynamicRoute {
  import opened Wrappers
  import opened Text
  import opened Config

  const CX := ".cx."
  const NS := ".ns."
  const SVC := ".svc."
  const POD := ".pod."

  predicate HasSuffix(s: string, suffix: string) {
    |suffix| <= |s| && s[|s| - |suffix|..] == suffix
  }

  /** Splits s around the last occurrence of sep. */
  function CutLast(s: string, sep: string): (r: Option<(string, string)>)
    requires sep != ""
    ensures r.Some? ==> s == r.value.0 + sep + r.value.1
    ensures r.None? <==> !Contains(s, sep)
    ensures r.Some? ==> |r.value.0| == LastIndex(s, sep)
  {
    var i := LastIndex(s, sep);
    if i == -1 then None
    else
      assert s == s[..i] + s[i..i + |sep|] + s[i + |sep|..];
      Some((s[..i], s[i + |sep|..]))
  }

  function ParseDynamicHostname(hostname: string, dynamicHost: string, scheme: string): Option<Route> {
    var suffix := CX + dynamicHost;
    if dynamicHost == "" || !HasSuffix(hostname, suffix) then None
    else ParseCore(hostname[..|hostname| - |suffix|], scheme)
  }

  /** The part before the suffix: {targetPort}.{svc|pod}.{namespace}.ns.{context}. */
  function ParseCore(core: string, scheme: string): Option<Route> {
    var atNs := CutLast(core, NS);
    if atNs.None? then None
    else
      var (rest, context) := atNs.value;
      var atSvc, atPod := CutLast(rest, SVC), CutLast(rest, POD);
      if atSvc.Some? then MakeRoute(atSvc.value.0, true, atSvc.value.1, context, scheme)
      else if atPod.Some? then MakeRoute(atPod.value.0, false, atPod.value.1, context, scheme)
      else None
  }

  function MakeRoute(targetPort: string, isService: bool, namespace: string, context: string, scheme: string)
    : Option<Route>
  {
    if context == "" || namespace == "" || targetPort == "" then None
    else
      var atDash := CutLast(targetPort, "-");
      if atDash.None? then None
      else
        var (name, portStr) := atDash.value;
        if name == "" || portStr == "" then None
        else
          var port := Atoi(portStr);
          if port.None? || port.value <= 0 || port.value > 65535 then None
          else Some(Route(context, namespace, if isService then name else "", if isService then "" else name,
                          port.value, scheme))
  }

  // ---------------------------------------------------------------- printing

  function Name(r: Route): string {
    if r.service != "" then r.service else r.pod
  }

  function Kind(r: Route): string {
    if r.service != "" then SVC else POD
  }

  function TargetPort(name: string, portStr: string): string {
    name + "-" + portStr
  }

  /** The parts of a route with a port written as portStr. */
  function SpellCore(r: Route, portStr: string): string {
    TargetPort(Name(r), portStr) + Kind(r) + r.namespace + NS + r.context
  }

  function Spell(r: Route, portStr: string, dynamicHost: string): string {
    SpellCore(r, portStr) + (CX + dynamicHost)
  }

  function Print(r: Route, dynamicHost: string): string
    requires ValidRoute(r)
  {
    Spell(r, Itoa(r.port), dynamicHost)
  }

  /** No part of the route looks like a separator where the parser would take it for one. */
  predicate Unambiguous(r: Route) {
    && !Contains("." + r.context, NS)
    && !Contains("." + r.namespace, SVC)
    && (r.service == "" ==> !Contains("." + r.namespace, POD) && !Contains(r.pod, SVC))
  }

  // ---------------------------------------------------------------- cutting at separators

  lemma Separators()
    ensures NS == Separator('.', "ns") && SVC == Separator('.', "svc") && POD == Separator('.', "pod")
  {
  }

  /** Cutting at the last separator gives the parts back, or a shorter right part. */
  lemma CutAppended(a: string, word: string, b: string)
    requires '.' !in word
    ensures var sep := Separator('.', word);
      var cut := CutLast(a + sep + b, sep);
      && cut.Some?
      && (cut == Some((a, b)) <==> !Contains("." + b, sep))
      && (Contains("." + b, sep) ==> |cut.value.1| < |b|)
  {
    var sep := Separator('.', word);
    LastSeparator(a, '.', word, b);
  }

  /** What can stand where the port is read: the text from the last dash to the next dot. */
  predicate IsPortPart(s: string) {
    '.' !in s && '-' !in s
  }

  lemma CutTargetPort(name: string, portStr: string)
    requires IsPortPart(portStr)
    ensures CutLast(TargetPort(name, portStr), "-") == Some((name, portStr))
  {
    LastDelim(name, '-', portStr);
  }

  /** The parts make a route exactly when the port part is read as a port in range. */
  lemma MakesRoute(r: Route, portStr: string)
    requires ValidRoute(r) && IsPortPart(portStr)
    ensures var made := MakeRoute(TargetPort(Name(r), portStr), r.service != "", r.namespace, r.context, r.scheme);
      && (made.Some? <==> Atoi(portStr).Some? && 0 < Atoi(portStr).value <= 65535)
      && (made.Some? ==> made.value == r.(port := Atoi(portStr).value))
  {
    CutTargetPort(Name(r), portStr);
  }

  /** A dot-delimited separator cannot reach into, or across, the dash and the port part. */
  lemma NotPastName(name: string, portStr: string, tail: string, word: string, k: nat)
    requires '-' !in word && IsPortPart(portStr)
    requires |name| < k + |Separator('.', word)| && k < |TargetPort(name, portStr)|
    ensures !OccursAt(TargetPort(name, portStr) + tail, Separator('.', word), k)
  {
    var s, sep := TargetPort(name, portStr) + tail, Separator('.', word);
    if k <= |name| {
      assert s[|name|] == '-';
      NotOccurs(s, sep, k, |name| - k);
    } else {
      assert s[k] == portStr[k - |name| - 1];
      NotOccurs(s, sep, k, 0);
    }
  }

  lemma TargetPortHides(name: string, portStr: string, word: string)
    requires '-' !in word && IsPortPart(portStr)
    requires Contains(TargetPort(name, portStr), Separator('.', word))
    ensures Contains(name, Separator('.', word))
  {
    var s, sep := TargetPort(name, portStr), Separator('.', word);
    var k := LastIndex(s, sep);
    if |name| < k + |sep| {
      assert s == s + "";
      NotPastName(name, portStr, "", word, k);
    }
    assert name[k..k + |sep|] == s[k..k + |sep|];
    assert OccursAt(name, sep, k);
  }

  /** Where a ".svc." can hide in {pod}-{port}.pod.{namespace}. */
  lemma SvcInPodRoute(name: string, portStr: string, namespace: string)
    requires IsPortPart(portStr)
    ensures Contains(TargetPort(name, portStr) + POD + namespace, SVC)
       <==> Contains(name, SVC) || Contains("." + namespace, SVC)
  {
    Separators();
    var tp := TargetPort(name, portStr);
    var s := tp + POD + namespace;
    var head := tp + ".pod";
    assert s == head + ("." + namespace);
    if !Contains(s, SVC) {
      PartsHideNoSvc(name, portStr, namespace);
    } else {
      var k := LastIndex(s, SVC);
      if k >= |head| {
        OccursAtShift(head, "." + namespace, SVC, k - |head|);
      } else if k + |SVC| <= |tp| {
        assert tp[k..k + |SVC|] == s[k..k + |SVC|];
        assert OccursAt(tp, SVC, k);
        TargetPortHides(name, portStr, "svc");
      } else {
        SvcNotAcross(name, portStr, namespace, k);
      }
    }
  }

  lemma SvcNotAcross(name: string, portStr: string, namespace: string, k: nat)
    requires IsPortPart(portStr)
    requires var tp := TargetPort(name, portStr); |tp| < k + |SVC| && k < |tp| + 4
    ensures !OccursAt(TargetPort(name, portStr) + POD + namespace, SVC, k)
  {
    var tp := TargetPort(name, portStr);
    var s := tp + POD + namespace;
    if k < |tp| {
      assert s == tp + (POD + namespace);
      NotPastName(name, portStr, POD + namespace, "svc", k);
    } else {
      assert s[|tp|] == '.' && s[|tp| + 1] == 'p' && s[|tp| + 2] == 'o' && s[|tp| + 3] == 'd';
      NotOccurs(s, SVC, k, if k == |tp| then 1 else 0);
    }
  }

  lemma PartsHideNoSvc(name: string, portStr: string, namespace: string)
    requires !Contains(TargetPort(name, portStr) + POD + namespace, SVC)
    ensures !Contains(name, SVC) && !Contains("." + namespace, SVC)
  {
    var s := TargetPort(name, portStr) + POD + namespace;
    if Contains(name, SVC) {
      assert s == "" + name + ("-" + portStr + POD + namespace);
      ContainsIn("", name, "-" + portStr + POD + namespace, SVC);
    }
    if Contains("." + namespace, SVC) {
      assert s == (TargetPort(name, portStr) + ".pod") + ("." + namespace) + "";
      ContainsIn(TargetPort(name, portStr) + ".pod", "." + namespace, "", SVC);
    }
  }

  // ---------------------------------------------------------------- spelled hostnames

  /** The parts are cut out again exactly when no part looks like a separator; otherwise others come out. */
  lemma ParsesSpelledCore(r: Route, portStr: string)
    requires ValidRoute(r) && IsPortPart(portStr)
    ensures var parsed := ParseCore(SpellCore(r, portStr), r.scheme);
      if Unambiguous(r) then
        parsed == MakeRoute(TargetPort(Name(r), portStr), r.service != "", r.namespace, r.context, r.scheme)
      else parsed != Some(r)
  {
    Separators();
    var rest := TargetPort(Name(r), portStr) + Kind(r) + r.namespace;
    CutAppended(rest, "ns", r.context);
    if !Contains("." + r.context, NS) {
      if r.service != "" {
        CutAppended(TargetPort(Name(r), portStr), "svc", r.namespace);
      } else {
        CutAppended(TargetPort(Name(r), portStr), "pod", r.namespace);
        SvcInPodRoute(r.pod, portStr, r.namespace);
      }
    }
  }

  lemma ParsesSpelled(r: Route, portStr: string, dynamicHost: string)
    requires dynamicHost != ""
    ensures ParseDynamicHostname(Spell(r, portStr, dynamicHost), dynamicHost, r.scheme)
         == ParseCore(SpellCore(r, portStr), r.scheme)
  {
    var core, suffix := SpellCore(r, portStr), CX + dynamicHost;
    assert Spell(r, portStr, dynamicHost) == core + suffix;
    assert (core + suffix)[|core|..] == suffix && (core + suffix)[..|core|] == core;
  }

  /**
   * Whether a hostname with parts that hide no separator is accepted is up to its port part alone: it must be a
   * decimal spelling of a port from 1 to 65535, and the route then has that port.
   */
  lemma PortPartDecides(r: Route, portStr: string, dynamicHost: string)
    requires ValidRoute(r) && Unambiguous(r) && dynamicHost != "" && IsPortPart(portStr)
    ensures var parsed := ParseDynamicHostname(Spell(r, portStr, dynamicHost), dynamicHost, r.scheme);
      && (forall p | 0 < p <= 65535 :: parsed == Some(r.(port := p)) <==> Spells(portStr, p))
      && (parsed.None? <==> forall p | 0 < p <= 65535 :: !Spells(portStr, p))
  {
    ParsesSpelled(r, portStr, dynamicHost);
    ParsesSpelledCore(r, portStr);
    MakesRoute(r, portStr);
    forall p: Int64
      ensures Atoi(portStr) == Some(p) <==> Spells(portStr, p)
    {
      AtoiIff(portStr, p);
    }
  }

  /**
   * Printing a route and parsing it gives the same route back exactly when no separator hides in "." and the
   * context, in "." and the namespace, or (for pods) in the name.  Names may hold dashes and dots, and any
   * port from 1 to 65535 will do.
   */
  lemma RoundTripIff(r: Route, dynamicHost: string)
    requires ValidRoute(r) && dynamicHost != ""
    ensures ParseDynamicHostname(Print(r, dynamicHost), dynamicHost, r.scheme) == Some(r) <==> Unambiguous(r)
  {
    PrintedSpells(r.port);
    SpellingIsPlain(Itoa(r.port), r.port);
    ParsesSpelled(r, Itoa(r.port), dynamicHost);
    ParsesSpelledCore(r, Itoa(r.port));
    if Unambiguous(r) {
      PortPartDecides(r, Itoa(r.port), dynamicHost);
    }
  }

  // ---------------------------------------------------------------- what a parsed hostname looks like

  /** The hostname is the concatenation of the route's parts, with some decimal spelling of its port. */
  ghost predicate SpelledBy(hostname: string, dynamicHost: string, r: Route, portStr: string) {
    hostname == Spell(r, portStr, dynamicHost) && Spells(portStr, r.port)
  }

  lemma ParsedRouteIsSpelled(hostname: string, dynamicHost: string, scheme: string) returns (portStr: string)
    requires ParseDynamicHostname(hostname, dynamicHost, scheme).Some?
    ensures var r := ParseDynamicHostname(hostname, dynamicHost, scheme).value;
      ValidRoute(r) && r.scheme == scheme && SpelledBy(hostname, dynamicHost, r, portStr)
  {
    var r := ParseDynamicHostname(hostname, dynamicHost, scheme).value;
    var suffix := CX + dynamicHost;
    var core := hostname[..|hostname| - |suffix|];
    assert hostname == core + suffix;
    var (rest, context) := CutLast(core, NS).value;
    var (targetPort, namespace) :=
      if CutLast(rest, SVC).Some? then CutLast(rest, SVC).value else CutLast(rest, POD).value;
    portStr := CutLast(targetPort, "-").value.1;
    AtoiIff(portStr, r.port);
  }

  lemma CutIsClean(s: string, word: string)
    requires '.' !in word && CutLast(s, Separator('.', word)).Some?
    ensures !Contains("." + CutLast(s, Separator('.', word)).value.1, Separator('.', word))
  {
    var sep := Separator('.', word);
    var (a, b) := CutLast(s, sep).value;
    LastSeparator(a, '.', word, b);
  }

  lemma ParsedRouteIsUnambiguous(hostname: string, dynamicHost: string, scheme: string)
    requires ParseDynamicHostname(hostname, dynamicHost, scheme).Some?
    ensures Unambiguous(ParseDynamicHostname(hostname, dynamicHost, scheme).value)
  {
    Separators();
    var core := hostname[..|hostname| - |CX + dynamicHost|];
    var rest := CutLast(core, NS).value.0;
    CutIsClean(core, "ns");
    if CutLast(rest, SVC).Some? {
      CutIsClean(rest, "svc");
    } else {
      CutIsClean(rest, "pod");
      var (targetPort, namespace) := CutLast(rest, POD).value;
      var (name, portStr) := CutLast(targetPort, "-").value;
      PartsHideNoSvc(name, portStr, namespace);
    }
  }

  /**
   * The parser's range is exactly the unambiguous valid routes: every hostname it accepts gives one, and
   * printing that route yields a canonical hostname with the same meaning.
   */
  lemma ParsedRouteIsCanonical(hostname: string, dynamicHost: string, scheme: string)
    requires ParseDynamicHostname(hostname, dynamicHost, scheme).Some?
    ensures var r := ParseDynamicHostname(hostname, dynamicHost, scheme).value;
      && ValidRoute(r) && Unambiguous(r)
      && ParseDynamicHostname(Print(r, dynamicHost), dynamicHost, scheme) == Some(r)
  {
    var portStr := ParsedRouteIsSpelled(hostname, dynamicHost, scheme);
    ParsedRouteIsUnambiguous(hostname, dynamicHost, scheme);
    RoundTripIff(ParseDynamicHostname(hostname, dynamicHost, scheme).value, dynamicHost);
  }

  /** A valid route whose hostname is read as another one: its context holds ".ns.". */
  lemma SomeRoutesDoNotRoundTrip(dynamicHost: string)
    requires dynamicHost != ""
    ensures var r := Route("eu.ns.prod", "web", "api", "", 443, "https");
      ValidRoute(r) && ParseDynamicHostname(Print(r, dynamicHost), dynamicHost, "https") != Some(r)
  {
    var r := Route("eu.ns.prod", "web", "api", "", 443, "https");
    assert ("." + r.context)[3..7] == NS;
    assert OccursAt("." + r.context, NS, 3);
    RoundTripIff(r, dynamicHost);
  }

  /** The hostname names the route: some spelling of its parts, which hide no separator. */
  ghost predicate NamesRoute(hostname: string, dynamicHost: string, scheme: string, r: Route) {
    && dynamicHost != "" && r.scheme == scheme && ValidRoute(r) && Unambiguous(r)
    && exists portStr :: SpelledBy(hostname, dynamicHost, r, portStr)
  }

  /** The parser accepts exactly the hostnames that name a route, and returns the route they name. */
  lemma ParsesExactlyTheNames(hostname: string, dynamicHost: string, scheme: string, r: Route)
    ensures ParseDynamicHostname(hostname, dynamicHost, scheme) == Some(r) <==>
            NamesRoute(hostname, dynamicHost, scheme, r)
  {
    if ParseDynamicHostname(hostname, dynamicHost, scheme) == Some(r) {
      var portStr := ParsedRouteIsSpelled(hostname, dynamicHost, scheme);
      ParsedRouteIsUnambiguous(hostname, dynamicHost, scheme);
    }
    if NamesRoute(hostname, dynamicHost, scheme, r) {
      var portStr :| SpelledBy(hostname, dynamicHost, r, portStr);
      SpellingIsPlain(portStr, r.port);
      PortPartDecides(r, portStr, dynamicHost);
    }
  }

  /** So it refuses a hostname exactly when that names no route. */
  lemma RefusesIff(hostname: string, dynamicHost: string, scheme: string)
    ensures ParseDynamicHostname(hostname, dynamicHost, scheme).None? <==>
            forall r :: !NamesRoute(hostname, dynamicHost, scheme, r)
  {
    forall r: Route
      ensures NamesRoute(hostname, dynamicHost, scheme, r) <==>
              ParseDynamicHostname(hostname, dynamicHost, scheme) == Some(r)
    {
      ParsesExactlyTheNames(hostname, dynamicHost, scheme, r);
    }
  }

  /** And no hostname names two routes. */
  lemma NamesOneRoute(hostname: string, dynamicHost: string, scheme: string, r: Route, r': Route)
    requires NamesRoute(hostname, dynamicHost, scheme, r) && NamesRoute(hostname, dynamicHost, scheme, r')
    ensures r == r'
  {
    ParsesExactlyTheNames(hostname, dynamicHost, scheme, r);
    ParsesExactlyTheNames(hostname, dynamicHost, scheme, r');
  }
}
