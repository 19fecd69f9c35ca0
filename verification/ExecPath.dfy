/** Putting directories in front of PATH: existing ones only, each once, again at every reload. */
module ExecPath {
  import opened Wrappers
  import Text

  // ---------------------------------------------------------------- strings.Split and strings.Join

  function Split<T(==)>(s: seq<T>, sep: T): (parts: seq<seq<T>>)
    ensures parts != []
  {
    if s == [] then [[]]
    else if s[0] == sep then [[]] + Split(s[1..], sep)
    else
      var rest := Split(s[1..], sep);
      [[s[0]] + rest[0]] + rest[1..]
  }

  function Join<T>(parts: seq<seq<T>>, sep: T): seq<T>
    requires parts != []
  {
    if |parts| == 1 then parts[0] else parts[0] + [sep] + Join(parts[1..], sep)
  }

  predicate Free<T(==)>(parts: seq<seq<T>>, sep: T) {
    parts == [] || (sep !in parts[0] && Free(parts[1..], sep))
  }

  lemma {:induction false} JoinInvertsSplit<T>(s: seq<T>, sep: T)
    ensures Join(Split(s, sep), sep) == s
  {
    if s != [] {
      JoinInvertsSplit(s[1..], sep);
      var rest := Split(s[1..], sep);
      if s[0] == sep {
        assert ([[]] + rest)[1..] == rest;
        assert s == [sep] + s[1..];
      } else {
        assert ([[s[0]] + rest[0]] + rest[1..])[1..] == rest[1..];
        assert s == [s[0]] + s[1..];
      }
    }
  }

  lemma {:induction false} SplitAppend<T>(p: seq<T>, sep: T, s: seq<T>)
    requires sep !in p
    ensures Split(p + [sep] + s, sep) == [p] + Split(s, sep)
  {
    var whole := p + [sep] + s;
    if p == [] {
      assert whole[1..] == s;
    } else {
      SplitAppend(p[1..], sep, s);
      assert whole[1..] == p[1..] + [sep] + s;
      assert [p[0]] + p[1..] == p;
    }
  }

  lemma {:induction false} SplitOne<T>(p: seq<T>, sep: T)
    requires sep !in p
    ensures Split(p, sep) == [p]
  {
    if p != [] {
      SplitOne(p[1..], sep);
      assert [p[0]] + p[1..] == p;
    }
  }

  /** Splitting undoes joining when no part holds the separator. */
  lemma {:induction false} SplitInvertsJoin<T>(parts: seq<seq<T>>, sep: T)
    requires parts != [] && Free(parts, sep)
    ensures Split(Join(parts, sep), sep) == parts
  {
    if |parts| == 1 {
      SplitOne(parts[0], sep);
    } else {
      SplitInvertsJoin(parts[1..], sep);
      SplitAppend(parts[0], sep, Join(parts[1..], sep));
    }
  }

  /** No part of a split holds the separator. */
  lemma {:induction false} SplitIsFree<T>(s: seq<T>, sep: T, p: seq<T>)
    requires p in Split(s, sep)
    ensures sep !in p
  {
    if s != [] {
      var rest := Split(s[1..], sep);
      if s[0] == sep {
        if p != [] {
          SplitIsFree(s[1..], sep, p);
        }
      } else if p == [s[0]] + rest[0] {
        SplitIsFree(s[1..], sep, rest[0]);
      } else {
        assert p in rest[1..];
        SplitIsFree(s[1..], sep, p);
      }
    }
  }

  // ---------------------------------------------------------------- new entries

  /** Of the candidates, in order: those that exist and were not seen yet, each once. */
  function NewOnes<T(==)>(seen: set<T>, candidates: seq<T>, there: T -> bool): seq<T>
    decreases |candidates|
  {
    if candidates == [] then []
    else
      var (p, rest) := (candidates[0], candidates[1..]);
      if there(p) && p !in seen then [p] + NewOnes(seen + {p}, rest, there) else NewOnes(seen, rest, there)
  }

  predicate Distinct<T(==)>(s: seq<T>) {
    s == [] || (s[0] !in s[1..] && Distinct(s[1..]))
  }

  lemma {:induction false} NewOnesAre<T>(seen: set<T>, candidates: seq<T>, there: T -> bool, x: T)
    ensures x in NewOnes(seen, candidates, there) <==> x in candidates && there(x) && x !in seen
    decreases |candidates|
  {
    if candidates != [] {
      var (p, rest) := (candidates[0], candidates[1..]);
      NewOnesAre(seen + {p}, rest, there, x);
      NewOnesAre(seen, rest, there, x);
    }
  }

  lemma {:induction false} NewOnesDistinct<T>(seen: set<T>, candidates: seq<T>, there: T -> bool)
    ensures Distinct(NewOnes(seen, candidates, there))
    decreases |candidates|
  {
    if candidates != [] {
      var (p, rest) := (candidates[0], candidates[1..]);
      NewOnesDistinct(seen + {p}, rest, there);
      NewOnesDistinct(seen, rest, there);
      NewOnesAre(seen + {p}, rest, there, p);
      assert ([p] + NewOnes(seen + {p}, rest, there))[1..] == NewOnes(seen + {p}, rest, there);
    }
  }

  /** The new ones of the user's list come before those of the defaults. */
  lemma {:induction false} NewOnesInOrder<T>(seen: set<T>, user: seq<T>, defaults: seq<T>, there: T -> bool)
    ensures var mine := NewOnes(seen, user, there);
      NewOnes(seen, user + defaults, there) == mine + NewOnes(seen + (set p | p in mine), defaults, there)
    decreases |user|
  {
    if user == [] {
      assert user + defaults == defaults;
      assert seen + (set p | p in NewOnes(seen, user, there)) == seen;
    } else {
      var (p, rest) := (user[0], user[1..]);
      assert (user + defaults)[1..] == rest + defaults;
      var seen' := if there(p) && p !in seen then seen + {p} else seen;
      NewOnesInOrder(seen', rest, defaults, there);
      var mine := NewOnes(seen', rest, there);
      if there(p) && p !in seen {
        assert seen + (set q | q in [p] + mine) == seen' + (set q | q in mine);
      }
    }
  }

  lemma {:induction false} NoNewOnes<T>(seen: set<T>, candidates: seq<T>, there: T -> bool)
    requires forall p | p in candidates :: there(p) ==> p in seen
    ensures NewOnes(seen, candidates, there) == []
  {
    if candidates != [] {
      NoNewOnes(seen, candidates[1..], there);
    }
  }

  // ---------------------------------------------------------------- prepending to a list

  /** The joined entries, a separator, and the old list; no separator in front of an empty list. */
  function Attach<T(==)>(added: seq<seq<T>>, path: seq<T>, sep: T): seq<T> {
    if added == [] then path
    else if path == [] then Join(added, sep)
    else Join(added, sep) + [sep] + path
  }

  function Seen<T(==)>(path: seq<T>, sep: T): set<seq<T>> {
    set p | p in Split(path, sep)
  }

  function Added<T(==)>(path: seq<T>, candidates: seq<seq<T>>, sep: T, there: seq<T> -> bool): seq<seq<T>> {
    NewOnes(Seen(path, sep), candidates, there)
  }

  function Extend<T(==)>(path: seq<T>, candidates: seq<seq<T>>, sep: T, there: seq<T> -> bool): seq<T> {
    Attach(Added(path, candidates, sep, there), path, sep)
  }

  /** No candidate that exists holds the separator. */
  predicate Clean<T(==)>(candidates: seq<seq<T>>, sep: T, there: seq<T> -> bool) {
    forall p | p in candidates && there(p) :: sep !in p
  }

  lemma {:induction false} NewOnesFree<T>(seen: set<seq<T>>, candidates: seq<seq<T>>, sep: T, there: seq<T> -> bool)
    requires Clean(candidates, sep, there)
    ensures Free(NewOnes(seen, candidates, there), sep)
    decreases |candidates|
  {
    if candidates != [] {
      var (p, rest) := (candidates[0], candidates[1..]);
      NewOnesFree(seen + {p}, rest, sep, there);
      NewOnesFree(seen, rest, sep, there);
      assert ([p] + NewOnes(seen + {p}, rest, there))[1..] == NewOnes(seen + {p}, rest, there);
    }
  }

  lemma {:induction false} SplitJoinAppend<T>(added: seq<seq<T>>, sep: T, path: seq<T>)
    requires added != [] && Free(added, sep)
    ensures Split(Join(added, sep) + [sep] + path, sep) == added + Split(path, sep)
  {
    if |added| == 1 {
      SplitAppend(added[0], sep, path);
    } else {
      var rest := Join(added[1..], sep);
      SplitJoinAppend(added[1..], sep, path);
      SplitAppend(added[0], sep, rest + [sep] + path);
      Text.Assoc(added[0] + [sep], rest, [sep]);
      Text.Assoc(added[0] + [sep], rest + [sep], path);
      Text.Assoc([added[0]], added[1..], Split(path, sep));
      assert [added[0]] + added[1..] == added;
    }
  }

  /** The entries of the new list are the added ones and then the old ones. */
  lemma AttachedEntries<T>(added: seq<seq<T>>, path: seq<T>, sep: T)
    requires Free(added, sep)
    ensures Split(Attach(added, path, sep), sep)
         == if path == [] && added != [] then added else added + Split(path, sep)
  {
    if added != [] {
      SplitInvertsJoin(added, sep);
      SplitJoinAppend(added, sep, path);
    }
  }

  lemma {:induction false} JoinAppend<T>(a: seq<seq<T>>, b: seq<seq<T>>, sep: T)
    requires a != [] && b != []
    ensures Join(a + b, sep) == Join(a, sep) + [sep] + Join(b, sep)
  {
    if |a| == 1 {
      assert (a + b)[1..] == b;
    } else {
      JoinAppend(a[1..], b, sep);
      assert (a + b)[1..] == a[1..] + b;
      assert a[0] + [sep] + (Join(a[1..], sep) + [sep] + Join(b, sep))
          == (a[0] + [sep] + Join(a[1..], sep)) + [sep] + Join(b, sep);
    }
  }

  /** Attaching twice is attaching both, the later ones in front. */
  lemma AttachTwice<T>(a: seq<seq<T>>, b: seq<seq<T>>, path: seq<T>, sep: T)
    requires [] !in a
    ensures Attach(b, Attach(a, path, sep), sep) == Attach(b + a, path, sep)
  {
    if a == [] {
      assert b + a == b;
    } else if b == [] {
      assert b + a == a;
    } else {
      JoinAppend(b, a, sep);
      assert Join(b, sep) + [sep] + (Join(a, sep) + [sep] + path)
          == (Join(b, sep) + [sep] + Join(a, sep)) + [sep] + path;
    }
  }

  // ---------------------------------------------------------------- idempotence

  /** After the call every candidate that exists is an entry. */
  lemma ExtendCovers<T>(path: seq<T>, candidates: seq<seq<T>>, sep: T, there: seq<T> -> bool, p: seq<T>)
    requires !there([]) && Clean(candidates, sep, there) && p in candidates && there(p)
    ensures p in Split(Extend(path, candidates, sep, there), sep)
  {
    var added := Added(path, candidates, sep, there);
    NewOnesFree(Seen(path, sep), candidates, sep, there);
    AttachedEntries(added, path, sep);
    NewOnesAre(Seen(path, sep), candidates, there, p);
    assert path == [] ==> Split(path, sep) == [[]];
    assert p in added || p in Split(path, sep);
  }

  /** Extending is idempotent exactly when no candidate that exists holds the separator. */
  lemma ExtendTwiceIff<T>(path: seq<T>, candidates: seq<seq<T>>, sep: T, there: seq<T> -> bool)
    requires !there([])
    ensures var once := Extend(path, candidates, sep, there);
      Extend(once, candidates, sep, there) == once <==> Clean(candidates, sep, there)
  {
    var once := Extend(path, candidates, sep, there);
    if Clean(candidates, sep, there) {
      forall p | p in candidates && there(p)
        ensures p in Seen(once, sep)
      {
        ExtendCovers(path, candidates, sep, there, p);
      }
      NoNewOnes(Seen(once, sep), candidates, there);
    } else {
      // An entry that holds the separator is never found again, so it is added once more.
      var p :| p in candidates && there(p) && sep in p;
      if p in Split(once, sep) {
        SplitIsFree(once, sep, p);
      }
      NewOnesAre(Seen(once, sep), candidates, there, p);
      NewOnesAre(Seen(once, sep), candidates, there, Added(once, candidates, sep, there)[0]);
    }
  }

  // ---------------------------------------------------------------- sequences of calls

  function Run<T(==)>(path: seq<T>, calls: seq<seq<seq<T>>>, sep: T, there: seq<T> -> bool): seq<T>
    decreases |calls|
  {
    if calls == [] then path else Run(Extend(path, calls[0], sep, there), calls[1..], sep, there)
  }

  /** Everything a sequence of calls adds, in the order in which it then stands. */
  function AllAdded<T(==)>(path: seq<T>, calls: seq<seq<seq<T>>>, sep: T, there: seq<T> -> bool): seq<seq<T>>
    decreases |calls|
  {
    if calls == [] then []
    else AllAdded(Extend(path, calls[0], sep, there), calls[1..], sep, there) + Added(path, calls[0], sep, there)
  }

  predicate AllClean<T(==)>(calls: seq<seq<seq<T>>>, sep: T, there: seq<T> -> bool) {
    forall c | c in calls :: Clean(c, sep, there)
  }

  /** Whatever is called, the original list stays at the end, behind the added entries. */
  lemma {:induction false} RunAttaches<T>(path: seq<T>, calls: seq<seq<seq<T>>>, sep: T, there: seq<T> -> bool)
    requires !there([])
    ensures Run(path, calls, sep, there) == Attach(AllAdded(path, calls, sep, there), path, sep)
    decreases |calls|
  {
    if calls != [] {
      var once, added := Extend(path, calls[0], sep, there), Added(path, calls[0], sep, there);
      RunAttaches(once, calls[1..], sep, there);
      NewOnesAre(Seen(path, sep), calls[0], there, []);
      AttachTwice(added, AllAdded(once, calls[1..], sep, there), path, sep);
    }
  }

  lemma {:induction false} FreeAppend<T>(a: seq<seq<T>>, b: seq<seq<T>>, sep: T)
    requires Free(a, sep) && Free(b, sep)
    ensures Free(a + b, sep)
  {
    if a == [] {
      assert a + b == b;
    } else {
      FreeAppend(a[1..], b, sep);
      assert (a + b)[1..] == a[1..] + b;
    }
  }

  lemma {:induction false} AllAddedFree<T>(path: seq<T>, calls: seq<seq<seq<T>>>, sep: T, there: seq<T> -> bool)
    requires AllClean(calls, sep, there)
    ensures Free(AllAdded(path, calls, sep, there), sep)
    decreases |calls|
  {
    if calls != [] {
      var once := Extend(path, calls[0], sep, there);
      AllAddedFree(once, calls[1..], sep, there);
      NewOnesFree(Seen(path, sep), calls[0], sep, there);
      FreeAppend(AllAdded(once, calls[1..], sep, there), Added(path, calls[0], sep, there), sep);
    }
  }

  /**
   * Whatever is called, the original list stays a suffix; and its entries come after the added ones, unless it
   * was empty.
   */
  lemma OriginalStaysBehind<T>(path: seq<T>, calls: seq<seq<seq<T>>>, sep: T, there: seq<T> -> bool)
    requires !there([])
    ensures var r := Run(path, calls, sep, there); |path| <= |r| && r[|r| - |path|..] == path
    ensures AllClean(calls, sep, there) ==>
      var all := AllAdded(path, calls, sep, there);
      Split(Run(path, calls, sep, there), sep) == if path == [] && all != [] then all else all + Split(path, sep)
  {
    RunAttaches(path, calls, sep, there);
    if AllClean(calls, sep, there) {
      AllAddedFree(path, calls, sep, there);
      AttachedEntries(AllAdded(path, calls, sep, there), path, sep);
    }
  }

  /** Every added entry exists, and is not among the entries of the original list. */
  lemma {:induction false} AddedAreNew<T>(
      path: seq<T>, calls: seq<seq<seq<T>>>, sep: T, there: seq<T> -> bool, p: seq<T>)
    requires !there([]) && AllClean(calls, sep, there) && p in AllAdded(path, calls, sep, there)
    ensures there(p) && p !in Split(path, sep)
    decreases |calls|
  {
    var once, added := Extend(path, calls[0], sep, there), Added(path, calls[0], sep, there);
    NewOnesAre(Seen(path, sep), calls[0], there, p);
    if p !in added {
      AddedAreNew(once, calls[1..], sep, there, p);
      NewOnesFree(Seen(path, sep), calls[0], sep, there);
      AttachedEntries(added, path, sep);
    }
  }

  lemma {:induction false} DistinctAppend<T>(a: seq<T>, b: seq<T>)
    requires Distinct(a) && Distinct(b) && forall x | x in a :: x !in b
    ensures Distinct(a + b)
  {
    if a == [] {
      assert a + b == b;
    } else {
      assert (a + b)[1..] == a[1..] + b;
      DistinctAppend(a[1..], b);
    }
  }

  /** No entry is ever added twice, however often the configuration is reloaded. */
  lemma {:induction false} AddedOnce<T>(path: seq<T>, calls: seq<seq<seq<T>>>, sep: T, there: seq<T> -> bool)
    requires !there([]) && AllClean(calls, sep, there)
    ensures Distinct(AllAdded(path, calls, sep, there))
    decreases |calls|
  {
    if calls != [] {
      var once, added := Extend(path, calls[0], sep, there), Added(path, calls[0], sep, there);
      var later := AllAdded(once, calls[1..], sep, there);
      AddedOnce(once, calls[1..], sep, there);
      NewOnesDistinct(Seen(path, sep), calls[0], there);
      NewOnesFree(Seen(path, sep), calls[0], sep, there);
      AttachedEntries(added, path, sep);
      forall p | p in later
        ensures p !in added
      {
        AddedAreNew(once, calls[1..], sep, there, p);
      }
      DistinctAppend(later, added);
    }
  }

  // ---------------------------------------------------------------- ExpandExecPath

  datatype Os = Darwin | Linux | OtherOs

  /** The file system, the home directory, path joining and the list separator, as the program finds them. */
  datatype System = System(stat: string -> bool, home: Option<string>, join: seq<string> -> string, os: Os, sep: char)

  function DefaultExecPaths(sys: System): seq<string> {
    var paths := match sys.os
      case Darwin => ["/usr/local/bin", "/opt/homebrew/bin", "/opt/homebrew/sbin"]
      case Linux => ["/usr/local/bin", "/usr/local/sbin", "/snap/bin"]
      case OtherOs => ["/usr/local/bin"];
    if sys.home.Some? && sys.home.value != "" then
      paths + [sys.join([sys.home.value, "bin"]), sys.join([sys.home.value, ".local", "bin"])]
    else paths
  }

  function ExpandTilde(path: string, sys: System): string {
    if |path| > 0 && path[0] == '~' && sys.home.Some? then sys.join([sys.home.value, path[1..]]) else path
  }

  function ExpandTildes(paths: seq<string>, sys: System): seq<string> {
    seq(|paths|, i requires 0 <= i < |paths| => ExpandTilde(paths[i], sys))
  }

  function Candidates(additional: seq<string>, sys: System): seq<string> {
    ExpandTildes(additional, sys) + DefaultExecPaths(sys)
  }

  /** A tilde in front stands for the home directory, if there is one; other paths are taken as they are. */
  lemma TildeExpands(rest: string, sys: System)
    ensures ExpandTilde("~" + rest, sys) ==
            if sys.home.Some? then sys.join([sys.home.value, rest]) else "~" + rest
    ensures rest == "" || rest[0] != '~' ==> ExpandTilde(rest, sys) == rest
  {
    assert ("~" + rest)[1..] == rest;
  }

  predicate InHome(p: string, sys: System) {
    && sys.home.Some? && sys.home.value != ""
    && (p == sys.join([sys.home.value, "bin"]) || p == sys.join([sys.home.value, ".local", "bin"]))
  }

  /** The candidates: the user's paths, expanded, the directories of the system, and two in the home directory. */
  lemma CandidateIff(additional: seq<string>, sys: System, p: string)
    ensures p in Candidates(additional, sys) <==>
      || (exists q :: q in additional && p == ExpandTilde(q, sys))
      || p == "/usr/local/bin"
      || (sys.os == Darwin && (p == "/opt/homebrew/bin" || p == "/opt/homebrew/sbin"))
      || (sys.os == Linux && (p == "/usr/local/sbin" || p == "/snap/bin"))
      || InHome(p, sys)
  {
    ExpandedIff(additional, sys, p);
    DefaultIff(sys, p);
  }

  lemma ExpandedIff(paths: seq<string>, sys: System, p: string)
    ensures p in ExpandTildes(paths, sys) <==> exists q :: q in paths && p == ExpandTilde(q, sys)
  {
    forall i | 0 <= i < |paths|
      ensures paths[i] in paths && ExpandTildes(paths, sys)[i] == ExpandTilde(paths[i], sys)
    {
    }
  }

  lemma DefaultIff(sys: System, p: string)
    ensures p in DefaultExecPaths(sys) <==>
      || p == "/usr/local/bin"
      || (sys.os == Darwin && (p == "/opt/homebrew/bin" || p == "/opt/homebrew/sbin"))
      || (sys.os == Linux && (p == "/usr/local/sbin" || p == "/snap/bin"))
      || InHome(p, sys)
  {
  }

  lemma NewOnesStep<T>(seen: set<T>, candidates: seq<T>, there: T -> bool, i: nat)
    requires i < |candidates|
    ensures var (before, p) := (NewOnes(seen, candidates[..i], there), candidates[i]);
      NewOnes(seen, candidates[..i + 1], there)
        == if there(p) && p !in seen && p !in before then before + [p] else before
  {
    var (before, p) := (NewOnes(seen, candidates[..i], there), candidates[i]);
    NewOnesInOrder(seen, candidates[..i], [p], there);
    assert candidates[..i + 1] == candidates[..i] + [p];
    assert NewOnes(seen + (set q | q in before), [p], there)
        == if there(p) && p !in seen && p !in before then [p] else [];
  }

  /** One loop over paths: appends the new ones to newPaths; existing holds all entries seen so far. */
  method AddPaths(paths: seq<string>, newPaths: seq<string>, existing: set<string>, sys: System)
    returns (newPaths': seq<string>, existing': set<string>)
    ensures newPaths' == newPaths + NewOnes(existing, paths, sys.stat)
    ensures existing' == existing + set q | q in NewOnes(existing, paths, sys.stat)
  {
    newPaths', existing' := newPaths, existing;
    for i := 0 to |paths|
      invariant newPaths' == newPaths + NewOnes(existing, paths[..i], sys.stat)
      invariant existing' == existing + set q | q in NewOnes(existing, paths[..i], sys.stat)
    {
      NewOnesStep(existing, paths, sys.stat, i);
      if sys.stat(paths[i]) {
        if paths[i] !in existing' {
          newPaths' := newPaths' + [paths[i]];
          existing' := existing' + {paths[i]};
        }
      }
    }
    assert paths[..|paths|] == paths;
  }

  /** The value of PATH after the call. */
  method ExpandExecPath(currentPath: string, additionalPaths: seq<string>, sys: System) returns (path: string)
    ensures path == Extend(currentPath, Candidates(additionalPaths, sys), sys.sep, sys.stat)
  {
    var existing := Seen(currentPath, sys.sep);
    var newPaths: seq<string> := [];
    newPaths, existing := AddPaths(ExpandTildes(additionalPaths, sys), newPaths, existing, sys);
    assert newPaths == NewOnes(Seen(currentPath, sys.sep), ExpandTildes(additionalPaths, sys), sys.stat);
    newPaths, existing := AddPaths(DefaultExecPaths(sys), newPaths, existing, sys);
    UserEntriesFirst(currentPath, additionalPaths, sys);
    assert newPaths == Added(currentPath, Candidates(additionalPaths, sys), sys.sep, sys.stat);
    path := currentPath;
    if |newPaths| > 0 {
      path := Join(newPaths, sys.sep);
      if currentPath != "" {
        path := path + [sys.sep] + currentPath;
      }
    }
  }

  /** Within one call the user's entries come first, then the defaults that are not among them. */
  lemma UserEntriesFirst(path: string, additional: seq<string>, sys: System)
    ensures var mine := NewOnes(Seen(path, sys.sep), ExpandTildes(additional, sys), sys.stat);
      Added(path, Candidates(additional, sys), sys.sep, sys.stat)
        == mine + NewOnes(Seen(path, sys.sep) + (set p | p in mine), DefaultExecPaths(sys), sys.stat)
  {
    NewOnesInOrder(Seen(path, sys.sep), ExpandTildes(additional, sys), DefaultExecPaths(sys), sys.stat);
  }
}
