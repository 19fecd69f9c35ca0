/**
 * Recency order of a history of uses: the reference against which the certificate cache is judged.
 * Sequences are taken apart from the front, histories from the back.
 */
module RecencyOrder {

  function Reverse<T>(s: seq<T>): seq<T> {
    if s == [] then [] else Reverse(s[1..]) + [s[0]]
  }

  function Without<T(==)>(s: seq<T>, x: T): seq<T> {
    if s == [] then []
    else if s[0] == x then Without(s[1..], x)
    else [s[0]] + Without(s[1..], x)
  }

  /** Keeps the first occurrence of every element. */
  function WithoutRepeats<T(==)>(s: seq<T>): seq<T> {
    if s == [] then [] else [s[0]] + Without(WithoutRepeats(s[1..]), s[0])
  }

  /** The first n elements, or all when there are fewer. */
  function Take<T>(n: nat, s: seq<T>): seq<T> {
    if n == 0 || s == [] then [] else [s[0]] + Take(n - 1, s[1..])
  }

  /** The elements of a history by recency of use: the history reversed, later repetitions dropped. */
  function ByRecency<T(==)>(history: seq<T>): seq<T> {
    WithoutRepeats(Reverse(history))
  }

  predicate NoRepeats<T(==)>(s: seq<T>) {
    s == [] || (s[0] !in s[1..] && NoRepeats(s[1..]))
  }

  lemma {:induction false} ReverseSnoc<T>(s: seq<T>, x: T)
    ensures Reverse(s + [x]) == [x] + Reverse(s)
  {
    if s == [] {
      assert s + [x] == [x];
    } else {
      ReverseSnoc(s[1..], x);
      assert (s + [x])[1..] == s[1..] + [x];
    }
  }

  lemma {:induction false} InReverse<T>(s: seq<T>, x: T)
    ensures x in Reverse(s) <==> x in s
  {
    if s != [] {
      InReverse(s[1..], x);
    }
  }

  lemma {:induction false} InWithout<T>(s: seq<T>, x: T, y: T)
    ensures y in Without(s, x) <==> y in s && y != x
  {
    if s != [] {
      InWithout(s[1..], x, y);
    }
  }

  lemma {:induction false} WithoutAbsent<T>(s: seq<T>, x: T)
    requires x !in s
    ensures Without(s, x) == s
  {
    if s != [] {
      WithoutAbsent(s[1..], x);
    }
  }

  lemma {:induction false} InWithoutRepeats<T>(s: seq<T>, x: T)
    ensures x in WithoutRepeats(s) <==> x in s
  {
    if s != [] {
      InWithoutRepeats(s[1..], x);
      InWithout(WithoutRepeats(s[1..]), s[0], x);
    }
  }

  lemma {:induction false} WithoutNoRepeats<T>(s: seq<T>, x: T)
    requires NoRepeats(s)
    ensures NoRepeats(Without(s, x))
  {
    if s != [] {
      WithoutNoRepeats(s[1..], x);
      InWithout(s[1..], x, s[0]);
      assert s[0] != x ==> Without(s, x)[1..] == Without(s[1..], x);
    }
  }

  lemma {:induction false} WithoutRepeatsHasNone<T>(s: seq<T>)
    ensures NoRepeats(WithoutRepeats(s))
  {
    if s != [] {
      WithoutRepeatsHasNone(s[1..]);
      WithoutNoRepeats(WithoutRepeats(s[1..]), s[0]);
      InWithout(WithoutRepeats(s[1..]), s[0], s[0]);
      assert WithoutRepeats(s)[1..] == Without(WithoutRepeats(s[1..]), s[0]);
    }
  }

  /** One more use moves its element to the front. */
  lemma ByRecencySnoc<T>(history: seq<T>, x: T)
    ensures ByRecency(history + [x]) == [x] + Without(ByRecency(history), x)
  {
    ReverseSnoc(history, x);
    assert ([x] + Reverse(history))[1..] == Reverse(history);
  }

  lemma {:induction false} TakeLength<T>(n: nat, s: seq<T>)
    ensures |Take(n, s)| == if n <= |s| then n else |s|
    ensures Take(n, s) <= s
  {
    if n > 0 && s != [] {
      TakeLength(n - 1, s[1..]);
    }
  }

  lemma {:induction false} TakeTake<T>(n: nat, m: nat, s: seq<T>)
    requires n <= m
    ensures Take(n, Take(m, s)) == Take(n, s)
  {
    if n > 0 && s != [] {
      TakeTake(n - 1, m - 1, s[1..]);
      assert Take(m, s)[1..] == Take(m - 1, s[1..]);
    }
  }

  lemma {:induction false} InTake<T>(n: nat, s: seq<T>, x: T)
    requires x in Take(n, s)
    ensures x in s
  {
    if x != s[0] {
      InTake(n - 1, s[1..], x);
    }
  }

  lemma {:induction false} TakeNoRepeats<T>(n: nat, s: seq<T>)
    requires NoRepeats(s)
    ensures NoRepeats(Take(n, s))
  {
    if n > 0 && s != [] {
      TakeNoRepeats(n - 1, s[1..]);
      if s[0] in Take(n - 1, s[1..]) {
        InTake(n - 1, s[1..], s[0]);
      }
      assert Take(n, s)[1..] == Take(n - 1, s[1..]);
    }
  }

  /** Cutting to one more before removing an element loses nothing of the first n that remain. */
  lemma {:induction false} TakeWithout<T>(n: nat, s: seq<T>, x: T)
    requires NoRepeats(s)
    ensures Take(n, Without(Take(n + 1, s), x)) == Take(n, Without(s, x))
  {
    if s != [] {
      var rest := s[1..];
      assert Take(n + 1, s)[1..] == Take(n, rest);
      TakeLength(n, rest);
      if s[0] == x {
        WithoutAbsent(rest, x);
        WithoutAbsent(Take(n, rest), x);
        TakeTake(n, n, rest);
      } else if n > 0 {
        TakeWithout(n - 1, rest, x);
        assert Without(s, x)[1..] == Without(rest, x);
        assert Without(Take(n + 1, s), x)[1..] == Without(Take(n, rest), x);
      }
    }
  }

  // ---------------------------------------------------------------- order of last use

  /** The position of the last use, or -1. */
  function LastUse<T(==)>(history: seq<T>, x: T): int {
    if history == [] then -1
    else if history[|history| - 1] == x then |history| - 1
    else LastUse(history[..|history| - 1], x)
  }

  /** LastUse is a position of x, and the last one. */
  lemma {:induction false} LastUseIsLast<T>(history: seq<T>, x: T)
    ensures LastUse(history, x) < |history| && (LastUse(history, x) >= 0 <==> x in history)
    ensures x in history ==> history[LastUse(history, x)] == x && x !in history[LastUse(history, x) + 1..]
  {
    if history != [] {
      var n := |history| - 1;
      assert history == history[..n] + [history[n]];
      if history[n] != x {
        LastUseIsLast(history[..n], x);
        if x in history {
          var k := LastUse(history, x);
          assert history[k + 1..] == history[..n][k + 1..] + [history[n]];
        }
      }
    }
  }

  predicate Above<T(==)>(history: seq<T>, x: T, s: seq<T>) {
    s == [] || (LastUse(history, x) > LastUse(history, s[0]) && Above(history, x, s[1..]))
  }

  /** Every element was used later than all that follow it. */
  predicate Ordered<T(==)>(history: seq<T>, s: seq<T>) {
    s == [] || (Above(history, s[0], s[1..]) && Ordered(history, s[1..]))
  }

  lemma {:induction false} AboveAt<T>(history: seq<T>, x: T, s: seq<T>, i: nat)
    requires Above(history, x, s) && i < |s|
    ensures LastUse(history, x) > LastUse(history, s[i])
  {
    if i > 0 {
      AboveAt(history, x, s[1..], i - 1);
    }
  }

  lemma {:induction false} OrderedAt<T>(history: seq<T>, s: seq<T>, i: nat, j: nat)
    requires Ordered(history, s) && i < j < |s|
    ensures LastUse(history, s[i]) > LastUse(history, s[j])
  {
    if i == 0 {
      AboveAt(history, s[0], s[1..], j - 1);
    } else {
      OrderedAt(history, s[1..], i - 1, j - 1);
    }
  }

  lemma {:induction false} WithoutAbove<T>(history: seq<T>, y: T, s: seq<T>, x: T)
    requires Above(history, y, s)
    ensures Above(history, y, Without(s, x))
  {
    if s != [] {
      WithoutAbove(history, y, s[1..], x);
      assert s[0] != x ==> Without(s, x)[1..] == Without(s[1..], x);
    }
  }

  lemma {:induction false} WithoutOrdered<T>(history: seq<T>, s: seq<T>, x: T)
    requires Ordered(history, s)
    ensures Ordered(history, Without(s, x))
  {
    if s != [] {
      WithoutOrdered(history, s[1..], x);
      WithoutAbove(history, s[0], s[1..], x);
      assert s[0] != x ==> Without(s, x)[1..] == Without(s[1..], x);
    }
  }

  /** A use of another element changes nothing about the order of the rest, and is above them all. */
  lemma {:induction false} LaterAbove<T>(history: seq<T>, last: T, y: T, s: seq<T>)
    requires last !in s
    ensures Above(history + [last], last, s)
    ensures y != last && Above(history, y, s) ==> Above(history + [last], y, s)
  {
    if s != [] {
      LaterAbove(history, last, y, s[1..]);
      LastUseIsLast(history, s[0]);
    }
  }

  lemma {:induction false} LaterOrdered<T>(history: seq<T>, last: T, s: seq<T>)
    requires Ordered(history, s) && last !in s
    ensures Ordered(history + [last], s)
  {
    if s != [] {
      LaterAbove(history, last, s[0], s[1..]);
      LaterOrdered(history, last, s[1..]);
    }
  }

  /** ByRecency lists exactly the elements used, once each, latest use first. */
  lemma {:induction false} ByRecencyIsOrdered<T>(history: seq<T>)
    ensures Ordered(history, ByRecency(history)) && NoRepeats(ByRecency(history))
  {
    WithoutRepeatsHasNone(Reverse(history));
    if history != [] {
      var before, last := history[..|history| - 1], history[|history| - 1];
      assert history == before + [last];
      ByRecencyIsOrdered(before);
      ByRecencySnoc(before, last);
      var rest := Without(ByRecency(before), last);
      InWithout(ByRecency(before), last, last);
      WithoutOrdered(before, ByRecency(before), last);
      LaterOrdered(before, last, rest);
      LaterAbove(before, last, last, rest);
      assert ([last] + rest)[1..] == rest;
    }
  }

  lemma InByRecency<T>(history: seq<T>, x: T)
    ensures x in ByRecency(history) <==> x in history
  {
    InWithoutRepeats(Reverse(history), x);
    InReverse(history, x);
  }

  /** When a use of x pushes an element out of a full list of n, it was the last one. */
  lemma PushedOutIsLast<T>(l: seq<T>, n: nat, x: T, v: nat)
    requires NoRepeats(l) && 1 <= n && |l| <= n && v < |l|
    requires l[v] !in [x] + Take(n - 1, Without(l, x))
    ensures v == |l| - 1
  {
    InWithout(l, x, l[v]);
    TakeLength(n - 1, Without(l, x));
    if x in l {
      WithoutShorter(l, x);
    } else {
      WithoutAbsent(l, x);
      EarlyInTake(n - 1, l, v);
    }
  }

  lemma {:induction false} EarlyInTake<T>(n: nat, s: seq<T>, v: nat)
    requires v < |s|
    ensures v < n ==> s[v] in Take(n, s)
  {
    if 0 < v < n {
      EarlyInTake(n - 1, s[1..], v - 1);
    }
  }

  lemma {:induction false} WithoutShorter<T>(s: seq<T>, x: T)
    ensures |Without(s, x)| <= |s|
    ensures x in s ==> |Without(s, x)| < |s|
  {
    if s != [] {
      WithoutShorter(s[1..], x);
    }
  }

  lemma {:induction false} TakeOrdered<T>(history: seq<T>, n: nat, s: seq<T>)
    requires Ordered(history, s)
    ensures Ordered(history, Take(n, s))
  {
    if n > 0 && s != [] {
      TakeOrdered(history, n - 1, s[1..]);
      TakeAbove(history, s[0], n - 1, s[1..]);
      assert Take(n, s)[1..] == Take(n - 1, s[1..]);
    }
  }

  lemma {:induction false} TakeAbove<T>(history: seq<T>, x: T, n: nat, s: seq<T>)
    requires Above(history, x, s)
    ensures Above(history, x, Take(n, s))
  {
    if n > 0 && s != [] {
      TakeAbove(history, x, n - 1, s[1..]);
      assert Take(n, s)[1..] == Take(n - 1, s[1..]);
    }
  }

  /** An element pushed out of the n most recent was used before every other one of them. */
  lemma PushedOutIsOldest<T>(history: seq<T>, n: nat, x: T, victim: T, kept: T)
    requires 1 <= n && victim != kept
    requires var l := Take(n, ByRecency(history));
      victim in l && kept in l && victim !in [x] + Take(n - 1, Without(l, x))
    ensures 0 <= LastUse(history, victim) < LastUse(history, kept)
  {
    var order := ByRecency(history);
    var l := Take(n, order);
    ByRecencyIsOrdered(history);
    TakeNoRepeats(n, order);
    TakeOrdered(history, n, order);
    InTake(n, order, victim);
    InByRecency(history, victim);
    LastUseIsLast(history, victim);
    assert |l| <= n by {
      TakeLength(n, order);
    }
    var v: nat :| v < |l| && l[v] == victim;
    var k: nat :| k < |l| && l[k] == kept;
    PushedOutIsLast(l, n, x, v);
    OrderedAt(history, l, k, v);
  }
}
