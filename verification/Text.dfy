/** The string operations of the Go standard library that the sources rely on. */
module Text {
  import opened Wrappers

  // ---------------------------------------------------------------- strings.LastIndex

  predicate OccursAt<T(==)>(s: seq<T>, sub: seq<T>, i: int) {
    0 <= i && i + |sub| <= |s| && s[i..i + |sub|] == sub
  }

  predicate Contains<T(==)>(s: seq<T>, sub: seq<T>) {
    LastIndex(s, sub) != -1
  }

  /** The last occurrence that starts at i or before, or -1. */
  function LastIndexFrom<T(==)>(s: seq<T>, sub: seq<T>, i: int): (r: int)
    requires -1 <= i
    ensures -1 <= r <= i && (r != -1 ==> OccursAt(s, sub, r))
    ensures forall k | r < k <= i :: !OccursAt(s, sub, k)
  {
    if i == -1 then -1 else if OccursAt(s, sub, i) then i else LastIndexFrom(s, sub, i - 1)
  }

  function LastIndex<T(==)>(s: seq<T>, sub: seq<T>): (r: int)
    ensures -1 <= r && (r != -1 ==> OccursAt(s, sub, r))
    ensures forall k | r < k :: !OccursAt(s, sub, k)
  {
    LastIndexFrom(s, sub, |s|)
  }

  lemma LastIndexIs<T>(s: seq<T>, sub: seq<T>, r: int)
    requires OccursAt(s, sub, r) && forall k | r < k :: !OccursAt(s, sub, k)
    ensures LastIndex(s, sub) == r
  {
    assert !(LastIndex(s, sub) < r);
  }

  /** One wrong element rules an occurrence out. */
  lemma NotOccurs<T>(s: seq<T>, sub: seq<T>, k: nat, i: nat)
    requires i < |sub| && k + i < |s| && s[k + i] != sub[i]
    ensures !OccursAt(s, sub, k)
  {
    assert k + |sub| <= |s| ==> s[k..k + |sub|][i] == s[k + i];
  }

  /** A separator: a word without the delimiter, between two delimiters. */
  function Separator<T>(delim: T, word: seq<T>): seq<T> {
    [delim] + word + [delim]
  }

  lemma OccursAtShift<T>(a: seq<T>, b: seq<T>, sub: seq<T>, k: int)
    requires 0 <= k
    ensures OccursAt(a + b, sub, |a| + k) <==> OccursAt(b, sub, k)
  {
    if k + |sub| <= |b| {
      assert (a + b)[|a| + k..|a| + k + |sub|] == b[k..k + |sub|];
    }
  }

  /**
   * Where the last separator of a + sep + b is: the written one, unless the closing delimiter and b hold
   * another, and then further right.
   */
  lemma LastSeparator<T>(a: seq<T>, delim: T, word: seq<T>, b: seq<T>)
    requires delim !in word
    ensures var sep := Separator(delim, word);
      && LastIndex(a + sep + b, sep) >= |a|
      && (LastIndex(a + sep + b, sep) == |a| <==> !Contains([delim] + b, sep))
  {
    var sep := Separator(delim, word);
    var s, head := a + sep + b, a + [delim] + word;
    assert s == head + ([delim] + b);
    assert s[|a|..|a| + |sep|] == sep;
    assert OccursAt(s, sep, |a|);
    forall k | |a| < k < |head|
      ensures !OccursAt(s, sep, k)
    {
      assert s[k] == word[k - |a| - 1];
      NotOccurs(s, sep, k, 0);
    }
    forall k | |head| <= k
      ensures OccursAt(s, sep, k) <==> OccursAt([delim] + b, sep, k - |head|)
    {
      OccursAtShift(head, [delim] + b, sep, k - |head|);
    }
    if Contains([delim] + b, sep) {
      assert OccursAt(s, sep, |head| + LastIndex([delim] + b, sep));
    } else {
      LastIndexIs(s, sep, |a|);
    }
  }

  /** A part that holds a separator shows it in every larger text. */
  lemma ContainsIn<T>(a: seq<T>, s: seq<T>, b: seq<T>, sub: seq<T>)
    requires Contains(s, sub)
    ensures Contains(a + s + b, sub)
  {
    var k := LastIndex(s, sub);
    assert (a + s + b)[|a| + k..|a| + k + |sub|] == s[k..k + |sub|];
    assert OccursAt(a + s + b, sub, |a| + k);
  }

  lemma DelimAt<T>(s: seq<T>, delim: T, k: nat)
    requires k < |s|
    ensures OccursAt(s, [delim], k) <==> s[k] == delim
  {
    assert s[k..k + 1] == [s[k]];
  }

  /** Cutting at the last of a single delimiter. */
  lemma LastDelim<T>(a: seq<T>, delim: T, b: seq<T>)
    requires delim !in b
    ensures LastIndex(a + [delim] + b, [delim]) == |a|
  {
    var s := a + [delim] + b;
    forall k: nat | |a| <= k < |s|
      ensures OccursAt(s, [delim], k) <==> k == |a|
    {
      DelimAt(s, delim, k);
      assert k > |a| ==> s[k] == b[k - |a| - 1];
    }
    LastIndexIs(s, [delim], |a|);
  }

  /** There is one exactly when the delimiter is there, and what follows the last one is free of it. */
  lemma NoDelimAfter<T>(s: seq<T>, delim: T)
    ensures LastIndex(s, [delim]) == -1 <==> delim !in s
    ensures delim !in s[LastIndex(s, [delim]) + 1..]
  {
    forall k | 0 <= k < |s|
      ensures OccursAt(s, [delim], k) <==> s[k] == delim
    {
      DelimAt(s, delim, k);
    }
  }

  // ---------------------------------------------------------------- strconv

  predicate IsDigit(c: char) {
    '0' <= c <= '9'
  }

  predicate AllDigits(s: string) {
    s == "" || (IsDigit(s[0]) && AllDigits(s[1..]))
  }

  function Digit(n: nat): (c: char)
    requires n < 10
    ensures IsDigit(c) && c as int - '0' as int == n
  {
    (n + '0' as int) as char
  }

  function Value(s: string): nat
    requires AllDigits(s)
  {
    if s == "" then 0
    else
      InitDigits(s);
      10 * Value(s[..|s| - 1]) + (s[|s| - 1] as int - '0' as int)
  }

  lemma {:induction false} InitDigits(s: string)
    requires AllDigits(s) && s != ""
    ensures AllDigits(s[..|s| - 1]) && IsDigit(s[|s| - 1])
  {
    if |s| > 1 {
      InitDigits(s[1..]);
      assert s[..|s| - 1][1..] == s[1..][..|s| - 2];
    }
  }

  lemma {:induction false} SnocDigits(s: string, c: char)
    requires AllDigits(s) && IsDigit(c)
    ensures AllDigits(s + [c])
  {
    if s != "" {
      SnocDigits(s[1..], c);
      assert (s + [c])[1..] == s[1..] + [c];
    }
  }

  const MAX_INT64: int := 0x7fff_ffff_ffff_ffff

  /** The range of a 64-bit int. */
  type Int64 = x: int | -MAX_INT64 - 1 <= x <= MAX_INT64

  /** strconv.Atoi on a 64-bit int: optional sign, decimal digits, None for a syntax or a range error. */
  function Atoi(s: string): Option<Int64> {
    if s == "" then None
    else
      var digits := if s[0] == '-' || s[0] == '+' then s[1..] else s;
      if digits == "" || !AllDigits(digits) then None
      else
        var v: int := if s[0] == '-' then 0 - Value(digits) else Value(digits);
        if -MAX_INT64 - 1 <= v <= MAX_INT64 then Some(v) else None
  }

  /** Decimal printing, %d of a natural number. */
  function Itoa(n: nat): (s: string)
    ensures s != "" && AllDigits(s)
  {
    if n < 10 then [Digit(n)]
    else
      SnocDigits(Itoa(n / 10), Digit(n % 10));
      Itoa(n / 10) + [Digit(n % 10)]
  }

  lemma {:induction false} ValueOfItoa(n: nat)
    ensures Value(Itoa(n)) == n
  {
    if n >= 10 {
      ValueOfItoa(n / 10);
      var s := Itoa(n / 10);
      assert (s + [Digit(n % 10)])[..|s|] == s;
    } else {
      assert [Digit(n)][..0] == "";
    }
  }

  lemma AtoiInvertsItoa(n: nat)
    requires n <= MAX_INT64
    ensures Atoi(Itoa(n)) == Some(n)
  {
    ValueOfItoa(n);
    assert IsDigit(Itoa(n)[0]);
  }

  lemma {:induction false} DigitAt(s: string, i: nat)
    requires AllDigits(s) && i < |s|
    ensures IsDigit(s[i])
  {
    if i > 0 {
      DigitAt(s[1..], i - 1);
    }
  }

  // ---------------------------------------------------------------- what Atoi accepts, exactly

  function Zeros(k: nat): (s: string)
    ensures AllDigits(s) && |s| == k
  {
    if k == 0 then "" else "0" + Zeros(k - 1)
  }

  function Abs(n: int): nat {
    if n < 0 then -n else n
  }

  predicate IsSign(sign: string) {
    sign == "" || sign == "+" || sign == "-"
  }

  function Signed(sign: string, v: nat): int {
    if sign == "-" then 0 - v else v
  }

  /** A decimal spelling of n: a sign where one may stand, any number of zeros, and the digits. */
  predicate SpelledAs(s: string, n: int, sign: string, k: nat) {
    && s == sign + (Zeros(k) + Itoa(Abs(n)))
    && IsSign(sign) && Signed(sign, Abs(n)) == n
  }

  ghost predicate Spells(s: string, n: int) {
    exists sign, k :: SpelledAs(s, n, sign, k)
  }

  lemma Assoc<T>(a: seq<T>, b: seq<T>, c: seq<T>)
    ensures (a + b) + c == a + (b + c)
  {
  }

  lemma {:induction false} AppendDigits(a: string, b: string)
    requires AllDigits(a) && AllDigits(b)
    ensures AllDigits(a + b)
  {
    if a == "" {
      assert a + b == b;
    } else {
      AppendDigits(a[1..], b);
      assert (a + b)[1..] == a[1..] + b;
    }
  }

  /** The value of digits with one more in front, or at the end. */
  lemma {:induction false} LeadingZero(s: string)
    requires AllDigits(s)
    ensures AllDigits("0" + s) && Value("0" + s) == Value(s)
  {
    assert ("0" + s)[1..] == s;
    if s == "" {
      assert ("0" + s)[..0] == "";
    } else {
      InitDigits(s);
      LeadingZero(s[..|s| - 1]);
      assert ("0" + s)[..|s|] == "0" + s[..|s| - 1];
    }
  }

  lemma {:induction false} ValueOfSpelling(k: nat, n: nat)
    ensures AllDigits(Zeros(k) + Itoa(n)) && Value(Zeros(k) + Itoa(n)) == n
  {
    if k == 0 {
      assert Zeros(0) + Itoa(n) == Itoa(n);
      ValueOfItoa(n);
    } else {
      ValueOfSpelling(k - 1, n);
      LeadingZero(Zeros(k - 1) + Itoa(n));
      Assoc("0", Zeros(k - 1), Itoa(n));
    }
  }

  lemma {:induction false} ZerosSnoc(k: nat)
    ensures Zeros(k) + "0" == Zeros(k + 1)
  {
    if k > 0 {
      ZerosSnoc(k - 1);
      Assoc("0", Zeros(k - 1), "0");
    }
  }

  lemma DigitOf(c: char)
    requires IsDigit(c)
    ensures Itoa(c as int - '0' as int) == [c]
  {
  }

  /** Every non-empty string of digits is zeros and the printed form of its value. */
  lemma {:induction false} DigitsAreSpelling(s: string) returns (k: nat)
    requires AllDigits(s) && s != ""
    ensures s == Zeros(k) + Itoa(Value(s))
  {
    var n := |s| - 1;
    var front, c := s[..n], s[n];
    InitDigits(s);
    DigitOf(c);
    if front == "" {
      k := 0;
    } else {
      k := DigitsAreSpelling(front);
      if Value(front) == 0 {
        assert Itoa(0) == "0";
        ZerosSnoc(k);
        k := k + 1;
      } else {
        SnocOfItoa(Value(front), c);
        Assoc(Zeros(k), Itoa(Value(front)), [c]);
      }
    }
    assert s == front + [c];
  }

  lemma SnocOfItoa(v: nat, c: char)
    requires v > 0 && IsDigit(c)
    ensures Itoa(10 * v + (c as int - '0' as int)) == Itoa(v) + [c]
  {
    var d := c as int - '0' as int;
    assert (10 * v + d) / 10 == v && (10 * v + d) % 10 == d;
  }

  /** What becomes of a value: itself, if it is in range. */
  function InRange(v: int): Option<Int64> {
    if -MAX_INT64 - 1 <= v <= MAX_INT64 then Some(v) else None
  }

  lemma AtoiOfDigits(digits: string)
    requires AllDigits(digits) && digits != ""
    ensures Atoi(digits) == InRange(Value(digits))
  {
    assert IsDigit(digits[0]);
  }

  lemma AtoiOfPrefixed(c: char, digits: string)
    requires (c == '+' || c == '-') && AllDigits(digits) && digits != ""
    ensures Atoi([c] + digits) == InRange(if c == '-' then 0 - Value(digits) else Value(digits))
  {
    var s := [c] + digits;
    assert s[0] == c && s[1..] == digits;
  }

  /** What Atoi does with digits behind a sign. */
  lemma AtoiOfSigned(sign: string, digits: string)
    requires IsSign(sign) && AllDigits(digits) && digits != ""
    ensures Atoi(sign + digits) == InRange(Signed(sign, Value(digits)))
  {
    if sign == "+" {
      AtoiOfPrefixed('+', digits);
    } else if sign == "-" {
      AtoiOfPrefixed('-', digits);
    } else {
      AtoiOfDigits(digits);
      assert "" + digits == digits;
    }
  }

  /** And it accepts nothing else. */
  lemma AtoiSplits(s: string) returns (sign: string, digits: string)
    requires Atoi(s).Some?
    ensures IsSign(sign) && AllDigits(digits) && digits != "" && s == sign + digits
  {
    if s[0] == '-' || s[0] == '+' {
      sign, digits := [s[0]], s[1..];
      assert s == [s[0]] + s[1..];
    } else {
      sign, digits := "", s;
      assert s == "" + s;
    }
  }

  /** strconv.Atoi reads n exactly from the decimal spellings of n, for every n in range. */
  lemma AtoiIff(s: string, n: Int64)
    ensures Atoi(s) == Some(n) <==> Spells(s, n)
  {
    if Atoi(s) == Some(n) {
      ReadIsSpelled(s, n);
    }
    if Spells(s, n) {
      var sign, k :| SpelledAs(s, n, sign, k);
      ValueOfSpelling(k, Abs(n));
      AtoiOfSigned(sign, Zeros(k) + Itoa(Abs(n)));
    }
  }

  lemma ReadIsSpelled(s: string, n: Int64)
    requires Atoi(s) == Some(n)
    ensures Spells(s, n)
  {
    var sign, digits := AtoiSplits(s);
    AtoiOfSigned(sign, digits);
    var k := DigitsAreSpelling(digits);
    assert Abs(n) == Value(digits);
    assert SpelledAs(s, n, sign, k);
  }

  /** What it refuses: everything that spells no number of 64 bits. */
  lemma AtoiRefusesIff(s: string)
    ensures Atoi(s).None? <==> forall n: Int64 :: !Spells(s, n)
  {
    if Atoi(s).Some? {
      AtoiIff(s, Atoi(s).value);
    }
    forall n: Int64
      ensures Spells(s, n) ==> Atoi(s) == Some(n)
    {
      AtoiIff(s, n);
    }
  }

  /** A spelling of a positive number has neither a dot nor a dash. */
  lemma SpellingIsPlain(s: string, n: int)
    requires Spells(s, n) && n > 0
    ensures s != "" && '.' !in s && '-' !in s
  {
    var sign, k :| SpelledAs(s, n, sign, k);
    var digits := Zeros(k) + Itoa(n);
    AppendDigits(Zeros(k), Itoa(n));
    forall i | 0 <= i < |s|
      ensures s[i] != '.' && s[i] != '-'
    {
      if i >= |sign| {
        DigitAt(digits, i - |sign|);
      }
    }
  }

  lemma PrintedSpells(n: nat)
    ensures Spells(Itoa(n), n)
  {
    assert SpelledAs(Itoa(n), n, "", 0);
  }
}
