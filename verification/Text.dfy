/** Strings as the modelled Rust code sees them.

    A Rust `str` is a sequence of Unicode scalar values, so it is modelled as
    `string`. Where the source counts bytes the model counts `Utf8Len`; where it
    searches bytes the model searches characters, which is the same because UTF-8
    is self-synchronising. */
module Text {

  datatype Option<+T> = None | Some(value: T) {
    function GetOr(default: T): T {
      match this case Some(v) => v case None => default
    }
  }

  datatype Result<+T, +E> = Ok(value: T) | Err(error: E) {
    predicate IsFailure() { Err? }

    function PropagateFailure<U>(): Result<U, E>
      requires Err?
    {
      Err(error)
    }

    function Extract(): T
      requires Ok?
    {
      value
    }
  }

  /** `for x in xs { check(x)?; }` */
  function CheckAll<T, E>(xs: seq<T>, check: T -> Result<(), E>): (r: Result<(), E>)
    ensures r.Ok? <==> forall x :: x in xs ==> check(x).Ok?
  {
    if xs == [] then Ok(()) else
      var _ :- check(xs[0]);
      CheckAll(xs[1..], check)
  }

  // ----- Bytes -----

  /** Bytes one character takes in UTF-8. */
  function Utf8Size(c: char): nat {
    if c < '\U{80}' then 1 else if c < '\U{800}' then 2 else if c < '\U{10000}' then 3 else 4
  }

  /** `str::len`. */
  function Utf8Len(s: string): (n: nat)
    ensures |s| <= n
  {
    if s == "" then 0 else Utf8Len(s[..|s| - 1]) + Utf8Size(s[|s| - 1])
  }

  lemma {:induction false} Utf8LenConcat(a: string, b: string)
    ensures Utf8Len(a + b) == Utf8Len(a) + Utf8Len(b)
    decreases |b|
  {
    if b == "" {
      assert a + b == a;
    } else {
      var c := b[..|b| - 1];
      assert (a + b)[..|a + b| - 1] == a + c;
      Utf8LenConcat(a, c);
    }
  }

  lemma {:induction false} Utf8LenBound(s: string)
    ensures Utf8Len(s) <= 4 * |s|
  {
    if s != "" {
      Utf8LenBound(s[..|s| - 1]);
    }
  }

  lemma Utf8LenPrefix(a: string, b: string)
    requires a <= b
    ensures Utf8Len(a) <= Utf8Len(b) && (|a| < |b| ==> Utf8Len(a) < Utf8Len(b))
  {
    assert b == a + b[|a|..];
    Utf8LenConcat(a, b[|a|..]);
  }

  lemma {:induction false} AsciiLen(s: string)
    requires forall i :: 0 <= i < |s| ==> s[i] < '\U{80}'
    ensures Utf8Len(s) == |s|
  {
    if s != "" {
      AsciiLen(s[..|s| - 1]);
    }
  }

  /** Two prefixes of one string with the same byte length are the same prefix. */
  lemma Utf8PrefixUnique(a: string, b: string, s: string, t: string)
    requires a + s == b + t
    requires Utf8Len(a) == Utf8Len(b)
    ensures a == b && s == t
  {
    var w := a + s;
    assert a == w[..|a|] && b == w[..|b|] && s == w[|a|..] && t == w[|b|..];
    if |a| <= |b| { Utf8LenPrefix(a, b); } else { Utf8LenPrefix(b, a); }
  }

  // ----- Whitespace -----

  /** Unicode `White_Space`, which is what `str::trim` removes. */
  predicate IsWhitespace(c: char) {
    || '\U{9}' <= c <= '\U{D}' || c == ' ' || c == '\U{85}' || c == '\U{A0}' || c == '\U{1680}'
    || '\U{2000}' <= c <= '\U{200A}' || c == '\U{2028}' || c == '\U{2029}' || c == '\U{202F}'
    || c == '\U{205F}' || c == '\U{3000}'
  }

  function TrimStart(s: string): (r: string)
    ensures |r| <= |s| && r == s[|s| - |r|..]
    ensures r != "" ==> !IsWhitespace(r[0])
  {
    if s != "" && IsWhitespace(s[0]) then TrimStart(s[1..]) else s
  }

  function TrimEnd(s: string): (r: string)
    ensures |r| <= |s| && r == s[..|r|]
    ensures r != "" ==> !IsWhitespace(r[|r| - 1])
  {
    if s != "" && IsWhitespace(s[|s| - 1]) then TrimEnd(s[..|s| - 1]) else s
  }

  function Trim(s: string): string {
    TrimEnd(TrimStart(s))
  }

  predicate Trimmed(s: string) {
    s == "" || (!IsWhitespace(s[0]) && !IsWhitespace(s[|s| - 1]))
  }

  lemma TrimIsTrimmed(s: string)
    ensures Trimmed(Trim(s))
    ensures Trimmed(s) ==> Trim(s) == s
  {
    var t := TrimStart(s);
    var r := TrimEnd(t);
    if r != "" {
      assert r[0] == t[0];
    }
  }

  /** Where the trimmed text sits in the original. */
  lemma TrimIsSlice(s: string) returns (i: nat)
    ensures i + |Trim(s)| <= |s| && Trim(s) == s[i..i + |Trim(s)|]
  {
    var t := TrimStart(s);
    i := |s| - |t|;
    assert Trim(s) == t[..|Trim(s)|];
  }

  /** `s.trim().is_empty()`, see `TrimEmpty`. */
  predicate Blank(s: string) {
    forall i :: 0 <= i < |s| ==> IsWhitespace(s[i])
  }

  lemma TrimEmpty(s: string)
    ensures Trim(s) == "" <==> Blank(s)
  {
    TrimStartEmpty(s);
    TrimEndEmpty(TrimStart(s));
  }

  lemma {:induction false} TrimStartEmpty(s: string)
    ensures TrimStart(s) == "" <==> Blank(s)
  {
    if s != "" && IsWhitespace(s[0]) {
      TrimStartEmpty(s[1..]);
      assert Blank(s) <==> Blank(s[1..]) by { assert s == [s[0]] + s[1..]; }
    }
  }

  lemma {:induction false} TrimEndEmpty(s: string)
    ensures TrimEnd(s) == "" <==> Blank(s)
  {
    if s != "" && IsWhitespace(s[|s| - 1]) {
      TrimEndEmpty(s[..|s| - 1]);
      assert Blank(s) <==> Blank(s[..|s| - 1]) by { assert s == s[..|s| - 1] + [s[|s| - 1]]; }
    }
  }

  // ----- Searching -----

  predicate OccursAt(s: string, p: string, i: int) {
    0 <= i && i + |p| <= |s| && s[i..i + |p|] == p
  }

  predicate Contains(s: string, p: string) {
    exists i: int :: 0 <= i <= |s| && OccursAt(s, p, i)
  }

  /** `str::find`: the first occurrence at or after `from`. */
  function FindFrom(s: string, p: string, from: nat): (r: Option<nat>)
    requires from <= |s|
    ensures r.Some? ==> from <= r.value && OccursAt(s, p, r.value)
    ensures r.Some? ==> forall i :: from <= i < r.value ==> !OccursAt(s, p, i)
    ensures r.None? ==> forall i :: from <= i ==> !OccursAt(s, p, i)
    decreases |s| - from
  {
    if OccursAt(s, p, from) then Some(from)
    else if from == |s| then None
    else FindFrom(s, p, from + 1)
  }

  function Find(s: string, p: string): (r: Option<nat>)
    ensures r.Some? <==> Contains(s, p)
    ensures r.Some? ==> OccursAt(s, p, r.value) && r.value <= |s|
    ensures r.Some? ==> forall i :: 0 <= i < r.value ==> !OccursAt(s, p, i)
  {
    FindFrom(s, p, 0)
  }

  /** `str::rfind`: the last occurrence before or at `from`. */
  function RFindFrom(s: string, p: string, from: nat): (r: Option<nat>)
    ensures r.Some? ==> r.value <= from && OccursAt(s, p, r.value)
    ensures r.Some? ==> forall i :: r.value < i <= from ==> !OccursAt(s, p, i)
    ensures r.None? ==> forall i :: i <= from ==> !OccursAt(s, p, i)
  {
    if OccursAt(s, p, from) then Some(from) else if from == 0 then None else RFindFrom(s, p, from - 1)
  }

  function RFind(s: string, p: string): (r: Option<nat>)
    ensures r.Some? <==> Contains(s, p)
    ensures r.Some? ==> OccursAt(s, p, r.value)
    ensures r.Some? ==> forall i :: r.value < i ==> !OccursAt(s, p, i)
  {
    RFindFrom(s, p, |s|)
  }

  lemma SliceOfSlice<T>(s: seq<T>, i: nat, j: nat, k: nat, l: nat)
    requires i <= j <= |s| && k <= l <= j - i
    ensures s[i..j][k..l] == s[i + k..i + l]
  {
    var x, y := s[i..j][k..l], s[i + k..i + l];
    assert |x| == |y| && forall n :: 0 <= n < |x| ==> x[n] == y[n];
  }

  lemma SliceContains(s: string, i: nat, j: nat, p: string)
    requires i <= j <= |s|
    ensures Contains(s[i..j], p) ==> Contains(s, p)
  {
    if Contains(s[i..j], p) {
      var k :| 0 <= k <= j - i && OccursAt(s[i..j], p, k);
      SliceOfSlice(s, i, j, k, k + |p|);
      assert OccursAt(s, p, i + k);
    }
  }

  lemma SeamInPattern(a: string, b: string, p: string, i: nat)
    requires OccursAt(a + b, p, i) && i < |a| < i + |p|
    ensures a[|a| - 1] in p && b != "" && b[0] in p
  {
    var s := a + b;
    assert p[|a| - 1 - i] == s[i..i + |p|][|a| - 1 - i] == s[|a| - 1];
    assert p[|a| - i] == s[i..i + |p|][|a| - i] == s[|a|];
  }

  /** Gluing two texts creates no new occurrence of `p` when one of the two
      characters at the seam cannot belong to `p`. */
  lemma JoinContains(a: string, b: string, p: string)
    requires a == "" || b == "" || a[|a| - 1] !in p || b[0] !in p
    ensures Contains(a + b, p) <==> Contains(a, p) || Contains(b, p)
  {
    var s := a + b;
    assert a == s[0..|a|] && b == s[|a|..|s|];
    SliceContains(s, 0, |a|, p);
    SliceContains(s, |a|, |s|, p);
    if Contains(s, p) {
      var i :| 0 <= i <= |s| && OccursAt(s, p, i);
      if i + |p| <= |a| {
        assert OccursAt(a, p, i) by { assert s[i..i + |p|] == a[i..i + |p|]; }
      } else if |a| <= i {
        assert OccursAt(b, p, i - |a|) by { assert s[i..i + |p|] == b[i - |a|..i - |a| + |p|]; }
      } else {
        SeamInPattern(a, b, p, i);
      }
    }
  }

  lemma OccurrenceChars(s: string, p: string, i: nat, k: nat)
    requires OccursAt(s, p, i) && k < |p|
    ensures s[i + k] == p[k] && p[k] in s
  {
    assert s[i..i + |p|][k] == s[i + k];
  }

  /** A text that lacks one character of `p` cannot contain `p`. */
  lemma MissingChar(s: string, p: string, k: nat)
    requires k < |p|
    ensures Contains(s, p) ==> p[k] in s
  {
    if Contains(s, p) {
      var i :| 0 <= i <= |s| && OccursAt(s, p, i);
      OccurrenceChars(s, p, i, k);
    }
  }
}

/** Decimal text of a count, as `to_string` and `{}` print it. */
module Decimals {
  function Digit(d: nat): char
    requires d < 10
  {
    '0' + d as char
  }

  predicate IsDigit(c: char) {
    '0' <= c <= '9'
  }

  predicate AllDigits(s: string) {
    forall i :: 0 <= i < |s| ==> IsDigit(s[i])
  }

  function Decimal(n: nat): (s: string)
    ensures s != "" && AllDigits(s)
  {
    if n < 10 then [Digit(n)] else Decimal(n / 10) + [Digit(n % 10)]
  }

  /** The number a digit string denotes. */
  function Value(s: string): nat
    requires AllDigits(s)
  {
    if s == "" then 0 else 10 * Value(s[..|s| - 1]) + (s[|s| - 1] as int - '0' as int)
  }

  lemma {:induction false} ValueOfDecimal(n: nat)
    ensures Value(Decimal(n)) == n
  {
    if n >= 10 {
      ValueOfDecimal(n / 10);
      assert Decimal(n)[..|Decimal(n)| - 1] == Decimal(n / 10);
    } else {
      assert Value([Digit(n)]) == 10 * Value("") + n by { assert [Digit(n)][..0] == ""; }
    }
  }

  function Pow10(k: nat): nat {
    if k == 0 then 1 else 10 * Pow10(k - 1)
  }

  lemma {:induction false} DigitCount(n: nat, k: nat)
    requires k >= 1
    ensures |Decimal(n)| <= k <==> n < Pow10(k)
  {
    if n < 10 {
      Pow10Grows(k);
    } else if k == 1 {
      assert Pow10(0) == 1;
    } else {
      DigitCount(n / 10, k - 1);
    }
  }

  lemma {:induction false} Pow10Grows(k: nat)
    requires k >= 1
    ensures Pow10(k) >= 10
  {
    if k > 1 {
      Pow10Grows(k - 1);
    }
  }

  /** A machine word has at most twenty digits. */
  lemma WordDigits(n: nat)
    requires n <= 0xFFFF_FFFF_FFFF_FFFF
    ensures |Decimal(n)| <= 20
  {
    assert Pow10(5) == 100_000;
    assert Pow10(10) == 100_000 * Pow10(5);
    assert Pow10(15) == 100_000 * Pow10(10);
    assert Pow10(20) == 100_000 * Pow10(15);
    DigitCount(n, 20);
  }

  lemma DecimalInjective(m: nat, n: nat)
    requires Decimal(m) == Decimal(n)
    ensures m == n
  {
    ValueOfDecimal(m);
    ValueOfDecimal(n);
  }

  /** The text before a separator that does not occur in it is determined by the
      whole: the step on which every decoder below rests. */
  lemma SplitUnique(a: string, b: string, sep: char, s: string, t: string)
    requires a + [sep] + s == b + [sep] + t
    requires sep !in a && sep !in b
    ensures a == b && s == t
  {
    var u := a + [sep] + s;
    var v := b + [sep] + t;
    assert u[|a|] == sep && v[|b|] == sep;
    assert |a| == |b|;
    assert a == u[..|a|] == v[..|b|] == b;
    assert s == u[|a| + 1..] && t == v[|b| + 1..];
  }
}

/** The order of `str`, which is the iteration order of every `BTreeMap` keyed by
    strings. Comparing UTF-8 bytes and comparing scalar values agree. */
module StringOrder {

  predicate Less(a: string, b: string) {
    if b == "" then false
    else if a == "" then true
    else a[0] < b[0] || (a[0] == b[0] && Less(a[1..], b[1..]))
  }

  lemma LessIrreflexive(a: string)
    ensures !Less(a, a)
  {
  }

  lemma LessTotal(a: string, b: string)
    ensures a == b || Less(a, b) || Less(b, a)
  {
    if a != "" && b != "" && a[0] == b[0] {
      LessTotal(a[1..], b[1..]);
      assert a == [a[0]] + a[1..] && b == [b[0]] + b[1..];
    }
  }

  lemma LessTransitive(a: string, b: string, c: string)
    requires Less(a, b) && Less(b, c)
    ensures Less(a, c)
  {
  }

  lemma LessAsymmetric(a: string, b: string)
    ensures !(Less(a, b) && Less(b, a))
  {
    if Less(a, b) && Less(b, a) {
      LessTransitive(a, b, a);
      LessIrreflexive(a);
    }
  }

  predicate IsMin(m: string, keys: set<string>) {
    m in keys && forall k :: k in keys ==> k == m || Less(m, k)
  }

  lemma MinExists(keys: set<string>)
    requires keys != {}
    ensures exists m :: IsMin(m, keys)
  {
    var k :| k in keys;
    if keys == {k} {
      assert IsMin(k, keys);
    } else {
      MinExists(keys - {k});
      var m :| IsMin(m, keys - {k});
      LessTotal(k, m);
      if Less(k, m) {
        forall j | j in keys ensures j == k || Less(k, j) {
          if j != k && j != m { LessTransitive(k, m, j); }
        }
        assert IsMin(k, keys);
      } else {
        assert IsMin(m, keys);
      }
    }
  }

  lemma MinUnique(keys: set<string>, m: string, n: string)
    requires IsMin(m, keys) && IsMin(n, keys)
    ensures m == n
  {
    LessAsymmetric(m, n);
  }

  function MinKey(keys: set<string>): (m: string)
    requires keys != {}
    ensures IsMin(m, keys)
  {
    MinExists(keys);
    assert forall m, n :: IsMin(m, keys) && IsMin(n, keys) ==> m == n by {
      forall m, n | IsMin(m, keys) && IsMin(n, keys) ensures m == n { MinUnique(keys, m, n); }
    }
    var m :| IsMin(m, keys);
    m
  }

  predicate StrictlySorted(s: seq<string>) {
    forall i, j :: 0 <= i < j < |s| ==> Less(s[i], s[j])
  }

  /** The keys in iteration order. */
  function SortedKeys(keys: set<string>): (s: seq<string>)
    ensures StrictlySorted(s)
    ensures forall k :: k in s <==> k in keys
  {
    if keys == {} then [] else
      var m := MinKey(keys);
      [m] + SortedKeys(keys - {m})
  }

  lemma FirstIn<T>(s: seq<T>) returns (k: T)
    requires s != []
    ensures k in s
  {
    k := s[0];
  }

  /** Iteration order is a function of the key set alone. */
  lemma {:induction false} SortedUnique(s: seq<string>, t: seq<string>)
    requires StrictlySorted(s) && StrictlySorted(t)
    requires forall k :: k in s <==> k in t
    ensures s == t
  {
    if s == [] {
      if t != [] { var k := FirstIn(t); }
    } else {
      assert s[0] in t && t != [] && t[0] in s;
      LessAsymmetric(s[0], t[0]);
      assert s[0] == t[0];
      forall k | k in s[1..] ensures k in t[1..] { LessIrreflexive(s[0]); assert k in t; }
      forall k | k in t[1..] ensures k in s[1..] { LessIrreflexive(s[0]); assert k in s; }
      SortedUnique(s[1..], t[1..]);
      assert s == [s[0]] + s[1..] && t == [t[0]] + t[1..];
    }
  }
}
