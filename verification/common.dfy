/**
 * Shared vocabulary of the puzzle solvers: optional values and results,
 * decimal digit strings, Rust's `u64::from_str` and `str::split(char)`.
 */
module Common {

  datatype Option<T> = None | Some(value: T)

  datatype Result<T, E> = Ok(value: T) | Err(error: E)

  /** The largest value of Rust's `u64`. */
  const U64_MAX: nat := 0xFFFF_FFFF_FFFF_FFFF

  function Pow10(k: nat): (r: nat)
    ensures r >= 1
  {
    if k == 0 then 1 else 10 * Pow10(k - 1)
  }

  lemma {:induction false} Pow10Add(a: nat, b: nat)
    ensures Pow10(a + b) == Pow10(a) * Pow10(b)
  {
    if b > 0 {
      Pow10Add(a, b - 1);
      assert Pow10(a + b) == 10 * Pow10(a + b - 1);
    }
  }

  lemma {:induction false} Pow10Monotone(a: nat, b: nat)
    requires a <= b
    ensures Pow10(a) <= Pow10(b)
  {
    if a < b {
      Pow10Monotone(a, b - 1);
    }
  }

  /** `d` followed by `n` zeros, built one decimal shift at a time. */
  function Shift(d: nat, n: nat): nat {
    if n == 0 then d else Shift(d, n - 1) * 10
  }

  lemma {:induction false} ShiftIsProduct(d: nat, n: nat)
    ensures Shift(d, n) == d * Pow10(n)
  {
    if n > 0 {
      ShiftIsProduct(d, n - 1);
      assert d * Pow10(n) == d * Pow10(n - 1) * 10;
    }
  }

  /** Shifting a number with one more digit appended. */
  lemma {:induction false} ShiftDigit(a: nat, d: nat, n: nat)
    ensures Shift(a * 10 + d, n) == Shift(a, n + 1) + Shift(d, n)
  {
    if n > 0 {
      ShiftDigit(a, d, n - 1);
    }
  }

  /** `ShiftDigit` with the shifted number and the larger shift named. */
  lemma ShiftAppend(a: nat, d: nat, n: nat, b: nat, n': nat)
    requires b == a * 10 + d && n' == n + 1
    ensures Shift(b, n) == Shift(a, n') + Shift(d, n)
  {
    ShiftDigit(a, d, n);
  }

  /** Euclidean division is determined by quotient and remainder. */
  lemma DivModUnique(n: int, m: int, q: int, r: int)
    requires m > 0 && 0 <= r < m && n == q * m + r
    ensures n / m == q && n % m == r
  {
    var q', r' := n / m, n % m;
    assert (q - q') * m == r' - r;
    if q > q' {
      MulAtLeast(q - q', m);
    } else if q < q' {
      MulAtLeast(q' - q, m);
    }
  }

  lemma MulAtLeast(a: int, m: int)
    requires a >= 1 && m > 0
    ensures a * m >= m
  {
  }

  lemma MulMonotone(a: nat, b: nat, c: nat, d: nat)
    requires a >= c && b >= d
    ensures a * b >= c * d
  {
    assert a * b >= c * b;
  }

  function Max(a: nat, b: nat): nat {
    if a < b then b else a
  }

  function Min(a: nat, b: nat): nat {
    if a < b then a else b
  }

  /** A prefix one element longer. */
  lemma TakeNext<T>(s: seq<T>, k: nat)
    requires k < |s|
    ensures s[..k + 1] == s[..k] + [s[k]]
  {
  }

  /** Dividing a natural number by a positive one gives a natural number no larger. */
  lemma DivBound(n: nat, d: nat)
    requires d >= 1
    ensures 0 <= n / d <= n
  {
  }

  predicate IsDigit(c: char) {
    '0' <= c <= '9'
  }

  predicate AllDigits(s: string) {
    forall i :: 0 <= i < |s| ==> IsDigit(s[i])
  }

  function DigitChar(d: nat): (c: char)
    requires d < 10
    ensures IsDigit(c)
  {
    (48 + d) as char
  }

  function DigitValue(c: char): (d: nat)
    requires IsDigit(c)
    ensures d < 10 && DigitChar(d) == c
  {
    (c as int - 48) as nat
  }

  /** The number a string of decimal digits denotes, most significant digit first. */
  function ValueOf(s: string): nat
    requires AllDigits(s)
  {
    if s == [] then 0 else ValueOf(s[..|s| - 1]) * 10 + DigitValue(s[|s| - 1])
  }

  /** The decimal representation of `n`, as Rust's `to_string` writes it. */
  function ToDecimal(n: nat): (s: string)
    ensures |s| >= 1 && AllDigits(s)
  {
    if n < 10 then [DigitChar(n)] else ToDecimal(n / 10) + [DigitChar(n % 10)]
  }

  lemma {:induction false} ToDecimalValue(n: nat)
    ensures ValueOf(ToDecimal(n)) == n
  {
    if n >= 10 {
      ToDecimalValue(n / 10);
      var s := ToDecimal(n);
      assert s[..|s| - 1] == ToDecimal(n / 10);
    }
  }

  /** `ToDecimal` never writes a leading zero, except for zero itself. */
  lemma {:induction false} ToDecimalNoLeadingZero(n: nat)
    ensures (ToDecimal(n)[0] == '0') == (n == 0)
  {
    if n >= 10 {
      ToDecimalNoLeadingZero(n / 10);
    }
  }

  /** Appending digits shifts the value left by their count. */
  lemma {:induction false} ValueAppend(a: string, b: string)
    requires AllDigits(a) && AllDigits(b)
    ensures AllDigits(a + b)
    ensures ValueOf(a + b) == ValueOf(a) * Pow10(|b|) + ValueOf(b)
  {
    if b != [] {
      var b' := b[..|b| - 1];
      assert (a + b)[..|a + b| - 1] == a + b';
      ValueAppend(a, b');
      var x, y, d, m := ValueOf(a), ValueOf(b'), DigitValue(b[|b| - 1]), Pow10(|b'|);
      assert (a + b)[|a + b| - 1] == b[|b| - 1];
      assert ValueOf(a + b) == ValueOf(a + b') * 10 + d;
      assert ValueOf(b) == y * 10 + d;
      assert Pow10(|b|) == m * 10;
      ShiftStep(x, y, m, d, ValueOf(a + b'), Pow10(|b|));
    } else {
      assert a + b == a;
    }
  }

  /** The arithmetic of one more digit: (x m + y) 10 + d = x (10 m) + (10 y + d). */
  lemma ShiftStep(x: nat, y: nat, m: nat, d: nat, v: nat, p: nat)
    requires v == x * m + y && p == m * 10
    ensures v * 10 + d == x * p + (y * 10 + d)
  {
  }

  /** Two digit strings of the same length with the same value are equal. */
  lemma {:induction false} ValueInjective(a: string, b: string)
    requires AllDigits(a) && AllDigits(b) && |a| == |b| && ValueOf(a) == ValueOf(b)
    ensures a == b
  {
    if a != [] {
      var a', b' := a[..|a| - 1], b[..|b| - 1];
      var da, db := DigitValue(a[|a| - 1]), DigitValue(b[|b| - 1]);
      assert ValueOf(a') * 10 + da == ValueOf(b') * 10 + db;
      assert da == db && ValueOf(a') == ValueOf(b');
      ValueInjective(a', b');
      assert a == a' + [a[|a| - 1]] && b == b' + [b[|b| - 1]];
    }
  }

  /** A value below 10^k needs at most k digits (k >= 1). */
  lemma {:induction false} ValueBelowPow10(s: string)
    requires AllDigits(s)
    ensures ValueOf(s) < Pow10(|s|)
  {
    if s != [] {
      ValueBelowPow10(s[..|s| - 1]);
    }
  }

  /** Strips one leading '+', as Rust's unsigned integer parsing allows. */
  function StripPlus(s: string): string {
    if |s| > 0 && s[0] == '+' then s[1..] else s
  }

  /**
   * Rust's `str::parse::<u64>()`: an optional '+', then at least one
   * decimal digit, and a value that fits in 64 bits.
   */
  function ParseU64(s: string): Option<nat> {
    var t := StripPlus(s);
    if t != [] && AllDigits(t) && ValueOf(t) <= U64_MAX then Some(ValueOf(t)) else None
  }

  /** Every `u64` survives printing and parsing back. */
  lemma ParseU64RoundTrip(n: nat)
    requires n <= U64_MAX
    ensures ParseU64(ToDecimal(n)) == Some(n)
  {
    ToDecimalValue(n);
    assert ToDecimal(n)[0] != '+';
  }

  /** Rust's `char::is_whitespace`, restricted to the ASCII range. */
  predicate IsSpace(c: char) {
    c == ' ' || c == '\t' || c == '\n' || c == '\r' || c == 11 as char || c == 12 as char
  }

  function TrimStart(s: string): string {
    if s != [] && IsSpace(s[0]) then TrimStart(s[1..]) else s
  }

  function TrimEnd(s: string): string {
    if s != [] && IsSpace(s[|s| - 1]) then TrimEnd(s[..|s| - 1]) else s
  }

  /** `TrimStart` drops exactly the leading whitespace. */
  lemma {:induction false} TrimStartSpec(s: string)
    ensures var r := TrimStart(s);
      |r| <= |s| && r == s[|s| - |r|..] && (r == [] || !IsSpace(r[0])) &&
      forall i :: 0 <= i < |s| - |r| ==> IsSpace(s[i])
  {
    if s != [] && IsSpace(s[0]) {
      TrimStartSpec(s[1..]);
    }
  }

  /** `TrimEnd` drops exactly the trailing whitespace. */
  lemma {:induction false} TrimEndSpec(s: string)
    ensures var r := TrimEnd(s);
      |r| <= |s| && r == s[..|r|] && (r == [] || !IsSpace(r[|r| - 1])) &&
      forall i :: |r| <= i < |s| ==> IsSpace(s[i])
  {
    if s != [] && IsSpace(s[|s| - 1]) {
      TrimEndSpec(s[..|s| - 1]);
    }
  }

  /** Rust's `str::trim`: leading and trailing whitespace removed. */
  function Trim(s: string): string {
    TrimEnd(TrimStart(s))
  }

  /** The parts joined back with the separator between them. */
  function Join(parts: seq<string>, sep: char): string
    requires |parts| >= 1
  {
    if |parts| == 1 then parts[0] else parts[0] + [sep] + Join(parts[1..], sep)
  }

  /**
   * Rust's `str::split(char)`: the pieces between separators, including
   * empty ones; a string without a separator is one piece.
   */
  function Split(s: string, sep: char): (parts: seq<string>)
    ensures |parts| >= 1
    ensures forall k :: 0 <= k < |parts| ==> sep !in parts[k]
    ensures Join(parts, sep) == s
    decreases |s|
  {
    if sep !in s then [s]
    else
      var i := IndexOf(s, sep);
      assert s == s[..i] + [sep] + s[i + 1..];
      [s[..i]] + Split(s[i + 1..], sep)
  }

  /** Splitting the joined parts gives the parts back when none holds the separator. */
  lemma {:induction false} SplitJoin(parts: seq<string>, sep: char)
    requires |parts| >= 1
    requires forall k :: 0 <= k < |parts| ==> sep !in parts[k]
    ensures Split(Join(parts, sep), sep) == parts
  {
    if |parts| > 1 {
      SplitJoin(parts[1..], sep);
      SplitFirst(parts[0], Join(parts[1..], sep), sep);
      assert [parts[0]] + parts[1..] == parts;
    }
  }

  /** The first piece of a split ends at the first separator. */
  lemma SplitFirst(first: string, rest: string, sep: char)
    requires sep !in first
    ensures Split(first + [sep] + rest, sep) == [first] + Split(rest, sep)
  {
    var s := first + [sep] + rest;
    assert s[|first|] == sep;
    var i := IndexOf(s, sep);
    assert s[..i] == first;
    assert s[i + 1..] == rest;
  }

  /** A string that starts and ends with a non-space character is its own trim. */
  lemma TrimNoSpace(s: string)
    requires s != [] && !IsSpace(s[0]) && !IsSpace(s[|s| - 1])
    ensures Trim(s) == s
  {
  }

  /** The position of the first occurrence of `c` in `s`. */
  function IndexOf(s: string, c: char): (i: nat)
    requires c in s
    ensures i < |s| && s[i] == c && c !in s[..i]
  {
    if s[0] == c then 0 else 1 + IndexOf(s[1..], c)
  }

  /** The length of the longest line, zero when there are none. */
  function MaxWidth(lines: seq<string>): (w: nat)
    ensures forall r :: 0 <= r < |lines| ==> |lines[r]| <= w
    ensures lines == [] ==> w == 0
    ensures lines != [] ==> exists r :: 0 <= r < |lines| && |lines[r]| == w
  {
    if |lines| == 0 then 0 else Max(|lines[0]|, MaxWidth(lines[1..]))
  }
}
