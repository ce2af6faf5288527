/**
 * Day 2: product IDs are "invalid" when their decimal form is one block of
 * digits written several times.  Part 1 asks for exactly two copies, part 2
 * for two or more.  Each part has a string, a digit-arithmetic and a
 * divisor implementation; all six are proved equal to one string-level
 * definition, and each part sums the invalid IDs of every parsed range.
 */
module Day02 {
  import opened Common

  // ---------------------------------------------------------------------
  // The string-level definition
  // ---------------------------------------------------------------------

  /** `r` copies of `b`, one after another (Rust's `str::repeat`). */
  function Repeat(b: string, r: nat): (s: string)
    ensures |s| == |b| * r
  {
    if r == 0 then [] else Repeat(b, r - 1) + b
  }

  /** The decimal form is some block written twice. */
  ghost predicate RepeatedTwice(s: string) {
    exists b: string :: s == b + b
  }

  /** The decimal form is some block written two or more times. */
  ghost predicate RepeatedAtLeastTwice(s: string) {
    exists b: string, r: nat :: r >= 2 && s == Repeat(b, r)
  }

  /** `s` is its own first `p` characters repeated. */
  predicate HasBlock(s: string, p: nat) {
    1 <= p <= |s| && |s| % p == 0 && s == Repeat(s[..p], |s| / p)
  }

  /** Sum of 10^(i p) for i below r: the number 1 0..0 1 0..0 1 with r ones. */
  function DivisorSum(p: nat, r: nat): nat {
    if r == 0 then 0 else DivisorSum(p, r - 1) + Pow10(p * (r - 1))
  }

  // ---------------------------------------------------------------------
  // Arithmetic facts
  // ---------------------------------------------------------------------

  lemma MulAddOne(x: nat, d: nat, m: nat)
    ensures x * d * m + x == x * (d * m + 1)
  {
  }

  // ---------------------------------------------------------------------
  // Facts about repetition and the divisor
  // ---------------------------------------------------------------------

  lemma {:induction false} RepeatDigits(b: string, r: nat)
    requires AllDigits(b)
    ensures AllDigits(Repeat(b, r))
  {
    if r > 0 {
      RepeatDigits(b, r - 1);
    }
  }

  /** A repetition starts with its block. */
  lemma {:induction false} RepeatPrefix(b: string, r: nat)
    requires r >= 1
    ensures Repeat(b, r)[..|b|] == b
  {
    if r > 1 {
      RepeatPrefix(b, r - 1);
      MulAtLeast(r - 1, |b| + 1);
      assert |Repeat(b, r - 1)| >= |b|;
    }
  }

  lemma RepeatTwo(b: string)
    ensures Repeat(b, 2) == b + b
  {
    assert Repeat(b, 1) == b;
  }

  /** Horner's form of the divisor: one more block shifts the others left. */
  lemma {:induction false} DivisorHorner(p: nat, r: nat)
    requires r >= 1
    ensures DivisorSum(p, r) == DivisorSum(p, r - 1) * Pow10(p) + 1
  {
    if r > 1 {
      DivisorHorner(p, r - 1);
      PowerStep(p, r - 2);
      HornerStep(DivisorSum(p, r - 1), DivisorSum(p, r - 2), Pow10(p * (r - 2)), Pow10(p * (r - 1)), Pow10(p));
    }
  }

  lemma HornerStep(a: nat, c: nat, t0: nat, t1: nat, m: nat)
    requires a == c * m + 1 && a == c + t0 && t1 == t0 * m
    ensures a + t1 == a * m + 1
  {
    assert a * m == c * m + t0 * m;
  }

  /** The next power in the divisor is the previous one shifted by a block. */
  lemma PowerStep(p: nat, i: nat)
    ensures Pow10(p * (i + 1)) == Pow10(p * i) * Pow10(p)
  {
    Pow10Add(p * i, p);
    assert p * i + p == p * (i + 1);
  }

  /** The divisor's leading term bounds it from below. */
  lemma DivisorLower(p: nat, r: nat)
    requires r >= 1
    ensures DivisorSum(p, r) >= Pow10(p * (r - 1))
  {
  }

  /** The value of a repetition is the block's value times the divisor. */
  lemma {:induction false} RepeatValue(b: string, r: nat)
    requires AllDigits(b)
    ensures AllDigits(Repeat(b, r))
    ensures ValueOf(Repeat(b, r)) == ValueOf(b) * DivisorSum(|b|, r)
  {
    RepeatDigits(b, r);
    if r > 0 {
      RepeatValue(b, r - 1);
      RepeatDigits(b, r - 1);
      ValueAppend(Repeat(b, r - 1), b);
      DivisorHorner(|b|, r);
      MulAddOne(ValueOf(b), DivisorSum(|b|, r - 1), Pow10(|b|));
    }
  }

  /** `q` written with exactly `width` digits, padded with leading zeros. */
  function FixedWidth(q: nat, width: nat): (s: string)
    requires q < Pow10(width)
    ensures |s| == width && AllDigits(s) && ValueOf(s) == q
  {
    if width == 0 then []
    else
      var prefix := FixedWidth(q / 10, width - 1);
      var s := prefix + [DigitChar(q % 10)];
      assert s[..|s| - 1] == prefix;
      s
  }

  /**
   * Digit arithmetic on a digit string: the leading `k` digits are the
   * quotient by 10^(len - k) and the rest is the remainder.
   */
  lemma ValueSplit(s: string, k: nat)
    requires AllDigits(s) && k <= |s|
    ensures ValueOf(s) / Pow10(|s| - k) == ValueOf(s[..k])
    ensures ValueOf(s) % Pow10(|s| - k) == ValueOf(s[k..])
  {
    assert s == s[..k] + s[k..];
    ValueAppend(s[..k], s[k..]);
    ValueBelowPow10(s[k..]);
    DivModUnique(ValueOf(s), Pow10(|s| - k), ValueOf(s[..k]), ValueOf(s[k..]));
  }

  /** `ValueSplit` on the decimal form of `n`. */
  lemma DigitSplit(n: nat, k: nat)
    requires k <= |ToDecimal(n)|
    ensures n / Pow10(|ToDecimal(n)| - k) == ValueOf(ToDecimal(n)[..k])
    ensures n % Pow10(|ToDecimal(n)| - k) == ValueOf(ToDecimal(n)[k..])
  {
    ToDecimalValue(n);
    ValueSplit(ToDecimal(n), k);
  }

  /** An even positive length is twice its half. */
  lemma HalfQuotient(n: nat)
    requires n >= 2 && n % 2 == 0
    ensures n / 2 >= 1 && n / (n / 2) == 2 && n % (n / 2) == 0
  {
    DivModUnique(n, n / 2, 2, 0);
  }

  /** A length that is a multiple of `p` is `p` times its quotient. */
  lemma ExactQuotient(n: nat, p: nat)
    requires p >= 1 && n % p == 0
    ensures p * (n / p) == n
  {
  }

  /** Numbers below 10^k have at most k digits. */
  lemma {:induction false} DigitCountBound(n: nat, k: nat)
    requires 1 <= k && n < Pow10(k)
    ensures |ToDecimal(n)| <= k
  {
    if n >= 10 {
      if k == 1 {
        assert false;
      }
      DigitCountBound(n / 10, k - 1);
    }
  }

  /** A block check by value: the string is its block repeated iff its value is the block's times the divisor. */
  lemma BlockByValue(s: string, p: nat)
    requires AllDigits(s) && 1 <= p <= |s| && |s| % p == 0
    ensures HasBlock(s, p) <==> ValueOf(s) == ValueOf(s[..p]) * DivisorSum(p, |s| / p)
  {
    var b, r := s[..p], |s| / p;
    ExactQuotient(|s|, p);
    RepeatValue(b, r);
    if ValueOf(s) == ValueOf(b) * DivisorSum(p, r) {
      ValueInjective(s, Repeat(b, r));
    }
  }

  /** The divisor test: the value is a multiple of the divisor iff the string is its block repeated. */
  lemma ModuloBlock(s: string, p: nat)
    requires AllDigits(s) && 1 <= p <= |s| && |s| % p == 0
    ensures DivisorSum(p, |s| / p) >= 1
    ensures HasBlock(s, p) <==> ValueOf(s) % DivisorSum(p, |s| / p) == 0
  {
    var d := DivisorSum(p, |s| / p);
    ExactQuotient(|s|, p);
    DivisorLower(p, |s| / p);
    if HasBlock(s, p) {
      BlockByValue(s, p);
      DivModUnique(ValueOf(s), d, ValueOf(s[..p]), 0);
    }
    if ValueOf(s) % d == 0 {
      MultipleIsBlock(s, p, |s| / p);
    }
  }

  /** The harder half of `ModuloBlock`: a multiple of the divisor is a repetition. */
  lemma MultipleIsBlock(s: string, p: nat, r: nat)
    requires AllDigits(s) && 1 <= p && r >= 1 && p * r == |s|
    requires DivisorSum(p, r) >= 1 && ValueOf(s) % DivisorSum(p, r) == 0
    ensures s == Repeat(s[..p], r)
  {
    var d := DivisorSum(p, r);
    SmallQuotient(s, p, r);
    ExactDivision(ValueOf(s), d);
    DivBound(ValueOf(s), d);
    BlockOfQuotient(s, p, r, ValueOf(s) / d);
  }

  /** The quotient by the divisor fits in one block of `p` digits. */
  lemma SmallQuotient(s: string, p: nat, r: nat)
    requires AllDigits(s) && 1 <= p && r >= 1 && p * r == |s|
    requires DivisorSum(p, r) >= 1 && ValueOf(s) % DivisorSum(p, r) == 0
    ensures ValueOf(s) / DivisorSum(p, r) < Pow10(p)
  {
    var d := DivisorSum(p, r);
    ExactDivision(ValueOf(s), d);
    ValueBelowBlocks(s, p, r);
    DivisorLower(p, r);
    DivBound(ValueOf(s), d);
    QuotientBound(ValueOf(s), ValueOf(s) / d, d, Pow10(p), Pow10(p * (r - 1)));
  }

  /** A value that is a one-block quotient times the divisor is that block repeated. */
  lemma BlockOfQuotient(s: string, p: nat, r: nat, q: nat)
    requires AllDigits(s) && 1 <= p && r >= 1 && p * r == |s|
    requires q < Pow10(p) && ValueOf(s) == q * DivisorSum(p, r)
    ensures s == Repeat(s[..p], r)
  {
    var b := FixedWidth(q, p);
    RepeatValue(b, r);
    assert |Repeat(b, r)| == |s|;
    ValueInjective(s, Repeat(b, r));
    RepeatPrefix(b, r);
  }

  lemma ExactDivision(v: nat, d: nat)
    requires d >= 1 && v % d == 0
    ensures v == (v / d) * d
  {
  }

  /** A string of r blocks of p digits is worth less than 10^(p (r-1)) 10^p. */
  lemma ValueBelowBlocks(s: string, p: nat, r: nat)
    requires AllDigits(s) && 1 <= p && r >= 1 && p * r == |s|
    ensures ValueOf(s) < Pow10(p * (r - 1)) * Pow10(p)
  {
    ValueBelowPow10(s);
    PowerStep(p, r - 1);
    assert p * (r - 1 + 1) == |s|;
  }

  /** If v = q d is below m t and d is at least t, then q is below m. */
  lemma QuotientBound(v: nat, q: nat, d: nat, m: nat, t: nat)
    requires v == q * d && v < t * m && d >= t
    ensures q < m
  {
    if q >= m {
      MulMonotone(q, d, m, t);
    }
  }

  /** Part 1's definition holds exactly when both halves of the string agree. */
  lemma RepeatedTwiceHalves(s: string)
    ensures RepeatedTwice(s) <==> |s| % 2 == 0 && s[..|s| / 2] == s[|s| / 2..]
  {
    if |s| % 2 == 0 && s[..|s| / 2] == s[|s| / 2..] {
      assert s == s[..|s| / 2] + s[..|s| / 2];
    }
    if RepeatedTwice(s) {
      var b :| s == b + b;
      assert s[..|s| / 2] == b && s[|s| / 2..] == b;
    }
  }

  /** For an even length, part 1's definition is the block check at half the length. */
  lemma RepeatedTwiceBlock(s: string)
    requires |s| >= 2 && |s| % 2 == 0
    ensures RepeatedTwice(s) <==> HasBlock(s, |s| / 2)
  {
    RepeatedTwiceHalves(s);
    RepeatTwo(s[..|s| / 2]);
    assert |s| / (|s| / 2) == 2;
  }

  /** Part 2's definition holds exactly when some block length up to half the string fits. */
  lemma RepeatedAtLeastTwiceBlock(s: string)
    requires s != []
    ensures RepeatedAtLeastTwice(s) <==> exists p :: 1 <= p <= |s| / 2 && HasBlock(s, p)
  {
    if RepeatedAtLeastTwice(s) {
      var b: string, r: nat :| r >= 2 && s == Repeat(b, r);
      var p := |b|;
      assert p >= 1;
      DivModUnique(|s|, p, r, 0);
      MulMonotone(p, r, p, 2);
      RepeatPrefix(b, r);
      assert HasBlock(s, p);
    }
    if p :| 1 <= p <= |s| / 2 && HasBlock(s, p) {
      var r := |s| / p;
      QuotientAtLeastTwo(|s|, p);
      assert s == Repeat(s[..p], r);
    }
  }

  /** A divisor at most half of `n` goes into it at least twice. */
  lemma QuotientAtLeastTwo(n: nat, p: nat)
    requires 1 <= p <= n / 2
    ensures n / p >= 2
  {
    var q: nat, r: nat := n / p, n % p;
    assert n == q * p + r && r < p;
    assert 2 * p <= n;
    if q <= 1 {
      MulMonotone(1, p, q, p);
    }
  }

  /** Exactly two copies is a case of two or more copies, so part 1 IDs are part 2 IDs. */
  lemma RepeatedTwiceIsRepeated(s: string)
    requires RepeatedTwice(s)
    ensures RepeatedAtLeastTwice(s)
  {
    var b :| s == b + b;
    RepeatTwo(b);
  }

  // ---------------------------------------------------------------------
  // The digit helpers
  // ---------------------------------------------------------------------

  /** The number of decimal digits of `n`; zero has one. */
  method CountDigits(n: nat) returns (count: nat)
    ensures count == |ToDecimal(n)| && count >= 1
  {
    if n == 0 {
      return 1;
    }
    count := 0;
    var m := n;
    while m > 0
      invariant count + (if m == 0 then 0 else |ToDecimal(m)|) == |ToDecimal(n)|
    {
      m := m / 10;
      count := count + 1;
    }
  }

  /** The leading `k` of `total` digits. */
  function GetFirstKDigits(n: nat, total: nat, k: nat): (r: nat)
    requires k <= total
    ensures total == |ToDecimal(n)| ==> r == ValueOf(ToDecimal(n)[..k])
  {
    DivBound(n, Pow10(total - k));
    if total == |ToDecimal(n)| then DigitSplit(n, k); n / Pow10(total - k)
    else n / Pow10(total - k)
  }

  /** The trailing `k` digits. */
  function GetLastKDigits(n: nat, k: nat): (r: nat)
    ensures k <= |ToDecimal(n)| ==> r == ValueOf(ToDecimal(n)[|ToDecimal(n)| - k..])
  {
    var s := ToDecimal(n);
    if k <= |s| then DigitSplit(n, |s| - k); n % Pow10(k)
    else n % Pow10(k)
  }

  /** Whether `n`, of `total` digits, is its leading `p` digits repeated. */
  method MatchesRepeatedPattern(n: nat, total: nat, p: nat) returns (b: bool)
    requires p >= 1 && (total % p == 0 ==> p <= total)
    ensures total == |ToDecimal(n)| ==> (b <==> HasBlock(ToDecimal(n), p))
  {
    if total % p != 0 {
      return false;
    }
    var pattern := GetFirstKDigits(n, total, p);
    var repetitions := total / p;
    var expected := 0;
    var multiplier := Pow10(p);
    for i := 0 to repetitions
      invariant expected == pattern * DivisorSum(p, i)
    {
      DivisorHorner(p, i + 1);
      MulAddOne(pattern, DivisorSum(p, i), multiplier);
      expected := expected * multiplier + pattern;
    }
    b := n == expected;
    if total == |ToDecimal(n)| {
      ToDecimalValue(n);
      BlockByValue(ToDecimal(n), p);
    }
  }

  /** Sum of 10^(i p) for i below r; `r p <= 19` keeps the last power within u64. */
  method ComputeDivisor(p: nat, r: nat) returns (divisor: nat)
    requires p * r <= 19
    ensures divisor == DivisorSum(p, r)
  {
    divisor := 0;
    var multiplier := Pow10(p);
    var power := 1;
    for i := 0 to r
      invariant divisor == DivisorSum(p, i) && power == Pow10(p * i)
    {
      divisor := divisor + power;
      PowerStep(p, i);
      power := power * multiplier;
    }
  }

  // ---------------------------------------------------------------------
  // The six validators
  // ---------------------------------------------------------------------

  /** Part 1, string form: an even number of digits with equal halves. */
  function IsInvalidIdString(id: nat): (b: bool)
    ensures b <==> RepeatedTwice(ToDecimal(id))
  {
    var s := ToDecimal(id);
    RepeatedTwiceHalves(s);
    if |s| % 2 != 0 then false
    else s[..|s| / 2] == s[|s| / 2..]
  }

  /** The block search has ruled out one more length. */
  lemma NoBlockUpTo(s: string, p: nat)
    requires forall q :: 1 <= q < p ==> !HasBlock(s, q)
    requires !HasBlock(s, p)
    ensures forall q :: 1 <= q < p + 1 ==> !HasBlock(s, q)
  {
  }

  /** Part 2, string form: some block length up to half the length repeats to the string. */
  method IsInvalidIdV2String(id: nat) returns (b: bool)
    ensures b <==> RepeatedAtLeastTwice(ToDecimal(id))
  {
    var s := ToDecimal(id);
    var len := |s|;
    RepeatedAtLeastTwiceBlock(s);
    for p := 1 to len / 2 + 1
      invariant forall q :: 1 <= q < p ==> !HasBlock(s, q)
    {
      if len % p == 0 {
        var pattern := s[..p];
        var repetitions := len / p;
        if Repeat(pattern, repetitions) == s {
          return true;
        }
      }
      NoBlockUpTo(s, p);
    }
    return false;
  }

  /** Part 1, digit arithmetic: compare the leading and trailing halves as numbers. */
  method IsInvalidId(id: nat) returns (b: bool)
    ensures b <==> RepeatedTwice(ToDecimal(id))
  {
    var digits := CountDigits(id);
    RepeatedTwiceHalves(ToDecimal(id));
    if digits % 2 != 0 {
      return false;
    }
    var half := digits / 2;
    var firstHalf := GetFirstKDigits(id, digits, half);
    var secondHalf := GetLastKDigits(id, half);
    b := firstHalf == secondHalf;
    var s := ToDecimal(id);
    assert |s| - half == half;
    if b {
      ValueInjective(s[..half], s[half..]);
    }
  }

  /** Part 2, digit arithmetic: try every block length up to half the digit count. */
  method IsInvalidIdV2(id: nat) returns (b: bool)
    ensures b <==> RepeatedAtLeastTwice(ToDecimal(id))
  {
    var digits := CountDigits(id);
    RepeatedAtLeastTwiceBlock(ToDecimal(id));
    for p := 1 to digits / 2 + 1
      invariant forall q :: 1 <= q < p ==> !HasBlock(ToDecimal(id), q)
    {
      var matches := MatchesRepeatedPattern(id, digits, p);
      if matches {
        return true;
      }
      NoBlockUpTo(ToDecimal(id), p);
    }
    return false;
  }

  /** Part 1, divisor form: divisible by 10^(digits/2) + 1; ids stay below 10^19. */
  method IsInvalidIdModulo(id: nat) returns (b: bool)
    requires id < Pow10(19)
    ensures b <==> RepeatedTwice(ToDecimal(id))
  {
    var digits := CountDigits(id);
    DigitCountBound(id, 19);
    RepeatedTwiceHalves(ToDecimal(id));
    if digits % 2 != 0 {
      return false;
    }
    var half := digits / 2;
    HalfQuotient(digits);
    var divisor := ComputeDivisor(half, 2);
    DivisorTest(id, half);
    RepeatedTwiceBlock(ToDecimal(id));
    b := id % divisor == 0;
  }

  /** Part 2, divisor form: for each block length dividing the digit count, test divisibility. */
  method IsInvalidIdV2Modulo(id: nat) returns (b: bool)
    requires id < Pow10(19)
    ensures b <==> RepeatedAtLeastTwice(ToDecimal(id))
  {
    var digits := CountDigits(id);
    DigitCountBound(id, 19);
    RepeatedAtLeastTwiceBlock(ToDecimal(id));
    for p := 1 to digits / 2 + 1
      invariant forall q :: 1 <= q < p ==> !HasBlock(ToDecimal(id), q)
    {
      var divisible := DivisibleByBlockDivisor(id, digits, p);
      if divisible {
        return true;
      }
      NoBlockUpTo(ToDecimal(id), p);
    }
    return false;
  }

  /** One step of the part 2 divisor loop: `p` divides the digit count and `id` the divisor. */
  method DivisibleByBlockDivisor(id: nat, digits: nat, p: nat) returns (b: bool)
    requires digits == |ToDecimal(id)| <= 19 && 1 <= p <= digits
    ensures b <==> HasBlock(ToDecimal(id), p)
  {
    if digits % p != 0 {
      return false;
    }
    var repeatCount := digits / p;
    ExactQuotient(digits, p);
    var divisor := ComputeDivisor(p, repeatCount);
    DivisorTest(id, p);
    b := id % divisor == 0;
  }

  /** `ModuloBlock` on the decimal form of `id`. */
  lemma DivisorTest(id: nat, p: nat)
    requires 1 <= p <= |ToDecimal(id)| && |ToDecimal(id)| % p == 0
    ensures DivisorSum(p, |ToDecimal(id)| / p) >= 1
    ensures HasBlock(ToDecimal(id), p) <==> id % DivisorSum(p, |ToDecimal(id)| / p) == 0
  {
    ToDecimalValue(id);
    ModuloBlock(ToDecimal(id), p);
  }

  // ---------------------------------------------------------------------
  // Parsing the ranges
  // ---------------------------------------------------------------------

  /** One comma-separated piece: exactly two `-`-separated parts that both parse as u64. */
  function ParseRange(piece: string): (r: Option<(nat, nat)>)
    ensures r.Some? ==> r.value.0 <= U64_MAX && r.value.1 <= U64_MAX
  {
    var parts := Split(piece, '-');
    if |parts| == 2 then
      match (ParseU64(parts[0]), ParseU64(parts[1]))
      case (Some(a), Some(b)) => Some((a, b))
      case _ => None
    else None
  }

  /** The pieces that parse, in order; the others are dropped. */
  function KeepRanges(pieces: seq<string>): (ranges: seq<(nat, nat)>)
    ensures |ranges| <= |pieces|
    ensures forall k :: 0 <= k < |ranges| ==> ranges[k].0 <= U64_MAX && ranges[k].1 <= U64_MAX
  {
    if pieces == [] then []
    else
      var rest := KeepRanges(pieces[..|pieces| - 1]);
      match ParseRange(pieces[|pieces| - 1])
      case Some(r) => rest + [r]
      case None => rest
  }

  /** The input, trimmed and split on commas, keeping the pieces of the form `a-b`. */
  function ParseRanges(input: string): (ranges: seq<(nat, nat)>)
    ensures forall k :: 0 <= k < |ranges| ==> ranges[k].0 <= U64_MAX && ranges[k].1 <= U64_MAX
  {
    KeepRanges(Split(Trim(input), ','))
  }

  /** A range as the puzzle input writes it. */
  function ShowRange(r: (nat, nat)): string {
    ToDecimal(r.0) + "-" + ToDecimal(r.1)
  }

  /** Each range written out. */
  function ShownPieces(ranges: seq<(nat, nat)>): (pieces: seq<string>)
    ensures |pieces| == |ranges|
    ensures forall k :: 0 <= k < |ranges| ==> pieces[k] == ShowRange(ranges[k])
  {
    if ranges == [] then []
    else ShownPieces(ranges[..|ranges| - 1]) + [ShowRange(ranges[|ranges| - 1])]
  }

  /** The ranges written out, comma-separated. */
  function ShowRanges(ranges: seq<(nat, nat)>): string {
    if ranges == [] then "" else Join(ShownPieces(ranges), ',')
  }

  /** Every u64 range written as `a-b` parses back to itself. */
  lemma ParseShowRange(r: (nat, nat))
    requires r.0 <= U64_MAX && r.1 <= U64_MAX
    ensures ParseRange(ShowRange(r)) == Some(r)
  {
    var a, b := ToDecimal(r.0), ToDecimal(r.1);
    assert ShowRange(r) == Join([a, b], '-');
    assert '-' !in a && '-' !in b;
    SplitJoin([a, b], '-');
    ParseU64RoundTrip(r.0);
    ParseU64RoundTrip(r.1);
  }

  /** Keeping the parsable pieces of written-out ranges gives the ranges back, in order. */
  lemma KeepShownRanges(ranges: seq<(nat, nat)>)
    requires forall k :: 0 <= k < |ranges| ==> ranges[k].0 <= U64_MAX && ranges[k].1 <= U64_MAX
    ensures KeepRanges(ShownPieces(ranges)) == ranges
  {
    var pieces := ShownPieces(ranges);
    forall k | 0 <= k < |ranges|
      ensures ParseRange(pieces[k]) == Some(ranges[k])
    {
      ParseShowRange(ranges[k]);
    }
    KeepAll(pieces, ranges);
  }

  /** A non-empty sequence is its front followed by its last element. */
  lemma SnocLast<T>(s: seq<T>)
    requires |s| >= 1
    ensures s[..|s| - 1] + [s[|s| - 1]] == s
  {
  }

  /** When every piece parses, all of them are kept, in order. */
  lemma {:induction false} KeepAll(pieces: seq<string>, ranges: seq<(nat, nat)>)
    requires |pieces| == |ranges|
    requires forall k :: 0 <= k < |pieces| ==> ParseRange(pieces[k]) == Some(ranges[k])
    ensures KeepRanges(pieces) == ranges
  {
    if pieces != [] {
      var n := |pieces| - 1;
      KeepAll(pieces[..n], ranges[..n]);
      SnocLast(ranges);
    }
  }

  /** The last character of a join is the last character of the last part. */
  lemma {:induction false} JoinLast(parts: seq<string>, sep: char)
    requires |parts| >= 1 && parts[|parts| - 1] != []
    ensures |Join(parts, sep)| >= 1
    ensures Join(parts, sep)[|Join(parts, sep)| - 1] == parts[|parts| - 1][|parts[|parts| - 1]| - 1]
  {
    if |parts| > 1 {
      JoinLast(parts[1..], sep);
    }
  }

  /** Parsing written-out u64 ranges gives the same ranges in the same order. */
  lemma ParseShowRanges(ranges: seq<(nat, nat)>)
    requires forall k :: 0 <= k < |ranges| ==> ranges[k].0 <= U64_MAX && ranges[k].1 <= U64_MAX
    ensures ParseRanges(ShowRanges(ranges)) == ranges
  {
    if ranges == [] {
      assert Split("", '-') == [""];
      assert ParseRange("") == None;
      assert Split(Trim(""), ',') == [""];
      assert KeepRanges([""]) == KeepRanges([]) ;
    } else {
      var pieces := ShownPieces(ranges);
      var text := Join(pieces, ',');
      forall k | 0 <= k < |pieces|
        ensures ',' !in pieces[k]
      {
        var a, b := ToDecimal(ranges[k].0), ToDecimal(ranges[k].1);
        assert pieces[k] == a + "-" + b;
      }
      JoinLast(pieces, ',');
      var last := pieces[|pieces| - 1];
      assert last == ToDecimal(ranges[|ranges| - 1].0) + "-" + ToDecimal(ranges[|ranges| - 1].1);
      assert IsDigit(last[|last| - 1]);
      assert IsDigit(text[0]);
      TrimNoSpace(text);
      SplitJoin(pieces, ',');
      KeepShownRanges(ranges);
    }
  }

  // ---------------------------------------------------------------------
  // The solver
  // ---------------------------------------------------------------------

  datatype Part = Part1 | Part2

  /** Which family of validators a solver instance uses. */
  datatype Impl = Math | Str | Modulo

  /** The definition each part's validator decides. */
  ghost predicate Invalid(part: Part, id: nat) {
    match part
    case Part1 => RepeatedTwice(ToDecimal(id))
    case Part2 => RepeatedAtLeastTwice(ToDecimal(id))
  }

  /** The validator a solver instance calls for one id. */
  method Validate(part: Part, impl: Impl, id: nat) returns (b: bool)
    requires impl == Modulo ==> id < Pow10(19)
    ensures b <==> Invalid(part, id)
  {
    match (part, impl)
    case (Part1, Math) => b := IsInvalidId(id);
    case (Part1, Str) => b := IsInvalidIdString(id);
    case (Part1, Modulo) => b := IsInvalidIdModulo(id);
    case (Part2, Math) => b := IsInvalidIdV2(id);
    case (Part2, Str) => b := IsInvalidIdV2String(id);
    case (Part2, Modulo) => b := IsInvalidIdV2Modulo(id);
  }

  /** Every range ends below 10^19, the ids the divisor validators accept. */
  predicate BelowModuloLimit(ranges: seq<(nat, nat)>) {
    forall k :: 0 <= k < |ranges| ==> ranges[k].1 < Pow10(19)
  }

  /** Sum of the invalid ids in `lo..=hi`. */
  ghost function RangeTotal(part: Part, lo: nat, hi: int): nat
    decreases hi - lo
  {
    if hi < lo then 0
    else RangeTotal(part, lo, hi - 1) + (if Invalid(part, hi) then hi else 0)
  }

  /** Sum over all ranges of their invalid ids. */
  ghost function Total(part: Part, ranges: seq<(nat, nat)>): nat {
    if ranges == [] then 0
    else
      var last := ranges[|ranges| - 1];
      Total(part, ranges[..|ranges| - 1]) + RangeTotal(part, last.0, last.1)
  }

  /** One more range adds its own total. */
  lemma TotalStep(part: Part, ranges: seq<(nat, nat)>, i: nat)
    requires i < |ranges|
    ensures Total(part, ranges[..i + 1]) == Total(part, ranges[..i]) + RangeTotal(part, ranges[i].0, ranges[i].1)
  {
    assert ranges[..i + 1][..i] == ranges[..i];
  }

  /** `part1` / `part2` of a solver instance: the decimal sum of every invalid id in every range. */
  method Solve(input: string, part: Part, impl: Impl) returns (answer: string)
    requires impl == Modulo ==> BelowModuloLimit(ParseRanges(input))
    ensures answer == ToDecimal(Total(part, ParseRanges(input)))
  {
    var ranges := ParseRanges(input);
    var sum := SumRanges(part, impl, ranges);
    answer := ToDecimal(sum);
  }

  /** The invalid ids of every range, summed range by range. */
  method SumRanges(part: Part, impl: Impl, ranges: seq<(nat, nat)>) returns (sum: nat)
    requires impl == Modulo ==> BelowModuloLimit(ranges)
    ensures sum == Total(part, ranges)
  {
    sum := 0;
    for i := 0 to |ranges|
      invariant sum == Total(part, ranges[..i])
    {
      var rangeSum := SumInvalid(part, impl, ranges[i].0, ranges[i].1);
      sum := sum + rangeSum;
      TotalStep(part, ranges, i);
    }
    assert ranges[..|ranges|] == ranges;
  }

  /** The invalid ids of one inclusive range `start..=end`, summed. */
  method SumInvalid(part: Part, impl: Impl, start: nat, end: nat) returns (sum: nat)
    requires impl == Modulo ==> end < Pow10(19)
    ensures sum == RangeTotal(part, start, end)
  {
    sum := 0;
    var id := start;
    while id <= end
      invariant id == start || start <= id <= end + 1
      invariant sum == RangeTotal(part, start, id - 1)
    {
      var invalid := Validate(part, impl, id);
      if invalid {
        sum := sum + id;
      }
      id := id + 1;
    }
  }

  /** Every part 1 id is a part 2 id, so part 1's sum never exceeds part 2's. */
  lemma {:induction false} Part1AtMostPart2(ranges: seq<(nat, nat)>)
    ensures Total(Part1, ranges) <= Total(Part2, ranges)
  {
    if ranges != [] {
      Part1AtMostPart2(ranges[..|ranges| - 1]);
      var last := ranges[|ranges| - 1];
      RangeAtMost(last.0, last.1);
    }
  }

  lemma {:induction false} RangeAtMost(lo: nat, hi: int)
    ensures RangeTotal(Part1, lo, hi) <= RangeTotal(Part2, lo, hi)
    decreases hi - lo
  {
    if hi >= lo {
      RangeAtMost(lo, hi - 1);
      if Invalid(Part1, hi) {
        RepeatedTwiceIsRepeated(ToDecimal(hi));
      }
    }
  }
}
