/**
 * Day 3: each line is a bank of batteries, one decimal digit each.  Part 1
 * turns on two batteries and reads their digits, in bank order, as a
 * two-digit joltage; part 2 turns on twelve.  Each bank contributes its
 * largest possible joltage and the answer is the sum over the banks.
 */
module Day03 {
  import opened Common

  /** The joltage of two batteries read in order. */
  function Joltage(first: char, second: char): nat
    requires IsDigit(first) && IsDigit(second)
  {
    10 * DigitValue(first) + DigitValue(second)
  }

  // ---------------------------------------------------------------------
  // Part 1: the best pair of batteries
  // ---------------------------------------------------------------------

  /** The largest battery from position i to the end of the bank. */
  function SuffixMax(bank: string, i: nat): (c: char)
    requires i < |bank|
    ensures AllDigits(bank) ==> IsDigit(c)
    decreases |bank| - i
  {
    if i == |bank| - 1 then bank[i]
    else
      var rest := SuffixMax(bank, i + 1);
      if rest > bank[i] then rest else bank[i]
  }

  /** No battery from position i on is larger than `SuffixMax`. */
  lemma {:induction false} SuffixMaxBound(bank: string, i: nat)
    requires i < |bank|
    ensures forall k :: i <= k < |bank| ==> bank[k] <= SuffixMax(bank, i)
    decreases |bank| - i
  {
    if i < |bank| - 1 {
      SuffixMaxBound(bank, i + 1);
    }
  }

  /** `SuffixMax` is the battery at some position from i on. */
  lemma {:induction false} SuffixMaxAt(bank: string, i: nat) returns (j: nat)
    requires i < |bank|
    ensures i <= j < |bank| && bank[j] == SuffixMax(bank, i)
    decreases |bank| - i
  {
    if i == |bank| - 1 || SuffixMax(bank, i + 1) <= bank[i] {
      j := i;
    } else {
      j := SuffixMaxAt(bank, i + 1);
    }
  }

  /** The reverse pass of `max_joltage`: entry i holds the largest battery from i to the end. */
  method SuffixMaxima(bank: string) returns (suffixMax: array<char>)
    requires |bank| >= 1
    ensures fresh(suffixMax) && suffixMax.Length == |bank|
    ensures forall i :: 0 <= i < |bank| ==> suffixMax[i] == SuffixMax(bank, i)
  {
    var n := |bank|;
    suffixMax := new char[n](_ => 0 as char);
    suffixMax[n - 1] := bank[n - 1];
    var i := n - 1;
    while i > 0
      invariant 0 <= i <= n - 1
      invariant forall k :: i <= k < n ==> suffixMax[k] == SuffixMax(bank, k)
    {
      i := i - 1;
      ghost var next := SuffixMax(bank, i + 1);
      assert suffixMax[i + 1] == next;
      suffixMax[i] := if suffixMax[i + 1] > bank[i] then suffixMax[i + 1] else bank[i];
      assert suffixMax[i] == SuffixMax(bank, i);
    }
  }

  /** Battery i paired with the largest battery after it. */
  function RowJoltage(bank: string, i: nat): nat
    requires AllDigits(bank) && i + 1 < |bank|
  {
    Joltage(bank[i], SuffixMax(bank, i + 1))
  }

  /** The best of the first `rows` row joltages, or 0 before the first row. */
  function BestRows(bank: string, rows: nat): nat
    requires AllDigits(bank) && rows < |bank|
  {
    if rows == 0 then 0
    else
      var previous := BestRows(bank, rows - 1);
      var current := RowJoltage(bank, rows - 1);
      if current >= previous then current else previous
  }

  /** The best two-battery joltage of a bank: the best row over all rows. */
  function BestPair(bank: string): nat
    requires |bank| >= 1 && AllDigits(bank)
  {
    BestRows(bank, |bank| - 1)
  }

  /** Part 1 on one bank: pair each battery with the best one after it. */
  method MaxJoltage(bank: string) returns (max: nat)
    requires |bank| >= 1 && AllDigits(bank)
    ensures max == BestPair(bank)
  {
    var n := |bank|;
    var suffixArray := SuffixMaxima(bank);
    var suffixMax := suffixArray[..];
    max := 0;
    for i := 0 to n - 1
      invariant max == BestRows(bank, i)
    {
      var joltage := Joltage(bank[i], suffixMax[i + 1]);
      max := if joltage >= max then joltage else max;
    }
  }

  /** `BestPair` is the largest joltage of any pair i < j, and 0 for a single battery. */
  lemma BestPairIsBest(bank: string)
    requires |bank| >= 1 && AllDigits(bank)
    ensures |bank| == 1 ==> BestPair(bank) == 0
    ensures |bank| >= 2 ==> exists i, j :: 0 <= i < j < |bank| && BestPair(bank) == Joltage(bank[i], bank[j])
    ensures forall i, j :: 0 <= i < j < |bank| ==> Joltage(bank[i], bank[j]) <= BestPair(bank)
  {
    var n := |bank|;
    BestRowsBound(bank, n - 1);
    if n >= 2 {
      var i, j := BestRowsAttained(bank, n - 1);
      assert 0 <= i < j < n && BestPair(bank) == Joltage(bank[i], bank[j]);
    }
  }

  /** No pair starting in the first `rows` rows beats `BestRows`. */
  lemma {:induction false} BestRowsBound(bank: string, rows: nat)
    requires AllDigits(bank) && rows < |bank|
    ensures forall a, b :: 0 <= a < rows && a < b < |bank| ==> Joltage(bank[a], bank[b]) <= BestRows(bank, rows)
  {
    if rows > 0 {
      BestRowsBound(bank, rows - 1);
      RowBound(bank, rows - 1);
      var best := BestRows(bank, rows);
      BestRowsStep(bank, rows);
      forall a, b | 0 <= a < rows && a < b < |bank|
        ensures Joltage(bank[a], bank[b]) <= best
      {
        if a < rows - 1 {
          assert Joltage(bank[a], bank[b]) <= BestRows(bank, rows - 1);
        } else {
          assert Joltage(bank[a], bank[b]) <= RowJoltage(bank, rows - 1);
        }
      }
    }
  }

  /** One more row can only raise the best joltage, to at least that row's. */
  lemma BestRowsStep(bank: string, rows: nat)
    requires AllDigits(bank) && 0 < rows < |bank|
    ensures BestRows(bank, rows - 1) <= BestRows(bank, rows) && RowJoltage(bank, rows - 1) <= BestRows(bank, rows)
  {
  }

  /** Some pair starting in the first `rows` rows reaches `BestRows`. */
  lemma {:induction false} BestRowsAttained(bank: string, rows: nat) returns (i: nat, j: nat)
    requires AllDigits(bank) && 1 <= rows < |bank|
    ensures i < rows && i < j < |bank| && BestRows(bank, rows) == Joltage(bank[i], bank[j])
  {
    if rows == 1 || RowJoltage(bank, rows - 1) >= BestRows(bank, rows - 1) {
      i := rows - 1;
      j := SuffixMaxAt(bank, rows);
    } else {
      i, j := BestRowsAttained(bank, rows - 1);
    }
  }

  /** Battery i pairs best with the largest battery after it. */
  lemma RowBound(bank: string, i: nat)
    requires AllDigits(bank) && i + 1 < |bank|
    ensures forall b :: i < b < |bank| ==> Joltage(bank[i], bank[b]) <= RowJoltage(bank, i)
  {
    SuffixMaxBound(bank, i + 1);
  }


  // ---------------------------------------------------------------------
  // Part 2: the greedy choice of k batteries
  // ---------------------------------------------------------------------

  /** Strictly increasing indices below n: a choice of batteries in bank order. */
  predicate IsChoice(idx: seq<nat>, n: nat) {
    (forall t :: 0 <= t < |idx| ==> idx[t] < n)
    && (forall s, t :: 0 <= s < t < |idx| ==> idx[s] < idx[t])
  }

  /** The digits of the chosen batteries, in order. */
  function Pick(bank: string, idx: seq<nat>): (s: string)
    requires forall t :: 0 <= t < |idx| ==> idx[t] < |bank|
    ensures |s| == |idx| && forall t :: 0 <= t < |idx| ==> s[t] == bank[idx[t]]
  {
    seq(|idx|, t requires 0 <= t < |idx| => bank[idx[t]])
  }

  /** The number a choice of batteries reads as. */
  function ChoiceValue(bank: string, idx: seq<nat>): nat
    requires AllDigits(bank) && forall t :: 0 <= t < |idx| ==> idx[t] < |bank|
  {
    ValueOf(Pick(bank, idx))
  }

  /** The leftmost largest digit in the window `lo..hi`, scanning left to right with a strict `>`. */
  function LeftmostMax(bank: string, lo: nat, hi: nat): (m: nat)
    requires lo < hi <= |bank|
    ensures lo <= m < hi
  {
    if hi == lo + 1 then lo
    else
      var m := LeftmostMax(bank, lo, hi - 1);
      if bank[hi - 1] > bank[m] then hi - 1 else m
  }

  /** No digit of the window is larger, and every digit before it is smaller. */
  lemma {:induction false} LeftmostMaxIsMax(bank: string, lo: nat, hi: nat)
    requires lo < hi <= |bank|
    ensures forall t :: lo <= t < hi ==> bank[t] <= bank[LeftmostMax(bank, lo, hi)]
    ensures forall t :: lo <= t < LeftmostMax(bank, lo, hi) ==> bank[t] < bank[LeftmostMax(bank, lo, hi)]
  {
    if hi > lo + 1 {
      LeftmostMaxIsMax(bank, lo, hi - 1);
    }
  }

  /**
   * The greedy choice of `rem` batteries from `start` on: the leftmost
   * largest digit that still leaves enough batteries, then the rest after it.
   */
  function Greedy(bank: string, start: nat, rem: nat): (idx: seq<nat>)
    requires start + rem <= |bank|
    ensures |idx| == rem
    ensures forall t :: 0 <= t < |idx| ==> start <= idx[t] < |bank|
    decreases rem
  {
    if rem == 0 then []
    else
      var m := LeftmostMax(bank, start, |bank| - rem + 1);
      [m] + Greedy(bank, m + 1, rem - 1)
  }

  /** The number the greedy choice reads as. */
  function GreedyValue(bank: string, start: nat, rem: nat): nat
    requires AllDigits(bank) && start + rem <= |bank|
  {
    ChoiceValue(bank, Greedy(bank, start, rem))
  }

  /** The greedy indices increase: they are a choice of batteries. */
  lemma {:induction false} GreedyIsChoice(bank: string, start: nat, rem: nat)
    requires start + rem <= |bank|
    ensures IsChoice(Greedy(bank, start, rem), |bank|)
    decreases rem
  {
    if rem > 0 {
      var m := LeftmostMax(bank, start, |bank| - rem + 1);
      var rest := Greedy(bank, m + 1, rem - 1);
      GreedyIsChoice(bank, m + 1, rem - 1);
      var g := Greedy(bank, start, rem);
      assert g == [m] + rest;
      forall a, b | 0 <= a < b < |g|
        ensures g[a] < g[b]
      {
        assert g[b] == rest[b - 1];
        if a > 0 {
          assert g[a] == rest[a - 1];
        }
      }
    }
  }

  /** Part 2 on one bank: the `k` batteries chosen greedily, read as one number. */
  method MaxJoltageK(bank: string, k: nat) returns (result: nat)
    requires k <= |bank| && AllDigits(bank)
    ensures result == GreedyValue(bank, 0, k)
  {
    var n := |bank|;
    result := 0;
    var start := 0;
    ghost var rem := k;
    ShiftIsProduct(0, k);
    for position := 0 to k
      invariant rem == k - position && start + rem <= n
      invariant GreedyValue(bank, 0, k) == Shift(result, rem) + GreedyValue(bank, start, rem)
    {
      var maxIdx := ScanMax(bank, start, n - k + position + 1);
      ghost var before := (result, start, rem);
      result := result * 10 + DigitValue(bank[maxIdx]);
      start := maxIdx + 1;
      rem := rem - 1;
      TakeDigit(bank, before.0, before.1, before.2, maxIdx, result, start, rem);
    }
  }

  /**
   * Taking the leftmost largest digit of the window moves it from the greedy
   * value of the rest to the number built so far.
   */
  lemma TakeDigit(bank: string, result: nat, start: nat, rem: nat, m: nat, result': nat, start': nat, rem': nat)
    requires AllDigits(bank) && start + rem <= |bank| && rem >= 1
    requires m == LeftmostMax(bank, start, |bank| - rem + 1)
    requires result' == result * 10 + DigitValue(bank[m]) && start' == m + 1 && rem' == rem - 1
    ensures start' + rem' <= |bank|
    ensures Shift(result, rem) + GreedyValue(bank, start, rem) == Shift(result', rem') + GreedyValue(bank, start', rem')
  {
    GreedyValueStep(bank, start, rem, m, start', rem');
    ShiftAppend(result, DigitValue(bank[m]), rem', result', rem);
  }

  /**
   * The greedy value is its leading digit shifted into place `rem - 1`,
   * then the greedy value of the batteries after it.
   */
  lemma GreedyValueStep(bank: string, start: nat, rem: nat, m: nat, start': nat, rem': nat)
    requires AllDigits(bank) && start + rem <= |bank| && rem >= 1
    requires m == LeftmostMax(bank, start, |bank| - rem + 1) && start' == m + 1 && rem' == rem - 1
    ensures start' + rem' <= |bank|
    ensures GreedyValue(bank, start, rem) == Shift(DigitValue(bank[m]), rem') + GreedyValue(bank, start', rem')
  {
    var g := Greedy(bank, start, rem);
    var rest := Greedy(bank, start', rem');
    assert g[0] == m && g[1..] == rest by {
      assert g == [m] + rest;
    }
    ChoiceFront(bank, g, rem');
  }

  /** The inner scan of `max_joltage_k`: the first position of the largest digit in `lo..hi`. */
  method ScanMax(bank: string, lo: nat, hi: nat) returns (maxIdx: nat)
    requires lo < hi <= |bank|
    ensures maxIdx == LeftmostMax(bank, lo, hi)
  {
    maxIdx := lo;
    for i := lo + 1 to hi
      invariant maxIdx == LeftmostMax(bank, lo, i)
    {
      if bank[i] > bank[maxIdx] {
        maxIdx := i;
      }
    }
  }

  /** Choosing no battery reads as zero. */
  lemma ChoiceEmpty(bank: string, idx: seq<nat>)
    requires AllDigits(bank) && idx == []
    ensures ChoiceValue(bank, idx) == 0
  {
    assert Pick(bank, idx) == [];
  }

  /** The value of a choice, most significant battery first. */
  lemma ChoiceFront(bank: string, idx: seq<nat>, n: nat)
    requires AllDigits(bank) && |idx| == n + 1
    requires forall t :: 0 <= t < |idx| ==> idx[t] < |bank|
    ensures ChoiceValue(bank, idx) == Shift(DigitValue(bank[idx[0]]), n) + ChoiceValue(bank, idx[1..])
  {
    PickFront(bank, idx);
    ShiftIsProduct(DigitValue(bank[idx[0]]), n);
  }

  lemma PickFront(bank: string, idx: seq<nat>)
    requires AllDigits(bank) && |idx| >= 1
    requires forall t :: 0 <= t < |idx| ==> idx[t] < |bank|
    ensures AllDigits(Pick(bank, idx)) && AllDigits(Pick(bank, idx[1..]))
    ensures ValueOf(Pick(bank, idx)) == DigitValue(bank[idx[0]]) * Pow10(|idx| - 1) + ValueOf(Pick(bank, idx[1..]))
  {
    var head := [bank[idx[0]]];
    var rest := Pick(bank, idx[1..]);
    assert Pick(bank, idx) == head + rest;
    ValueAppend(head, rest);
    assert head[..0] == [];
    assert ValueOf(head) == DigitValue(bank[idx[0]]);
    assert |rest| == |idx| - 1;
  }

  /** A choice of `r` batteries reads as a number below 10^r. */
  lemma ChoiceBound(bank: string, idx: seq<nat>)
    requires AllDigits(bank) && forall t :: 0 <= t < |idx| ==> idx[t] < |bank|
    ensures ChoiceValue(bank, idx) < Pow10(|idx|)
  {
    ValueBelowPow10(Pick(bank, idx));
  }

  /** A choice of `rem` batteries starts no later than `n - rem`. */
  lemma {:induction false} ChoiceGap(idx: seq<nat>, n: nat, t: nat)
    requires IsChoice(idx, n) && t < |idx|
    ensures idx[0] + t <= idx[t]
  {
    if t > 0 {
      ChoiceGap(idx, n, t - 1);
    }
  }

  /** A smaller leading digit loses whatever follows. */
  lemma LeadingDigitWins(d: nat, e: nat, r: nat, r': nat, p: nat)
    requires d < e && r < p
    ensures d * p + r < e * p + r'
  {
    assert (d + 1) * p <= e * p;
  }

  /** The tail of a choice is a choice after its first battery. */
  lemma ChoiceTail(idx: seq<nat>, n: nat, lo: nat)
    requires IsChoice(idx, n) && |idx| >= 1 && lo <= idx[0]
    ensures IsChoice(idx[1..], n)
    ensures forall t :: 0 <= t < |idx[1..]| ==> lo + 1 <= idx[1..][t]
  {
  }

  /**
   * The greedy leading battery is at least as large as any choice's first
   * battery, and when they tie it comes no later.
   */
  lemma GreedyLead(bank: string, start: nat, rem: nat, idx: seq<nat>)
    requires start + rem <= |bank| && rem >= 1
    requires IsChoice(idx, |bank|) && |idx| == rem
    requires forall t :: 0 <= t < |idx| ==> start <= idx[t]
    ensures bank[idx[0]] <= bank[LeftmostMax(bank, start, |bank| - rem + 1)]
    ensures bank[idx[0]] == bank[LeftmostMax(bank, start, |bank| - rem + 1)] ==> LeftmostMax(bank, start, |bank| - rem + 1) <= idx[0]
  {
    ChoiceGap(idx, |bank|, rem - 1);
    LeftmostMaxIsMax(bank, start, |bank| - rem + 1);
  }

  /**
   * The greedy choice is optimal: no choice of `rem` batteries from
   * `start` on reads as a larger number.
   */
  lemma {:induction false} GreedyOptimal(bank: string, start: nat, rem: nat, idx: seq<nat>)
    requires AllDigits(bank) && start + rem <= |bank|
    requires IsChoice(idx, |bank|) && |idx| == rem
    requires forall t :: 0 <= t < |idx| ==> start <= idx[t]
    ensures ChoiceValue(bank, idx) <= GreedyValue(bank, start, rem)
    decreases rem
  {
    if rem == 0 {
      ChoiceEmpty(bank, idx);
    } else {
      var m := LeftmostMax(bank, start, |bank| - rem + 1);
      GreedyLead(bank, start, rem, idx);
      if bank[idx[0]] < bank[m] {
        GreedyBeatsLead(bank, start, rem, idx);
      } else {
        assert bank[idx[0]] == bank[m];
        ChoiceTail(idx, |bank|, m);
        GreedyOptimal(bank, m + 1, rem - 1, idx[1..]);
        GreedyTie(bank, start, rem, idx, m, GreedyValue(bank, m + 1, rem - 1));
      }
    }
  }

  /** The other case of `GreedyOptimal`: the greedy leading digit is strictly larger. */
  lemma GreedyBeatsLead(bank: string, start: nat, rem: nat, idx: seq<nat>)
    requires AllDigits(bank) && start + rem <= |bank| && rem >= 1
    requires IsChoice(idx, |bank|) && |idx| == rem
    requires bank[idx[0]] < bank[LeftmostMax(bank, start, |bank| - rem + 1)]
    ensures ChoiceValue(bank, idx) < GreedyValue(bank, start, rem)
  {
    var m := LeftmostMax(bank, start, |bank| - rem + 1);
    GreedyValueStep(bank, start, rem, m, m + 1, rem - 1);
    LeadBeatsTail(bank, idx, rem - 1, DigitValue(bank[m]), GreedyValue(bank, m + 1, rem - 1));
  }

  /** A choice whose leading digit is below `e` reads as less than `e` followed by anything. */
  lemma LeadBeatsTail(bank: string, idx: seq<nat>, n: nat, e: nat, rest: nat)
    requires AllDigits(bank) && |idx| == n + 1
    requires forall t :: 0 <= t < |idx| ==> idx[t] < |bank|
    requires DigitValue(bank[idx[0]]) < e
    ensures ChoiceValue(bank, idx) < Shift(e, n) + rest
  {
    var d := DigitValue(bank[idx[0]]);
    ChoiceFront(bank, idx, n);
    ChoiceBound(bank, idx[1..]);
    ShiftIsProduct(d, n);
    ShiftIsProduct(e, n);
    LeadingDigitWins(d, e, ChoiceValue(bank, idx[1..]), rest, Pow10(n));
  }

  /** The tie case of `GreedyOptimal`: equal leading digits, so the tails decide. */
  lemma GreedyTie(bank: string, start: nat, rem: nat, idx: seq<nat>, m: nat, rest: nat)
    requires AllDigits(bank) && start + rem <= |bank| && rem >= 1
    requires m == LeftmostMax(bank, start, |bank| - rem + 1)
    requires |idx| == rem && forall t :: 0 <= t < |idx| ==> idx[t] < |bank|
    requires bank[idx[0]] == bank[m]
    requires rest == GreedyValue(bank, m + 1, rem - 1) && ChoiceValue(bank, idx[1..]) <= rest
    ensures ChoiceValue(bank, idx) <= GreedyValue(bank, start, rem)
  {
    var d := DigitValue(bank[m]);
    assert DigitValue(bank[idx[0]]) == d;
    GreedyValueStep(bank, start, rem, m, m + 1, rem - 1);
    ChoiceFront(bank, idx, rem - 1);
    assert ChoiceValue(bank, idx) == Shift(d, rem - 1) + ChoiceValue(bank, idx[1..]);
  }

  /**
   * `MaxJoltageK` returns the largest number any choice of k batteries
   * reads as, and the greedy choice reads as it.
   */
  lemma MaxJoltageKOptimal(bank: string, k: nat, idx: seq<nat>)
    requires AllDigits(bank) && k <= |bank|
    requires IsChoice(idx, |bank|) && |idx| == k
    ensures ChoiceValue(bank, idx) <= GreedyValue(bank, 0, k)
    ensures IsChoice(Greedy(bank, 0, k), |bank|)
  {
    GreedyOptimal(bank, 0, k, idx);
    GreedyIsChoice(bank, 0, k);
  }

  // ---------------------------------------------------------------------
  // The two parts
  // ---------------------------------------------------------------------

  /** The number of batteries part 2 turns on in each bank. */
  const K: nat := 12

  predicate ValidBanks(banks: seq<string>, least: nat) {
    forall b :: 0 <= b < |banks| ==> |banks[b]| >= least && AllDigits(banks[b])
  }

  function SumBestPairs(banks: seq<string>): nat
    requires ValidBanks(banks, 1)
  {
    if banks == [] then 0
    else SumBestPairs(banks[..|banks| - 1]) + BestPair(banks[|banks| - 1])
  }

  function SumGreedy(banks: seq<string>, k: nat): nat
    requires ValidBanks(banks, k)
  {
    if banks == [] then 0
    else SumGreedy(banks[..|banks| - 1], k) + GreedyValue(banks[|banks| - 1], 0, k)
  }

  /** Part 1: the best pair of every bank, summed. */
  method Part1(banks: seq<string>) returns (answer: string)
    requires ValidBanks(banks, 1)
    ensures answer == ToDecimal(SumBestPairs(banks))
  {
    var sum := 0;
    for b := 0 to |banks|
      invariant sum == SumBestPairs(banks[..b])
    {
      var best := MaxJoltage(banks[b]);
      sum := sum + best;
      assert banks[..b + 1][..b] == banks[..b];
    }
    assert banks[..|banks|] == banks;
    answer := ToDecimal(sum);
  }

  /** Part 2: the best twelve-battery joltage of every bank, summed. */
  method Part2(banks: seq<string>) returns (answer: string)
    requires ValidBanks(banks, K)
    ensures answer == ToDecimal(SumGreedy(banks, K))
  {
    var sum := SumMaxJoltageK(banks, K);
    answer := ToDecimal(sum);
  }

  /** The sum part 2 takes, for any number `k` of batteries per bank. */
  method SumMaxJoltageK(banks: seq<string>, k: nat) returns (sum: nat)
    requires ValidBanks(banks, k)
    ensures sum == SumGreedy(banks, k)
  {
    sum := 0;
    for b := 0 to |banks|
      invariant sum == SumGreedy(banks[..b], k)
    {
      var best := MaxJoltageK(banks[b], k);
      sum := sum + best;
      assert banks[..b + 1][..b] == banks[..b];
    }
    assert banks[..|banks|] == banks;
  }
}
