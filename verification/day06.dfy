/**
 * Day 6: a math worksheet.  Problems stand side by side in columns of
 * characters, separated by columns that are blank in every line; the last
 * line holds each problem's operator, '+' or '*'.  Part 1 reads each
 * problem's numbers row by row; part 2 reads every character column of a
 * problem top to bottom as one number.  Both add up the problems' results.
 *
 * Lines are the lines of the input; every character is one byte (ASCII).
 */
module Day06 {
  import opened Common

  // ---------------------------------------------------------------------
  // Columns and problems
  // ---------------------------------------------------------------------

  /** Every line is too short to reach the column or has a space there. */
  predicate IsSeparatorColumn(lines: seq<string>, col: nat) {
    forall r :: 0 <= r < |lines| ==> col >= |lines[r]| || lines[r][col] == ' '
  }

  /** No line reaches past the longest one, so every column from there on separates. */
  lemma SeparatorsBeyondWidth(lines: seq<string>, col: nat)
    requires col >= MaxWidth(lines)
    ensures IsSeparatorColumn(lines, col)
  {
  }

  /** The first column at or after `c` that is `w` itself or a separator. */
  function NextSeparator(lines: seq<string>, c: nat, w: nat): (e: nat)
    requires c <= w
    ensures c <= e <= w && (e == w || IsSeparatorColumn(lines, e))
    ensures forall k :: c <= k < e ==> !IsSeparatorColumn(lines, k)
    decreases w - c
  {
    if c == w || IsSeparatorColumn(lines, c) then c else NextSeparator(lines, c + 1, w)
  }

  /** `NextSeparator` is the only column with its two properties. */
  lemma {:induction false} NextSeparatorIs(lines: seq<string>, c: nat, w: nat, e: nat)
    requires c <= e <= w && (e == w || IsSeparatorColumn(lines, e))
    requires forall k :: c <= k < e ==> !IsSeparatorColumn(lines, k)
    ensures NextSeparator(lines, c, w) == e
    decreases e - c
  {
    if c < e {
      NextSeparatorIs(lines, c + 1, w, e);
    }
  }

  /** A problem starts in a column that is not blank and follows the left edge or a blank column. */
  predicate IsProblemStart(lines: seq<string>, c: nat) {
    !IsSeparatorColumn(lines, c) && (c == 0 || IsSeparatorColumn(lines, c - 1))
  }

  /**
   * `find_column_end`: the least column after `start` that is `maxWidth`
   * or a separator.
   */
  method FindColumnEnd(lines: seq<string>, start: nat, maxWidth: nat) returns (e: nat)
    ensures start < maxWidth ==> e == NextSeparator(lines, start + 1, maxWidth)
    ensures start >= maxWidth ==> e == maxWidth
  {
    var col := start + 1;
    while col <= maxWidth
      invariant start + 1 <= col
      invariant start < maxWidth ==> col <= maxWidth
      invariant start < maxWidth ==> NextSeparator(lines, start + 1, maxWidth) == NextSeparator(lines, col, maxWidth)
      decreases maxWidth + 1 - col
    {
      if col == maxWidth || IsSeparatorColumn(lines, col) {
        return col;
      }
      col := col + 1;
    }
    return maxWidth;
  }

  /** Every non-blank column below the width lies in a problem: one that starts at or before it. */
  lemma {:induction false} ColumnInProblem(lines: seq<string>, c: nat, w: nat)
    requires c < w && !IsSeparatorColumn(lines, c)
    ensures exists s: nat :: s <= c && IsProblemStart(lines, s) && c < NextSeparator(lines, s + 1, w)
  {
    if IsProblemStart(lines, c) {
      assert c < NextSeparator(lines, c + 1, w);
    } else {
      ColumnInProblem(lines, c - 1, w);
      var s: nat :| s <= c - 1 && IsProblemStart(lines, s) && c - 1 < NextSeparator(lines, s + 1, w);
      assert !IsSeparatorColumn(lines, c);
      assert c < NextSeparator(lines, s + 1, w);
    }
  }

  /** Two problems that share a column are the same problem. */
  lemma ProblemsDisjoint(lines: seq<string>, s1: nat, s2: nat, c: nat, w: nat)
    requires s1 < w && s2 < w
    requires IsProblemStart(lines, s1) && s1 <= c < NextSeparator(lines, s1 + 1, w)
    requires IsProblemStart(lines, s2) && s2 <= c < NextSeparator(lines, s2 + 1, w)
    ensures s1 == s2
  {
  }

  // ---------------------------------------------------------------------
  // Operators and results
  // ---------------------------------------------------------------------

  predicate IsOperator(c: char) {
    c == '+' || c == '*'
  }

  /** The first '+' or '*' of the line in columns [s, e), or '+' when there is none. */
  function FirstOperator(line: string, s: nat, e: nat): (op: char)
    ensures IsOperator(op)
    decreases e - s
  {
    if s >= e then '+'
    else if s < |line| && IsOperator(line[s]) then line[s]
    else FirstOperator(line, s + 1, e)
  }

  /** When column `c` holds the first operator of the range, that operator is the one found. */
  lemma {:induction false} FirstOperatorIsFirst(line: string, s: nat, e: nat, c: nat)
    requires s <= c < e && c < |line| && IsOperator(line[c])
    requires forall k :: s <= k < c && k < |line| ==> !IsOperator(line[k])
    ensures FirstOperator(line, s, e) == line[c]
    decreases c - s
  {
    if s < c {
      FirstOperatorIsFirst(line, s + 1, e, c);
    }
  }

  /** Without an operator in the range the operator is '+'. */
  lemma {:induction false} FirstOperatorDefault(line: string, s: nat, e: nat)
    requires forall k :: s <= k < e && k < |line| ==> !IsOperator(line[k])
    ensures FirstOperator(line, s, e) == '+'
    decreases e - s
  {
    if s < e {
      FirstOperatorDefault(line, s + 1, e);
    }
  }

  /** The scan for the operator, shared by `parse_and_calculate_column` and `extract_operation`. */
  method OperatorIn(line: string, start: nat, end: nat) returns (op: char)
    ensures op == FirstOperator(line, start, end)
  {
    var col := start;
    while col < end
      invariant start <= col
      invariant FirstOperator(line, start, end) == FirstOperator(line, col, end)
      decreases end - col
    {
      if col < |line| && IsOperator(line[col]) {
        return line[col];
      }
      col := col + 1;
    }
    return '+';
  }

  /** `extract_operation`: the operator in columns `start` through `end` of the last line. */
  method ExtractOperation(lines: seq<string>, start: nat, end: nat) returns (op: char)
    requires |lines| >= 1
    ensures op == FirstOperator(lines[|lines| - 1], start, end + 1)
  {
    op := OperatorIn(lines[|lines| - 1], start, end + 1);
  }

  function Sum(xs: seq<nat>): nat {
    if |xs| == 0 then 0 else xs[0] + Sum(xs[1..])
  }

  function Product(xs: seq<nat>): nat {
    if |xs| == 0 then 1 else xs[0] * Product(xs[1..])
  }

  /** `calculate_result`: no numbers give 0, '+' their sum, '*' their product, anything else 0. */
  function CalculateResult(numbers: seq<nat>, op: char): nat {
    if |numbers| == 0 then 0
    else if op == '+' then Sum(numbers)
    else if op == '*' then Product(numbers)
    else 0
  }

  /** Taking one element out of the middle of a sum. */
  lemma {:induction false} SumRemove(xs: seq<nat>, i: nat)
    requires i < |xs|
    ensures Sum(xs) == xs[i] + Sum(xs[..i] + xs[i + 1..])
  {
    if i > 0 {
      SumRemove(xs[1..], i - 1);
      assert xs[..i] + xs[i + 1..] == [xs[0]] + (xs[1..][..i - 1] + xs[1..][i..]);
    } else {
      assert xs[..i] + xs[i + 1..] == xs[1..];
    }
  }

  lemma MulSwap(a: nat, b: nat, c: nat)
    ensures a * (b * c) == b * (a * c)
  {
  }

  /** Taking one element out of the middle of a product. */
  lemma {:induction false} ProductRemove(xs: seq<nat>, i: nat)
    requires i < |xs|
    ensures Product(xs) == xs[i] * Product(xs[..i] + xs[i + 1..])
  {
    if i > 0 {
      ProductRemove(xs[1..], i - 1);
      assert xs[..i] + xs[i + 1..] == [xs[0]] + (xs[1..][..i - 1] + xs[1..][i..]);
      MulSwap(xs[0], xs[i], Product(xs[..i] + xs[i + 1..]));
    } else {
      assert xs[..i] + xs[i + 1..] == xs[1..];
    }
  }

  /** Picks the position of an element of `a`'s head in `b` and removes it. */
  lemma PermutationTail(a: seq<nat>, b: seq<nat>) returns (i: nat, rest: seq<nat>)
    requires a != [] && multiset(a) == multiset(b)
    ensures i < |b| && b[i] == a[0] && rest == b[..i] + b[i + 1..]
    ensures multiset(a[1..]) == multiset(rest)
  {
    assert a[0] in multiset(b);
    i :| 0 <= i < |b| && b[i] == a[0];
    rest := b[..i] + b[i + 1..];
    assert b == b[..i] + [b[i]] + b[i + 1..];
    assert multiset(b) == multiset(b[..i]) + multiset{b[i]} + multiset(b[i + 1..]);
    assert multiset(rest) == multiset(b[..i]) + multiset(b[i + 1..]);
    assert a == [a[0]] + a[1..];
    assert multiset(a) == multiset{a[0]} + multiset(a[1..]);
    assert multiset(a[1..]) == multiset(a) - multiset{a[0]};
    assert multiset(rest) == multiset(b) - multiset{b[i]};
  }

  /** A sum does not depend on the order of its terms. */
  lemma {:induction false} SumPermutation(a: seq<nat>, b: seq<nat>)
    requires multiset(a) == multiset(b)
    ensures Sum(a) == Sum(b)
    decreases |a|
  {
    if a == [] {
      assert |b| == |multiset(b)| == 0;
    } else {
      var i, rest := PermutationTail(a, b);
      SumPermutation(a[1..], rest);
      SumRemove(b, i);
    }
  }

  /** A product does not depend on the order of its factors. */
  lemma {:induction false} ProductPermutation(a: seq<nat>, b: seq<nat>)
    requires multiset(a) == multiset(b)
    ensures Product(a) == Product(b)
    decreases |a|
  {
    if a == [] {
      assert |b| == |multiset(b)| == 0;
    } else {
      var i, rest := PermutationTail(a, b);
      ProductPermutation(a[1..], rest);
      ProductRemove(b, i);
    }
  }

  /**
   * A problem's result does not depend on the order its numbers are read
   * in: reading the columns right to left, as the worksheet is meant to
   * be read, gives what reading them left to right gives.
   */
  lemma CalculateResultPermutation(a: seq<nat>, b: seq<nat>, op: char)
    requires multiset(a) == multiset(b)
    ensures CalculateResult(a, op) == CalculateResult(b, op)
  {
    if a == [] {
      assert |b| == |multiset(b)| == 0;
    }
    SumPermutation(a, b);
    ProductPermutation(a, b);
  }

  // ---------------------------------------------------------------------
  // Part 1: numbers written across the rows of a problem
  // ---------------------------------------------------------------------

  /**
   * `parse_number_from_range`: the trimmed text of columns [start, end)
   * (cut at the end of the line) as a `u64`; nothing when the line ends
   * before `start`, the text is blank or it is not a number.
   */
  function ParseNumberFromRange(line: string, start: nat, end: nat): (r: Option<nat>)
    requires start < |line| ==> start <= end
    ensures r.Some? ==> start < |line| && r.value <= U64_MAX
  {
    if start >= |line| then None
    else
      var t := Trim(line[start..Min(end, |line|)]);
      if |t| == 0 then None else ParseU64(t)
  }

  function Spaces(n: nat): (s: string)
    ensures |s| == n && forall i :: 0 <= i < n ==> s[i] == ' '
  {
    if n == 0 then [] else [' '] + Spaces(n - 1)
  }

  lemma {:induction false} TrimStartSpaces(n: nat, t: string)
    requires t != [] && !IsSpace(t[0])
    ensures TrimStart(Spaces(n) + t) == t
  {
    if n > 0 {
      assert (Spaces(n) + t)[1..] == Spaces(n - 1) + t;
      TrimStartSpaces(n - 1, t);
    } else {
      assert Spaces(n) + t == t;
    }
  }

  lemma {:induction false} TrimEndSpaces(t: string, n: nat)
    requires t != [] && !IsSpace(t[|t| - 1])
    ensures TrimEnd(t + Spaces(n)) == t
  {
    if n > 0 {
      assert Spaces(n) == Spaces(n - 1) + [' '] by {
        SpacesSnoc(n - 1);
      }
      assert (t + Spaces(n))[..|t + Spaces(n)| - 1] == t + Spaces(n - 1);
      TrimEndSpaces(t, n - 1);
    } else {
      assert t + Spaces(n) == t;
    }
  }

  lemma SpacesSnoc(n: nat)
    ensures Spaces(n + 1) == Spaces(n) + [' ']
  {
  }

  /**
   * A number written in a problem's columns with spaces on either side
   * reads back as that number.
   */
  lemma ParseNumberPadded(line: string, start: nat, end: nat, left: nat, n: nat, right: nat)
    requires n <= U64_MAX
    requires start < end <= |line|
    requires line[start..end] == Spaces(left) + ToDecimal(n) + Spaces(right)
    ensures ParseNumberFromRange(line, start, end) == Some(n)
  {
    assert Min(end, |line|) == end;
    TrimPadded(left, ToDecimal(n), right);
    ParseU64RoundTrip(n);
  }

  lemma TrimPadded(left: nat, d: string, right: nat)
    requires AllDigits(d) && d != []
    ensures Trim(Spaces(left) + d + Spaces(right)) == d
  {
    assert !IsSpace(d[0]) && !IsSpace(d[|d| - 1]);
    assert Spaces(left) + d + Spaces(right) == Spaces(left) + (d + Spaces(right));
    TrimStartSpaces(left, d + Spaces(right));
    TrimEndSpaces(d, right);
  }

  /**
   * The numbers `parse_and_calculate_column` collects from the first `k`
   * lines, top to bottom.
   */
  function RowNumbers(lines: seq<string>, start: nat, end: nat, k: nat): seq<nat>
    requires start <= end && k <= |lines|
  {
    if k == 0 then []
    else RowNumbers(lines, start, end, k - 1) + Parsed(ParseNumberFromRange(lines[k - 1], start, end))
  }

  /** The number, if one was parsed, as a list of zero or one numbers. */
  function Parsed(o: Option<nat>): seq<nat> {
    match o
    case Some(n) => [n]
    case None => []
  }

  /**
   * The result of the problem in columns [start, end), read row by row:
   * the operand rows are every line but the last, which holds the operators.
   */
  function ColumnValue(lines: seq<string>, start: nat, end: nat): nat
    requires |lines| >= 1 && start <= end
  {
    CalculateResult(RowNumbers(lines, start, end, |lines| - 1), FirstOperator(lines[|lines| - 1], start, end))
  }

  /** `parse_and_calculate_column`: one problem, its numbers read row by row. */
  method ParseAndCalculateColumn(lines: seq<string>, start: nat, end: nat) returns (result: nat)
    requires |lines| >= 1 && start <= end
    ensures result == ColumnValue(lines, start, end)
  {
    var numbers: seq<nat> := [];
    var operationRow := |lines| - 1;
    var operation := '+';
    var rowIdx := 0;
    while rowIdx < |lines|
      invariant rowIdx <= |lines|
      invariant numbers == RowNumbers(lines, start, end, if rowIdx <= operationRow then rowIdx else operationRow)
      invariant operation == if rowIdx == |lines| then FirstOperator(lines[operationRow], start, end) else '+'
    {
      var line := lines[rowIdx];
      if rowIdx == operationRow {
        operation := OperatorIn(line, start, end);
      } else {
        numbers := ReadRowNumber(line, start, end, numbers);
      }
      rowIdx := rowIdx + 1;
    }
    result := CalculateResult(numbers, operation);
  }

  /** One operand row of a problem: its number, if it has one, joins the list. */
  method ReadRowNumber(line: string, start: nat, end: nat, numbers: seq<nat>) returns (after: seq<nat>)
    requires start <= end
    ensures after == numbers + Parsed(ParseNumberFromRange(line, start, end))
  {
    var parsed := ParseNumberFromRange(line, start, end);
    after := numbers;
    if parsed.Some? {
      after := after + [parsed.value];
    }
  }

  // ---------------------------------------------------------------------
  // Part 2: numbers written down the columns of a problem
  // ---------------------------------------------------------------------

  /** The digits of column `col` in the first `k` lines, top to bottom; other characters are skipped. */
  function ColumnDigits(lines: seq<string>, col: nat, k: nat): string
    requires k <= |lines|
  {
    if k == 0 then []
    else
      var line := lines[k - 1];
      ColumnDigits(lines, col, k - 1) + if col < |line| && IsDigit(line[col]) then [line[col]] else []
  }

  /**
   * The number column `col` spells in the operand rows (all lines but the
   * last), if it holds a digit and the value fits a `u64`.
   */
  function VerticalNumber(lines: seq<string>, col: nat): Option<nat>
    requires |lines| >= 1
  {
    var k := |lines| - 1;
    if DigitCount(lines, col, k) == 0 then None
    else if DigitsValue(lines, col, k) <= U64_MAX then Some(DigitsValue(lines, col, k))
    else None
  }

  function DigitCount(lines: seq<string>, col: nat, k: nat): nat
    requires k <= |lines|
  {
    if k == 0 then 0
    else DigitCount(lines, col, k - 1) + if col < |lines[k - 1]| && IsDigit(lines[k - 1][col]) then 1 else 0
  }

  /** The value of the digits of column `col` in the first `k` lines, read top to bottom. */
  function DigitsValue(lines: seq<string>, col: nat, k: nat): nat
    requires k <= |lines|
  {
    if k == 0 then 0
    else
      var line := lines[k - 1];
      if col < |line| && IsDigit(line[col]) then DigitsValue(lines, col, k - 1) * 10 + DigitValue(line[col])
      else DigitsValue(lines, col, k - 1)
  }

  /** The digits read are digits, and their decimal value is `DigitsValue`. */
  lemma {:induction false} ColumnDigitsValue(lines: seq<string>, col: nat, k: nat)
    requires k <= |lines|
    ensures AllDigits(ColumnDigits(lines, col, k))
    ensures ValueOf(ColumnDigits(lines, col, k)) == DigitsValue(lines, col, k)
  {
    if k > 0 {
      ColumnDigitsValue(lines, col, k - 1);
      var line := lines[k - 1];
      var d := ColumnDigits(lines, col, k - 1);
      if col < |line| && IsDigit(line[col]) {
        var e := d + [line[col]];
        assert e[..|e| - 1] == d;
      } else {
        assert ColumnDigits(lines, col, k) == d;
      }
    }
  }

  /** `DigitCount` counts the digits read. */
  lemma {:induction false} ColumnDigitsCount(lines: seq<string>, col: nat, k: nat)
    requires k <= |lines|
    ensures |ColumnDigits(lines, col, k)| == DigitCount(lines, col, k)
  {
    if k > 0 {
      ColumnDigitsCount(lines, col, k - 1);
    }
  }

  /** Parsing the digits a column holds, as `parse::<u64>` does, gives `VerticalNumber`. */
  lemma ParseColumnDigits(lines: seq<string>, col: nat)
    requires |lines| >= 1 && |ColumnDigits(lines, col, |lines| - 1)| != 0
    ensures ParseU64(ColumnDigits(lines, col, |lines| - 1)) == VerticalNumber(lines, col)
  {
    var d := ColumnDigits(lines, col, |lines| - 1);
    ColumnDigitsValue(lines, col, |lines| - 1);
    ColumnDigitsCount(lines, col, |lines| - 1);
    assert StripPlus(d) == d;
  }

  /** The numbers of columns [start, end), left to right. */
  function VerticalNumbers(lines: seq<string>, start: nat, end: nat): seq<nat>
    requires |lines| >= 1
    decreases end
  {
    if end <= start then []
    else VerticalNumbers(lines, start, end - 1) + Parsed(VerticalNumber(lines, end - 1))
  }

  /** The result of the problem in columns [start, end), read column by column. */
  function RtlValue(lines: seq<string>, start: nat, end: nat): nat
    requires |lines| >= 1
  {
    CalculateResult(VerticalNumbers(lines, start, end), FirstOperator(lines[|lines| - 1], start, end))
  }

  /** The digits of one column, read top to bottom over the operand rows. */
  method ReadColumn(lines: seq<string>, col: nat) returns (numberStr: string)
    requires |lines| >= 1
    ensures numberStr == ColumnDigits(lines, col, |lines| - 1)
  {
    numberStr := [];
    var r := 0;
    while r < |lines| - 1
      invariant r <= |lines| - 1
      invariant numberStr == ColumnDigits(lines, col, r)
    {
      var line := lines[r];
      if col < |line| && IsDigit(line[col]) {
        numberStr := numberStr + [line[col]];
      }
      r := r + 1;
    }
  }

  /**
   * `parse_and_calculate_problem_rtl`: the problem in columns
   * `problemStart` through `problemEnd`, every column one number.
   */
  method ParseAndCalculateProblemRtl(lines: seq<string>, problemStart: nat, problemEnd: nat) returns (result: nat)
    requires |lines| >= 1
    ensures result == RtlValue(lines, problemStart, problemEnd + 1)
  {
    var allNumbers := ReadNumbers(lines, problemStart, problemEnd);
    var operation := ExtractOperation(lines, problemStart, problemEnd);
    result := CalculateResult(allNumbers, operation);
  }

  /** The loop of `parse_and_calculate_problem_rtl`: one number per column that spells one. */
  method ReadNumbers(lines: seq<string>, problemStart: nat, problemEnd: nat) returns (allNumbers: seq<nat>)
    requires |lines| >= 1
    ensures allNumbers == VerticalNumbers(lines, problemStart, problemEnd + 1)
  {
    allNumbers := [];
    var col := problemStart;
    while col <= problemEnd
      invariant problemStart <= col
      invariant col <= problemEnd + 1 || col == problemStart
      invariant allNumbers == VerticalNumbers(lines, problemStart, col)
      decreases problemEnd + 1 - col
    {
      ghost var before := allNumbers;
      allNumbers := ReadColumnNumber(lines, col, allNumbers);
      VerticalNumbersNext(lines, problemStart, col, before, allNumbers);
      col := col + 1;
    }
    VerticalNumbersEmpty(lines, problemStart, col, problemEnd + 1);
  }

  /** One more column read. */
  lemma VerticalNumbersNext(lines: seq<string>, start: nat, col: nat, before: seq<nat>, after: seq<nat>)
    requires |lines| >= 1 && start <= col
    requires before == VerticalNumbers(lines, start, col)
    requires after == before + Parsed(VerticalNumber(lines, col))
    ensures after == VerticalNumbers(lines, start, col + 1)
  {
  }

  /** A range that ends at or before it starts holds no numbers. */
  lemma VerticalNumbersEmpty(lines: seq<string>, start: nat, col: nat, end: nat)
    requires |lines| >= 1 && start <= col && (col == end || (col == start && end <= start))
    ensures VerticalNumbers(lines, start, col) == VerticalNumbers(lines, start, end)
  {
  }

  /**
   * One step of the loop of `parse_and_calculate_problem_rtl`: the column's
   * digits, and their number pushed when there are digits and they fit a `u64`.
   */
  method ReadColumnNumber(lines: seq<string>, col: nat, numbers: seq<nat>) returns (after: seq<nat>)
    requires |lines| >= 1
    ensures after == numbers + Parsed(VerticalNumber(lines, col))
  {
    var numberStr := ReadColumn(lines, col);
    ColumnDigitsCount(lines, col, |lines| - 1);
    after := numbers;
    if |numberStr| != 0 {
      ParseColumnDigits(lines, col);
      var parsed := ParseU64(numberStr);
      if parsed.Some? {
        after := after + [parsed.value];
      }
    }
  }

  /** Reading a problem's columns in either direction gives the same result. */
  lemma RtlValueReversed(lines: seq<string>, start: nat, end: nat, reversed: seq<nat>)
    requires |lines| >= 1
    requires |reversed| == |VerticalNumbers(lines, start, end)|
    requires forall i :: 0 <= i < |reversed| ==>
               reversed[i] == VerticalNumbers(lines, start, end)[|reversed| - 1 - i]
    ensures RtlValue(lines, start, end) == CalculateResult(reversed, FirstOperator(lines[|lines| - 1], start, end))
  {
    var xs := VerticalNumbers(lines, start, end);
    ReverseSameMultiset(xs, reversed);
    CalculateResultPermutation(xs, reversed, FirstOperator(lines[|lines| - 1], start, end));
  }

  lemma {:induction false} ReverseSameMultiset(xs: seq<nat>, ys: seq<nat>)
    requires |ys| == |xs|
    requires forall i :: 0 <= i < |ys| ==> ys[i] == xs[|ys| - 1 - i]
    ensures multiset(xs) == multiset(ys)
  {
    if xs != [] {
      var n := |xs|;
      ReverseSameMultiset(xs[1..], ys[..n - 1]);
      assert xs == [xs[0]] + xs[1..];
      assert ys == ys[..n - 1] + [ys[n - 1]];
    }
  }

  // ---------------------------------------------------------------------
  // The whole worksheet
  // ---------------------------------------------------------------------

  /** Part 1 reads problems row by row, part 2 column by column. */
  datatype Reading = LeftToRight | RightToLeft

  function ProblemValue(lines: seq<string>, reading: Reading, start: nat, end: nat): nat
    requires |lines| >= 1 && start <= end
  {
    match reading
    case LeftToRight => ColumnValue(lines, start, end)
    case RightToLeft => RtlValue(lines, start, end)
  }

  /** The value of each problem under a reading, as a function of its column span. */
  function Valuer(lines: seq<string>, reading: Reading): (value: (nat, nat) -> nat)
    ensures forall s: nat, e: nat :: |lines| >= 1 && s <= e ==> value(s, e) == ProblemValue(lines, reading, s, e)
  {
    (s: nat, e: nat) => if |lines| >= 1 && s <= e then ProblemValue(lines, reading, s, e) else 0
  }

  /** The values of the problems starting in columns [c, w). */
  function TotalFrom(lines: seq<string>, value: (nat, nat) -> nat, c: nat, w: nat): nat
    requires c <= w
    decreases w - c
  {
    if c == w then 0
    else
      (if IsProblemStart(lines, c) then value(c, NextSeparator(lines, c + 1, w)) else 0)
      + TotalFrom(lines, value, c + 1, w)
  }

  /** The sum of the results of all problems on the worksheet. */
  function GrandTotal(lines: seq<string>, reading: Reading): nat {
    if |lines| == 0 then 0 else TotalFrom(lines, Valuer(lines, reading), 0, MaxWidth(lines))
  }

  /** Columns inside a problem after its first start nothing. */
  lemma {:induction false} InsideProblem(lines: seq<string>, value: (nat, nat) -> nat, a: nat, b: nat, w: nat)
    requires 1 <= a <= b <= w
    requires forall k :: a - 1 <= k < b ==> !IsSeparatorColumn(lines, k)
    ensures TotalFrom(lines, value, a, w) == TotalFrom(lines, value, b, w)
    decreases b - a
  {
    if a < b {
      assert !IsProblemStart(lines, a);
      InsideProblem(lines, value, a + 1, b, w);
    }
  }

  /** A problem contributes its value and hands over to the column where it ends. */
  lemma ProblemAt(lines: seq<string>, value: (nat, nat) -> nat, s: nat, w: nat)
    requires s < w && IsProblemStart(lines, s)
    ensures var e := NextSeparator(lines, s + 1, w);
      TotalFrom(lines, value, s, w) == value(s, e) + TotalFrom(lines, value, e, w)
  {
    InsideProblem(lines, value, s + 1, NextSeparator(lines, s + 1, w), w);
  }

  /** `Day06::part1`: problems found left to right, each read row by row. */
  method Part1(lines: seq<string>) returns (grandTotal: nat)
    ensures grandTotal == GrandTotal(lines, LeftToRight)
  {
    if |lines| == 0 {
      return 0;
    }
    var maxWidth := MaxWidth(lines);
    ghost var value := Valuer(lines, LeftToRight);
    grandTotal := 0;
    var col: nat := 0;
    while col < maxWidth
      invariant col <= maxWidth
      invariant col < maxWidth && !IsSeparatorColumn(lines, col) ==> IsProblemStart(lines, col)
      invariant grandTotal + TotalFrom(lines, value, col, maxWidth) == TotalFrom(lines, value, 0, maxWidth)
      decreases maxWidth - col
    {
      if IsSeparatorColumn(lines, col) {
        col := col + 1;
        continue;
      }
      var colEnd := FindColumnEnd(lines, col, maxWidth);
      var result := ParseAndCalculateColumn(lines, col, colEnd);
      ProblemAt(lines, value, col, maxWidth);
      grandTotal := grandTotal + result;
      col := colEnd;
    }
  }

  /** `Day06::part2`: problems found right to left, each read column by column. */
  method Part2(lines: seq<string>) returns (grandTotal: nat)
    ensures grandTotal == GrandTotal(lines, RightToLeft)
  {
    if |lines| == 0 {
      return 0;
    }
    var maxWidth := MaxWidth(lines);
    if maxWidth == 0 {
      return 0;
    }
    ghost var value := Valuer(lines, RightToLeft);
    grandTotal := 0;
    var col: nat := maxWidth - 1;
    while true
      invariant col < maxWidth
      invariant col + 1 == maxWidth || IsSeparatorColumn(lines, col + 1) || IsSeparatorColumn(lines, col)
      invariant grandTotal == TotalFrom(lines, value, col + 1, maxWidth)
      decreases col
    {
      while IsSeparatorColumn(lines, col)
        invariant col < maxWidth
        invariant col + 1 == maxWidth || IsSeparatorColumn(lines, col + 1) || IsSeparatorColumn(lines, col)
        invariant grandTotal == TotalFrom(lines, value, col + 1, maxWidth)
        decreases col
      {
        if col == 0 {
          return grandTotal;
        }
        col := col - 1;
      }
      var problemEnd := col;
      var problemStart := ProblemStartBefore(lines, problemEnd);
      var result := ParseAndCalculateProblemRtl(lines, problemStart, problemEnd);
      ProblemFound(lines, value, problemStart, problemEnd, maxWidth);
      grandTotal := grandTotal + result;
      if problemStart == 0 {
        break;
      }
      col := problemStart - 1;
    }
  }

  /** Part 2's leftward scan from a problem's last column to its first. */
  method ProblemStartBefore(lines: seq<string>, problemEnd: nat) returns (problemStart: nat)
    requires !IsSeparatorColumn(lines, problemEnd)
    ensures problemStart <= problemEnd
    ensures problemStart == 0 || IsSeparatorColumn(lines, problemStart - 1)
    ensures forall k :: problemStart <= k <= problemEnd ==> !IsSeparatorColumn(lines, k)
  {
    var col: nat := problemEnd;
    while col > 0 && !IsSeparatorColumn(lines, col)
      invariant col <= problemEnd
      invariant forall k :: col < k <= problemEnd ==> !IsSeparatorColumn(lines, k)
      decreases col
    {
      col := col - 1;
    }
    problemStart := if IsSeparatorColumn(lines, col) then col + 1 else col;
  }

  /** The problem part 2 finds adds its result to the total from its first column on. */
  lemma ProblemFound(lines: seq<string>, value: (nat, nat) -> nat, s: nat, e: nat, w: nat)
    requires s <= e < w
    requires s == 0 || IsSeparatorColumn(lines, s - 1)
    requires forall k :: s <= k <= e ==> !IsSeparatorColumn(lines, k)
    requires e + 1 == w || IsSeparatorColumn(lines, e + 1)
    ensures TotalFrom(lines, value, s, w) == value(s, e + 1) + TotalFrom(lines, value, e + 1, w)
  {
    NextSeparatorIs(lines, s + 1, w, e + 1);
    ProblemAt(lines, value, s, w);
  }
}
