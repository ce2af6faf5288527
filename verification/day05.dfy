/**
 * Day 5: fresh ingredient ranges.  The input lists inclusive ID ranges,
 * a blank line, then ingredient IDs.  Part 1 counts the IDs that fall in
 * some range; part 2 counts every ID some range covers, by sorting and
 * merging the ranges so that no ID is counted twice.
 */
module Day05 {
  import opened Common

  /** An inclusive range of ingredient IDs, `start-end` in the input. */
  datatype Range = Range(start: nat, end: nat)

  /** The parsed input: the ranges, then the IDs to check. */
  datatype Input = Input(ranges: seq<Range>, ids: seq<nat>)

  /** Where `parse_input` panics. */
  datatype ParseError = NoBlankLine | BadRange(line: string) | BadId(line: string)

  // ---------------------------------------------------------------------
  // What a list of ranges covers
  // ---------------------------------------------------------------------

  /** The range covers the ID. */
  predicate Covers(r: Range, x: nat) {
    r.start <= x <= r.end
  }

  /** The IDs a range covers; empty when `end < start`. */
  ghost function Ids(r: Range): set<nat> {
    set x: nat | x <= r.end && Covers(r, x)
  }

  /** A range covers exactly the IDs from its start to its end. */
  lemma IdsMembers(r: Range, x: nat)
    ensures x in Ids(r) <==> r.start <= x <= r.end
  {
  }

  /** The IDs some range of the list covers. */
  ghost function Union(ranges: seq<Range>): set<nat> {
    if ranges == [] then {} else Union(ranges[..|ranges| - 1]) + Ids(ranges[|ranges| - 1])
  }

  /** Every range has its start at or below its end. */
  predicate WellFormed(ranges: seq<Range>) {
    forall k :: 0 <= k < |ranges| ==> ranges[k].start <= ranges[k].end
  }

  predicate SortedByStart(ranges: seq<Range>) {
    forall k :: 0 <= k < |ranges| - 1 ==> ranges[k].start <= ranges[k + 1].start
  }

  /** Consecutive ranges neither overlap nor touch. */
  predicate Separated(ranges: seq<Range>) {
    forall k :: 0 <= k < |ranges| - 1 ==> ranges[k].end + 1 < ranges[k + 1].start
  }

  lemma UnionSnoc(ranges: seq<Range>, r: Range)
    ensures Union(ranges + [r]) == Union(ranges) + Ids(r)
  {
    assert (ranges + [r])[..|ranges|] == ranges;
  }

  /** An ID is in the union exactly when one of the ranges covers it. */
  lemma {:induction false} UnionMembers(ranges: seq<Range>, x: nat)
    ensures x in Union(ranges) <==> exists k :: 0 <= k < |ranges| && ranges[k].start <= x <= ranges[k].end
  {
    if ranges != [] {
      var n := |ranges| - 1;
      UnionMembers(ranges[..n], x);
      IdsMembers(ranges[n], x);
      if x in Union(ranges[..n]) {
        var k :| 0 <= k < n && ranges[..n][k].start <= x <= ranges[..n][k].end;
        assert ranges[k] == ranges[..n][k];
      }
      if exists k :: 0 <= k < |ranges| && ranges[k].start <= x <= ranges[k].end {
        var k :| 0 <= k < |ranges| && ranges[k].start <= x <= ranges[k].end;
        if k < n {
          assert ranges[..n][k] == ranges[k];
        }
      }
    }
  }

  /** Reordering the ranges does not change what they cover. */
  lemma UnionPermutation(a: seq<Range>, b: seq<Range>)
    requires multiset(a) == multiset(b)
    ensures Union(a) == Union(b)
  {
    forall x: nat
      ensures x in Union(a) <==> x in Union(b)
    {
      UnionMembers(a, x);
      UnionMembers(b, x);
      if exists k :: 0 <= k < |a| && a[k].start <= x <= a[k].end {
        var k :| 0 <= k < |a| && a[k].start <= x <= a[k].end;
        assert a[k] in multiset(b);
        var j :| 0 <= j < |b| && b[j] == a[k];
      }
      if exists k :: 0 <= k < |b| && b[k].start <= x <= b[k].end {
        var k :| 0 <= k < |b| && b[k].start <= x <= b[k].end;
        assert b[k] in multiset(a);
        var j :| 0 <= j < |a| && a[j] == b[k];
      }
    }
  }

  /** An inclusive range of `end - start + 1` IDs. */
  lemma {:induction false} IdsSize(r: Range)
    requires r.start <= r.end
    ensures |Ids(r)| == r.end - r.start + 1
    decreases r.end - r.start
  {
    if r.start < r.end {
      var shorter := Range(r.start, r.end - 1);
      IdsSize(shorter);
      assert Ids(r) == Ids(shorter) + {r.end};
    } else {
      assert Ids(r) == {r.start};
    }
  }

  // ---------------------------------------------------------------------
  // Part 1: checking IDs one by one
  // ---------------------------------------------------------------------

  /** `is_fresh`: some range covers the ID. */
  function IsFresh(id: nat, ranges: seq<Range>): (b: bool)
    ensures b <==> exists k :: 0 <= k < |ranges| && ranges[k].start <= id <= ranges[k].end
  {
    if ranges == [] then false
    else
      CoveredTail(id, ranges);
      (ranges[0].start <= id <= ranges[0].end) || IsFresh(id, ranges[1..])
  }

  /** A range past the first covers the ID exactly when some range of the tail does. */
  lemma CoveredTail(id: nat, ranges: seq<Range>)
    requires ranges != []
    ensures (exists k :: 0 <= k < |ranges| && ranges[k].start <= id <= ranges[k].end) <==>
            (ranges[0].start <= id <= ranges[0].end) ||
            (exists k :: 0 <= k < |ranges[1..]| && ranges[1..][k].start <= id <= ranges[1..][k].end)
  {
    if exists k :: 0 <= k < |ranges| && ranges[k].start <= id <= ranges[k].end {
      var k :| 0 <= k < |ranges| && ranges[k].start <= id <= ranges[k].end;
      if k > 0 {
        assert ranges[1..][k - 1] == ranges[k];
      }
    }
  }

  /** The number of IDs some range covers, counting repeated IDs each time. */
  function FreshCount(ids: seq<nat>, ranges: seq<Range>): (n: nat)
    ensures n <= |ids|
  {
    if ids == [] then 0
    else FreshCount(ids[..|ids| - 1], ranges) + (if IsFresh(ids[|ids| - 1], ranges) then 1 else 0)
  }

  /** The positions in the ID list whose ID is covered. */
  ghost function FreshPositions(ids: seq<nat>, ranges: seq<Range>): set<nat> {
    set k: nat | k < |ids| && ids[k] in Union(ranges)
  }

  /** Part 1 counts exactly the positions whose ID lies in the union of the ranges. */
  lemma {:induction false} FreshCountPositions(ids: seq<nat>, ranges: seq<Range>)
    ensures FreshCount(ids, ranges) == |FreshPositions(ids, ranges)|
  {
    if ids != [] {
      var n := |ids| - 1;
      FreshCountPositions(ids[..n], ranges);
      UnionMembers(ranges, ids[n]);
      var before := FreshPositions(ids[..n], ranges);
      if ids[n] in Union(ranges) {
        assert FreshPositions(ids, ranges) == before + {n};
      } else {
        assert FreshPositions(ids, ranges) == before;
      }
    }
  }

  // ---------------------------------------------------------------------
  // Sorting by start
  // ---------------------------------------------------------------------

  /** `r` placed after the last range of `sorted` whose start is not above its own. */
  function Insert(sorted: seq<Range>, r: Range): (s: seq<Range>)
    ensures |s| == |sorted| + 1 && multiset(s) == multiset(sorted) + multiset{r}
    ensures s[|s| - 1] == r || (sorted != [] && s[|s| - 1] == sorted[|sorted| - 1])
    ensures SortedByStart(sorted) ==> SortedByStart(s)
  {
    if sorted == [] || sorted[|sorted| - 1].start <= r.start then sorted + [r]
    else
      var n := |sorted| - 1;
      assert sorted == sorted[..n] + [sorted[n]];
      Insert(sorted[..n], r) + [sorted[n]]
  }

  /** Rust's stable `sort_by_key` on the start, as an insertion sort. */
  function SortByStart(ranges: seq<Range>): (s: seq<Range>)
    ensures |s| == |ranges| && SortedByStart(s) && multiset(s) == multiset(ranges)
  {
    if ranges == [] then []
    else
      var n := |ranges| - 1;
      assert ranges == ranges[..n] + [ranges[n]];
      Insert(SortByStart(ranges[..n]), ranges[n])
  }

  // ---------------------------------------------------------------------
  // Merging
  // ---------------------------------------------------------------------

  /** A range starting at most one past the end of `last` extends it without a gap. */
  lemma ExtendIds(last: Range, r: Range)
    requires last.start <= r.start <= last.end + 1
    ensures Ids(Range(last.start, Max(last.end, r.end))) == Ids(last) + Ids(r)
  {
    var wider := Range(last.start, Max(last.end, r.end));
    forall x: nat
      ensures x in Ids(wider) <==> x in Ids(last) || x in Ids(r)
    {
      IdsMembers(wider, x);
      IdsMembers(last, x);
      IdsMembers(r, x);
    }
  }

  /** Replacing the last range by one covering it and `r` covers what the list and `r` cover. */
  lemma ReplaceLast(merged: seq<Range>, r: Range, wider: Range)
    requires merged != [] && Ids(wider) == Ids(merged[|merged| - 1]) + Ids(r)
    ensures Union(merged[|merged| - 1 := wider]) == Union(merged) + Ids(r)
  {
    var n := |merged| - 1;
    assert merged[n := wider][..n] == merged[..n];
  }

  /** Widening the last range keeps the list sorted, separated and well formed. */
  lemma ExtendKeepsOrder(merged: seq<Range>, wider: Range)
    requires merged != [] && SortedByStart(merged) && Separated(merged)
    requires wider.start == merged[|merged| - 1].start && wider.end >= merged[|merged| - 1].end
    ensures SortedByStart(merged[|merged| - 1 := wider]) && Separated(merged[|merged| - 1 := wider])
    ensures WellFormed(merged) ==> WellFormed(merged[|merged| - 1 := wider])
  {
  }

  /** A range starting more than one past the last end extends the list in order. */
  lemma AppendKeepsOrder(merged: seq<Range>, r: Range)
    requires merged != [] && SortedByStart(merged) && Separated(merged)
    requires merged[|merged| - 1].start <= r.start && merged[|merged| - 1].end + 1 < r.start
    ensures SortedByStart(merged + [r]) && Separated(merged + [r])
    ensures WellFormed(merged) && r.start <= r.end ==> WellFormed(merged + [r])
  {
  }

  /** Reordering keeps every range's bounds in order. */
  lemma WellFormedPermutation(a: seq<Range>, b: seq<Range>)
    requires multiset(a) == multiset(b) && WellFormed(b)
    ensures WellFormed(a)
  {
    forall k | 0 <= k < |a|
      ensures a[k].start <= a[k].end
    {
      assert a[k] in multiset(b);
    }
  }

  /**
   * `merge_ranges`: the ranges sorted by start, then each either folded
   * into the last merged range (when it starts at most one past its end)
   * or appended.
   */
  method MergeRanges(ranges: seq<Range>) returns (merged: seq<Range>)
    ensures |merged| <= |ranges| && (merged == [] <==> ranges == [])
    ensures SortedByStart(merged) && Separated(merged)
    ensures Union(merged) == Union(ranges)
    ensures WellFormed(ranges) ==> WellFormed(merged)
  {
    if ranges == [] {
      return [];
    }
    var sorted := SortByStart(ranges);
    UnionPermutation(sorted, ranges);
    if WellFormed(ranges) {
      WellFormedPermutation(sorted, ranges);
    }
    merged := MergeSorted(sorted);
  }

  /** The loop of `merge_ranges` over the sorted ranges. */
  method MergeSorted(sorted: seq<Range>) returns (merged: seq<Range>)
    requires sorted != [] && SortedByStart(sorted)
    ensures 1 <= |merged| <= |sorted|
    ensures SortedByStart(merged) && Separated(merged)
    ensures Union(merged) == Union(sorted)
    ensures WellFormed(sorted) ==> WellFormed(merged)
  {
    ghost var wellFormed := WellFormed(sorted);
    merged := [sorted[0]];
    assert sorted[..1] == [sorted[0]];
    UnionSnoc([], sorted[0]);
    for k := 1 to |sorted|
      invariant 1 <= |merged| <= k
      invariant SortedByStart(merged) && Separated(merged)
      invariant merged[|merged| - 1].start <= sorted[k - 1].start
      invariant Union(merged) == Union(sorted[..k])
      invariant wellFormed ==> WellFormed(merged)
    {
      TakeNext(sorted, k);
      UnionSnoc(sorted[..k], sorted[k]);
      merged := MergeOne(merged, sorted[k]);
    }
    assert sorted[..|sorted|] == sorted;
  }

  /** One step of `merge_ranges`: fold `r` into the last merged range or append it. */
  method MergeOne(merged: seq<Range>, r: Range) returns (next: seq<Range>)
    requires merged != [] && SortedByStart(merged) && Separated(merged)
    requires merged[|merged| - 1].start <= r.start
    ensures 1 <= |next| <= |merged| + 1
    ensures SortedByStart(next) && Separated(next)
    ensures next[|next| - 1].start <= r.start
    ensures Union(next) == Union(merged) + Ids(r)
    ensures WellFormed(merged) && r.start <= r.end ==> WellFormed(next)
  {
    var last := merged[|merged| - 1];
    if r.start <= last.end + 1 {
      var wider := Range(last.start, Max(last.end, r.end));
      ExtendIds(last, r);
      ReplaceLast(merged, r, wider);
      ExtendKeepsOrder(merged, wider);
      next := merged[|merged| - 1 := wider];
    } else {
      UnionSnoc(merged, r);
      AppendKeepsOrder(merged, r);
      next := merged + [r];
    }
  }

  // ---------------------------------------------------------------------
  // Part 2: the size of the union
  // ---------------------------------------------------------------------

  /** The sizes `end - start + 1` added up. */
  function SizeSum(ranges: seq<Range>): int {
    if ranges == [] then 0
    else SizeSum(ranges[..|ranges| - 1]) + (ranges[|ranges| - 1].end - ranges[|ranges| - 1].start + 1)
  }

  /** Every ID a separated, well-formed list covers is at most the end of its last range. */
  lemma {:induction false} UnionBelowLast(ranges: seq<Range>)
    requires ranges != [] && WellFormed(ranges) && Separated(ranges)
    ensures forall x :: x in Union(ranges) ==> x <= ranges[|ranges| - 1].end
  {
    var n := |ranges| - 1;
    if n > 0 {
      UnionBelowLast(ranges[..n]);
      assert ranges[..n][n - 1] == ranges[n - 1];
    }
    assert Union(ranges) == Union(ranges[..n]) + Ids(ranges[n]);
    forall x | x in Union(ranges)
      ensures x <= ranges[n].end
    {
      IdsMembers(ranges[n], x);
      if x in Union(ranges[..n]) {
        assert x <= ranges[n - 1].end;
      }
    }
  }

  /** On separated, well-formed ranges the sizes add up to the size of the union. */
  lemma {:induction false} SeparatedUnionSize(ranges: seq<Range>)
    requires WellFormed(ranges) && Separated(ranges)
    ensures SizeSum(ranges) == |Union(ranges)|
  {
    if ranges != [] {
      var n := |ranges| - 1;
      var front, last := ranges[..n], ranges[n];
      SeparatedUnionSize(front);
      IdsSize(last);
      if n > 0 {
        UnionBelowLast(front);
        forall x | x in Union(front)
          ensures x !in Ids(last)
        {
          IdsMembers(last, x);
        }
        assert Union(front) * Ids(last) == {};
      } else {
        assert Union(front) == {};
      }
    }
  }

  /** `count_ids_in_ranges`: merge, then add up `end - start + 1` over the merged ranges. */
  method CountIdsInRanges(ranges: seq<Range>) returns (count: nat)
    requires WellFormed(ranges)
    ensures count == |Union(ranges)|
  {
    var merged := MergeRanges(ranges);
    count := 0;
    for k := 0 to |merged|
      invariant count == SizeSum(merged[..k])
    {
      TakeNext(merged, k);
      count := count + (merged[k].end - merged[k].start + 1);
    }
    assert merged[..|merged|] == merged;
    SeparatedUnionSize(merged);
  }

  // ---------------------------------------------------------------------
  // Parsing
  // ---------------------------------------------------------------------

  /**
   * The first empty line after the first line.  An empty line at index
   * `i >= 1` closes the text `"\n\n"` that `parse_input` splits on; an
   * empty first line is not preceded by a newline.
   */
  function SectionBreak(lines: seq<string>, from: nat): (i: Option<nat>)
    requires 1 <= from
    ensures i.Some? ==> from <= i.value < |lines| && lines[i.value] == "" && forall j :: from <= j < i.value ==> lines[j] != ""
    ensures i.None? ==> forall j :: from <= j < |lines| ==> lines[j] != ""
    decreases |lines| - from
  {
    if from >= |lines| then None
    else if lines[from] == "" then Some(from)
    else SectionBreak(lines, from + 1)
  }

  /** A line `a-b`: every `-`-separated piece must parse as u64, and there must be two or more. */
  function ParseRangeLine(line: string): (r: Result<Range, ParseError>)
    ensures r.Ok? ==> r.value.start <= U64_MAX && r.value.end <= U64_MAX
  {
    var pieces := Split(line, '-');
    if |pieces| >= 2 && forall k :: 0 <= k < |pieces| ==> ParseU64(pieces[k]).Some? then
      Ok(Range(ParseU64(pieces[0]).value, ParseU64(pieces[1]).value))
    else Err(BadRange(line))
  }

  /** Each line parsed as a range; the first that does not parse is the error. */
  function ParseRanges(lines: seq<string>): (r: Result<seq<Range>, ParseError>)
    ensures r.Ok? ==> |r.value| == |lines|
  {
    if lines == [] then Ok([])
    else
      match ParseRangeLine(lines[0])
      case Err(e) => Err(e)
      case Ok(first) =>
        match ParseRanges(lines[1..])
        case Err(e) => Err(e)
        case Ok(rest) => Ok([first] + rest)
  }

  /** The non-empty lines parsed as u64; the first that does not parse is the error. */
  function ParseIds(lines: seq<string>): (r: Result<seq<nat>, ParseError>)
    ensures r.Ok? ==> |r.value| <= |lines|
  {
    if lines == [] then Ok([])
    else
      var rest := ParseIds(lines[1..]);
      if lines[0] == "" then rest
      else
        match ParseU64(lines[0])
        case None => Err(BadId(lines[0]))
        case Some(id) =>
          match rest
          case Err(e) => Err(e)
          case Ok(ids) => Ok([id] + ids)
  }

  /**
   * `parse_input` over the input's lines.  The ranges are the lines before
   * the break (none when the input starts with two newlines); the IDs are
   * the non-empty lines after it, up to the next `"\n\n"`, which is the
   * next empty line that is not the first line after the break.  Without
   * a break there is no second section and `parse_input` panics.
   */
  function ParseInput(lines: seq<string>): (r: Result<Input, ParseError>)
    ensures r.Ok? ==> exists i :: 1 <= i < |lines| && lines[i] == ""
  {
    match SectionBreak(lines, 1)
    case None => Err(NoBlankLine)
    case Some(i) =>
      var first := if i == 1 && lines[0] == "" then [] else lines[..i];
      var end := match SectionBreak(lines, i + 2) case Some(j) => j case None => |lines|;
      var second := if i + 1 <= end then lines[i + 1..end] else [];
      match (ParseRanges(first), ParseIds(second))
      case (Ok(ranges), Ok(ids)) => Ok(Input(ranges, ids))
      case (Err(e), _) => Err(e)
      case (_, Err(e)) => Err(e)
  }

  /** A range as the input writes it. */
  function ShowRange(r: Range): string {
    ToDecimal(r.start) + "-" + ToDecimal(r.end)
  }

  /** The input's lines: the ranges, a blank line, the IDs. */
  function ShowInput(input: Input): (lines: seq<string>)
    ensures |lines| == |input.ranges| + 1 + |input.ids|
  {
    seq(|input.ranges|, k requires 0 <= k < |input.ranges| => ShowRange(input.ranges[k])) + [""] +
    seq(|input.ids|, k requires 0 <= k < |input.ids| => ToDecimal(input.ids[k]))
  }

  predicate FitsU64(input: Input) {
    (forall k :: 0 <= k < |input.ranges| ==> input.ranges[k].start <= U64_MAX && input.ranges[k].end <= U64_MAX) &&
    (forall k :: 0 <= k < |input.ids| ==> input.ids[k] <= U64_MAX)
  }

  lemma ParseShowRange(r: Range)
    requires r.start <= U64_MAX && r.end <= U64_MAX
    ensures ParseRangeLine(ShowRange(r)) == Ok(r)
  {
    var a, b := ToDecimal(r.start), ToDecimal(r.end);
    assert ShowRange(r) == Join([a, b], '-');
    assert '-' !in a && '-' !in b;
    SplitJoin([a, b], '-');
    ParseU64RoundTrip(r.start);
    ParseU64RoundTrip(r.end);
  }

  lemma {:induction false} ParseRangesAll(lines: seq<string>, ranges: seq<Range>)
    requires |lines| == |ranges|
    requires forall k :: 0 <= k < |lines| ==> ParseRangeLine(lines[k]) == Ok(ranges[k])
    ensures ParseRanges(lines) == Ok(ranges)
  {
    if lines != [] {
      ParseRangesAll(lines[1..], ranges[1..]);
      assert [ranges[0]] + ranges[1..] == ranges;
    }
  }

  lemma {:induction false} ParseIdsAll(lines: seq<string>, ids: seq<nat>)
    requires |lines| == |ids|
    requires forall k :: 0 <= k < |lines| ==> lines[k] != "" && ParseU64(lines[k]) == Some(ids[k])
    ensures ParseIds(lines) == Ok(ids)
  {
    if lines != [] {
      ParseIdsAll(lines[1..], ids[1..]);
      assert [ids[0]] + ids[1..] == ids;
    }
  }

  /** Writing out u64 ranges and IDs and parsing them back gives the same input. */
  lemma ParseShowInput(input: Input)
    requires input.ranges != [] && FitsU64(input)
    ensures ParseInput(ShowInput(input)) == Ok(input)
  {
    var lines := ShowInput(input);
    var n := |input.ranges|;
    ShownBlankLine(input);
    assert lines[n] == "";
    assert SectionBreak(lines, 1) == Some(n);
    assert SectionBreak(lines, n + 2) == None;
    assert lines[n + 1..|lines|] == lines[n + 1..];
    ShownRangesParse(input);
    ShownIdsParse(input);
  }

  /** The only empty line of a written-out input is the one between the sections. */
  lemma ShownBlankLine(input: Input)
    ensures forall k :: 0 <= k < |ShowInput(input)| ==> (ShowInput(input)[k] == "" <==> k == |input.ranges|)
  {
    var lines, n := ShowInput(input), |input.ranges|;
    forall k | 0 <= k < |lines|
      ensures lines[k] == "" <==> k == n
    {
      if k < n {
        assert lines[k] == ShowRange(input.ranges[k]);
      } else if k > n {
        assert lines[k] == ToDecimal(input.ids[k - n - 1]);
      }
    }
  }

  lemma ShownRangesParse(input: Input)
    requires FitsU64(input)
    ensures ParseRanges(ShowInput(input)[..|input.ranges|]) == Ok(input.ranges)
  {
    var lines, n := ShowInput(input), |input.ranges|;
    forall k | 0 <= k < n
      ensures ParseRangeLine(lines[..n][k]) == Ok(input.ranges[k])
    {
      assert lines[..n][k] == ShowRange(input.ranges[k]);
      ParseShowRange(input.ranges[k]);
    }
    ParseRangesAll(lines[..n], input.ranges);
  }

  lemma ShownIdsParse(input: Input)
    requires FitsU64(input)
    ensures ParseIds(ShowInput(input)[|input.ranges| + 1..]) == Ok(input.ids)
  {
    var lines, n := ShowInput(input), |input.ranges|;
    forall k | 0 <= k < |input.ids|
      ensures lines[n + 1..][k] != "" && ParseU64(lines[n + 1..][k]) == Some(input.ids[k])
    {
      assert lines[n + 1..][k] == ToDecimal(input.ids[k]);
      ParseU64RoundTrip(input.ids[k]);
    }
    ParseIdsAll(lines[n + 1..], input.ids);
  }

  // ---------------------------------------------------------------------
  // The solver
  // ---------------------------------------------------------------------

  /** `Day05::part1`: how many listed IDs some range covers. */
  function Part1(lines: seq<string>): (r: Result<nat, ParseError>)
    ensures r.Ok? <==> ParseInput(lines).Ok?
    ensures r.Ok? ==> r.value == FreshCount(ParseInput(lines).value.ids, ParseInput(lines).value.ranges)
  {
    match ParseInput(lines)
    case Err(e) => Err(e)
    case Ok(input) => Ok(FreshCount(input.ids, input.ranges))
  }

  /** `Day05::part2`: how many IDs the ranges cover together. */
  method Part2(lines: seq<string>) returns (r: Result<nat, ParseError>)
    requires ParseInput(lines).Ok? ==> WellFormed(ParseInput(lines).value.ranges)
    ensures r.Ok? <==> ParseInput(lines).Ok?
    ensures r.Ok? ==> r.value == |Union(ParseInput(lines).value.ranges)|
  {
    match ParseInput(lines)
    case Err(e) =>
      r := Err(e);
    case Ok(input) =>
      var count := CountIdsInRanges(input.ranges);
      r := Ok(count);
  }

  // ---------------------------------------------------------------------
  // The example from the puzzle text
  // ---------------------------------------------------------------------

  function ExampleInput(): Input {
    Input([Range(3, 5), Range(10, 14), Range(16, 20), Range(12, 18)], [1, 5, 8, 11, 17, 32])
  }

  function ExampleLines(): seq<string> {
    ["3-5", "10-14", "16-20", "12-18", "", "1", "5", "8", "11", "17", "32"]
  }

  /** The decimal form of a two-digit number. */
  lemma TwoDigits(n: nat)
    requires 10 <= n < 100
    ensures ToDecimal(n) == [DigitChar(n / 10), DigitChar(n % 10)]
  {
  }

  lemma ExampleShown()
    ensures ShowInput(ExampleInput()) == ExampleLines()
  {
    var shown, lines := ShowInput(ExampleInput()), ExampleLines();
    TwoDigits(10); TwoDigits(11); TwoDigits(12); TwoDigits(14); TwoDigits(16);
    TwoDigits(17); TwoDigits(18); TwoDigits(20); TwoDigits(32);
    assert shown[0] == lines[0] && shown[1] == lines[1] && shown[2] == lines[2] && shown[3] == lines[3];
    assert shown[4] == lines[4] && shown[5] == lines[5] && shown[6] == lines[6] && shown[7] == lines[7];
    assert shown[8] == lines[8] && shown[9] == lines[9] && shown[10] == lines[10];
  }

  lemma ExampleParses()
    ensures ParseInput(ExampleLines()) == Ok(ExampleInput())
  {
    ParseShowInput(ExampleInput());
    ExampleShown();
  }

  /** Three of the example's IDs are fresh: 5, 11 and 17. */
  lemma ExampleFreshCount(ids: seq<nat>, ranges: seq<Range>)
    requires ids == ExampleInput().ids && ranges == ExampleInput().ranges
    ensures FreshCount(ids, ranges) == 3
  {
    ExampleFreshIds(ranges);
    FreshCountOfSix(ids, ranges);
  }

  /** Part 1's count over six IDs, one ID at a time. */
  lemma FreshCountOfSix(ids: seq<nat>, ranges: seq<Range>)
    requires |ids| == 6
    ensures FreshCount(ids, ranges) ==
            Hit(ids[0], ranges) + Hit(ids[1], ranges) + Hit(ids[2], ranges) +
            Hit(ids[3], ranges) + Hit(ids[4], ranges) + Hit(ids[5], ranges)
  {
    var c0 := FreshCount(ids[..0], ranges);
    var c1 := FreshCountNext(ids, ranges, 0, c0);
    var c2 := FreshCountNext(ids, ranges, 1, c1);
    var c3 := FreshCountNext(ids, ranges, 2, c2);
    var c4 := FreshCountNext(ids, ranges, 3, c3);
    var c5 := FreshCountNext(ids, ranges, 4, c4);
    var c6 := FreshCountNext(ids, ranges, 5, c5);
    assert ids[..0] == [] && ids[..6] == ids;
  }

  /** One for a fresh ID, zero otherwise. */
  function Hit(id: nat, ranges: seq<Range>): nat {
    if IsFresh(id, ranges) then 1 else 0
  }

  /** Which of the example's IDs are fresh. */
  lemma ExampleFreshIds(ranges: seq<Range>)
    requires ranges == ExampleInput().ranges
    ensures !IsFresh(1, ranges) && IsFresh(5, ranges) && !IsFresh(8, ranges)
    ensures IsFresh(11, ranges) && IsFresh(17, ranges) && !IsFresh(32, ranges)
  {
    assert ranges[1..][1..][1..][1..] == [];
  }

  lemma FreshCountNext(ids: seq<nat>, ranges: seq<Range>, k: nat, before: nat) returns (after: nat)
    requires k < |ids| && before == FreshCount(ids[..k], ranges)
    ensures after == FreshCount(ids[..k + 1], ranges) == before + Hit(ids[k], ranges)
  {
    after := FreshCount(ids[..k + 1], ranges);
    assert ids[..k + 1][..k] == ids[..k];
  }

  lemma ExamplePart1()
    ensures Part1(ExampleLines()) == Ok(3)
  {
    ExampleParses();
    ExampleFreshCount(ExampleInput().ids, ExampleInput().ranges);
  }

  /** The example's ranges cover 3-5 and 10-20: fourteen IDs, the part 2 answer. */
  lemma ExampleUnionSize(ranges: seq<Range>)
    requires ranges == ExampleInput().ranges
    ensures |Union(ranges)| == 14
  {
    var a, b, c, d := ranges[0], ranges[1], ranges[2], ranges[3];
    assert ranges == [a, b, c, d];
    ExampleMerged(a, b, c, d);
    var merged := [a, Range(b.start, c.end)];
    SeparatedUnionSize(merged);
    assert SizeSum(merged) == SizeSum([a]) + 11 by {
      assert merged[..1] == [a];
    }
    assert SizeSum([a]) == 3 by {
      assert [a][..0] == [];
    }
  }

  /** The shape of the example's union, for any four ranges like the example's. */
  lemma ExampleMerged(a: Range, b: Range, c: Range, d: Range)
    requires b.start <= d.start <= b.end + 1 && d.start <= c.start <= d.end + 1 && c.end >= d.end >= b.end
    ensures Union([a, b, c, d]) == Union([a, Range(b.start, c.end)])
  {
    UnionOfFour(a, b, c, d);
    UnionOfTwo(a, Range(b.start, c.end));
    ExtendIds(b, d);
    ExtendIds(Range(b.start, d.end), c);
  }

  lemma UnionOfTwo(a: Range, b: Range)
    ensures Union([a, b]) == Ids(a) + Ids(b)
  {
    UnionSnoc([], a);
    assert [a] == [] + [a];
    UnionSnoc([a], b);
    assert [a, b] == [a] + [b];
  }

  lemma UnionOfFour(a: Range, b: Range, c: Range, d: Range)
    ensures Union([a, b, c, d]) == Ids(a) + Ids(b) + Ids(c) + Ids(d)
  {
    UnionOfTwo(a, b);
    UnionSnoc([a, b], c);
    assert [a, b, c] == [a, b] + [c];
    UnionSnoc([a, b, c], d);
    assert [a, b, c, d] == [a, b, c] + [d];
  }
}
