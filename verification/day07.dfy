/**
 * Day 7: tachyon beams.  A beam enters at the `S` and falls one row at a
 * time; a `^` splitter in its column stops it and starts a beam in each
 * neighbouring column that exists.  Part 1 lets beams in the same column
 * merge and counts the splits; part 2 follows timelines, which never
 * merge, and counts how many there are at the bottom.
 */
module Day07 {
  import opened Common

  // ---------------------------------------------------------------------
  // The start and the splitters
  // ---------------------------------------------------------------------

  /** The first `S` in rows `r` onwards, in row-major order, as (row, column). */
  function StartFrom(lines: seq<string>, r: nat): (p: Option<(nat, nat)>)
    ensures p.Some? ==> r <= p.value.0 < |lines| && p.value.1 < |lines[p.value.0]|
    decreases |lines| - r
  {
    if r >= |lines| then None
    else if 'S' in lines[r] then Some((r, IndexOf(lines[r], 'S')))
    else StartFrom(lines, r + 1)
  }

  /** The first `S` of the diagram, in row-major order. */
  function Start(lines: seq<string>): Option<(nat, nat)> {
    StartFrom(lines, 0)
  }

  /**
   * `StartFrom` finds an `S`, with no `S` before it from row `r` on; it
   * finds none exactly when rows `r` onwards hold none.
   */
  lemma {:induction false} StartFromFirst(lines: seq<string>, r: nat)
    ensures StartFrom(lines, r).Some? ==>
      var (row, col) := StartFrom(lines, r).value;
      lines[row][col] == 'S' && 'S' !in lines[row][..col] &&
      forall k :: r <= k < row ==> 'S' !in lines[k]
    ensures StartFrom(lines, r).None? <==> forall k :: r <= k < |lines| ==> 'S' !in lines[k]
    decreases |lines| - r
  {
    if r < |lines| && 'S' !in lines[r] {
      StartFromFirst(lines, r + 1);
    }
  }

  /** `find_start`: scan the rows, and each row's characters, for the first `S`. */
  method FindStart(lines: seq<string>) returns (start: Option<(nat, nat)>)
    ensures start == Start(lines)
  {
    for row := 0 to |lines|
      invariant StartFrom(lines, row) == Start(lines)
    {
      var line := lines[row];
      for col := 0 to |line|
        invariant 'S' !in line[..col]
      {
        if line[col] == 'S' {
          return Some((row, col));
        }
      }
      assert line[..|line|] == line;
    }
    return None;
  }

  /** The columns of a row that hold a `^` splitter. */
  function Splitters(line: string): set<nat> {
    set c: nat | c < |line| && line[c] == '^'
  }

  /** The splitter columns of every row. */
  function SplitterRows(lines: seq<string>): (rows: seq<set<nat>>)
    ensures |rows| == |lines| && forall r :: 0 <= r < |lines| ==> rows[r] == Splitters(lines[r])
  {
    seq(|lines|, r requires 0 <= r < |lines| => Splitters(lines[r]))
  }

  /** Every splitter of every row lies left of column `width`. */
  predicate Within(rows: seq<set<nat>>, width: nat) {
    forall r, c :: 0 <= r < |rows| && c in rows[r] ==> c < width
  }

  /** The splitters of a diagram lie inside its widest row. */
  lemma SplittersWithin(lines: seq<string>)
    ensures Within(SplitterRows(lines), MaxWidth(lines))
  {
    var rows := SplitterRows(lines);
    forall r, c | 0 <= r < |rows| && c in rows[r]
      ensures c < MaxWidth(lines)
    {
      assert c < |lines[r]|;
    }
  }

  /** `build_splitter_map`: one set of splitter columns per row. */
  method BuildSplitterMap(lines: seq<string>) returns (splitterMap: seq<set<nat>>)
    ensures splitterMap == SplitterRows(lines)
  {
    splitterMap := seq(|lines|, _ => {});
    for row := 0 to |lines|
      invariant |splitterMap| == |lines|
      invariant forall r :: 0 <= r < row ==> splitterMap[r] == Splitters(lines[r])
      invariant forall r :: row <= r < |lines| ==> splitterMap[r] == {}
    {
      var line := lines[row];
      for col := 0 to |line|
        invariant |splitterMap| == |lines|
        invariant forall r :: 0 <= r < row ==> splitterMap[r] == Splitters(lines[r])
        invariant forall r :: row < r < |lines| ==> splitterMap[r] == {}
        invariant splitterMap[row] == set c: nat | c < col && line[c] == '^'
      {
        if line[col] == '^' {
          splitterMap := splitterMap[row := splitterMap[row] + {col}];
        }
      }
    }
    assert forall r :: 0 <= r < |lines| ==> splitterMap[r] == SplitterRows(lines)[r];
  }

  // ---------------------------------------------------------------------
  // Part 1: merging beams
  // ---------------------------------------------------------------------

  /** Column `x` is next to a hit column. */
  predicate NextToHit(hits: set<nat>, x: nat) {
    x + 1 in hits || (x > 0 && x - 1 in hits)
  }

  /** The columns next to a hit column that are still inside the diagram. */
  function Neighbours(hits: set<nat>, width: nat): set<nat> {
    set x: nat | x < width && NextToHit(hits, x)
  }

  /** The beams one row down: the ones no splitter stops, and one either side of each hit. */
  function Spread(beams: set<nat>, hits: set<nat>, width: nat): set<nat> {
    (beams - hits) + Neighbours(hits, width)
  }

  /** No two of the columns are next to each other. */
  predicate NonAdjacent(cols: set<nat>) {
    forall c, d :: c in cols && d in cols ==> d != c + 1
  }

  /** No row has two splitters side by side. */
  predicate NoAdjacentSplitters(rows: seq<set<nat>>) {
    forall r :: 0 <= r < |rows| ==> NonAdjacent(rows[r])
  }

  /** The beams `beams` turn into once they have fallen through row `row` and every row below it. */
  function Beams(rows: seq<set<nat>>, row: nat, beams: set<nat>, width: nat): set<nat>
    decreases |rows| - row
  {
    if row >= |rows| then beams
    else Beams(rows, row + 1, Spread(beams, beams * rows[row], width), width)
  }

  /** The splits the beams make from row `row` down: each row counts the beams its splitters stop. */
  function SplitsFrom(rows: seq<set<nat>>, row: nat, beams: set<nat>, width: nat): nat
    decreases |rows| - row
  {
    if row >= |rows| then 0
    else HitCount(beams, rows[row], width) + SplitsFrom(rows, row + 1, Spread(beams, beams * rows[row], width), width)
  }

  /** The number of columns below `n` holding both a beam and a splitter. */
  function HitCount(active: set<nat>, splitters: set<nat>, n: nat): nat {
    if n == 0 then 0 else HitCount(active, splitters, n - 1) + if n - 1 in active && n - 1 in splitters then 1 else 0
  }

  lemma {:induction false} CardIsHitCount(active: set<nat>, splitters: set<nat>, n: nat)
    ensures |set c | c in active && c in splitters && c < n| == HitCount(active, splitters, n)
  {
    if n > 0 {
      CardIsHitCount(active, splitters, n - 1);
      var below := set c | c in active && c in splitters && c < n - 1;
      if n - 1 in active && n - 1 in splitters {
        assert (set c | c in active && c in splitters && c < n) == below + {n - 1};
      } else {
        assert (set c | c in active && c in splitters && c < n) == below;
      }
    }
  }

  /** The hits of a row, as `count_splits` counts them, are the columns `HitCount` counts. */
  lemma HitsCounted(active: set<nat>, splitters: set<nat>, width: nat)
    requires forall c :: c in splitters ==> c < width
    ensures |active * splitters| == HitCount(active, splitters, width)
  {
    CardIsHitCount(active, splitters, width);
    assert active * splitters == set c | c in active && c in splitters && c < width;
  }

  /** Where no beam meets a splitter, nothing is counted. */
  lemma {:induction false} NoHits(active: set<nat>, splitters: set<nat>, n: nat)
    requires active * splitters == {}
    ensures HitCount(active, splitters, n) == 0
  {
    if n > 0 {
      NoHits(active, splitters, n - 1);
      assert n - 1 !in active * splitters;
    }
  }

  /** The start cell, (0, 0) when there is no `S`, as `unwrap_or_default` gives. */
  function StartCell(lines: seq<string>): (p: (nat, nat))
    ensures |lines| > 0 ==> p.0 < |lines|
  {
    match Start(lines)
    case Some(p) => p
    case None => (0, 0)
  }

  /** The number of splits when one beam falls from the start through every row below it. */
  function Splits(lines: seq<string>): nat {
    if |lines| == 0 then 0
    else
      var (row, col) := StartCell(lines);
      SplitsFrom(SplitterRows(lines), row + 1, {col}, MaxWidth(lines))
  }

  /**
   * The inner loop of `count_splits`: each hit beam, in whatever order the
   * set yields them, is removed and replaced by its neighbours.  When no
   * two hits are adjacent the order does not matter and the result is the
   * spread; otherwise no column outside the beams and the neighbours of
   * the hits appears.
   */
  method SpreadHits(beams: set<nat>, hits: set<nat>, width: nat) returns (next: set<nat>)
    requires forall c :: c in hits ==> c < width
    ensures NonAdjacent(hits) ==> next == Spread(beams, hits, width)
    ensures next <= beams + Neighbours(hits, width)
  {
    next := beams;
    var rest := hits;
    while (rest != {})
      invariant rest <= hits
      invariant NonAdjacent(hits) ==> next == Spread(beams, hits - rest, width)
      invariant next <= beams + Neighbours(hits, width)
      decreases rest
    {
      var col :| col in rest;
      if NonAdjacent(hits) {
        SpreadOne(beams, hits, hits - rest, col, width);
      }
      next := next - {col};
      if col > 0 {
        next := next + {col - 1};
      }
      if col + 1 < width {
        next := next + {col + 1};
      }
      assert hits - (rest - {col}) == (hits - rest) + {col};
      rest := rest - {col};
    }
  }

  /** Handling one more hit changes the spread of the hits handled so far by that hit alone. */
  lemma SpreadOne(beams: set<nat>, hits: set<nat>, done: set<nat>, col: nat, width: nat)
    requires NonAdjacent(hits) && done <= hits && col in hits && col !in done && col < width
    ensures Spread(beams, done + {col}, width) ==
      (Spread(beams, done, width) - {col})
      + (if col > 0 then {col - 1} else {})
      + (if col + 1 < width then {col + 1} else {})
  {
  }

  /** Once no beam is left, no row splits any more. */
  lemma {:induction false} NoBeamsNoSplits(rows: seq<set<nat>>, row: nat, width: nat)
    ensures SplitsFrom(rows, row, {}, width) == 0
    decreases |rows| - row
  {
    if row < |rows| {
      NoHits({}, rows[row], width);
      assert {} * rows[row] == {};
      assert Spread({}, {}, width) == {};
      NoBeamsNoSplits(rows, row + 1, width);
    }
  }

  /** Splitters never adjacent leave no two hits adjacent. */
  lemma HitsNonAdjacent(beams: set<nat>, splitters: set<nat>)
    requires NonAdjacent(splitters)
    ensures NonAdjacent(beams * splitters)
  {
  }

  /**
   * `count_splits`: one beam starts in the column of `S`; each row below
   * it adds the number of beams it stops and spreads them.  The rows are
   * the model's counts whenever no two splitters of a row are adjacent.
   */
  method CountSplits(lines: seq<string>) returns (splitCount: nat)
    ensures NoAdjacentSplitters(SplitterRows(lines)) ==> splitCount == Splits(lines)
  {
    if |lines| == 0 {
      return 0;
    }
    var width := MaxWidth(lines);
    var start := FindStart(lines);
    var (startRow, startCol) := if start.Some? then start.value else (0, 0);
    var splitterMap := BuildSplitterMap(lines);
    SplittersWithin(lines);
    splitCount := FollowBeams(splitterMap, startRow + 1, startCol, width);
  }

  /** The row loop of `count_splits`, from the row below the start down. */
  method FollowBeams(splitterMap: seq<set<nat>>, first: nat, startCol: nat, width: nat)
    returns (splitCount: nat)
    requires first <= |splitterMap| && Within(splitterMap, width)
    ensures NoAdjacentSplitters(splitterMap) ==> splitCount == SplitsFrom(splitterMap, first, {startCol}, width)
  {
    var activeBeams: set<nat> := {startCol};
    splitCount := 0;
    ghost var exact := NoAdjacentSplitters(splitterMap);
    ghost var total := SplitsFrom(splitterMap, first, activeBeams, width);
    for row := first to |splitterMap|
      invariant exact ==> splitCount + SplitsFrom(splitterMap, row, activeBeams, width) == total
    {
      if (activeBeams == {}) {
        NoBeamsNoSplits(splitterMap, row, width);
        break;
      }
      var splitters := splitterMap[row];
      if (splitters == {}) {
        NoHits(activeBeams, splitters, width);
        assert Spread(activeBeams, {}, width) == activeBeams;
        continue;
      }
      var hits := activeBeams * splitters;
      HitsCounted(activeBeams, splitters, width);
      splitCount := splitCount + |hits|;
      if exact {
        HitsNonAdjacent(activeBeams, splitters);
      }
      activeBeams := SpreadHits(activeBeams, hits, width);
    }
  }

  /** Beams that start inside the diagram stay inside it. */
  lemma {:induction false} BeamsInside(rows: seq<set<nat>>, row: nat, beams: set<nat>, width: nat)
    requires Within(rows, width) && forall c :: c in beams ==> c < width
    ensures forall c :: c in Beams(rows, row, beams, width) ==> c < width
    decreases |rows| - row
  {
    if row < |rows| {
      BeamsInside(rows, row + 1, Spread(beams, beams * rows[row], width), width);
    }
  }

  // ---------------------------------------------------------------------
  // Part 2: timelines
  // ---------------------------------------------------------------------

  /** `*m.entry(c).or_default() += v`. */
  function AddTo(m: map<nat, nat>, c: nat, v: nat): map<nat, nat> {
    m[c := (if c in m then m[c] else 0) + v]
  }

  /** Adding to two entries gives the same map in either order. */
  lemma AddToSwap(m: map<nat, nat>, x: nat, v: nat, y: nat, w: nat)
    ensures AddTo(AddTo(m, x, v), y, w) == AddTo(AddTo(m, y, w), x, v)
  {
  }

  /**
   * What one column's timelines add to the next row, as the body of
   * `count_timelines`'s inner loop does: at a splitter they go to each
   * side that exists, elsewhere straight down.
   */
  function Contribute(m: map<nat, nat>, col: nat, count: nat, splitters: set<nat>, width: nat): map<nat, nat> {
    if col in splitters then AddRight(AddLeft(m, col, count), col, count, width)
    else AddTo(m, col, count)
  }

  /** A split particle's count goes to the column on the left, if there is one. */
  function AddLeft(m: map<nat, nat>, col: nat, count: nat): map<nat, nat> {
    if col > 0 then AddTo(m, col - 1, count) else m
  }

  /** A split particle's count goes to the column on the right, if it is inside the diagram. */
  function AddRight(m: map<nat, nat>, col: nat, count: nat, width: nat): map<nat, nat> {
    if col + 1 < width then AddTo(m, col + 1, count) else m
  }

  /** Adding to an entry and contributing a column commute. */
  lemma ContributeAddTo(m: map<nat, nat>, col: nat, count: nat, splitters: set<nat>, width: nat, y: nat, v: nat)
    ensures Contribute(AddTo(m, y, v), col, count, splitters, width) == AddTo(Contribute(m, col, count, splitters, width), y, v)
  {
    if col in splitters {
      if col > 0 {
        AddToSwap(m, y, v, col - 1, count);
      }
      assert AddLeft(AddTo(m, y, v), col, count) == AddTo(AddLeft(m, col, count), y, v);
      if col + 1 < width {
        AddToSwap(AddLeft(m, col, count), y, v, col + 1, count);
      }
    } else {
      AddToSwap(m, y, v, col, count);
    }
  }

  /** Two columns' contributions give the same map in either order. */
  lemma ContributeSwap(m: map<nat, nat>, a: nat, ca: nat, b: nat, cb: nat, splitters: set<nat>, width: nat)
    ensures Contribute(Contribute(m, a, ca, splitters, width), b, cb, splitters, width)
         == Contribute(Contribute(m, b, cb, splitters, width), a, ca, splitters, width)
  {
    if a in splitters {
      SplitSwap(m, a, ca, b, cb, splitters, width);
    } else {
      ContributeAddTo(m, b, cb, splitters, width, a, ca);
    }
  }

  /** The case of `ContributeSwap` where `a` is a splitter column. */
  lemma SplitSwap(m: map<nat, nat>, a: nat, ca: nat, b: nat, cb: nat, splitters: set<nat>, width: nat)
    requires a in splitters
    ensures Contribute(Contribute(m, a, ca, splitters, width), b, cb, splitters, width)
         == Contribute(Contribute(m, b, cb, splitters, width), a, ca, splitters, width)
  {
    LeftSwap(m, a, ca, b, cb, splitters, width);
    RightSwap(AddLeft(m, a, ca), a, ca, b, cb, splitters, width);
  }

  /** A contribution commutes with the left half of a split. */
  lemma LeftSwap(m: map<nat, nat>, a: nat, ca: nat, b: nat, cb: nat, splitters: set<nat>, width: nat)
    ensures Contribute(AddLeft(m, a, ca), b, cb, splitters, width) == AddLeft(Contribute(m, b, cb, splitters, width), a, ca)
  {
    if a > 0 {
      ContributeAddTo(m, b, cb, splitters, width, a - 1, ca);
    }
  }

  /** A contribution commutes with the right half of a split. */
  lemma RightSwap(m: map<nat, nat>, a: nat, ca: nat, b: nat, cb: nat, splitters: set<nat>, width: nat)
    ensures Contribute(AddRight(m, a, ca, width), b, cb, splitters, width) == AddRight(Contribute(m, b, cb, splitters, width), a, ca, width)
  {
    if a + 1 < width {
      ContributeAddTo(m, b, cb, splitters, width, a + 1, ca);
    }
  }

  /** Some element of a non-empty set. */
  ghost function PickCol(keys: set<nat>): (k: nat)
    requires keys != {}
    ensures k in keys
  {
    var k :| k in keys; k
  }

  /** The timelines of the columns `keys` of `counts`, one row down. */
  ghost function FlowOf(counts: map<nat, nat>, splitters: set<nat>, width: nat, keys: set<nat>): map<nat, nat>
    requires keys <= counts.Keys
    decreases keys
  {
    if keys == {} then map[]
    else
      var k := PickCol(keys);
      Contribute(FlowOf(counts, splitters, width, keys - {k}), k, counts[k], splitters, width)
  }

  /** The timeline counts one row down. */
  ghost function Flow(counts: map<nat, nat>, splitters: set<nat>, width: nat): map<nat, nat> {
    FlowOf(counts, splitters, width, counts.Keys)
  }

  /** The counts one row down do not depend on the order the columns are taken in. */
  lemma {:induction false} FlowRemove(counts: map<nat, nat>, splitters: set<nat>, width: nat, keys: set<nat>, j: nat)
    requires keys <= counts.Keys && j in keys
    ensures FlowOf(counts, splitters, width, keys)
         == Contribute(FlowOf(counts, splitters, width, keys - {j}), j, counts[j], splitters, width)
    decreases keys
  {
    var k := PickCol(keys);
    if k != j {
      FlowRemove(counts, splitters, width, keys - {k}, j);
      FlowRemove(counts, splitters, width, keys - {j}, k);
      assert keys - {k} - {j} == keys - {j} - {k};
      ContributeSwap(FlowOf(counts, splitters, width, keys - {k} - {j}), j, counts[j], k, counts[k], splitters, width);
    }
  }

  /**
   * The body of `count_timelines`'s row loop: every column's timelines,
   * in whatever order the map yields them, go straight down or split.
   */
  method FlowRow(counts: map<nat, nat>, splitters: set<nat>, width: nat) returns (newCounts: map<nat, nat>)
    ensures newCounts == Flow(counts, splitters, width)
  {
    newCounts := map[];
    var rest := counts.Keys;
    while (rest != {})
      invariant rest <= counts.Keys
      invariant newCounts == FlowOf(counts, splitters, width, counts.Keys - rest)
      decreases rest
    {
      var col :| col in rest;
      var count := counts[col];
      ghost var done := counts.Keys - rest;
      assert (done + {col}) - {col} == done;
      FlowRemove(counts, splitters, width, done + {col}, col);
      if col in splitters {
        if col > 0 {
          newCounts := AddTo(newCounts, col - 1, count);
        }
        if col + 1 < width {
          newCounts := AddTo(newCounts, col + 1, count);
        }
      } else {
        newCounts := AddTo(newCounts, col, count);
      }
      assert counts.Keys - (rest - {col}) == done + {col};
      rest := rest - {col};
    }
    assert counts.Keys - rest == counts.Keys;
  }

  /** The timelines one row down occupy the columns part 1's beams would. */
  lemma {:induction false} FlowKeys(counts: map<nat, nat>, splitters: set<nat>, width: nat, keys: set<nat>)
    requires keys <= counts.Keys
    requires forall c :: c in splitters ==> c < width
    ensures FlowOf(counts, splitters, width, keys).Keys == Spread(keys, keys * splitters, width)
    decreases keys
  {
    if keys != {} {
      var k := PickCol(keys);
      var rest := keys - {k};
      FlowKeys(counts, splitters, width, rest);
      var lhs := FlowOf(counts, splitters, width, keys).Keys;
      var rhs := Spread(keys, keys * splitters, width);
      forall x: nat
        ensures x in lhs <==> x in rhs
      {
        assert NextToHit(keys * splitters, x) <==> NextToHit(rest * splitters, x) || (k in splitters && (x + 1 == k || x == k + 1));
      }
      assert lhs == rhs;
    } else {
      assert Spread(keys, keys * splitters, width) == {};
    }
  }

  /** The entries of `m` whose keys are in `keys`. */
  function Restrict(m: map<nat, nat>, keys: set<nat>): (r: map<nat, nat>)
    ensures r.Keys == m.Keys * keys
  {
    map c | c in m && c in keys :: m[c]
  }

  /** A row without splitters lets every timeline straight through. */
  lemma {:induction false} FlowNoSplitters(counts: map<nat, nat>, width: nat, keys: set<nat>)
    requires keys <= counts.Keys
    ensures FlowOf(counts, {}, width, keys) == Restrict(counts, keys)
    decreases keys
  {
    if keys != {} {
      var k := PickCol(keys);
      FlowNoSplitters(counts, width, keys - {k});
      assert Restrict(counts, keys) == Restrict(counts, keys - {k})[k := counts[k]];
    } else {
      assert Restrict(counts, keys) == map[];
    }
  }

  /** Some key of a non-empty map. */
  ghost function Pick(m: map<nat, nat>): (k: nat)
    requires m != map[]
    ensures k in m
  {
    assert m.Keys != {};
    var k :| k in m; k
  }

  /** The sum of the map's values. */
  ghost function Total(m: map<nat, nat>): nat
    decreases m.Keys
  {
    if m == map[] then 0
    else
      var k := Pick(m);
      m[k] + Total(m - {k})
  }

  /** The total does not depend on which key is taken out first. */
  lemma {:induction false} TotalRemove(m: map<nat, nat>, k: nat)
    requires k in m
    ensures Total(m) == m[k] + Total(m - {k})
    decreases m.Keys
  {
    var j := Pick(m);
    if j != k {
      TotalRemove(m - {j}, k);
      TotalRemove(m - {k}, j);
      assert m - {j} - {k} == m - {k} - {j};
    }
  }

  /** Adding to one entry adds to the total. */
  lemma TotalAdd(m: map<nat, nat>, c: nat, v: nat)
    ensures Total(AddTo(m, c, v)) == Total(m) + v
  {
    var m' := AddTo(m, c, v);
    TotalRemove(m', c);
    if c in m {
      TotalRemove(m, c);
      assert m' - {c} == m - {c};
    } else {
      assert m' - {c} == m;
    }
  }

  /** `particle_counts.values().sum()`. */
  method SumCounts(counts: map<nat, nat>) returns (total: nat)
    ensures total == Total(counts)
  {
    total := 0;
    var rest := counts;
    while (rest != map[])
      invariant total + Total(rest) == Total(counts)
      decreases rest.Keys
    {
      var col :| col in rest;
      TotalRemove(rest, col);
      total := total + rest[col];
      rest := rest - {col};
    }
  }

  /**
   * Over any set of columns, a row whose hits all lie strictly inside the
   * diagram adds each hit column's count once more.
   */
  lemma {:induction false} FlowTotalPart(counts: map<nat, nat>, splitters: set<nat>, width: nat, keys: set<nat>)
    requires keys <= counts.Keys
    requires forall c :: c in counts && c in splitters ==> 0 < c && c + 1 < width
    ensures Total(FlowOf(counts, splitters, width, keys))
         == Total(Restrict(counts, keys)) + Total(Restrict(counts, keys * splitters))
    decreases keys
  {
    if keys == {} {
      assert Restrict(counts, keys) == map[];
      assert Restrict(counts, keys * splitters) == map[];
    } else {
      var k := PickCol(keys);
      var rest := keys - {k};
      var count := counts[k];
      FlowTotalPart(counts, splitters, width, rest);
      var f := FlowOf(counts, splitters, width, rest);
      if k in splitters {
        TotalAdd(f, k - 1, count);
        TotalAdd(AddTo(f, k - 1, count), k + 1, count);
        TotalRemove(Restrict(counts, keys * splitters), k);
        assert Restrict(counts, keys * splitters) - {k} == Restrict(counts, rest * splitters);
      } else {
        TotalAdd(f, k, count);
        assert keys * splitters == rest * splitters;
      }
      TotalRemove(Restrict(counts, keys), k);
      assert Restrict(counts, keys) - {k} == Restrict(counts, rest);
    }
  }

  /** A row whose hits all lie inside the diagram raises the number of timelines by the hit columns' counts. */
  lemma FlowTotal(counts: map<nat, nat>, splitters: set<nat>, width: nat)
    requires forall c :: c in counts && c in splitters ==> 0 < c && c + 1 < width
    ensures Total(Flow(counts, splitters, width)) == Total(counts) + Total(Restrict(counts, splitters))
  {
    FlowTotalPart(counts, splitters, width, counts.Keys);
    assert Restrict(counts, counts.Keys) == counts;
    assert Restrict(counts, counts.Keys * splitters) == Restrict(counts, splitters);
  }

  /** The timeline counts once the particles of `counts` have fallen through row `row` and every row below it. */
  ghost function TimelinesFrom(rows: seq<set<nat>>, row: nat, counts: map<nat, nat>, width: nat): map<nat, nat>
    decreases |rows| - row
  {
    if row >= |rows| then counts
    else TimelinesFrom(rows, row + 1, Flow(counts, rows[row], width), width)
  }

  /** The number of timelines when one particle falls from the start through every row below it. */
  ghost function TimelineCount(lines: seq<string>): nat {
    if |lines| == 0 then 0
    else
      var (row, col) := StartCell(lines);
      Total(TimelinesFrom(SplitterRows(lines), row + 1, map[col := 1], MaxWidth(lines)))
  }

  /** Once no timeline is left, the later rows change nothing. */
  lemma {:induction false} NoTimelinesStay(rows: seq<set<nat>>, row: nat, width: nat)
    ensures TimelinesFrom(rows, row, map[], width) == map[]
    decreases |rows| - row
  {
    if row < |rows| {
      assert Flow(map[], rows[row], width) == map[];
      NoTimelinesStay(rows, row + 1, width);
    }
  }

  /** The columns holding timelines are the columns part 1 has beams in, row after row. */
  lemma {:induction false} TimelinesFollowBeams(rows: seq<set<nat>>, row: nat, counts: map<nat, nat>, width: nat)
    requires Within(rows, width)
    ensures TimelinesFrom(rows, row, counts, width).Keys == Beams(rows, row, counts.Keys, width)
    decreases |rows| - row
  {
    if row < |rows| {
      var splitters := rows[row];
      FlowKeys(counts, splitters, width, counts.Keys);
      TimelinesFollowBeams(rows, row + 1, Flow(counts, splitters, width), width);
    }
  }

  /** `count_timelines`: one particle starts at `S`; every row spreads the counts; the counts are summed. */
  method CountTimelines(lines: seq<string>) returns (total: nat)
    ensures total == TimelineCount(lines)
  {
    if |lines| == 0 {
      return 0;
    }
    var width := MaxWidth(lines);
    var start := FindStart(lines);
    var (startRow, startCol) := if start.Some? then start.value else (0, 0);
    var splitterMap := BuildSplitterMap(lines);
    var particleCounts := FollowParticles(splitterMap, startRow + 1, startCol, width);
    total := SumCounts(particleCounts);
  }

  /** The row loop of `count_timelines`, from the row below the start down. */
  method FollowParticles(splitterMap: seq<set<nat>>, first: nat, startCol: nat, width: nat)
    returns (particleCounts: map<nat, nat>)
    requires first <= |splitterMap|
    ensures particleCounts == TimelinesFrom(splitterMap, first, map[startCol := 1], width)
  {
    particleCounts := map[startCol := 1];
    for row := first to |splitterMap|
      invariant TimelinesFrom(splitterMap, row, particleCounts, width) == TimelinesFrom(splitterMap, first, map[startCol := 1], width)
    {
      if (particleCounts == map[]) {
        NoTimelinesStay(splitterMap, row, width);
        break;
      }
      var splitters := splitterMap[row];
      if (splitters == {}) {
        FlowNoSplitters(particleCounts, width, particleCounts.Keys);
        assert Restrict(particleCounts, particleCounts.Keys) == particleCounts;
        continue;
      }
      particleCounts := FlowRow(particleCounts, splitters, width);
    }
  }
}
