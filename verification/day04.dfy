/**
 * Day 4: a rectangular grid of cells, some holding a roll of paper ('@').
 * A roll is accessible when fewer than four of its eight neighbours hold
 * rolls.  Part 1 counts the accessible rolls; part 2 keeps removing
 * accessible rolls until none is left and counts the removals.
 *
 * The specification works on the flat, row-major layout the optimised
 * solvers use: `Round` removes every accessible roll at once and `Peel`
 * repeats rounds until the grid is stable.  `Peel` is the largest stable
 * part of the grid, so every removal order that only removes accessible
 * rolls and stops at a stable grid removes the same rolls; the naive, the
 * dirty-set and the work-queue solvers are all proved to count
 * `Rolls(init) - Rolls(Peel(init))`.
 */
module Day04 {
  import opened Common

  /** The byte a roll of paper is written as. */
  const ROLL: char := '@'
  /** The byte a removed roll is overwritten with. */
  const EMPTY: char := '.'
  /** A roll is accessible when fewer than this many neighbours are rolls. */
  const CROWD: nat := 4

  // ---------------------------------------------------------------------
  // Row-major layout
  // ---------------------------------------------------------------------

  /** Where row `r` starts in the flat layout. */
  function RowStart(r: nat, cols: nat): nat {
    r * cols
  }

  /** The next row starts one row length further on. */
  lemma RowStartNext(r: nat, cols: nat)
    ensures RowStart(r + 1, cols) == RowStart(r, cols) + cols
  {
  }

  /** A cell inside the grid has a flat index inside the grid. */
  lemma CellInside(r: nat, c: nat, rows: nat, cols: nat)
    requires r < rows && c < cols
    ensures RowStart(r, cols) + c < RowStart(rows, cols)
  {
    MulMonotone(rows, cols, r + 1, cols);
  }

  /** The flat index of cell (r, c) gives back r and c through `/` and `%`. */
  lemma CellRowColumn(r: nat, c: nat, cols: nat)
    requires c < cols
    ensures (RowStart(r, cols) + c) / cols == r && (RowStart(r, cols) + c) % cols == c
  {
    DivModUnique(RowStart(r, cols) + c, cols, r, c);
  }

  /** Distinct cells have distinct flat indices. */
  lemma CellIndexInjective(r: nat, c: nat, r': nat, c': nat, cols: nat)
    requires c < cols && c' < cols
    ensures RowStart(r, cols) + c == RowStart(r', cols) + c' <==> r == r' && c == c'
  {
    CellRowColumn(r, c, cols);
    CellRowColumn(r', c', cols);
  }

  /** Every flat index inside the grid is the index of cell (i / cols, i % cols). */
  lemma IndexCell(i: nat, rows: nat, cols: nat)
    requires i < RowStart(rows, cols)
    ensures cols > 0 && i / cols < rows && RowStart(i / cols, cols) + i % cols == i
  {
    assert cols > 0;
    if i / cols >= rows {
      MulMonotone(i / cols, cols, rows, cols);
    }
  }

  // ---------------------------------------------------------------------
  // The grid and its neighbourhoods
  // ---------------------------------------------------------------------

  /** `rows` rows of `cols` cells, stored row after row. */
  datatype Grid = Grid(cells: seq<char>, rows: nat, cols: nat)
  {
    predicate Valid() {
      |cells| == RowStart(rows, cols)
    }
  }

  /** Number of rolls on the grid. */
  function Rolls(cells: seq<char>): nat {
    multiset(cells)[ROLL]
  }

  /** Cell (r, c) lies inside the grid and holds a roll. */
  predicate Roll(g: Grid, r: int, c: int)
    requires g.Valid()
  {
    0 <= r < g.rows && 0 <= c < g.cols &&
    RowStart(r, g.cols) + c < |g.cells| && g.cells[RowStart(r, g.cols) + c] == ROLL
  }

  function Count(b: bool): nat {
    if b then 1 else 0
  }

  /** How many of the eight cells around (r, c) hold rolls. */
  function Adjacent(g: Grid, r: int, c: int): (n: nat)
    requires g.Valid()
    ensures n <= 8
  {
    Count(Roll(g, r - 1, c - 1)) + Count(Roll(g, r - 1, c)) + Count(Roll(g, r - 1, c + 1)) +
    Count(Roll(g, r, c - 1)) + Count(Roll(g, r, c + 1)) +
    Count(Roll(g, r + 1, c - 1)) + Count(Roll(g, r + 1, c)) + Count(Roll(g, r + 1, c + 1))
  }

  /** The neighbour count of the cell at flat index `i`. */
  function AdjacentAt(g: Grid, i: nat): nat
    requires g.Valid() && i < |g.cells|
  {
    IndexCell(i, g.rows, g.cols);
    Adjacent(g, i / g.cols, i % g.cols)
  }

  /** The cell at flat index `i` holds a roll with fewer than four rolls around it. */
  predicate Accessible(g: Grid, i: nat)
    requires g.Valid() && i < |g.cells|
  {
    g.cells[i] == ROLL && AdjacentAt(g, i) < CROWD
  }

  /** Two distinct cells that touch, sideways or diagonally. */
  predicate NearCell(r: int, c: int, r': int, c': int) {
    (r != r' || c != c') && -1 <= r - r' <= 1 && -1 <= c - c' <= 1
  }

  /** `NearCell` for the cells at flat indices `i` and `j`. */
  predicate Near(cols: nat, i: nat, j: nat)
    requires cols > 0
  {
    NearCell(i / cols, i % cols, j / cols, j % cols)
  }

  // ---------------------------------------------------------------------
  // Rounds and peeling
  // ---------------------------------------------------------------------

  /** Every roll of `g` is a roll of `h`, on grids of the same shape. */
  predicate Sub(g: Grid, h: Grid) {
    g.rows == h.rows && g.cols == h.cols && |g.cells| == |h.cells| &&
    forall i :: 0 <= i < |g.cells| && g.cells[i] == ROLL ==> h.cells[i] == ROLL
  }

  /** No roll is accessible. */
  predicate Stable(g: Grid)
    requires g.Valid()
  {
    forall i :: 0 <= i < |g.cells| ==> !Accessible(g, i)
  }

  /** One naive round: every accessible roll removed at once. */
  function Round(g: Grid): (h: Grid)
    requires g.Valid()
    ensures h.Valid() && Sub(h, g)
  {
    Grid(seq(|g.cells|, i requires 0 <= i < |g.cells| => if Accessible(g, i) then EMPTY else g.cells[i]),
         g.rows, g.cols)
  }

  /** The grid with the cell at flat index `i` emptied. */
  function Remove(g: Grid, i: nat): (h: Grid)
    requires g.Valid() && i < |g.cells|
    ensures h.Valid() && Sub(h, g)
  {
    g.(cells := g.cells[i := EMPTY])
  }

  /** Rounds repeated until the grid is stable. */
  ghost function Peel(g: Grid): Grid
    requires g.Valid()
    decreases Rolls(g.cells)
  {
    if Stable(g) then g
    else
      RoundShrinks(g);
      Peel(Round(g))
  }

  /** Part 1's answer: the rolls accessible in the initial grid. */
  function AccessibleCount(g: Grid, n: nat): nat
    requires g.Valid() && n <= |g.cells|
  {
    if n == 0 then 0 else AccessibleCount(g, n - 1) + Count(Accessible(g, n - 1))
  }

  /** Part 2's answer: the rolls that peeling removes. */
  ghost function Removable(g: Grid): nat
    requires g.Valid()
  {
    PeelShape(g);
    RollsMonotone(Peel(g).cells, g.cells);
    Rolls(g.cells) - Rolls(Peel(g).cells)
  }

  // ---------------------------------------------------------------------
  // Facts about rounds and peeling
  // ---------------------------------------------------------------------

  /**
   * Fewer-or-equal rolls in a sub-grid; equally many only when the
   * sub-grid keeps every roll.
   */
  lemma {:induction false} RollsMonotone(a: seq<char>, b: seq<char>)
    requires |a| == |b| && forall i :: 0 <= i < |a| && a[i] == ROLL ==> b[i] == ROLL
    ensures Rolls(a) <= Rolls(b)
    ensures Rolls(a) == Rolls(b) ==> forall i :: 0 <= i < |b| && b[i] == ROLL ==> a[i] == ROLL
  {
    if a != [] {
      var n := |a| - 1;
      RollsMonotone(a[..n], b[..n]);
      assert a == a[..n] + [a[n]] && b == b[..n] + [b[n]];
    }
  }

  /** A round that has something to remove lowers the roll count. */
  lemma RoundShrinks(g: Grid)
    requires g.Valid() && !Stable(g)
    ensures Rolls(Round(g).cells) < Rolls(g.cells)
  {
    var i :| 0 <= i < |g.cells| && Accessible(g, i);
    RollsMonotone(Round(g).cells, g.cells);
  }

  /** Peeling keeps the shape of the grid. */
  lemma {:induction false} PeelShape(g: Grid)
    requires g.Valid()
    ensures Peel(g).Valid() && Sub(Peel(g), g)
    decreases Rolls(g.cells)
  {
    if !Stable(g) {
      RoundShrinks(g);
      PeelShape(Round(g));
    }
  }

  /** The peeled grid is stable. */
  lemma {:induction false} PeelStable(g: Grid)
    requires g.Valid()
    ensures Peel(g).Valid() && Stable(Peel(g))
    decreases Rolls(g.cells)
  {
    PeelShape(g);
    if !Stable(g) {
      RoundShrinks(g);
      PeelStable(Round(g));
    }
  }

  /** More rolls around a cell on a larger grid. */
  lemma AdjacentMonotone(g: Grid, h: Grid, r: int, c: int)
    requires g.Valid() && h.Valid() && Sub(g, h)
    ensures Adjacent(g, r, c) <= Adjacent(h, r, c)
  {
    RollMonotone(g, h, r - 1, c - 1);
    RollMonotone(g, h, r - 1, c);
    RollMonotone(g, h, r - 1, c + 1);
    RollMonotone(g, h, r, c - 1);
    RollMonotone(g, h, r, c + 1);
    RollMonotone(g, h, r + 1, c - 1);
    RollMonotone(g, h, r + 1, c);
    RollMonotone(g, h, r + 1, c + 1);
  }

  lemma RollMonotone(g: Grid, h: Grid, r: int, c: int)
    requires g.Valid() && h.Valid() && Sub(g, h)
    ensures Roll(g, r, c) ==> Roll(h, r, c)
  {
    if Roll(g, r, c) {
      CellInside(r, c, g.rows, g.cols);
    }
  }

  /** A round never removes a roll of a stable sub-grid. */
  lemma RoundKeeps(g: Grid, h: Grid)
    requires g.Valid() && h.Valid() && Sub(h, g) && Stable(h)
    ensures Sub(h, Round(g))
  {
    forall i | 0 <= i < |h.cells| && h.cells[i] == ROLL
      ensures Round(g).cells[i] == ROLL
    {
      IndexCell(i, g.rows, g.cols);
      AdjacentMonotone(h, g, i / g.cols, i % g.cols);
      assert !Accessible(h, i);
    }
  }

  /** The peeled grid holds every stable sub-grid: it is the largest one. */
  lemma {:induction false} PeelGreatest(g: Grid, h: Grid)
    requires g.Valid() && h.Valid() && Sub(h, g) && Stable(h)
    ensures Peel(g).Valid() && Sub(h, Peel(g))
    decreases Rolls(g.cells)
  {
    PeelShape(g);
    if !Stable(g) {
      RoundShrinks(g);
      RoundKeeps(g, h);
      PeelGreatest(Round(g), h);
    }
  }

  /** Removing an accessible roll never removes a roll of a stable sub-grid. */
  lemma RemoveKeeps(g: Grid, h: Grid, i: nat)
    requires g.Valid() && h.Valid() && Sub(h, g) && Stable(h)
    requires i < |g.cells| && Accessible(g, i)
    ensures Sub(h, Remove(g, i))
  {
    IndexCell(i, g.rows, g.cols);
    AdjacentMonotone(h, g, i / g.cols, i % g.cols);
    assert !Accessible(h, i);
  }

  /**
   * A stable grid between the initial grid and its peeled grid has the
   * peeled grid's roll count: any removal order reaches the same answer.
   */
  lemma StableIsPeeled(init: Grid, g: Grid)
    requires init.Valid() && g.Valid() && Sub(g, init) && Stable(g)
    requires Peel(init).Valid() && Sub(Peel(init), g)
    ensures Rolls(g.cells) == Rolls(Peel(init).cells)
  {
    PeelGreatest(init, g);
    RollsMonotone(g.cells, Peel(init).cells);
    RollsMonotone(Peel(init).cells, g.cells);
  }

  /** Part 1's count is what the first naive round removes. */
  lemma RoundRemovesAccessible(g: Grid, n: nat)
    requires g.Valid() && n <= |g.cells|
    ensures Rolls(Round(g).cells[..n]) + AccessibleCount(g, n) == Rolls(g.cells[..n])
  {
    EmptyFlagged(Round(g).cells, g.cells, AccessibleFlags(g), n);
    AccessibleCountFlags(g, n);
  }

  /** Which cells are accessible, by flat index. */
  function AccessibleFlags(g: Grid): (flags: seq<bool>)
    requires g.Valid()
    ensures |flags| == |g.cells|
  {
    seq(|g.cells|, k requires 0 <= k < |g.cells| => Accessible(g, k))
  }

  lemma {:induction false} AccessibleCountFlags(g: Grid, n: nat)
    requires g.Valid() && n <= |g.cells|
    ensures AccessibleCount(g, n) == multiset(AccessibleFlags(g)[..n])[true]
  {
    if n > 0 {
      AccessibleCountFlags(g, n - 1);
      TakeNext(AccessibleFlags(g), n - 1);
    }
  }

  /** Emptying the flagged rolls: the rolls left and the flags set make up the rolls before. */
  lemma {:induction false} EmptyFlagged(a: seq<char>, b: seq<char>, flags: seq<bool>, n: nat)
    requires |a| == |b| == |flags| && n <= |a|
    requires forall k :: 0 <= k < |a| ==> a[k] == (if flags[k] then EMPTY else b[k])
    requires forall k :: 0 <= k < |a| && flags[k] ==> b[k] == ROLL
    ensures Rolls(a[..n]) + multiset(flags[..n])[true] == Rolls(b[..n])
  {
    if n > 0 {
      EmptyFlagged(a, b, flags, n - 1);
      RollsNext(a, n - 1);
      RollsNext(b, n - 1);
      TakeNext(flags, n - 1);
    }
  }

  /** The rolls of a prefix one cell longer. */
  lemma RollsNext(s: seq<char>, k: nat)
    requires k < |s|
    ensures Rolls(s[..k + 1]) == Rolls(s[..k]) + Count(s[k] == ROLL)
  {
    TakeNext(s, k);
  }

  /** A stable grid has no accessible roll to count, and conversely. */
  lemma StableIffNoneAccessible(g: Grid)
    requires g.Valid()
    ensures Stable(g) <==> AccessibleCount(g, |g.cells|) == 0
  {
    var n := |g.cells|;
    RoundRemovesAccessible(g, n);
    assert Round(g).cells[..n] == Round(g).cells && g.cells[..n] == g.cells;
    if Stable(g) {
      assert Round(g).cells == g.cells;
    } else {
      var i :| 0 <= i < n && Accessible(g, i);
      RollsMonotone(Round(g).cells, g.cells);
    }
  }

  /**
   * Part 1 never exceeds part 2: the first round removes part 1's rolls
   * and peeling only removes more.  Part 2 is zero exactly when part 1 is.
   */
  lemma PartOneAtMostPartTwo(g: Grid)
    requires g.Valid()
    ensures AccessibleCount(g, |g.cells|) <= Removable(g)
    ensures Removable(g) == 0 <==> AccessibleCount(g, |g.cells|) == 0
  {
    var n := |g.cells|;
    RoundRemovesAccessible(g, n);
    assert Round(g).cells[..n] == Round(g).cells && g.cells[..n] == g.cells;
    StableIffNoneAccessible(g);
    if !Stable(g) {
      RoundShrinks(g);
      PeelShape(Round(g));
      RollsMonotone(Peel(Round(g)).cells, Round(g).cells);
    }
  }

  // ---------------------------------------------------------------------
  // Facts about neighbourhoods
  // ---------------------------------------------------------------------

  /** Cell (r, c) holds a roll with fewer than four rolls around it. */
  predicate AccessibleCell(g: Grid, r: int, c: int)
    requires g.Valid()
  {
    Roll(g, r, c) && Adjacent(g, r, c) < CROWD
  }

  /** `Accessible` by flat index and `AccessibleCell` by row and column agree. */
  lemma AccessibleIndex(g: Grid, i: nat)
    requires g.Valid() && i < |g.cells|
    ensures g.cols > 0
    ensures Accessible(g, i) <==> AccessibleCell(g, i / g.cols, i % g.cols)
  {
    IndexCell(i, g.rows, g.cols);
  }

  /** The row-and-column form of `Accessible` at a cell's flat index. */
  lemma AccessibleAtCell(g: Grid, r: nat, c: nat)
    requires g.Valid() && r < g.rows && c < g.cols
    ensures RowStart(r, g.cols) + c < |g.cells|
    ensures Accessible(g, RowStart(r, g.cols) + c) <==> AccessibleCell(g, r, c)
  {
    CellInside(r, c, g.rows, g.cols);
    CellRowColumn(r, c, g.cols);
  }

  /** After emptying cell (kr, kc), cell (r, c) holds a roll unless it is that cell. */
  lemma RollAfterRemove(g: Grid, kr: nat, kc: nat, r: int, c: int)
    requires g.Valid() && kr < g.rows && kc < g.cols
    ensures RowStart(kr, g.cols) + kc < |g.cells|
    ensures Roll(Remove(g, RowStart(kr, g.cols) + kc), r, c) <==> Roll(g, r, c) && !(r == kr && c == kc)
  {
    CellInside(kr, kc, g.rows, g.cols);
    if 0 <= r < g.rows && 0 <= c < g.cols {
      CellInside(r, c, g.rows, g.cols);
      CellIndexInjective(r, c, kr, kc, g.cols);
    }
  }

  /** One neighbour term before and after emptying the roll at cell (kr, kc). */
  lemma TermAfterRemove(g: Grid, h: Grid, kr: nat, kc: nat, r: int, c: int)
    requires g.Valid() && kr < g.rows && kc < g.cols && Roll(g, kr, kc)
    requires RowStart(kr, g.cols) + kc < |g.cells| && h == Remove(g, RowStart(kr, g.cols) + kc)
    ensures Count(Roll(g, r, c)) == Count(Roll(h, r, c)) + Count(r == kr && c == kc)
  {
    RollAfterRemove(g, kr, kc, r, c);
  }

  /** Among the eight offsets around (r, c), one hits (r', c') exactly when they touch. */
  lemma OffsetHits(r: int, c: int, r': int, c': int)
    ensures Count(r - 1 == r' && c - 1 == c') + Count(r - 1 == r' && c == c') + Count(r - 1 == r' && c + 1 == c') +
            Count(r == r' && c - 1 == c') + Count(r == r' && c + 1 == c') +
            Count(r + 1 == r' && c - 1 == c') + Count(r + 1 == r' && c == c') + Count(r + 1 == r' && c + 1 == c')
         == Count(NearCell(r, c, r', c'))
  {
  }

  /** Emptying the roll at cell (kr, kc) lowers by one the count of each cell touching it. */
  lemma AdjacentAfterRemoveCell(g: Grid, h: Grid, kr: nat, kc: nat, r: int, c: int)
    requires g.Valid() && kr < g.rows && kc < g.cols && Roll(g, kr, kc)
    requires RowStart(kr, g.cols) + kc < |g.cells| && h == Remove(g, RowStart(kr, g.cols) + kc)
    ensures Adjacent(g, r, c) == Adjacent(h, r, c) + Count(NearCell(r, c, kr, kc))
  {
    TermAfterRemove(g, h, kr, kc, r - 1, c - 1);
    TermAfterRemove(g, h, kr, kc, r - 1, c);
    TermAfterRemove(g, h, kr, kc, r - 1, c + 1);
    TermAfterRemove(g, h, kr, kc, r, c - 1);
    TermAfterRemove(g, h, kr, kc, r, c + 1);
    TermAfterRemove(g, h, kr, kc, r + 1, c - 1);
    TermAfterRemove(g, h, kr, kc, r + 1, c);
    TermAfterRemove(g, h, kr, kc, r + 1, c + 1);
    OffsetHits(r, c, kr, kc);
  }

  /**
   * Emptying the roll at index `k` lowers the neighbour count of exactly
   * the cells near `k`, by one.
   */
  lemma AdjacentAfterRemove(g: Grid, k: nat, i: nat)
    requires g.Valid() && k < |g.cells| && i < |g.cells| && g.cells[k] == ROLL
    ensures g.cols > 0
    ensures AdjacentAt(g, i) == AdjacentAt(Remove(g, k), i) + Count(Near(g.cols, i, k))
  {
    IndexCell(k, g.rows, g.cols);
    IndexCell(i, g.rows, g.cols);
    AdjacentAfterRemoveCell(g, Remove(g, k), k / g.cols, k % g.cols, i / g.cols, i % g.cols);
  }

  /** A cell inside the grid next to cell `i` is near `i` and agrees on both grids. */
  lemma RollFrame(g: Grid, h: Grid, i: nat, r: int, c: int)
    requires g.Valid() && h.Valid() && g.rows == h.rows && g.cols == h.cols && i < |g.cells|
    requires g.cols > 0 && -1 <= r - i / g.cols <= 1 && -1 <= c - i % g.cols <= 1
    requires r != i / g.cols || c != i % g.cols
    requires forall j :: 0 <= j < |g.cells| && Near(g.cols, i, j) ==> (g.cells[j] == ROLL <==> h.cells[j] == ROLL)
    ensures Roll(g, r, c) <==> Roll(h, r, c)
  {
    if 0 <= r < g.rows && 0 <= c < g.cols {
      CellInside(r, c, g.rows, g.cols);
      CellRowColumn(r, c, g.cols);
      assert Near(g.cols, i, RowStart(r, g.cols) + c);
    }
  }

  /** Two grids that agree around cell `i` give it the same neighbour count. */
  lemma AdjacentFrame(g: Grid, h: Grid, i: nat)
    requires g.Valid() && h.Valid() && g.rows == h.rows && g.cols == h.cols && i < |g.cells| && g.cols > 0
    requires forall j :: 0 <= j < |g.cells| && Near(g.cols, i, j) ==> (g.cells[j] == ROLL <==> h.cells[j] == ROLL)
    ensures AdjacentAt(g, i) == AdjacentAt(h, i)
  {
    IndexCell(i, g.rows, g.cols);
    var r, c := i / g.cols, i % g.cols;
    RollFrame(g, h, i, r - 1, c - 1);
    RollFrame(g, h, i, r - 1, c);
    RollFrame(g, h, i, r - 1, c + 1);
    RollFrame(g, h, i, r, c - 1);
    RollFrame(g, h, i, r, c + 1);
    RollFrame(g, h, i, r + 1, c - 1);
    RollFrame(g, h, i, r + 1, c);
    RollFrame(g, h, i, r + 1, c + 1);
    AdjacentSame(g, h, r, c);
  }

  /** Grids that agree on the eight cells around (r, c) count the same rolls there. */
  lemma AdjacentSame(g: Grid, h: Grid, r: int, c: int)
    requires g.Valid() && h.Valid()
    requires Roll(g, r - 1, c - 1) == Roll(h, r - 1, c - 1) && Roll(g, r - 1, c) == Roll(h, r - 1, c)
    requires Roll(g, r - 1, c + 1) == Roll(h, r - 1, c + 1) && Roll(g, r, c - 1) == Roll(h, r, c - 1)
    requires Roll(g, r, c + 1) == Roll(h, r, c + 1) && Roll(g, r + 1, c - 1) == Roll(h, r + 1, c - 1)
    requires Roll(g, r + 1, c) == Roll(h, r + 1, c) && Roll(g, r + 1, c + 1) == Roll(h, r + 1, c + 1)
    ensures Adjacent(g, r, c) == Adjacent(h, r, c)
  {
  }

  /**
   * The cells near cell (row, col) are exactly the in-bounds ones among
   * the eight offsets from its flat index.
   */
  lemma NearOffsetsCell(rows: nat, cols: nat, row: nat, col: nat, jr: nat, jc: nat)
    requires row < rows && jr < rows && col < cols && jc < cols
    ensures NearCell(row, col, jr, jc) <==>
      var k, j := RowStart(row, cols) + col, RowStart(jr, cols) + jc;
      (row > 0 && col > 0 && j == k - cols - 1) ||
      (row > 0 && j == k - cols) ||
      (row > 0 && col < cols - 1 && j == k - cols + 1) ||
      (col > 0 && j == k - 1) ||
      (col < cols - 1 && j == k + 1) ||
      (row < rows - 1 && col > 0 && j == k + cols - 1) ||
      (row < rows - 1 && j == k + cols) ||
      (row < rows - 1 && col < cols - 1 && j == k + cols + 1)
  {
    RowStartNext(row, cols);
    if row > 0 {
      RowStartNext(row - 1, cols);
      if col > 0 {
        CellIndexInjective(jr, jc, row - 1, col - 1, cols);
      }
      CellIndexInjective(jr, jc, row - 1, col, cols);
      if col < cols - 1 {
        CellIndexInjective(jr, jc, row - 1, col + 1, cols);
      }
    }
    if col > 0 {
      CellIndexInjective(jr, jc, row, col - 1, cols);
    }
    if col < cols - 1 {
      CellIndexInjective(jr, jc, row, col + 1, cols);
    }
    if row < rows - 1 {
      if col > 0 {
        CellIndexInjective(jr, jc, row + 1, col - 1, cols);
      }
      CellIndexInjective(jr, jc, row + 1, col, cols);
      if col < cols - 1 {
        CellIndexInjective(jr, jc, row + 1, col + 1, cols);
      }
    }
  }

  /**
   * The cells near index `k` are exactly the in-bounds ones among the
   * eight offsets that `neighbors` computes from `k / cols` and `k % cols`.
   */
  lemma NearOffsets(rows: nat, cols: nat, k: nat, j: nat)
    requires k < RowStart(rows, cols) && j < RowStart(rows, cols)
    ensures cols > 0
    ensures Near(cols, k, j) <==>
      var row, col := k / cols, k % cols;
      (row > 0 && col > 0 && j == k - cols - 1) ||
      (row > 0 && j == k - cols) ||
      (row > 0 && col < cols - 1 && j == k - cols + 1) ||
      (col > 0 && j == k - 1) ||
      (col < cols - 1 && j == k + 1) ||
      (row < rows - 1 && col > 0 && j == k + cols - 1) ||
      (row < rows - 1 && j == k + cols) ||
      (row < rows - 1 && col < cols - 1 && j == k + cols + 1)
  {
    IndexCell(k, rows, cols);
    IndexCell(j, rows, cols);
    NearOffsetsCell(rows, cols, k / cols, k % cols, j / cols, j % cols);
  }

  // ---------------------------------------------------------------------
  // The grid as lines of text
  // ---------------------------------------------------------------------

  /** At least one line, all of the first line's length. */
  predicate Rectangular(lines: seq<string>) {
    |lines| >= 1 && forall i :: 0 <= i < |lines| ==> |lines[i]| == |lines[0]|
  }

  /** The lines joined without separators: the bytes of the input minus its newlines. */
  function Flatten(lines: seq<string>): seq<char> {
    if lines == [] then [] else Flatten(lines[..|lines| - 1]) + lines[|lines| - 1]
  }

  lemma {:induction false} FlattenLength(lines: seq<string>, cols: nat)
    requires forall i :: 0 <= i < |lines| ==> |lines[i]| == cols
    ensures |Flatten(lines)| == RowStart(|lines|, cols)
  {
    if lines != [] {
      FlattenLength(lines[..|lines| - 1], cols);
    }
  }

  /** Cell (r, c) of the lines sits at flat index `RowStart(r, cols) + c`. */
  lemma {:induction false} FlattenIndex(lines: seq<string>, cols: nat, r: nat, c: nat)
    requires forall i :: 0 <= i < |lines| ==> |lines[i]| == cols
    requires r < |lines| && c < cols
    ensures RowStart(r, cols) + c < |Flatten(lines)|
    ensures Flatten(lines)[RowStart(r, cols) + c] == lines[r][c]
  {
    FlattenLength(lines, cols);
    CellInside(r, c, |lines|, cols);
    var n := |lines| - 1;
    FlattenLength(lines[..n], cols);
    if r < n {
      FlattenIndex(lines[..n], cols, r, c);
    }
  }

  /** Overwriting one character of one line overwrites its flat index. */
  lemma {:induction false} FlattenUpdate(lines: seq<string>, cols: nat, r: nat, c: nat, x: char)
    requires forall i :: 0 <= i < |lines| ==> |lines[i]| == cols
    requires r < |lines| && c < cols
    ensures RowStart(r, cols) + c < |Flatten(lines)|
    ensures Flatten(lines[r := lines[r][c := x]]) == Flatten(lines)[RowStart(r, cols) + c := x]
  {
    FlattenIndex(lines, cols, r, c);
    var n := |lines| - 1;
    var lines' := lines[r := lines[r][c := x]];
    assert lines'[..n] == if r == n then lines[..n] else lines[..n][r := lines[r][c := x]];
    FlattenLength(lines[..n], cols);
    if r < n {
      FlattenUpdate(lines[..n], cols, r, c, x);
    }
  }

  /** The grid the optimised solvers parse from the lines. */
  function Board(lines: seq<string>): (g: Grid)
    requires Rectangular(lines)
    ensures g.Valid() && g.rows == |lines| && g.cols == |lines[0]|
  {
    FlattenLength(lines, |lines[0]|);
    Grid(Flatten(lines), |lines|, |lines[0]|)
  }

  /** A roll of the board is an '@' of the lines. */
  lemma BoardRoll(lines: seq<string>, r: int, c: int)
    requires Rectangular(lines)
    ensures Roll(Board(lines), r, c) <==> 0 <= r < |lines| && 0 <= c < |lines[0]| && lines[r][c] == ROLL
  {
    if 0 <= r < |lines| && 0 <= c < |lines[0]| {
      FlattenIndex(lines, |lines[0]|, r, c);
    }
  }

  /** Emptying a roll lowers the roll count by one. */
  lemma RollsRemove(s: seq<char>, i: nat)
    requires i < |s| && s[i] == ROLL
    ensures Rolls(s[i := EMPTY]) + 1 == Rolls(s)
  {
  }

  /** A grid without an accessible cell is stable. */
  lemma NoAccessibleCellStable(g: Grid)
    requires g.Valid() && forall r: nat, c: nat :: !AccessibleCell(g, r, c)
    ensures Stable(g)
  {
    forall i | 0 <= i < |g.cells|
      ensures !Accessible(g, i)
    {
      AccessibleIndex(g, i);
    }
  }

  /** Part 1's count over the cells before (r, c) in row-major order, one cell further. */
  lemma AccessibleCountStep(g: Grid, r: nat, c: nat)
    requires g.Valid() && r < g.rows && c < g.cols
    ensures RowStart(r, g.cols) + c < |g.cells|
    ensures AccessibleCount(g, RowStart(r, g.cols) + c + 1)
         == AccessibleCount(g, RowStart(r, g.cols) + c) + Count(AccessibleCell(g, r, c))
  {
    AccessibleAtCell(g, r, c);
  }

  // ---------------------------------------------------------------------
  // The naive solver: a grid of lines, rescanned every round
  // ---------------------------------------------------------------------

  /** The offset term `p` of the 3 by 3 block around (r, c), read row by row; the centre counts 0. */
  function OffsetTerm(g: Grid, r: int, c: int, p: nat): nat
    requires g.Valid() && p < 9
  {
    if p == 4 then 0 else Count(Roll(g, r + p / 3 - 1, c + p % 3 - 1))
  }

  /** The first `p` offset terms, summed: what `count_adjacent_rolls` has counted so far. */
  function OffsetSum(g: Grid, r: int, c: int, p: nat): nat
    requires g.Valid() && p <= 9
  {
    if p == 0 then 0 else OffsetSum(g, r, c, p - 1) + OffsetTerm(g, r, c, p - 1)
  }

  lemma OffsetSumIsAdjacent(g: Grid, r: int, c: int)
    requires g.Valid()
    ensures OffsetSum(g, r, c, 9) == Adjacent(g, r, c)
  {
    OffsetRow(g, r, c, -1);
    OffsetRow(g, r, c, 0);
    OffsetRow(g, r, c, 1);
  }

  /** The three offset terms of row `dr` of the block. */
  lemma OffsetRow(g: Grid, r: int, c: int, dr: int)
    requires g.Valid() && -1 <= dr <= 1
    ensures OffsetSum(g, r, c, 3 * (dr + 1) + 3)
         == OffsetSum(g, r, c, 3 * (dr + 1)) + Count(Roll(g, r + dr, c - 1))
          + (if dr == 0 then 0 else Count(Roll(g, r + dr, c))) + Count(Roll(g, r + dr, c + 1))
  {
    var p := 3 * (dr + 1);
    assert p / 3 == dr + 1 && p % 3 == 0;
    assert (p + 1) / 3 == dr + 1 && (p + 1) % 3 == 1;
    assert (p + 2) / 3 == dr + 1 && (p + 2) % 3 == 2;
    assert OffsetSum(g, r, c, p + 2) == OffsetSum(g, r, c, p) + OffsetTerm(g, r, c, p) + OffsetTerm(g, r, c, p + 1);
  }

  /** One offset of `count_adjacent_rolls`: the centre and cells off the grid add nothing. */
  lemma OffsetStep(grid: seq<string>, row: nat, col: nat, dr: int, dc: int)
    requires Rectangular(grid) && -1 <= dr <= 1 && -1 <= dc <= 1
    ensures 3 * (dr + 1) + (dc + 1) < 9
    ensures OffsetSum(Board(grid), row, col, 3 * (dr + 1) + (dc + 1) + 1)
         == OffsetSum(Board(grid), row, col, 3 * (dr + 1) + (dc + 1))
          + if (dr == 0 && dc == 0) || !(0 <= row + dr < |grid| && 0 <= col + dc < |grid[0]|)
               || grid[row + dr][col + dc] != ROLL then 0 else 1
  {
    var p := 3 * (dr + 1) + (dc + 1);
    assert p / 3 == dr + 1 && p % 3 == dc + 1;
    BoardRoll(grid, row + dr, col + dc);
  }

  /** `count_adjacent_rolls`: the rolls among the eight cells around (row, col). */
  method CountAdjacentRolls(grid: seq<string>, row: nat, col: nat) returns (count: nat)
    requires Rectangular(grid) && row < |grid| && col < |grid[0]|
    ensures count == Adjacent(Board(grid), row, col)
  {
    ghost var g := Board(grid);
    var rows := |grid|;
    var cols := |grid[0]|;
    count := 0;
    for dr := -1 to 2
      invariant count == OffsetSum(g, row, col, 3 * (dr + 1))
    {
      for dc := -1 to 2
        invariant count == OffsetSum(g, row, col, 3 * (dr + 1) + (dc + 1))
      {
        OffsetStep(grid, row, col, dr, dc);
        if dr == 0 && dc == 0 {
          continue;
        }
        var newRow := row + dr;
        var newCol := col + dc;
        if newRow >= 0 && newRow < rows && newCol >= 0 && newCol < cols {
          if grid[newRow][newCol] == ROLL {
            count := count + 1;
          }
        }
      }
    }
    OffsetSumIsAdjacent(g, row, col);
  }

  /** `Day04Naive::part1`: the accessible rolls, cell by cell. */
  method NaivePart1(grid: seq<string>) returns (accessible: nat)
    requires Rectangular(grid)
    ensures accessible == AccessibleCount(Board(grid), |Board(grid).cells|)
  {
    ghost var g := Board(grid);
    var rows := |grid|;
    var cols := |grid[0]|;
    accessible := 0;
    for row := 0 to rows
      invariant RowStart(row, cols) <= |g.cells|
      invariant accessible == AccessibleCount(g, RowStart(row, cols))
    {
      for col := 0 to cols
        invariant RowStart(row, cols) + col <= |g.cells|
        invariant accessible == AccessibleCount(g, RowStart(row, cols) + col)
      {
        AccessibleCountStep(g, row, col);
        BoardRoll(grid, row, col);
        if grid[row][col] == ROLL {
          var adjacentCount := CountAdjacentRolls(grid, row, col);
          if adjacentCount < CROWD {
            accessible := accessible + 1;
          }
        }
      }
      RowStartNext(row, cols);
    }
  }

  /** The accessible cells of the grid in row-major order: one naive scan. */
  method NaiveScan(grid: seq<string>) returns (toRemove: seq<(nat, nat)>)
    requires Rectangular(grid)
    ensures forall r: nat, c: nat :: (r, c) in toRemove <==> AccessibleCell(Board(grid), r, c)
    ensures forall a, b :: 0 <= a < b < |toRemove| ==> toRemove[a] != toRemove[b]
  {
    ghost var g := Board(grid);
    var rows := |grid|;
    var cols := |grid[0]|;
    toRemove := [];
    for row := 0 to rows
      invariant forall r: nat, c: nat :: (r, c) in toRemove <==> AccessibleCell(g, r, c) && r < row
      invariant forall a, b :: 0 <= a < b < |toRemove| ==> toRemove[a] != toRemove[b]
    {
      for col := 0 to cols
        invariant forall r: nat, c: nat :: (r, c) in toRemove <==>
                    AccessibleCell(g, r, c) && (r < row || (r == row && c < col))
        invariant forall a, b :: 0 <= a < b < |toRemove| ==> toRemove[a] != toRemove[b]
      {
        BoardRoll(grid, row, col);
        if grid[row][col] == ROLL {
          var adjacentCount := CountAdjacentRolls(grid, row, col);
          if adjacentCount < CROWD {
            toRemove := toRemove + [(row, col)];
          }
        }
      }
    }
  }

  /** Every listed cell overwritten with '.', one after another. */
  method NaiveRemove(grid: seq<string>, toRemove: seq<(nat, nat)>) returns (grid': seq<string>)
    requires Rectangular(grid)
    requires forall k :: 0 <= k < |toRemove| ==>
               toRemove[k].0 < |grid| && toRemove[k].1 < |grid[0]| && grid[toRemove[k].0][toRemove[k].1] == ROLL
    requires forall a, b :: 0 <= a < b < |toRemove| ==> toRemove[a] != toRemove[b]
    ensures Rectangular(grid') && |grid'| == |grid| && |grid'[0]| == |grid[0]|
    ensures Overwritten(grid, grid', toRemove)
    ensures Rolls(Flatten(grid')) + |toRemove| == Rolls(Flatten(grid))
  {
    var cols := |grid[0]|;
    grid' := grid;
    for k := 0 to |toRemove|
      invariant Rectangular(grid') && |grid'| == |grid| && |grid'[0]| == cols
      invariant Overwritten(grid, grid', toRemove[..k])
      invariant Rolls(Flatten(grid')) + k == Rolls(Flatten(grid))
    {
      var (row, col) := toRemove[k];
      assert (row, col) !in toRemove[..k];
      ghost var before := grid';
      grid' := grid'[row := grid'[row][col := EMPTY]];
      RemoveCellStep(before, grid', row, col);
      TakeNext(toRemove, k);
      OverwrittenStep(grid, before, grid', toRemove[..k], row, col);
    }
    assert toRemove[..|toRemove|] == toRemove;
  }

  /** `now` is `orig` with exactly the listed cells overwritten by '.'. */
  predicate Overwritten(orig: seq<string>, now: seq<string>, cells: seq<(nat, nat)>)
    requires Rectangular(orig) && Rectangular(now) && |now| == |orig| && |now[0]| == |orig[0]|
  {
    forall r, c :: 0 <= r < |orig| && 0 <= c < |orig[0]| ==>
      now[r][c] == if (r, c) in cells then EMPTY else orig[r][c]
  }

  lemma OverwrittenStep(orig: seq<string>, before: seq<string>, after: seq<string>,
                        cells: seq<(nat, nat)>, row: nat, col: nat)
    requires Rectangular(orig) && Rectangular(before) && Rectangular(after)
    requires |before| == |after| == |orig| && |before[0]| == |after[0]| == |orig[0]|
    requires row < |orig| && col < |orig[0]|
    requires after == before[row := before[row][col := EMPTY]]
    requires Overwritten(orig, before, cells)
    ensures Overwritten(orig, after, cells + [(row, col)])
  {
  }

  /** Overwriting one roll of a grid of lines with '.'. */
  lemma RemoveCellStep(before: seq<string>, after: seq<string>, row: nat, col: nat)
    requires Rectangular(before) && row < |before| && col < |before[0]| && before[row][col] == ROLL
    requires after == before[row := before[row][col := EMPTY]]
    ensures Rectangular(after) && |after| == |before| && |after[0]| == |before[0]|
    ensures Rolls(Flatten(after)) + 1 == Rolls(Flatten(before))
  {
    var cols := |before[0]|;
    FlattenUpdate(before, cols, row, col, EMPTY);
    FlattenIndex(before, cols, row, col);
    RollsRemove(Flatten(before), RowStart(row, cols) + col);
  }

  /** A scan followed by its removals is one naive round. */
  lemma NaiveRound(grid: seq<string>, toRemove: seq<(nat, nat)>, grid': seq<string>)
    requires Rectangular(grid) && Rectangular(grid') && |grid'| == |grid| && |grid'[0]| == |grid[0]|
    requires forall r: nat, c: nat :: (r, c) in toRemove <==> AccessibleCell(Board(grid), r, c)
    requires Overwritten(grid, grid', toRemove)
    ensures Board(grid') == Round(Board(grid))
  {
    var g, g' := Board(grid), Board(grid');
    forall i | 0 <= i < |g.cells|
      ensures g'.cells[i] == Round(g).cells[i]
    {
      IndexCell(i, g.rows, g.cols);
      var r, c := i / g.cols, i % g.cols;
      FlattenIndex(grid, g.cols, r, c);
      FlattenIndex(grid', g.cols, r, c);
      AccessibleIndex(g, i);
    }
  }

  /** `Day04Naive::part2`: whole rounds until a scan finds nothing. */
  method NaivePart2(input: seq<string>) returns (total: nat)
    requires Rectangular(input)
    ensures total == Removable(Board(input))
  {
    var grid := input;
    total := 0;
    PeelShape(Board(input));
    while true
      invariant Rectangular(grid) && |grid| == |input| && |grid[0]| == |input[0]|
      invariant Peel(Board(grid)) == Peel(Board(input))
      invariant total + Rolls(Flatten(grid)) == Rolls(Flatten(input))
      decreases Rolls(Flatten(grid))
    {
      var toRemove := NaiveScan(grid);
      if |toRemove| == 0 {
        NoAccessibleCellStable(Board(grid));
        break;
      }
      assert AccessibleCell(Board(grid), toRemove[0].0, toRemove[0].1);
      forall k | 0 <= k < |toRemove|
        ensures toRemove[k].0 < |grid| && toRemove[k].1 < |grid[0]| && grid[toRemove[k].0][toRemove[k].1] == ROLL
      {
        BoardRoll(grid, toRemove[k].0, toRemove[k].1);
      }
      var grid' := NaiveRemove(grid, toRemove);
      NaiveRound(grid, toRemove, grid');
      assert !Stable(Board(grid)) by {
        var (r, c) := toRemove[0];
        AccessibleAtCell(Board(grid), r, c);
      }
      grid := grid';
      total := total + |toRemove|;
    }
  }

  // ---------------------------------------------------------------------
  // Flat grids: the bytes of the input in one array
  // ---------------------------------------------------------------------

  /** The cell `dr` rows and `dc` columns away from (row, col), by flat index. */
  lemma RollOffset(g: Grid, row: nat, col: nat, idx: nat, dr: int, dc: int)
    requires g.Valid() && row < g.rows && col < g.cols && idx == RowStart(row, g.cols) + col
    requires -1 <= dr <= 1 && -1 <= dc <= 1
    ensures Roll(g, row + dr, col + dc) <==>
              0 <= row + dr < g.rows && 0 <= col + dc < g.cols &&
              0 <= idx + dr * g.cols + dc < |g.cells| && g.cells[idx + dr * g.cols + dc] == ROLL
  {
    if 0 <= row + dr < g.rows && 0 <= col + dc < g.cols {
      if dr == -1 {
        RowStartNext(row - 1, g.cols);
      } else if dr == 1 {
        RowStartNext(row, g.cols);
      }
      assert RowStart(row + dr, g.cols) + col + dc == idx + dr * g.cols + dc;
      CellInside(row + dr, col + dc, g.rows, g.cols);
    }
  }

  /** The three cells above (row, col) by flat index, and the room above `idx`. */
  lemma AboveRolls(g: Grid, row: nat, col: nat, idx: nat)
    requires g.Valid() && row < g.rows && col < g.cols && idx == RowStart(row, g.cols) + col
    ensures row > 0 ==> idx >= g.cols + col && idx + (g.cols - 1 - col) < |g.cells|
    ensures Roll(g, row - 1, col - 1) <==> row > 0 && col > 0 && g.cells[idx - g.cols - 1] == ROLL
    ensures Roll(g, row - 1, col) <==> row > 0 && g.cells[idx - g.cols] == ROLL
    ensures Roll(g, row - 1, col + 1) <==> row > 0 && col < g.cols - 1 && g.cells[idx - g.cols + 1] == ROLL
  {
    if row > 0 {
      RowStartNext(row - 1, g.cols);
      CellInside(row, g.cols - 1, g.rows, g.cols);
    }
    RollOffset(g, row, col, idx, -1, -1);
    RollOffset(g, row, col, idx, -1, 0);
    RollOffset(g, row, col, idx, -1, 1);
  }

  /** The two cells beside (row, col) by flat index. */
  lemma BesideRolls(g: Grid, row: nat, col: nat, idx: nat)
    requires g.Valid() && row < g.rows && col < g.cols && idx == RowStart(row, g.cols) + col
    ensures idx + (g.cols - 1 - col) < |g.cells|
    ensures Roll(g, row, col - 1) <==> col > 0 && g.cells[idx - 1] == ROLL
    ensures Roll(g, row, col + 1) <==> col < g.cols - 1 && g.cells[idx + 1] == ROLL
  {
    CellInside(row, g.cols - 1, g.rows, g.cols);
    RollOffset(g, row, col, idx, 0, -1);
    RollOffset(g, row, col, idx, 0, 1);
  }

  /** The three cells below (row, col) by flat index, and the room below `idx`. */
  lemma BelowRolls(g: Grid, row: nat, col: nat, idx: nat)
    requires g.Valid() && row < g.rows && col < g.cols && idx == RowStart(row, g.cols) + col
    ensures row < g.rows - 1 ==> idx + g.cols + (g.cols - 1 - col) < |g.cells|
    ensures Roll(g, row + 1, col - 1) <==> row < g.rows - 1 && col > 0 && g.cells[idx + g.cols - 1] == ROLL
    ensures Roll(g, row + 1, col) <==> row < g.rows - 1 && g.cells[idx + g.cols] == ROLL
    ensures Roll(g, row + 1, col + 1) <==> row < g.rows - 1 && col < g.cols - 1 && g.cells[idx + g.cols + 1] == ROLL
  {
    if row < g.rows - 1 {
      RowStartNext(row, g.cols);
      CellInside(row + 1, g.cols - 1, g.rows, g.cols);
    }
    RollOffset(g, row, col, idx, 1, -1);
    RollOffset(g, row, col, idx, 1, 0);
    RollOffset(g, row, col, idx, 1, 1);
  }

  /**
   * `count_adjacent` of the flat grids, unrolled as the source writes it:
   * the rolls among the cells around `idx`.
   */
  method CountAround(data: array<char>, rows: nat, cols: nat, idx: nat) returns (count: nat)
    requires data.Length == RowStart(rows, cols) && idx < data.Length
    ensures count == AdjacentAt(Grid(data[..], rows, cols), idx)
  {
    ghost var g := Grid(data[..], rows, cols);
    IndexCell(idx, rows, cols);
    var row := idx / cols;
    var col := idx % cols;
    count := 0;
    AboveRolls(g, row, col, idx);
    if row > 0 {
      var above := idx - cols;
      if col > 0 && data[above - 1] == ROLL { count := count + 1; }
      if data[above] == ROLL { count := count + 1; }
      if col < cols - 1 && data[above + 1] == ROLL { count := count + 1; }
    }
    assert count == Count(Roll(g, row - 1, col - 1)) + Count(Roll(g, row - 1, col)) + Count(Roll(g, row - 1, col + 1));
    ghost var top := count;
    BesideRolls(g, row, col, idx);
    if col > 0 && data[idx - 1] == ROLL { count := count + 1; }
    if col < cols - 1 && data[idx + 1] == ROLL { count := count + 1; }
    assert count == top + Count(Roll(g, row, col - 1)) + Count(Roll(g, row, col + 1));
    ghost var middle := count;
    BelowRolls(g, row, col, idx);
    if row < rows - 1 {
      var below := idx + cols;
      if col > 0 && data[below - 1] == ROLL { count := count + 1; }
      if data[below] == ROLL { count := count + 1; }
      if col < cols - 1 && data[below + 1] == ROLL { count := count + 1; }
    }
    assert count == middle + Count(Roll(g, row + 1, col - 1)) + Count(Roll(g, row + 1, col)) + Count(Roll(g, row + 1, col + 1));
    assert count == Adjacent(g, row, col);
  }

  /** `Near` is symmetric. */
  lemma NearSymmetric(cols: nat, i: nat, j: nat)
    requires cols > 0
    ensures Near(cols, i, j) <==> Near(cols, j, i)
  {
  }

  /** The flat grid of the dirty-tracking solver: the input's bytes without its newlines. */
  class FlatGrid {
    const data: array<char>
    const rows: nat
    const cols: nat

    ghost predicate Valid()
      reads this
    {
      data.Length == RowStart(rows, cols)
    }

    /** The grid the array holds now. */
    function Value(): (g: Grid)
      reads this, data
      requires Valid()
      ensures g.Valid() && g.rows == rows && g.cols == cols && g.cells == data[..]
    {
      Grid(data[..], rows, cols)
    }

    /** `Grid::parse`: the lines, concatenated. */
    constructor Parse(lines: seq<string>)
      requires Rectangular(lines)
      ensures Valid() && Value() == Board(lines) && fresh(data)
    {
      var cells := Flatten(lines);
      FlattenLength(lines, |lines[0]|);
      rows := |lines|;
      cols := |lines[0]|;
      data := new char[|cells|](k requires 0 <= k < |cells| => cells[k]);
    }

    /** `Grid::count_adjacent`: the rolls around `idx`. */
    method CountAdjacent(idx: nat) returns (count: nat)
      requires Valid() && idx < data.Length
      ensures count == AdjacentAt(Value(), idx)
    {
      count := CountAround(data, rows, cols, idx);
    }
  }

  /** The room around `idx` = (row, col) that the neighbour offsets need. */
  lemma AroundIndices(rows: nat, cols: nat, row: nat, col: nat, idx: nat)
    requires row < rows && col < cols && idx == RowStart(row, cols) + col
    ensures row > 0 ==> idx >= cols + col
    ensures idx + (cols - 1 - col) < RowStart(rows, cols)
    ensures row < rows - 1 ==> idx + cols + (cols - 1 - col) < RowStart(rows, cols)
  {
    if row > 0 {
      RowStartNext(row - 1, cols);
    }
    CellInside(row, cols - 1, rows, cols);
    if row < rows - 1 {
      RowStartNext(row, cols);
      CellInside(row + 1, cols - 1, rows, cols);
    }
  }

  predicate Increasing(s: seq<nat>) {
    forall a, b :: 0 <= a < b < |s| ==> s[a] < s[b]
  }

  /** Increasing sequences whose values are in order across the seam concatenate to one. */
  lemma IncreasingAppend(a: seq<nat>, b: seq<nat>)
    requires Increasing(a) && Increasing(b)
    requires forall x, y :: x in a && y in b ==> x < y
    ensures Increasing(a + b)
  {
    forall i, j | 0 <= i < j < |a + b|
      ensures (a + b)[i] < (a + b)[j]
    {
      if j >= |a| && i < |a| {
        assert a[i] in a && b[j - |a|] in b;
      }
    }
  }

  /** The neighbours in the row above `idx` = (row, col), left to right. */
  function AboveOffsets(cols: nat, row: nat, col: nat, idx: nat): (s: seq<nat>)
    requires col < cols && (row > 0 ==> idx >= cols + col)
    ensures |s| <= 3 && Increasing(s)
    ensures forall j: nat :: j in s <==>
              (row > 0 && col > 0 && j == idx - cols - 1) || (row > 0 && j == idx - cols) ||
              (row > 0 && col < cols - 1 && j == idx - cols + 1)
  {
    if row == 0 then []
    else if col > 0 && col < cols - 1 then [idx - cols - 1, idx - cols, idx - cols + 1]
    else if col > 0 then [idx - cols - 1, idx - cols]
    else if col < cols - 1 then [idx - cols, idx - cols + 1]
    else [idx - cols]
  }

  /** The neighbours left and right of `idx` = (row, col). */
  function BesideOffsets(cols: nat, col: nat, idx: nat): (s: seq<nat>)
    requires col < cols && idx >= col
    ensures |s| <= 2 && Increasing(s)
    ensures forall j: nat :: j in s <==> (col > 0 && j == idx - 1) || (col < cols - 1 && j == idx + 1)
  {
    if col > 0 && col < cols - 1 then [idx - 1, idx + 1]
    else if col > 0 then [idx - 1]
    else if col < cols - 1 then [idx + 1]
    else []
  }

  /** The neighbours in the row below `idx` = (row, col), left to right. */
  function BelowOffsets(rows: nat, cols: nat, row: nat, col: nat, idx: nat): (s: seq<nat>)
    requires col < cols && idx >= col
    ensures |s| <= 3 && Increasing(s)
    ensures forall j: nat :: j in s <==>
              (row < rows - 1 && col > 0 && j == idx + cols - 1) || (row < rows - 1 && j == idx + cols) ||
              (row < rows - 1 && col < cols - 1 && j == idx + cols + 1)
  {
    if row >= rows - 1 then []
    else if col > 0 && col < cols - 1 then [idx + cols - 1, idx + cols, idx + cols + 1]
    else if col > 0 then [idx + cols - 1, idx + cols]
    else if col < cols - 1 then [idx + cols, idx + cols + 1]
    else [idx + cols]
  }

  /**
   * `neighbors` of both flat grids: the cells touching `idx`, the row
   * above first, each row left to right.
   */
  function NeighbourIndices(rows: nat, cols: nat, idx: nat): (nbrs: seq<nat>)
    requires idx < RowStart(rows, cols)
    ensures |nbrs| <= 8
  {
    IndexCell(idx, rows, cols);
    var row, col := idx / cols, idx % cols;
    AroundIndices(rows, cols, row, col, idx);
    AboveOffsets(cols, row, col, idx) + BesideOffsets(cols, col, idx) + BelowOffsets(rows, cols, row, col, idx)
  }

  /** The neighbour list holds exactly the cells near `idx`, each once, in increasing order. */
  lemma NeighbourIndicesNear(rows: nat, cols: nat, idx: nat)
    requires idx < RowStart(rows, cols)
    ensures cols > 0 && Increasing(NeighbourIndices(rows, cols, idx))
    ensures forall j: nat :: j in NeighbourIndices(rows, cols, idx) <==> j < RowStart(rows, cols) && Near(cols, idx, j)
  {
    IndexCell(idx, rows, cols);
    var row, col := idx / cols, idx % cols;
    AroundIndices(rows, cols, row, col, idx);
    var a, b, c := AboveOffsets(cols, row, col, idx), BesideOffsets(cols, col, idx),
                   BelowOffsets(rows, cols, row, col, idx);
    OffsetsIncreasing(rows, cols, row, col, idx);
    OffsetsMembers(rows, cols, row, col, idx, a + b + c);
  }

  lemma OffsetsIncreasing(rows: nat, cols: nat, row: nat, col: nat, idx: nat)
    requires col < cols && idx >= col && (row > 0 ==> idx >= cols + col)
    ensures Increasing(AboveOffsets(cols, row, col, idx) + BesideOffsets(cols, col, idx)
                       + BelowOffsets(rows, cols, row, col, idx))
  {
    var a, b, c := AboveOffsets(cols, row, col, idx), BesideOffsets(cols, col, idx),
                   BelowOffsets(rows, cols, row, col, idx);
    IncreasingAppend(a, b);
    IncreasingAppend(a + b, c);
  }

  lemma OffsetsMembers(rows: nat, cols: nat, row: nat, col: nat, idx: nat, s: seq<nat>)
    requires row < rows && col < cols && idx == RowStart(row, cols) + col
    requires row > 0 ==> idx >= cols + col
    requires row < rows - 1 ==> idx + cols + (cols - 1 - col) < RowStart(rows, cols)
    requires idx + (cols - 1 - col) < RowStart(rows, cols)
    requires forall j: nat :: j in s <==>
               (row > 0 && col > 0 && j == idx - cols - 1) || (row > 0 && j == idx - cols) ||
               (row > 0 && col < cols - 1 && j == idx - cols + 1) ||
               (col > 0 && j == idx - 1) || (col < cols - 1 && j == idx + 1) ||
               (row < rows - 1 && col > 0 && j == idx + cols - 1) || (row < rows - 1 && j == idx + cols) ||
               (row < rows - 1 && col < cols - 1 && j == idx + cols + 1)
    ensures cols > 0
    ensures forall j: nat :: j in s <==> j < RowStart(rows, cols) && Near(cols, idx, j)
  {
    CellRowColumn(row, col, cols);
    forall j: nat | j < RowStart(rows, cols)
      ensures j in s <==> Near(cols, idx, j)
    {
      NearOffsets(rows, cols, idx, j);
    }
  }

  // ---------------------------------------------------------------------
  // The dirty-tracking solver
  // ---------------------------------------------------------------------

  /** `Day04DirtyTracking::part1`, which `Day04::part1` repeats: a filter over the flat indices. */
  method FlatPart1(lines: seq<string>) returns (accessible: nat)
    requires Rectangular(lines)
    ensures accessible == AccessibleCount(Board(lines), |Board(lines).cells|)
  {
    var grid := new FlatGrid.Parse(lines);
    ghost var g := Board(lines);
    accessible := 0;
    for idx := 0 to grid.data.Length
      invariant grid.Value() == g
      invariant accessible == AccessibleCount(g, idx)
    {
      if grid.data[idx] == ROLL {
        var count := grid.CountAdjacent(idx);
        if count < CROWD {
          accessible := accessible + 1;
        }
      }
    }
  }

  predicate Distinct(s: seq<nat>) {
    forall a, b :: 0 <= a < b < |s| ==> s[a] != s[b]
  }

  /**
   * One round's scan of the candidates: when every accessible roll is a
   * candidate, the scan finds exactly the accessible rolls.
   */
  method Collect(grid: FlatGrid, toCheck: set<nat>) returns (accessible: seq<nat>)
    requires grid.Valid()
    requires forall i :: i in toCheck ==> i < grid.data.Length
    requires forall i: nat :: i < grid.data.Length && Accessible(grid.Value(), i) ==> i in toCheck
    ensures forall i: nat :: i in accessible <==> i < grid.data.Length && Accessible(grid.Value(), i)
    ensures Distinct(accessible)
  {
    accessible := [];
    var rest := toCheck;
    while rest != {}
      invariant rest <= toCheck
      invariant forall i: nat :: i in accessible <==> i in toCheck && i !in rest && Accessible(grid.Value(), i)
      invariant Distinct(accessible)
      decreases |rest|
    {
      var idx :| idx in rest;
      rest := rest - {idx};
      if grid.data[idx] == ROLL {
        var count := grid.CountAdjacent(idx);
        if count < CROWD {
          accessible := accessible + [idx];
        }
      }
    }
  }

  /** `now` is `before` with exactly the listed cells emptied. */
  predicate Emptied(before: seq<char>, now: seq<char>, cells: seq<nat>) {
    |now| == |before| && forall i :: 0 <= i < |before| ==> now[i] == if i in cells then EMPTY else before[i]
  }

  lemma EmptiedStep(before: seq<char>, was: seq<char>, now: seq<char>, cells: seq<nat>, idx: nat)
    requires Emptied(before, was, cells) && idx < |was| && now == was[idx := EMPTY]
    ensures Emptied(before, now, cells + [idx])
  {
  }

  /**
   * Every roll of `before` that is near one of the first `k` removed cells
   * and is not removed itself has been marked.
   */
  predicate MarkedUpTo(before: seq<char>, cols: nat, removed: seq<nat>, k: nat, marked: set<nat>)
    requires k <= |removed|
  {
    forall m, j: nat ::
      (0 <= m < k && j < |before| && cols > 0 && Near(cols, removed[m], j) && j !in removed && before[j] == ROLL)
      ==> j in marked
  }

  lemma MarkStep(before: seq<char>, now: seq<char>, cols: nat, removed: seq<nat>, k: nat,
                 marked: set<nat>, marked': set<nat>)
    requires k < |removed|
    requires MarkedUpTo(before, cols, removed, k, marked) && marked <= marked'
    requires Emptied(before, now, removed[..k + 1])
    requires forall j: nat :: j < |now| && cols > 0 && Near(cols, removed[k], j) && now[j] == ROLL ==> j in marked'
    ensures MarkedUpTo(before, cols, removed, k + 1, marked')
  {
    forall m, j: nat | (0 <= m < k + 1 && j < |before| && cols > 0 && Near(cols, removed[m], j) &&
                        j !in removed && before[j] == ROLL)
      ensures j in marked'
    {
      if m == k {
        assert j !in removed[..k + 1];
      }
    }
  }

  /** `after` is `marked` plus the rolls of `cells` listed in `nbrs`. */
  ghost predicate MarksAmong(marked: set<nat>, nbrs: seq<nat>, cells: seq<char>, after: set<nat>) {
    forall j: nat :: j in after <==> j in marked || (j in nbrs && j < |cells| && cells[j] == ROLL)
  }

  lemma MarkNeighbour(marked: set<nat>, nbrs: seq<nat>, t: nat, cells: seq<char>, before: set<nat>, after: set<nat>)
    requires t < |nbrs| && MarksAmong(marked, nbrs[..t], cells, before)
    requires after == if nbrs[t] < |cells| && cells[nbrs[t]] == ROLL then before + {nbrs[t]} else before
    ensures MarksAmong(marked, nbrs[..t + 1], cells, after)
  {
    TakeNext(nbrs, t);
  }

  /** The rolls around `idx` added to the cells marked for the next round. */
  method MarkRolls(grid: FlatGrid, idx: nat, marked: set<nat>) returns (after: set<nat>)
    requires grid.Valid() && idx < grid.data.Length
    ensures forall j: nat :: j in after <==>
              j in marked || (j < grid.data.Length && grid.cols > 0 && Near(grid.cols, idx, j) && grid.data[j] == ROLL)
  {
    var nbrs := NeighbourIndices(grid.rows, grid.cols, idx);
    NeighboursInside(grid.rows, grid.cols, idx);
    after := MarkEach(grid, nbrs, marked);
    MarksAround(grid.rows, grid.cols, idx, nbrs, marked, grid.data[..], after);
  }

  /** The loop over a neighbour list: each listed cell holding a roll is marked. */
  method MarkEach(grid: FlatGrid, nbrs: seq<nat>, marked: set<nat>) returns (after: set<nat>)
    requires forall t :: 0 <= t < |nbrs| ==> nbrs[t] < grid.data.Length
    ensures MarksAmong(marked, nbrs, grid.data[..], after)
  {
    after := marked;
    for t := 0 to |nbrs|
      invariant MarksAmong(marked, nbrs[..t], grid.data[..], after)
    {
      ghost var was := after;
      if grid.data[nbrs[t]] == ROLL {
        after := after + {nbrs[t]};
      }
      MarkNeighbour(marked, nbrs, t, grid.data[..], was, after);
    }
    assert nbrs[..|nbrs|] == nbrs;
  }

  /** Every listed neighbour lies inside the grid. */
  lemma NeighboursInside(rows: nat, cols: nat, idx: nat)
    requires idx < RowStart(rows, cols)
    ensures forall t :: 0 <= t < |NeighbourIndices(rows, cols, idx)| ==> NeighbourIndices(rows, cols, idx)[t] < RowStart(rows, cols)
  {
    var nbrs := NeighbourIndices(rows, cols, idx);
    NeighbourIndicesNear(rows, cols, idx);
    assert forall t :: 0 <= t < |nbrs| ==> nbrs[t] in nbrs;
  }

  /** Marks taken over the whole neighbour list are marks of the rolls near `idx`. */
  lemma MarksAround(rows: nat, cols: nat, idx: nat, nbrs: seq<nat>, marked: set<nat>, cells: seq<char>, after: set<nat>)
    requires idx < RowStart(rows, cols) && |cells| == RowStart(rows, cols)
    requires nbrs == NeighbourIndices(rows, cols, idx) && MarksAmong(marked, nbrs, cells, after)
    ensures forall j: nat :: j in after <==>
              j in marked || (j < |cells| && cols > 0 && Near(cols, idx, j) && cells[j] == ROLL)
  {
    NeighbourIndicesNear(rows, cols, idx);
  }

  /**
   * The removal half of a dirty-tracking round: the listed rolls are
   * emptied one by one, and the rolls around each are marked for the
   * next round.
   */
  method Clear(grid: FlatGrid, accessible: seq<nat>) returns (nextCheck: set<nat>)
    requires grid.Valid() && Distinct(accessible)
    requires forall k :: 0 <= k < |accessible| ==> accessible[k] < grid.data.Length && grid.data[accessible[k]] == ROLL
    modifies grid.data
    ensures Emptied(old(grid.data[..]), grid.data[..], accessible)
    ensures Rolls(grid.data[..]) + |accessible| == Rolls(old(grid.data[..]))
    ensures forall j :: j in nextCheck ==> j < grid.data.Length
    ensures MarkedUpTo(old(grid.data[..]), grid.cols, accessible, |accessible|, nextCheck)
  {
    ghost var before := grid.data[..];
    nextCheck := {};
    for k := 0 to |accessible|
      invariant Emptied(before, grid.data[..], accessible[..k])
      invariant Rolls(grid.data[..]) + k == Rolls(before)
      invariant forall j :: j in nextCheck ==> j < grid.data.Length
      invariant MarkedUpTo(before, grid.cols, accessible, k, nextCheck)
    {
      var idx := accessible[k];
      assert idx !in accessible[..k];
      ghost var was := grid.data[..];
      grid.data[idx] := EMPTY;
      RollsRemove(was, idx);
      EmptiedStep(before, was, grid.data[..], accessible[..k], idx);
      TakeNext(accessible, k);
      ghost var marked := nextCheck;
      nextCheck := MarkRolls(grid, idx, nextCheck);
      MarkStep(before, grid.data[..], grid.cols, accessible, k, marked, nextCheck);
    }
    assert accessible[..|accessible|] == accessible;
  }

  /** Emptying exactly the accessible rolls is one round. */
  lemma EmptiedIsRound(before: Grid, after: Grid, removed: seq<nat>)
    requires before.Valid() && after.rows == before.rows && after.cols == before.cols
    requires forall i: nat :: i in removed <==> i < |before.cells| && Accessible(before, i)
    requires Emptied(before.cells, after.cells, removed)
    ensures after == Round(before)
  {
    assert after.cells == Round(before).cells;
  }

  /**
   * After a round, an unmarked cell is not accessible: its neighbourhood
   * lost no roll, so it is exactly as crowded as before the round.
   */
  lemma MarkedCovers(before: Grid, after: Grid, removed: seq<nat>, marked: set<nat>)
    requires before.Valid() && after == Round(before)
    requires forall i: nat :: i in removed <==> i < |before.cells| && Accessible(before, i)
    requires Emptied(before.cells, after.cells, removed)
    requires MarkedUpTo(before.cells, before.cols, removed, |removed|, marked)
    ensures forall i: nat :: i < |after.cells| && i !in marked ==> !Accessible(after, i)
  {
    forall i: nat | i < |after.cells| && i !in marked
      ensures !Accessible(after, i)
    {
      UnmarkedCell(before, after, removed, marked, i);
    }
  }

  lemma UnmarkedCell(before: Grid, after: Grid, removed: seq<nat>, marked: set<nat>, i: nat)
    requires before.Valid() && after == Round(before)
    requires forall i: nat :: i in removed <==> i < |before.cells| && Accessible(before, i)
    requires Emptied(before.cells, after.cells, removed)
    requires MarkedUpTo(before.cells, before.cols, removed, |removed|, marked)
    requires i < |after.cells| && i !in marked
    ensures !Accessible(after, i)
  {
    if after.cells[i] == ROLL {
      IndexCell(i, before.rows, before.cols);
      var cols := before.cols;
      forall m | 0 <= m < |removed|
        ensures !Near(cols, removed[m], i)
      {
      }
      forall j: nat | j < |before.cells| && Near(cols, i, j)
        ensures before.cells[j] == ROLL <==> after.cells[j] == ROLL
      {
        NearSymmetric(cols, i, j);
      }
      AdjacentFrame(before, after, i);
    }
  }

  /**
   * `Day04DirtyTracking::part2`: rounds over a candidate set; after the
   * first round only the rolls around the last removals are candidates.
   */
  method DirtyPart2(lines: seq<string>) returns (total: nat)
    requires Rectangular(lines)
    ensures total == Removable(Board(lines))
  {
    var grid := new FlatGrid.Parse(lines);
    ghost var init := grid.Value();
    total := 0;
    var toCheck: set<nat> := set idx: nat | idx < grid.data.Length && grid.data[idx] == ROLL;
    while true
      invariant grid.Valid() && grid.rows == init.rows && grid.cols == init.cols
      invariant Peel(grid.Value()) == Peel(init)
      invariant total + Rolls(grid.data[..]) == Rolls(init.cells)
      invariant forall i :: i in toCheck ==> i < grid.data.Length
      invariant forall i: nat :: i < grid.data.Length && Accessible(grid.Value(), i) ==> i in toCheck
      decreases Rolls(grid.data[..])
    {
      var accessible := Collect(grid, toCheck);
      if |accessible| == 0 {
        assert Stable(grid.Value()) by {
          forall i: nat | i < grid.data.Length
            ensures !Accessible(grid.Value(), i)
          {
            assert i !in accessible;
          }
        }
        PeeledTotal(init, grid.Value(), total);
        break;
      }
      ghost var before := grid.Value();
      assert !Stable(before) by {
        assert accessible[0] in accessible;
      }
      forall k | 0 <= k < |accessible|
        ensures accessible[k] < grid.data.Length && grid.data[accessible[k]] == ROLL
      {
        assert accessible[k] in accessible;
      }
      var nextCheck := Clear(grid, accessible);
      EmptiedIsRound(before, grid.Value(), accessible);
      MarkedCovers(before, grid.Value(), accessible, nextCheck);
      total := total + |accessible|;
      toCheck := nextCheck;
    }
  }

  /** A loop that has reached a stable grid with the same peel has removed exactly the removable rolls. */
  lemma PeeledTotal(init: Grid, g: Grid, total: nat)
    requires init.Valid() && g.Valid() && Stable(g) && Peel(g) == Peel(init)
    requires total + Rolls(g.cells) == Rolls(init.cells)
    ensures total == Removable(init)
  {
  }

  // ---------------------------------------------------------------------
  // The solver with cached neighbour counts
  // ---------------------------------------------------------------------

  /** Every roll's count is the number of rolls touching it. */
  predicate CountsAccurate(g: Grid, counts: seq<nat>)
    requires g.Valid() && |counts| == |g.cells|
  {
    forall i :: 0 <= i < |g.cells| && g.cells[i] == ROLL ==> counts[i] == AdjacentAt(g, i)
  }

  /** `GridWithCounts`: the flat grid, and for each roll the number of rolls touching it. */
  class CountedGrid {
    const data: array<char>
    const counts: array<nat>
    const rows: nat
    const cols: nat

    ghost predicate Valid()
      reads this
    {
      data.Length == RowStart(rows, cols) && counts.Length == data.Length
    }

    /** The grid the array holds now. */
    function Value(): (g: Grid)
      reads this, data
      requires Valid()
      ensures g.Valid() && g.rows == rows && g.cols == cols && g.cells == data[..]
    {
      Grid(data[..], rows, cols)
    }

    /** `GridWithCounts::parse`: the lines concatenated, and every roll's neighbours counted. */
    constructor Parse(lines: seq<string>)
      requires Rectangular(lines)
      ensures Valid() && Value() == Board(lines) && fresh(data) && fresh(counts)
      ensures CountsAccurate(Value(), counts[..])
      ensures forall i :: 0 <= i < data.Length && data[i] != ROLL ==> counts[i] == 0
    {
      var cells := Flatten(lines);
      FlattenLength(lines, |lines[0]|);
      var r, c := |lines|, |lines[0]|;
      var d := new char[|cells|](k requires 0 <= k < |cells| => cells[k]);
      var n := CountRolls(d, r, c);
      data, counts, rows, cols := d, n, r, c;
    }
  }

  /** The counting loop of `GridWithCounts::parse`: each roll's neighbours, zero elsewhere. */
  method CountRolls(data: array<char>, rows: nat, cols: nat) returns (counts: array<nat>)
    requires data.Length == RowStart(rows, cols)
    ensures fresh(counts) && counts.Length == data.Length
    ensures forall i :: 0 <= i < data.Length ==>
              counts[i] == if data[i] == ROLL then AdjacentAt(Grid(data[..], rows, cols), i) else 0
  {
    counts := new nat[data.Length](k => 0);
    for idx := 0 to data.Length
      invariant forall i :: 0 <= i < idx ==> counts[i] == if data[i] == ROLL then AdjacentAt(Grid(data[..], rows, cols), i) else 0
      invariant forall i :: idx <= i < data.Length ==> counts[i] == 0
    {
      if data[idx] == ROLL {
        var count := CountAround(data, rows, cols, idx);
        counts[idx] := count;
      }
    }
  }

  /**
   * `GridWithCounts::neighbors`: the neighbour list in a fixed array of
   * eight slots, unused slots `None`.
   */
  function NeighbourSlots(rows: nat, cols: nat, idx: nat): (slots: seq<Option<nat>>)
    requires idx < RowStart(rows, cols)
    ensures |slots| == 8
  {
    var nbrs := NeighbourIndices(rows, cols, idx);
    seq(8, t requires 0 <= t < 8 => if t < |nbrs| then Some(nbrs[t]) else None)
  }

  /** The `Some` slots are exactly the neighbour list, in order, followed by `None`s only. */
  lemma NeighbourSlotsFilled(rows: nat, cols: nat, idx: nat)
    requires idx < RowStart(rows, cols)
    ensures forall t :: 0 <= t < 8 ==>
              (NeighbourSlots(rows, cols, idx)[t].Some? <==> t < |NeighbourIndices(rows, cols, idx)|)
    ensures forall t :: 0 <= t < |NeighbourIndices(rows, cols, idx)| ==>
              NeighbourSlots(rows, cols, idx)[t] == Some(NeighbourIndices(rows, cols, idx)[t])
  {
  }

  /**
   * Removing a roll lowers by one the count of every roll touching it and
   * leaves the other counts right.
   */
  lemma TakeCounts(g: Grid, idx: nat, before: seq<nat>, after: seq<nat>)
    requires g.Valid() && idx < |g.cells| && g.cells[idx] == ROLL
    requires |before| == |after| == |g.cells| && CountsAccurate(g, before)
    requires forall j :: 0 <= j < |g.cells| ==>
               after[j] == if g.cols > 0 && Near(g.cols, idx, j) && g.cells[j] == ROLL then before[j] as int - 1 else before[j]
    ensures CountsAccurate(Remove(g, idx), after)
  {
    var h := Remove(g, idx);
    forall j | 0 <= j < |h.cells| && h.cells[j] == ROLL
      ensures after[j] == AdjacentAt(h, j)
    {
      AdjacentAfterRemove(g, idx, j);
      NearSymmetric(g.cols, idx, j);
    }
  }

  /** A roll touching a roll has a count of at least one. */
  lemma CountPositive(g: Grid, idx: nat, j: nat, counts: seq<nat>)
    requires g.Valid() && idx < |g.cells| && j < |g.cells| && g.cells[idx] == ROLL && g.cells[j] == ROLL
    requires |counts| == |g.cells| && CountsAccurate(g, counts)
    requires g.cols > 0 && Near(g.cols, idx, j)
    ensures counts[j] >= 1
  {
    AdjacentAfterRemove(g, idx, j);
    NearSymmetric(g.cols, idx, j);
  }

  /** The cells a loop over the first `t` slots has visited. */
  function Visited(nbrs: seq<nat>, t: nat): seq<nat> {
    if t < |nbrs| then nbrs[..t] else nbrs
  }

  lemma VisitedNext(nbrs: seq<nat>, t: nat)
    ensures Visited(nbrs, t + 1) == if t < |nbrs| then Visited(nbrs, t) + [nbrs[t]] else Visited(nbrs, t)
  {
    if t < |nbrs| {
      TakeNext(nbrs, t);
    }
  }

  /**
   * One step of `Day04::part2`'s queue loop: `idx` is emptied, every roll
   * touching it loses one from its count, and those whose count drops below
   * four are returned, to be queued.
   */
  method Take(grid: CountedGrid, idx: nat) returns (pushed: seq<nat>)
    requires grid.Valid() && idx < grid.data.Length && grid.data[idx] == ROLL
    requires CountsAccurate(grid.Value(), grid.counts[..])
    modifies grid.data, grid.counts
    ensures grid.cols > 0
    ensures grid.data[..] == old(grid.data[..])[idx := EMPTY]
    ensures forall j :: 0 <= j < grid.data.Length ==>
              grid.counts[j] == if Near(grid.cols, idx, j) && grid.data[j] == ROLL then old(grid.counts[j]) as int - 1
                                else old(grid.counts[j])
    ensures forall j: nat :: j in pushed <==>
              j < grid.data.Length && Near(grid.cols, idx, j) && grid.data[j] == ROLL && grid.counts[j] < CROWD
  {
    ghost var g := grid.Value();
    ghost var before := grid.counts[..];
    IndexCell(idx, grid.rows, grid.cols);
    grid.data[idx] := EMPTY;
    var slots := NeighbourSlots(grid.rows, grid.cols, idx);
    ghost var nbrs := NeighbourIndices(grid.rows, grid.cols, idx);
    NeighbourSlotsFilled(grid.rows, grid.cols, idx);
    NeighbourIndicesNear(grid.rows, grid.cols, idx);
    forall j: nat | j in nbrs && grid.data[j] == ROLL
      ensures before[j] >= 1
    {
      CountPositive(g, idx, j, before);
    }
    pushed := LowerCounts(grid, slots, nbrs);
  }

  /**
   * The inner loop of `Day04::part2`: for each filled slot, a roll there
   * loses one from its count and is returned when it drops below four.
   */
  method LowerCounts(grid: CountedGrid, slots: seq<Option<nat>>, ghost nbrs: seq<nat>) returns (pushed: seq<nat>)
    requires grid.Valid() && Increasing(nbrs) && |nbrs| <= |slots|
    requires forall t :: 0 <= t < |slots| ==> (slots[t].Some? <==> t < |nbrs|)
    requires forall t :: 0 <= t < |nbrs| ==> slots[t] == Some(nbrs[t])
    requires forall j :: j in nbrs ==> j < grid.data.Length && (grid.data[j] == ROLL ==> grid.counts[j] >= 1)
    modifies grid.counts
    ensures Decremented(old(grid.counts[..]), grid.data[..], nbrs, grid.counts[..])
    ensures PushedAmong(pushed, nbrs, grid.data[..], grid.counts[..])
  {
    ghost var before, now := grid.counts[..], grid.data[..];
    assert forall t :: 0 <= t < |slots| && slots[t].Some? ==>
      t < |nbrs| && slots[t].value == nbrs[t] && nbrs[t] in nbrs;
    pushed := [];
    for t := 0 to |slots|
      invariant Decremented(before, now, Visited(nbrs, t), grid.counts[..])
      invariant PushedAmong(pushed, Visited(nbrs, t), now, grid.counts[..])
    {
      ghost var countsWas, pushedWas := grid.counts[..], pushed;
      VisitedNext(nbrs, t);
      match slots[t]
      case None =>
      case Some(j) =>
        assert j !in Visited(nbrs, t);
        if grid.data[j] == ROLL {
          grid.counts[j] := grid.counts[j] - 1;
          if grid.counts[j] < CROWD {
            pushed := pushed + [j];
          }
        }
        VisitSlot(before, now, Visited(nbrs, t), j, countsWas, grid.counts[..], pushedWas, pushed);
    }
  }

  /** The counts lowered by one at the visited rolls. */
  ghost predicate Decremented(before: seq<nat>, now: seq<char>, visited: seq<nat>, counts: seq<nat>) {
    |counts| == |before| == |now| &&
    forall j :: 0 <= j < |now| ==> counts[j] == if j in visited && now[j] == ROLL then before[j] as int - 1 else before[j]
  }

  /** The visited rolls whose count is below four, in `pushed`. */
  ghost predicate PushedAmong(pushed: seq<nat>, visited: seq<nat>, now: seq<char>, counts: seq<nat>) {
    forall j: nat :: j in pushed <==> j in visited && j < |now| && j < |counts| && now[j] == ROLL && counts[j] < CROWD
  }

  lemma VisitSlot(before: seq<nat>, now: seq<char>, visited: seq<nat>, j: nat,
                  countsWas: seq<nat>, countsNow: seq<nat>, pushedWas: seq<nat>, pushedNow: seq<nat>)
    requires Decremented(before, now, visited, countsWas) && PushedAmong(pushedWas, visited, now, countsWas)
    requires j < |now| && j !in visited && (now[j] == ROLL ==> countsWas[j] >= 1)
    requires |countsNow| == |countsWas|
    requires forall i :: 0 <= i < |countsWas| ==>
               countsNow[i] == if i == j && now[j] == ROLL then countsWas[i] as int - 1 else countsWas[i]
    requires pushedNow == if now[j] == ROLL && countsNow[j] < CROWD then pushedWas + [j] else pushedWas
    ensures Decremented(before, now, visited + [j], countsNow)
    ensures PushedAmong(pushedNow, visited + [j], now, countsNow)
  {
  }

  /**
   * The queue of `Day04::part2` holds only cells inside the grid, no roll
   * in it has four or more neighbours, and every roll with fewer is in it.
   */
  ghost predicate Queued(queue: seq<nat>, cells: seq<char>, counts: seq<nat>) {
    |counts| == |cells| &&
    (forall i: nat :: i in queue ==> i < |cells| && (cells[i] == ROLL ==> counts[i] < CROWD)) &&
    (forall i :: 0 <= i < |cells| && cells[i] == ROLL && counts[i] < CROWD ==> i in queue)
  }

  /** On the way from `init` to its peeled grid, with `total` rolls removed so far. */
  ghost predicate Progress(init: Grid, g: Grid, total: nat) {
    init.Valid() && g.Valid() && Sub(g, init) && Sub(Peel(init), g) &&
    total + Rolls(g.cells) == Rolls(init.cells)
  }

  /** A popped cell that is no longer a roll is dropped from the queue. */
  lemma QueueSkip(queue: seq<nat>, cells: seq<char>, counts: seq<nat>)
    requires Queued(queue, cells, counts) && queue != [] && queue[0] < |cells| && cells[queue[0]] != ROLL
    ensures Queued(queue[1..], cells, counts)
  {
    assert forall i :: i in queue[1..] ==> i in queue;
    forall i | 0 <= i < |cells| && cells[i] == ROLL && counts[i] < CROWD
      ensures i in queue[1..]
    {
      assert i in queue && i != queue[0];
    }
  }

  /** A popped roll removed: the rest of the queue and the pushed cells make the new queue. */
  lemma QueueTake(queue: seq<nat>, cells: seq<char>, counts: seq<nat>, cols: nat,
                  now: seq<char>, after: seq<nat>, pushed: seq<nat>)
    requires Queued(queue, cells, counts) && queue != [] && queue[0] < |cells| && cells[queue[0]] == ROLL
    requires cols > 0
    requires now == cells[queue[0] := EMPTY] && |after| == |cells|
    requires forall j :: 0 <= j < |now| ==>
               after[j] == if Near(cols, queue[0], j) && now[j] == ROLL then counts[j] as int - 1 else counts[j]
    requires forall j: nat :: j in pushed <==> j < |now| && Near(cols, queue[0], j) && now[j] == ROLL && after[j] < CROWD
    ensures Queued(queue[1..] + pushed, now, after)
  {
    assert forall i :: i in queue[1..] ==> i in queue;
    forall i | 0 <= i < |now| && now[i] == ROLL && after[i] < CROWD
      ensures i in queue[1..] + pushed
    {
      if !Near(cols, queue[0], i) {
        assert i in queue && i != queue[0];
      }
    }
  }

  /** Removing an accessible roll keeps the search on its way to the peeled grid. */
  lemma TakeProgress(init: Grid, g: Grid, total: nat, idx: nat, before: seq<nat>, after: seq<nat>)
    requires Progress(init, g, total) && Peel(init).Valid() && Stable(Peel(init))
    requires idx < |g.cells| && g.cells[idx] == ROLL && g.cols > 0
    requires |before| == |g.cells| && CountsAccurate(g, before) && before[idx] < CROWD
    requires |after| == |g.cells|
    requires forall j :: 0 <= j < |g.cells| ==>
               after[j] == if Near(g.cols, idx, j) && g.cells[idx := EMPTY][j] == ROLL then before[j] as int - 1 else before[j]
    ensures Progress(init, Remove(g, idx), total + 1)
    ensures CountsAccurate(Remove(g, idx), after)
  {
    assert Accessible(g, idx);
    RemoveKeeps(g, Peel(init), idx);
    RollsRemove(g.cells, idx);
    TakeCounts(g, idx, before, after);
  }

  /** With the queue drained the grid is stable, so everything removable was removed. */
  lemma QueueDrained(init: Grid, g: Grid, total: nat, counts: seq<nat>)
    requires Progress(init, g, total) && Peel(init).Valid()
    requires |counts| == |g.cells| && CountsAccurate(g, counts) && Queued([], g.cells, counts)
    ensures total == Removable(init)
  {
    assert Stable(g) by {
      forall i | 0 <= i < |g.cells|
        ensures !Accessible(g, i)
      {
      }
    }
    StableIsPeeled(init, g);
  }

  /** The first queue of `Day04::part2`: every roll with fewer than four neighbours, in index order. */
  method InitialQueue(grid: CountedGrid) returns (queue: seq<nat>)
    requires grid.Valid()
    ensures Queued(queue, grid.data[..], grid.counts[..])
  {
    queue := [];
    for idx := 0 to grid.data.Length
      invariant forall i: nat :: i in queue <==> i < idx && grid.data[i] == ROLL && grid.counts[i] < CROWD
    {
      if grid.data[idx] == ROLL && grid.counts[idx] < CROWD {
        queue := queue + [idx];
      }
    }
  }

  /**
   * The queue loop of `Day04::part2`: pop a cell, skip it unless it is
   * still a roll, remove it and queue the neighbours that became
   * accessible, until the queue is empty.
   */
  method Drain(grid: CountedGrid, start: seq<nat>, ghost init: Grid) returns (removed: nat)
    requires grid.Valid() && Progress(init, grid.Value(), 0) && Peel(init).Valid() && Stable(Peel(init))
    requires CountsAccurate(grid.Value(), grid.counts[..]) && Queued(start, grid.data[..], grid.counts[..])
    modifies grid.data, grid.counts
    ensures removed == Removable(init)
  {
    removed := 0;
    var queue: seq<nat> := start;
    while queue != []
      invariant Progress(init, grid.Value(), removed)
      invariant CountsAccurate(grid.Value(), grid.counts[..])
      invariant Queued(queue, grid.data[..], grid.counts[..])
      decreases Rolls(grid.data[..]), |queue|
    {
      var idx := queue[0];
      assert idx in queue && idx < |grid.data[..]|;
      if grid.data[idx] != ROLL {
        QueueSkip(queue, grid.data[..], grid.counts[..]);
        queue := queue[1..];
        continue;
      }
      ghost var g, before := grid.Value(), grid.counts[..];
      var pushed := Take(grid, idx);
      TakeProgress(init, g, removed, idx, before, grid.counts[..]);
      QueueTake(queue, g.cells, before, grid.cols, grid.data[..], grid.counts[..], pushed);
      RollsRemove(g.cells, idx);
      removed := removed + 1;
      queue := queue[1..] + pushed;
    }
    QueueDrained(init, grid.Value(), removed, grid.counts[..]);
  }

  /** `Day04::part2`: the grid with counts parsed, then the queue drained. */
  method QueuePart2(lines: seq<string>) returns (total: nat)
    requires Rectangular(lines)
    ensures total == Removable(Board(lines))
  {
    var grid := new CountedGrid.Parse(lines);
    ghost var init := grid.Value();
    PeelShape(init);
    PeelStable(init);
    var queue := InitialQueue(grid);
    total := Drain(grid, queue, init);
  }
}
