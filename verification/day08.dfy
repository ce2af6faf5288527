/**
 * Day 8: junction boxes in 3-D space.  Part 1 connects the closest pairs of
 * boxes with a disjoint-set forest and multiplies the sizes of the largest
 * circuits; part 2 grows a minimum spanning tree with Prim's algorithm and
 * multiplies the x coordinates of the two boxes joined by its last edge.
 */
module Day08 {
  import opened Common

  // ---------------------------------------------------------------------
  // Points and distances
  // ---------------------------------------------------------------------

  datatype Point = Point(x: int, y: int, z: int)

  function Square(a: int): (s: nat)
    ensures s == 0 <==> a == 0
  {
    if a >= 0 then a * a else (-a) * (-a)
  }

  /** The squared Euclidean distance; it is zero exactly for equal points. */
  function DistanceSquared(p: Point, q: Point): (d: nat)
    ensures d == 0 <==> p == q
  {
    Square(p.x - q.x) + Square(p.y - q.y) + Square(p.z - q.z)
  }

  lemma DistanceSymmetric(p: Point, q: Point)
    ensures DistanceSquared(p, q) == DistanceSquared(q, p)
  {
    assert Square(p.x - q.x) == Square(q.x - p.x);
    assert Square(p.y - q.y) == Square(q.y - p.y);
    assert Square(p.z - q.z) == Square(q.z - p.z);
  }

  // ---------------------------------------------------------------------
  // Forests of parent pointers, as sequences
  // ---------------------------------------------------------------------

  /** How many of the first `k` elements have root `r`. */
  function CountOf(root: seq<nat>, r: nat, k: nat): (c: nat)
    requires k <= |root|
    ensures c <= k
  {
    if k == 0 then 0 else CountOf(root, r, k - 1) + (if root[k - 1] == r then 1 else 0)
  }

  /** How many of the first `k` elements are their own parent. */
  function RootCount(parent: seq<nat>, k: nat): (c: nat)
    requires k <= |parent|
    ensures c <= k
  {
    if k == 0 then 0 else RootCount(parent, k - 1) + (if parent[k - 1] == k - 1 then 1 else 0)
  }

  /**
   * Element `x` of a forest: its parent and root are elements, its root is
   * a root and is also its parent's root, a root is its own root, and
   * following the parent makes the depth smaller until a root, whose depth
   * is zero, is reached.
   */
  ghost predicate Linked(parent: seq<nat>, root: seq<nat>, depth: seq<nat>, x: nat)
    requires x < |parent| == |root| == |depth|
  {
    && parent[x] < |parent| && root[x] < |parent|
    && root[parent[x]] == root[x] && parent[root[x]] == root[x]
    && (parent[x] == x ==> root[x] == x && depth[x] == 0)
    && (parent[x] != x ==> depth[parent[x]] < depth[x])
  }

  ghost predicate Forest(parent: seq<nat>, root: seq<nat>, depth: seq<nat>) {
    && |parent| == |root| == |depth|
    && (forall x :: 0 <= x < |root| ==> root[x] < |root|)
    && forall x :: 0 <= x < |parent| ==> Linked(parent, root, depth, x)
  }

  /** Every root records the number of elements in its tree. */
  ghost predicate SizesMatch(parent: seq<nat>, size: seq<nat>, root: seq<nat>)
    requires |parent| == |root|
  {
    && |size| == |parent|
    && forall r :: 0 <= r < |parent| && parent[r] == r ==> size[r] == CountOf(root, r, |root|)
  }

  /** `fine` is a refinement of `coarse`: elements together in `fine` are together in `coarse`. */
  ghost predicate Coarser(fine: seq<nat>, coarse: seq<nat>) {
    && |fine| == |coarse|
    && forall a, b :: 0 <= a < |fine| && 0 <= b < |fine| && fine[a] == fine[b] ==> coarse[a] == coarse[b]
  }

  /** The elements of root `from` moved under root `to`. */
  function Relabel(root: seq<nat>, from: nat, to: nat): (r: seq<nat>)
    ensures |r| == |root|
  {
    seq(|root|, x requires 0 <= x < |root| => if root[x] == from then to else root[x])
  }

  /** The depths after the tree of `moved` is hung one level down. */
  function Deepen(depth: seq<nat>, root: seq<nat>, moved: nat): (d: seq<nat>)
    requires |depth| == |root|
    ensures |d| == |depth|
  {
    seq(|depth|, x requires 0 <= x < |depth| => if root[x] == moved then depth[x] + 1 else depth[x])
  }

  function Identity(n: nat): (s: seq<nat>)
    ensures |s| == n && forall i :: 0 <= i < n ==> s[i] == i
  {
    seq(n, i requires 0 <= i < n => i)
  }

  lemma {:induction false} IdentityRoots(n: nat, k: nat)
    requires k <= n
    ensures RootCount(Identity(n), k) == k
  {
    if k > 0 {
      IdentityRoots(n, k - 1);
    }
  }

  lemma {:induction false} IdentityCount(n: nat, r: nat, k: nat)
    requires k <= n
    ensures CountOf(Identity(n), r, k) == if r < k then 1 else 0
  {
    if k > 0 {
      IdentityCount(n, r, k - 1);
    }
  }

  /** Pointing `x` straight at its root keeps the forest, its roots and its root count. */
  lemma Compress(parent: seq<nat>, root: seq<nat>, depth: seq<nat>, size: seq<nat>, x: nat)
    requires Forest(parent, root, depth) && SizesMatch(parent, size, root) && x < |parent|
    ensures Forest(parent[x := root[x]], root, depth)
    ensures SizesMatch(parent[x := root[x]], size, root)
    ensures RootCount(parent[x := root[x]], |parent|) == RootCount(parent, |parent|)
  {
    var after := parent[x := root[x]];
    assert Linked(parent, root, depth, x);
    forall y | 0 <= y < |parent|
      ensures Linked(after, root, depth, y)
    {
      assert Linked(parent, root, depth, x);
      assert Linked(parent, root, depth, y);
      assert Linked(parent, root, depth, root[y]);
    }
    forall y | 0 <= y < |parent|
      ensures after[y] == y <==> parent[y] == y
    {
      assert Linked(parent, root, depth, y);
    }
    SameRoots(parent, after, |parent|);
  }

  lemma {:induction false} SameRoots(p: seq<nat>, q: seq<nat>, k: nat)
    requires k <= |p| == |q|
    requires forall y :: 0 <= y < |p| ==> (p[y] == y <==> q[y] == y)
    ensures RootCount(p, k) == RootCount(q, k)
  {
    if k > 0 {
      SameRoots(p, q, k - 1);
    }
  }

  /** Turning root `i` into a non-root removes one root. */
  lemma {:induction false} RootCountDrop(p: seq<nat>, i: nat, v: nat, k: nat)
    requires k <= |p| && i < |p| && p[i] == i && v != i
    ensures RootCount(p[i := v], k) + (if i < k then 1 else 0) == RootCount(p, k)
  {
    if k > 0 {
      RootCountDrop(p, i, v, k - 1);
    }
  }

  lemma {:induction false} RelabelCount(root: seq<nat>, from: nat, to: nat, r: nat, k: nat)
    requires k <= |root| && from != to
    ensures CountOf(Relabel(root, from, to), r, k)
         == if r == to then CountOf(root, from, k) + CountOf(root, to, k)
            else if r == from then 0
            else CountOf(root, r, k)
  {
    if k > 0 {
      RelabelCount(root, from, to, r, k - 1);
    }
  }

  /** Hanging root `child` under root `top` keeps a forest with one root fewer. */
  lemma LinkKeepsForest(parent: seq<nat>, root: seq<nat>, depth: seq<nat>, child: nat, top: nat)
    requires Forest(parent, root, depth) && child < |parent| && top < |parent| && child != top
    requires parent[child] == child && parent[top] == top
    ensures Forest(parent[child := top], Relabel(root, child, top), Deepen(depth, root, child))
    ensures RootCount(parent[child := top], |parent|) + 1 == RootCount(parent, |parent|)
    ensures Coarser(root, Relabel(root, child, top))
  {
    var p' := parent[child := top];
    var r' := Relabel(root, child, top);
    var d' := Deepen(depth, root, child);
    assert Linked(parent, root, depth, child) && Linked(parent, root, depth, top);
    forall y | 0 <= y < |parent|
      ensures Linked(p', r', d', y) && r'[y] < |parent|
    {
      assert Linked(parent, root, depth, y);
      assert Linked(parent, root, depth, parent[y]);
      assert Linked(parent, root, depth, root[y]);
    }
    RootCountDrop(parent, child, top, |parent|);
  }

  /** After the link, the new root's size is the sum of the two. */
  lemma LinkSizes(parent: seq<nat>, size: seq<nat>, root: seq<nat>, depth: seq<nat>, child: nat, top: nat)
    requires Forest(parent, root, depth) && SizesMatch(parent, size, root)
    requires child < |parent| && top < |parent| && child != top
    requires parent[child] == child && parent[top] == top
    ensures SizesMatch(parent[child := top], size[top := size[top] + size[child]], Relabel(root, child, top))
  {
    var p' := parent[child := top];
    var s' := size[top := size[top] + size[child]];
    var r' := Relabel(root, child, top);
    forall r | 0 <= r < |p'| && p'[r] == r
      ensures s'[r] == CountOf(r', r, |r'|)
    {
      RelabelCount(root, child, top, r, |root|);
    }
  }

  // ---------------------------------------------------------------------
  // Component sizes
  // ---------------------------------------------------------------------

  /** The sizes of the trees with roots below `k`, in root order, without the empty ones. */
  function NonZeroCounts(root: seq<nat>, k: nat): (s: seq<nat>)
    requires k <= |root|
    ensures forall i :: 0 <= i < |s| ==> s[i] > 0
  {
    if k == 0 then []
    else
      var c := CountOf(root, k - 1, |root|);
      NonZeroCounts(root, k - 1) + (if c > 0 then [c] else [])
  }

  /** The size of every tree of the forest, one entry per tree, in root order. */
  function ClassSizes(root: seq<nat>): seq<nat> {
    NonZeroCounts(root, |root|)
  }

  function Sum(s: seq<nat>): nat {
    if |s| == 0 then 0 else s[0] + Sum(s[1..])
  }

  lemma {:induction false} SumAppend(s: seq<nat>, c: nat)
    ensures Sum(s + [c]) == Sum(s) + c
  {
    if |s| > 0 {
      assert (s + [c])[1..] == s[1..] + [c];
      SumAppend(s[1..], c);
    }
  }

  /** How many of the first `m` elements have a root below `k`. */
  function CountBelow(root: seq<nat>, k: nat, m: nat): (c: nat)
    requires m <= |root|
  {
    if m == 0 then 0 else CountBelow(root, k, m - 1) + (if root[m - 1] < k then 1 else 0)
  }

  lemma {:induction false} CountBelowNext(root: seq<nat>, k: nat, m: nat)
    requires m <= |root|
    ensures CountBelow(root, k + 1, m) == CountBelow(root, k, m) + CountOf(root, k, m)
  {
    if m > 0 {
      CountBelowNext(root, k, m - 1);
    }
  }

  lemma {:induction false} CountBelowAll(root: seq<nat>, k: nat, m: nat)
    requires m <= |root| && forall x :: 0 <= x < |root| ==> root[x] < k
    ensures CountBelow(root, k, m) == m
  {
    if m > 0 {
      CountBelowAll(root, k, m - 1);
    }
  }

  lemma {:induction false} NonZeroSum(root: seq<nat>, k: nat)
    requires k <= |root|
    ensures Sum(NonZeroCounts(root, k)) == CountBelow(root, k, |root|)
  {
    if k == 0 {
      CountBelowZero(root, |root|);
    } else {
      NonZeroSum(root, k - 1);
      CountBelowNext(root, k - 1, |root|);
      var prev := NonZeroCounts(root, k - 1);
      var c := CountOf(root, k - 1, |root|);
      if c > 0 {
        SumAppend(prev, c);
      } else {
        assert prev + [] == prev;
      }
    }
  }

  lemma {:induction false} CountBelowZero(root: seq<nat>, m: nat)
    requires m <= |root|
    ensures CountBelow(root, 0, m) == 0
  {
    if m > 0 {
      CountBelowZero(root, m - 1);
    }
  }

  /** A tree with root `r` is non-empty exactly when `r` is a root of the forest. */
  lemma {:induction false} CountPositive(root: seq<nat>, r: nat, k: nat)
    requires k <= |root|
    ensures CountOf(root, r, k) > 0 <==> exists x :: 0 <= x < k && root[x] == r
  {
    if k > 0 {
      CountPositive(root, r, k - 1);
    }
  }

  lemma {:induction false} NonZeroLength(parent: seq<nat>, root: seq<nat>, depth: seq<nat>, k: nat)
    requires Forest(parent, root, depth) && k <= |parent|
    ensures |NonZeroCounts(root, k)| == RootCount(parent, k)
  {
    if k > 0 {
      NonZeroLength(parent, root, depth, k - 1);
      var r := k - 1;
      CountPositive(root, r, |root|);
      assert Linked(parent, root, depth, r);
      if CountOf(root, r, |root|) > 0 {
        var x :| 0 <= x < |root| && root[x] == r;
        assert Linked(parent, root, depth, x);
      }
    }
  }

  /** One entry per tree, each positive, adding up to the number of elements. */
  lemma ClassSizesFacts(parent: seq<nat>, root: seq<nat>, depth: seq<nat>)
    requires Forest(parent, root, depth)
    ensures |ClassSizes(root)| == RootCount(parent, |parent|)
    ensures Sum(ClassSizes(root)) == |parent|
  {
    NonZeroLength(parent, root, depth, |parent|);
    NonZeroSum(root, |root|);
    forall x | 0 <= x < |root|
      ensures root[x] < |root|
    {
      assert Linked(parent, root, depth, x);
    }
    CountBelowAll(root, |root|, |root|);
  }

  // ---------------------------------------------------------------------
  // Sorting by a key
  // ---------------------------------------------------------------------

  predicate SortedBy<T>(s: seq<T>, key: T -> int) {
    forall i, j :: 0 <= i < j < |s| ==> key(s[i]) <= key(s[j])
  }

  function InsertBy<T>(sorted: seq<T>, x: T, key: T -> int): (s: seq<T>)
    ensures |s| == |sorted| + 1 && multiset(s) == multiset(sorted) + multiset{x}
    ensures s[0] == x || (|sorted| > 0 && s[0] == sorted[0])
  {
    if |sorted| == 0 || key(x) <= key(sorted[0]) then [x] + sorted
    else
      assert sorted == [sorted[0]] + sorted[1..];
      [sorted[0]] + InsertBy(sorted[1..], x, key)
  }

  lemma {:induction false} InsertBySorted<T>(sorted: seq<T>, x: T, key: T -> int)
    requires SortedBy(sorted, key)
    ensures SortedBy(InsertBy(sorted, x, key), key)
  {
    if |sorted| > 0 && key(x) > key(sorted[0]) {
      var rest := InsertBy(sorted[1..], x, key);
      InsertBySorted(sorted[1..], x, key);
      assert key(sorted[0]) <= key(rest[0]);
    }
  }

  /** The library's unstable sort by key, as an insertion sort: one admissible order of ties. */
  function SortBy<T>(s: seq<T>, key: T -> int): (r: seq<T>)
    ensures |r| == |s| && multiset(r) == multiset(s) && SortedBy(r, key)
  {
    if |s| == 0 then []
    else
      assert s == [s[0]] + s[1..];
      var rest := SortBy(s[1..], key);
      InsertBySorted(rest, s[0], key);
      InsertBy(rest, s[0], key)
  }

  lemma {:induction false} SumInsert(sorted: seq<nat>, x: nat, key: nat -> int)
    ensures Sum(InsertBy(sorted, x, key)) == Sum(sorted) + x
  {
    if |sorted| > 0 && key(x) > key(sorted[0]) {
      SumInsert(sorted[1..], x, key);
    }
  }

  /** Sorting does not change the total. */
  lemma {:induction false} SumSorted(s: seq<nat>, key: nat -> int)
    ensures Sum(SortBy(s, key)) == Sum(s)
  {
    if |s| > 0 {
      SumSorted(s[1..], key);
      SumInsert(SortBy(s[1..], key), s[0], key);
    }
  }

  // ---------------------------------------------------------------------
  // The disjoint-set forest
  // ---------------------------------------------------------------------

  class UnionFind {
    var parent: array<nat>
    var size: array<nat>
    var components: nat
    /** The root each element's chain of parents ends at. */
    ghost var root: seq<nat>
    /** The number of parent steps from each element to its root. */
    ghost var depth: seq<nat>

    ghost predicate Valid()
      reads this, parent, size
    {
      && parent != size
      && Forest(parent[..], root, depth)
      && SizesMatch(parent[..], size[..], root)
      && components == RootCount(parent[..], parent.Length)
    }

    /** `n` singleton sets. */
    constructor (n: nat)
      ensures Valid() && fresh(parent) && fresh(size)
      ensures parent[..] == Identity(n) && root == Identity(n)
      ensures size.Length == n && (forall i :: 0 <= i < n ==> size[i] == 1)
      ensures components == n
    {
      parent := new nat[n](i => i);
      size := new nat[n](_ => 1);
      components := n;
      root := Identity(n);
      depth := seq(n, _ => 0);
      new;
      assert parent[..] == Identity(n);
      IdentityRoots(n, n);
      forall r | 0 <= r < n
        ensures size[r] == CountOf(root, r, n)
      {
        IdentityCount(n, r, n);
      }
    }

    /** The root of `x`'s tree; every element on the way is pointed at it. */
    method Find(x: nat) returns (r: nat)
      requires Valid() && x < parent.Length
      modifies parent
      ensures Valid() && r == root[x] && parent[r] == r
      decreases depth[x]
    {
      assert Linked(parent[..], root, depth, x);
      if parent[x] != x {
        var top := Find(parent[x]);
        Compress(parent[..], root, depth, size[..], x);
        parent[x] := top;
      }
      r := parent[x];
      assert Linked(parent[..], root, depth, x);
    }

    /** Hangs root `child` under root `top`. */
    method Link(child: nat, top: nat)
      requires Valid() && child < parent.Length && top < parent.Length && child != top
      requires parent[child] == child && parent[top] == top
      modifies this, parent, size
      ensures Valid() && parent == old(parent) && size == old(size)
      ensures parent[..] == old(parent[..])[child := top]
      ensures size[..] == old(size[..])[top := old(size[top] + size[child])]
      ensures root == Relabel(old(root), child, top) && Coarser(old(root), root)
      ensures components + 1 == old(components)
    {
      LinkKeepsForest(parent[..], root, depth, child, top);
      LinkSizes(parent[..], size[..], root, depth, child, top);
      parent[child] := top;
      size[top] := size[top] + size[child];
      components := components - 1;
      depth := Deepen(depth, root, child);
      root := Relabel(root, child, top);
    }

    /** Joins the sets of `x` and `y`, the smaller tree under the larger; false if already one set. */
    method Union(x: nat, y: nat) returns (merged: bool)
      requires Valid() && x < parent.Length && y < parent.Length
      modifies this, parent, size
      ensures Valid() && parent == old(parent) && size == old(size)
      ensures merged <==> old(root[x] != root[y])
      ensures !merged ==> root == old(root) && size[..] == old(size[..]) && components == old(components)
      ensures merged ==> components + 1 == old(components)
      ensures merged && old(size[root[x]] < size[root[y]]) ==>
        && parent[old(root[x])] == old(root[y])
        && size[old(root[y])] == old(size[root[x]] + size[root[y]])
        && root == Relabel(old(root), old(root[x]), old(root[y]))
      ensures merged && old(size[root[x]] >= size[root[y]]) ==>
        && parent[old(root[y])] == old(root[x])
        && size[old(root[x])] == old(size[root[x]] + size[root[y]])
        && root == Relabel(old(root), old(root[y]), old(root[x]))
      ensures Coarser(old(root), root) && root[x] == root[y]
    {
      var rootX := Find(x);
      var rootY := Find(y);
      assert Linked(parent[..], root, depth, x);
      if rootX == rootY {
        return false;
      }
      if size[rootX] < size[rootY] {
        Link(rootX, rootY);
      } else {
        Link(rootY, rootX);
      }
      merged := true;
    }

    /** How many elements each root has, found by a `Find` from every element. */
    method CountMembers() returns (counts: array<nat>)
      requires Valid()
      modifies parent
      ensures Valid() && fresh(counts) && counts.Length == parent.Length
      ensures forall r :: 0 <= r < counts.Length ==> counts[r] == CountOf(root, r, |root|)
    {
      var n := parent.Length;
      counts := new nat[n](_ => 0);
      for i := 0 to n
        invariant Valid()
        invariant forall r :: 0 <= r < n ==> counts[r] == CountOf(root, r, i)
      {
        var r := Find(i);
        counts[r] := counts[r] + 1;
      }
    }

    /** The size of every set, largest first. */
    method ComponentSizes() returns (sizes: seq<nat>)
      requires Valid()
      modifies parent
      ensures Valid()
      ensures multiset(sizes) == multiset(ClassSizes(root))
      ensures forall i, j :: 0 <= i < j < |sizes| ==> sizes[i] >= sizes[j]
      ensures |sizes| == components && Sum(sizes) == parent.Length
      ensures forall i :: 0 <= i < |sizes| ==> sizes[i] > 0
    {
      var n := parent.Length;
      var counts := CountMembers();
      var present: seq<nat> := [];
      for r := 0 to n
        invariant present == NonZeroCounts(root, r)
      {
        if counts[r] > 0 {
          present := present + [counts[r]];
        }
      }
      sizes := SortBy(present, Larger);
      SortedSizes(parent[..], root, depth, present);
    }
  }

  /** The tree sizes sorted largest first: one positive entry per root, adding up to the number of elements. */
  lemma SortedSizes(parent: seq<nat>, root: seq<nat>, depth: seq<nat>, present: seq<nat>)
    requires Forest(parent, root, depth) && present == ClassSizes(root)
    ensures var sizes := SortBy(present, Larger);
      && (forall i, j :: 0 <= i < j < |sizes| ==> sizes[i] >= sizes[j])
      && |sizes| == RootCount(parent, |parent|) && Sum(sizes) == |parent|
      && (forall i :: 0 <= i < |sizes| ==> sizes[i] > 0)
  {
    var sizes := SortBy(present, Larger);
    ClassSizesFacts(parent, root, depth);
    SumSorted(present, Larger);
    forall i | 0 <= i < |sizes|
      ensures sizes[i] > 0
    {
      assert sizes[i] in multiset(present);
    }
  }

  /** Sorting by this key puts larger numbers first. */
  function Larger(c: nat): int {
    -(c as int)
  }

  // ---------------------------------------------------------------------
  // Part 1: the closest pairs
  // ---------------------------------------------------------------------

  /** A pair of boxes `i < j` and their squared distance. */
  datatype Edge = Edge(dist: nat, i: nat, j: nat)

  function EdgeLength(e: Edge): int {
    e.dist
  }

  /** Row `i` from partner `j` on: the pairs (i, j), (i, j + 1), ... in increasing order. */
  function Row(coords: seq<Point>, i: nat, j: nat): seq<Edge>
    requires i < |coords|
    decreases |coords| - j
  {
    if j >= |coords| then []
    else [Edge(DistanceSquared(coords[i], coords[j]), i, j)] + Row(coords, i, j + 1)
  }

  /** The rows of boxes `i`, `i + 1`, ..., one after another. */
  function PairsFrom(coords: seq<Point>, i: nat): seq<Edge>
    decreases |coords| - i
  {
    if i >= |coords| then [] else Row(coords, i, i + 1) + PairsFrom(coords, i + 1)
  }

  /** Every pair of distinct boxes, once. */
  function Pairs(coords: seq<Point>): seq<Edge> {
    PairsFrom(coords, 0)
  }

  lemma {:induction false} RowMembers(coords: seq<Point>, i: nat, j: nat, e: Edge)
    requires i < |coords|
    ensures e in Row(coords, i, j) <==>
      e.i == i && j <= e.j < |coords| && e.dist == DistanceSquared(coords[e.i], coords[e.j])
    decreases |coords| - j
  {
    if j < |coords| {
      RowMembers(coords, i, j + 1, e);
    }
  }

  lemma {:induction false} PairsFromMembers(coords: seq<Point>, i: nat, e: Edge)
    ensures e in PairsFrom(coords, i) <==>
      i <= e.i < e.j < |coords| && e.dist == DistanceSquared(coords[e.i], coords[e.j])
    decreases |coords| - i
  {
    if i < |coords| {
      RowMembers(coords, i, i + 1, e);
      PairsFromMembers(coords, i + 1, e);
    }
  }

  /** The pairs are exactly the (i, j) with i < j, each with its distance. */
  lemma PairsMembers(coords: seq<Point>, e: Edge)
    ensures e in Pairs(coords) <==> e.i < e.j < |coords| && e.dist == DistanceSquared(coords[e.i], coords[e.j])
  {
    PairsFromMembers(coords, 0, e);
  }

  lemma {:induction false} RowCount(coords: seq<Point>, i: nat, j: nat)
    requires i < |coords| && j <= |coords|
    ensures |Row(coords, i, j)| == |coords| - j
    decreases |coords| - j
  {
    if j < |coords| {
      RowCount(coords, i, j + 1);
    }
  }

  lemma {:induction false} PairsFromCount(coords: seq<Point>, i: nat)
    requires i <= |coords|
    ensures 2 * |PairsFrom(coords, i)| == (|coords| - i) * (|coords| - i - 1)
    decreases |coords| - i
  {
    var m := |coords| - i;
    if m > 0 {
      RowCount(coords, i, i + 1);
      PairsFromCount(coords, i + 1);
      assert 2 * (m - 1) + (m - 1) * (m - 2) == m * (m - 1);
    }
  }

  /** There are n(n-1)/2 pairs, the capacity the edge list is created with. */
  lemma PairsCount(coords: seq<Point>)
    ensures 2 * |Pairs(coords)| == |coords| * (|coords| - 1)
  {
    PairsFromCount(coords, 0);
  }

  /** The pairwise distances, by the two nested loops. */
  method AllPairs(coords: seq<Point>) returns (edges: seq<Edge>)
    ensures edges == Pairs(coords)
  {
    edges := [];
    for i := 0 to |coords|
      invariant edges + PairsFrom(coords, i) == Pairs(coords)
    {
      ghost var row, later := Row(coords, i, i + 1), PairsFrom(coords, i + 1);
      assert edges + PairsFrom(coords, i) == (edges + row) + later;
      edges := PushRow(coords, i, edges);
    }
  }

  /** The inner loop: the pairs of box `i` with every later box, appended in order. */
  method PushRow(coords: seq<Point>, i: nat, edges: seq<Edge>) returns (out: seq<Edge>)
    requires i < |coords|
    ensures out == edges + Row(coords, i, i + 1)
  {
    out := edges;
    for j := i + 1 to |coords|
      invariant out + Row(coords, i, j) == edges + Row(coords, i, i + 1)
    {
      var e := Edge(DistanceSquared(coords[i], coords[j]), i, j);
      ghost var later := Row(coords, i, j + 1);
      assert (out + [e]) + later == out + ([e] + later);
      out := out + [e];
    }
    assert Row(coords, i, |coords|) == [];
  }

  /** The first `k` edges in order of length are no longer than any edge left out. */
  lemma ClosestFirst(edges: seq<Edge>, k: nat)
    requires k <= |edges|
    ensures var chosen := SortBy(edges, EdgeLength)[..k];
      && |chosen| == k && multiset(chosen) <= multiset(edges)
      && forall e, f :: e in chosen && f in multiset(edges) - multiset(chosen) ==> e.dist <= f.dist
  {
    var sorted := SortBy(edges, EdgeLength);
    var chosen, rest := sorted[..k], sorted[k..];
    assert sorted == chosen + rest;
    assert multiset(edges) - multiset(chosen) == multiset(rest);
    forall e, f | e in chosen && f in rest
      ensures e.dist <= f.dist
    {
      PrefixBeforeSuffix(sorted, k, e, f);
    }
  }

  lemma PrefixBeforeSuffix(sorted: seq<Edge>, k: nat, e: Edge, f: Edge)
    requires SortedBy(sorted, EdgeLength) && k <= |sorted| && e in sorted[..k] && f in sorted[k..]
    ensures e.dist <= f.dist
  {
    var a :| 0 <= a < k && sorted[a] == e;
    var b :| k <= b < |sorted| && sorted[b] == f;
    assert EdgeLength(sorted[a]) <= EdgeLength(sorted[b]);
  }

  /** The two ends of each of the first `t` edges share a root. */
  ghost predicate Together(root: seq<nat>, edges: seq<Edge>, t: nat)
    requires t <= |edges|
  {
    forall s :: 0 <= s < t && edges[s].i < |root| && edges[s].j < |root| ==> root[edges[s].i] == root[edges[s].j]
  }

  lemma StillTogether(before: seq<nat>, after: seq<nat>, edges: seq<Edge>, t: nat)
    requires t < |edges| && Together(before, edges, t) && Coarser(before, after)
    requires edges[t].i < |after| && edges[t].j < |after| && after[edges[t].i] == after[edges[t].j]
    ensures Together(after, edges, t + 1)
  {
  }

  /**
   * The circuits hold nothing the first `t` joins did not bring together:
   * every grouping `group` that keeps the ends of those edges together is
   * coarser than `root`.
   */
  ghost predicate Finest(root: seq<nat>, edges: seq<Edge>, t: nat)
    requires t <= |edges|
  {
    forall group: seq<nat> {:trigger Together(group, edges, t)} ::
      |group| == |root| && Together(group, edges, t) ==> Coarser(root, group)
  }

  /** Before any join every box is its own circuit. */
  lemma FinestStart(n: nat, edges: seq<Edge>)
    ensures Finest(Identity(n), edges, 0)
  {
    forall group: seq<nat> | |group| == n && Together(group, edges, 0)
      ensures Coarser(Identity(n), group)
    {
    }
  }

  /** Merging the circuits of the next edge's two ends, or leaving them be, keeps the circuits finest. */
  lemma StillFinest(before: seq<nat>, after: seq<nat>, edges: seq<Edge>, t: nat)
    requires t < |edges| && Finest(before, edges, t)
    requires edges[t].i < |before| && edges[t].j < |before|
    requires after == before
          || after == Relabel(before, before[edges[t].i], before[edges[t].j])
          || after == Relabel(before, before[edges[t].j], before[edges[t].i])
    ensures Finest(after, edges, t + 1)
  {
    var x, y := edges[t].i, edges[t].j;
    forall group: seq<nat> | |group| == |after| && Together(group, edges, t + 1)
      ensures Coarser(after, group)
    {
      assert Together(group, edges, t);
      assert Coarser(before, group);
      assert group[x] == group[y];
    }
  }

  /** The product of the three largest sizes, or of as many as there are. */
  function TopProduct(sizes: seq<nat>): nat {
    if |sizes| >= 3 then sizes[0] * sizes[1] * sizes[2]
    else if |sizes| == 2 then sizes[0] * sizes[1]
    else if |sizes| == 1 then sizes[0]
    else 0
  }

  /** With the sizes largest first, no three of them have a larger product. */
  lemma TopProductLargest(sizes: seq<nat>, a: nat, b: nat, c: nat)
    requires forall i, j :: 0 <= i < j < |sizes| ==> sizes[i] >= sizes[j]
    requires a < b < c < |sizes|
    ensures sizes[a] * sizes[b] * sizes[c] <= TopProduct(sizes)
  {
    assert sizes[a] <= sizes[0] && sizes[b] <= sizes[1] && sizes[c] <= sizes[2];
    MulMonotone(sizes[0], sizes[1], sizes[a], sizes[b]);
    MulMonotone(sizes[0] * sizes[1], sizes[2], sizes[a] * sizes[b], sizes[c]);
  }

  /** A fresh forest of `n` boxes with the ends of every edge joined, in order. */
  method JoinAll(n: nat, edges: seq<Edge>) returns (uf: UnionFind)
    requires forall t :: 0 <= t < |edges| ==> edges[t].i < n && edges[t].j < n
    ensures uf.Valid() && fresh(uf) && fresh(uf.parent) && fresh(uf.size) && uf.parent.Length == n
    ensures Together(uf.root, edges, |edges|) && Finest(uf.root, edges, |edges|)
  {
    uf := new UnionFind(n);
    FinestStart(n, edges);
    for t := 0 to |edges|
      invariant uf.Valid() && fresh(uf) && fresh(uf.parent) && fresh(uf.size)
      invariant uf.parent.Length == n && |uf.root| == n
      invariant Together(uf.root, edges, t) && Finest(uf.root, edges, t)
    {
      ghost var before := uf.root;
      var _ := uf.Union(edges[t].i, edges[t].j);
      StillTogether(before, uf.root, edges, t);
      StillFinest(before, uf.root, edges, t);
    }
  }

  /** All pairs, sorted by distance and cut to the first `pairs`. */
  method ClosestPairs(coords: seq<Point>, pairs: nat) returns (closest: seq<Edge>)
    requires pairs <= |coords| * (|coords| - 1) / 2
    ensures |closest| == pairs && multiset(closest) <= multiset(Pairs(coords))
    ensures forall e, f :: e in closest && f in multiset(Pairs(coords)) - multiset(closest) ==> e.dist <= f.dist
    ensures forall t :: 0 <= t < pairs ==> closest[t].i < closest[t].j < |coords|
  {
    var edges := AllPairs(coords);
    PairsCount(coords);
    ClosestFirst(edges, pairs);
    closest := SortBy(edges, EdgeLength)[..pairs];
    forall t | 0 <= t < pairs
      ensures closest[t].i < closest[t].j < |coords|
    {
      assert closest[t] in multiset(edges);
      PairsMembers(coords, closest[t]);
    }
  }

  /**
   * Joins the `pairs` closest pairs of boxes and multiplies the sizes of the
   * largest circuits.  The ghost results are the joined pairs, the circuit
   * of every box (named by a representative) and the circuit sizes.
   */
  method SolvePart1(coords: seq<Point>, pairs: nat)
    returns (product: nat, ghost joined: seq<Edge>, ghost circuit: seq<nat>, ghost sizes: seq<nat>)
    requires 1 <= pairs <= |coords| * (|coords| - 1) / 2
    ensures |joined| == pairs && multiset(joined) <= multiset(Pairs(coords))
    ensures forall e, f :: e in joined && f in multiset(Pairs(coords)) - multiset(joined) ==> e.dist <= f.dist
    ensures |circuit| == |coords|
    ensures forall t :: 0 <= t < pairs ==> joined[t].i < joined[t].j < |coords| && circuit[joined[t].i] == circuit[joined[t].j]
    ensures Finest(circuit, joined, pairs)
    ensures multiset(sizes) == multiset(ClassSizes(circuit)) && Sum(sizes) == |coords|
    ensures forall i, j :: 0 <= i < j < |sizes| ==> sizes[i] >= sizes[j]
    ensures product == TopProduct(sizes)
  {
    var closest := ClosestPairs(coords, pairs);
    joined := closest;
    var uf := JoinAll(|coords|, closest);
    var largestFirst := uf.ComponentSizes();
    sizes := largestFirst;
    circuit := uf.root;
    product := TopProduct(largestFirst);
  }

  // ---------------------------------------------------------------------
  // Part 2: Prim's algorithm
  // ---------------------------------------------------------------------

  /** `i64::MAX`, the distance of a box not yet reached. */
  const I64Max: int := 0x7FFF_FFFF_FFFF_FFFF

  /** Every squared distance is below `i64::MAX`, so no box stays unreached. */
  ghost predicate InRange(coords: seq<Point>) {
    forall a, b {:trigger DistanceSquared(coords[a], coords[b])} ::
      0 <= a < |coords| && 0 <= b < |coords| ==> DistanceSquared(coords[a], coords[b]) < I64Max
  }

  /**
   * Edge (a, b) is a lightest edge leaving the tree `inside`: a is in the
   * tree, b is not, and no edge from the tree to a box outside is shorter.
   */
  ghost predicate Lightest(coords: seq<Point>, inside: seq<nat>, a: nat, b: nat) {
    && a < |coords| && b < |coords| && a in inside && b !in inside
    && forall p, q {:trigger DistanceSquared(coords[p], coords[q])} ::
         p in inside && p < |coords| && 0 <= q < |coords| && q !in inside ==>
         DistanceSquared(coords[a], coords[b]) <= DistanceSquared(coords[p], coords[q])
  }

  /**
   * The tree grown by Prim from box 0: `tree` lists the boxes in the order
   * they join and `links[k]` is the box that `tree[k]` is attached to, along
   * a lightest edge leaving the boxes before it.
   */
  ghost predicate PrimOrder(coords: seq<Point>, tree: seq<nat>, links: seq<nat>)
    decreases |tree|
  {
    var last := |tree| - 1;
    && |links| == |tree| > 0 && tree[last] < |coords| && links[last] < |coords|
    && if last == 0 then tree[0] == 0
       else PrimOrder(coords, tree[..last], links[..last]) && Lightest(coords, tree[..last], links[last], tree[last])
  }

  /** Spelled out: the tree starts at box 0 and each later box joins along a lightest edge leaving the boxes before it. */
  lemma PrimOrderMeaning(coords: seq<Point>, tree: seq<nat>, links: seq<nat>)
    requires PrimOrder(coords, tree, links)
    ensures |links| == |tree| > 0 && tree[0] == 0
    ensures forall k :: 0 <= k < |tree| ==> tree[k] < |coords| && links[k] < |coords|
    ensures forall k :: 1 <= k < |tree| ==> Lightest(coords, tree[..k], links[k], tree[k])
  {
    forall k | 0 <= k < |tree|
      ensures tree[k] < |coords| && links[k] < |coords|
      ensures k >= 1 ==> Lightest(coords, tree[..k], links[k], tree[k])
    {
      PrimOrderAt(coords, tree, links, k);
    }
    PrimOrderPrefix(coords, tree, links, 1);
  }

  /** The `k`-th step of a Prim order, read off its prefix of length `k + 1`. */
  lemma PrimOrderAt(coords: seq<Point>, tree: seq<nat>, links: seq<nat>, k: nat)
    requires PrimOrder(coords, tree, links) && k < |tree|
    ensures tree[k] < |coords| && links[k] < |coords|
    ensures k >= 1 ==> Lightest(coords, tree[..k], links[k], tree[k])
  {
    PrimOrderPrefix(coords, tree, links, k + 1);
    assert tree[..k + 1][..k] == tree[..k];
  }

  /** Every non-empty prefix of a Prim order is one. */
  lemma {:induction false} PrimOrderPrefix(coords: seq<Point>, tree: seq<nat>, links: seq<nat>, k: nat)
    requires PrimOrder(coords, tree, links) && 1 <= k <= |tree|
    ensures PrimOrder(coords, tree[..k], links[..k])
    decreases |tree|
  {
    var last := |tree| - 1;
    if k <= last {
      PrimOrderPrefix(coords, tree[..last], links[..last], k);
      assert tree[..last][..k] == tree[..k] && links[..last][..k] == links[..k];
    } else {
      assert tree[..k] == tree && links[..k] == links;
    }
  }

  /** `parent[v]` is a tree box as close to `v` as any tree box, at distance `minDist[v]`. */
  ghost predicate Nearest(coords: seq<Point>, tree: seq<nat>, minDist: seq<int>, parent: seq<nat>, v: nat)
    requires v < |coords| && v < |minDist| && v < |parent|
  {
    && parent[v] < |coords| && parent[v] in tree
    && minDist[v] == DistanceSquared(coords[parent[v]], coords[v])
    && forall t {:trigger DistanceSquared(coords[t], coords[v])} ::
         t in tree && t < |coords| ==> minDist[v] <= DistanceSquared(coords[t], coords[v])
  }

  /** How many of the first `k` flags are false. */
  function CountFalse(flags: seq<bool>, k: nat): (c: nat)
    requires k <= |flags|
    ensures c <= k
  {
    if k == 0 then 0 else CountFalse(flags, k - 1) + (if flags[k - 1] then 0 else 1)
  }

  lemma {:induction false} CountFalseSet(flags: seq<bool>, u: nat, k: nat)
    requires k <= |flags| && u < |flags| && !flags[u]
    ensures CountFalse(flags[u := true], k) + (if u < k then 1 else 0) == CountFalse(flags, k)
  {
    if k > 0 {
      CountFalseSet(flags, u, k - 1);
    }
  }

  lemma {:induction false} SomeFalse(flags: seq<bool>, k: nat) returns (v: nat)
    requires k <= |flags| && CountFalse(flags, k) > 0
    ensures v < k && !flags[v]
  {
    if flags[k - 1] {
      v := SomeFalse(flags, k - 1);
    } else {
      v := k - 1;
    }
  }

  lemma {:induction false} AllFalse(flags: seq<bool>, k: nat)
    requires k <= |flags| && forall v :: 0 <= v < |flags| ==> !flags[v]
    ensures CountFalse(flags, k) == k
  {
    if k > 0 {
      AllFalse(flags, k - 1);
    }
  }

  lemma {:induction false} NoFalse(flags: seq<bool>, k: nat)
    requires k <= |flags| && CountFalse(flags, k) == 0
    ensures forall v :: 0 <= v < k ==> flags[v]
  {
    if k > 0 {
      NoFalse(flags, k - 1);
    }
  }

  /**
   * The first box outside the tree with the smallest distance below
   * `i64::MAX`, or box 0 when there is none.
   */
  method NearestOutside(inTree: array<bool>, minDist: array<int>) returns (u: nat)
    requires inTree.Length == minDist.Length
    ensures (exists v :: 0 <= v < inTree.Length && !inTree[v] && minDist[v] < I64Max) ==>
      && u < inTree.Length && !inTree[u] && minDist[u] < I64Max
      && (forall v :: 0 <= v < inTree.Length && !inTree[v] ==> minDist[u] <= minDist[v])
      && (forall v :: 0 <= v < u && !inTree[v] ==> minDist[u] < minDist[v])
    ensures (forall v :: 0 <= v < inTree.Length && !inTree[v] ==> minDist[v] >= I64Max) ==> u == 0
  {
    u := 0;
    var best := I64Max;
    for v := 0 to inTree.Length
      invariant u <= v
      invariant best == I64Max ==> u == 0 && forall w :: 0 <= w < v && !inTree[w] ==> minDist[w] >= I64Max
      invariant best < I64Max ==> u < v && !inTree[u] && minDist[u] == best
      invariant forall w :: 0 <= w < v && !inTree[w] ==> best <= minDist[w]
      invariant forall w :: 0 <= w < u && !inTree[w] ==> best < minDist[w]
      invariant best <= I64Max
    {
      if !inTree[v] && minDist[v] < best {
        best := minDist[v];
        u := v;
      }
    }
  }

  /** The distances and parents after relaxing through `u`: changed exactly where `u` is closer. */
  ghost predicate Relaxed(coords: seq<Point>, u: nat, inTree: seq<bool>,
                          minDist: seq<int>, parent: seq<nat>, minDist': seq<int>, parent': seq<nat>)
    requires u < |coords| && |inTree| == |minDist| == |parent| == |minDist'| == |parent'| == |coords|
  {
    forall v {:trigger minDist'[v]} :: 0 <= v < |coords| ==>
      if !inTree[v] && DistanceSquared(coords[u], coords[v]) < minDist[v]
      then minDist'[v] == DistanceSquared(coords[u], coords[v]) && parent'[v] == u
      else minDist'[v] == minDist[v] && parent'[v] == parent[v]
  }

  /** Brings every box outside the tree closer through `u` where that is shorter. */
  method Relax(coords: seq<Point>, u: nat, inTree: array<bool>, minDist: array<int>, parent: array<nat>)
    requires u < |coords| && inTree.Length == minDist.Length == parent.Length == |coords|
    modifies minDist, parent
    ensures Relaxed(coords, u, inTree[..], old(minDist[..]), old(parent[..]), minDist[..], parent[..])
  {
    for v := 0 to |coords|
      invariant forall w :: 0 <= w < |coords| ==>
        if w < v && !inTree[w] && DistanceSquared(coords[u], coords[w]) < old(minDist[w])
        then minDist[w] == DistanceSquared(coords[u], coords[w]) && parent[w] == u
        else minDist[w] == old(minDist[w]) && parent[w] == old(parent[w])
    {
      if !inTree[v] {
        var dist := DistanceSquared(coords[u], coords[v]);
        if dist < minDist[v] {
          minDist[v] := dist;
          parent[v] := u;
        }
      }
    }
  }

  /** After `u` joins the tree and the distances are relaxed, each box outside has its nearest tree box again. */
  lemma RelaxKeepsNearest(coords: seq<Point>, tree: seq<nat>, u: nat,
                          minDist: seq<int>, parent: seq<nat>, minDist': seq<int>, parent': seq<nat>, v: nat)
    requires u < |coords| && v < |coords| && v < |minDist| == |minDist'| && v < |parent| == |parent'|
    requires Nearest(coords, tree, minDist, parent, v)
    requires if DistanceSquared(coords[u], coords[v]) < minDist[v]
      then minDist'[v] == DistanceSquared(coords[u], coords[v]) && parent'[v] == u
      else minDist'[v] == minDist[v] && parent'[v] == parent[v]
    ensures Nearest(coords, tree + [u], minDist', parent', v)
  {
    DistanceSymmetric(coords[u], coords[v]);
  }

  /** The first box, 0, reaches every other box directly. */
  lemma FirstNearest(coords: seq<Point>, minDist: seq<int>, parent: seq<nat>, minDist': seq<int>, parent': seq<nat>, v: nat)
    requires 0 < v < |coords| && v < |minDist| == |minDist'| && v < |parent| == |parent'|
    requires minDist[v] == I64Max && DistanceSquared(coords[0], coords[v]) < I64Max
    requires minDist'[v] == DistanceSquared(coords[0], coords[v]) && parent'[v] == 0
    ensures Nearest(coords, [0], minDist', parent', v)
  {
  }

  /** The lightest edge leaving the tree ends at the box outside with the smallest distance. */
  lemma ClosestIsLightest(coords: seq<Point>, tree: seq<nat>, inTree: seq<bool>, minDist: seq<int>, parent: seq<nat>, u: nat)
    requires |inTree| == |minDist| == |parent| == |coords| && u < |coords| && !inTree[u]
    requires forall v :: 0 <= v < |coords| ==> (inTree[v] <==> v in tree)
    requires forall v :: 0 <= v < |coords| && !inTree[v] ==> Nearest(coords, tree, minDist, parent, v)
    requires forall v :: 0 <= v < |coords| && !inTree[v] ==> minDist[u] <= minDist[v]
    ensures Lightest(coords, tree, parent[u], u)
  {
    assert Nearest(coords, tree, minDist, parent, u);
    forall p, q | p in tree && p < |coords| && 0 <= q < |coords| && q !in tree
      ensures DistanceSquared(coords[parent[u]], coords[u]) <= DistanceSquared(coords[p], coords[q])
    {
      assert Nearest(coords, tree, minDist, parent, q);
    }
  }

  /** The flags mark exactly the boxes of the tree. */
  ghost predicate Marks(inTree: seq<bool>, tree: seq<nat>) {
    forall v {:trigger inTree[v]} {:trigger v in tree} :: 0 <= v < |inTree| ==> (inTree[v] <==> v in tree)
  }

  /** Every box outside the tree knows its nearest tree box. */
  ghost predicate Reached(coords: seq<Point>, tree: seq<nat>, inTree: seq<bool>, minDist: seq<int>, parent: seq<nat>)
    requires |inTree| == |minDist| == |parent| == |coords|
  {
    forall v :: 0 <= v < |coords| && !inTree[v] ==> Nearest(coords, tree, minDist, parent, v)
  }

  lemma MarkStep(inTree: seq<bool>, tree: seq<nat>, u: nat)
    requires Marks(inTree, tree) && u < |inTree|
    ensures Marks(inTree[u := true], tree + [u])
  {
  }

  lemma GrowOrder(coords: seq<Point>, tree: seq<nat>, links: seq<nat>, a: nat, u: nat)
    requires PrimOrder(coords, tree, links) && Lightest(coords, tree, a, u)
    ensures PrimOrder(coords, tree + [u], links + [a])
  {
    assert (tree + [u])[..|tree|] == tree && (links + [a])[..|links|] == links;
  }

  lemma ReachedStep(coords: seq<Point>, tree: seq<nat>, u: nat, inTree: seq<bool>,
                    minDist: seq<int>, parent: seq<nat>, minDist': seq<int>, parent': seq<nat>)
    requires |inTree| == |minDist| == |parent| == |minDist'| == |parent'| == |coords| && u < |coords|
    requires Reached(coords, tree, inTree, minDist, parent)
    requires Relaxed(coords, u, inTree[u := true], minDist, parent, minDist', parent')
    ensures Reached(coords, tree + [u], inTree[u := true], minDist', parent')
  {
    forall v | 0 <= v < |coords| && !inTree[u := true][v]
      ensures Nearest(coords, tree + [u], minDist', parent', v)
    {
      RelaxKeepsNearest(coords, tree, u, minDist, parent, minDist', parent', v);
    }
  }

  lemma ReachedFirst(coords: seq<Point>, inTree: seq<bool>, minDist: seq<int>, parent: seq<nat>,
                     minDist': seq<int>, parent': seq<nat>)
    requires |inTree| == |minDist| == |parent| == |minDist'| == |parent'| == |coords| > 0
    requires InRange(coords) && inTree[0] && forall v :: 1 <= v < |coords| ==> !inTree[v] && minDist[v] == I64Max
    requires Relaxed(coords, 0, inTree, minDist, parent, minDist', parent')
    ensures Reached(coords, [0], inTree, minDist', parent')
  {
    forall v | 0 <= v < |coords| && !inTree[v]
      ensures Nearest(coords, [0], minDist', parent', v)
    {
      FirstNearest(coords, minDist, parent, minDist', parent', v);
    }
  }

  /** The state at the start of round `round` of Prim's loop. */
  ghost predicate Growing(coords: seq<Point>, round: nat, tree: seq<nat>, links: seq<nat>,
                          inTree: seq<bool>, minDist: seq<int>, parent: seq<nat>, edgesAdded: nat, lastEdge: (int, int))
  {
    && |inTree| == |minDist| == |parent| == |coords| > 0 && round <= |coords|
    && |tree| == |links| == round && CountFalse(inTree, |coords|) == |coords| - round && Marks(inTree, tree)
    && (round == 0 ==> parent[0] == 0 && minDist[0] == 0 && forall v :: 1 <= v < |coords| ==> minDist[v] == I64Max)
    && (round > 0 ==> PrimOrder(coords, tree, links) && Reached(coords, tree, inTree, minDist, parent))
    && edgesAdded == (if round > 0 then round - 1 else 0)
    && lastEdge == if round >= 2 then LastEdge(coords, tree, links) else (0, 0)
  }

  /** The x coordinates of the two boxes of the latest tree edge. */
  function LastEdge(coords: seq<Point>, tree: seq<nat>, links: seq<nat>): (int, int)
    requires |tree| == |links| > 0
  {
    var k := |tree| - 1;
    if links[k] < |coords| && tree[k] < |coords| then (coords[links[k]].x, coords[tree[k]].x) else (0, 0)
  }

  /** The whole tree is grown and the last edge recorded. */
  ghost predicate Finished(coords: seq<Point>, tree: seq<nat>, links: seq<nat>, lastEdge: (int, int)) {
    && PrimOrder(coords, tree, links) && |tree| == |coords|
    && (forall v :: 0 <= v < |coords| ==> v in tree)
    && lastEdge == if |coords| >= 2 then LastEdge(coords, tree, links) else (0, 0)
  }

  /** The box a round adds: box 0 in the first round, afterwards one outside the tree at the end of a lightest edge. */
  ghost predicate Chosen(coords: seq<Point>, round: nat, tree: seq<nat>, inTree: seq<bool>, parent: seq<nat>, u: nat)
    requires |inTree| == |parent| == |coords|
  {
    && u < |coords| && !inTree[u]
    && (round == 0 ==> u == 0)
    && (round > 0 ==> u != 0 && Lightest(coords, tree, parent[u], u))
  }

  lemma GrowingStep(coords: seq<Point>, round: nat, tree: seq<nat>, links: seq<nat>,
                    inTree: seq<bool>, minDist: seq<int>, parent: seq<nat>, edgesAdded: nat, lastEdge: (int, int),
                    u: nat, minDist': seq<int>, parent': seq<nat>)
    requires InRange(coords) && round < |coords|
    requires Growing(coords, round, tree, links, inTree, minDist, parent, edgesAdded, lastEdge)
    requires Chosen(coords, round, tree, inTree, parent, u)
    requires |minDist'| == |parent'| == |coords|
    requires Relaxed(coords, u, inTree[u := true], minDist, parent, minDist', parent')
    ensures Growing(coords, round + 1, tree + [u], links + [parent[u]], inTree[u := true], minDist', parent',
                    if u != 0 then edgesAdded + 1 else edgesAdded,
                    if u != 0 then (coords[parent[u]].x, coords[u].x) else lastEdge)
  {
    var tree', links', inTree' := tree + [u], links + [parent[u]], inTree[u := true];
    CountFalseSet(inTree, u, |coords|);
    MarkStep(inTree, tree, u);
    if round == 0 {
      assert tree' == [0] && links' == [0];
      assert PrimOrder(coords, tree', links');
      ReachedFirst(coords, inTree', minDist, parent, minDist', parent');
    } else {
      GrowOrder(coords, tree, links, parent[u], u);
      ReachedStep(coords, tree, u, inTree, minDist, parent, minDist', parent');
    }
    assert LastEdge(coords, tree', links') == (coords[parent[u]].x, coords[u].x);
  }

  /** The round that adds the last box ends the loop with the whole tree grown. */
  lemma FinishEarly(coords: seq<Point>, round: nat, tree: seq<nat>, links: seq<nat>,
                    inTree: seq<bool>, minDist: seq<int>, parent: seq<nat>, edgesAdded: nat, lastEdge: (int, int), u: nat)
    requires round < |coords| && Growing(coords, round, tree, links, inTree, minDist, parent, edgesAdded, lastEdge)
    requires Chosen(coords, round, tree, inTree, parent, u) && u != 0 && edgesAdded + 1 == |coords| - 1
    ensures Finished(coords, tree + [u], links + [parent[u]], (coords[parent[u]].x, coords[u].x))
  {
    CountFalseSet(inTree, u, |coords|);
    MarkStep(inTree, tree, u);
    NoFalse(inTree[u := true], |coords|);
    GrowOrder(coords, tree, links, parent[u], u);
  }

  lemma FinishLast(coords: seq<Point>, tree: seq<nat>, links: seq<nat>,
                   inTree: seq<bool>, minDist: seq<int>, parent: seq<nat>, edgesAdded: nat, lastEdge: (int, int))
    requires Growing(coords, |coords|, tree, links, inTree, minDist, parent, edgesAdded, lastEdge)
    ensures Finished(coords, tree, links, lastEdge)
  {
    NoFalse(inTree, |coords|);
  }

  /**
   * Part 2: grows the tree from box 0 with Prim's algorithm and multiplies
   * the x coordinates of the two boxes joined by the last edge.  The ghost
   * results are the boxes in the order they join and the box each is joined to.
   */
  method SolvePart2(coords: seq<Point>) returns (answer: int, ghost tree: seq<nat>, ghost links: seq<nat>)
    requires InRange(coords)
    ensures |coords| > 0 ==> PrimOrder(coords, tree, links) && |tree| == |coords|
    ensures forall v :: 0 <= v < |coords| ==> v in tree
    ensures answer == if |coords| >= 2 then coords[links[|coords| - 1]].x * coords[tree[|coords| - 1]].x else 0
  {
    var n := |coords|;
    tree, links := [], [];
    if n == 0 {
      return 0, tree, links;
    }
    var inTree := new bool[n](_ => false);
    var minDist := new int[n](_ => I64Max);
    var parent := new nat[n](_ => 0);
    minDist[0] := 0;
    AllFalse(inTree[..], n);
    var edgesAdded := 0;
    var lastEdge := (0, 0);
    var round, done := 0, false;
    while round < n && !done
      invariant round <= n
      invariant done ==> Finished(coords, tree, links, lastEdge)
      invariant !done ==> Growing(coords, round, tree, links, inTree[..], minDist[..], parent[..], edgesAdded, lastEdge)
      decreases n - round
    {
      edgesAdded, lastEdge, tree, links, done := Round(coords, inTree, minDist, parent, round, tree, links, edgesAdded, lastEdge);
      round := round + 1;
    }
    if !done {
      FinishLast(coords, tree, links, inTree[..], minDist[..], parent[..], edgesAdded, lastEdge);
    }
    answer := lastEdge.0 * lastEdge.1;
  }

  /**
   * One round of Prim's loop: adds the nearest box outside the tree, records
   * the edge it joins by, and either stops with the tree complete or relaxes
   * the distances through the new box.
   */
  method Round(coords: seq<Point>, inTree: array<bool>, minDist: array<int>, parent: array<nat>, round: nat,
               ghost tree: seq<nat>, ghost links: seq<nat>, edgesAdded: nat, lastEdge: (int, int))
    returns (edgesAdded': nat, lastEdge': (int, int), ghost tree': seq<nat>, ghost links': seq<nat>, done: bool)
    requires InRange(coords) && round < |coords|
    requires Growing(coords, round, tree, links, inTree[..], minDist[..], parent[..], edgesAdded, lastEdge)
    modifies inTree, minDist, parent
    ensures done ==> Finished(coords, tree', links', lastEdge')
    ensures !done ==> Growing(coords, round + 1, tree', links', inTree[..], minDist[..], parent[..], edgesAdded', lastEdge')
  {
    var n := |coords|;
    var u := Choose(coords, tree, links, inTree, minDist, parent, round, edgesAdded, lastEdge);
    ghost var before, dist, via := inTree[..], minDist[..], parent[..];
    inTree[u] := true;
    tree', links' := tree + [u], links + [parent[u]];
    edgesAdded', lastEdge', done := edgesAdded, lastEdge, false;
    if u != 0 {
      edgesAdded' := edgesAdded + 1;
      lastEdge' := (coords[parent[u]].x, coords[u].x);
      if edgesAdded' == n - 1 {
        FinishEarly(coords, round, tree, links, before, dist, via, edgesAdded, lastEdge, u);
        return edgesAdded', lastEdge', tree', links', true;
      }
    }
    Relax(coords, u, inTree, minDist, parent);
    assert inTree[..] == before[u := true];
    GrowingStep(coords, round, tree, links, before, dist, via, edgesAdded, lastEdge, u, minDist[..], parent[..]);
  }

  /** The box the next round adds, found by the scan for the nearest box outside the tree. */
  method Choose(coords: seq<Point>, ghost tree: seq<nat>, ghost links: seq<nat>,
                inTree: array<bool>, minDist: array<int>, parent: array<nat>, round: nat,
                ghost edgesAdded: nat, ghost lastEdge: (int, int)) returns (u: nat)
    requires InRange(coords) && round < |coords|
    requires Growing(coords, round, tree, links, inTree[..], minDist[..], parent[..], edgesAdded, lastEdge)
    ensures Chosen(coords, round, tree, inTree[..], parent[..], u)
  {
    u := NearestOutside(inTree, minDist);
    if round == 0 {
      assert Marks(inTree[..], tree) && tree == [];
      assert !inTree[..][0];
    } else {
      var v := SomeFalse(inTree[..], |coords|);
      assert Nearest(coords, tree, minDist[..], parent[..], v);
      PrimOrderMeaning(coords, tree, links);
      assert 0 in tree;
      assert inTree[..][0];
      ClosestIsLightest(coords, tree, inTree[..], minDist[..], parent[..], u);
    }
  }
}
