/**
 * The KD tree of SPKDTreeNode.c: the recursive build over KD arrays, the
 * three rules that choose the next split axis, and the backtracking
 * k-nearest-neighbour search that feeds a bounded priority queue.
 *
 * A node's `dim` is one more than the axis it splits on: the build splits
 * the array on `dim - 1` and the search reads coordinate `dim - 1` of the
 * query.  MAX_SPREAD produces such 1-based values, while INCREMENTAL and
 * RANDOM produce 0-based ones; a 0 reaching a node of more than one point
 * makes its split fail and the whole build return NULL.
 */
module KDTrees {
  import opened Wrappers
  import opened Sequences
  import opened Points
  import opened KDArrays
  import opened Configs
  import BPQueue

  /** A leaf holds a copy of its point; an internal node its split `dim` (1-based) and `val`. */
  datatype Tree = Leaf(point: Point) | Node(dim: int, val: real, left: Tree, right: Tree)

  /** The node's `dim` field: INVALID (-1) on a leaf. */
  function NodeDim(t: Tree): (d: int)
    ensures t.Leaf? ==> d == -1
  {
    if t.Leaf? then -1 else t.dim
  }

  /** The node's `val` field: INVALID (-1) on a leaf. */
  function NodeVal(t: Tree): (v: real)
    ensures t.Leaf? ==> v == -1.0
  {
    if t.Leaf? then -1.0 else t.val
  }

  /** spKDTreeGetLeftNode: NULL for a NULL tree or a leaf. */
  function GetLeftNode(t: Option<Tree>): (r: Option<Tree>)
    ensures r.Some? <==> t.Some? && t.value.Node?
    ensures r.Some? ==> r.value == t.value.left
  {
    if t.Some? && t.value.Node? then Some(t.value.left) else None
  }

  /** spKDTreeGetRightNode: NULL for a NULL tree or a leaf. */
  function GetRightNode(t: Option<Tree>): (r: Option<Tree>)
    ensures r.Some? <==> t.Some? && t.value.Node?
    ensures r.Some? ==> r.value == t.value.right
  {
    if t.Some? && t.value.Node? then Some(t.value.right) else None
  }

  /** spKDTreeGetNodePoint: NULL for a NULL tree or an internal node. */
  function GetNodePoint(t: Option<Tree>): (r: Option<Point>)
    ensures r.Some? <==> t.Some? && t.value.Leaf?
    ensures r.Some? ==> r.value == t.value.point
  {
    if t.Some? && t.value.Leaf? then Some(t.value.point) else None
  }

  /** The points of the leaves, left to right. */
  function Leaves(t: Tree): seq<Point> {
    match t
    case Leaf(p) => [p]
    case Node(_, _, l, r) => Leaves(l) + Leaves(r)
  }

  /**
   * Every internal node separates its leaves on axis `dim - 1`: the left
   * ones lie at or below `val`, which one of them attains, and the right ones
   * at or above it.
   */
  predicate Separated(t: Tree) {
    match t
    case Leaf(_) => true
    case Node(d, v, l, r) =>
      && (forall q :: q in Leaves(l) ==> 0 <= d - 1 < |q.data| && q.data[d - 1] <= v)
      && (forall q :: q in Leaves(r) ==> 0 <= d - 1 < |q.data| && q.data[d - 1] >= v)
      && (exists q :: q in Leaves(l) && 0 <= d - 1 < |q.data| && q.data[d - 1] == v)
      && Separated(l) && Separated(r)
  }

  /** Every internal node splits on one of the first `n` axes. */
  predicate NodeAxes(t: Tree, n: int) {
    match t
    case Leaf(_) => true
    case Node(d, _, l, r) => 1 <= d <= n && NodeAxes(l, n) && NodeAxes(r, n)
  }

  /**
   * What the search asserts of a tree and a query of dimension `n`: every
   * node reads one of the query's `n` coordinates and every leaf holds a
   * valid point of the query's dimension.
   */
  predicate Fits(t: Tree, n: int) {
    match t
    case Leaf(q) => Valid(q) && |q.data| == n
    case Node(d, _, l, r) => 1 <= d <= n && Fits(l, n) && Fits(r, n)
  }

  /** A tree whose nodes use the first `n` axes and whose leaves are valid points of dimension `n` fits. */
  lemma {:induction false} FitsOfLeaves(t: Tree, n: int)
    requires NodeAxes(t, n) && forall q :: q in Leaves(t) ==> Valid(q) && |q.data| == n
    ensures Fits(t, n)
  {
    match t
    case Leaf(q) =>
      assert q in Leaves(t);
    case Node(_, _, l, r) =>
      FitsOfLeaves(l, n);
      FitsOfLeaves(r, n);
  }

  /** The number of nodes and leaves: the search's measure. */
  function TreeSize(t: Tree): nat {
    match t
    case Leaf(_) => 1
    case Node(_, _, l, r) => 1 + TreeSize(l) + TreeSize(r)
  }

  // ---------------------------------------------------------------------------
  // Choosing the split axis

  /** The spread of axis `i`: its largest coordinate minus its smallest, read off the sorted row. */
  function Spread(a: KDArray, i: int): real
    requires WF(a) && 0 <= i < a.dim
  {
    a.points[a.matrix[i][a.size - 1]].data[i] - a.points[a.matrix[i][0]].data[i]
  }

  /** `(maxSpreadDim, maxSpread)` once the loop of spKDTreeNodeGetMaxSpreadDim has seen `i` axes. */
  function MaxSpreadAfter(a: KDArray, i: int): (int, real)
    requires WF(a) && 0 <= i <= a.dim
    decreases i
  {
    if i == 0 then (0, 0.0)
    else
      var (d, m) := MaxSpreadAfter(a, i - 1);
      if Spread(a, i - 1) > m then (i - 1, Spread(a, i - 1)) else (d, m)
  }

  /** The value spKDTreeNodeGetMaxSpreadDim returns: one more than the axis found. */
  function MaxSpreadDim(a: KDArray): int
    requires WF(a)
  {
    MaxSpreadAfter(a, a.dim).0 + 1
  }

  /** spKDTreeNodeGetMaxSpreadDim; -1 for a NULL array. */
  method GetMaxSpreadDim(arr: Option<KDArray>) returns (d: int)
    requires arr.Some? ==> WF(arr.value)
    ensures arr.None? ==> d == -1
    ensures arr.Some? ==> d == MaxSpreadDim(arr.value)
  {
    if arr.None? {
      return -1;
    }
    var a := arr.value;
    var maxSpreadDim := 0;
    var maxSpread := 0.0;
    var n := a.size;
    for i := 0 to a.dim
      invariant (maxSpreadDim, maxSpread) == MaxSpreadAfter(a, i)
    {
      var firstIndex := a.matrix[i][0];
      var lastIndex := a.matrix[i][n - 1];
      var currSpread := GetAxisCoor(a.points[lastIndex], i) - GetAxisCoor(a.points[firstIndex], i);
      if currSpread > maxSpread {
        maxSpread := currSpread;
        maxSpreadDim := i;
      }
    }
    d := maxSpreadDim + 1;
  }

  /** Sorted rows put the smallest coordinate first and the largest last. */
  lemma SpreadNonNegative(a: KDArray, i: int)
    requires WF(a) && 0 <= i < a.dim
    ensures Spread(a, i) >= 0.0
  {
    RowLastIsMax(a, i);
    assert 0 <= a.matrix[i][0] < a.size;
  }

  lemma {:induction false} MaxSpreadAfterFacts(a: KDArray, i: int)
    requires WF(a) && 0 <= i <= a.dim
    ensures var (d, m) := MaxSpreadAfter(a, i);
      && 0 <= d && (d < i || d == 0)
      && (i > 0 ==> m == Spread(a, d))
      && (forall j :: 0 <= j < i ==> Spread(a, j) <= m)
      && (forall j :: 0 <= j < d ==> Spread(a, j) < m)
    decreases i
  {
    if i > 0 {
      MaxSpreadAfterFacts(a, i - 1);
      SpreadNonNegative(a, i - 1);
      if i - 1 == 0 {
        SpreadNonNegative(a, 0);
      }
    }
  }

  /**
   * MAX_SPREAD: one more than the first axis whose spread is largest, so a
   * value in [1, dim]; 1 when every spread is 0.
   */
  lemma MaxSpreadDimCorrect(a: KDArray)
    requires WF(a)
    ensures 1 <= MaxSpreadDim(a) <= a.dim
    ensures forall j :: 0 <= j < a.dim ==> Spread(a, j) <= Spread(a, MaxSpreadDim(a) - 1)
    ensures forall j :: 0 <= j < MaxSpreadDim(a) - 1 ==> Spread(a, j) < Spread(a, MaxSpreadDim(a) - 1)
  {
    MaxSpreadAfterFacts(a, a.dim);
  }

  /** spKDTreeNodeSplitByDim: the chosen `dim` and the number of `rand()` values used so far. */
  function SplitByDim(arr: Option<KDArray>, dim: int, splitMethod: SplitMethod, rand: nat -> nat, k: nat): (r: (int, nat))
    requires arr.Some? ==> WF(arr.value)
    ensures r.1 == if arr.Some? && dim >= 0 && splitMethod.Random? then k + 1 else k
  {
    if arr.None? || dim < 0 then (-1, k)
    else
      match splitMethod
      case MaxSpread => (MaxSpreadDim(arr.value), k)
      case Random => (rand(k) % arr.value.dim, k + 1)
      case Incremental => ((dim + 1) % arr.value.dim, k)
  }

  /** MAX_SPREAD chooses in [1, dim]; RANDOM and INCREMENTAL in [0, dim); NULL or a negative `dim` gives -1. */
  lemma SplitByDimRange(arr: Option<KDArray>, dim: int, splitMethod: SplitMethod, rand: nat -> nat, k: nat)
    requires arr.Some? ==> WF(arr.value)
    ensures var d := SplitByDim(arr, dim, splitMethod, rand, k).0;
      && (arr.None? || dim < 0 ==> d == -1)
      && (arr.Some? && dim >= 0 && splitMethod.MaxSpread? ==> 1 <= d <= arr.value.dim)
      && (arr.Some? && dim >= 0 && !splitMethod.MaxSpread? ==> 0 <= d < arr.value.dim)
  {
    if arr.Some? && dim >= 0 && splitMethod.MaxSpread? {
      MaxSpreadDimCorrect(arr.value);
    }
  }

  // ---------------------------------------------------------------------------
  // Building

  /** spKDTreeNodeCreateLeaf: a leaf holding a copy of the only point. */
  function CreateLeaf(arr: Option<KDArray>): (r: Option<Tree>)
    requires arr.Some? ==> WF(arr.value)
    ensures r.None? <==> arr.None?
    ensures r.Some? ==> r.value == Leaf(arr.value.points[0])
  {
    if arr.None? then None else Some(Leaf(Copy(arr.value.points[0])))
  }

  /** A tree (None for NULL) and the number of `rand()` values drawn once it is built. */
  datatype Built = Built(tree: Option<Tree>, draws: nat)

  /**
   * spKDTreeNodeCreate.  `rand(k)` is the k-th value `rand()` returns; the
   * calls happen in the source's order: the left child's axis, the whole
   * left subtree, the right child's axis, the right subtree.
   */
  function Create(arr: Option<KDArray>, dim: int, splitMethod: SplitMethod, rand: nat -> nat, k: nat): (b: Built)
    requires arr.Some? ==> WF(arr.value)
    ensures b.draws >= k
    ensures arr.None? || dim < 0 ==> b.tree.None?
    ensures arr.Some? && dim >= 0 && arr.value.size == 1 ==> b.tree == Some(Leaf(arr.value.points[0]))
    ensures arr.Some? && arr.value.size > 1 && (dim <= 0 || dim > arr.value.dim) ==> b.tree.None?
    ensures b.tree.Some? && b.tree.value.Node? ==> b.tree.value.dim == dim
    ensures b.tree.Some? ==> arr.Some? && Shaped(b.tree.value, arr.value.points, arr.value.dim)
    decreases if arr.Some? then arr.value.size else 0, 1
  {
    if arr.None? || dim < 0 then Built(None, k)
    else if arr.value.size == 1 then
      assert arr.value.points == [arr.value.points[0]];
      Built(CreateLeaf(arr), k)
    else CreateNode(arr.value, dim, splitMethod, rand, k)
  }

  /**
   * The branch of spKDTreeNodeCreate for more than one point: split on axis
   * `dim - 1`, the node's value is the coordinate of the left half's last
   * point on that axis, then build the children.  On a failed split or child
   * the result is NULL.
   */
  function CreateNode(a: KDArray, dim: int, splitMethod: SplitMethod, rand: nat -> nat, k: nat): (b: Built)
    requires WF(a) && a.size > 1
    ensures b.draws >= k
    ensures dim <= 0 || dim > a.dim ==> b.tree.None?
    ensures b.tree.Some? ==> b.tree.value.Node? && b.tree.value.dim == dim
    ensures b.tree.Some? ==> Shaped(b.tree.value, a.points, a.dim)
    decreases a.size, 0
  {
    var split := SplitSpec(Some(a), dim - 1);
    if split.None? then Built(None, k)
    else
      SplitHalvesWF(a, dim - 1);
      var (l, r) := split.value;
      var medianIndex := l.matrix[dim - 1][l.size - 1];
      var val := GetAxisCoor(l.points[medianIndex], dim - 1);
      var (dimLeft, k1) := SplitByDim(Some(l), dim, splitMethod, rand, k);
      var left := Create(Some(l), dimLeft, splitMethod, rand, k1);
      var (dimRight, k2) := SplitByDim(Some(r), dim, splitMethod, rand, left.draws);
      var right := Create(Some(r), dimRight, splitMethod, rand, k2);
      if left.tree.None? || right.tree.None? then Built(None, right.draws)
      else
        NodeShaped(a, dim, l, r, val, left.tree.value, right.tree.value);
        Built(Some(Node(dim, val, left.tree.value, right.tree.value)), right.draws)
  }

  /**
   * The children CreateNode hangs under its node: the split on axis
   * `dim - 1` gives halves of ceil(n/2) and floor(n/2) points, each half is
   * built on the axis spKDTreeNodeSplitByDim picks for it (left first, so
   * its `rand()` draws come first), and the node exists exactly when both
   * children do, with the left half's last coordinate on that axis as value.
   */
  lemma CreateNodeHalves(a: KDArray, dim: int, splitMethod: SplitMethod, rand: nat -> nat, k: nat)
    requires WF(a) && a.size > 1 && 1 <= dim <= a.dim
    ensures SplitSpec(Some(a), dim - 1).Some?
    ensures var (l, r) := SplitSpec(Some(a), dim - 1).value;
      && WF(l) && WF(r) && l.dim == a.dim == r.dim
      && l.size == LeftSize(a.size) && r.size == a.size - LeftSize(a.size)
    ensures var (l, r) := SplitSpec(Some(a), dim - 1).value;
      var (dimLeft, k1) := SplitByDim(Some(l), dim, splitMethod, rand, k);
      var left := Create(Some(l), dimLeft, splitMethod, rand, k1);
      var (dimRight, k2) := SplitByDim(Some(r), dim, splitMethod, rand, left.draws);
      var right := Create(Some(r), dimRight, splitMethod, rand, k2);
      var b := CreateNode(a, dim, splitMethod, rand, k);
      && (b.tree.Some? <==> left.tree.Some? && right.tree.Some?)
      && (b.tree.Some? ==>
        && b.tree.value.left == left.tree.value && b.tree.value.right == right.tree.value
        && b.tree.value.val == MedianValue(l, dim - 1))
  {
    SplitHalvesWF(a, dim - 1);
    var (l, r) := SplitSpec(Some(a), dim - 1).value;
    var (dimLeft, k1) := SplitByDim(Some(l), dim, splitMethod, rand, k);
    var left := Create(Some(l), dimLeft, splitMethod, rand, k1);
    var (dimRight, k2) := SplitByDim(Some(r), dim, splitMethod, rand, left.draws);
    var right := Create(Some(r), dimRight, splitMethod, rand, k2);
    var b := CreateNode(a, dim, splitMethod, rand, k);
    if left.tree.Some? && right.tree.Some? {
      assert b.tree == Some(Node(dim, MedianValue(l, dim - 1), left.tree.value, right.tree.value));
    } else {
      assert b.tree.None?;
    }
  }

  /**
   * A node CreateNode builds is balanced: its left subtree holds exactly the
   * ceil(n/2) points of the split's left half, its right subtree exactly the
   * floor(n/2) others, each shaped as Create promises.
   */
  lemma CreateNodeChildrenShaped(a: KDArray, dim: int, splitMethod: SplitMethod, rand: nat -> nat, k: nat)
    requires WF(a) && a.size > 1 && 1 <= dim <= a.dim
    ensures var b := CreateNode(a, dim, splitMethod, rand, k);
      b.tree.Some? ==>
        && SplitSpec(Some(a), dim - 1).Some?
        && var (l, r) := SplitSpec(Some(a), dim - 1).value;
        && Shaped(b.tree.value.left, l.points, a.dim) && Shaped(b.tree.value.right, r.points, a.dim)
        && |Leaves(b.tree.value.left)| == LeftSize(a.size)
        && |Leaves(b.tree.value.right)| == a.size - LeftSize(a.size)
  {
    var b := CreateNode(a, dim, splitMethod, rand, k);
    if b.tree.Some? {
      CreateNodeHalves(a, dim, splitMethod, rand, k);
      var (l, r) := SplitSpec(Some(a), dim - 1).value;
      var (dimLeft, k1) := SplitByDim(Some(l), dim, splitMethod, rand, k);
      var left := Create(Some(l), dimLeft, splitMethod, rand, k1);
      var (dimRight, k2) := SplitByDim(Some(r), dim, splitMethod, rand, left.draws);
      var right := Create(Some(r), dimRight, splitMethod, rand, k2);
      var t := b.tree.value;
      assert t.left == left.tree.value && t.right == right.tree.value;
      LeavesCount(Leaves(t.left), l.points);
      LeavesCount(Leaves(t.right), r.points);
    }
  }

  /**
   * INCREMENTAL on two-dimensional points of which there are at least three:
   * the root splits on axis 1 (coordinate 0), its left half of ceil(n/2) >= 2
   * points gets `(1 + 1) % 2 == 0`, which cannot split, so the NULL child
   * makes the whole build NULL.
   */
  lemma BuildIncrementalTwoAxesFails(points: Option<seq<Point>>, size: int, rand: nat -> nat)
    requires InitArgs(points, size, 2) && size >= 3
    ensures Build(points, size, 2, Incremental, rand).None?
  {
    if points.Some? {
      InitSpecCorrect(points, size, 2);
      var a := InitSpec(points, size, 2).value;
      CreateNodeHalves(a, 1, Incremental, rand, 0);
    }
  }

  /** spKDTreeBuild: a KD array of the points, its first axis chosen with previous `dim` 0, then Create. */
  function Build(points: Option<seq<Point>>, size: int, dim: int, splitMethod: SplitMethod, rand: nat -> nat): (t: Option<Tree>)
    requires InitArgs(points, size, dim)
    ensures points.None? || size <= 0 || dim <= 0 ==> t.None?
  {
    if points.None? || size <= 0 then None
    else
      var arr := InitSpec(points, size, dim);
      if arr.None? then None
      else
        InitSpecCorrect(points, size, dim);
        var (splitDim, k) := SplitByDim(arr, 0, splitMethod, rand, 0);
        Create(arr, splitDim, splitMethod, rand, k).tree
  }

  /**
   * What spKDTreeNodeCreate builds from points `pts` with `n` axes: its
   * leaves are the points, each as often as it occurs; every node separates
   * its leaves; every node splits on one of the `n` axes.
   */
  ghost predicate Shaped(t: Tree, pts: seq<Point>, n: int) {
    multiset(Leaves(t)) == multiset(pts) && Separated(t) && NodeAxes(t, n)
  }

  /** The coordinate on axis `coor` of the last point of row `coor`: the largest one. */
  function MedianValue(l: KDArray, coor: int): real
    requires WF(l) && 0 <= coor < l.dim
  {
    l.points[l.matrix[coor][l.size - 1]].data[coor]
  }

  /**
   * `lpts` lie at or below `v` on axis `axis`, `rpts` at or above it, and a
   * point of `lpts` attains it.
   */
  predicate Around(lpts: seq<Point>, rpts: seq<Point>, axis: int, v: real) {
    && 0 <= axis
    && (forall q :: q in lpts ==> axis < |q.data| && q.data[axis] <= v)
    && (forall q :: q in rpts ==> axis < |q.data| && q.data[axis] >= v)
    && (exists q :: q in lpts && axis < |q.data| && q.data[axis] == v)
  }

  /**
   * The halves of a split on `coor` hold together the array's points and lie
   * on either side of the left half's last point in its row `coor`.
   */
  lemma SplitAroundMedian(a: KDArray, coor: int, l: KDArray, r: KDArray)
    requires WF(a) && 0 <= coor < a.dim && a.size > 1 && SplitSpec(Some(a), coor) == Some((l, r))
    ensures WF(l) && l.dim == a.dim
    ensures Around(l.points, r.points, coor, MedianValue(l, coor))
    ensures multiset(l.points) + multiset(r.points) == multiset(a.points)
  {
    SplitHalvesWF(a, coor);
    SplitSeparates(a, coor);
    SplitPartition(a, coor);
    RowLastIsMax(l, coor);
    var mi := l.matrix[coor][l.size - 1];
    forall q | q in l.points ensures coor < |q.data| && q.data[coor] <= l.points[mi].data[coor] {
      var i :| 0 <= i < |l.points| && l.points[i] == q;
    }
    forall q | q in r.points ensures coor < |q.data| && q.data[coor] >= l.points[mi].data[coor] {
      var j :| 0 <= j < |r.points| && r.points[j] == q;
    }
    assert l.points[mi] in l.points;
  }

  /** Points in a sequence with the multiset of another are in the other. */
  lemma SameMultisetMembers(s: seq<Point>, t: seq<Point>)
    requires multiset(s) == multiset(t)
    ensures forall q :: q in s ==> q in t
  {
    forall q | q in s ensures q in t {
      assert q in multiset(s);
    }
  }

  /**
   * A node on axis `d` over subtrees shaped from two point sequences that lie
   * on either side of its value is shaped from their union.
   */
  lemma NodeOverHalves(d: int, v: real, lt: Tree, rt: Tree, lpts: seq<Point>, rpts: seq<Point>, pts: seq<Point>, n: int)
    requires 1 <= d <= n && Shaped(lt, lpts, n) && Shaped(rt, rpts, n)
    requires multiset(lpts) + multiset(rpts) == multiset(pts)
    requires Around(lpts, rpts, d - 1, v)
    ensures Shaped(Node(d, v, lt, rt), pts, n)
  {
    SameMultisetMembers(Leaves(lt), lpts);
    SameMultisetMembers(Leaves(rt), rpts);
    SameMultisetMembers(lpts, Leaves(lt));
  }

  /** The node CreateNode builds over the subtrees of a split's halves. */
  lemma NodeShaped(a: KDArray, dim: int, l: KDArray, r: KDArray, v: real, lt: Tree, rt: Tree)
    requires WF(a) && 1 <= dim <= a.dim && a.size > 1 && SplitSpec(Some(a), dim - 1) == Some((l, r))
    requires WF(l) && l.dim == a.dim == r.dim && v == MedianValue(l, dim - 1)
    requires Shaped(lt, l.points, a.dim) && Shaped(rt, r.points, a.dim)
    ensures Shaped(Node(dim, v, lt, rt), a.points, a.dim)
  {
    SplitAroundMedian(a, dim - 1, l, r);
    NodeOverHalves(dim, v, lt, rt, l.points, r.points, a.points, a.dim);
  }

  /** Sequences with the same multiset have the same length. */
  lemma LeavesCount(s: seq<Point>, t: seq<Point>)
    requires multiset(s) == multiset(t)
    ensures |s| == |t|
  {
    assert |s| == |multiset(s)|;
  }

  /**
   * What spKDTreeBuild returns, when it returns a tree: one leaf per input
   * point, each point as often as it occurs, a tree that separates its leaves
   * on every node and splits on the `dim` axes only; with points of exactly
   * `dim` coordinates it is a tree the search accepts.
   */
  lemma BuildShape(points: Option<seq<Point>>, size: int, dim: int, splitMethod: SplitMethod, rand: nat -> nat)
    requires InitArgs(points, size, dim)
    ensures var t := Build(points, size, dim, splitMethod, rand);
      t.Some? ==>
        && points.Some? && 0 < size <= |points.value| && 0 < dim
        && Shaped(t.value, points.value[..size], dim) && |Leaves(t.value)| == size
    ensures var t := Build(points, size, dim, splitMethod, rand);
      t.Some? && (forall k :: 0 <= k < size ==> |points.value[k].data| == dim) ==> Searchable(t.value, dim)
  {
    var t := Build(points, size, dim, splitMethod, rand);
    if t.Some? {
      InitSpecCorrect(points, size, dim);
      var a := InitSpec(points, size, dim).value;
      LeavesCount(Leaves(t.value), a.points);
      if forall k :: 0 <= k < size ==> |points.value[k].data| == dim {
        SameMultisetMembers(Leaves(t.value), a.points);
        forall q | q in Leaves(t.value) ensures Valid(q) && |q.data| == dim {
          var k :| 0 <= k < |a.points| && a.points[k] == q;
        }
        FitsOfLeaves(t.value, dim);
      }
    }
  }

  /** With MAX_SPREAD every split uses an axis in [1, dim], so the build never fails on a KD array. */
  lemma {:induction false} CreateMaxSpreadBuilds(a: KDArray, dim: int, rand: nat -> nat, k: nat)
    requires WF(a) && 1 <= dim <= a.dim
    ensures Create(Some(a), dim, MaxSpread, rand, k).tree.Some?
    decreases a.size, 1
  {
    if a.size > 1 {
      CreateNodeMaxSpreadBuilds(a, dim, rand, k);
    }
  }

  /** The node case of CreateMaxSpreadBuilds: both halves get an axis in [1, dim] and build. */
  lemma {:induction false} CreateNodeMaxSpreadBuilds(a: KDArray, dim: int, rand: nat -> nat, k: nat)
    requires WF(a) && a.size > 1 && 1 <= dim <= a.dim
    ensures CreateNode(a, dim, MaxSpread, rand, k).tree.Some?
    decreases a.size, 0
  {
    var split := SplitSpec(Some(a), dim - 1);
    SplitHalvesWF(a, dim - 1);
    var (l, r) := split.value;
    var (dimLeft, k1) := SplitByDim(Some(l), dim, MaxSpread, rand, k);
    SplitByDimRange(Some(l), dim, MaxSpread, rand, k);
    CreateMaxSpreadBuilds(l, dimLeft, rand, k1);
    var left := Create(Some(l), dimLeft, MaxSpread, rand, k1);
    var (dimRight, k2) := SplitByDim(Some(r), dim, MaxSpread, rand, left.draws);
    SplitByDimRange(Some(r), dim, MaxSpread, rand, left.draws);
    CreateMaxSpreadBuilds(r, dimRight, rand, k2);
  }

  /** spKDTreeBuild with MAX_SPREAD returns a tree for every non-NULL input of positive size and dimension. */
  lemma BuildMaxSpread(points: Option<seq<Point>>, size: int, dim: int, rand: nat -> nat)
    requires InitArgs(points, size, dim)
    ensures Build(points, size, dim, MaxSpread, rand).Some? <==> points.Some? && size > 0 && dim > 0
  {
    if points.Some? && size > 0 && dim > 0 {
      InitSpecCorrect(points, size, dim);
      var arr := InitSpec(points, size, dim);
      SplitByDimRange(arr, 0, MaxSpread, rand, 0);
      var (splitDim, k) := SplitByDim(arr, 0, MaxSpread, rand, 0);
      CreateMaxSpreadBuilds(arr.value, splitDim, rand, k);
    }
  }

  /**
   * INCREMENTAL on one-dimensional points of which there are at least two:
   * the first axis is `(0 + 1) % 1 == 0`, whose split fails, so the build
   * returns NULL.
   */
  lemma BuildIncrementalOneAxisFails(points: Option<seq<Point>>, size: int, rand: nat -> nat)
    requires InitArgs(points, size, 1) && size >= 2
    ensures Build(points, size, 1, Incremental, rand).None?
  {
    if points.Some? {
      InitSpecCorrect(points, size, 1);
    }
  }

  /**
   * RANDOM whose first `rand()` value is a multiple of `dim`: the first axis
   * is 0 and the build of two or more points returns NULL.
   */
  lemma BuildRandomZeroFails(points: Option<seq<Point>>, size: int, dim: int, rand: nat -> nat)
    requires InitArgs(points, size, dim) && size >= 2 && dim > 0 && rand(0) % dim == 0
    ensures Build(points, size, dim, Random, rand).None?
  {
    if points.Some? {
      InitSpecCorrect(points, size, dim);
    }
  }

  // ---------------------------------------------------------------------------
  // k-nearest-neighbour search

  /** The element a leaf offers the queue: its point's index and squared distance to the query. */
  function Offer(q: Point, p: Point): BPQueue.Element
    requires |q.data| == |p.data|
  {
    BPQueue.Element(q.index, SqDist(q.data, p.data))
  }

  /** Whether the search descends into the left subtree first: the query lies at or below the node's value. */
  predicate GoesLeft(d: int, v: real, p: Point)
    requires 1 <= d <= |p.data|
  {
    GetAxisCoor(p, d - 1) <= v
  }

  /** The squared distance from the query to the node's splitting plane. */
  function PlaneDist(d: int, v: real, p: Point): real
    requires 1 <= d <= |p.data|
  {
    (v - GetAxisCoor(p, d - 1)) * (v - GetAxisCoor(p, d - 1))
  }

  /** The subtree on the query's side of a node: searched first. */
  function Near(t: Tree, p: Point): (n: Tree)
    requires t.Node? && 1 <= t.dim <= |p.data|
    ensures n == (if GoesLeft(t.dim, t.val, p) then t.left else t.right)
  {
    if GoesLeft(t.dim, t.val, p) then t.left else t.right
  }

  /** The subtree on the other side: searched second, if at all. */
  function Far(t: Tree, p: Point): (f: Tree)
    requires t.Node? && 1 <= t.dim <= |p.data|
    ensures f == (if GoesLeft(t.dim, t.val, p) then t.right else t.left)
  {
    if GoesLeft(t.dim, t.val, p) then t.right else t.left
  }

  /**
   * Whether the search goes on to the far side once the queue holds `s1`:
   * the queue is not full, or its maximum exceeds the plane distance.
   */
  predicate Descends(t: Tree, s1: seq<BPQueue.Element>, cap: int, p: Point)
    requires t.Node? && 1 <= t.dim <= |p.data|
  {
    |s1| != cap || (|s1| > 0 && PlaneDist(t.dim, t.val, p) < s1[|s1| - 1].value)
  }

  /**
   * The queue contents after spKDTreeNodeSearchKNN visits `t` with the queue
   * holding `s`: a leaf enqueues its offer; a node searches its near side,
   * then its far side when `Descends` says so.
   */
  function Search(t: Tree, s: seq<BPQueue.Element>, cap: int, p: Point): seq<BPQueue.Element>
    requires cap > 0 && Fits(t, |p.data|)
    decreases t
  {
    match t
    case Leaf(q) => BPQueue.EnqueueContents(s, Offer(q, p), cap)
    case Node(_, _, _, _) =>
      var s1 := Search(Near(t, p), s, cap, p);
      if Descends(t, s1, cap, p) then Search(Far(t, p), s1, cap, p) else s1
  }

  /** The squared distances of all leaves to the query, with multiplicities. */
  function Distances(t: Tree, p: Point): multiset<real>
    requires Fits(t, |p.data|)
  {
    match t
    case Leaf(q) => multiset{SqDist(q.data, p.data)}
    case Node(_, _, l, r) => Distances(l, p) + Distances(r, p)
  }

  /**
   * spKDTreeNodeSearchKNN: false for a NULL queue, tree or point; otherwise
   * the queue ends up as `Search` says.  The model's queue never runs out of
   * memory, so the search then returns true.
   */
  method SearchKNN(bpq: BPQueue.Queue?, curr: Option<Tree>, point: Option<Point>) returns (ok: bool)
    requires bpq != null ==> bpq.Valid()
    requires curr.Some? && point.Some? ==> Fits(curr.value, |point.value.data|)
    modifies if bpq != null then {bpq, bpq.elements} else {}
    ensures ok <==> bpq != null && curr.Some? && point.Some?
    ensures bpq != null ==> bpq.Valid() && bpq.elements == old(bpq.elements) && bpq.maxSize == old(bpq.maxSize)
    ensures bpq != null && !ok ==> bpq.Contents == old(bpq.Contents)
    ensures ok ==> bpq.Contents == Search(curr.value, old(bpq.Contents), bpq.maxSize, point.value)
  {
    if bpq == null || curr.None? || point.None? {
      return false;
    }
    ok := SearchTree(bpq, curr.value, point.value);
  }

  /**
   * The queue's invariant under a name of its own: the search passes it on
   * whole from call to call, so its proof need not take it apart.
   */
  ghost predicate Intact(q: BPQueue.Queue)
    reads q, q.elements
  {
    q.Valid()
  }

  /**
   * The recursion of spKDTreeNodeSearchKNN once its arguments are known to
   * be there: the children of a node are never NULL.
   */
  method SearchTree(bpq: BPQueue.Queue, t: Tree, p: Point) returns (ok: bool)
    requires Intact(bpq) && Fits(t, |p.data|)
    modifies bpq, bpq.elements
    ensures ok
    ensures Intact(bpq) && bpq.elements == old(bpq.elements) && bpq.maxSize == old(bpq.maxSize)
    ensures bpq.Contents == Search(t, old(bpq.Contents), bpq.maxSize, p)
    decreases t
  {
    match t
    case Leaf(q) =>
      var dist := L2SquaredDistance(q, p);
      var msg := bpq.Enqueue(GetIndex(q), dist);
      ok := msg != BPQueue.OutOfMemory;
    case Node(d, v, _, _) =>
      ok := SearchTree(bpq, Near(t, p), p);
      if ok && (!bpq.IsFull() || PlaneDist(d, v, p) < bpq.MaxValue()) {
        ok := SearchTree(bpq, Far(t, p), p);
      }
  }

  /** spKDTreeNodeGetKNN: -1 for a NULL argument or a failed search, 1 otherwise; the queue is not cleared first. */
  method GetKNN(root: Option<Tree>, bpq: BPQueue.Queue?, point: Option<Point>) returns (res: int)
    requires bpq != null ==> bpq.Valid()
    requires root.Some? && point.Some? ==> Fits(root.value, |point.value.data|)
    modifies if bpq != null then {bpq, bpq.elements} else {}
    ensures res == 1 <==> root.Some? && bpq != null && point.Some?
    ensures res == 1 || res == -1
    ensures bpq != null ==> bpq.Valid() && bpq.maxSize == old(bpq.maxSize)
    ensures bpq != null && res == -1 ==> bpq.Contents == old(bpq.Contents)
    ensures res == 1 ==> bpq.Contents == Search(root.value, old(bpq.Contents), bpq.maxSize, point.value)
  {
    if root.None? || bpq == null || point.None? {
      return -1;
    }
    var ok := SearchKNN(bpq, root, point);
    res := if ok then 1 else -1;
  }

  /** What a valid queue of capacity `cap` holds: sorted, within capacity, every element admissible. */
  predicate QueueContents(s: seq<BPQueue.Element>, cap: int) {
    BPQueue.Sorted(s) && |s| <= cap && BPQueue.AllAdmissible(s)
  }

  /** The queue's own invariant gives what its contents satisfy. */
  lemma IntactContents(q: BPQueue.Queue)
    requires Intact(q)
    ensures QueueContents(q.Contents, q.maxSize) && q.maxSize > 0
  {
  }

  /** The queue stays sorted, admissible and within its capacity through a search. */
  lemma {:induction false} SearchPreservesInvariant(t: Tree, s: seq<BPQueue.Element>, cap: int, p: Point)
    requires cap > 0 && Fits(t, |p.data|) && QueueContents(s, cap)
    ensures QueueContents(Search(t, s, cap, p), cap)
    decreases t
  {
    match t
    case Leaf(q) =>
      BPQueue.EnqueuePreservesInvariant(s, Offer(q, p), cap);
    case Node(_, _, _, _) =>
      var s1 := Search(Near(t, p), s, cap, p);
      SearchPreservesInvariant(Near(t, p), s, cap, p);
      if Descends(t, s1, cap, p) {
        SearchPreservesInvariant(Far(t, p), s1, cap, p);
      }
  }

  /** Squaring is monotone on non-negative reals. */
  lemma SquareMonotone(a: real, b: real)
    requires 0.0 <= a <= b
    ensures a * a <= b * b
  {
    assert a * a <= a * b;
    assert a * b <= b * b;
  }

  /**
   * A point on the far side of a node's plane is at least the plane's
   * squared distance away from the query.
   */
  lemma FarPointBound(q: Point, p: Point, d: int, v: real)
    requires 1 <= d <= |p.data| && |q.data| == |p.data|
    requires GoesLeft(d, v, p) ==> q.data[d - 1] >= v
    requires !GoesLeft(d, v, p) ==> q.data[d - 1] <= v
    ensures SqDist(q.data, p.data) >= PlaneDist(d, v, p)
  {
    var x := p.data[d - 1];
    var y := q.data[d - 1];
    SqDistAxisBound(q.data, p.data, d - 1);
    if x <= v {
      SquareMonotone(v - x, y - x);
    } else {
      SquareMonotone(x - v, x - y);
      assert (v - x) * (v - x) == (x - v) * (x - v);
      assert (y - x) * (y - x) == (x - y) * (x - y);
    }
  }

  /** A lower bound on every leaf's squared distance bounds every distance of the tree. */
  lemma {:induction false} DistancesAtLeast(t: Tree, p: Point, b: real)
    requires Fits(t, |p.data|)
    requires forall q :: q in Leaves(t) ==> |q.data| == |p.data| && SqDist(q.data, p.data) >= b
    ensures forall w :: w in Distances(t, p) ==> w >= b
  {
    match t
    case Leaf(q) =>
      assert q in Leaves(t);
    case Node(_, _, l, r) =>
      DistancesAtLeast(l, p, b);
      DistancesAtLeast(r, p, b);
  }

  /** Every leaf of a fitting tree is a valid point of the query's dimension. */
  lemma {:induction false} FitsLeaves(t: Tree, n: int)
    requires Fits(t, n)
    ensures forall q :: q in Leaves(t) ==> Valid(q) && |q.data| == n
  {
    match t
    case Leaf(_) =>
    case Node(_, _, l, r) =>
      FitsLeaves(l, n);
      FitsLeaves(r, n);
  }

  /** Every distance on the far side of a node is at least the plane distance. */
  lemma FarSideBound(t: Tree, p: Point)
    requires t.Node? && Fits(t, |p.data|) && Separated(t)
    ensures forall w :: w in Distances(Far(t, p), p) ==> w >= PlaneDist(t.dim, t.val, p)
  {
    match t
    case Node(d, v, l, r) =>
      if GoesLeft(d, v, p) {
        SideBound(r, p, d, v, true);
      } else {
        SideBound(l, p, d, v, false);
      }
  }

  /** Every point of `pts` lies at or above `v` on axis `axis` (`above`), or at or below it. */
  predicate Beyond(pts: seq<Point>, axis: int, v: real, above: bool) {
    forall q :: q in pts ==> 0 <= axis < |q.data| && (if above then q.data[axis] >= v else q.data[axis] <= v)
  }

  /**
   * The leaves of `t` lie at or above `v` on axis `d - 1` (`above`) or at or
   * below it, on the side away from the query: their distances are at least
   * the plane distance.
   */
  lemma SideBound(t: Tree, p: Point, d: int, v: real, above: bool)
    requires 1 <= d <= |p.data| && Fits(t, |p.data|) && above == GoesLeft(d, v, p)
    requires Beyond(Leaves(t), d - 1, v, above)
    ensures forall w :: w in Distances(t, p) ==> w >= PlaneDist(d, v, p)
  {
    FitsLeaves(t, |p.data|);
    forall q | q in Leaves(t) ensures SqDist(q.data, p.data) >= PlaneDist(d, v, p) {
      FarPointBound(q, p, d, v);
    }
    DistancesAtLeast(t, p, PlaneDist(d, v, p));
  }

  /** A tree the build can produce, searched with a query of dimension `n`. */
  ghost predicate Searchable(t: Tree, n: int) {
    Fits(t, n) && Separated(t)
  }

  /**
   * By value, the search leaves in the queue the smallest of what it held
   * and of all the tree's distances: pruning a side never loses a value the
   * queue should hold.
   */
  lemma {:induction false} SearchKeepsSmallest(t: Tree, s: seq<BPQueue.Element>, cap: int, p: Point, offered: multiset<real>)
    requires cap > 0 && Searchable(t, |p.data|) && QueueContents(s, cap)
    requires BPQueue.KeepsSmallest(BPQueue.Values(s), offered, cap)
    ensures BPQueue.KeepsSmallest(BPQueue.Values(Search(t, s, cap, p)), offered + Distances(t, p), cap)
    decreases t, 1
  {
    match t
    case Leaf(q) =>
      SqDistNonNegative(q.data, p.data);
      BPQueue.EnqueueKeepsSmallestValues(s, Offer(q, p), cap, offered);
    case Node(_, _, _, _) =>
      SearchKeepsSmallest(Near(t, p), s, cap, p, offered);
      SearchPreservesInvariant(Near(t, p), s, cap, p);
      if Descends(t, Search(Near(t, p), s, cap, p), cap, p) {
        DescendKeepsSmallest(t, s, cap, p, offered);
      } else {
        PrunedKeepsSmallest(t, s, cap, p, offered);
      }
  }

  /** The queue after the near side of `t`, as `SearchKeepsSmallest` gives it for that side. */
  ghost predicate NearKept(t: Tree, s: seq<BPQueue.Element>, cap: int, p: Point, offered: multiset<real>)
    requires t.Node? && cap > 0 && Fits(t, |p.data|)
  {
    var s1 := Search(Near(t, p), s, cap, p);
    QueueContents(s1, cap) && BPQueue.KeepsSmallest(BPQueue.Values(s1), offered + Distances(Near(t, p), p), cap)
  }

  /** The near and far sides' distances make up the node's. */
  lemma SidesDistances(t: Tree, p: Point, offered: multiset<real>)
    requires t.Node? && Fits(t, |p.data|)
    ensures offered + Distances(Near(t, p), p) + Distances(Far(t, p), p) == offered + Distances(t, p)
  {
  }

  /** A node whose far side is searched keeps the smallest values, given that both sides do. */
  lemma {:induction false} DescendKeepsSmallest(t: Tree, s: seq<BPQueue.Element>, cap: int, p: Point, offered: multiset<real>)
    requires t.Node? && cap > 0 && Searchable(t, |p.data|) && NearKept(t, s, cap, p, offered)
    requires Descends(t, Search(Near(t, p), s, cap, p), cap, p)
    ensures BPQueue.KeepsSmallest(BPQueue.Values(Search(t, s, cap, p)), offered + Distances(t, p), cap)
    decreases t, 0
  {
    var s1 := Search(Near(t, p), s, cap, p);
    SearchKeepsSmallest(Far(t, p), s1, cap, p, offered + Distances(Near(t, p), p));
    SidesDistances(t, p, offered);
  }

  /**
   * A node whose far side is skipped: the queue is full and its maximum is at
   * most the plane distance, which every far distance reaches, so it keeps
   * holding the smallest values.
   */
  lemma PrunedKeepsSmallest(t: Tree, s: seq<BPQueue.Element>, cap: int, p: Point, offered: multiset<real>)
    requires t.Node? && cap > 0 && Searchable(t, |p.data|) && NearKept(t, s, cap, p, offered)
    requires !Descends(t, Search(Near(t, p), s, cap, p), cap, p)
    ensures BPQueue.KeepsSmallest(BPQueue.Values(Search(t, s, cap, p)), offered + Distances(t, p), cap)
  {
    var s1 := Search(Near(t, p), s, cap, p);
    var offered1 := offered + Distances(Near(t, p), p);
    assert |BPQueue.Values(s1)| == |s1|;
    BPQueue.SortedValuesBound(s1);
    FarSideBound(t, p);
    BPQueue.KeepsSmallestOfLarger(BPQueue.Values(s1), offered1, cap, Distances(Far(t, p), p));
    SidesDistances(t, p, offered);
  }

  /** `e` is what some leaf of `t` offers the queue for the query `p`. */
  ghost predicate OfferedBy(e: BPQueue.Element, t: Tree, p: Point) {
    exists q :: q in Leaves(t) && |q.data| == |p.data| && e == Offer(q, p)
  }

  /** What a subtree offers, its parent offers. */
  lemma OfferedBySubtree(e: BPQueue.Element, t: Tree, p: Point)
    requires t.Node? && (OfferedBy(e, t.left, p) || OfferedBy(e, t.right, p))
    ensures OfferedBy(e, t, p)
  {
    var q :| (q in Leaves(t.left) || q in Leaves(t.right)) && |q.data| == |p.data| && e == Offer(q, p);
    assert q in Leaves(t);
  }

  /**
   * The search invents no element: everything the queue holds afterwards
   * was held before or is the (index, squared distance) of a leaf of `t`.
   */
  lemma {:induction false} SearchHoldsOffers(t: Tree, s: seq<BPQueue.Element>, cap: int, p: Point)
    requires cap > 0 && Fits(t, |p.data|)
    ensures forall e :: e in Search(t, s, cap, p) ==> e in s || OfferedBy(e, t, p)
    decreases t
  {
    match t
    case Leaf(q) =>
      BPQueue.EnqueueHoldsOffered(s, Offer(q, p), cap);
      assert q in Leaves(t);
    case Node(_, _, _, _) =>
      var s1 := Search(Near(t, p), s, cap, p);
      SearchHoldsOffers(Near(t, p), s, cap, p);
      if Descends(t, s1, cap, p) {
        SearchHoldsOffers(Far(t, p), s1, cap, p);
      }
      forall e | e in Search(t, s, cap, p) && e !in s ensures OfferedBy(e, t, p) {
        OfferedBySubtree(e, t, p);
      }
  }

  /**
   * From an empty queue, the search keeps the `cap` smallest distances of the
   * tree, or all of them, and every element it holds is the index and squared
   * distance of one of the tree's points.
   */
  lemma SearchFromEmpty(t: Tree, cap: int, p: Point)
    requires cap > 0 && Searchable(t, |p.data|)
    ensures BPQueue.KeepsSmallest(BPQueue.Values(Search(t, [], cap, p)), Distances(t, p), cap)
    ensures forall e :: e in Search(t, [], cap, p) ==>
      exists q :: q in Leaves(t) && |q.data| == |p.data| && e == BPQueue.Element(q.index, SqDist(q.data, p.data))
  {
    assert BPQueue.Values([]) == multiset{};
    assert multiset{} + Distances(t, p) == Distances(t, p);
    SearchKeepsSmallest(t, [], cap, p, multiset{});
    SearchHoldsOffers(t, [], cap, p);
  }
}
