/**
 * The KD array (SPKDArray.c): a copy of `size` points together with one row
 * per axis, where row `r` lists every position 0..size-1 once, ascending by
 * coordinate `r`, ties by position.  Splitting on an axis sends the first
 * ceil(size/2) positions of that axis's row to the left half and the rest to
 * the right, and derives every row of each half from the parent's row by
 * filtering and renumbering, without sorting again.
 */
module KDArrays {
  import opened Wrappers
  import opened Sequences
  import opened Points
  import BPQueue

  type Element = BPQueue.Element

  /** A KD array: its points, the sorted matrix (one row per axis), and its dimensions. */
  datatype KDArray = KDArray(points: seq<Point>, matrix: seq<seq<int>>, dim: int, size: int)

  /** The two halves of a split; `Left` is the zero that calloc leaves in `X`. */
  datatype Side = Left | Right

  predicate AllValid(pts: seq<Point>) {
    forall k :: 0 <= k < |pts| ==> Valid(pts[k])
  }

  /** Every point has a coordinate on each of the first `dim` axes. */
  predicate HasAxes(pts: seq<Point>, dim: int) {
    forall k :: 0 <= k < |pts| ==> dim <= |pts[k].data|
  }

  predicate InRange(row: seq<int>, n: int) {
    forall i :: 0 <= i < |row| ==> 0 <= row[i] < n
  }

  /** The element spKDArrayInit sorts for position `k` on axis `axis`. */
  function Key(pts: seq<Point>, axis: int, k: int): Element
    requires 0 <= k < |pts| && 0 <= axis < |pts[k].data|
  {
    BPQueue.Element(k, pts[k].data[axis])
  }

  /** Position `k` comes strictly before position `l` on axis `axis`. */
  predicate Before(pts: seq<Point>, axis: int, k: int, l: int) {
    && 0 <= k < |pts| && 0 <= l < |pts|
    && 0 <= axis < |pts[k].data| && axis < |pts[l].data|
    && BPQueue.Less(Key(pts, axis, k), Key(pts, axis, l))
  }

  function BeforeOn(pts: seq<Point>, axis: int): (int, int) -> bool {
    (k, l) => Before(pts, axis, k, l)
  }

  /** A row of the sorted matrix: each position once, strictly ascending on `axis`. */
  predicate SortedPermutation(row: seq<int>, pts: seq<Point>, axis: int) {
    multiset(row) == multiset(Range(|pts|)) && Pairwise(row, BeforeOn(pts, axis))
  }

  /** What every KD array built by spKDArrayInit or spKDArraySplit satisfies. */
  predicate WF(a: KDArray) {
    && a.size == |a.points| && a.size > 0
    && a.dim == |a.matrix| && a.dim > 0
    && AllValid(a.points) && HasAxes(a.points, a.dim)
    && forall r :: 0 <= r < a.dim ==>
         |a.matrix[r]| == a.size && InRange(a.matrix[r], a.size) && SortedPermutation(a.matrix[r], a.points, r)
  }

  // ---------------------------------------------------------------------------
  // Comparator and allocation
  // ---------------------------------------------------------------------------

  /**
   * spKDArrayCompareValuesByDim, the comparator given to qsort.  It never
   * answers 0; on elements with different indexes it is the queue's order.
   */
  function CompareValuesByDim(e1: Element, e2: Element): (c: int)
    ensures c == 1 || c == -1
    ensures e1.index != e2.index ==> (c == -1 <==> BPQueue.Less(e1, e2))
  {
    if e1.value > e2.value then 1
    else if e1.value < e2.value then -1
    else if e1.index > e2.index then 1
    else -1
  }

  /**
   * spKDArrayAlloc: copies the first `n` points (spDKArrayPointsCopy) and
   * allocates a `dim` by `n` matrix whose contents are not yet meaningful.
   * The matrix allocation (spKDArrayMatrixAlloc) refuses zero rows.
   */
  method Alloc(points: Option<seq<Point>>, n: int, dim: int) returns (r: Option<KDArray>)
    requires points.Some? && n > 0 ==> n <= |points.value| && AllValid(points.value[..n])
    ensures r.Some? <==> points.Some? && n > 0 && dim > 0
    ensures r.Some? ==> r.value.points == points.value[..n] && r.value.size == n
    ensures r.Some? ==> r.value.dim == dim && |r.value.matrix| == dim
  {
    if points.None? || n <= 0 || dim < 0 {
      return None;
    }
    var src := points.value;
    var copies: seq<Point> := [];
    for i := 0 to n
      invariant copies == src[..i]
    {
      assert src[..n][i] == src[i];
      copies := copies + [Copy(src[i])];
    }
    if dim == 0 {
      return None;
    }
    r := Some(KDArray(copies, seq(dim, _ => seq(n, _ => 0)), dim, n));
  }

  // ---------------------------------------------------------------------------
  // spKDArrayInit
  // ---------------------------------------------------------------------------

  /** The elements {j, coordinate `axis` of point j} that spKDArrayInit fills before sorting. */
  function Keys(pts: seq<Point>, axis: int): (r: seq<Element>)
    requires 0 <= axis && HasAxes(pts, axis + 1)
    ensures |r| == |pts| && forall j :: 0 <= j < |pts| ==> r[j] == Key(pts, axis, j)
  {
    seq(|pts|, j requires 0 <= j < |pts| => Key(pts, axis, j))
  }

  function IndexOf(e: Element): int {
    e.index
  }

  /** Row `axis` as spKDArrayInit writes it: the indexes of the keys in sorted order. */
  function SortedRow(pts: seq<Point>, axis: int): seq<int>
    requires 0 <= axis && HasAxes(pts, axis + 1)
  {
    MapSeq(SortBy(Keys(pts, axis), BPQueue.Less), IndexOf)
  }

  /** What spKDArrayInit asks of its points: `n` valid points with `dim` coordinates each. */
  predicate InitArgs(points: Option<seq<Point>>, n: int, dim: int) {
    points.Some? && n > 0 && dim >= 0 ==>
      n <= |points.value| && AllValid(points.value[..n]) && HasAxes(points.value[..n], dim)
  }

  /** The array spKDArrayInit returns, or None for NULL. */
  function InitSpec(points: Option<seq<Point>>, n: int, dim: int): Option<KDArray>
    requires InitArgs(points, n, dim)
  {
    if points.None? || n <= 0 || dim <= 0 then None
    else
      var pts := points.value[..n];
      Some(KDArray(pts, seq(dim, r requires 0 <= r < dim => SortedRow(pts, r)), dim, n))
  }

  /**
   * One pass of the loop of spKDArrayInit: the keys of axis `axis` written
   * into `elements`, sorted, and their indexes read off as the row.
   */
  method SortAxis(elements: array<Element>, src: seq<Point>, axis: int, ghost pts: seq<Point>) returns (row: seq<int>)
    requires elements.Length == |pts| <= |src| && pts == src[..|pts|]
    requires 0 <= axis && HasAxes(pts, axis + 1)
    modifies elements
    ensures row == SortedRow(pts, axis)
  {
    var n := elements.Length;
    for j := 0 to n
      invariant forall j' :: 0 <= j' < j ==> elements[j'] == Key(pts, axis, j')
    {
      assert pts[j] == src[j];
      elements[j] := BPQueue.Element(j, GetAxisCoor(src[j], axis));
    }
    assert elements[..] == Keys(pts, axis);
    var sorted := SortBy(elements[..], BPQueue.Less);
    assert |sorted| == n by {
      BPQueue.LessIsStrictOrder();
      SortByCorrect(elements[..], BPQueue.Less);
    }
    var indexes := new int[n];
    for k := 0 to n
      invariant forall k' :: 0 <= k' < k ==> indexes[k'] == sorted[k'].index
    {
      indexes[k] := sorted[k].index;
    }
    assert indexes[..] == MapSeq(sorted, IndexOf);
    row := indexes[..];
  }

  /** spKDArrayInit. The C library's qsort is modelled by `SortBy` on the scratch array's contents. */
  method Init(points: Option<seq<Point>>, n: int, dim: int) returns (r: Option<KDArray>)
    requires InitArgs(points, n, dim)
    ensures r == InitSpec(points, n, dim)
  {
    if points.None? || n <= 0 || dim < 0 {
      return None;
    }
    var alloc := Alloc(points, n, dim);
    if alloc.None? {
      return None;
    }
    var src := points.value;
    ghost var pts := src[..n];
    var matrix := alloc.value.matrix;
    var elements := new Element[n];
    for i := 0 to dim
      invariant |matrix| == dim
      invariant forall r :: 0 <= r < i ==> matrix[r] == SortedRow(pts, r)
    {
      var row := SortAxis(elements, src, i, pts);
      matrix := matrix[i := row];
    }
    assert matrix == seq(dim, r requires 0 <= r < dim => SortedRow(pts, r));
    r := Some(KDArray(alloc.value.points, matrix, dim, n));
  }

  /** The keys have distinct indexes, and reading off the indexes gives 0..n-1. */
  lemma KeysFacts(pts: seq<Point>, axis: int)
    requires 0 <= axis && HasAxes(pts, axis + 1)
    ensures Distinct(Keys(pts, axis))
    ensures MapSeq(Keys(pts, axis), IndexOf) == Range(|pts|)
  {
    var keys := Keys(pts, axis);
    forall i, j | 0 <= i < j < |keys| ensures keys[i] != keys[j] {
      assert keys[i].index == i && keys[j].index == j;
    }
  }

  /** qsort's result: an ascending permutation of the keys, without repetitions. */
  lemma SortedKeys(pts: seq<Point>, axis: int)
    requires 0 <= axis && HasAxes(pts, axis + 1)
    ensures var sorted := SortBy(Keys(pts, axis), BPQueue.Less);
      && multiset(sorted) == multiset(Keys(pts, axis))
      && SortedBy(sorted, BPQueue.Less) && Distinct(sorted)
      && forall i :: 0 <= i < |sorted| ==>
           0 <= sorted[i].index < |pts| && sorted[i] == Key(pts, axis, sorted[i].index)
  {
    var keys := Keys(pts, axis);
    var sorted := SortBy(keys, BPQueue.Less);
    BPQueue.LessIsStrictOrder();
    SortByCorrect(keys, BPQueue.Less);
    KeysFacts(pts, axis);
    PermutationDistinct(sorted, keys);
    forall i | 0 <= i < |sorted|
      ensures 0 <= sorted[i].index < |pts| && sorted[i] == Key(pts, axis, sorted[i].index)
    {
      assert sorted[i] in multiset(keys);
      var j :| 0 <= j < |keys| && keys[j] == sorted[i];
    }
  }

  /** One sorted row is a strictly ascending permutation of the positions. */
  lemma SortedRowCorrect(pts: seq<Point>, axis: int)
    requires 0 <= axis && HasAxes(pts, axis + 1)
    ensures |SortedRow(pts, axis)| == |pts|
    ensures InRange(SortedRow(pts, axis), |pts|)
    ensures SortedPermutation(SortedRow(pts, axis), pts, axis)
  {
    var keys := Keys(pts, axis);
    var sorted := SortBy(keys, BPQueue.Less);
    var row := SortedRow(pts, axis);
    SortedKeys(pts, axis);
    KeysFacts(pts, axis);
    MapPermutation(sorted, keys, IndexOf);
    assert |sorted| == |multiset(sorted)| == |pts|;
    forall i, j | 0 <= i < j < |row| ensures BeforeOn(pts, axis)(row[i], row[j]) {
      assert !BPQueue.Less(sorted[j], sorted[i]);
      assert sorted[i] != sorted[j];
    }
  }

  /** spKDArrayInit fails exactly on a NULL array, n <= 0 or dim <= 0; otherwise it is well formed. */
  lemma InitSpecCorrect(points: Option<seq<Point>>, n: int, dim: int)
    requires InitArgs(points, n, dim)
    ensures InitSpec(points, n, dim).Some? <==> points.Some? && n > 0 && dim > 0
    ensures InitSpec(points, n, dim).Some? ==>
      var a := InitSpec(points, n, dim).value;
      WF(a) && a.points == points.value[..n] && a.size == n && a.dim == dim
  {
    if points.Some? && n > 0 && dim > 0 {
      var pts := points.value[..n];
      var a := InitSpec(points, n, dim).value;
      forall r | 0 <= r < dim
        ensures |a.matrix[r]| == n && InRange(a.matrix[r], n) && SortedPermutation(a.matrix[r], pts, r)
      {
        SortedRowCorrect(pts, r);
      }
    }
  }

  // ---------------------------------------------------------------------------
  // spKDArraySplit
  // ---------------------------------------------------------------------------

  /** nLeft = ceil(n / 2), computed as the source does. */
  function LeftSize(n: int): int {
    if n % 2 == 0 then n / 2 else n / 2 + 1
  }

  /** `X` after its loop has visited the first `i` entries of `row`. */
  function Mark(row: seq<int>, nLeft: int, n: nat, i: nat): (x: seq<Side>)
    requires i <= |row| && InRange(row, n)
    ensures |x| == n
    decreases i
  {
    if i == 0 then seq(n, _ => Left)
    else Mark(row, nLeft, n, i - 1)[row[i - 1] := if i - 1 < nLeft then Left else Right]
  }

  /** How many of the first `k` positions lie on side `b`. */
  function Count(x: seq<Side>, b: Side, k: nat): (c: nat)
    requires k <= |x|
    ensures c <= k
    decreases k
  {
    if k == 0 then 0 else Count(x, b, k - 1) + if x[k - 1] == b then 1 else 0
  }

  /** `map[k]`: the new position of old position `k` in its half. */
  function Rank(x: seq<Side>, k: int): int
    requires 0 <= k < |x|
  {
    Count(x, x[k], k)
  }

  function RankOf(x: seq<Side>): int -> int {
    k => if 0 <= k < |x| then Rank(x, k) else 0
  }

  function OnSide(x: seq<Side>, b: Side): int -> bool {
    k => 0 <= k < |x| && x[k] == b
  }

  /** The points of side `b` among the first `k`, in order of position. */
  function SidePoints(pts: seq<Point>, x: seq<Side>, b: Side, k: nat): (r: seq<Point>)
    requires k <= |x| <= |pts|
    decreases k
  {
    if k == 0 then []
    else SidePoints(pts, x, b, k - 1) + if x[k - 1] == b then [pts[k - 1]] else []
  }

  /** A row of half `b`: the parent's row, filtered to the half and renumbered through `map`. */
  function ChildRow(row: seq<int>, x: seq<Side>, b: Side): seq<int> {
    MapSeq(Filter(row, OnSide(x, b)), RankOf(x))
  }

  /** The whole `X` array for a split of `a` on axis `coor`. */
  function Sides(a: KDArray, coor: int): seq<Side>
    requires WF(a) && 0 <= coor < a.dim
  {
    Mark(a.matrix[coor], LeftSize(a.size), a.size, a.size)
  }

  /** Every row of half `b`. */
  function ChildRows(matrix: seq<seq<int>>, x: seq<Side>, b: Side): seq<seq<int>> {
    seq(|matrix|, r requires 0 <= r < |matrix| => ChildRow(matrix[r], x, b))
  }

  /** Half `b` of `a`, of size `n`, for the sides `x`. */
  function Child(a: KDArray, x: seq<Side>, b: Side, n: int): KDArray
    requires |x| == |a.points| == a.size && a.dim == |a.matrix|
  {
    KDArray(SidePoints(a.points, x, b, a.size), ChildRows(a.matrix, x, b), a.dim, n)
  }

  /**
   * The pair spKDArraySplit returns, or None for NULL.  A one-point array
   * cannot be split: spKDArrayAlloc refuses the empty right half.
   */
  function SplitSpec(arr: Option<KDArray>, coor: int): Option<(KDArray, KDArray)>
    requires arr.Some? ==> WF(arr.value)
  {
    if arr.None? || coor < 0 || coor >= arr.value.dim then None
    else
      var a := arr.value;
      var nLeft := LeftSize(a.size);
      var nRight := a.size - nLeft;
      if nRight <= 0 then None
      else
        var x := Sides(a, coor);
        Some((Child(a, x, Left, nLeft), Child(a, x, Right, nRight)))
  }

  /** One step of the loops that refill the halves' rows. */
  lemma ChildRowStep(row: seq<int>, x: seq<Side>, b: Side, j: int)
    requires 0 <= j < |row|
    ensures ChildRow(row[..j + 1], x, b) ==
      ChildRow(row[..j], x, b) + if OnSide(x, b)(row[j]) then [RankOf(x)(row[j])] else []
  {
    FilterSnoc(row, OnSide(x, b), j);
    MapConcat(Filter(row[..j], OnSide(x, b)), [row[j]], RankOf(x));
  }

  /** The first loop of spKDArraySplit: `X[k]` names the half that position `k` goes to. */
  method MarkHalves(row: seq<int>, nLeft: int, n: int) returns (X: array<Side>)
    requires |row| == n && InRange(row, n)
    ensures fresh(X) && X[..] == Mark(row, nLeft, n, n)
  {
    X := new Side[n](_ => Left);
    for i := 0 to n
      invariant X[..] == Mark(row, nLeft, n, i)
    {
      var k := row[i];
      if i < nLeft {
        X[k] := Left;
      } else {
        X[k] := Right;
      }
    }
  }

  /** The second loop: copies each point to its half and records its new index in `map`. */
  method SplitPoints(pts: seq<Point>, X: array<Side>) returns (arrLeft: seq<Point>, arrRight: seq<Point>, newIndex: array<int>)
    requires X.Length == |pts| && AllValid(pts)
    ensures fresh(newIndex) && newIndex.Length == X.Length
    ensures arrLeft == SidePoints(pts, X[..], Left, |pts|)
    ensures arrRight == SidePoints(pts, X[..], Right, |pts|)
    ensures |arrLeft| == Count(X[..], Left, |pts|) && |arrRight| == Count(X[..], Right, |pts|)
    ensures forall k :: 0 <= k < X.Length ==> newIndex[k] == Rank(X[..], k)
  {
    var n := X.Length;
    newIndex := new int[n](_ => 0);
    arrLeft, arrRight := [], [];
    var cLeft, cRight := 0, 0;
    for i := 0 to n
      invariant arrLeft == SidePoints(pts, X[..], Left, i)
      invariant arrRight == SidePoints(pts, X[..], Right, i)
      invariant cLeft == Count(X[..], Left, i) && cRight == Count(X[..], Right, i)
      invariant |arrLeft| == cLeft && |arrRight| == cRight
      invariant forall k :: 0 <= k < i ==> newIndex[k] == Rank(X[..], k)
    {
      if X[i] == Left {
        arrLeft := arrLeft + [Copy(pts[i])];
        newIndex[i] := cLeft;
        cLeft := cLeft + 1;
      } else {
        arrRight := arrRight + [Copy(pts[i])];
        newIndex[i] := cRight;
        cRight := cRight + 1;
      }
    }
  }

  /** The inner loop of the last loops: one row of the parent split between the halves. */
  method FillRow(parent: seq<int>, X: array<Side>, newIndex: array<int>, ghost x: seq<Side>)
    returns (rowL: seq<int>, rowR: seq<int>)
    requires X[..] == x && newIndex.Length == X.Length
    requires forall k :: 0 <= k < X.Length ==> newIndex[k] == Rank(x, k)
    requires InRange(parent, X.Length)
    ensures rowL == ChildRow(parent, x, Left)
    ensures rowR == ChildRow(parent, x, Right)
  {
    rowL, rowR := [], [];
    for j := 0 to |parent|
      invariant rowL == ChildRow(parent[..j], x, Left)
      invariant rowR == ChildRow(parent[..j], x, Right)
    {
      var k := parent[j];
      ChildRowStep(parent, x, Left, j);
      ChildRowStep(parent, x, Right, j);
      if X[k] == Left {
        rowL := rowL + [newIndex[k]];
      } else {
        rowR := rowR + [newIndex[k]];
      }
    }
    assert parent[..|parent|] == parent;
  }

  /** Adding a row to the parent adds its filtered row to each half. */
  lemma ChildRowsSnoc(matrix: seq<seq<int>>, x: seq<Side>, b: Side, i: nat)
    requires i < |matrix|
    ensures ChildRows(matrix[..i + 1], x, b) == ChildRows(matrix[..i], x, b) + [ChildRow(matrix[i], x, b)]
  {
    var m, m' := matrix[..i], matrix[..i + 1];
    assert forall r :: 0 <= r < i ==> m'[r] == m[r];
  }

  /** The last loops: each row of both halves, filtered from the parent's row and renumbered. */
  method FillRows(matrix: seq<seq<int>>, X: array<Side>, newIndex: array<int>, ghost x: seq<Side>)
    returns (leftRows: seq<seq<int>>, rightRows: seq<seq<int>>)
    requires X[..] == x && newIndex.Length == X.Length
    requires forall k :: 0 <= k < X.Length ==> newIndex[k] == Rank(x, k)
    requires forall r :: 0 <= r < |matrix| ==> InRange(matrix[r], X.Length)
    ensures leftRows == ChildRows(matrix, x, Left)
    ensures rightRows == ChildRows(matrix, x, Right)
  {
    leftRows, rightRows := [], [];
    for i := 0 to |matrix|
      invariant leftRows == ChildRows(matrix[..i], x, Left)
      invariant rightRows == ChildRows(matrix[..i], x, Right)
    {
      var rowL, rowR := FillRow(matrix[i], X, newIndex, x);
      ChildRowsSnoc(matrix, x, Left, i);
      ChildRowsSnoc(matrix, x, Right, i);
      leftRows := leftRows + [rowL];
      rightRows := rightRows + [rowR];
    }
    assert matrix[..|matrix|] == matrix;
  }

  /** The sizes, ranges and points of `a` that the loops of spKDArraySplit rely on. */
  predicate Shape(a: KDArray) {
    && a.size == |a.points| && a.size > 0 && a.dim == |a.matrix|
    && AllValid(a.points)
    && forall r :: 0 <= r < a.dim ==> |a.matrix[r]| == a.size && InRange(a.matrix[r], a.size)
  }

  /** spKDArraySplit. */
  method Split(arr: Option<KDArray>, coor: int) returns (r: Option<(KDArray, KDArray)>)
    requires arr.Some? ==> WF(arr.value)
    ensures r == SplitSpec(arr, coor)
  {
    if arr.None? || coor < 0 || coor >= arr.value.dim {
      return None;
    }
    var a := arr.value;
    ghost var x := Sides(a, coor);
    SplitCounts(a, coor);
    SidePointsValid(a, x, Left, a.size);
    SidePointsValid(a, x, Right, a.size);
    r := SplitValid(a, coor, x);
  }

  /** spKDArraySplit past its argument check, on an array of the right shape. */
  method SplitValid(a: KDArray, coor: int, ghost x: seq<Side>) returns (r: Option<(KDArray, KDArray)>)
    requires Shape(a) && 0 <= coor < a.dim
    requires x == Mark(a.matrix[coor], LeftSize(a.size), a.size, a.size)
    requires Count(x, Left, a.size) == LeftSize(a.size)
    requires Count(x, Right, a.size) == a.size - LeftSize(a.size)
    requires AllValid(SidePoints(a.points, x, Left, a.size))
    requires AllValid(SidePoints(a.points, x, Right, a.size))
    ensures a.size - LeftSize(a.size) <= 0 ==> r.None?
    ensures a.size - LeftSize(a.size) > 0 ==>
      r == Some((Child(a, x, Left, LeftSize(a.size)), Child(a, x, Right, a.size - LeftSize(a.size))))
  {
    var n, dim := a.size, a.dim;
    var nLeft;
    if n % 2 == 0 {
      nLeft := n / 2;
    } else {
      nLeft := n / 2 + 1;
    }
    var nRight := n - nLeft;
    var X := MarkHalves(a.matrix[coor], nLeft, n);
    var arrLeft, arrRight, newIndex := SplitPoints(a.points, X);
    assert arrLeft[..nLeft] == arrLeft && arrRight[..nRight] == arrRight;
    var left := Alloc(Some(arrLeft), nLeft, dim);
    var right := Alloc(Some(arrRight), nRight, dim);
    if left.None? || right.None? {
      return None;
    }
    var leftRows, rightRows := FillRows(a.matrix, X, newIndex, x);
    r := Some((KDArray(left.value.points, leftRows, dim, nLeft), KDArray(right.value.points, rightRows, dim, nRight)));
  }

  // ---------------------------------------------------------------------------
  // Properties of the split
  // ---------------------------------------------------------------------------

  /** A permutation of 0..n-1 lists distinct positions below n. */
  lemma PermutationFacts(row: seq<int>, n: nat)
    requires multiset(row) == multiset(Range(n))
    ensures |row| == n && Distinct(row) && InRange(row, n)
    ensures forall k :: 0 <= k < n ==> k in row
  {
    assert |row| == |multiset(row)| == |Range(n)|;
    assert Distinct(Range(n));
    PermutationDistinct(row, Range(n));
    forall i | 0 <= i < |row| ensures 0 <= row[i] < n {
      assert row[i] in multiset(Range(n));
    }
    forall k | 0 <= k < n ensures k in row {
      assert Range(n)[k] == k;
      assert k in multiset(row);
    }
  }

  /** `X` sends the first `nLeft` entries of the row left and the others right. */
  lemma {:induction false} MarkAt(row: seq<int>, nLeft: int, n: nat, i: nat)
    requires i <= |row| && InRange(row, n) && Distinct(row)
    ensures forall j :: 0 <= j < i ==> Mark(row, nLeft, n, i)[row[j]] == if j < nLeft then Left else Right
    decreases i
  {
    if i > 0 {
      MarkAt(row, nLeft, n, i - 1);
    }
  }

  /** Where a position lies in row `coor` decides its half. */
  lemma SidesAt(a: KDArray, coor: int)
    requires WF(a) && 0 <= coor < a.dim
    ensures forall j :: 0 <= j < a.size ==>
      Sides(a, coor)[a.matrix[coor][j]] == if j < LeftSize(a.size) then Left else Right
  {
    PermutationFacts(a.matrix[coor], a.size);
    MarkAt(a.matrix[coor], LeftSize(a.size), a.size, a.size);
  }

  /** Filtering row `coor` to the left half keeps exactly its first nLeft entries. */
  lemma {:induction false} LeftRowIsPrefix(row: seq<int>, x: seq<Side>, nLeft: nat, i: nat)
    requires i <= |row|
    requires forall j :: 0 <= j < |row| ==> 0 <= row[j] < |x| && x[row[j]] == if j < nLeft then Left else Right
    ensures Filter(row[..i], OnSide(x, Left)) == row[..if i < nLeft then i else nLeft]
    decreases i
  {
    if i > 0 {
      LeftRowIsPrefix(row, x, nLeft, i - 1);
      FilterSnoc(row, OnSide(x, Left), i - 1);
      if i <= nLeft {
        assert row[..i] == row[..i - 1] + [row[i - 1]];
      }
    }
  }

  /** The number of positions on a side, read in index order. */
  lemma {:induction false} CountIsFilter(x: seq<Side>, b: Side, k: nat)
    requires k <= |x|
    ensures Count(x, b, k) == |Filter(Range(k), OnSide(x, b))|
    decreases k
  {
    if k > 0 {
      CountIsFilter(x, b, k - 1);
      assert Range(k)[..k - 1] == Range(k - 1);
    }
  }

  lemma {:induction false} CountSplit(x: seq<Side>, k: nat)
    requires k <= |x|
    ensures Count(x, Left, k) + Count(x, Right, k) == k
    decreases k
  {
    if k > 0 {
      CountSplit(x, k - 1);
    }
  }

  /** Split's counters end at nLeft and nRight. */
  lemma SplitCounts(a: KDArray, coor: int)
    requires WF(a) && 0 <= coor < a.dim
    ensures |Sides(a, coor)| == a.size
    ensures Count(Sides(a, coor), Left, a.size) == LeftSize(a.size)
    ensures Count(Sides(a, coor), Right, a.size) == a.size - LeftSize(a.size)
  {
    var x := Sides(a, coor);
    var row := a.matrix[coor];
    var p := OnSide(x, Left);
    PermutationFacts(row, a.size);
    SidesAt(a, coor);
    LeftRowIsPrefix(row, x, LeftSize(a.size), a.size);
    assert row[..a.size] == row;
    FilterPermutation(row, Range(a.size), p);
    assert |Filter(row, p)| == |multiset(Filter(row, p))| == |multiset(Filter(Range(a.size), p))|;
    CountIsFilter(x, Left, a.size);
    CountSplit(x, a.size);
  }

  /** Counting is monotone: a position on side `b` raises the count past it. */
  lemma {:induction false} CountGrows(x: seq<Side>, b: Side, m: nat, k: nat)
    requires m < k <= |x| && x[m] == b
    ensures Count(x, b, m) < Count(x, b, k)
    decreases k
  {
    if k > m + 1 {
      CountGrows(x, b, m, k - 1);
    }
  }

  /** The renumbered position of a point of side `b` holds that point. */
  lemma {:induction false} SidePointsAt(pts: seq<Point>, x: seq<Side>, b: Side, k: nat, m: nat)
    requires k <= |x| <= |pts| && m < k && x[m] == b
    ensures Count(x, b, m) < Count(x, b, k) == |SidePoints(pts, x, b, k)|
    ensures SidePoints(pts, x, b, k)[Count(x, b, m)] == pts[m]
    decreases k
  {
    CountGrows(x, b, m, k);
    SidePointsLength(pts, x, b, k);
    if m < k - 1 {
      SidePointsAt(pts, x, b, k - 1, m);
    }
  }

  /** Every point of side `b` comes from a position of that side. */
  lemma {:induction false} SidePointsFrom(pts: seq<Point>, x: seq<Side>, b: Side, k: nat, i: nat) returns (m: nat)
    requires k <= |x| <= |pts| && i < Count(x, b, k)
    ensures m < k && x[m] == b && Count(x, b, m) == i
    ensures i < |SidePoints(pts, x, b, k)| && SidePoints(pts, x, b, k)[i] == pts[m]
    decreases k
  {
    SidePointsLength(pts, x, b, k);
    if i < Count(x, b, k - 1) {
      m := SidePointsFrom(pts, x, b, k - 1, i);
    } else {
      m := k - 1;
    }
  }

  lemma SidePointsValid(a: KDArray, x: seq<Side>, b: Side, k: nat)
    requires WF(a) && k <= |x| == a.size
    ensures AllValid(SidePoints(a.points, x, b, k)) && HasAxes(SidePoints(a.points, x, b, k), a.dim)
  {
    var sp := SidePoints(a.points, x, b, k);
    SidePointsLength(a.points, x, b, k);
    forall i | 0 <= i < |sp| ensures Valid(sp[i]) && a.dim <= |sp[i].data| {
      var m := SidePointsFrom(a.points, x, b, k, i);
    }
  }

  /** One more position adds its renumbered position when it lies on side `b`. */
  lemma RanksStep(x: seq<Side>, b: Side, k: nat)
    requires 0 < k <= |x|
    ensures MapSeq(Filter(Range(k), OnSide(x, b)), RankOf(x))
      == MapSeq(Filter(Range(k - 1), OnSide(x, b)), RankOf(x)) + if x[k - 1] == b then [Count(x, b, k - 1)] else []
  {
    var p, f := OnSide(x, b), RankOf(x);
    assert Range(k)[..k - 1] == Range(k - 1);
    if x[k - 1] == b {
      assert Filter(Range(k), p) == Filter(Range(k - 1), p) + [k - 1];
      MapConcat(Filter(Range(k - 1), p), [k - 1], f);
      assert f(k - 1) == Count(x, b, k - 1);
    } else {
      assert Filter(Range(k), p) == Filter(Range(k - 1), p);
    }
  }

  /** The renumbered positions of a side, in index order, are 0, 1, ..., count-1. */
  lemma {:induction false} RanksOfRange(x: seq<Side>, b: Side, k: nat)
    requires k <= |x|
    ensures MapSeq(Filter(Range(k), OnSide(x, b)), RankOf(x)) == Range(Count(x, b, k))
    decreases k
  {
    if k > 0 {
      RanksOfRange(x, b, k - 1);
      RanksStep(x, b, k);
    }
  }

  /** The renumbered entries of a half's row lie below the size of the half. */
  lemma ChildRowInRange(row: seq<int>, x: seq<Side>, b: Side)
    ensures InRange(ChildRow(row, x, b), Count(x, b, |x|))
  {
    var p := OnSide(x, b);
    var f := Filter(row, p);
    var c := ChildRow(row, x, b);
    forall i | 0 <= i < |c| ensures 0 <= c[i] < Count(x, b, |x|) {
      assert f[i] in f;
      FilterMember(row, p, f[i]);
      CountGrows(x, b, f[i], |x|);
    }
  }

  /** A half's row lists each of its positions exactly once. */
  lemma ChildRowPermutation(row: seq<int>, x: seq<Side>, b: Side)
    requires multiset(row) == multiset(Range(|x|))
    ensures multiset(ChildRow(row, x, b)) == multiset(Range(Count(x, b, |x|)))
  {
    var p := OnSide(x, b);
    FilterPermutation(row, Range(|x|), p);
    MapPermutation(Filter(row, p), Filter(Range(|x|), p), RankOf(x));
    RanksOfRange(x, b, |x|);
  }

  /** A half's row keeps the parent's order, so it is ascending on the same axis. */
  lemma ChildRowSorted(row: seq<int>, pts: seq<Point>, x: seq<Side>, b: Side, r: int)
    requires |x| == |pts| && Pairwise(row, BeforeOn(pts, r))
    ensures Pairwise(ChildRow(row, x, b), BeforeOn(SidePoints(pts, x, b, |x|), r))
  {
    var p := OnSide(x, b);
    var f := Filter(row, p);
    var c := ChildRow(row, x, b);
    var cp := SidePoints(pts, x, b, |x|);
    FilterPairwise(row, p, BeforeOn(pts, r));
    forall i, j | 0 <= i < j < |c| ensures BeforeOn(cp, r)(c[i], c[j]) {
      assert BeforeOn(pts, r)(f[i], f[j]);
      assert f[i] in f && f[j] in f;
      FilterMember(row, p, f[i]);
      FilterMember(row, p, f[j]);
      SidePointsAt(pts, x, b, |x|, f[i]);
      SidePointsAt(pts, x, b, |x|, f[j]);
      if f[i] < f[j] {
        CountGrows(x, b, f[i], f[j]);
      }
    }
  }

  /** A half built from a well-formed array is well formed. */
  lemma ChildWF(a: KDArray, x: seq<Side>, b: Side)
    requires WF(a) && |x| == a.size && Count(x, b, a.size) > 0
    ensures WF(Child(a, x, b, Count(x, b, a.size)))
  {
    var c := Child(a, x, b, Count(x, b, a.size));
    SidePointsValid(a, x, b, a.size);
    SidePointsLength(a.points, x, b, a.size);
    forall r | 0 <= r < a.dim
      ensures |c.matrix[r]| == c.size && InRange(c.matrix[r], c.size)
      ensures SortedPermutation(c.matrix[r], c.points, r)
    {
      ChildRowInRange(a.matrix[r], x, b);
      ChildRowPermutation(a.matrix[r], x, b);
      ChildRowSorted(a.matrix[r], a.points, x, b, r);
      assert |c.matrix[r]| == |multiset(c.matrix[r])| == |Range(c.size)|;
    }
  }

  /** Both halves of a split are well formed, of sizes ceil(n/2) and floor(n/2). */
  lemma SplitHalvesWF(a: KDArray, coor: int)
    requires WF(a) && 0 <= coor < a.dim && a.size > 1
    ensures SplitSpec(Some(a), coor).Some?
    ensures WF(SplitSpec(Some(a), coor).value.0) && WF(SplitSpec(Some(a), coor).value.1)
    ensures SplitSpec(Some(a), coor).value.0.size == LeftSize(a.size)
    ensures SplitSpec(Some(a), coor).value.1.size == a.size - LeftSize(a.size)
    ensures SplitSpec(Some(a), coor).value.0.dim == a.dim == SplitSpec(Some(a), coor).value.1.dim
  {
    var x := Sides(a, coor);
    SplitCounts(a, coor);
    ChildWF(a, x, Left);
    ChildWF(a, x, Right);
  }

  /** spKDArraySplit fails exactly on NULL, an axis outside [0, dim), or a single point. */
  lemma SplitFails(arr: Option<KDArray>, coor: int)
    requires arr.Some? ==> WF(arr.value)
    ensures SplitSpec(arr, coor).None? <==> arr.None? || coor < 0 || coor >= arr.value.dim || arr.value.size == 1
  {
  }

  /** Every point of the parent lands in exactly one half, as often as it occurs. */
  lemma {:induction false} SidePointsCover(pts: seq<Point>, x: seq<Side>, k: nat)
    requires k <= |x| <= |pts|
    ensures multiset(SidePoints(pts, x, Left, k)) + multiset(SidePoints(pts, x, Right, k)) == multiset(pts[..k])
    decreases k
  {
    if k > 0 {
      SidePointsCover(pts, x, k - 1);
      SidePointsSnoc(pts, x, Left, k);
      SidePointsSnoc(pts, x, Right, k);
      MultisetSnoc(pts, k);
      UnionSnoc(multiset(SidePoints(pts, x, Left, k - 1)), multiset(SidePoints(pts, x, Right, k - 1)),
                multiset(pts[..k - 1]), pts[k - 1]);
    }
  }

  lemma SidePointsSnoc(pts: seq<Point>, x: seq<Side>, b: Side, k: nat)
    requires 0 < k <= |x| <= |pts|
    ensures multiset(SidePoints(pts, x, b, k)) ==
      multiset(SidePoints(pts, x, b, k - 1)) + if x[k - 1] == b then multiset{pts[k - 1]} else multiset{}
  {
  }

  /** The number of points of a side is the count of its positions. */
  lemma {:induction false} SidePointsLength(pts: seq<Point>, x: seq<Side>, b: Side, k: nat)
    requires k <= |x| <= |pts|
    ensures |SidePoints(pts, x, b, k)| == Count(x, b, k)
    decreases k
  {
    if k > 0 {
      SidePointsLength(pts, x, b, k - 1);
    }
  }

  /**
   * The left half holds the points at the first nLeft entries of row `coor`,
   * the right half the others, each in the parent's order; together they are
   * the parent's points.
   */
  lemma SplitPartition(a: KDArray, coor: int)
    requires WF(a) && 0 <= coor < a.dim && a.size > 1
    ensures SplitSpec(Some(a), coor).Some?
    ensures var x := Sides(a, coor);
      && SplitSpec(Some(a), coor).value.0.points == SidePoints(a.points, x, Left, a.size)
      && SplitSpec(Some(a), coor).value.1.points == SidePoints(a.points, x, Right, a.size)
      && forall j :: 0 <= j < a.size ==> (x[a.matrix[coor][j]] == Left <==> j < LeftSize(a.size))
    ensures multiset(SplitSpec(Some(a), coor).value.0.points) + multiset(SplitSpec(Some(a), coor).value.1.points)
      == multiset(a.points)
  {
    SidesAt(a, coor);
    SidePointsCover(a.points, Sides(a, coor), a.size);
    assert a.points[..a.size] == a.points;
  }

  /** On the split axis no left point lies beyond a right point. */
  lemma SplitSeparates(a: KDArray, coor: int)
    requires WF(a) && 0 <= coor < a.dim && a.size > 1
    ensures SplitSpec(Some(a), coor).Some?
    ensures HasAxes(SplitSpec(Some(a), coor).value.0.points, a.dim)
    ensures HasAxes(SplitSpec(Some(a), coor).value.1.points, a.dim)
    ensures var (l, r) := SplitSpec(Some(a), coor).value;
      forall i, j :: 0 <= i < |l.points| && 0 <= j < |r.points| ==> l.points[i].data[coor] <= r.points[j].data[coor]
  {
    var (l, r) := SplitSpec(Some(a), coor).value;
    var x := Sides(a, coor);
    var row := a.matrix[coor];
    SidesAt(a, coor);
    PermutationFacts(row, a.size);
    SidePointsValid(a, x, Left, a.size);
    SidePointsValid(a, x, Right, a.size);
    SidePointsLength(a.points, x, Left, a.size);
    SidePointsLength(a.points, x, Right, a.size);
    forall i, j | 0 <= i < |l.points| && 0 <= j < |r.points|
      ensures l.points[i].data[coor] <= r.points[j].data[coor]
    {
      var m := SidePointsFrom(a.points, x, Left, a.size, i);
      var m' := SidePointsFrom(a.points, x, Right, a.size, j);
      assert m in row && m' in row;
      var p :| 0 <= p < a.size && row[p] == m;
      var p' :| 0 <= p' < a.size && row[p'] == m';
      assert p < p';
      assert BeforeOn(a.points, coor)(row[p], row[p']);
    }
  }

  /** The last entry of a row names a point with the largest coordinate on that axis. */
  lemma RowLastIsMax(a: KDArray, r: int)
    requires WF(a) && 0 <= r < a.dim
    ensures forall k :: 0 <= k < a.size ==>
      a.points[k].data[r] <= a.points[a.matrix[r][a.size - 1]].data[r]
  {
    var row := a.matrix[r];
    PermutationFacts(row, a.size);
    forall k | 0 <= k < a.size ensures a.points[k].data[r] <= a.points[row[a.size - 1]].data[r] {
      assert k in row;
      var p :| 0 <= p < a.size && row[p] == k;
      if p < a.size - 1 {
        assert BeforeOn(a.points, r)(row[p], row[a.size - 1]);
      }
    }
  }

  /** Two strictly ascending permutations that agree on their first `i - 1` entries agree on entry `i - 1`. */
  lemma SortedPermutationNext(row1: seq<int>, row2: seq<int>, pts: seq<Point>, axis: int, i: nat)
    requires SortedPermutation(row1, pts, axis) && SortedPermutation(row2, pts, axis)
    requires 0 < i <= |pts| == |row1| == |row2| && row1[..i - 1] == row2[..i - 1]
    ensures row1[i - 1] == row2[i - 1]
  {
    PermutationFacts(row1, |pts|);
    PermutationFacts(row2, |pts|);
    var u, v := row1[i - 1], row2[i - 1];
    assert forall t :: 0 <= t < i - 1 ==> row1[t] == row2[t] by {
      forall t | 0 <= t < i - 1 ensures row1[t] == row2[t] {
        assert row1[..i - 1][t] == row2[..i - 1][t];
      }
    }
    assert u in row2 && v in row1;
    var j :| 0 <= j < |pts| && row2[j] == u;
    var j' :| 0 <= j' < |pts| && row1[j'] == v;
    assert j >= i - 1 && j' >= i - 1;
    if u != v {
      assert false;
    }
  }

  /** Two strictly ascending permutations of the same points on the same axis are equal. */
  lemma {:induction false} SortedPermutationUnique(row1: seq<int>, row2: seq<int>, pts: seq<Point>, axis: int, i: nat)
    requires SortedPermutation(row1, pts, axis) && SortedPermutation(row2, pts, axis)
    requires i <= |pts|
    ensures |row1| == |row2| == |pts| && row1[..i] == row2[..i]
    decreases i
  {
    PermutationFacts(row1, |pts|);
    PermutationFacts(row2, |pts|);
    if i > 0 {
      SortedPermutationUnique(row1, row2, pts, axis, i - 1);
      SortedPermutationNext(row1, row2, pts, axis, i);
      assert row1[..i] == row1[..i - 1] + [row1[i - 1]];
      assert row2[..i] == row2[..i - 1] + [row2[i - 1]];
    }
  }

  /** Hence the sorted row of an axis is unique. */
  lemma SortedPermutationEqual(row1: seq<int>, row2: seq<int>, pts: seq<Point>, axis: int)
    requires SortedPermutation(row1, pts, axis) && SortedPermutation(row2, pts, axis)
    ensures row1 == row2
  {
    SortedPermutationUnique(row1, row2, pts, axis, |pts|);
    assert row1 == row1[..|pts|] && row2 == row2[..|pts|];
  }

  /** The five points of the unit tests, owned by images 1 to 5. */
  function ExamplePoints(): seq<Point> {
    [Point([1.0, 2.0], 1), Point([123.0, 70.0], 2), Point([2.0, 7.0], 3), Point([9.0, 11.0], 4), Point([3.0, 4.0], 5)]
  }

  lemma ExampleRange()
    ensures Range(5) == [0, 1, 2, 3, 4] && Range(3) == [0, 1, 2] && Range(2) == [0, 1]
  {
  }

  /** Row 0 the unit tests expect holds each of the five positions once. */
  lemma ExampleMultiset0()
    ensures multiset([0, 2, 4, 3, 1]) == multiset(Range(5))
  {
    ExampleRange();
  }

  /** Row 1 the unit tests expect holds each of the five positions once. */
  lemma ExampleMultiset1()
    ensures multiset([0, 4, 2, 3, 1]) == multiset(Range(5))
  {
    ExampleRange();
  }

  /** Neighbouring entries of the expected rows are in order. */
  lemma ExampleNeighbours(pts: seq<Point>)
    requires pts == ExamplePoints()
    ensures Before(pts, 0, 0, 2) && Before(pts, 0, 2, 4) && Before(pts, 0, 4, 3) && Before(pts, 0, 3, 1)
    ensures Before(pts, 1, 0, 4) && Before(pts, 1, 4, 2) && Before(pts, 1, 2, 3) && Before(pts, 1, 3, 1)
  {
  }

  /** A row whose neighbours are in order is in order throughout. */
  lemma {:induction false} ChainedRowPairwise(row: seq<int>, pts: seq<Point>, axis: int)
    requires forall i :: 0 <= i < |row| - 1 ==> Before(pts, axis, row[i], row[i + 1])
    ensures Pairwise(row, BeforeOn(pts, axis))
    decreases |row|
  {
    if |row| > 1 {
      var n := |row|;
      var init := row[..n - 1];
      assert forall i :: 0 <= i < |init| ==> init[i] == row[i];
      ChainedRowPairwise(init, pts, axis);
      forall i, j | 0 <= i < j < n
        ensures BeforeOn(pts, axis)(row[i], row[j])
      {
        if j < n - 1 {
          assert BeforeOn(pts, axis)(init[i], init[j]);
        } else if i < n - 2 {
          assert BeforeOn(pts, axis)(init[i], init[n - 2]);
          assert Before(pts, axis, row[n - 2], row[n - 1]);
        }
      }
    }
  }

  /** Row 0 the unit tests expect is the sorted permutation of the example points on axis 0. */
  lemma ExampleRow0Sorted(pts: seq<Point>)
    requires pts == ExamplePoints()
    ensures SortedPermutation([0, 2, 4, 3, 1], pts, 0)
  {
    ExampleMultiset0();
    ExampleNeighbours(pts);
    var r0 := [0, 2, 4, 3, 1];
    forall i | 0 <= i < 4 ensures Before(pts, 0, r0[i], r0[i + 1]) {
      if i == 0 {
      } else if i == 1 {
      } else if i == 2 {
      } else {
      }
    }
    ChainedRowPairwise(r0, pts, 0);
  }

  /** Row 1 the unit tests expect is the sorted permutation of the example points on axis 1. */
  lemma ExampleRow1Sorted(pts: seq<Point>)
    requires pts == ExamplePoints()
    ensures SortedPermutation([0, 4, 2, 3, 1], pts, 1)
  {
    ExampleMultiset1();
    ExampleNeighbours(pts);
    var r1 := [0, 4, 2, 3, 1];
    forall i | 0 <= i < 4 ensures Before(pts, 1, r1[i], r1[i + 1]) {
      if i == 0 {
      } else if i == 1 {
      } else if i == 2 {
      } else {
      }
    }
    ChainedRowPairwise(r1, pts, 1);
  }

  /**
   * The unit test of spKDArrayInit: over the five example points, the rows
   * are 0 2 4 3 1 (axis 0) and 0 4 2 3 1 (axis 1). InitSpecCorrect shows that
   * what Init builds from these points satisfies the requires.
   */
  lemma InitExample(a: KDArray)
    requires WF(a) && a.dim == 2 && a.points == ExamplePoints()
    ensures a.matrix == [[0, 2, 4, 3, 1], [0, 4, 2, 3, 1]]
  {
    ExampleRow0Sorted(a.points);
    ExampleRow1Sorted(a.points);
    SortedPermutationEqual(a.matrix[0], [0, 2, 4, 3, 1], a.points, 0);
    SortedPermutationEqual(a.matrix[1], [0, 4, 2, 3, 1], a.points, 1);
    PairDisplay(a.matrix);
  }

  lemma ExampleMark()
    ensures Mark([0, 2, 4, 3, 1], 3, 5, 5) == [Left, Right, Left, Right, Left]
  {
  }

  lemma ExampleSides(a: KDArray)
    requires WF(a) && a.matrix[0] == [0, 2, 4, 3, 1]
    ensures Sides(a, 0) == [Left, Right, Left, Right, Left]
  {
    ExampleMark();
  }

  /** Filtering a five-element row, one element at a time. */
  lemma FilterFive(s: seq<int>, p: int -> bool)
    requires |s| == 5
    ensures Filter(s, p) == (if p(s[0]) then [s[0]] else []) + (if p(s[1]) then [s[1]] else [])
      + (if p(s[2]) then [s[2]] else []) + (if p(s[3]) then [s[3]] else []) + (if p(s[4]) then [s[4]] else [])
  {
    assert s[..0] == [];
    FilterSnoc(s, p, 0);
    FilterSnoc(s, p, 1);
    FilterSnoc(s, p, 2);
    FilterSnoc(s, p, 3);
    FilterSnoc(s, p, 4);
    assert s[..5] == s;
  }

  /** The new positions of the five example points after the split on axis 0. */
  lemma ExampleRanks()
    ensures var x := [Left, Right, Left, Right, Left];
      Rank(x, 0) == 0 && Rank(x, 1) == 0 && Rank(x, 2) == 1 && Rank(x, 3) == 1 && Rank(x, 4) == 2
  {
  }

  /** The example's two rows filtered to the left half and renumbered. */
  lemma ExampleLeftRows()
    ensures ChildRow([0, 2, 4, 3, 1], [Left, Right, Left, Right, Left], Left) == [0, 1, 2]
    ensures ChildRow([0, 4, 2, 3, 1], [Left, Right, Left, Right, Left], Left) == [0, 2, 1]
  {
    var x := [Left, Right, Left, Right, Left];
    ExampleRanks();
    FilterFive([0, 2, 4, 3, 1], OnSide(x, Left));
    FilterFive([0, 4, 2, 3, 1], OnSide(x, Left));
  }

  /** The example's two rows filtered to the right half and renumbered. */
  lemma ExampleRightRows()
    ensures ChildRow([0, 2, 4, 3, 1], [Left, Right, Left, Right, Left], Right) == [1, 0]
    ensures ChildRow([0, 4, 2, 3, 1], [Left, Right, Left, Right, Left], Right) == [1, 0]
  {
    var x := [Left, Right, Left, Right, Left];
    ExampleRanks();
    FilterFive([0, 2, 4, 3, 1], OnSide(x, Right));
    FilterFive([0, 4, 2, 3, 1], OnSide(x, Right));
  }

  lemma ExampleChildRows()
    ensures ChildRows([[0, 2, 4, 3, 1], [0, 4, 2, 3, 1]], [Left, Right, Left, Right, Left], Left) == [[0, 1, 2], [0, 2, 1]]
    ensures ChildRows([[0, 2, 4, 3, 1], [0, 4, 2, 3, 1]], [Left, Right, Left, Right, Left], Right) == [[1, 0], [1, 0]]
  {
    ExampleLeftRows();
    ExampleRightRows();
  }

  lemma ExampleSidePoints()
    ensures SidePoints(ExamplePoints(), [Left, Right, Left, Right, Left], Left, 5)
         == [Point([1.0, 2.0], 1), Point([2.0, 7.0], 3), Point([3.0, 4.0], 5)]
    ensures SidePoints(ExamplePoints(), [Left, Right, Left, Right, Left], Right, 5)
         == [Point([123.0, 70.0], 2), Point([9.0, 11.0], 4)]
  {
  }

  /**
   * The unit test of spKDArraySplit: splitting that array on axis 0 gives
   * (1,2), (2,7), (3,4) on the left, with rows 0 1 2 and 0 2 1, and
   * (123,70), (9,11) on the right, with rows 1 0 and 1 0.
   */
  lemma SplitExample(a: KDArray)
    requires WF(a) && a.dim == 2 && a.points == ExamplePoints()
    ensures SplitSpec(Some(a), 0) == Some((
      KDArray([Point([1.0, 2.0], 1), Point([2.0, 7.0], 3), Point([3.0, 4.0], 5)], [[0, 1, 2], [0, 2, 1]], 2, 3),
      KDArray([Point([123.0, 70.0], 2), Point([9.0, 11.0], 4)], [[1, 0], [1, 0]], 2, 2)))
  {
    InitExample(a);
    ExampleSides(a);
    ExampleChildRows();
    ExampleSidePoints();
  }

  // ---------------------------------------------------------------------------
  // Getters; None models a NULL array
  // ---------------------------------------------------------------------------

  function GetPoints(arr: Option<KDArray>): (r: Option<seq<Point>>)
    ensures r.None? <==> arr.None?
    ensures arr.Some? && WF(arr.value) ==> |r.value| == arr.value.size
  {
    if arr.None? then None else Some(arr.value.points)
  }

  function GetSortedMatrix(arr: Option<KDArray>): (r: Option<seq<seq<int>>>)
    ensures r.None? <==> arr.None?
    ensures arr.Some? && WF(arr.value) ==> |r.value| == arr.value.dim
  {
    if arr.None? then None else Some(arr.value.matrix)
  }

  function GetDim(arr: Option<KDArray>): (d: int)
    ensures arr.None? ==> d == -1
    ensures arr.Some? && WF(arr.value) ==> d > 0 && d == |arr.value.matrix|
  {
    if arr.None? then -1 else arr.value.dim
  }

  function GetSize(arr: Option<KDArray>): (n: int)
    ensures arr.None? ==> n == -1
    ensures arr.Some? && WF(arr.value) ==> n > 0 && n == |arr.value.points|
  {
    if arr.None? then -1 else arr.value.size
  }
}
