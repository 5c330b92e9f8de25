/**
 * Feature vectors (SPPoint.c): an immutable sequence of coordinates tagged
 * with the index of the image that owns it.  The dimension of a point is the
 * length of its coordinate sequence.
 */
module Points {
  import opened Wrappers

  datatype Point = Point(data: seq<real>, index: int)

  /** What spPointCreate guarantees of every point it hands out. */
  predicate Valid(p: Point) {
    |p.data| > 0 && p.index >= 0
  }

  /**
   * spPointCreate.  `data == None` models a null pointer; the source copies the
   * first `dim` values, so a present buffer must hold at least that many.
   */
  function Create(data: Option<seq<real>>, dim: int, index: int): (r: Option<Point>)
    requires data.Some? && dim > 0 ==> dim <= |data.value|
    ensures r.None? <==> data.None? || dim <= 0 || index < 0
    ensures r.Some? ==> Valid(r.value)
  {
    if data.None? || dim <= 0 || index < 0 then None
    else Some(Point(data.value[..dim], index))
  }

  /** spPointCopy: a point created from the source's own data, dimension and index. */
  function Copy(p: Point): (c: Point)
    requires Valid(p)
    ensures c == p
  {
    var r := Create(Some(p.data), |p.data|, p.index);
    assert p.data[..|p.data|] == p.data;
    r.value
  }

  function GetDimension(p: Point): int {
    |p.data|
  }

  function GetIndex(p: Point): int {
    p.index
  }

  /** spPointGetAxisCoor asserts `axis < dim`; a negative axis would read outside the buffer. */
  function GetAxisCoor(p: Point, axis: int): real
    requires 0 <= axis < |p.data|
  {
    p.data[axis]
  }

  /** A successful create yields exactly the dimension, index and coordinates it was given. */
  lemma CreateThenGet(data: seq<real>, dim: int, index: int)
    requires 0 < dim <= |data| && index >= 0
    ensures Create(Some(data), dim, index).Some?
    ensures GetDimension(Create(Some(data), dim, index).value) == dim
    ensures GetIndex(Create(Some(data), dim, index).value) == index
    ensures forall i :: 0 <= i < dim ==> GetAxisCoor(Create(Some(data), dim, index).value, i) == data[i]
  {
  }

  /** The squared Euclidean distance, summed over the axes in increasing order. */
  function SqDist(a: seq<real>, b: seq<real>): real
    requires |a| == |b|
    decreases |a|
  {
    if |a| == 0 then 0.0
    else
      var n := |a| - 1;
      SqDist(a[..n], b[..n]) + (a[n] - b[n]) * (a[n] - b[n])
  }

  /** spPointL2SquaredDistance: the source's `for` loop accumulating into `res`. */
  method L2SquaredDistance(p: Point, q: Point) returns (res: real)
    requires |p.data| == |q.data|
    ensures res == SqDist(p.data, q.data)
    ensures res >= 0.0
  {
    res := 0.0;
    var n := GetDimension(p);
    for i := 0 to n
      invariant res == SqDist(p.data[..i], q.data[..i])
    {
      var p_i := GetAxisCoor(p, i);
      var q_i := GetAxisCoor(q, i);
      assert p.data[..i + 1][..i] == p.data[..i];
      assert q.data[..i + 1][..i] == q.data[..i];
      res := res + (p_i - q_i) * (p_i - q_i);
    }
    assert p.data[..n] == p.data && q.data[..n] == q.data;
    SqDistNonNegative(p.data, q.data);
  }

  lemma {:induction false} SqDistNonNegative(a: seq<real>, b: seq<real>)
    requires |a| == |b|
    ensures SqDist(a, b) >= 0.0
    decreases |a|
  {
    if |a| > 0 {
      var n := |a| - 1;
      SqDistNonNegative(a[..n], b[..n]);
      SquareNonNegative(a[n] - b[n]);
    }
  }

  lemma SquareNonNegative(x: real)
    ensures x * x >= 0.0
  {
    if x < 0.0 {
      assert x * x == (-x) * (-x);
    }
  }

  lemma {:induction false} SqDistSymmetric(a: seq<real>, b: seq<real>)
    requires |a| == |b|
    ensures SqDist(a, b) == SqDist(b, a)
    decreases |a|
  {
    if |a| > 0 {
      var n := |a| - 1;
      SqDistSymmetric(a[..n], b[..n]);
      assert (a[n] - b[n]) * (a[n] - b[n]) == (b[n] - a[n]) * (b[n] - a[n]);
    }
  }

  /** A point is at distance zero from itself, hence from its copy. */
  lemma {:induction false} SqDistSelf(a: seq<real>)
    ensures SqDist(a, a) == 0.0
    decreases |a|
  {
    if |a| > 0 {
      SqDistSelf(a[..|a| - 1]);
    }
  }

  lemma CopyAtDistanceZero(p: Point)
    requires Valid(p)
    ensures SqDist(Copy(p).data, p.data) == 0.0
  {
    SqDistSelf(p.data);
  }

  /** The whole distance is at least the squared gap on any single axis: the pruning bound. */
  lemma {:induction false} SqDistAxisBound(a: seq<real>, b: seq<real>, k: int)
    requires |a| == |b| && 0 <= k < |a|
    ensures SqDist(a, b) >= (a[k] - b[k]) * (a[k] - b[k])
    decreases |a|
  {
    var n := |a| - 1;
    SqDistNonNegative(a[..n], b[..n]);
    SquareNonNegative(a[n] - b[n]);
    if k < n {
      SqDistAxisBound(a[..n], b[..n], k);
      assert a[..n][k] == a[k] && b[..n][k] == b[k];
    }
  }
}
