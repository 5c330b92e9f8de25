/**
 * The result aggregation of main_aux.cpp: flattening the per-image feature
 * arrays into one array, counting how often each image owns one of the k
 * nearest features of a query feature, and ranking the images by that count.
 */
module Aggregation {
  import opened Sequences
  import opened Points
  import opened BPQueue

  // ------------------------------------------------ createAllFeaturesArray

  /** The features the inner loop copies from one image: the first `count`, none if it is not positive. */
  function Taken(row: seq<Point>, count: int): seq<Point>
    requires count <= |row|
  {
    if count <= 0 then [] else row[..count]
  }

  /** How many features the inner loop copies from one image. */
  function Clamped(count: int): nat {
    if count <= 0 then 0 else count
  }

  /** The number of features the first `n` images contribute. */
  function Total(counts: seq<int>, n: int): nat
    requires n <= |counts|
    decreases n
  {
    if n <= 0 then 0 else Total(counts, n - 1) + Clamped(counts[n - 1])
  }

  /** Every image's count is within its row of the database. */
  predicate CountsFit(db: seq<seq<Point>>, counts: seq<int>, n: int) {
    && n <= |db| && n <= |counts|
    && forall i :: 0 <= i < n ==> counts[i] <= |db[i]|
  }

  /** The flattened features of the first `n` images, image-major. */
  function Flatten(db: seq<seq<Point>>, counts: seq<int>, n: int): (r: seq<Point>)
    requires CountsFit(db, counts, n)
    decreases n
  {
    if n <= 0 then [] else Flatten(db, counts, n - 1) + Taken(db[n - 1], counts[n - 1])
  }

  /** The flattened array is exactly as long as the total of the counts. */
  lemma {:induction false} FlattenLength(db: seq<seq<Point>>, counts: seq<int>, n: int)
    requires CountsFit(db, counts, n)
    ensures |Flatten(db, counts, n)| == Total(counts, n)
    decreases n
  {
    if n > 0 {
      FlattenLength(db, counts, n - 1);
    }
  }

  /** With no negative count, the total is the plain sum of the counts. */
  lemma {:induction false} TotalIsSum(counts: seq<int>, n: nat)
    requires n <= |counts|
    requires forall i :: 0 <= i < n ==> counts[i] >= 0
    ensures Total(counts, n) == Sum(counts[..n])
    decreases n
  {
    if n > 0 {
      TotalIsSum(counts, n - 1);
      assert counts[..n][..n - 1] == counts[..n - 1];
    }
  }

  /** The totals of prefixes grow with the prefix. */
  lemma {:induction false} TotalMonotone(counts: seq<int>, i: int, n: int)
    requires i <= n <= |counts|
    ensures Total(counts, i) <= Total(counts, n)
    decreases n - i
  {
    if i < n {
      TotalMonotone(counts, i, n - 1);
    }
  }

  /**
   * Image-major order: feature `j` of image `i` sits right after all the
   * features of the images before it.
   */
  lemma {:induction false} FlattenIndex(db: seq<seq<Point>>, counts: seq<int>, n: int, i: int, j: int)
    requires CountsFit(db, counts, n)
    requires 0 <= i < n && 0 <= j < counts[i]
    ensures Total(counts, i) + j < |Flatten(db, counts, n)|
    ensures Flatten(db, counts, n)[Total(counts, i) + j] == db[i][j]
    decreases n
  {
    FlattenLength(db, counts, n);
    FlattenLength(db, counts, n - 1);
    if i < n - 1 {
      FlattenIndex(db, counts, n - 1, i, j);
    } else {
      TotalMonotone(counts, i, n - 1);
    }
  }

  /**
   * createAllFeaturesArray: copies the first `perImage[i]` features of each
   * image `i < numOfImgs` into `all`, image after image, and returns how
   * many it copied.
   */
  method CreateAllFeaturesArray(all: array<Point>, siftDB: seq<seq<Point>>, numOfImgs: int, perImage: seq<int>)
    returns (k: int)
    requires CountsFit(siftDB, perImage, numOfImgs)
    requires forall i, j :: 0 <= i < numOfImgs && 0 <= j < perImage[i] ==> Valid(siftDB[i][j])
    requires Total(perImage, numOfImgs) <= all.Length
    modifies all
    ensures k == Total(perImage, numOfImgs)
    ensures all[..k] == Flatten(siftDB, perImage, numOfImgs)
    ensures all[k..] == old(all[k..])
  {
    k := 0;
    var i := 0;
    while i < numOfImgs
      invariant 0 <= i <= numOfImgs || (numOfImgs < 0 && i == 0)
      invariant k == Total(perImage, i) && k <= all.Length
      invariant all[..k] == Flatten(siftDB, perImage, i)
      invariant all[k..] == old(all[k..])
      decreases numOfImgs - i
    {
      TotalMonotone(perImage, i + 1, numOfImgs);
      FlattenLength(siftDB, perImage, i);
      k := CopyImage(all, siftDB[i], perImage[i], k);
      i := i + 1;
    }
  }

  /** The inner loop of createAllFeaturesArray: one image's features, copied from position `k` on. */
  method CopyImage(all: array<Point>, row: seq<Point>, count: int, k: nat) returns (next: nat)
    requires count <= |row| && k + Clamped(count) <= all.Length
    requires forall j :: 0 <= j < count ==> Valid(row[j])
    modifies all
    ensures next == k + Clamped(count)
    ensures all[..next] == old(all[..k]) + Taken(row, count)
    ensures all[next..] == old(all[next..])
  {
    next := k;
    var j := 0;
    while j < count
      invariant 0 <= j <= Clamped(count) && next == k + j
      invariant all[..next] == old(all[..k]) + row[..j]
      invariant all[next..] == old(all[next..])
      decreases count - j
    {
      all[next] := Copy(row[j]);
      assert row[..j + 1] == row[..j] + [row[j]];
      next := next + 1;
      j := j + 1;
    }
    assert row[..j] == Taken(row, count);
  }

  // ------------------------------------------------ countKClosestPerFeature

  /** The image indices of a sequence of queue elements. */
  function IndexesOf(r: seq<Element>): (ix: seq<int>)
    ensures |ix| == |r|
  {
    seq(|r|, i requires 0 <= i < |r| => r[i].index)
  }

  /** The first `k` elements of `r`, or all of them when there are fewer. */
  function Take(r: seq<Element>, k: nat): (t: seq<Element>)
    ensures |t| == if k <= |r| then k else |r|
  {
    if k <= |r| then r[..k] else r
  }

  /** The image indices of the first `knn` results of every query feature, query after query. */
  function Hits(results: seq<seq<Element>>, knn: nat): (h: seq<int>)
    decreases |results|
  {
    if results == [] then []
    else Hits(results[..|results| - 1], knn) + IndexesOf(Take(results[|results| - 1], knn))
  }

  /** The counters after incrementing the entry of every index in `ix`, in order. */
  function Tally(counts: seq<int>, ix: seq<int>): (t: seq<int>)
    ensures |t| == |counts|
    decreases |ix|
  {
    if ix == [] then counts
    else
      var t := Tally(counts, ix[..|ix| - 1]);
      var x := ix[|ix| - 1];
      if 0 <= x < |t| then t[x := t[x] + 1] else t
  }

  /** Every query feature's queue holds at least `knn` results. */
  predicate Enough(results: seq<seq<Element>>, knn: nat) {
    forall q :: 0 <= q < |results| ==> knn <= |results[q]|
  }

  /** Every query feature contributes exactly `knn` hits. */
  lemma {:induction false} HitsLength(results: seq<seq<Element>>, knn: nat)
    requires Enough(results, knn)
    ensures |Hits(results, knn)| == |results| * knn
    decreases |results|
  {
    if results != [] {
      var m := |results| - 1;
      assert Enough(results[..m], knn) by {
        forall q | 0 <= q < m ensures knn <= |results[..m][q]| {
          assert results[..m][q] == results[q];
        }
      }
      HitsLength(results[..m], knn);
      assert |results| * knn == m * knn + knn by {
        assert |results| == m + 1;
      }
    }
  }

  /** Each hit on a counter raises the total of the counters by one. */
  lemma {:induction false} TallySum(counts: seq<int>, ix: seq<int>)
    requires forall i :: 0 <= i < |ix| ==> 0 <= ix[i] < |counts|
    ensures Sum(Tally(counts, ix)) == Sum(counts) + |ix|
    decreases |ix|
  {
    if ix != [] {
      TallySum(counts, ix[..|ix| - 1]);
      SumIncrement(Tally(counts, ix[..|ix| - 1]), ix[|ix| - 1]);
    }
  }

  /** A hit inside the list of results of the query features. */
  predicate Indexed(results: seq<seq<Element>>, knn: nat, n: nat) {
    forall q, j :: 0 <= q < |results| && 0 <= j < knn && j < |results[q]| ==> 0 <= results[q][j].index < n
  }

  /** Every hit names a counter. */
  lemma {:induction false} HitsInRange(results: seq<seq<Element>>, knn: nat, n: nat)
    requires Indexed(results, knn, n)
    ensures forall i :: 0 <= i < |Hits(results, knn)| ==> 0 <= Hits(results, knn)[i] < n
    decreases |results|
  {
    if results != [] {
      var m := |results| - 1;
      HitsInRange(results[..m], knn, n);
      assert forall q, j :: 0 <= q < m && 0 <= j < knn && j < |results[..m][q]| ==> results[..m][q][j] == results[q][j];
    }
  }

  /** Tallying two lists of hits is tallying the first and then the second. */
  lemma {:induction false} TallyAppend(counts: seq<int>, a: seq<int>, b: seq<int>)
    ensures Tally(counts, a + b) == Tally(Tally(counts, a), b)
    decreases |b|
  {
    if b != [] {
      var n := |b| - 1;
      assert (a + b)[..|a + b| - 1] == a + b[..n];
      assert (a + b)[|a + b| - 1] == b[n];
      TallyAppend(counts, a, b[..n]);
    } else {
      assert a + b == a;
    }
  }

  /**
   * The counting loop of countKClosestPerFeature: for each query feature in
   * turn, the `knn` results its search left in the queue are taken from the
   * front one by one, and the counter of each one's image is incremented.
   * `results[q]` is the queue's content after the search for query feature `q`.
   */
  method CountHits(counter: array<int>, results: seq<seq<Element>>, knn: nat)
    requires Enough(results, knn)
    requires Indexed(results, knn, counter.Length)
    modifies counter
    ensures counter[..] == Tally(old(counter[..]), Hits(results, knn))
  {
    var q := 0;
    while q < |results|
      invariant 0 <= q <= |results|
      invariant counter[..] == Tally(old(counter[..]), Hits(results[..q], knn))
      decreases |results| - q
    {
      assert results[..q + 1][..q] == results[..q];
      TallyAppend(old(counter[..]), Hits(results[..q], knn), IndexesOf(results[q][..knn]));
      CountQuery(counter, results[q], knn);
      q := q + 1;
    }
    assert results[..q] == results;
  }

  /** The inner loop of the counting: the first `knn` results of one query feature. */
  method CountQuery(counter: array<int>, r: seq<Element>, knn: nat)
    requires knn <= |r|
    requires forall j :: 0 <= j < knn ==> 0 <= r[j].index < counter.Length
    modifies counter
    ensures counter[..] == Tally(old(counter[..]), IndexesOf(r[..knn]))
  {
    for j := 0 to knn
      invariant counter[..] == Tally(old(counter[..]), IndexesOf(r[..j]))
    {
      var element := r[j];
      assert IndexesOf(r[..j + 1])[..j] == IndexesOf(r[..j]);
      counter[element.index] := counter[element.index] + 1;
    }
  }

  /** The counters together gain exactly (number of query features) * knn. */
  lemma CountTotal(counts: seq<int>, results: seq<seq<Element>>, knn: nat)
    requires Enough(results, knn)
    requires Indexed(results, knn, |counts|)
    ensures Sum(Tally(counts, Hits(results, knn))) == Sum(counts) + |results| * knn
  {
    HitsInRange(results, knn, |counts|);
    HitsLength(results, knn);
    TallySum(counts, Hits(results, knn));
  }

  // ------------------------------------------------ sortFeaturesCount

  /** cmpfunc: higher count first, then the lower index; it never answers 0. */
  function CompareCounts(e1: Element, e2: Element): int {
    if e1.value > e2.value then -1
    else if e1.value < e2.value then 1
    else if e1.index > e2.index then 1
    else -1
  }

  /** The order cmpfunc ranks by: count descending, ties by index ascending. */
  predicate Ranked(a: Element, b: Element) {
    a.value > b.value || (a.value == b.value && a.index < b.index)
  }

  /**
   * cmpfunc never reports two elements equal; on two different elements it
   * puts `e1` first exactly when `e1` is ranked before `e2`, and it answers
   * the two orders of the same pair oppositely.
   */
  lemma CompareCountsAgrees(e1: Element, e2: Element)
    ensures CompareCounts(e1, e2) == -1 || CompareCounts(e1, e2) == 1
    ensures e1 != e2 ==> (CompareCounts(e1, e2) == -1 <==> Ranked(e1, e2))
    ensures e1 != e2 ==> CompareCounts(e1, e2) == -CompareCounts(e2, e1)
  {
  }

  /** The ranking is a strict order. */
  lemma RankedStrict()
    ensures StrictOrder(Ranked)
  {
  }

  /** The pairs (i, counter[i]) the loop of sortFeaturesCount builds. */
  function Pairs(counts: seq<int>): (ps: seq<Element>)
    ensures |ps| == |counts|
  {
    seq(|counts|, i requires 0 <= i < |counts| => Element(i, counts[i] as real))
  }

  /**
   * The ranking sortFeaturesCount returns: qsort with cmpfunc, which on
   * these pairs (all indices different) orders exactly as `Ranked`.
   */
  function Ranking(counts: seq<int>): seq<Element> {
    SortBy(Pairs(counts), Ranked)
  }

  /** No two of the pairs are equal: their indices differ. */
  lemma PairsDistinct(counts: seq<int>)
    ensures Distinct(Pairs(counts))
  {
    var ps := Pairs(counts);
    forall i, j | 0 <= i < j < |ps| ensures ps[i] != ps[j] {
      assert ps[i].index == i && ps[j].index == j;
    }
  }

  /** Sorted and without repeats means each entry is strictly ranked before every later one. */
  lemma SortedStrictly(r: seq<Element>)
    requires SortedBy(r, Ranked) && Distinct(r)
    ensures forall i, j :: 0 <= i < j < |r| ==> Ranked(r[i], r[j])
  {
    forall i, j | 0 <= i < j < |r| ensures Ranked(r[i], r[j]) {
      assert !Ranked(r[j], r[i]) && r[i] != r[j];
    }
  }

  /**
   * The ranking lists every pair (i, counts[i]) exactly once, and each
   * entry is strictly ranked before every later one: higher counts first,
   * equal counts by increasing image index.
   */
  lemma RankingCorrect(counts: seq<int>)
    ensures |Ranking(counts)| == |counts|
    ensures multiset(Ranking(counts)) == multiset(Pairs(counts))
    ensures forall i, j :: 0 <= i < j < |counts| ==> Ranked(Ranking(counts)[i], Ranking(counts)[j])
  {
    RankedStrict();
    SortByCorrect(Pairs(counts), Ranked);
    PairsDistinct(counts);
    PermutationDistinct(Ranking(counts), Pairs(counts));
    SortedStrictly(Ranking(counts));
  }

  /**
   * sortFeaturesCount: NULL for a null `counter` or fewer than one image;
   * otherwise a new array holding the ranking of the first `numOfImgs` counts.
   */
  method SortFeaturesCount(counter: array?<int>, numOfImgs: int) returns (res: array?<Element>)
    requires counter != null && numOfImgs >= 1 ==> numOfImgs <= counter.Length
    ensures res == null <==> counter == null || numOfImgs < 1
    ensures res != null ==> fresh(res) && res[..] == Ranking(counter[..numOfImgs])
  {
    if counter == null || numOfImgs < 1 {
      return null;
    }
    res := new Element[numOfImgs];
    for i := 0 to numOfImgs
      invariant res[..i] == Pairs(counter[..i])
    {
      res[i] := Element(i, counter[i] as real);
      assert counter[..i + 1][..i] == counter[..i];
    }
    assert res[..] == Pairs(counter[..numOfImgs]) by {
      assert res[..] == res[..numOfImgs];
    }
    SortCounts(res);
  }

  /** The qsort call of sortFeaturesCount, with cmpfunc's order. */
  method SortCounts(a: array<Element>)
    modifies a
    ensures a[..] == SortBy(old(a[..]), Ranked)
  {
    var sorted := SortBy(a[..], Ranked);
    RankedStrict();
    SortByCorrect(a[..], Ranked);
    forall i | 0 <= i < a.Length {
      a[i] := sorted[i];
    }
    assert a[..] == sorted;
  }
}
