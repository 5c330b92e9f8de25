/**
 * Sequence helpers shared by the model: index ranges, order-preserving
 * filtering and mapping, and insertion into an ordered sequence.  The C
 * library's `qsort`, which the source calls with its own comparators, is
 * modelled by `SortBy`, an insertion sort by the same comparator.
 */
module Sequences {

  /** The positions 0, 1, ..., n-1 in increasing order. */
  function Range(n: nat): (r: seq<int>)
    ensures |r| == n
    ensures forall i :: 0 <= i < n ==> r[i] == i
  {
    if n == 0 then [] else Range(n - 1) + [n - 1]
  }

  /** The elements of `s` satisfying `p`, in their original order. */
  function Filter<T>(s: seq<T>, p: T -> bool): (r: seq<T>)
    decreases |s|
  {
    if |s| == 0 then []
    else if p(s[|s| - 1]) then Filter(s[..|s| - 1], p) + [s[|s| - 1]]
    else Filter(s[..|s| - 1], p)
  }

  function MapSeq<T, U>(s: seq<T>, f: T -> U): (r: seq<U>)
    ensures |r| == |s|
    ensures forall i :: 0 <= i < |s| ==> r[i] == f(s[i])
    decreases |s|
  {
    if |s| == 0 then [] else MapSeq(s[..|s| - 1], f) + [f(s[|s| - 1])]
  }

  /** Every earlier element is related to every later one. */
  predicate Pairwise<T>(s: seq<T>, rel: (T, T) -> bool) {
    forall i, j :: 0 <= i < j < |s| ==> rel(s[i], s[j])
  }

  /** A sequence of length two is the display of its two elements. */
  lemma PairDisplay<T>(s: seq<T>)
    requires |s| == 2
    ensures s == [s[0], s[1]]
  {
  }

  /** What survives a filter was in the sequence and satisfies the filter. */
  lemma FilterMember<T>(s: seq<T>, p: T -> bool, x: T)
    requires x in Filter(s, p)
    ensures x in s && p(x)
  {
    FilterCount(s, p, x);
    assert multiset(Filter(s, p))[x] > 0;
  }

  /** Filtering one more element of a prefix. */
  lemma FilterSnoc<T>(s: seq<T>, p: T -> bool, i: int)
    requires 0 <= i < |s|
    ensures Filter(s[..i + 1], p) == Filter(s[..i], p) + if p(s[i]) then [s[i]] else []
  {
    assert s[..i + 1][..i] == s[..i];
  }

  /** Filtering keeps the relative order of what it keeps. */
  lemma {:induction false} FilterPairwise<T>(s: seq<T>, p: T -> bool, rel: (T, T) -> bool)
    requires Pairwise(s, rel)
    ensures Pairwise(Filter(s, p), rel)
    decreases |s|
  {
    if |s| > 0 {
      var n := |s| - 1;
      var f := Filter(s[..n], p);
      assert Pairwise(s[..n], rel) by {
        forall i, j | 0 <= i < j < n ensures rel(s[..n][i], s[..n][j]) {
          assert s[..n][i] == s[i] && s[..n][j] == s[j];
        }
      }
      FilterPairwise(s[..n], p, rel);
      if p(s[n]) {
        forall i | 0 <= i < |f| ensures rel(f[i], s[n]) {
          FilterMember(s[..n], p, f[i]);
          var m :| 0 <= m < n && s[..n][m] == f[i];
          assert s[m] == f[i];
        }
        var g := f + [s[n]];
        forall i, j | 0 <= i < j < |g| ensures rel(g[i], g[j]) {
          if j < |f| {
            assert g[i] == f[i] && g[j] == f[j];
          }
        }
      }
    }
  }

  /** Filtering keeps exactly the occurrences of the elements that satisfy `p`. */
  lemma {:induction false} FilterCount<T>(s: seq<T>, p: T -> bool, x: T)
    ensures multiset(Filter(s, p))[x] == if p(x) then multiset(s)[x] else 0
    decreases |s|
  {
    if |s| > 0 {
      var n := |s| - 1;
      FilterCount(s[..n], p, x);
      assert s == s[..n] + [s[n]];
    }
  }

  /** Two multisets with the same multiplicities are equal. */
  lemma MultisetExtensionality<T>(a: multiset<T>, b: multiset<T>)
    requires forall x :: a[x] == b[x]
    ensures a == b
  {
  }

  lemma MultisetSnoc<T>(s: seq<T>, k: nat)
    requires 0 < k <= |s|
    ensures multiset(s[..k]) == multiset(s[..k - 1]) + multiset{s[k - 1]}
  {
    assert s[..k] == s[..k - 1] + [s[k - 1]];
  }

  lemma UnionSnoc<T>(a: multiset<T>, b: multiset<T>, c: multiset<T>, p: T)
    requires a + b == c
    ensures (a + multiset{p}) + b == c + multiset{p}
    ensures a + (b + multiset{p}) == c + multiset{p}
    ensures a + multiset{} == a && b + multiset{} == b
  {
  }

  lemma FilterPermutation<T>(s: seq<T>, t: seq<T>, p: T -> bool)
    requires multiset(s) == multiset(t)
    ensures multiset(Filter(s, p)) == multiset(Filter(t, p))
  {
    var a, b := multiset(Filter(s, p)), multiset(Filter(t, p));
    forall x ensures a[x] == b[x] {
      FilterCount(s, p, x);
      FilterCount(t, p, x);
    }
    MultisetExtensionality(a, b);
  }

  lemma MapConcat<T, U>(a: seq<T>, b: seq<T>, f: T -> U)
    ensures MapSeq(a + b, f) == MapSeq(a, f) + MapSeq(b, f)
  {
  }

  /** Mapping two permutations of each other yields two permutations of each other. */
  lemma {:induction false} MapPermutation<T, U>(s: seq<T>, t: seq<T>, f: T -> U)
    requires multiset(s) == multiset(t)
    ensures multiset(MapSeq(s, f)) == multiset(MapSeq(t, f))
    decreases |s|
  {
    if |s| == 0 {
      assert |t| == |multiset(t)| == 0;
    } else {
      var n := |s| - 1;
      var x := s[n];
      assert s == s[..n] + [x];
      assert x in multiset(t);
      var i :| 0 <= i < |t| && t[i] == x;
      var t' := t[..i] + t[i + 1..];
      assert t == t[..i] + [x] + t[i + 1..];
      assert multiset(t) == multiset(t') + multiset{x};
      assert multiset(s) == multiset(s[..n]) + multiset{x};
      forall y ensures multiset(s[..n])[y] == multiset(t')[y] {
        assert multiset(s)[y] == multiset(s[..n])[y] + multiset{x}[y];
        assert multiset(t)[y] == multiset(t')[y] + multiset{x}[y];
      }
      MultisetExtensionality(multiset(s[..n]), multiset(t'));
      MapPermutation(s[..n], t', f);
      MapConcat(s[..n], [x], f);
      MapConcat(t[..i], [x], f);
      MapConcat(t[..i] + [x], t[i + 1..], f);
      MapConcat(t[..i], t[i + 1..], f);
    }
  }

  predicate Distinct<T(==)>(s: seq<T>) {
    forall i, j :: 0 <= i < j < |s| ==> s[i] != s[j]
  }

  lemma {:induction false} DistinctCount<T>(s: seq<T>, x: T)
    requires Distinct(s)
    ensures multiset(s)[x] <= 1
    decreases |s|
  {
    if |s| > 0 {
      var n := |s| - 1;
      assert s == s[..n] + [s[n]];
      DistinctCount(s[..n], x);
      if s[n] == x {
        assert x !in s[..n];
      }
    }
  }

  /** A permutation of a sequence without repetitions has none either. */
  lemma PermutationDistinct<T>(s: seq<T>, t: seq<T>)
    requires multiset(s) == multiset(t) && Distinct(t)
    ensures Distinct(s)
  {
    forall i, j | 0 <= i < j < |s| ensures s[i] != s[j] {
      if s[i] == s[j] {
        assert s == s[..j] + s[j..];
        assert s[i] in s[..j] && s[j] in s[j..];
        assert multiset(s)[s[i]] == multiset(s[..j])[s[i]] + multiset(s[j..])[s[i]] >= 2;
        DistinctCount(t, s[i]);
      }
    }
  }

  /** `lt` is irreflexive and transitive. */
  ghost predicate StrictOrder<T(!new)>(lt: (T, T) -> bool) {
    (forall a :: !lt(a, a)) && (forall a, b, c :: lt(a, b) && lt(b, c) ==> lt(a, c))
  }

  /** Ascending in `lt`: no later element is strictly before an earlier one. */
  predicate SortedBy<T>(s: seq<T>, lt: (T, T) -> bool) {
    forall i, j :: 0 <= i < j < |s| ==> !lt(s[j], s[i])
  }

  /** Where an insertion sort puts `x`: before the first element `x` is strictly before. */
  function InsertPos<T>(s: seq<T>, x: T, lt: (T, T) -> bool): (k: nat)
    ensures k <= |s|
    ensures forall i :: 0 <= i < k ==> !lt(x, s[i])
    ensures k < |s| ==> lt(x, s[k])
    decreases |s|
  {
    if |s| == 0 then 0
    else if lt(x, s[0]) then 0
    else 1 + InsertPos(s[1..], x, lt)
  }

  function Insert<T>(s: seq<T>, x: T, lt: (T, T) -> bool): (r: seq<T>) {
    var k := InsertPos(s, x, lt);
    s[..k] + [x] + s[k..]
  }

  lemma InsertPermutation<T>(s: seq<T>, x: T, lt: (T, T) -> bool)
    ensures |Insert(s, x, lt)| == |s| + 1
    ensures multiset(Insert(s, x, lt)) == multiset(s) + multiset{x}
  {
    var k := InsertPos(s, x, lt);
    assert s == s[..k] + s[k..];
  }

  lemma InsertSorted<T(!new)>(s: seq<T>, x: T, lt: (T, T) -> bool)
    requires StrictOrder(lt) && SortedBy(s, lt)
    ensures SortedBy(Insert(s, x, lt), lt)
  {
    var k := InsertPos(s, x, lt);
    var r := Insert(s, x, lt);
    forall i, j | 0 <= i < j < |r| ensures !lt(r[j], r[i]) {
      if j == k {
        assert r[i] == s[i];
      } else if i == k {
        assert r[j] == s[j - 1];
      } else {
        assert r[i] == if i < k then s[i] else s[i - 1];
        assert r[j] == if j < k then s[j] else s[j - 1];
      }
    }
  }

  /** An insertion sort: each element in turn is inserted into the sorted prefix before it. */
  function SortBy<T>(s: seq<T>, lt: (T, T) -> bool): (r: seq<T>)
    decreases |s|
  {
    if |s| == 0 then [] else Insert(SortBy(s[..|s| - 1], lt), s[|s| - 1], lt)
  }

  /** `SortBy` returns an ascending permutation of its input. */
  lemma {:induction false} SortByCorrect<T(!new)>(s: seq<T>, lt: (T, T) -> bool)
    requires StrictOrder(lt)
    ensures |SortBy(s, lt)| == |s|
    ensures multiset(SortBy(s, lt)) == multiset(s)
    ensures SortedBy(SortBy(s, lt), lt)
    decreases |s|
  {
    if |s| > 0 {
      var n := |s| - 1;
      SortByCorrect(s[..n], lt);
      InsertPermutation(SortBy(s[..n], lt), s[n], lt);
      InsertSorted(SortBy(s[..n], lt), s[n], lt);
      assert s == s[..n] + [s[n]];
    }
  }

  function Sum(s: seq<int>): int
    decreases |s|
  {
    if |s| == 0 then 0 else Sum(s[..|s| - 1]) + s[|s| - 1]
  }

  /** Incrementing one entry raises the total by one. */
  lemma {:induction false} SumIncrement(s: seq<int>, k: int)
    requires 0 <= k < |s|
    ensures Sum(s[k := s[k] + 1]) == Sum(s) + 1
    decreases |s|
  {
    var n := |s| - 1;
    var t := s[k := s[k] + 1];
    assert t[..n] == if k < n then s[..n][k := s[k] + 1] else s[..n];
    if k < n {
      SumIncrement(s[..n], k);
    }
  }
}
