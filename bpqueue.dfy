/**
 * The bounded priority queue (SPBPriorityQueue.c): a ring buffer of at most
 * `maxSize` (index, value) elements whose logical contents
 * `elements[(start + i) % maxSize]`, i < size, are kept ascending by value,
 * ties by index.  `start` is -1 exactly when the queue is empty.
 */
module BPQueue {
  import opened Sequences

  datatype Element = Element(index: int, value: real)

  /** SP_BPQUEUE_MSG, in the source's order. */
  datatype Msg = OutOfMemory | Full | Empty | InvalidArgument | Success

  /** The queue's order: by value, ties by index.  The KD array sorts by the same order. */
  predicate Less(a: Element, b: Element) {
    a.value < b.value || (a.value == b.value && a.index < b.index)
  }

  lemma LessIsStrictOrder()
    ensures StrictOrder(Less)
  {
  }

  /** `a` may come before `b`. */
  predicate Ordered(a: Element, b: Element) {
    !Less(b, a)
  }

  /** Ascending in the queue's order; the same as `SortedBy(s, Less)`. */
  predicate Sorted(s: seq<Element>) {
    forall i, j {:trigger Ordered(s[i], s[j])} :: 0 <= i < j < |s| ==> Ordered(s[i], s[j])
  }

  lemma SortedIsSortedBy(s: seq<Element>)
    ensures Sorted(s) <==> SortedBy(s, Less)
  {
    if Sorted(s) {
      forall i, j | 0 <= i < j < |s| ensures !Less(s[j], s[i]) {
        assert Ordered(s[i], s[j]);
      }
    }
    if SortedBy(s, Less) {
      forall i, j | 0 <= i < j < |s| ensures Ordered(s[i], s[j]) {
        assert !Less(s[j], s[i]);
      }
    }
  }

  predicate AllAdmissible(s: seq<Element>) {
    forall i {:trigger Admissible(s[i])} :: 0 <= i < |s| ==> Admissible(s[i])
  }

  /** What spBPQueueEnqueue admits: a non-negative index and value. */
  predicate Admissible(e: Element) {
    e.index >= 0 && e.value >= 0.0
  }

  /** The message spBPQueueEnqueue returns on a queue holding `s`, of capacity `cap`. */
  function EnqueueMsg(s: seq<Element>, x: Element, cap: int): Msg {
    if !Admissible(x) then InvalidArgument
    else if |s| > 0 && x.value > s[|s| - 1].value && |s| == cap then Full
    else Success
  }

  /**
   * The contents after spBPQueueEnqueue, as the source computes them.  An
   * element that equals the maximum's value but has a larger index is not
   * stored: a second copy of the maximum is appended instead, if there is room.
   */
  function EnqueueContents(s: seq<Element>, x: Element, cap: int): seq<Element> {
    if !Admissible(x) then s
    else if |s| == 0 then [x]
    else
      var last := s[|s| - 1];
      if x.value > last.value then
        if |s| == cap then s else s + [x]
      else if Less(last, x) then
        if |s| < cap then s + [last] else s
      else
        var ins := Insert(s, x, Less);
        if |s| < cap then ins else ins[..|s|]
  }

  /**
   * Position `i` of the logical contents within the ring.  The source writes
   * `(start + i) % maxSize`; `RingIndexIsMod` shows the two agree.
   */
  function RingIndex(start: int, i: int, m: int): int
    requires 0 <= start < m && 0 <= i <= m
  {
    if start + i < m then start + i else start + i - m
  }

  lemma RingIndexIsMod(start: int, i: int, m: int)
    requires 0 <= start < m && 0 <= i <= m
    ensures RingIndex(start, i, m) == (start + i) % m
    ensures 0 <= RingIndex(start, i, m) < m
  {
    ModBelowTwice(start + i, m);
  }

  lemma ModBelowTwice(a: int, m: int)
    requires 0 <= a < 2 * m
    ensures a % m == if a < m then a else a - m
  {
    if a < m {
      assert a == m * 0 + a;
    } else {
      assert a == m * 1 + (a - m);
    }
  }

  /** The ring buffer `buf`, read from slot `first` on, holds `c`. */
  predicate RingHolds(buf: seq<Element>, first: int, c: seq<Element>) {
    0 <= first < |buf| && |c| <= |buf| &&
    forall j :: 0 <= j < |c| ==> buf[RingIndex(first, j, |buf|)] == c[j]
  }

  lemma RingRead(buf: seq<Element>, first: int, c: seq<Element>, i: int)
    requires RingHolds(buf, first, c) && 0 <= i < |c|
    ensures buf[RingIndex(first, i, |buf|)] == c[i]
  {
  }

  /** Writing the slot of position `i` changes position `i` only. */
  lemma RingAssign(buf: seq<Element>, first: int, c: seq<Element>, i: int, e: Element)
    requires RingHolds(buf, first, c) && 0 <= i < |c|
    ensures RingHolds(buf[RingIndex(first, i, |buf|) := e], first, c[i := e])
  {
    var buf' := buf[RingIndex(first, i, |buf|) := e];
    forall j | 0 <= j < |c| ensures buf'[RingIndex(first, j, |buf|)] == c[i := e][j] {
      if j != i {
        assert RingIndex(first, j, |buf|) != RingIndex(first, i, |buf|);
      }
    }
  }

  /** Writing the slot after the last position appends. */
  lemma RingAppend(buf: seq<Element>, first: int, c: seq<Element>, e: Element)
    requires RingHolds(buf, first, c) && |c| < |buf|
    ensures RingHolds(buf[RingIndex(first, |c|, |buf|) := e], first, c + [e])
  {
    var buf' := buf[RingIndex(first, |c|, |buf|) := e];
    forall j | 0 <= j < |c| + 1 ensures buf'[RingIndex(first, j, |buf|)] == (c + [e])[j] {
      if j != |c| {
        assert RingIndex(first, j, |buf|) != RingIndex(first, |c|, |buf|);
      }
    }
  }

  /** Moving `first` one slot on drops the front position. */
  lemma RingAdvance(buf: seq<Element>, first: int, c: seq<Element>)
    requires RingHolds(buf, first, c) && |c| > 0
    ensures RingHolds(buf, RingIndex(first, 1, |buf|), c[1..])
  {
    var f := RingIndex(first, 1, |buf|);
    forall j | 0 <= j < |c| - 1 ensures buf[RingIndex(f, j, |buf|)] == c[1..][j] {
      assert RingIndex(f, j, |buf|) == RingIndex(first, j + 1, |buf|);
    }
  }

  class Queue {
    var elements: array<Element>
    var maxSize: int
    var size: int
    var start: int
    /** The logical contents, front (minimum) first. */
    ghost var Contents: seq<Element>

    ghost predicate Valid()
      reads this, elements
    {
      elements.Length == maxSize > 0 &&
      0 <= size <= maxSize &&
      (start == -1 <==> size == 0) &&
      (size > 0 ==> RingHolds(elements[..], start, Contents)) &&
      |Contents| == size &&
      Sorted(Contents) && AllAdmissible(Contents)
    }

    /** The allocation part of spBPQueueCreate. */
    constructor (maxSize: int)
      requires maxSize > 0
      ensures Valid() && fresh(elements)
      ensures this.maxSize == maxSize && size == 0 && start == -1 && Contents == []
    {
      elements := new Element[maxSize](_ => Element(0, 0.0));
      this.maxSize := maxSize;
      size := 0;
      start := -1;
      Contents := [];
    }

    /** spBPQueueCreate: no queue (NULL) for a non-positive capacity. */
    static method Create(maxSize: int) returns (q: Queue?)
      ensures maxSize <= 0 ==> q == null
      ensures maxSize > 0 ==>
        q != null && fresh(q) && fresh(q.elements) && q.Valid() &&
        q.maxSize == maxSize && q.size == 0 && q.start == -1 && q.Contents == []
    {
      if maxSize <= 0 {
        return null;
      }
      q := new Queue(maxSize);
    }

    /** spBPQueueCopy: same capacity, size and start, and the whole buffer copied. */
    method Copy() returns (c: Queue)
      requires Valid()
      ensures fresh(c) && fresh(c.elements) && c.Valid()
      ensures c.maxSize == maxSize && c.size == size && c.start == start
      ensures c.elements[..] == elements[..] && c.Contents == Contents
    {
      c := new Queue(maxSize);
      for k := 0 to maxSize
        invariant fresh(c.elements) && c.elements.Length == maxSize
        invariant c.elements[..k] == elements[..k]
      {
        c.elements[k] := elements[k];
        assert c.elements[..k + 1] == c.elements[..k] + [elements[k]];
        assert elements[..k + 1] == elements[..k] + [elements[k]];
      }
      assert c.elements[..] == c.elements[..maxSize];
      c.maxSize := maxSize;
      c.size := size;
      c.start := start;
      c.Contents := Contents;
    }

    /** spBPQueueClear: forgets every element; the buffer is not touched. */
    method Clear()
      requires Valid()
      modifies this
      ensures Valid() && elements == old(elements) && maxSize == old(maxSize)
      ensures size == 0 && start == -1 && Contents == []
    {
      size := 0;
      start := -1;
      Contents := [];
    }

    function Size(): (n: int)
      reads this, elements
      requires Valid()
      ensures n == |Contents|
    {
      size
    }

    function GetMaxSize(): (n: int)
      reads this, elements
      requires Valid()
      ensures n == elements.Length && n >= |Contents|
    {
      maxSize
    }

    /** spBPQueueIsEmpty tests `start == -1`, which is the same as having no element. */
    function IsEmpty(): (b: bool)
      reads this, elements
      requires Valid()
      ensures b <==> Contents == []
    {
      start == -1
    }

    function IsFull(): (b: bool)
      reads this, elements
      requires Valid()
      ensures b <==> |Contents| == maxSize
    {
      size == maxSize
    }

    /** spBPQueueMinValue asserts a non-empty queue. */
    function MinValue(): (v: real)
      reads this, elements
      requires Valid() && Contents != []
      ensures v == Contents[0].value
    {
      RingRead(elements[..], start, Contents, 0);
      elements[start].value
    }

    /** spBPQueueMaxValue asserts a non-empty queue. */
    function MaxValue(): (v: real)
      reads this, elements
      requires Valid() && Contents != []
      ensures v == Contents[|Contents| - 1].value
      ensures MinValue() <= v
    {
      RingRead(elements[..], start, Contents, size - 1);
      assert size == 1 || Ordered(Contents[0], Contents[size - 1]);
      elements[RingIndex(start, size - 1, maxSize)].value
    }

    /** spBPQueuePeek: `res` keeps its previous content when the queue is empty. */
    method Peek(res: Element) returns (msg: Msg, out: Element)
      requires Valid()
      ensures Contents == [] ==> msg == Empty && out == res
      ensures Contents != [] ==> msg == Success && out == Contents[0]
    {
      if IsEmpty() {
        return Empty, res;
      }
      RingRead(elements[..], start, Contents, 0);
      return Success, elements[start];
    }

    /** spBPQueuePeekLast: a copy of the maximum. */
    method PeekLast(res: Element) returns (msg: Msg, out: Element)
      requires Valid()
      ensures Contents == [] ==> msg == Empty && out == res
      ensures Contents != [] ==> msg == Success && out == Contents[|Contents| - 1]
    {
      if IsEmpty() {
        return Empty, res;
      }
      RingRead(elements[..], start, Contents, size - 1);
      return Success, elements[RingIndex(start, size - 1, maxSize)];
    }

    /** spBPQueueDequeue: drops the minimum by moving `start`; no element moves. */
    method Dequeue() returns (msg: Msg)
      requires Valid()
      modifies this
      ensures Valid() && elements == old(elements) && maxSize == old(maxSize)
      ensures old(Contents) == [] ==> msg == Empty && Contents == [] && start == old(start)
      ensures old(Contents) != [] ==> msg == Success && Contents == old(Contents)[1..]
    {
      if IsEmpty() {
        return Empty;
      }
      RingAdvance(elements[..], start, Contents);
      RingIndexIsMod(start, 1, maxSize);
      size := size - 1;
      if size == 0 {
        start := -1;
      } else {
        start := (start + 1) % maxSize;
      }
      Contents := Contents[1..];
      PrefixSortedFrom(old(Contents));
      msg := Success;
    }

    /**
     * The loop of spBPQueueEnqueue: walks the contents from the front carrying
     * `temp`, swapping it with every element it precedes.  The slots then hold
     * `Insert(s, x)` without its last element, and `current` holds the old
     * maximum `s[size - 1]`.
     */
    method InsertionPass(x: Element, ghost s: seq<Element>, ghost k: int, ghost ins: seq<Element>)
      returns (current: Element)
      requires elements.Length == maxSize && 0 <= start < maxSize && 0 < size <= maxSize
      requires |s| == size && InsertionPoint(s, x, k) && RingHolds(elements[..], start, s)
      requires |ins| == |s| + 1 && forall j {:trigger ins[j]} :: 0 <= j <= |s| ==> ins[j] == Spliced(s, x, k, j)
      modifies elements
      ensures RingHolds(elements[..], start, ins[..size])
      ensures current == s[size - 1]
    {
      var a, first, n, m := elements, start, size, maxSize;
      var temp := x;
      current := x;
      var i := 0;
      ghost var cur := s;
      while i < n
        invariant 0 <= i <= n && |cur| == n
        invariant RingHolds(a[..], first, cur)
        invariant forall j {:trigger cur[j]} :: 0 <= j < n ==> cur[j] == if j < i then ins[j] else s[j]
        invariant temp == if i <= k then x else s[i - 1]
        invariant i > 0 ==> current == s[i - 1]
      {
        var slot := RingIndex(first, i, m);
        ghost var before := a[..];
        RingRead(before, first, cur, i);
        current := a[slot];
        PassStep(s, x, k, i, temp);
        assert ins[i] == Spliced(s, x, k, i);
        if temp.value < current.value || (temp.value == current.value && temp.index < current.index) {
          a[slot] := temp;
          assert a[..] == before[slot := temp];
          RingAssign(before, first, cur, i, temp);
          cur := cur[i := temp];
          temp := current;
        }
        i := i + 1;
      }
      assert cur == ins[..n];
    }

    /**
     * The rest of spBPQueueEnqueue for an element no larger than the maximum:
     * the insertion pass, then the old maximum appended if there is room.
     */
    method InsertInOrder(x: Element)
      requires Valid() && Contents != [] && Admissible(x)
      requires x.value <= Contents[|Contents| - 1].value
      modifies this, elements
      ensures Valid() && elements == old(elements) && maxSize == old(maxSize)
      ensures Contents == EnqueueContents(old(Contents), x, maxSize)
    {
      ghost var s := Contents;
      ghost var ins := Insert(s, x, Less);
      InsertPassResult(s, x, maxSize);
      EnqueuePreservesInvariant(s, x, maxSize);
      InsertPosIsInsertionPoint(s, x);
      SplicedIsInsert(s, x);
      var current := InsertionPass(x, s, InsertPos(s, x, Less), ins);
      if size < maxSize {
        ghost var before := elements[..];
        elements[RingIndex(start, size, maxSize)] := current;
        assert elements[..] == before[RingIndex(start, size, maxSize) := current];
        RingAppend(before, start, ins[..size], current);
        size := size + 1;
      }
      Contents := EnqueueContents(s, x, maxSize);
    }

    /** spBPQueueEnqueue. */
    method Enqueue(index: int, value: real) returns (msg: Msg)
      requires Valid()
      modifies this, elements
      ensures Valid() && elements == old(elements) && maxSize == old(maxSize)
      ensures msg == EnqueueMsg(old(Contents), Element(index, value), maxSize)
      ensures Contents == EnqueueContents(old(Contents), Element(index, value), maxSize)
    {
      var x := Element(index, value);
      if index < 0 || value < 0.0 {
        return InvalidArgument;
      }
      if IsEmpty() {
        elements[0] := x;
        start := 0;
        size := size + 1;
        Contents := [x];
        assert RingIndex(0, 0, maxSize) == 0;
        return Success;
      }
      var _, last := PeekLast(x);
      if value > last.value {
        if IsFull() {
          return Full;
        }
        ghost var before := elements[..];
        elements[RingIndex(start, size, maxSize)] := x;
        assert elements[..] == before[RingIndex(start, size, maxSize) := x];
        RingAppend(before, start, Contents, x);
        size := size + 1;
        Contents := Contents + [x];
        AppendLargerSorted(old(Contents), x);
        return Success;
      }
      InsertInOrder(x);
      msg := Success;
    }
  }

  /** Neighbours `j` and `j + 1` of `s` are in order. */
  predicate InOrderAt(s: seq<Element>, j: int) {
    0 <= j < |s| - 1 && Ordered(s[j], s[j + 1])
  }

  /**
   * `k` is where the insertion pass places `x` in the sorted `s`: after every
   * element `x` does not precede, before the first one it does.
   */
  predicate InsertionPoint(s: seq<Element>, x: Element, k: int) {
    0 <= k <= |s| &&
    (forall j {:trigger Ordered(s[j], x)} :: 0 <= j < k ==> Ordered(s[j], x)) &&
    (k < |s| ==> Less(x, s[k])) &&
    (forall j :: 0 <= j < |s| - 1 ==> InOrderAt(s, j))
  }

  lemma InsertPosIsInsertionPoint(s: seq<Element>, x: Element)
    requires Sorted(s)
    ensures InsertionPoint(s, x, InsertPos(s, x, Less))
  {
  }

  /** Position `j` of `s` with `x` inserted at `k`. */
  function Spliced(s: seq<Element>, x: Element, k: int, j: int): Element
    requires 0 <= j <= |s| && 0 <= k <= |s|
  {
    if j < k then s[j] else if j == k then x else s[j - 1]
  }

  /**
   * One step of the insertion pass: `temp` moves into position `i` exactly
   * when it precedes `s[i]`, and what is carried on is again the right element.
   */
  lemma PassStep(s: seq<Element>, x: Element, k: int, i: int, temp: Element)
    requires InsertionPoint(s, x, k) && 0 <= i < |s|
    requires temp == if i <= k then x else s[i - 1]
    ensures Less(temp, s[i]) ==>
      temp == Spliced(s, x, k, i) && s[i] == if i + 1 <= k then x else s[i]
    ensures !Less(temp, s[i]) ==>
      s[i] == Spliced(s, x, k, i) && temp == if i + 1 <= k then x else s[i]
  {
    if i > k {
      assert InOrderAt(s, i - 1);
    } else if i < k {
      assert Ordered(s[i], x);
    }
  }

  lemma SplicedIsInsert(s: seq<Element>, x: Element)
    ensures forall j :: 0 <= j <= |s| ==> Insert(s, x, Less)[j] == Spliced(s, x, InsertPos(s, x, Less), j)
  {
  }

  lemma AppendLargerSorted(s: seq<Element>, x: Element)
    requires Sorted(s) && |s| > 0 && x.value > s[|s| - 1].value
    ensures Sorted(s + [x])
  {
    var t := s + [x];
    forall i, j | 0 <= i < j < |t| ensures Ordered(t[i], t[j]) {
      if j == |s| && i < |s| - 1 {
        assert Ordered(s[i], s[|s| - 1]);
      } else if j < |s| {
        assert Ordered(s[i], s[j]);
      }
    }
  }

  /**
   * The insertion pass writes `Insert(s, x)` minus its last element over the
   * ring and leaves the old maximum in `current`; appending that maximum when
   * there is room is exactly `EnqueueContents`.
   */
  lemma InsertPassResult(s: seq<Element>, x: Element, cap: int)
    requires Sorted(s) && 0 < |s| <= cap && Admissible(x) && x.value <= s[|s| - 1].value
    ensures EnqueueContents(s, x, cap) ==
      Insert(s, x, Less)[..|s|] + if |s| == cap then [] else [s[|s| - 1]]
  {
    var last := s[|s| - 1];
    var k := InsertPos(s, x, Less);
    var ins := Insert(s, x, Less);
    if Less(last, x) {
      assert k < |s| ==> k == |s| - 1 || Ordered(s[k], last);
      assert ins == s + [x];
      assert ins[..|s|] == s;
      assert !(x.value > last.value);
      assert EnqueueContents(s, x, cap) == if |s| < cap then s + [last] else s;
      if |s| == cap {
        assert ins[..|s|] + [] == s;
      }
    } else {
      assert ins[|s|] == last by {
        if k == |s| {
          assert !Less(x, s[|s| - 1]);
        } else {
          assert k == |s| - 1 || Ordered(s[|s| - 2], last);
        }
      }
      assert ins == ins[..|s|] + [last];
      assert !(x.value > last.value);
      assert EnqueueContents(s, x, cap) == if |s| < cap then ins else ins[..|s|];
      if |s| == cap {
        assert ins[..|s|] + [] == ins[..|s|];
      }
    }
  }

  lemma PrefixSortedFrom(s: seq<Element>)
    requires Sorted(s) && |s| > 0
    ensures Sorted(s[1..])
  {
    forall i, j | 0 <= i < j < |s| - 1 ensures Ordered(s[1..][i], s[1..][j]) {
      assert Ordered(s[i + 1], s[j + 1]);
    }
  }

  lemma PrefixSorted(s: seq<Element>, n: nat)
    requires Sorted(s) && n <= |s|
    ensures Sorted(s[..n])
  {
  }

  lemma AppendLastSorted(s: seq<Element>)
    requires Sorted(s) && |s| > 0
    ensures Sorted(s + [s[|s| - 1]])
  {
    var t := s + [s[|s| - 1]];
    forall i, j | 0 <= i < j < |t| ensures Ordered(t[i], t[j]) {
      if j == |s| && i < |s| - 1 {
        assert Ordered(s[i], s[|s| - 1]);
      } else if j < |s| {
        assert Ordered(s[i], s[j]);
      }
    }
  }

  lemma InsertAdmissible(s: seq<Element>, x: Element)
    requires Admissible(x) && AllAdmissible(s)
    ensures AllAdmissible(Insert(s, x, Less))
  {
    InsertPermutation(s, x, Less);
    var ins := Insert(s, x, Less);
    forall i | 0 <= i < |ins| ensures Admissible(ins[i]) {
      assert ins[i] in multiset(s) + multiset{x};
    }
  }

  /** Every enqueue keeps the contents sorted, admissible and within capacity. */
  lemma EnqueuePreservesInvariant(s: seq<Element>, x: Element, cap: int)
    requires Sorted(s) && |s| <= cap && 0 < cap
    requires AllAdmissible(s)
    ensures var r := EnqueueContents(s, x, cap);
      Sorted(r) && |r| <= cap && AllAdmissible(r)
  {
    if Admissible(x) && |s| > 0 {
      var last := s[|s| - 1];
      if x.value > last.value {
        if |s| < cap {
          AppendLargerSorted(s, x);
        }
      } else if Less(last, x) {
        if |s| < cap {
          AppendLastSorted(s);
        }
      } else {
        LessIsStrictOrder();
        SortedIsSortedBy(s);
        InsertSorted(s, x, Less);
        SortedIsSortedBy(Insert(s, x, Less));
        InsertPermutation(s, x, Less);
        InsertAdmissible(s, x);
        PrefixSorted(Insert(s, x, Less), |s|);
      }
    }
  }

  /** A rejected element leaves the contents as they were. */
  lemma EnqueueRejectedUnchanged(s: seq<Element>, x: Element, cap: int)
    ensures EnqueueMsg(s, x, cap) != Success ==> EnqueueContents(s, x, cap) == s
    ensures EnqueueMsg(s, x, cap) == InvalidArgument <==> !Admissible(x)
    ensures EnqueueMsg(s, x, cap) == Full <==>
      Admissible(x) && |s| == cap && |s| > 0 && x.value > s[|s| - 1].value
  {
  }

  /** An accepted element makes the queue grow by one unless it was full. */
  lemma EnqueueSize(s: seq<Element>, x: Element, cap: int)
    requires |s| <= cap && 0 < cap
    ensures |EnqueueContents(s, x, cap)| ==
      if EnqueueMsg(s, x, cap) == Success && |s| < cap then |s| + 1 else |s|
  {
    if Admissible(x) && |s| > 0 && x.value <= s[|s| - 1].value && !Less(s[|s| - 1], x) {
      InsertPermutation(s, x, Less);
    }
  }

  /** An enqueue invents nothing: every element held afterwards was held before or is the one offered. */
  lemma EnqueueHoldsOffered(s: seq<Element>, x: Element, cap: int)
    ensures forall e :: e in EnqueueContents(s, x, cap) ==> e in s || e == x
  {
    if Admissible(x) && |s| > 0 && x.value <= s[|s| - 1].value && !Less(s[|s| - 1], x) {
      var ins := Insert(s, x, Less);
      InsertPermutation(s, x, Less);
      forall e | e in EnqueueContents(s, x, cap) ensures e in s || e == x {
        assert e in ins;
        assert e in multiset(ins);
      }
    }
  }

  /**
   * `x` has the maximum's value but a larger index: the one case in which the
   * queue does not store `x`.
   */
  predicate TiesAfterMax(s: seq<Element>, x: Element) {
    |s| > 0 && x.value == s[|s| - 1].value && s[|s| - 1].index < x.index
  }

  /**
   * Outside that case, the queue keeps the smallest elements of `s` and `x`:
   * what it keeps comes from them, as many as fit, and nothing dropped precedes
   * anything kept.
   */
  lemma EnqueueKeepsSmallest(s: seq<Element>, x: Element, cap: int)
    requires Sorted(s) && |s| <= cap && 0 < cap && Admissible(x) && !TiesAfterMax(s, x)
    ensures var r := EnqueueContents(s, x, cap);
      multiset(r) <= multiset(s) + multiset{x} &&
      |r| == (if |s| < cap then |s| + 1 else cap) &&
      forall e, d :: e in r && d in multiset(s) + multiset{x} - multiset(r) ==> Ordered(e, d)
  {
    if |s| == 0 {
    } else if x.value > s[|s| - 1].value {
      if |s| == cap {
        RejectLargerKeepsSmallest(s, x);
      }
    } else {
      InsertKeepsSmallest(s, x, cap);
    }
  }

  lemma RejectLargerKeepsSmallest(s: seq<Element>, x: Element)
    requires Sorted(s) && |s| > 0 && x.value > s[|s| - 1].value
    ensures forall e, d :: e in s && d in multiset(s) + multiset{x} - multiset(s) ==> Ordered(e, d)
  {
    assert multiset(s) + multiset{x} - multiset(s) == multiset{x};
    forall e | e in s ensures Ordered(e, x) {
      var i :| 0 <= i < |s| && s[i] == e;
      assert i == |s| - 1 || Ordered(s[i], s[|s| - 1]);
    }
  }

  lemma InsertKeepsSmallest(s: seq<Element>, x: Element, cap: int)
    requires Sorted(s) && 0 < |s| <= cap && Admissible(x) && !TiesAfterMax(s, x)
    requires x.value <= s[|s| - 1].value
    ensures var r := EnqueueContents(s, x, cap);
      multiset(r) <= multiset(s) + multiset{x} &&
      |r| == (if |s| < cap then |s| + 1 else cap) &&
      forall e, d :: e in r && d in multiset(s) + multiset{x} - multiset(r) ==> Ordered(e, d)
  {
    var ins := Insert(s, x, Less);
    assert !Less(s[|s| - 1], x);
    assert EnqueueContents(s, x, cap) == if |s| < cap then ins else ins[..|s|];
    LessIsStrictOrder();
    SortedIsSortedBy(s);
    InsertSorted(s, x, Less);
    SortedIsSortedBy(ins);
    InsertPermutation(s, x, Less);
    if |s| == cap {
      var r := ins[..|s|];
      assert ins == r + [ins[|s|]];
      assert multiset(ins) == multiset(r) + multiset{ins[|s|]};
      assert multiset(s) + multiset{x} - multiset(r) == multiset{ins[|s|]};
      forall e | e in r ensures Ordered(e, ins[|s|]) {
        var i :| 0 <= i < |r| && r[i] == e;
        assert Ordered(ins[i], ins[|s|]);
      }
    }
  }

  /**
   * In that case the queue stores a second copy of its maximum instead of `x`
   * when there is room, and nothing when it is full.
   */
  lemma EnqueueTieRepeatsMax(s: seq<Element>, x: Element, cap: int)
    requires Sorted(s) && |s| <= cap && Admissible(x) && TiesAfterMax(s, x)
    ensures EnqueueMsg(s, x, cap) == Success
    ensures EnqueueContents(s, x, cap) == if |s| < cap then s + [s[|s| - 1]] else s
    ensures x !in EnqueueContents(s, x, cap)
  {
    var r := EnqueueContents(s, x, cap);
    forall i | 0 <= i < |r| ensures r[i] != x {
      if i < |s| - 1 {
        assert Ordered(s[i], s[|s| - 1]);
      }
    }
  }

  /** A queue of capacity 2 holding (1, 2.0) that is given (5, 2.0) ends up holding (1, 2.0) twice. */
  lemma EnqueueTieExample()
    ensures EnqueueContents([Element(1, 2.0)], Element(5, 2.0), 2) == [Element(1, 2.0), Element(1, 2.0)]
  {
  }

  // ---------------------------------------------------------------------------
  // The values held.  The tie case above changes which index is reported,
  // never which values are held: by value the queue always keeps the
  // smallest of everything offered to it.

  function ValueOf(e: Element): real {
    e.value
  }

  /** The values held, with their multiplicities. */
  function Values(s: seq<Element>): multiset<real> {
    multiset(MapSeq(s, ValueOf))
  }

  /**
   * `held` is what a queue of capacity `cap` should keep of the values
   * `offered` to it: some of them, all of them while there is room, and none
   * larger than one left out.
   */
  ghost predicate KeepsSmallest(held: multiset<real>, offered: multiset<real>, cap: int) {
    && held <= offered && |held| <= cap
    && (|held| < cap ==> held == offered)
    && forall v, w :: v in held && w in offered - held ==> v <= w
  }

  lemma ValuesSnoc(s: seq<Element>, y: Element)
    ensures Values(s + [y]) == Values(s) + multiset{y.value}
  {
    MapConcat(s, [y], ValueOf);
  }

  lemma ValuesPermutation(s: seq<Element>, t: seq<Element>)
    requires multiset(s) == multiset(t)
    ensures Values(s) == Values(t)
  {
    MapPermutation(s, t, ValueOf);
  }

  /** Every value held by a sorted queue is at most its last element's. */
  lemma SortedValuesBound(s: seq<Element>)
    requires Sorted(s) && |s| > 0
    ensures forall v :: v in Values(s) ==> v <= s[|s| - 1].value
  {
    var m := MapSeq(s, ValueOf);
    forall v | v in Values(s) ensures v <= s[|s| - 1].value {
      var i :| 0 <= i < |m| && m[i] == v;
      assert i == |s| - 1 || Ordered(s[i], s[|s| - 1]);
    }
  }

  /** An element held contributes its value. */
  lemma ElementValue(s: seq<Element>, e: Element)
    requires e in s
    ensures e.value in Values(s)
  {
    var i :| 0 <= i < |s| && s[i] == e;
    assert MapSeq(s, ValueOf)[i] == e.value;
  }

  /** A full queue that is offered only values no smaller than all it holds keeps holding the same. */
  lemma KeepsSmallestOfLarger(held: multiset<real>, offered: multiset<real>, cap: int, extra: multiset<real>)
    requires KeepsSmallest(held, offered, cap) && |held| == cap
    requires forall v, w :: v in held && w in extra ==> v <= w
    ensures KeepsSmallest(held, offered + extra, cap)
  {
    forall v, w | v in held && w in offered + extra - held ensures v <= w {
      if w !in extra {
        assert w in offered - held;
      }
    }
  }

  /** Growing by a value while there is room keeps everything offered. */
  lemma KeepsSmallestGrow(held: multiset<real>, offered: multiset<real>, cap: int, v: real)
    requires KeepsSmallest(held, offered, cap) && |held| < cap
    ensures KeepsSmallest(held + multiset{v}, offered + multiset{v}, cap)
  {
    assert offered + multiset{v} - (held + multiset{v}) == multiset{};
  }

  /**
   * The full-queue insertion: `x` replaces a maximum `top` of what was held,
   * and `top` joins what is left out.
   */
  lemma KeepsSmallestReplace(held: multiset<real>, offered: multiset<real>, cap: int, v: real, top: real, kept: multiset<real>)
    requires KeepsSmallest(held, offered, cap) && |held| == cap
    requires top in held && v <= top && forall u :: u in held ==> u <= top
    requires kept + multiset{top} == held + multiset{v}
    ensures KeepsSmallest(kept, offered + multiset{v}, cap)
  {
    var offered' := offered + multiset{v};
    assert kept <= offered' by {
      forall u ensures kept[u] <= offered'[u] {
        assert (kept + multiset{top})[u] == (held + multiset{v})[u];
      }
    }
    assert |kept| == cap by {
      assert |kept + multiset{top}| == |held + multiset{v}|;
    }
    forall u, w | u in kept && w in offered' - kept ensures u <= w {
      assert (kept + multiset{top})[u] == (held + multiset{v})[u];
      assert (kept + multiset{top})[w] == (held + multiset{v})[w];
      assert u in held || u == v;
      if w != top {
        assert w in offered - held;
      }
    }
  }

  /**
   * Whatever tie the element meets, the values a queue holds after an enqueue
   * are the smallest of the values offered so far and the new one.
   */
  lemma EnqueueKeepsSmallestValues(s: seq<Element>, x: Element, cap: int, offered: multiset<real>)
    requires Sorted(s) && |s| <= cap && 0 < cap && Admissible(x)
    requires KeepsSmallest(Values(s), offered, cap)
    ensures KeepsSmallest(Values(EnqueueContents(s, x, cap)), offered + multiset{x.value}, cap)
  {
    assert |Values(s)| == |s|;
    if |s| == 0 {
      assert offered == multiset{};
      assert MapSeq([x], ValueOf) == [x.value];
      assert offered + multiset{x.value} - Values([x]) == multiset{};
    } else if x.value > s[|s| - 1].value || Less(s[|s| - 1], x) {
      AppendOrKeepSmallest(s, x, cap, offered);
    } else {
      InsertKeepsSmallestValues(s, x, cap, offered);
    }
  }

  /** The cases in which `x` is appended, a copy of the maximum is appended, or nothing changes. */
  lemma AppendOrKeepSmallest(s: seq<Element>, x: Element, cap: int, offered: multiset<real>)
    requires Sorted(s) && 0 < |s| <= cap && Admissible(x)
    requires x.value > s[|s| - 1].value || Less(s[|s| - 1], x)
    requires KeepsSmallest(Values(s), offered, cap)
    ensures KeepsSmallest(Values(EnqueueContents(s, x, cap)), offered + multiset{x.value}, cap)
  {
    var last := s[|s| - 1];
    var v := x.value;
    assert |Values(s)| == |s|;
    if |s| == cap {
      SortedValuesBound(s);
      assert forall u :: u in Values(s) ==> u <= v;
      KeepsSmallestOfLarger(Values(s), offered, cap, multiset{v});
    } else {
      var y := if v > last.value then x else last;
      assert EnqueueContents(s, x, cap) == s + [y];
      ValuesSnoc(s, y);
      KeepsSmallestGrow(Values(s), offered, cap, v);
    }
  }

  /** Inserting an element that does not follow the maximum leaves the maximum last. */
  lemma InsertKeepsMaxLast(s: seq<Element>, x: Element)
    requires Sorted(s) && |s| > 0 && !Less(s[|s| - 1], x)
    ensures |Insert(s, x, Less)| == |s| + 1
    ensures Insert(s, x, Less) == Insert(s, x, Less)[..|s|] + [s[|s| - 1]]
  {
    var last := s[|s| - 1];
    var k := InsertPos(s, x, Less);
    var ins := Insert(s, x, Less);
    InsertPermutation(s, x, Less);
    assert ins[|s|] == last by {
      if k == |s| {
        assert !Less(x, s[|s| - 1]);
      } else {
        assert k == |s| - 1 || Ordered(s[|s| - 2], last);
      }
    }
    assert ins == ins[..|s|] + [ins[|s|]];
  }

  /** The case in which `x` is inserted before the maximum, which drops out of a full queue. */
  lemma InsertKeepsSmallestValues(s: seq<Element>, x: Element, cap: int, offered: multiset<real>)
    requires Sorted(s) && 0 < |s| <= cap && Admissible(x)
    requires !(x.value > s[|s| - 1].value) && !Less(s[|s| - 1], x)
    requires KeepsSmallest(Values(s), offered, cap)
    ensures KeepsSmallest(Values(EnqueueContents(s, x, cap)), offered + multiset{x.value}, cap)
  {
    var last := s[|s| - 1];
    var ins := Insert(s, x, Less);
    var front := ins[..|s|];
    InsertKeepsMaxLast(s, x);
    InsertPassResult(s, x, cap);
    InsertPermutation(s, x, Less);
    assert multiset(ins) == multiset(s + [x]);
    ValuesPermutation(ins, s + [x]);
    ValuesSnoc(s, x);
    assert |Values(s)| == |s|;
    if |s| < cap {
      assert EnqueueContents(s, x, cap) == ins;
      KeepsSmallestGrow(Values(s), offered, cap, x.value);
    } else {
      assert EnqueueContents(s, x, cap) == front;
      ValuesSnoc(front, last);
      ElementValue(s, last);
      SortedValuesBound(s);
      KeepsSmallestReplace(Values(s), offered, cap, x.value, last.value, Values(front));
    }
  }
}
