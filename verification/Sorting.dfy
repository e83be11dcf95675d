/** Heap sort and binary search over an array of elements of any size (`stdlib.c`). The array is
    bytes; element number k, counted from 1, is the k-th group of size bytes. */
module Sorting {
  import opened Queues
  import opened Bits

  type Elem = seq<Byte>

  // A strcmp-type comparison: signs are opposite when swapped, and not-above is transitive.
  ghost predicate Order(compare: (Elem, Elem) -> int) {
    && (forall a, b :: compare(a, b) > 0 <==> compare(b, a) < 0)
    && (forall a, b, c :: compare(a, b) <= 0 && compare(b, c) <= 0 ==> compare(a, c) <= 0)
  }

  // ---- elements in bytes ----

  // Element k, counted from 0.
  function Group(s: seq<Byte>, k: nat, size: nat): Elem
    requires k * size + size <= |s|
  {
    s[k * size..k * size + size]
  }

  ghost function Elems(s: seq<Byte>, cnt: nat, size: nat): (r: seq<Elem>)
    requires cnt * size <= |s|
    ensures |r| == cnt
  {
    seq(cnt, k requires 0 <= k < cnt => (MulBound(k, cnt, size); Group(s, k, size)))
  }

  ghost function Swapped<T>(s: seq<T>, i: nat, j: nat): (r: seq<T>)
    requires i < |s| && j < |s|
    ensures |r| == |s|
  {
    s[i := s[j]][j := s[i]]
  }

  // ---- heaps, in elements counted from 1 ----

  function At(es: seq<Elem>, k: nat): Elem
    requires 1 <= k <= |es|
  {
    es[k - 1]
  }

  ghost predicate Above(es: seq<Elem>, compare: (Elem, Elem) -> int, p: nat, k: nat)
    requires 1 <= p <= |es| && 1 <= k <= |es|
  {
    compare(At(es, k), At(es, p)) <= 0
  }

  // Every element from lo on is above its children among the first n; i's children excepted.
  ghost predicate HeapBut(es: seq<Elem>, compare: (Elem, Elem) -> int, lo: nat, n: nat, i: nat) {
    n <= |es| && lo >= 1 && forall k :: 2 <= k <= n && lo <= k / 2 != i ==> Above(es, compare, k / 2, k)
  }

  ghost predicate Heap(es: seq<Elem>, compare: (Elem, Elem) -> int, lo: nat, n: nat) { HeapBut(es, compare, lo, n, 0) }

  // While i floats down, its parent is above its children.
  ghost predicate Bridge(es: seq<Elem>, compare: (Elem, Elem) -> int, lo: nat, n: nat, i: nat) {
    n <= |es| && lo >= 1 && forall k :: 2 <= k <= n && k / 2 == i && lo <= i / 2 ==> Above(es, compare, i / 2, k)
  }

  // max is above the children of i.
  ghost predicate Tops(es: seq<Elem>, compare: (Elem, Elem) -> int, n: nat, i: nat, max: nat) {
    1 <= max <= |es| && n <= |es| && forall k :: 2 <= k <= n && k / 2 == i ==> Above(es, compare, max, k)
  }

  /** One swap down: the exception moves to the bigger child. */
  lemma FloatDown(es: seq<Elem>, compare: (Elem, Elem) -> int, lo: nat, n: nat, i: nat, max: nat)
    requires Order(compare) && n <= |es| && 1 <= lo <= i && (max == 2 * i || max == 2 * i + 1) && max <= n
    requires HeapBut(es, compare, lo, n, i) && Bridge(es, compare, lo, n, i)
    requires Tops(es, compare, n, i, max) && compare(At(es, max), At(es, i)) > 0
    ensures HeapBut(Swapped(es, i - 1, max - 1), compare, lo, n, max)
    ensures Bridge(Swapped(es, i - 1, max - 1), compare, lo, n, max)
  {
    var es' := Swapped(es, i - 1, max - 1);
    assert max / 2 == i;
    forall k | 2 <= k <= n && lo <= k / 2 != max ensures Above(es', compare, k / 2, k) {
      if k / 2 == i {
        assert At(es', i) == At(es, max) && Above(es, compare, max, k);
        assert At(es', k) == if k == max then At(es, i) else At(es, k);
      } else if k == i {
        assert Above(es, compare, i / 2, max);
        assert At(es', i / 2) == At(es, i / 2) && At(es', i) == At(es, max);
      } else {
        assert Above(es, compare, k / 2, k);
        assert At(es', k / 2) == At(es, k / 2) && At(es', k) == At(es, k);
      }
    }
    forall k | 2 <= k <= n && k / 2 == max ensures Above(es', compare, i, k) { assert Above(es, compare, max, k); }
  }

  lemma FloatStart(es: seq<Elem>, compare: (Elem, Elem) -> int, lo: nat, n: nat)
    requires Heap(es, compare, lo + 1, n) && lo >= 1
    ensures HeapBut(es, compare, lo, n, lo) && Bridge(es, compare, lo, n, lo) && Shuffled(es, es, n)
  {
  }

  lemma FloatDone(es: seq<Elem>, compare: (Elem, Elem) -> int, lo: nat, n: nat, i: nat)
    requires HeapBut(es, compare, lo, n, i) && Tops(es, compare, n, i, i)
    ensures Heap(es, compare, lo, n)
  {
  }

  /** The first element of a heap is a biggest one. */
  lemma {:induction false} HeapTop(es: seq<Elem>, compare: (Elem, Elem) -> int, n: nat, k: nat)
    requires Order(compare) && Heap(es, compare, 1, n) && 1 <= k <= n
    ensures Above(es, compare, 1, k)
    decreases k
  {
    if k > 1 {
      HeapTop(es, compare, n, k / 2);
      assert Above(es, compare, k / 2, k);
    }
  }

  // ---- permutations ----

  // es' has the first n elements of es in some order, and the rest as they were.
  ghost predicate Shuffled(es: seq<Elem>, es': seq<Elem>, n: nat) {
    |es'| == |es| && n <= |es| && es'[n..] == es[n..] && multiset(es'[..n]) == multiset(es[..n])
  }

  lemma SwapShuffles(es: seq<Elem>, i: nat, j: nat, n: nat)
    requires i < n <= |es| && j < n
    ensures Shuffled(es, Swapped(es, i, j), n)
  {
    var a := es[..n];
    assert Swapped(es, i, j)[..n] == Swapped(a, i, j);
  }

  lemma ShuffledMore(es: seq<Elem>, es': seq<Elem>, n: nat, m: nat)
    requires Shuffled(es, es', n) && n <= m <= |es|
    ensures Shuffled(es, es', m)
  {
    assert es[..m] == es[..n] + es[n..m] && es'[..m] == es'[..n] + es'[n..m];
    assert es'[n..m] == es'[n..][..m - n] && es[n..m] == es[n..][..m - n];
    assert es'[m..] == es'[n..][m - n..] && es[m..] == es[n..][m - n..];
  }

  lemma Apart(i: nat, j: nat, size: nat)
    requires i != j
    ensures i * size + size <= j * size || j * size + size <= i * size
  {
    if i < j { MulBound(i, j, size); } else { MulBound(j, i, size); }
  }

  lemma MovedBytes(s: seq<Byte>, s': seq<Byte>, p: nat, q: nat, size: nat)
    requires |s'| == |s| && p + size <= |s| && q + size <= |s|
    requires forall x :: p <= x < p + size ==> s'[x] == s[x - p + q]
    ensures s'[p..p + size] == s[q..q + size]
  {
  }

  // p and q are where elements i and j are; k is any other.
  lemma OtherGroup(s: seq<Byte>, s': seq<Byte>, size: nat, i: nat, j: nat, p: nat, q: nat, k: nat)
    requires |s'| == |s| && p == i * size && q == j * size && k != i && k != j && k * size + size <= |s|
    requires forall x :: 0 <= x < |s| && !(p <= x < p + size) && !(q <= x < q + size) ==> s'[x] == s[x]
    ensures 0 <= k * size && Group(s', k, size) == Group(s, k, size)
  {
    Apart(k, i, size);
    Apart(k, j, size);
    var r := k * size;
    MovedBytes(s, s', r, r, size);
  }

  lemma SwappedGroups(s: seq<Byte>, s': seq<Byte>, cnt: nat, size: nat, i: nat, j: nat, p: nat, q: nat)
    requires |s'| == |s| && cnt * size <= |s| && i < cnt && j < cnt && i != j
    requires p == i * size && q == j * size && p + size <= |s| && q + size <= |s|
    requires forall x :: p <= x < p + size ==> s'[x] == s[x - p + q]
    requires forall x :: q <= x < q + size ==> s'[x] == s[x - q + p]
    requires forall x :: 0 <= x < |s| && !(p <= x < p + size) && !(q <= x < q + size) ==> s'[x] == s[x]
    ensures Elems(s', cnt, size) == Swapped(Elems(s, cnt, size), i, j)
  {
    var es, es' := Elems(s, cnt, size), Elems(s', cnt, size);
    MovedBytes(s, s', p, q, size);
    MovedBytes(s, s', q, p, size);
    assert es'[i] == s'[p..p + size] && es[j] == s[q..q + size];
    assert es'[j] == s'[q..q + size] && es[i] == s[p..p + size];
    forall k | 0 <= k < cnt && k != i && k != j ensures es'[k] == es[k] {
      MulBound(k, cnt, size);
      OtherGroup(s, s', size, i, j, p, q, k);
    }
  }

  // ---- the array ----

  ghost predicate Holds(a: array<Byte>, cnt: nat, size: nat) { size > 0 && cnt * size <= a.Length }

  ghost function View(a: array<Byte>, cnt: nat, size: nat): (r: seq<Elem>)
    requires Holds(a, cnt, size)
    reads a
    ensures |r| == cnt
  {
    Elems(a[..], cnt, size)
  }

  // `do_swap`, byte by byte
  method Swap(a: array<Byte>, i: nat, j: nat, ghost cnt: nat, size: nat)
    requires Holds(a, cnt, size) && 1 <= i <= cnt && 1 <= j <= cnt && i != j
    modifies a
    ensures View(a, cnt, size) == Swapped(old(View(a, cnt, size)), i - 1, j - 1)
    ensures forall x :: cnt * size <= x < a.Length ==> a[x] == old(a[x])
  {
    MulBound(i - 1, cnt, size);
    MulBound(j - 1, cnt, size);
    var p, q := (i - 1) * size, (j - 1) * size;
    Apart(i - 1, j - 1, size);
    ghost var was := a[..];
    var m := 0;
    while m < size
      invariant m <= size
      invariant forall x :: p <= x < p + m ==> a[x] == was[x - p + q]
      invariant forall x :: q <= x < q + m ==> a[x] == was[x - q + p]
      invariant forall x :: 0 <= x < a.Length && !(p <= x < p + m) && !(q <= x < q + m) ==> a[x] == was[x]
    {
      a[p + m], a[q + m] := a[q + m], a[p + m];
      m := m + 1;
    }
    SwappedGroups(was, a[..], cnt, size, i - 1, j - 1, p, q);
  }

  // `do_compare`
  method Compare(a: array<Byte>, i: nat, j: nat, ghost cnt: nat, size: nat, compare: (Elem, Elem) -> int) returns (c: int)
    requires Holds(a, cnt, size) && 1 <= i <= cnt && 1 <= j <= cnt
    ensures c == compare(At(View(a, cnt, size), i), At(View(a, cnt, size), j))
  {
    MulBound(i - 1, cnt, size);
    MulBound(j - 1, cnt, size);
    var p, q := (i - 1) * size, (j - 1) * size;
    assert a[..][p..p + size] == a[p..p + size] && a[..][q..q + size] == a[q..q + size];
    c := compare(a[p..p + size], a[q..q + size]);
  }

  // which of i and its children among the first n is biggest
  method Biggest(a: array<Byte>, i: nat, n: nat, ghost cnt: nat, size: nat, compare: (Elem, Elem) -> int, ghost es: seq<Elem>)
    returns (max: nat)
    requires Holds(a, cnt, size) && Order(compare) && 1 <= i <= n <= cnt && es == View(a, cnt, size)
    ensures max == i || (max <= n && (max == 2 * i || max == 2 * i + 1))
    ensures Tops(es, compare, n, i, max) && (max != i ==> compare(At(es, max), At(es, i)) > 0)
  {
    max := i;
    var left, right := 2 * i, 2 * i + 1;
    if left <= n {
      var c := Compare(a, left, max, cnt, size, compare);
      if c > 0 { max := left; }
    }
    if right <= n {
      var c := Compare(a, right, max, cnt, size, compare);
      if c > 0 { max := right; }
    }
    forall k | 2 <= k <= n && k / 2 == i ensures Above(es, compare, max, k) {
      assert k == left || k == right;
    }
  }

  // one turn of `heapify`; i is returned when it may stay
  method FloatTurn(a: array<Byte>, lo: nat, i: nat, n: nat, ghost cnt: nat, size: nat, compare: (Elem, Elem) -> int,
                   ghost was: seq<Elem>) returns (max: nat)
    requires Holds(a, cnt, size) && Order(compare) && 1 <= lo <= i <= n <= cnt && Shuffled(was, View(a, cnt, size), n)
    requires HeapBut(View(a, cnt, size), compare, lo, n, i) && Bridge(View(a, cnt, size), compare, lo, n, i)
    modifies a
    ensures max >= i && Shuffled(was, View(a, cnt, size), n)
    ensures max == i ==> Heap(View(a, cnt, size), compare, lo, n)
    ensures max > i ==> max <= n && HeapBut(View(a, cnt, size), compare, lo, n, max)
    ensures max > i ==> Bridge(View(a, cnt, size), compare, lo, n, max)
    ensures forall x :: cnt * size <= x < a.Length ==> a[x] == old(a[x])
  {
    hide *;
    ghost var es := View(a, cnt, size);
    max := Biggest(a, i, n, cnt, size, compare, es);
    if max == i {
      FloatDone(es, compare, lo, n, i);
    } else {
      FloatDown(es, compare, lo, n, i, max);
      SwapShuffles(es, i - 1, max - 1, n);
      Swap(a, i, max, cnt, size);
      ShuffledTrans(was, es, View(a, cnt, size), n);
    }
  }

  /** Floats element i down until the first n are a heap from i on; the rest stays. */
  method Heapify(a: array<Byte>, i0: nat, n: nat, ghost cnt: nat, size: nat, compare: (Elem, Elem) -> int)
    requires Holds(a, cnt, size) && Order(compare) && 1 <= i0 <= n <= cnt
    requires Heap(View(a, cnt, size), compare, i0 + 1, n)
    modifies a
    ensures Heap(View(a, cnt, size), compare, i0, n) && Shuffled(old(View(a, cnt, size)), View(a, cnt, size), n)
    ensures forall x :: cnt * size <= x < a.Length ==> a[x] == old(a[x])
  {
    hide *;
    var i, done := i0, false;
    ghost var was := View(a, cnt, size);
    FloatStart(was, compare, i0, n);
    while !done
      invariant i0 <= i <= n && Shuffled(was, View(a, cnt, size), n)
      invariant forall x :: cnt * size <= x < a.Length ==> a[x] == old(a[x])
      invariant !done ==> HeapBut(View(a, cnt, size), compare, i0, n, i) && Bridge(View(a, cnt, size), compare, i0, n, i)
      invariant done ==> Heap(View(a, cnt, size), compare, i0, n)
      decreases n - i, !done
    {
      var max := FloatTurn(a, i0, i, n, cnt, size, compare, was);
      done := max == i;
      i := max;
    }
  }

  // ---- sorting ----

  ghost predicate Sorted(es: seq<Elem>, compare: (Elem, Elem) -> int) {
    forall j, k :: 0 <= j < k < |es| ==> compare(es[j], es[k]) <= 0
  }

  // The elements from m on are in order, and none before them is above them.
  ghost predicate SortedFrom(es: seq<Elem>, compare: (Elem, Elem) -> int, m: nat) {
    forall j, k :: 0 <= j < k < |es| && m <= k ==> compare(es[j], es[k]) <= 0
  }

  // An order on the first m elements does not matter to those behind them.
  lemma ShuffledSorted(es: seq<Elem>, es': seq<Elem>, compare: (Elem, Elem) -> int, m: nat)
    requires Shuffled(es, es', m) && SortedFrom(es, compare, m)
    ensures SortedFrom(es', compare, m)
  {
    forall j, k | 0 <= j < k < |es'| && m <= k ensures compare(es'[j], es'[k]) <= 0 {
      assert es'[k] == es'[m..][k - m] == es[m..][k - m];
      if j < m {
        assert es'[j] == es'[..m][j] && es'[j] in multiset(es'[..m]);
        var i :| 0 <= i < m && es[..m][i] == es'[j];
      } else {
        assert es'[j] == es'[m..][j - m] == es[m..][j - m];
      }
    }
  }

  // The biggest of the first m goes behind them.
  lemma TopToEnd(es: seq<Elem>, compare: (Elem, Elem) -> int, m: nat)
    requires Order(compare) && 2 <= m <= |es| && Heap(es, compare, 1, m) && SortedFrom(es, compare, m)
    ensures var es' := Swapped(es, 0, m - 1);
            SortedFrom(es', compare, m - 1) && Heap(es', compare, 2, m - 1)
  {
    var es' := Swapped(es, 0, m - 1);
    forall j, k | 0 <= j < k < |es'| && m - 1 <= k ensures compare(es'[j], es'[k]) <= 0 {
      if k == m - 1 {
        HeapTop(es, compare, m, if j == 0 then m else j + 1);
      }
    }
    forall k | 2 <= k <= m - 1 && 2 <= k / 2 ensures Above(es', compare, k / 2, k) { assert Above(es, compare, k / 2, k); }
  }

  lemma ShuffledTrans(a: seq<Elem>, b: seq<Elem>, c: seq<Elem>, n: nat)
    requires Shuffled(a, b, n) && Shuffled(b, c, n)
    ensures Shuffled(a, c, n)
  {
  }

  // Elements in the second half have no children; behind the last one there is nothing to order.
  lemma SortStart(es: seq<Elem>, compare: (Elem, Elem) -> int)
    ensures Heap(es, compare, |es| / 2 + 1, |es|) && SortedFrom(es, compare, |es|) && Shuffled(es, es, |es|)
  {
  }

  lemma SortEnd(was: seq<Elem>, es: seq<Elem>, compare: (Elem, Elem) -> int, m: nat)
    requires m <= 1 && SortedFrom(es, compare, m) && Shuffled(was, es, |was|)
    ensures Sorted(es, compare) && multiset(es) == multiset(was)
  {
    assert was[..|was|] == was && es[..|was|] == es;
  }

  method BuildHeap(a: array<Byte>, cnt: nat, size: nat, compare: (Elem, Elem) -> int)
    requires Holds(a, cnt, size) && Order(compare)
    modifies a
    ensures Heap(View(a, cnt, size), compare, 1, cnt) && Shuffled(old(View(a, cnt, size)), View(a, cnt, size), cnt)
    ensures forall x :: cnt * size <= x < a.Length ==> a[x] == old(a[x])
  {
    hide *;
    ghost var was := View(a, cnt, size);
    var i := cnt / 2;
    SortStart(was, compare);
    while i > 0
      invariant 0 <= i && Heap(View(a, cnt, size), compare, i + 1, cnt)
      invariant Shuffled(was, View(a, cnt, size), cnt)
      invariant forall x :: cnt * size <= x < a.Length ==> a[x] == old(a[x])
    {
      ghost var es := View(a, cnt, size);
      Heapify(a, i, cnt, cnt, size, compare);
      ShuffledTrans(was, es, View(a, cnt, size), cnt);
      i := i - 1;
    }
  }

  /** Afterwards the elements are the same ones, in order, and nothing behind them has changed. */
  method Sort(a: array<Byte>, cnt: nat, size: nat, compare: (Elem, Elem) -> int)
    requires Holds(a, cnt, size) && Order(compare)
    modifies a
    ensures Sorted(View(a, cnt, size), compare)
    ensures multiset(View(a, cnt, size)) == multiset(old(View(a, cnt, size)))
    ensures forall x :: cnt * size <= x < a.Length ==> a[x] == old(a[x])
  {
    hide *;
    ghost var was := View(a, cnt, size);
    BuildHeap(a, cnt, size, compare);
    var i := cnt;
    SortStart(View(a, cnt, size), compare);
    while i > 1
      invariant 0 <= i <= cnt && Heap(View(a, cnt, size), compare, 1, i) && SortedFrom(View(a, cnt, size), compare, i)
      invariant Shuffled(was, View(a, cnt, size), cnt)
      invariant forall x :: cnt * size <= x < a.Length ==> a[x] == old(a[x])
    {
      TakeTop(a, i, cnt, size, compare, was);
      i := i - 1;
    }
    SortEnd(was, View(a, cnt, size), compare, i);
  }

  // the second loop of `sort`, one turn
  method TakeTop(a: array<Byte>, i: nat, ghost cnt: nat, size: nat, compare: (Elem, Elem) -> int, ghost was: seq<Elem>)
    requires Holds(a, cnt, size) && Order(compare) && 2 <= i <= cnt
    requires Heap(View(a, cnt, size), compare, 1, i) && SortedFrom(View(a, cnt, size), compare, i)
    requires Shuffled(was, View(a, cnt, size), cnt)
    modifies a
    ensures Heap(View(a, cnt, size), compare, 1, i - 1) && SortedFrom(View(a, cnt, size), compare, i - 1)
    ensures Shuffled(was, View(a, cnt, size), cnt)
    ensures forall x :: cnt * size <= x < a.Length ==> a[x] == old(a[x])
  {
    ghost var es := View(a, cnt, size);
    TopToEnd(es, compare, i);
    SwapShuffles(es, 0, i - 1, cnt);
    Swap(a, 1, i, cnt, size);
    ghost var es1 := View(a, cnt, size);
    Heapify(a, 1, i - 1, cnt, size, compare);
    ghost var es2 := View(a, cnt, size);
    ShuffledSorted(es1, es2, compare, i - 1);
    ShuffledMore(es1, es2, i - 1, cnt);
    ShuffledTrans(was, es, es1, cnt);
    ShuffledTrans(was, es1, es2, cnt);
  }

  // ---- searching ----

  /** first, last and middle are byte positions. A position is returned exactly when some element
      matches, and then the element there does. */
  method BinarySearch(key: Elem, s: seq<Byte>, cnt: nat, size: nat, compare: (Elem, Elem) -> int) returns (r: Option<nat>)
    requires size > 0 && cnt * size <= |s| && Order(compare) && Sorted(Elems(s, cnt, size), compare)
    ensures r.Some? ==> exists k :: 0 <= k < cnt && r.value == k * size && compare(key, Elems(s, cnt, size)[k]) == 0
    ensures r.None? ==> forall k :: 0 <= k < cnt ==> compare(key, Elems(s, cnt, size)[k]) != 0
  {
    ghost var es := Elems(s, cnt, size);
    ghost var f, l := 0, cnt;
    var first, last := 0, size * cnt;
    while first < last
      invariant 0 <= f <= l <= cnt && first == f * size && last == l * size
      invariant forall k :: 0 <= k < f ==> compare(key, es[k]) > 0
      invariant forall k :: l <= k < cnt ==> compare(key, es[k]) < 0
      decreases l - f
    {
      Ranges(f, l, size);
      var range := (last - first) / size;
      var middle := first + (range / 2) * size;
      ghost var m := f + range / 2;
      assert middle == m * size by { Distribute(f, range / 2, size); }
      MulBound(m, cnt, size);
      var c := compare(key, s[middle..middle + size]);
      assert s[middle..middle + size] == es[m];
      if c < 0 {
        last, l := middle, m;
        Below(key, es, compare, m);
      } else if c > 0 {
        first, f := middle + size, m + 1;
        Distribute(m, 1, size);
        Beyond(key, es, compare, m);
      } else {
        return Some(middle);
      }
    }
    Ranges(f, l, size);
    return None;
  }

  lemma Distribute(a: nat, b: nat, size: nat)
    ensures a * size + b * size == (a + b) * size
  {
  }

  lemma Ranges(f: nat, l: nat, size: nat)
    requires size > 0 && f <= l
    ensures (l * size - f * size) / size == l - f && (f * size < l * size <==> f < l)
  {
    assert l * size - f * size == (l - f) * size;
    DivExact(l - f, size);
    if f < l { MulBound(f, l, size); }
  }

  lemma DivExact(n: nat, size: nat)
    requires size > 0
    ensures n * size / size == n
  {
    var q := n * size / size;
    assert n * size == q * size + (n * size) % size;
    if q < n { MulBound(q, n, size); } else if q > n { MulBound(n, q, size); }
  }

  lemma Below(key: Elem, es: seq<Elem>, compare: (Elem, Elem) -> int, m: nat)
    requires Order(compare) && Sorted(es, compare) && m < |es| && compare(key, es[m]) < 0
    ensures forall k :: m <= k < |es| ==> compare(key, es[k]) < 0
  {
    forall k | m <= k < |es| ensures compare(key, es[k]) < 0 {
      assert k > m ==> compare(es[m], es[k]) <= 0;
      assert compare(es[m], key) > 0;
    }
  }

  lemma Beyond(key: Elem, es: seq<Elem>, compare: (Elem, Elem) -> int, m: nat)
    requires Order(compare) && Sorted(es, compare) && m < |es| && compare(key, es[m]) > 0
    ensures forall k :: 0 <= k <= m ==> compare(key, es[k]) > 0
  {
    forall k | 0 <= k <= m ensures compare(key, es[k]) > 0 {
      assert k < m ==> compare(es[k], es[m]) <= 0;
    }
  }
}
