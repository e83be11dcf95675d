/** The natural merge sort of `list_sort` on sequences: what one pass does, why passes end, and
    that the result is sorted, a permutation and stable. */
module MergeSort {
  import opened Queues

  /** A strict weak order on the elements of dom. */
  ghost predicate StrictWeak<T>(less: (T, T) -> bool, dom: set<T>) {
    && (forall a, b :: a in dom && b in dom && less(a, b) ==> !less(b, a))
    && (forall a, b, c :: a in dom && b in dom && c in dom && !less(a, b) && !less(b, c) ==> !less(a, c))
  }

  ghost predicate Within<T>(s: seq<T>, dom: set<T>) { forall i :: 0 <= i < |s| ==> s[i] in dom }

  ghost predicate Sorted<T>(s: seq<T>, less: (T, T) -> bool) {
    forall i, j :: 0 <= i < j < |s| ==> !less(s[j], s[i])
  }

  // No element is less than the one before it.
  ghost predicate IsRun<T>(s: seq<T>, less: (T, T) -> bool) {
    forall i :: 0 < i < |s| ==> !less(s[i], s[i - 1])
  }

  lemma {:induction false} RunSorted<T>(s: seq<T>, less: (T, T) -> bool, dom: set<T>)
    requires StrictWeak(less, dom) && Within(s, dom) && IsRun(s, less)
    ensures Sorted(s, less)
  {
    if |s| > 1 {
      var r := s[..|s| - 1];
      RunSorted(r, less, dom);
      var n := |s| - 1;
      forall i | 0 <= i < n ensures !less(s[n], s[i]) {
        assert s[n] in dom && s[n - 1] in dom && s[i] in dom && !less(s[n], s[n - 1]);
        if i < n - 1 { assert !less(r[n - 1], r[i]); }
      }
      forall i, j | 0 <= i < j < |s| ensures !less(s[j], s[i]) {
        if j < n { assert !less(r[j], r[i]); }
      }
    }
  }

  // ---- runs ----

  /** The exclusive end of the maximal run that starts at place i: `find_end_of_run`. */
  function RunEnd<T>(s: seq<T>, i: nat, less: (T, T) -> bool): (k: nat)
    requires i < |s|
    ensures i < k <= |s|
    ensures forall j :: i < j < k ==> !less(s[j], s[j - 1])
    ensures k < |s| ==> less(s[k], s[k - 1])
    decreases |s| - i
  {
    if i + 1 == |s| || less(s[i + 1], s[i]) then i + 1 else RunEnd(s, i + 1, less)
  }

  lemma RunEndUnique<T>(s: seq<T>, i: nat, less: (T, T) -> bool, k: nat)
    requires i < k <= |s| && (forall j :: i < j < k ==> !less(s[j], s[j - 1])) && (k < |s| ==> less(s[k], s[k - 1]))
    ensures RunEnd(s, i, less) == k
  {
  }

  // The number of maximal runs.
  function Runs<T>(s: seq<T>, less: (T, T) -> bool): nat {
    if s == [] then 0 else 1 + Runs(s[RunEnd(s, 0, less)..], less)
  }

  lemma {:induction false} SingleRun<T>(s: seq<T>, less: (T, T) -> bool)
    requires s != []
    ensures Runs(s, less) == 1 <==> IsRun(s, less)
    ensures Runs(s, less) == 1 <==> RunEnd(s, 0, less) == |s|
  {
    var k := RunEnd(s, 0, less);
    if IsRun(s, less) { RunEndUnique(s, 0, less, |s|); }
    if k < |s| { assert s[k..] != []; }
  }

  // The run in front ends where b begins.
  lemma {:induction false} RunStops<T>(a: seq<T>, b: seq<T>, less: (T, T) -> bool)
    requires a != [] && IsRun(a, less) && b != [] && less(b[0], a[|a| - 1])
    ensures RunEnd(a + b, 0, less) == |a| && (a + b)[|a|..] == b
  {
    var s := a + b;
    forall j | 0 < j < |a| ensures !less(s[j], s[j - 1]) { assert s[j] == a[j] && s[j - 1] == a[j - 1]; }
    RunEndUnique(s, 0, less, |a|);
  }

  // The run in front goes on through the first run of b.
  lemma {:induction false} RunGoesOn<T>(a: seq<T>, b: seq<T>, less: (T, T) -> bool)
    requires a != [] && IsRun(a, less) && b != [] && !less(b[0], a[|a| - 1])
    ensures var k := RunEnd(b, 0, less); RunEnd(a + b, 0, less) == |a| + k && (a + b)[|a| + k..] == b[k..]
  {
    var s, k := a + b, RunEnd(b, 0, less);
    forall j | 0 < j < |a| + k ensures !less(s[j], s[j - 1]) {
      if j < |a| {
        assert s[j] == a[j] && s[j - 1] == a[j - 1];
      } else if j == |a| {
        assert s[j] == b[0] && s[j - 1] == a[|a| - 1];
      } else {
        assert s[j] == b[j - |a|] && s[j - 1] == b[j - |a| - 1];
      }
    }
    if k < |b| { assert s[|a| + k] == b[k] && s[|a| + k - 1] == b[k - 1]; }
    RunEndUnique(s, 0, less, |a| + k);
  }

  /** A run in front adds at most one to the number of runs. */
  lemma {:induction false} RunInFront<T>(a: seq<T>, b: seq<T>, less: (T, T) -> bool)
    requires a != [] && IsRun(a, less)
    ensures Runs(a + b, less) <= 1 + Runs(b, less)
  {
    if b == [] {
      assert a + b == a;
      SingleRun(a, less);
    } else if less(b[0], a[|a| - 1]) {
      RunStops(a, b, less);
    } else {
      RunGoesOn(a, b, less);
    }
  }

  // ---- merging ----

  /** `inplace_merge`: the front of b goes first only when it is less than the front of a. */
  function Merge<T>(a: seq<T>, b: seq<T>, less: (T, T) -> bool): (r: seq<T>)
    ensures |r| == |a| + |b|
    decreases |a| + |b|
  {
    if a == [] then b
    else if b == [] then a
    else if !less(b[0], a[0]) then [a[0]] + Merge(a[1..], b, less)
    else [b[0]] + Merge(a, b[1..], less)
  }

  lemma {:induction false} ConsMembers<T>(x: T, s: seq<T>)
    ensures multiset([x] + s) == multiset{x} + multiset(s)
  {
  }

  lemma {:induction false} MergeMembers<T>(a: seq<T>, b: seq<T>, less: (T, T) -> bool)
    ensures multiset(Merge(a, b, less)) == multiset(a) + multiset(b)
    decreases |a| + |b|
  {
    if a != [] && b != [] {
      assert a == [a[0]] + a[1..] && b == [b[0]] + b[1..];
      if !less(b[0], a[0]) {
        assert Merge(a, b, less) == [a[0]] + Merge(a[1..], b, less);
        hide Merge;
        MergeMembers(a[1..], b, less);
        ConsMembers(a[0], Merge(a[1..], b, less));
        ConsMembers(a[0], a[1..]);
      } else {
        assert Merge(a, b, less) == [b[0]] + Merge(a, b[1..], less);
        hide Merge;
        MergeMembers(a, b[1..], less);
        ConsMembers(b[0], Merge(a, b[1..], less));
        ConsMembers(b[0], b[1..]);
      }
    }
  }

  lemma {:induction false} MergeWithin<T>(a: seq<T>, b: seq<T>, less: (T, T) -> bool, dom: set<T>)
    requires Within(a, dom) && Within(b, dom)
    ensures Within(Merge(a, b, less), dom)
  {
    var r := Merge(a, b, less);
    MergeMembers(a, b, less);
    forall i | 0 <= i < |r| ensures r[i] in dom {
      assert r[i] in multiset(r);
      assert r[i] in multiset(a) || r[i] in multiset(b);
    }
  }

  // Everything in s is at or above x.
  ghost predicate Above<T>(x: T, s: seq<T>, less: (T, T) -> bool) {
    forall i :: 0 <= i < |s| ==> !less(s[i], x)
  }

  lemma {:induction false} MergeAbove<T>(x: T, a: seq<T>, b: seq<T>, less: (T, T) -> bool)
    requires Above(x, a, less) && Above(x, b, less)
    ensures Above(x, Merge(a, b, less), less)
  {
    var r := Merge(a, b, less);
    MergeMembers(a, b, less);
    forall i | 0 <= i < |r| ensures !less(r[i], x) {
      assert r[i] in multiset(r);
      assert r[i] in multiset(a) || r[i] in multiset(b);
    }
  }

  lemma {:induction false} ConsSorted<T>(x: T, s: seq<T>, less: (T, T) -> bool)
    requires Above(x, s, less) && Sorted(s, less)
    ensures Sorted([x] + s, less)
  {
    var r := [x] + s;
    forall i, j | 0 <= i < j < |r| ensures !less(r[j], r[i]) {
      assert r[j] == s[j - 1];
      if i > 0 { assert r[i] == s[i - 1]; }
    }
  }

  lemma {:induction false} MergeSorted<T>(a: seq<T>, b: seq<T>, less: (T, T) -> bool, dom: set<T>)
    requires StrictWeak(less, dom) && Within(a, dom) && Within(b, dom) && Sorted(a, less) && Sorted(b, less)
    ensures Sorted(Merge(a, b, less), less)
    decreases |a| + |b|
  {
    if a != [] && b != [] {
      assert a[0] in dom && b[0] in dom;
      if !less(b[0], a[0]) {
        MergeSorted(a[1..], b, less, dom);
        FrontBelow(a[0], b, less, dom);
        MergeAbove(a[0], a[1..], b, less);
        ConsSorted(a[0], Merge(a[1..], b, less), less);
      } else {
        MergeSorted(a, b[1..], less, dom);
        FrontBelow(b[0], a, less, dom);
        MergeAbove(b[0], a, b[1..], less);
        ConsSorted(b[0], Merge(a, b[1..], less), less);
      }
    }
  }

  lemma {:induction false} FrontBelow<T>(x: T, s: seq<T>, less: (T, T) -> bool, dom: set<T>)
    requires StrictWeak(less, dom) && x in dom && Within(s, dom) && Sorted(s, less) && s != [] && !less(s[0], x)
    ensures Above(x, s, less)
  {
    forall i | 0 <= i < |s| ensures !less(s[i], x) {
      if i > 0 { assert !less(s[i], s[0]); }
    }
  }

  // ---- stability ----

  // The elements equivalent to x, in order.
  function Class<T>(s: seq<T>, x: T, less: (T, T) -> bool): seq<T> {
    if s == [] then []
    else (if Equiv(x, s[0], less) then [s[0]] else []) + Class(s[1..], x, less)
  }

  lemma {:induction false} ClassConcat<T>(a: seq<T>, b: seq<T>, x: T, less: (T, T) -> bool)
    ensures Class(a + b, x, less) == Class(a, x, less) + Class(b, x, less)
  {
    if a == [] {
      assert a + b == b;
    } else {
      ClassConcat(a[1..], b, x, less);
      assert (a + b)[1..] == a[1..] + b && (a + b)[0] == a[0];
      var c := if Equiv(x, a[0], less) then [a[0]] else [];
      assert c + (Class(a[1..], x, less) + Class(b, x, less)) == (c + Class(a[1..], x, less)) + Class(b, x, less);
    }
  }

  lemma {:induction false} ClassEmpty<T>(s: seq<T>, x: T, less: (T, T) -> bool)
    requires forall i :: 0 <= i < |s| ==> !Equiv(x, s[i], less)
    ensures Class(s, x, less) == []
  {
    if s != [] {
      forall i | 0 <= i < |s[1..]| ensures !Equiv(x, s[1..][i], less) { assert s[1..][i] == s[i + 1]; }
      ClassEmpty(s[1..], x, less);
    }
  }

  // Whatever is equivalent to something less than a sorted list is not in that list.
  lemma {:induction false} ClassBelow<T>(y: T, a: seq<T>, x: T, less: (T, T) -> bool, dom: set<T>)
    requires StrictWeak(less, dom) && Within(a, dom) && x in dom && y in dom && Sorted(a, less)
    requires a != [] && less(y, a[0]) && Equiv(x, y, less)
    ensures Class(a, x, less) == []
  {
    forall i | 0 <= i < |a| ensures !Equiv(x, a[i], less) {
      assert a[i] in dom && a[0] in dom;
      assert !less(a[i], a[0]);
      assert less(y, a[i]);
      assert less(x, a[i]);
    }
    ClassEmpty(a, x, less);
  }

  function One<T>(y: T, x: T, less: (T, T) -> bool): seq<T> { if Equiv(x, y, less) then [y] else [] }

  lemma {:induction false} ClassCons<T>(y: T, s: seq<T>, x: T, less: (T, T) -> bool)
    ensures Class([y] + s, x, less) == One(y, x, less) + Class(s, x, less)
  {
    assert ([y] + s)[1..] == s;
  }

  lemma {:induction false} ClassFront<T>(s: seq<T>, x: T, less: (T, T) -> bool)
    requires s != []
    ensures Class(s, x, less) == One(s[0], x, less) + Class(s[1..], x, less)
  {
  }

  /** Merging keeps equivalent elements in order, those of a before those of b. */
  lemma {:induction false} MergeStable<T>(a: seq<T>, b: seq<T>, x: T, less: (T, T) -> bool, dom: set<T>)
    requires StrictWeak(less, dom) && Within(a, dom) && Within(b, dom) && x in dom && Sorted(a, less)
    ensures Class(Merge(a, b, less), x, less) == Class(a, x, less) + Class(b, x, less)
    decreases |a| + |b|
  {
    if a != [] && b != [] {
      if !less(b[0], a[0]) {
        MergeStable(a[1..], b, x, less, dom);
        ClassCons(a[0], Merge(a[1..], b, less), x, less);
        ClassFront(a, x, less);
        ConcatAssoc(One(a[0], x, less), Class(a[1..], x, less), Class(b, x, less));
      } else {
        MergeStable(a, b[1..], x, less, dom);
        ClassCons(b[0], Merge(a, b[1..], less), x, less);
        ClassFront(b, x, less);
        if Equiv(x, b[0], less) { ClassBelow(b[0], a, x, less, dom); }
        ConcatAssoc(One(b[0], x, less), Class(a, x, less), Class(b[1..], x, less));
      }
    }
  }

  // ---- a pass ----

  /** One pass: each two neighbouring runs are merged. */
  function Pass<T>(s: seq<T>, less: (T, T) -> bool): (r: seq<T>)
    ensures |r| == |s|
  {
    if s == [] then []
    else
      var k1 := RunEnd(s, 0, less);
      if k1 == |s| then s
      else
        var t := s[k1..];
        var k2 := RunEnd(t, 0, less);
        Merge(s[..k1], t[..k2], less) + Pass(t[k2..], less)
  }

  // The pass's `output_run_cnt`.
  function PassRuns<T>(s: seq<T>, less: (T, T) -> bool): nat {
    if s == [] then 0
    else
      var k1 := RunEnd(s, 0, less);
      if k1 == |s| then 1
      else
        var t := s[k1..];
        1 + PassRuns(t[RunEnd(t, 0, less)..], less)
  }

  /** A pass outputs half as many runs as it found, rounded up. */
  lemma {:induction false} PassHalves<T>(s: seq<T>, less: (T, T) -> bool)
    ensures PassRuns(s, less) == (Runs(s, less) + 1) / 2
  {
    if s != [] {
      var k1 := RunEnd(s, 0, less);
      var t := s[k1..];
      RunsUnfold(s, k1, less);
      if k1 < |s| {
        var k2 := RunEnd(t, 0, less);
        RunsUnfold(t, k2, less);
        PassHalves(t[k2..], less);
      }
    }
  }

  lemma {:induction false} RunsUnfold<T>(s: seq<T>, k: nat, less: (T, T) -> bool)
    requires s != [] && k == RunEnd(s, 0, less)
    ensures Runs(s, less) == 1 + Runs(s[k..], less)
  {
  }

  // A maximal run is sorted.
  lemma {:induction false} FirstRun<T>(s: seq<T>, less: (T, T) -> bool, dom: set<T>)
    requires StrictWeak(less, dom) && Within(s, dom) && s != []
    ensures var k := RunEnd(s, 0, less); Within(s[..k], dom) && Sorted(s[..k], less) && Within(s[k..], dom)
  {
    var k := RunEnd(s, 0, less);
    var b := s[..k];
    forall j | 0 < j < |b| ensures !less(b[j], b[j - 1]) { assert b[j] == s[j] && b[j - 1] == s[j - 1]; }
    RunSorted(b, less, dom);
  }

  /** Its output has no more runs than it counted. */
  lemma {:induction false} PassFewerRuns<T>(s: seq<T>, less: (T, T) -> bool, dom: set<T>)
    requires StrictWeak(less, dom) && Within(s, dom)
    ensures Within(Pass(s, less), dom) && Runs(Pass(s, less), less) <= PassRuns(s, less)
  {
    if s != [] {
      FirstRun(s, less, dom);
      var k1 := RunEnd(s, 0, less);
      var t := s[k1..];
      if k1 == |s| {
        SingleRun(s, less);
      } else {
        FirstRun(t, less, dom);
        var k2 := RunEnd(t, 0, less);
        PassFewerRuns(t[k2..], less, dom);
        MergeWithin(s[..k1], t[..k2], less, dom);
        MergeSorted(s[..k1], t[..k2], less, dom);
        RunInFront(Merge(s[..k1], t[..k2], less), Pass(t[k2..], less), less);
      }
    }
  }

  lemma {:induction false} Parts<T>(s: seq<T>, k: nat)
    requires k <= |s|
    ensures s == s[..k] + s[k..] && multiset(s) == multiset(s[..k]) + multiset(s[k..])
  {
    assert s == s[..k] + s[k..];
  }

  lemma {:induction false} PassMembers<T>(s: seq<T>, less: (T, T) -> bool)
    ensures multiset(Pass(s, less)) == multiset(s)
  {
    if s != [] {
      var k1 := RunEnd(s, 0, less);
      if k1 < |s| {
        var t := s[k1..];
        var k2 := RunEnd(t, 0, less);
        MergeMembers(s[..k1], t[..k2], less);
        PassMembers(t[k2..], less);
        Parts(s, k1);
        Parts(t, k2);
      }
    }
  }

  lemma {:induction false} ClassParts<T>(s: seq<T>, k: nat, x: T, less: (T, T) -> bool)
    requires k <= |s|
    ensures Class(s, x, less) == Class(s[..k], x, less) + Class(s[k..], x, less)
  {
    Parts(s, k);
    ClassConcat(s[..k], s[k..], x, less);
  }

  lemma {:induction false} ConcatAssoc<T>(a: seq<T>, b: seq<T>, c: seq<T>)
    ensures (a + b) + c == a + (b + c)
  {
  }

  lemma {:induction false} ClassJoin<T>(a: seq<T>, b: seq<T>, c: seq<T>, m: seq<T>, p: seq<T>, x: T, less: (T, T) -> bool)
    requires Class(m, x, less) == Class(a, x, less) + Class(b, x, less) && Class(p, x, less) == Class(c, x, less)
    ensures Class(m + p, x, less) == Class(a, x, less) + (Class(b, x, less) + Class(c, x, less))
  {
    ClassConcat(m, p, x, less);
    ConcatAssoc(Class(a, x, less), Class(b, x, less), Class(c, x, less));
  }

  lemma {:induction false} PassStable<T>(s: seq<T>, x: T, less: (T, T) -> bool, dom: set<T>)
    requires StrictWeak(less, dom) && Within(s, dom) && x in dom
    ensures Class(Pass(s, less), x, less) == Class(s, x, less)
  {
    if s != [] {
      FirstRun(s, less, dom);
      var k1 := RunEnd(s, 0, less);
      if k1 < |s| {
        var t := s[k1..];
        FirstRun(t, less, dom);
        var k2 := RunEnd(t, 0, less);
        var m := Merge(s[..k1], t[..k2], less);
        MergeStable(s[..k1], t[..k2], x, less, dom);
        PassStable(t[k2..], x, less, dom);
        ClassParts(s, k1, x, less);
        ClassParts(t, k2, x, less);
        ClassJoin(s[..k1], t[..k2], t[k2..], m, Pass(t[k2..], less), x, less);
      }
    }
  }

  // ---- the sort ----

  /** Passes until one outputs a single run. */
  ghost function Sort<T>(s: seq<T>, less: (T, T) -> bool, dom: set<T>): (r: seq<T>)
    requires StrictWeak(less, dom) && Within(s, dom)
    decreases Runs(s, less)
  {
    PassFewerRuns(s, less, dom);
    PassHalves(s, less);
    if PassRuns(s, less) <= 1 then Pass(s, less) else Sort(Pass(s, less), less, dom)
  }

  /** The result is sorted, has the same elements, and keeps equivalent ones in order. */
  lemma {:induction false} SortCorrect<T>(s: seq<T>, less: (T, T) -> bool, dom: set<T>)
    requires StrictWeak(less, dom) && Within(s, dom)
    ensures var r := Sort(s, less, dom);
            && Sorted(r, less) && multiset(r) == multiset(s)
            && forall x :: x in dom ==> Class(r, x, less) == Class(s, x, less)
    decreases Runs(s, less)
  {
    var p := Pass(s, less);
    PassFewerRuns(s, less, dom);
    PassHalves(s, less);
    PassMembers(s, less);
    forall x | x in dom ensures Class(p, x, less) == Class(s, x, less) { PassStable(s, x, less, dom); }
    if PassRuns(s, less) <= 1 {
      if p != [] {
        SingleRun(p, less);
        RunSorted(p, less, dom);
      }
    } else {
      SortCorrect(p, less, dom);
    }
  }
}
