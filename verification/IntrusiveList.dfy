/** The doubly linked lists of `list.c`, at the level of their prev and next pointers. The
    ghost sequences name the nodes of a list in order, both headers included. */
module IntrusiveList {
  import opened Queues
  import opened MergeSort

  class Elem {
    var prev: Elem?
    var next: Elem?

    constructor ()
      ensures prev == null && next == null
    {
      prev, next := null, null;
    }
  }

  ghost predicate Injective(q: seq<Elem>) { forall i, j :: 0 <= i < j < |q| ==> q[i] != q[j] }

  /** q is a whole list, headers at both ends: next and prev are inverse to each other. */
  ghost predicate Linked(q: seq<Elem>)
    reads q
  {
    && |q| >= 2 && Injective(q)
    && q[0].prev == null && q[|q| - 1].next == null
    && (forall i :: 0 <= i < |q| - 1 ==> q[i].next == q[i + 1])
    && (forall i :: 0 < i < |q| ==> q[i].prev == q[i - 1])
  }

  // ---- moving a range within a list ----

  // q with the nodes from place i up to j moved in front of place k.
  ghost function Moved(q: seq<Elem>, k: nat, i: nat, j: nat): (r: seq<Elem>)
    requires k <= i <= j <= |q|
  {
    q[..k] + q[i..j] + q[k..i] + q[j..]
  }

  // Where the node at place t of the moved list comes from.
  ghost function From(k: nat, i: nat, j: nat, t: nat): nat
    requires k <= i <= j
  {
    if t < k then t else if t < k + (j - i) then t - k + i else if t < j then t - (j - i) else t
  }

  lemma {:induction false} MovedAt(q: seq<Elem>, k: nat, i: nat, j: nat)
    requires k <= i <= j <= |q|
    ensures |Moved(q, k, i, j)| == |q|
    ensures forall t :: 0 <= t < |q| ==> 0 <= From(k, i, j, t) < |q| && Moved(q, k, i, j)[t] == q[From(k, i, j, t)]
  {
  }

  lemma {:induction false} MovedInjective(q: seq<Elem>, k: nat, i: nat, j: nat)
    requires k <= i <= j <= |q| && Injective(q)
    ensures Injective(Moved(q, k, i, j))
  {
    var r := Moved(q, k, i, j);
    MovedAt(q, k, i, j);
    forall a, b | 0 <= a < b < |r| ensures r[a] != r[b] {
      var x, y := From(k, i, j, a), From(k, i, j, b);
      assert x != y;
    }
  }

  // The places the links of place t lead to once the range from i up to j hangs in front of k.
  ghost function Succ(k: int, i: int, j: int, t: int): int {
    if t == i - 1 then j else if t == j - 1 then k else if t == k - 1 then i else t + 1
  }

  ghost function Pred(k: int, i: int, j: int, t: int): int {
    if t == j then i - 1 else if t == i then k - 1 else if t == k then j - 1 else t - 1
  }

  ghost predicate Respliced(q: seq<Elem>, k: nat, i: nat, j: nat)
    requires 0 < k < i < j < |q|
    reads q
  {
    && q[0].prev == null && q[|q| - 1].next == null
    && (forall t :: 0 <= t < |q| - 1 ==> q[t].next == q[Succ(k, i, j, t)])
    && (forall t :: 0 < t < |q| ==> q[t].prev == q[Pred(k, i, j, t)])
  }

  lemma {:induction false} ResplicedLinked(q: seq<Elem>, k: nat, i: nat, j: nat)
    requires 0 < k < i < j < |q| && Injective(q) && Respliced(q, k, i, j)
    ensures Linked(Moved(q, k, i, j))
  {
    var r := Moved(q, k, i, j);
    MovedAt(q, k, i, j);
    MovedInjective(q, k, i, j);
    forall t: nat | 0 <= t < |r| - 1 ensures r[t].next == r[t + 1] && r[t + 1].prev == r[t] {
      var a, b := From(k, i, j, t), From(k, i, j, t + 1);
      assert r[t] == q[a] && r[t + 1] == q[b];
      assert q[a].next == q[b] && q[b].prev == q[a];
    }
    forall t | 0 < t < |r| ensures r[t].prev == r[t - 1] {
      var u := t - 1;
      assert r[u + 1].prev == r[u];
    }
  }

  /** `list_splice` within one list: the nodes from first up to last move in front of before. */
  method ListSplice(before: Elem, first: Elem, last: Elem, ghost q: seq<Elem>, ghost k: nat, ghost i: nat, ghost j: nat)
    requires Linked(q) && 0 < k < i <= j < |q| && q[k] == before && q[i] == first && q[j] == last
    modifies q
    ensures Linked(Moved(q, k, i, j))
  {
    if first == last {
      assert Moved(q, k, i, j) == q;
    } else {
      Relink(before, first, last, q, k, i, j);
      ResplicedLinked(q, k, i, j);
    }
  }

  method Relink(before: Elem, first: Elem, last: Elem, ghost q: seq<Elem>, ghost k: nat, ghost i: nat, ghost j: nat)
    requires Linked(q) && 0 < k < i < j < |q| && q[k] == before && q[i] == first && q[j] == last
    modifies q
    ensures Respliced(q, k, i, j)
  {
    assert q[i].prev == q[i - 1] && q[j].prev == q[j - 1] && q[j - 1].next == q[j] && q[k].prev == q[k - 1];
    var l := last.prev;
    first.prev.next := l.next;
    l.next.prev := first.prev;
    first.prev := before.prev;
    l.next := before;
    before.prev.next := first;
    before.prev := l;
    assert q[i - 1].next == q[j] && q[j - 1].next == q[k] && q[k - 1].next == q[i];
    assert q[j].prev == q[i - 1] && q[i].prev == q[k - 1] && q[k].prev == q[j - 1];
    forall t | 0 <= t < |q| - 1 ensures q[t].next == q[Succ(k, i, j, t)] {
      if t != i - 1 && t != j - 1 && t != k - 1 { assert q[t].next == old(q[t].next); }
    }
    forall t | 0 < t < |q| ensures q[t].prev == q[Pred(k, i, j, t)] {
      if t != i && t != j && t != k { assert q[t].prev == old(q[t].prev); }
    }
  }

  // ---- single nodes ----

  /** `list_insert`: elem goes in front of before. */
  method ListInsert(before: Elem, elem: Elem, ghost q: seq<Elem>, ghost k: nat)
    requires Linked(q) && 0 < k < |q| && q[k] == before && elem !in q
    modifies elem, q
    ensures Linked(q[..k] + [elem] + q[k..])
  {
    assert q[k].prev == q[k - 1];
    elem.prev := before.prev;
    elem.next := before;
    before.prev.next := elem;
    before.prev := elem;
    ghost var r := q[..k] + [elem] + q[k..];
    assert forall t :: 0 <= t < |r| ==> r[t] == if t < k then q[t] else if t == k then elem else q[t - 1];
  }

  // Following next from the head of p, a list goes through the nodes of p up to place a.
  lemma {:induction false} SameFront(p: seq<Elem>, r: seq<Elem>, a: nat)
    requires Linked(r) && a < |p| && r[0] == p[0] && forall t :: 0 <= t < a ==> p[t].next == p[t + 1]
    ensures a < |r| && r[a] == p[a]
  {
    if a > 0 {
      SameFront(p, r, a - 1);
      var u := a - 1;
      assert p[u].next == p[u + 1] && (u < |r| - 1 ==> r[u].next == r[u + 1]);
    }
  }

  lemma NoListFrom(p: seq<Elem>, r: seq<Elem>, a: nat)
    requires Linked(r) && 0 < a < |p| && p[a].prev != p[a - 1] && forall t :: 0 <= t < a ==> p[t].next == p[t + 1]
    ensures r[0] != p[0]
  {
    if r[0] == p[0] {
      SameFront(p, r, a);
      SameFront(p, r, a - 1);
    }
  }

  /** `list_insert` of a node that is on another list p: it is on the new list, and from the head of p
      there is no list any more, since following p from there leads into the new one. */
  method InsertListed(before: Elem, elem: Elem, ghost q: seq<Elem>, ghost k: nat, ghost p: seq<Elem>, ghost a: nat)
    requires Linked(q) && 0 < k < |q| && q[k] == before && Linked(p) && 0 < a < |p| && p[a] == elem && forall e :: e in p ==> e !in q
    modifies elem, q
    ensures Linked(q[..k] + [elem] + q[k..]) && elem.next == before
    ensures forall r: seq<Elem> :: Linked(r) ==> r[0] != p[0]
  {
    assert elem in p && q[k - 1] in q;
    ListInsert(before, elem, q, k);
    ghost var q' := q[..k] + [elem] + q[k..];
    assert q'[k - 1] == q[k - 1] && q'[k] == elem && q'[k + 1] == before;
    assert elem.prev == q[k - 1];
    forall t | 0 <= t < a ensures p[t].next == p[t + 1] { assert p[t] in p && p[t] != elem; }
    assert p[a - 1] in p;
    forall r: seq<Elem> | Linked(r) ensures r[0] != p[0] { NoListFrom(p, r, a); }
  }

  /** `list_remove`: unlinks elem, whose own pointers stay, and returns its successor. */
  method ListRemove(elem: Elem, ghost q: seq<Elem>, ghost k: nat) returns (r: Elem)
    requires Linked(q) && 0 < k < |q| - 1 && q[k] == elem
    modifies q
    ensures Linked(q[..k] + q[k + 1..]) && r == q[k + 1]
    ensures elem.prev == old(elem.prev) && elem.next == old(elem.next)
  {
    assert q[k].prev == q[k - 1] && q[k].next == q[k + 1];
    elem.prev.next := elem.next;
    elem.next.prev := elem.prev;
    r := elem.next;
    ghost var s := q[..k] + q[k + 1..];
    assert forall t :: 0 <= t < |s| ==> s[t] == if t < k then q[t] else q[t + 1];
  }

  // ---- merging and sorting ----

  // The nodes of q from place i up to the tail header.
  ghost function Rest(q: seq<Elem>, i: nat): seq<Elem>
    requires i < |q|
  {
    q[i..|q| - 1]
  }

  /** `find_end_of_run` up to the end of the list. */
  method FindEndOfRun(a: Elem, b: Elem, less: (Elem, Elem) -> bool, ghost q: seq<Elem>, ghost i: nat)
    returns (r: Elem)
    requires Linked(q) && 0 < i < |q| - 1 && q[i] == a && b == q[|q| - 1]
    ensures r == q[i + RunEnd(Rest(q, i), 0, less)]
  {
    ghost var k := i;
    r := a;
    assert q[k].next == q[k + 1];
    r := r.next;
    k := k + 1;
    while r != b && !less(r, r.prev)
      invariant i < k < |q| && r == q[k] && r.prev == q[k - 1]
      invariant forall j :: i < j < k ==> !less(q[j], q[j - 1])
      decreases |q| - k
    {
      assert q[k].next == q[k + 1];
      r := r.next;
      k := k + 1;
    }
    ghost var s := Rest(q, i);
    forall j | 0 < j < k - i ensures !less(s[j], s[j - 1]) { assert s[j] == q[i + j] && s[j - 1] == q[i + j - 1]; }
    assert k - i < |s| ==> s[k - i] == q[k] && s[k - i - 1] == q[k - 1];
    RunEndUnique(s, 0, less, k - i);
  }

  // The parts of the list after the front of the second range moved in front of the first.
  lemma {:induction false} MovedSlices(r: seq<Elem>, i: nat, x: nat, y: nat, j: nat)
    requires i <= x < y < j <= |r|
    ensures var r' := Moved(r, x, y, y + 1);
            && |r'| == |r| && r'[..i] == r[..i] && r'[j..] == r[j..] && r'[i..x + 1] == r[i..x] + [r[y]]
            && r'[x + 1..y + 1] == r[x..y] && r'[y + 1..j] == r[y + 1..j]
  {
    var r' := Moved(r, x, y, y + 1);
    MovedAt(r, x, y, y + 1);
    assert |r'[..i]| == i && forall t :: 0 <= t < i ==> r'[..i][t] == r[..i][t];
    assert |r'[i..x + 1]| == |r[i..x] + [r[y]]|;
    assert forall t :: 0 <= t < x + 1 - i ==> r'[i..x + 1][t] == (r[i..x] + [r[y]])[t];
    assert forall t :: 0 <= t < y - x ==> r'[x + 1..y + 1][t] == r[x..y][t];
  }

  lemma {:induction false} TakeSecond(r: seq<Elem>, x: nat, y: nat, j: nat, less: (Elem, Elem) -> bool)
    requires x < y < j <= |r| && less(r[y], r[x])
    ensures Merge(r[x..y], r[y..j], less) == [r[y]] + Merge(r[x..y], r[y + 1..j], less)
  {
    assert r[y..j][0] == r[y] && r[x..y][0] == r[x];
    assert r[y..j][1..] == r[y + 1..j];
  }

  lemma {:induction false} TakeFirst(r: seq<Elem>, x: nat, y: nat, j: nat, less: (Elem, Elem) -> bool)
    requires x < y < j <= |r| && !less(r[y], r[x])
    ensures Merge(r[x..y], r[y..j], less) == [r[x]] + Merge(r[x + 1..y], r[y..j], less)
  {
    assert r[y..j][0] == r[y] && r[x..y][0] == r[x];
    assert r[x..y][1..] == r[x + 1..y];
  }

  // In the middle of a merge of the places i to j of q, x and y mark what is left.
  ghost predicate Merging(q: seq<Elem>, r: seq<Elem>, i: nat, m: nat, x: nat, y: nat, j: nat, less: (Elem, Elem) -> bool) {
    && 0 < i <= x <= y <= j < |q| == |r| && i < m < j
    && r[..i] == q[..i] && r[j..] == q[j..]
    && r[i..x] + Merge(r[x..y], r[y..j], less) == Merge(q[i..m], q[m..j], less)
  }

  lemma {:induction false} MergingFirst(q: seq<Elem>, r: seq<Elem>, i: nat, m: nat, x: nat, y: nat, j: nat, less: (Elem, Elem) -> bool)
    requires Merging(q, r, i, m, x, y, j, less) && x < y < j && !less(r[y], r[x])
    ensures Merging(q, r, i, m, x + 1, y, j, less)
  {
    TakeFirst(r, x, y, j, less);
    assert r[i..x + 1] == r[i..x] + [r[x]];
    ConcatAssoc(r[i..x], [r[x]], Merge(r[x + 1..y], r[y..j], less));
  }

  lemma {:induction false} MergingSecond(q: seq<Elem>, r: seq<Elem>, i: nat, m: nat, x: nat, y: nat, j: nat, less: (Elem, Elem) -> bool)
    requires Merging(q, r, i, m, x, y, j, less) && x < y < j && less(r[y], r[x])
    ensures Merging(q, Moved(r, x, y, y + 1), i, m, x + 1, y + 1, j, less)
  {
    TakeSecond(r, x, y, j, less);
    MovedSlices(r, i, x, y, j);
    ConcatAssoc(r[i..x], [r[y]], Merge(r[x..y], r[y + 1..j], less));
  }

  lemma {:induction false} MovedMembers(r: seq<Elem>, k: nat, i: nat, j: nat, q: seq<Elem>)
    requires k <= i <= j <= |r| && forall t :: 0 <= t < |r| ==> r[t] in q
    ensures |Moved(r, k, i, j)| == |r|
    ensures forall t :: 0 <= t < |Moved(r, k, i, j)| ==> Moved(r, k, i, j)[t] in q
  {
    MovedAt(r, k, i, j);
  }

  // The front of the second range is taken: it moves in front of the first range.
  method SpliceOne(a0: Elem, a1b0: Elem, ghost r: seq<Elem>, ghost x: nat, ghost y: nat) returns (next: Elem)
    requires Linked(r) && 0 < x < y < |r| - 1 && r[x] == a0 && r[y] == a1b0
    modifies r
    ensures Linked(Moved(r, x, y, y + 1))
    ensures next == r[y + 1]
  {
    assert r[y].next == r[y + 1] && r[y + 1].prev == r[y];
    next := a1b0.next;
    ListSplice(a0, next.prev, next, r, x, y, y + 1);
  }

  lemma {:induction false} MovedPlaces(r: seq<Elem>, x: nat, y: nat, j: nat)
    requires x < y < j < |r|
    ensures var r' := Moved(r, x, y, y + 1); |r'| == |r| && r'[x + 1] == r[x] && r'[y + 1] == r[y + 1] && r'[j] == r[j]
  {
  }

  // The list in the middle of a merge; a0 and a1b0 are the fronts of the two ranges left.
  ghost predicate MergeState(q: seq<Elem>, r: seq<Elem>, i: nat, m: nat, x: nat, y: nat, j: nat,
                             less: (Elem, Elem) -> bool, a0: Elem, a1b0: Elem, b1: Elem)
    reads r
  {
    && Linked(r) && Merging(q, r, i, m, x, y, j, less) && 0 < x && j < |r|
    && (forall t :: 0 <= t < |r| ==> r[t] in q)
    && a0 == r[x] && a1b0 == r[y] && b1 == r[j]
  }

  method MergeStep(a0: Elem, a1b0: Elem, b1: Elem, less: (Elem, Elem) -> bool,
                   ghost q: seq<Elem>, ghost r: seq<Elem>, ghost i: nat, ghost m: nat, ghost x: nat, ghost y: nat, ghost j: nat)
    returns (a0': Elem, a1b0': Elem, ghost r': seq<Elem>, ghost y': nat)
    requires MergeState(q, r, i, m, x, y, j, less, a0, a1b0, b1) && x < y < j
    modifies r
    ensures MergeState(q, r', i, m, x + 1, y', j, less, a0', a1b0', b1)
    ensures y' == y || y' == y + 1
  {
    hide Merge, Merging, Moved;
    a0', a1b0', r', y' := a0, a1b0, r, y;
    if !less(a1b0, a0) {
      MergingFirst(q, r, i, m, x, y, j, less);
      assert r[x].next == r[x + 1];
      a0' := a0.next;
    } else {
      MergingSecond(q, r, i, m, x, y, j, less);
      MovedMembers(r, x, y, y + 1, q);
      MovedPlaces(r, x, y, j);
      a1b0' := SpliceOne(a0, a1b0, r, x, y);
      r' := Moved(r, x, y, y + 1);
      y' := y + 1;
    }
  }

  lemma {:induction false} RangesLeft(r: seq<Elem>, x: nat, y: nat, j: nat)
    requires Injective(r) && x <= y <= j < |r|
    ensures r[x] != r[y] && r[y] != r[j] <==> x < y < j
  {
  }

  /** `inplace_merge` of the places i to m and m to j of q. */
  method InplaceMerge(a: Elem, ab: Elem, b1: Elem, less: (Elem, Elem) -> bool, ghost q: seq<Elem>, ghost i: nat, ghost m: nat, ghost j: nat)
    returns (ghost r: seq<Elem>)
    requires Linked(q) && 0 < i < m < j < |q| && q[i] == a && q[m] == ab && q[j] == b1
    modifies q
    ensures Linked(r) && (forall t :: 0 <= t < |r| ==> r[t] in q)
    ensures r == q[..i] + Merge(q[i..m], q[m..j], less) + q[j..]
  {
    var a0, a1b0 := a, ab;
    r := q;
    ghost var x: nat, y: nat := i, m;
    MergeBegins(q, i, m, j, less);
    RangesLeft(r, x, y, j);
    while a0 != a1b0 && a1b0 != b1
      invariant MergeState(q, r, i, m, x, y, j, less, a0, a1b0, b1)
      invariant a0 != a1b0 && a1b0 != b1 <==> x < y < j
      decreases j - x
    {
      a0, a1b0, r, y := MergeStep(a0, a1b0, b1, less, q, r, i, m, x, y, j);
      x := x + 1;
      RangesLeft(r, x, y, j);
    }
    MergedWhole(q, r, i, m, x, y, j, less);
  }

  lemma {:induction false} MergeBegins(q: seq<Elem>, i: nat, m: nat, j: nat, less: (Elem, Elem) -> bool)
    requires 0 < i < m < j < |q|
    ensures Merging(q, q, i, m, i, m, j, less)
  {
    assert q[i..i] == [];
  }

  lemma {:induction false} MergedWhole(q: seq<Elem>, r: seq<Elem>, i: nat, m: nat, x: nat, y: nat, j: nat, less: (Elem, Elem) -> bool)
    requires Merging(q, r, i, m, x, y, j, less) && (x == y || y == j)
    ensures r == q[..i] + Merge(q[i..m], q[m..j], less) + q[j..]
  {
    if x == y {
      assert r[x..y] == [] && r[i..x] + r[y..j] == r[i..j];
    } else {
      assert r[y..j] == [] && r[i..x] + r[x..y] == r[i..j];
    }
    assert r == r[..i] + r[i..j] + r[j..];
  }

  // ---- a pass ----

  // What the pass will have made of r in the end, if it goes on from place i.
  ghost function Output(r: seq<Elem>, i: nat, less: (Elem, Elem) -> bool): seq<Elem>
    requires 0 < i < |r|
  {
    r[1..i] + Pass(Rest(r, i), less)
  }

  // The list r in the middle of a pass over q: the output so far is in front of place i.
  ghost predicate Passing(q: seq<Elem>, r: seq<Elem>, i: nat, cnt: nat, less: (Elem, Elem) -> bool) {
    && |q| >= 2 && |r| == |q| && 0 < i < |r| && r[0] == q[0] && r[|r| - 1] == q[|q| - 1]
    && Output(r, i, less) == Output(q, 1, less)
    && cnt + PassRuns(Rest(r, i), less) == PassRuns(Rest(q, 1), less)
  }

  lemma {:induction false} PassUnfold(s: seq<Elem>, less: (Elem, Elem) -> bool, k1: nat, k2: nat)
    requires s != [] && k1 == RunEnd(s, 0, less) && k1 < |s| && k2 == RunEnd(s[k1..], 0, less)
    ensures Pass(s, less) == Merge(s[..k1], s[k1..][..k2], less) + Pass(s[k1..][k2..], less)
    ensures PassRuns(s, less) == 1 + PassRuns(s[k1..][k2..], less)
  {
  }

  // The ranges of r that a turn merges, as parts of what is left to do.
  lemma {:induction false} TurnRanges(r: seq<Elem>, i: nat, k1: nat, k2: nat)
    requires i + k1 + k2 < |r|
    ensures var s := Rest(r, i);
            && r[i..i + k1] == s[..k1] && r[i + k1..i + k1 + k2] == s[k1..][..k2] && Rest(r, i + k1) == s[k1..]
            && Rest(r, i + k1 + k2) == s[k1..][k2..]
  {
  }

  // The list after a turn: m stands where the two runs stood.
  lemma {:induction false} TurnParts(r: seq<Elem>, r': seq<Elem>, i: nat, j: nat, m: seq<Elem>)
    requires 0 < i <= j < |r| && |m| == j - i && r' == r[..i] + m + r[j..]
    ensures |r'| == |r| && r'[0] == r[0] && r'[|r'| - 1] == r[|r| - 1] && r'[j] == r[j]
    ensures r'[1..j] == r[1..i] + m && Rest(r', j) == Rest(r, j)
  {
  }

  // The list between two turns; a0 is the front of what is left to do.
  ghost predicate PassState(q: seq<Elem>, r: seq<Elem>, i: nat, cnt: nat, less: (Elem, Elem) -> bool, a0: Elem)
    reads r
  {
    && Linked(r) && Passing(q, r, i, cnt, less) && a0 == r[i]
    && forall t :: 0 <= t < |r| ==> r[t] in q
  }

  // The two runs a turn starts with; `last` when there is no second one.
  method FindRuns(a0: Elem, end: Elem, less: (Elem, Elem) -> bool, ghost r: seq<Elem>, ghost i: nat)
    returns (last: bool, a1b0: Elem, b1: Elem, ghost k1: nat, ghost k2: nat)
    requires Linked(r) && 0 < i < |r| - 1 && a0 == r[i] && end == r[|r| - 1]
    ensures k1 == RunEnd(Rest(r, i), 0, less) && (last <==> k1 == |Rest(r, i)|)
    ensures !last ==> i + k1 < |r| - 1 && k2 == RunEnd(Rest(r, i + k1), 0, less) && i + k1 + k2 < |r|
                      && a1b0 == r[i + k1] && b1 == r[i + k1 + k2]
  {
    AtEnd(r, i + RunEnd(Rest(r, i), 0, less));
    hide Linked, Injective;
    a1b0 := FindEndOfRun(a0, end, less, r, i);
    k1, k2 := RunEnd(Rest(r, i), 0, less), 0;
    last, b1 := a1b0 == end, end;
    if !last {
      b1 := FindEndOfRun(a1b0, end, less, r, i + k1);
      k2 := RunEnd(Rest(r, i + k1), 0, less);
    }
  }

  lemma {:induction false} AtEnd(r: seq<Elem>, i: nat)
    requires Injective(r) && i < |r|
    ensures r[i] != r[|r| - 1] <==> i < |r| - 1
  {
  }

  /** One turn of the `for` loop of `list_sort`; `last` when there is no second run. */
  method PassTurn(a0: Elem, end: Elem, less: (Elem, Elem) -> bool, ghost q: seq<Elem>, ghost r: seq<Elem>, ghost i: nat, ghost cnt: nat)
    returns (last: bool, b1: Elem, ghost r': seq<Elem>, ghost j: nat)
    requires PassState(q, r, i, cnt, less, a0) && i < |r| - 1 && end == q[|q| - 1]
    modifies r
    ensures last ==> r' == r && Linked(r) && RunEnd(Rest(r, i), 0, less) == |Rest(r, i)|
    ensures !last ==> i < j && PassState(q, r', j, cnt + 1, less, b1) && (b1 != end <==> j < |r'| - 1)
  {
    hide Merge, Pass, PassRuns, RunEnd, Output, TurnedTo;
    var a1b0;
    ghost var k1, k2;
    last, a1b0, b1, k1, k2 := FindRuns(a0, end, less, r, i);
    r', j := r, i + k1 + k2;
    if last { return; }
    r' := MergeRuns(a0, a1b0, b1, less, r, i, k1, k2);
    TurnWhole(q, r, r', i, cnt, less, k1, k2, j, b1);
    AtEnd(r', j);
  }

  // The list after a turn.
  ghost predicate TurnedTo(r: seq<Elem>, r': seq<Elem>, i: nat, k1: nat, k2: nat, less: (Elem, Elem) -> bool)
    requires i + k1 + k2 < |r|
  {
    && r' == r[..i] + Merge(r[i..i + k1], r[i + k1..i + k1 + k2], less) + r[i + k1 + k2..]
    && forall t :: 0 <= t < |r'| ==> r'[t] in r
  }

  method MergeRuns(a0: Elem, a1b0: Elem, b1: Elem, less: (Elem, Elem) -> bool, ghost r: seq<Elem>, ghost i: nat, ghost k1: nat, ghost k2: nat)
    returns (ghost r': seq<Elem>)
    requires Linked(r) && 0 < i && 0 < k1 && 0 < k2 && i + k1 + k2 < |r|
    requires a0 == r[i] && a1b0 == r[i + k1] && b1 == r[i + k1 + k2]
    modifies r
    ensures Linked(r') && TurnedTo(r, r', i, k1, k2, less)
  {
    r' := InplaceMerge(a0, a1b0, b1, less, r, i, i + k1, i + k1 + k2);
  }

  lemma {:induction false} TurnOutput(r: seq<Elem>, r': seq<Elem>, i: nat, less: (Elem, Elem) -> bool, k1: nat, k2: nat, j: nat)
    requires 0 < i < |r| - 1 && k1 == RunEnd(Rest(r, i), 0, less) && i + k1 < |r| - 1
    requires k2 == RunEnd(Rest(r, i + k1), 0, less) && j == i + k1 + k2
    requires r' == r[..i] + Merge(r[i..i + k1], r[i + k1..j], less) + r[j..]
    ensures |r'| == |r| && r'[0] == r[0] && r'[|r'| - 1] == r[|r| - 1] && r'[j] == r[j]
    ensures Output(r', j, less) == Output(r, i, less) && 1 + PassRuns(Rest(r', j), less) == PassRuns(Rest(r, i), less)
  {
    TurnRanges(r, i, k1, k2);
    PassUnfold(Rest(r, i), less, k1, k2);
    var m := Merge(r[i..i + k1], r[i + k1..j], less);
    TurnParts(r, r', i, j, m);
    ConcatAssoc(r[1..i], m, Pass(Rest(r, j), less));
  }

  lemma {:induction false} TurnKeeps(q: seq<Elem>, r: seq<Elem>, r': seq<Elem>, i: nat, j: nat, cnt: nat, less: (Elem, Elem) -> bool, b1: Elem)
    requires Passing(q, r, i, cnt, less) && 0 < j < |r| == |r'| && r'[0] == r[0] && r'[|r'| - 1] == r[|r| - 1] && r'[j] == b1
    requires Output(r', j, less) == Output(r, i, less) && 1 + PassRuns(Rest(r', j), less) == PassRuns(Rest(r, i), less)
    requires Linked(r') && forall t :: 0 <= t < |r'| ==> r'[t] in q
    ensures PassState(q, r', j, cnt + 1, less, b1)
  {
    hide Pass, PassRuns, Output;
  }

  lemma {:induction false} TurnWhole(q: seq<Elem>, r: seq<Elem>, r': seq<Elem>, i: nat, cnt: nat, less: (Elem, Elem) -> bool, k1: nat, k2: nat, j: nat, b1: Elem)
    requires Passing(q, r, i, cnt, less) && i < |r| - 1 && k1 == RunEnd(Rest(r, i), 0, less) && i + k1 < |r| - 1
    requires k2 == RunEnd(Rest(r, i + k1), 0, less) && j == i + k1 + k2 && b1 == r[j] && TurnedTo(r, r', i, k1, k2, less)
    requires Linked(r') && forall t :: 0 <= t < |r| ==> r[t] in q
    ensures PassState(q, r', j, cnt + 1, less, b1)
  {
    hide Merge, Pass, PassRuns, RunEnd, Output;
    StillMembers(r', r, q);
    TurnOutput(r, r', i, less, k1, k2, j);
    TurnKeeps(q, r, r', i, j, cnt, less, b1);
  }

  lemma {:induction false} StillMembers(r': seq<Elem>, r: seq<Elem>, q: seq<Elem>)
    requires (forall t :: 0 <= t < |r'| ==> r'[t] in r) && forall t :: 0 <= t < |r| ==> r[t] in q
    ensures forall t :: 0 <= t < |r'| ==> r'[t] in q
  {
  }

  lemma {:induction false} OutputWhole(q: seq<Elem>, less: (Elem, Elem) -> bool)
    requires |q| >= 2
    ensures Output(q, 1, less) == Pass(Rest(q, 1), less)
  {
    assert q[1..1] == [];
  }

  lemma {:induction false} OutputDone(r: seq<Elem>, i: nat, less: (Elem, Elem) -> bool)
    requires 0 < i < |r| && (i == |r| - 1 || RunEnd(Rest(r, i), 0, less) == |Rest(r, i)|)
    ensures Output(r, i, less) == Rest(r, 1) && PassRuns(Rest(r, i), less) == if i == |r| - 1 then 0 else 1
  {
    assert Pass(Rest(r, i), less) == Rest(r, i);
    assert r[1..i] + Rest(r, i) == Rest(r, 1);
  }

  lemma {:induction false} PassingEnds(q: seq<Elem>, r: seq<Elem>, i: nat, cnt: nat, less: (Elem, Elem) -> bool)
    requires Passing(q, r, i, cnt, less) && (i == |r| - 1 || RunEnd(Rest(r, i), 0, less) == |Rest(r, i)|)
    ensures r == [q[0]] + Pass(Rest(q, 1), less) + [q[|q| - 1]]
    ensures PassRuns(Rest(q, 1), less) == cnt + if i == |r| - 1 then 0 else 1
  {
    hide Pass, PassRuns, RunEnd, Output;
    OutputWhole(q, less);
    OutputDone(r, i, less);
    assert r == [r[0]] + Rest(r, 1) + [r[|r| - 1]];
  }

  /** One pass of `list_sort` over the list q; returns the number of runs output. */
  method ListPass(head: Elem, tail: Elem, less: (Elem, Elem) -> bool, ghost q: seq<Elem>) returns (cnt: nat, ghost r: seq<Elem>)
    requires Linked(q) && q[0] == head && q[|q| - 1] == tail
    modifies q
    ensures Linked(r) && r == [head] + Pass(Rest(q, 1), less) + [tail] && (forall t :: 0 <= t < |r| ==> r[t] in q)
    ensures cnt == PassRuns(Rest(q, 1), less)
  {
    r := q;
    cnt := 0;
    ghost var i: nat := 1;
    assert q[0].next == q[1];
    var a0: Elem := head.next;
    AtEnd(q, 1);
    while a0 != tail
      invariant PassState(q, r, i, cnt, less, a0)
      invariant a0 != tail <==> i < |r| - 1
      decreases |r| - i
    {
      var last, b1;
      ghost var r', j;
      last, b1, r', j := PassTurn(a0, tail, less, q, r, i, cnt);
      cnt := cnt + 1;
      if last {
        PassingEnds(q, r, i, cnt - 1, less);
        return;
      }
      a0, r, i := b1, r', j;
    }
    PassingEnds(q, r, i, cnt, less);
  }

  // ---- whole lists ----

  // The links in the middle of `list_reverse`: the nodes before place k have theirs swapped.
  ghost predicate HalfSwapped(q: seq<Elem>, k: nat)
    requires |q| >= 2 && k > 0
    reads q
  {
    && q[0].prev == null && q[0].next == q[1] && q[|q| - 1].next == null && q[|q| - 1].prev == q[|q| - 2]
    && (forall i :: 0 < i < k && i < |q| - 1 ==> q[i].prev == q[i + 1])
    && (forall i :: 0 < i < k && i < |q| - 1 ==> q[i].next == q[i - 1])
    && (forall i :: k <= i < |q| - 1 ==> q[i].next == q[i + 1])
    && (forall i :: k <= i < |q| - 1 ==> q[i].prev == q[i - 1])
  }

  lemma {:induction false} ReversedLinked(q: seq<Elem>, r: seq<Elem>)
    requires |q| >= 3 && Injective(q) && |r| == |q| && r[0] == q[0] && r[|r| - 1] == q[|q| - 1]
    requires forall i :: 0 < i < |r| - 1 ==> r[i] == q[|q| - 1 - i]
    requires q[0].prev == null && q[|q| - 1].next == null
    requires q[0].next == q[|q| - 2] && q[|q| - 2].prev == q[0] && q[|q| - 1].prev == q[1] && q[1].next == q[|q| - 1]
    requires forall i :: 0 < i < |q| - 2 ==> q[i].prev == q[i + 1]
    requires forall i :: 1 < i < |q| - 1 ==> q[i].next == q[i - 1]
    ensures Linked(r)
  {
    forall i | 0 <= i < |r| - 1 ensures r[i].next == r[i + 1] {
      var n := |q| - 1;
      if 0 < i < n - 1 { assert r[i] == q[n - i] && r[i + 1] == q[n - (i + 1)]; }
    }
    forall i | 0 < i < |r| ensures r[i].prev == r[i - 1] {
      var n := |q| - 1;
      if 1 < i < n { assert r[i] == q[n - i] && r[i - 1] == q[n - (i - 1)]; }
    }
  }

  lemma CutNodes(h: Elem, s: seq<Elem>, t: Elem, k: nat)
    requires k < |s|
    ensures var q := [h] + s + [t]; [h] + (s[..k] + s[k + 1..]) + [t] == q[..k + 1] + q[k + 2..]
  {
  }

  lemma PasteNodes(h: Elem, s: seq<Elem>, t: Elem, k: nat, x: Elem)
    requires k <= |s|
    ensures var q := [h] + s + [t]; [h] + (s[..k] + [x] + s[k..]) + [t] == q[..k + 1] + [x] + q[k + 1..]
  {
  }

  /** A list with its two headers. */
  class List {
    const head: Elem
    const tail: Elem
    ghost var Items: seq<Elem>

    ghost function Nodes(): seq<Elem>
      reads this
    {
      [head] + Items + [tail]
    }

    ghost predicate Valid()
      reads this, Nodes()
    {
      Linked(Nodes())
    }

    // `list_init`
    constructor ()
      ensures Valid() && Items == [] && fresh(head) && fresh(tail)
    {
      head := new Elem();
      tail := new Elem();
      Items := [];
      new;
      head.next := tail;
      tail.prev := head;
    }

    method Empty() returns (b: bool)
      requires Valid()
      ensures b <==> Items == []
    {
      assert Nodes()[0] == head && Nodes()[|Nodes()| - 1] == tail;
      b := head.next == tail;
      assert Nodes()[1] == if Items == [] then tail else Items[0];
    }

    method PushFront(elem: Elem)
      requires Valid() && elem !in Nodes()
      modifies this, elem, Nodes()
      ensures Valid() && Items == [elem] + old(Items)
    {
      ghost var q := Nodes();
      assert q[0] == head && q[0].next == q[1];
      ListInsert(head.next, elem, q, 1);
      Items := [elem] + Items;
      assert Nodes() == q[..1] + [elem] + q[1..];
    }

    method PushBack(elem: Elem)
      requires Valid() && elem !in Nodes()
      modifies this, elem, Nodes()
      ensures Valid() && Items == old(Items) + [elem]
    {
      ghost var q := Nodes();
      ListInsert(tail, elem, q, |q| - 1);
      Items := Items + [elem];
      assert Nodes() == q[..|q| - 1] + [elem] + q[|q| - 1..];
    }

    /** `list_pop_front`, of a list that is not empty. */
    method PopFront() returns (front: Elem)
      requires Valid() && Items != []
      modifies this, Nodes()
      ensures Valid() && front == old(Items)[0] && Items == old(Items)[1..]
    {
      ghost var q := Nodes();
      assert q[0] == head && q[0].next == q[1] && q[1] == Items[0];
      front := head.next;
      var _ := ListRemove(front, q, 1);
      Items := Items[1..];
      assert Nodes() == q[..1] + q[2..];
    }

    /** `list_remove` of the node at place k. */
    method Remove(elem: Elem, ghost k: nat)
      requires Valid() && k < |Items| && Items[k] == elem
      modifies this, Nodes()
      ensures Valid() && Items == old(Items)[..k] + old(Items)[k + 1..]
    {
      ghost var q := Nodes();
      assert q[k + 1] == elem;
      hide Linked;
      CutNodes(head, Items, tail, k);
      var _ := ListRemove(elem, q, k + 1);
      Items := Items[..k] + Items[k + 1..];
    }

    // the node in front of which elem goes
    method FindPlace(elem: Elem, less: (Elem, Elem) -> bool) returns (e: Elem, ghost k: nat)
      requires Valid()
      ensures k <= |Items| && e == Nodes()[k + 1] && k == InsertPoint(Items, elem, less)
    {
      ghost var q := Nodes();
      k := 0;
      assert q[0] == head && q[0].next == q[1] && q[|q| - 1] == tail;
      e := head.next;
      while e != tail && !less(elem, e)
        invariant 0 <= k <= |Items| && e == q[k + 1]
        invariant forall i :: 0 <= i < k ==> !less(elem, Items[i])
        decreases |Items| - k
      {
        assert e == Items[k];
        assert q[k + 1].next == q[k + 2];
        e := e.next;
        k := k + 1;
      }
      assert k < |Items| ==> e == q[k + 1] == Items[k] && Items[k] != q[|q| - 1] && e != tail;
      InsertPointIs(Items, elem, less, k);
    }

    /** `list_insert_ordered`: in front of the first node elem is less than. */
    method InsertOrderedElem(elem: Elem, less: (Elem, Elem) -> bool)
      requires Valid() && elem !in Nodes()
      modifies this, elem, Nodes()
      ensures Valid() && Items == InsertOrdered(old(Items), elem, less)
    {
      hide Linked, InsertPoint;
      ghost var k: nat;
      var e: Elem;
      e, k := FindPlace(elem, less);
      InsertAt(e, elem, k);
    }

    // in front of the node at place k
    method InsertAt(e: Elem, elem: Elem, ghost k: nat)
      requires Valid() && elem !in Nodes() && k <= |Items| && e == Nodes()[k + 1]
      modifies this, elem, Nodes()
      ensures Valid() && Items == old(Items)[..k] + [elem] + old(Items)[k..]
    {
      hide Linked;
      PasteNodes(head, Items, tail, k, elem);
      ListInsert(e, elem, Nodes(), k + 1);
      Items := Items[..k] + [elem] + Items[k..];
    }

    /** `list_sort`: sorted, the same nodes, equivalent ones in their old order, and prev and
        next still inverse to each other. */
    method Sort(less: (Elem, Elem) -> bool)
      requires Valid() && StrictWeak(less, set e | e in Items)
      modifies this, Nodes()
      ensures Valid() && Sorted(Items, less) && multiset(Items) == multiset(old(Items))
      ensures forall x :: x in old(Items) ==> Class(Items, x, less) == Class(old(Items), x, less)
    {
      hide Pass, PassRuns, Runs, MergeSort.Sort, Class, StrictWeak, Sorted;
      ghost var dom := set e | e in Items;
      ghost var items := Items;
      ghost var all := set e | e in Nodes();
      var cnt := RunPass(less, all);
      ghost var goal := MergeSort.Sort(items, less, dom);
      SortUnfold(items, less, dom);
      while cnt > 1
        invariant Valid() && Within(Items, dom)
        invariant forall e :: e in Nodes() ==> e in all
        invariant cnt <= 1 ==> Items == goal
        invariant cnt > 1 ==> MergeSort.Sort(Items, less, dom) == goal
        decreases if cnt > 1 then 1 + Runs(Items, less) else 0
      {
        SortUnfold(Items, less, dom);
        cnt := RunPass(less, all);
      }
      SortCorrect(items, less, dom);
    }

    // One turn of the outer loop of `list_sort`.
    method RunPass(less: (Elem, Elem) -> bool, ghost all: set<Elem>) returns (cnt: nat)
      requires Valid() && forall e :: e in Nodes() ==> e in all
      modifies this, all
      ensures Valid() && Items == Pass(old(Items), less) && cnt == PassRuns(old(Items), less)
      ensures forall e :: e in Nodes() ==> e in all
    {
      ghost var q := Nodes();
      assert Rest(q, 1) == Items && q[0] == head && q[|q| - 1] == tail;
      hide Pass, PassRuns, Linked, Rest, Injective;
      ghost var r;
      cnt, r := ListPass(head, tail, less, q);
      Items := Pass(Items, less);
      assert Nodes() == r;
    }

    /** `list_reverse` */
    method Reverse()
      requires Valid()
      modifies this, Nodes()
      ensures Valid() && Items == Reversed(old(Items))
    {
      ghost var q := Nodes();
      var empty := Empty();
      if empty {
        assert Reversed(Items) == Items;
        return;
      }
      SwapAll(q);
      // The headers trade their inner links, and so do the nodes at the ends.
      head.next, tail.prev := tail.prev, head.next;
      head.next.prev, tail.prev.next := tail.prev.next, head.next.prev;
      Items := Reversed(Items);
      ReversedLinked(q, Nodes());
    }

    // The loop of `list_reverse`.
    method SwapAll(ghost q: seq<Elem>)
      requires q == Nodes() && Valid() && |q| >= 3
      modifies q
      ensures HalfSwapped(q, |q| - 1) && q == Nodes()
    {
      assert q[0] == head && q[|q| - 1] == tail && q[0].next == q[1];
      var e: Elem := head.next;
      ghost var k := 1;
      while e != tail
        invariant 0 < k < |q| && e == q[k] && HalfSwapped(q, k)
        decreases |q| - k
      {
        assert q[k].next == q[k + 1];
        e.prev, e.next := e.next, e.prev;
        e := e.prev;
        k := k + 1;
      }
    }
  }

  lemma {:induction false} SortUnfold(s: seq<Elem>, less: (Elem, Elem) -> bool, dom: set<Elem>)
    requires StrictWeak(less, dom) && Within(s, dom)
    ensures var p := Pass(s, less);
            && Within(p, dom) && (PassRuns(s, less) > 1 ==> Runs(p, less) < Runs(s, less))
            && MergeSort.Sort(s, less, dom) == if PassRuns(s, less) <= 1 then p else MergeSort.Sort(p, less, dom)
  {
    PassFewerRuns(s, less, dom);
    PassHalves(s, less);
  }
}
