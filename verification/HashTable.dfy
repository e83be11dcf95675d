/** The hash table (`hash.c`). An element stands for itself; which elements count as equal is up
    to `less`, and the hash function is any that agrees with it. */
module HashTable {
  import opened Queues
  import opened Bits

  // What `less` and `hash` have to be: a strict weak order, and equal hashes for equal keys.
  ghost predicate Keys<T(!new)>(less: (T, T) -> bool, hash: T -> nat) {
    && (forall a, b :: less(a, b) ==> !less(b, a))
    && (forall a, b, c :: !less(a, b) && !less(b, c) ==> !less(a, c))
    && (forall a, b :: Equiv(a, b, less) ==> hash(a) == hash(b))
  }

  // ---- powers of two ----

  ghost predicate PowerOfTwo(n: nat) { exists k: nat :: Pow2(k) == n }

  // `turn_off_least_1bit`
  function TurnOffLeast(x: nat): nat
    requires x > 0
  {
    And(x, x - 1)
  }

  // The largest power of two that is not above x.
  lemma {:induction false} TopBit(x: nat) returns (k: nat)
    requires x > 0
    ensures Pow2(k) <= x < 2 * Pow2(k)
  {
    if x == 1 {
      k := 0;
    } else {
      var k' := TopBit(x / 2);
      k := k' + 1;
    }
  }

  lemma {:induction false} AndKeepsTop(x: nat, y: nat, k: nat)
    requires Pow2(k) <= x < 2 * Pow2(k) && Pow2(k) <= y < 2 * Pow2(k)
    ensures And(x, y) >= Pow2(k)
  {
    if k > 0 { AndKeepsTop(x / 2, y / 2, k - 1); }
  }

  /** Turning off the lowest one bit leaves nothing exactly when the number is a power of two;
      otherwise it leaves less, and the top bit. */
  lemma TurnOffLeastIs(x: nat, k: nat)
    requires x > 0 && Pow2(k) <= x < 2 * Pow2(k)
    ensures TurnOffLeast(x) < x && (TurnOffLeast(x) == 0 <==> x == Pow2(k))
    ensures TurnOffLeast(x) != 0 ==> TurnOffLeast(x) >= Pow2(k)
  {
    AndBound(x, x - 1);
    if x == Pow2(k) {
      AndLowMask(x, k);
    } else {
      AndKeepsTop(x, x - 1, k);
    }
  }

  // n buckets, a power of two, suit so many elements: about one for two of them, four at least.
  predicate Suits(n: nat, elems: nat) {
    var want := if elems / 2 < 4 then 4 else elems / 2;
    n <= want < 2 * n
  }

  // `find_bucket`'s index
  function Slot(h: nat, cnt: nat): nat
    requires cnt > 0
  {
    And(h, cnt - 1)
  }

  /** Masking the hash gives a bucket, the one of its remainder. */
  lemma SlotFits(h: nat, cnt: nat)
    requires PowerOfTwo(cnt)
    ensures cnt > 0 && Slot(h, cnt) == h % cnt < cnt
  {
    var k: nat :| Pow2(k) == cnt;
    AndLowMask(h, k);
  }

  // ---- buckets ----

  ghost function Bag<T>(bs: seq<seq<T>>): multiset<T> { multiset(Flat(bs)) }

  lemma BagUpdate<T>(bs: seq<seq<T>>, i: nat, b: seq<T>)
    requires i < |bs|
    ensures multiset(bs[i]) <= Bag(bs)
    ensures Bag(bs[i := b]) == Bag(bs) - multiset(bs[i]) + multiset(b)
  {
    FlatSplit(bs, i);
    FlatSplit(bs[i := b], i);
    assert bs[i := b][..i] == bs[..i] && bs[i := b][i + 1..] == bs[i + 1..];
  }

  lemma {:induction false} BagWhere<T>(bs: seq<seq<T>>, x: T) returns (i: nat)
    requires x in Bag(bs)
    ensures i < |bs| && x in bs[i]
  {
    if x in bs[0] {
      i := 0;
    } else {
      i := BagWhere(bs[1..], x);
      i := i + 1;
    }
  }

  lemma {:induction false} BagEmpty<T>(bs: seq<seq<T>>)
    requires forall i :: 0 <= i < |bs| ==> bs[i] == []
    ensures Flat(bs) == [] && Bag(bs) == multiset{}
  {
    if bs != [] { BagEmpty(bs[1..]); }
  }

  // Taking x out of a list that has it.
  lemma RemoveBag<T>(s: seq<T>, x: T)
    requires x in s
    ensures multiset(Remove(s, x)) == multiset(s) - multiset{x}
  {
    var k := RemoveSplits(s, x);
    assert s == s[..k] + [x] + s[k + 1..];
  }

  ghost predicate Placed<T(!new)>(bs: seq<seq<T>>, hash: T -> nat)
    requires |bs| > 0
  {
    forall i, x :: 0 <= i < |bs| && x in bs[i] ==> Slot(hash(x), |bs|) == i
  }

  // Every element once, and no two with equal keys.
  ghost predicate Distinct<T(!new)>(m: multiset<T>, less: (T, T) -> bool) {
    && (forall x :: m[x] <= 1)
    && forall x, y :: x in m && y in m && x != y ==> !Equiv(x, y, less)
  }

  lemma PushBucket<T(!new)>(bs: seq<seq<T>>, hash: T -> nat, e: T, i: nat)
    requires 0 < |bs| && Placed(bs, hash) && i == Slot(hash(e), |bs|) < |bs|
    ensures Placed(bs[i := [e] + bs[i]], hash) && Bag(bs[i := [e] + bs[i]]) == Bag(bs) + multiset{e}
  {
    PushPlaced(bs, hash, e, i);
    hide Placed, Bag, Slot;
    BagUpdate(bs, i, [e] + bs[i]);
  }

  lemma PushPlaced<T(!new)>(bs: seq<seq<T>>, hash: T -> nat, e: T, i: nat)
    requires 0 < |bs| && Placed(bs, hash) && i == Slot(hash(e), |bs|) < |bs|
    ensures Placed(bs[i := [e] + bs[i]], hash)
  {
    hide Slot;
  }

  lemma CutBucket<T(!new)>(bs: seq<seq<T>>, hash: T -> nat, e: T, i: nat)
    requires 0 < |bs| && Placed(bs, hash) && i < |bs| && e in bs[i]
    ensures Placed(bs[i := Remove(bs[i], e)], hash) && Bag(bs[i := Remove(bs[i], e)]) == Bag(bs) - multiset{e}
  {
    RemoveBag(bs[i], e);
    BagUpdate(bs, i, Remove(bs[i], e));
    forall x | x in Remove(bs[i], e) ensures x in bs[i] { assert x in multiset(Remove(bs[i], e)); }
  }

  lemma DropFront<T>(bs: seq<seq<T>>, i: nat)
    requires i < |bs| && bs[i] != []
    ensures bs[i][0] in Bag(bs) && Bag(bs[i := bs[i][1..]]) == Bag(bs) - multiset{bs[i][0]}
  {
    BagUpdate(bs, i, bs[i][1..]);
    assert bs[i] == [bs[i][0]] + bs[i][1..];
  }

  lemma DistinctAdd<T(!new)>(m: multiset<T>, less: (T, T) -> bool, hash: T -> nat, e: T)
    requires Keys(less, hash) && Distinct(m, less) && forall x :: x in m ==> !Equiv(x, e, less)
    ensures Distinct(m + multiset{e}, less)
  {
    assert Equiv(e, e, less);
  }

  lemma DistinctSub<T(!new)>(m: multiset<T>, less: (T, T) -> bool, e: T)
    requires Distinct(m, less)
    ensures Distinct(m - multiset{e}, less) && m[e] <= 1
  {
  }

  // Taking out the element equal to e leaves none equal to it.
  lemma NoneLeft<T(!new)>(m: multiset<T>, less: (T, T) -> bool, hash: T -> nat, v: T, e: T)
    requires Keys(less, hash) && Distinct(m, less) && v in m && Equiv(v, e, less)
    ensures forall x :: x in m - multiset{v} ==> !Equiv(x, e, less)
  {
  }

  // ---- iteration ----

  // A position: an element of a bucket, or the head before the first (pos is -1).
  datatype Iter = Iter(bucket: nat, pos: int)

  ghost predicate IterOk<T>(bs: seq<seq<T>>, it: Iter) {
    it.bucket < |bs| && -1 <= it.pos < |bs[it.bucket]|
  }

  // How many elements lie before the position.
  ghost function Rank<T>(bs: seq<seq<T>>, it: Iter): int
    requires it.bucket <= |bs|
  {
    |Flat(bs[..it.bucket])| + it.pos
  }

  lemma RankElem<T>(bs: seq<seq<T>>, it: Iter)
    requires IterOk(bs, it) && it.pos >= 0
    ensures 0 <= Rank(bs, it) < |Flat(bs)| && Flat(bs)[Rank(bs, it)] == bs[it.bucket][it.pos]
  {
    FlatSplit(bs, it.bucket);
  }

  lemma RankNextBucket<T>(bs: seq<seq<T>>, b: nat)
    requires b < |bs|
    ensures |Flat(bs[..b + 1])| == |Flat(bs[..b])| + |bs[b]|
  {
    FlatSplit(bs[..b + 1], b);
    assert bs[..b + 1][..b] == bs[..b] && bs[..b + 1][b + 1..] == [];
  }

  class Hash<T(==, !new)> {
    const hash: T -> nat
    const less: (T, T) -> bool
    var buckets: seq<seq<T>>
    var bucketCnt: nat
    var elemCnt: nat

    ghost predicate Shape()
      reads this
    {
      Keys(less, hash) && bucketCnt == |buckets| >= 4 && PowerOfTwo(bucketCnt)
    }

    ghost predicate Valid()
      reads this
    {
      && Shape() && Placed(buckets, hash) && elemCnt == |Bag(buckets)|
      && Distinct(Bag(buckets), less)
    }

    ghost function Elems(): multiset<T>
      reads this
    {
      Bag(buckets)
    }

    // `hash_init` with memory for its four buckets
    constructor (hash: T -> nat, less: (T, T) -> bool)
      requires Keys(less, hash)
      ensures Valid() && Elems() == multiset{} && this.hash == hash && this.less == less
    {
      this.hash, this.less := hash, less;
      elemCnt, bucketCnt := 0, 4;
      buckets := seq(4, _ => []);
      new;
      BagEmpty(buckets);
      assert Pow2(2) == 4;
    }

    // `find_elem` in the bucket of e
    method FindElem(e: T) returns (r: Option<T>)
      requires Valid()
      ensures r.Some? ==> r.value in Elems() && Equiv(r.value, e, less)
      ensures r.Some? ==> Slot(hash(e), bucketCnt) < |buckets| && r.value in buckets[Slot(hash(e), bucketCnt)]
      ensures r.None? ==> forall x :: x in Elems() ==> !Equiv(x, e, less)
    {
      SlotFits(hash(e), bucketCnt);
      var b := buckets[Slot(hash(e), bucketCnt)];
      BagUpdate(buckets, Slot(hash(e), bucketCnt), []);
      var i := 0;
      while i < |b|
        invariant i <= |b|
        invariant forall j :: 0 <= j < i ==> !Equiv(b[j], e, less)
      {
        if !less(b[i], e) && !less(e, b[i]) {
          assert b[i] in multiset(b);
          return Some(b[i]);
        }
        i := i + 1;
      }
      forall x | x in Elems() ensures !Equiv(x, e, less) {
        var j := BagWhere(buckets, x);
        assert Equiv(x, e, less) ==> hash(x) == hash(e);
      }
      return None;
    }

    // `insert_elem`
    method InsertElem(e: T)
      requires Shape() && Placed(buckets, hash)
      modifies this`buckets, this`elemCnt
      ensures Shape() && Placed(buckets, hash)
      ensures elemCnt == old(elemCnt) + 1 && Elems() == old(Elems()) + multiset{e}
    {
      SlotFits(hash(e), bucketCnt);
      var i := Slot(hash(e), bucketCnt);
      PushBucket(buckets, hash, e, i);
      hide Placed, Bag, Keys;
      elemCnt := elemCnt + 1;
      buckets := buckets[i := [e] + buckets[i]];
    }

    // `remove_elem`
    method RemoveElem(e: T)
      requires Valid() && e in Elems()
      modifies this`buckets, this`elemCnt
      ensures Valid() && elemCnt == old(elemCnt) - 1 && Elems() == old(Elems()) - multiset{e}
    {
      ghost var j := BagWhere(buckets, e);
      SlotFits(hash(e), bucketCnt);
      var i := Slot(hash(e), bucketCnt);
      assert i == j;
      hide Placed, Bag, Keys, Distinct;
      CutBucket(buckets, hash, e, i);
      DistinctSub(Bag(buckets), less, e);
      elemCnt := elemCnt - 1;
      buckets := buckets[i := Remove(buckets[i], e)];
    }

    // the number of buckets for the present number of elements
    method BestCount() returns (n: nat)
      ensures n >= 4 && PowerOfTwo(n) && Suits(n, elemCnt)
    {
      n := elemCnt / 2;
      if n < 4 { n := 4; }
      ghost var want := n;
      ghost var k := TopBit(n);
      while TurnOffLeast(n) != 0
        invariant Pow2(k) <= n <= want < 2 * Pow2(k)
        decreases n
      {
        TurnOffLeastIs(n, k);
        n := TurnOffLeast(n);
      }
      TurnOffLeastIs(n, k);
      assert want >= 4;
      FourOrMore(k, want);
    }

    /** The elements stay; buckets may become more or fewer, or stay if there is no memory. */
    method Rehash(allocOk: bool)
      requires Shape() && Placed(buckets, hash)
      modifies this`buckets, this`bucketCnt
      ensures Shape() && Placed(buckets, hash) && Elems() == old(Elems())
      ensures if allocOk then Suits(bucketCnt, elemCnt) else buckets == old(buckets)
    {
      var n := BestCount();
      if n == bucketCnt || !allocOk { return; }
      var from := buckets;
      buckets := seq(n, _ => []);
      bucketCnt := n;
      BagEmpty(buckets);
      assert Placed(buckets, hash);
      hide Placed, Bag, Keys, PowerOfTwo, Suits;
      var i := 0;
      while i < |from|
        invariant i <= |from| && Shape() && Placed(buckets, hash) && bucketCnt == n
        invariant forall j :: 0 <= j < i ==> from[j] == []
        invariant Bag(from) + Elems() == old(Elems())
      {
        from := MoveBucket(from, i);
        i := i + 1;
      }
      BagEmpty(from);
    }

    // one old bucket is emptied into the new ones
    method MoveBucket(from: seq<seq<T>>, i: nat) returns (rest: seq<seq<T>>)
      requires Shape() && Placed(buckets, hash) && i < |from|
      modifies this`buckets
      ensures Shape() && Placed(buckets, hash)
      ensures |rest| == |from| && rest == from[i := []] && Bag(rest) + Elems() == Bag(from) + old(Elems())
    {
      rest := from;
      hide Placed, Bag, Keys;
      while rest[i] != []
        invariant |rest| == |from| && rest == from[i := rest[i]]
        invariant Shape() && Placed(buckets, hash)
        invariant Bag(rest) + Elems() == Bag(from) + old(Elems())
        decreases |rest[i]|
      {
        var e := rest[i][0];
        SlotFits(hash(e), bucketCnt);
        var k := Slot(hash(e), bucketCnt);
        DropFront(rest, i);
        PushBucket(buckets, hash, e, k);
        rest := rest[i := rest[i][1..]];
        buckets := buckets[k := [e] + buckets[k]];
      }
    }

    /** Inserts unless an equal element is there, which is returned then. */
    method Insert(e: T, allocOk: bool) returns (r: Option<T>)
      requires Valid()
      modifies this
      ensures Valid() && (allocOk ==> Suits(bucketCnt, elemCnt))
      ensures r.None? ==> (forall x :: x in old(Elems()) ==> !Equiv(x, e, less)) && Elems() == old(Elems()) + multiset{e}
      ensures r.Some? ==> r.value in old(Elems()) && Equiv(r.value, e, less) && Elems() == old(Elems())
    {
      hide Placed, Bag, Keys, Distinct;
      r := FindElem(e);
      if r.None? {
        DistinctAdd(Elems(), less, hash, e);
        InsertElem(e);
      }
      Rehash(allocOk);
    }

    /** Inserts in place of the equal element, if there is one. */
    method Replace(e: T, allocOk: bool) returns (r: Option<T>)
      requires Valid()
      modifies this
      ensures Valid() && (allocOk ==> Suits(bucketCnt, elemCnt))
      ensures r.None? ==> (forall x :: x in old(Elems()) ==> !Equiv(x, e, less)) && Elems() == old(Elems()) + multiset{e}
      ensures r.Some? ==> r.value in old(Elems()) && Equiv(r.value, e, less)
      ensures r.Some? ==> Elems() == old(Elems()) - multiset{r.value} + multiset{e}
    {
      hide Placed, Bag, Keys, Distinct;
      r := FindElem(e);
      if r.Some? {
        NoneLeft(Elems(), less, hash, r.value, e);
        RemoveElem(r.value);
      }
      DistinctAdd(Elems(), less, hash, e);
      InsertElem(e);
      Rehash(allocOk);
    }

    method Find(e: T) returns (r: Option<T>)
      requires Valid()
      ensures r.Some? ==> r.value in Elems() && Equiv(r.value, e, less)
      ensures r.None? ==> forall x :: x in Elems() ==> !Equiv(x, e, less)
    {
      r := FindElem(e);
    }

    method Delete(e: T, allocOk: bool) returns (r: Option<T>)
      requires Valid()
      modifies this
      ensures Valid() && (allocOk && r.Some? ==> Suits(bucketCnt, elemCnt))
      ensures r.None? ==> (forall x :: x in old(Elems()) ==> !Equiv(x, e, less)) && Elems() == old(Elems())
      ensures r.Some? ==> r.value in old(Elems()) && Equiv(r.value, e, less)
      ensures r.Some? ==> Elems() == old(Elems()) - multiset{r.value}
    {
      r := FindElem(e);
      if r.Some? {
        RemoveElem(r.value);
        Rehash(allocOk);
      }
    }

    // `hash_next`
    method Next(it: Iter) returns (it': Iter, r: Option<T>)
      requires Valid() && IterOk(buckets, it)
      ensures r.Some? ==> IterOk(buckets, it') && it'.pos >= 0 && buckets[it'.bucket][it'.pos] == r.value
      ensures r.Some? ==> Rank(buckets, it') == Rank(buckets, it) + 1
      ensures r.None? ==> Rank(buckets, it) + 1 == |Flat(buckets)|
    {
      var b, p := it.bucket, it.pos + 1;
      while p == |buckets[b]|
        invariant b < |buckets| && 0 <= p <= |buckets[b]|
        invariant |Flat(buckets[..b])| + p == Rank(buckets, it) + 1
        decreases |buckets| - b
      {
        RankNextBucket(buckets, b);
        b := b + 1;
        if b >= bucketCnt {
          assert buckets[..b] == buckets;
          return Iter(b, 0), None;
        }
        p := 0;
      }
      return Iter(b, p), Some(buckets[b][p]);
    }

    /** A full iteration from `hash_first` on visits every element of the table once. */
    method Iterate() returns (visited: seq<T>)
      requires Valid()
      ensures multiset(visited) == Elems() && |visited| == elemCnt
      ensures forall i, j :: 0 <= i < j < |visited| ==> visited[i] != visited[j]
    {
      visited := [];
      var it := Iter(0, -1);
      var r: Option<T>;
      assert buckets[..0] == [];
      it, r := Next(it);
      while r.Some?
        invariant |visited| <= |Flat(buckets)| && visited == Flat(buckets)[..|visited|]
        invariant r.Some? ==> IterOk(buckets, it) && it.pos >= 0 && buckets[it.bucket][it.pos] == r.value
        invariant r.Some? ==> Rank(buckets, it) == |visited|
        invariant r.None? ==> |visited| == |Flat(buckets)|
        decreases |Flat(buckets)| - |visited|, r.Some?
      {
        RankElem(buckets, it);
        visited := visited + [r.value];
        it, r := Next(it);
      }
      assert visited == Flat(buckets);
      OnceEach(visited);
    }
  }

  lemma FourOrMore(k: nat, want: nat)
    requires 4 <= want < 2 * Pow2(k)
    ensures Pow2(k) >= 4
  {
    assert Pow2(1) == 2;
    if k >= 2 { assert Pow2(k) == 4 * Pow2(k - 2); }
  }

  lemma OnceEach<T>(s: seq<T>)
    requires forall x :: x in s ==> multiset(s)[x] <= 1
    ensures forall i, j :: 0 <= i < j < |s| ==> s[i] != s[j]
  {
    forall i, j | 0 <= i < j < |s| ensures s[i] != s[j] {
      var x, y := s[i], s[j];
      assert s == s[..i] + [x] + s[i + 1..j] + [y] + s[j + 1..];
      assert multiset(s)[x] >= multiset([x])[x] + multiset([y])[x];
    }
  }
}
