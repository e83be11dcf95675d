/** The allocator as it runs (`malloc.c` on `palloc.c` on `bitmap.c`): descriptors, arena
    headers and free lists changed in place, over one pool's bitmap. */
module AllocatorObject {
  import opened Queues
  import opened Bitmaps
  import opened Malloc
  import opened MallocRuns

  lemma ListsNoDup(h: Heap, others: set<nat>, x: Option<nat>, d: nat)
    requires InvBut(h, others, x) && d < DESCS
    ensures |h.free| == DESCS && NoDup(h.free[d])
  {
    assert ListOk(h, d);
  }

  class Allocator {
    const pool: Bitmap
    var arenas: map<nat, Arena>
    var free: seq<seq<Block>>
    ghost var live: map<Block, nat>
    // the pages the rest of the kernel has
    ghost var others: set<nat>

    ghost predicate Shape()
      reads this
    {
      pool.Valid() && |free| == DESCS
    }

    ghost function View(): Heap
      requires Shape()
      reads this, pool.bits
    {
      Heap(pool.Contents(), arenas, free, live)
    }

    ghost predicate Valid()
      reads this, pool.bits
    {
      Shape() && Inv(View(), others)
    }

    // `malloc_init` over a pool of n free pages
    constructor (n: nat)
      ensures Valid() && fresh(pool.bits) && View() == Initial(seq(n, _ => false)) && others == {}
    {
      pool := new Bitmap(n);
      arenas := map[];
      free := seq(DESCS, _ => []);
      live := map[];
      others := {};
    }

    // the search over the descriptors
    static method FindDesc(size: nat) returns (d: nat)
      ensures d <= DESCS
      ensures DescFor(size) == if d == DESCS then None else Some(d)
    {
      d := 0;
      while d < DESCS && BlockSize(d) < size
        invariant d <= DESCS
        invariant DescFor(size) == DescFor(size, d)
      {
        d := d + 1;
      }
    }

    // a page becomes an arena and its blocks go on the free list
    method NewArena(d: nat, p: nat)
      requires Shape() && d < DESCS && free[d] == []
      requires p < pool.bitCnt
      modifies this`arenas, this`free
      ensures Shape() && pool.Contents() == old(pool.Contents())
      ensures arenas == old(arenas)[p := Arena(Some(d), PerArena(d))]
      ensures free == old(free)[d := BlocksOf(p, PerArena(d))]
    {
      arenas := arenas[p := Arena(Some(d), PerArena(d))];
      ghost var was := free;
      var i := 0;
      assert BlocksOf(p, 0) == [];
      while i < PerArena(d)
        invariant i <= PerArena(d)
        invariant arenas == old(arenas)[p := Arena(Some(d), PerArena(d))]
        invariant |free| == DESCS && free == was[d := BlocksOf(p, i)]
      {
        free := free[d := free[d] + [Block(p, i)]];
        assert BlocksOf(p, i + 1) == BlocksOf(p, i) + [Block(p, i)];
        i := i + 1;
      }
    }

    method AllocBig(size: nat) returns (r: Option<Block>)
      requires Valid() && size > 0 && DescFor(size).None?
      modifies this, pool.bits
      ensures Shape() && others == old(others) && MallocStep(old(View()), size, View(), r)
    {
      var f := pool.ScanAndFlip(0, PagesFor(size), false);
      if f.None? { return None; }
      arenas := arenas[f.value := Arena(None, PagesFor(size))];
      live := live[Block(f.value, 0) := size];
      r := Some(Block(f.value, 0));
      assert View() == TakeBig(old(View()), f.value, size);
    }

    // the front block of the list leaves it and its arena counts one less
    method TakeFront(d: nat, size: nat, ghost x: Option<nat>) returns (b: Block)
      requires Shape() && InvBut(View(), others, x) && d < DESCS && free[d] != [] && 0 < size <= BlockSize(d)
      requires x.Some? ==> free[d][0].page == x.value
      modifies this`free, this`arenas, this`live
      ensures Shape() && b == old(free[d][0]) && b.page in old(arenas)
      ensures View() == Take(old(View()), d, size)
    {
      hide InvBut, BlockSize, PerArena;
      TakeInv(View(), d, size, others, x);
      b := free[d][0];
      free := free[d := free[d][1..]];
      arenas := arenas[b.page := arenas[b.page].(freeCnt := arenas[b.page].freeCnt - 1)];
      live := live[b := size];
    }

    method AllocSmall(d: nat, size: nat) returns (r: Option<Block>)
      requires Valid() && size > 0 && DescFor(size) == Some(d)
      modifies this, pool.bits
      ensures Shape() && others == old(others) && MallocStep(old(View()), size, View(), r)
    {
      hide InvBut;
      ghost var h := View();
      if free[d] != [] {
        var b := TakeFront(d, size, None);
        return Some(b);
      }
      var at := pool.ScanAndFlip(0, 1, false);
      if at.None? { return None; }
      NewArena(d, at.value);
      AddArenaInv(h, d, at.value, others);
      assert [] + BlocksOf(at.value, PerArena(d)) == BlocksOf(at.value, PerArena(d));
      assert View() == AddArena(h, d, at.value);
      var b := TakeFront(d, size, at);
      return Some(b);
    }

    /** A block of at least size bytes that nobody has, or null, and that only for a request of zero
        bytes or where there is no room. */
    method Alloc(size: nat) returns (r: Option<Block>)
      requires Valid()
      modifies this, pool.bits
      ensures Valid() && others == old(others) && MallocStep(old(View()), size, View(), r)
      ensures if r.Some? then r.value !in old(live) && live == old(live)[r.value := size] else View() == old(View())
      ensures r.None? <==> size == 0 || NoRoom(old(View()), size)
    {
      ghost var h := View();
      if size == 0 {
        r := None;
      } else {
        var d := FindDesc(size);
        if d == DESCS {
          r := AllocBig(size);
        } else {
          r := AllocSmall(d, size);
        }
        MallocKeeps(h, size, View(), r, others);
        MallocFailsIff(h, size, View(), r);
      }
    }

    // the blocks of the arena on page p leave their list one by one
    method DropBlocks(d: nat, p: nat)
      requires Shape() && d < DESCS && NoDup(free[d])
      modifies this`free
      ensures |free| == DESCS && free == old(free)[d := DropPage(old(free)[d], p, PerArena(d))]
    {
      ghost var was := free;
      var i := 0;
      DropPageZero(free[d], p);
      while i < PerArena(d)
        invariant i <= PerArena(d)
        invariant |free| == DESCS && free == was[d := DropPage(was[d], p, i)]
      {
        DropPageStep(was[d], p, i);
        free := free[d := Remove(free[d], Block(p, i))];
        i := i + 1;
      }
    }

    /** Null is ignored; a live block goes, and its arena's pages with the last one. */
    method Release(b: Option<Block>)
      requires Valid() && (b.Some? ==> b.value in live)
      modifies this, pool.bits
      ensures Valid() && others == old(others)
      ensures live == if b.Some? then old(live) - {b.value} else old(live)
      ensures b.None? ==> View() == old(View())
    {
      if b.Some? {
        ghost var h := View();
        FreeKeeps(h, b.value, others);
        ReleaseBlock(b.value);
      }
    }

    method ReleaseBlock(b: Block)
      requires Valid() && b in live && b.page in arenas && b.page + Extent(arenas[b.page]) <= pool.bitCnt
      requires arenas[b.page].desc.Some? ==> arenas[b.page].desc.value < DESCS
      modifies this, pool.bits
      ensures Shape() && others == old(others) && View() == MallocRuns.Free(old(View()), b)
    {
      var a := arenas[b.page];
      if a.desc.Some? {
        ReleaseSmall(b, a.desc.value);
      } else {
        pool.SetMultiple(b.page, a.freeCnt, false);
        arenas := arenas - {b.page};
        live := live - {b};
      }
    }

    method ReleaseSmall(b: Block, d: nat)
      requires Valid() && b in live && b.page in arenas && b.page < pool.bitCnt
      requires arenas[b.page].desc == Some(d) && d < DESCS
      modifies this, pool.bits
      ensures Shape() && others == old(others) && View() == PutBack(old(View()), d, b)
    {
      hide InvBut, Inv, DropPage;
      ghost var h := View();
      ReturnInv(h, d, b, others);
      var a := arenas[b.page];
      live := live - {b};
      free := free[d := [b] + free[d]];
      arenas := arenas[b.page := a.(freeCnt := a.freeCnt + 1)];
      ghost var h1 := View();
      assert h1 == Return(h, d, b);
      if arenas[b.page].freeCnt >= PerArena(d) {
        ListsNoDup(h1, others, Some(b.page), d);
        DropInv(h1, d, b.page, others);
        assert arenas[b.page].freeCnt == PerArena(d);
        DropArena(d, b.page);
      }
    }

    // the blocks off their list, the page back to the pool
    method DropArena(d: nat, p: nat)
      requires Shape() && d < DESCS && NoDup(free[d]) && p < pool.bitCnt
      modifies this`free, this`arenas, pool.bits
      ensures Shape() && View() == Drop(old(View()), d, p)
    {
      DropBlocks(d, p);
      hide DropPage;
      pool.SetMultiple(p, 1, false);
      arenas := arenas - {p};
    }

    /** On failure the old block stays as it was; otherwise it makes way for the new one. */
    method Realloc(b: Option<Block>, size: nat) returns (r: Option<Block>)
      requires Valid() && (b.Some? ==> b.value in live)
      modifies this, pool.bits
      ensures Valid() && others == old(others)
      ensures size == 0 ==> r.None? && live == if b.Some? then old(live) - {b.value} else old(live)
      ensures size > 0 && r.None? ==> View() == old(View())
      ensures size > 0 ==> (r.None? <==> NoRoom(old(View()), size))
      ensures r.Some? ==> r.value !in old(live)
      ensures r.Some? ==> live == (if b.Some? then old(live) - {b.value} else old(live))[r.value := size]
    {
      hide InvBut;
      if size == 0 {
        Release(b);
        r := None;
      } else {
        r := Alloc(size);
        if b.Some? && r.Some? { Release(b); }
      }
    }
  }
}
