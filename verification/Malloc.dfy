/** The block allocator (`malloc.c`) over the page allocator (`palloc.c`). A block pointer is
    the page its arena starts on and its index in that arena; Address gives the number. */
module Malloc {
  import opened Queues
  import opened Bitmaps

  const PAGE := 4096
  // sizeof (struct arena)
  const HEADER := 12
  const DESCS := 7

  // What `malloc_init` sets up: 16, 32, ..., 1024 bytes.
  function BlockSize(d: nat): (r: nat)
    requires d < DESCS
    ensures 16 <= r <= 1024
  {
    [16, 32, 64, 128, 256, 512, 1024][d]
  }

  function PerArena(d: nat): (r: nat)
    requires d < DESCS
    ensures r >= 3 && HEADER + r * BlockSize(d) <= PAGE
  {
    (PAGE - HEADER) / BlockSize(d)
  }

  /** An arena has as many blocks as fit its page. */
  lemma PerArenaMost(d: nat)
    requires d < DESCS
    ensures PAGE < HEADER + (PerArena(d) + 1) * BlockSize(d)
  {
    assert d == 0 || d == 1 || d == 2 || d == 3 || d == 4 || d == 5 || d == 6;
  }

  // The smallest descriptor whose blocks are big enough.
  function DescFor(size: nat, d: nat := 0): (r: Option<nat>)
    requires d <= DESCS
    ensures r.Some? ==> d <= r.value < DESCS && BlockSize(r.value) >= size
    ensures forall e :: d <= e < DESCS && (r.None? || e < r.value) ==> BlockSize(e) < size
    decreases DESCS - d
  {
    if d == DESCS then None else if BlockSize(d) >= size then Some(d) else DescFor(size, d + 1)
  }

  // `desc` is null for a big block, whose `free_cnt` is its number of pages.
  datatype Arena = Arena(desc: Option<nat>, freeCnt: nat)

  datatype Block = Block(page: nat, idx: nat)

  /** used is the pool's page bitmap; live, the blocks handed out and not freed, with the sizes
      they were requested for. */
  datatype Heap = Heap(used: seq<bool>, arenas: map<nat, Arena>, free: seq<seq<Block>>, live: map<Block, nat>)

  function Initial(used: seq<bool>): Heap { Heap(used, map[], seq(DESCS, _ => []), map[]) }

  // ---- the operations ----

  function BlocksOf(p: nat, n: nat): (r: seq<Block>) { seq(n, i requires 0 <= i < n => Block(p, i)) }

  // The pages for a block of this size with its header.
  function PagesFor(size: nat): (r: nat)
    ensures r >= 1 && PAGE * (r - 1) < size + HEADER <= PAGE * r
  {
    (size + HEADER + PAGE - 1) / PAGE
  }

  // A new arena for descriptor d on page p: all its blocks go on the free list.
  function AddArena(h: Heap, d: nat, p: nat): Heap
    requires d < DESCS && |h.free| == DESCS && p < |h.used|
  {
    h.(used := Fill(h.used, p, 1, true), arenas := h.arenas[p := Arena(Some(d), PerArena(d))],
       free := h.free[d := h.free[d] + BlocksOf(p, PerArena(d))])
  }

  // The front block of the free list is handed out.
  function Take(h: Heap, d: nat, size: nat): Heap
    requires d < DESCS && |h.free| == DESCS && h.free[d] != [] && h.free[d][0].page in h.arenas
  {
    var b := h.free[d][0];
    var a := h.arenas[b.page];
    h.(arenas := h.arenas[b.page := a.(freeCnt := if a.freeCnt == 0 then 0 else a.freeCnt - 1)],
       free := h.free[d := h.free[d][1..]], live := h.live[b := size])
  }

  function TakeBig(h: Heap, p: nat, size: nat): Heap
    requires p + PagesFor(size) <= |h.used|
  {
    h.(used := Fill(h.used, p, PagesFor(size), true), arenas := h.arenas[p := Arena(None, PagesFor(size))],
       live := h.live[Block(p, 0) := size])
  }

  // The free list without the first n blocks of page p.
  function DropPage(s: seq<Block>, p: nat, n: nat): seq<Block> {
    if s == [] then [] else (if s[0].page == p && s[0].idx < n then [] else [s[0]]) + DropPage(s[1..], p, n)
  }

  // A small block back at the front of its list, its arena perhaps without live blocks now.
  function Return(h: Heap, d: nat, b: Block): Heap
    requires d < DESCS && |h.free| == DESCS && b.page in h.arenas
  {
    Heap(h.used, h.arenas[b.page := h.arenas[b.page].(freeCnt := h.arenas[b.page].freeCnt + 1)],
         h.free[d := [b] + h.free[d]], h.live - {b})
  }

  // An arena without live blocks goes, and with it its blocks on the list.
  function Drop(h: Heap, d: nat, p: nat): Heap
    requires d < DESCS && |h.free| == DESCS && p < |h.used|
  {
    Heap(Fill(h.used, p, 1, false), h.arenas - {p}, h.free[d := DropPage(h.free[d], p, PerArena(d))], h.live)
  }

  // `free` of a small block
  function PutBack(h: Heap, d: nat, b: Block): Heap
    requires d < DESCS && |h.free| == DESCS && b.page in h.arenas && b.page < |h.used|
  {
    var h' := Return(h, d, b);
    if h'.arenas[b.page].freeCnt >= PerArena(d) then Drop(h', d, b.page) else h'
  }

  function PutBackBig(h: Heap, b: Block): Heap
    requires b.page in h.arenas && b.page + h.arenas[b.page].freeCnt <= |h.used|
  {
    Heap(Fill(h.used, b.page, h.arenas[b.page].freeCnt, false), h.arenas - {b.page}, h.free, h.live - {b})
  }

  // ---- the invariant ----

  // The blocks of an arena.
  ghost function All(p: nat, n: nat): set<Block> { set i | 0 <= i < n :: Block(p, i) }

  ghost function FreeIn(h: Heap, p: nat, n: nat): set<Block> { set b | b in All(p, n) && b !in h.live }

  function Extent(a: Arena): nat { if a.desc.Some? then 1 else a.freeCnt }

  // The arena on page p holds page i.
  ghost predicate Holds(h: Heap, p: nat, i: nat) { p in h.arenas && p <= i < p + Extent(h.arenas[p]) }

  // full allows an arena without live blocks, as there is in the middle of an operation.
  ghost predicate ArenaOk(h: Heap, p: nat, full: bool)
    requires p in h.arenas
  {
    var a := h.arenas[p];
    match a.desc
    case Some(d) => d < DESCS && a.freeCnt == |FreeIn(h, p, PerArena(d))| && (full || a.freeCnt < PerArena(d))
    case None => a.freeCnt >= 1 && Block(p, 0) in h.live && HEADER + h.live[Block(p, 0)] <= PAGE * a.freeCnt
  }

  ghost predicate ListOk(h: Heap, d: nat)
    requires d < DESCS && |h.free| == DESCS
  {
    && NoDup(h.free[d])
    && forall b :: b in h.free[d] <==>
         b.page in h.arenas && h.arenas[b.page].desc == Some(d) && b.idx < PerArena(d) && b !in h.live
  }

  ghost predicate LiveOk(h: Heap, b: Block)
    requires b in h.live
  {
    && b.page in h.arenas && h.live[b] > 0
    && match h.arenas[b.page].desc
       case Some(d) => d < DESCS && b.idx < PerArena(d) && h.live[b] <= BlockSize(d)
       case None => b.idx == 0
  }

  /** others are the pages of the pool that the block allocator does not hold. */
  ghost predicate PagesOk(h: Heap, others: set<nat>) {
    && (forall p: nat, i: nat :: Holds(h, p, i) ==> i < |h.used| && h.used[i] && i !in others)
    && (forall p: nat, q: nat, i: nat :: Holds(h, p, i) && Holds(h, q, i) ==> p == q)
    && (forall i :: 0 <= i < |h.used| && h.used[i] && i !in others ==> exists p :: Holds(h, p, i))
    && (forall i :: i in others ==> i < |h.used| && h.used[i])
  }

  // The invariant, but for the arena on page x, which may be without live blocks.
  ghost predicate InvBut(h: Heap, others: set<nat>, x: Option<nat>) {
    && |h.free| == DESCS
    && (forall p :: p in h.arenas ==> ArenaOk(h, p, x == Some(p)))
    && (forall d :: 0 <= d < DESCS ==> ListOk(h, d))
    && (forall b :: b in h.live ==> LiveOk(h, b))
    && PagesOk(h, others)
  }

  ghost predicate Inv(h: Heap, others: set<nat>) { InvBut(h, others, None) }

  // ---- counting ----

  lemma {:induction false} AllCount(p: nat, n: nat)
    ensures |All(p, n)| == n
  {
    if n == 0 {
      assert All(p, 0) == {};
    } else {
      AllCount(p, n - 1);
      assert All(p, n) == All(p, n - 1) + {Block(p, n - 1)};
    }
  }

  lemma FreeInBound(h: Heap, p: nat, n: nat)
    ensures FreeIn(h, p, n) <= All(p, n) && |FreeIn(h, p, n)| <= n
    ensures |FreeIn(h, p, n)| == n ==> FreeIn(h, p, n) == All(p, n)
  {
    AllCount(p, n);
    SubsetCount(FreeIn(h, p, n), All(p, n));
  }

  // The free blocks of an arena whose blocks keep their state.
  lemma SameFreeIn(h: Heap, h': Heap, p: nat, n: nat)
    requires forall b :: b in All(p, n) ==> (b in h'.live <==> b in h.live)
    ensures FreeIn(h', p, n) == FreeIn(h, p, n)
  {
  }

  lemma SameArena(h: Heap, h': Heap, p: nat, full: bool)
    requires p in h.arenas && p in h'.arenas && h'.arenas[p] == h.arenas[p] && ArenaOk(h, p, full)
    requires forall b: Block :: b.page == p ==> (b in h'.live <==> b in h.live) && (b in h.live ==> h'.live[b] == h.live[b])
    ensures ArenaOk(h', p, full)
  {
    if h.arenas[p].desc.Some? { SameFreeIn(h, h', p, PerArena(h.arenas[p].desc.value)); }
  }

  lemma SamePages(h: Heap, h': Heap, others: set<nat>)
    requires PagesOk(h, others) && h'.used == h.used && h'.arenas.Keys == h.arenas.Keys
    requires forall p :: p in h.arenas ==> Extent(h'.arenas[p]) == Extent(h.arenas[p])
    ensures PagesOk(h', others)
  {
    forall p: nat, i: nat ensures Holds(h', p, i) <==> Holds(h, p, i) {
      assert p in h'.arenas.Keys <==> p in h.arenas.Keys;
    }
    forall i: nat | 0 <= i < |h'.used| && h'.used[i] && i !in others ensures exists p :: Holds(h', p, i) {
      var p :| Holds(h, p, i);
      assert Holds(h', p, i);
    }
  }

  // ---- malloc ----

  lemma TakeList(h: Heap, d: nat, size: nat, others: set<nat>, x: Option<nat>, e: nat)
    requires InvBut(h, others, x) && d < DESCS && h.free[d] != [] && h.free[d][0].page in h.arenas && e < DESCS
    ensures ListOk(Take(h, d, size), e)
  {
    var h' := Take(h, d, size);
    var b := h.free[d][0];
    assert ListOk(h, e) && ListOk(h, d) && b in h.free[d];
    if e == d {
      CutNoDup(h.free[d], 0);
      assert h.free[d][..0] + h.free[d][1..] == h.free[d][1..];
    }
  }

  // The front block is free and counted in its arena, which has one free block less without it.
  lemma TakeFront(h: Heap, d: nat, size: nat, others: set<nat>, x: Option<nat>)
    requires InvBut(h, others, x) && d < DESCS && h.free[d] != [] && 0 < size <= BlockSize(d)
    requires x.Some? ==> h.free[d][0].page == x.value
    ensures var b := h.free[d][0];
            b.page in h.arenas && b !in h.live && h.arenas[b.page].freeCnt >= 1 && ArenaOk(Take(h, d, size), b.page, false)
            && LiveOk(Take(h, d, size), b) && h.arenas[b.page].desc == Some(d)
  {
    hide PagesOk, BlockSize;
    var b := h.free[d][0];
    assert ListOk(h, d) && b in h.free[d];
    var h' := Take(h, d, size);
    var n := PerArena(d);
    assert ArenaOk(h, b.page, x == Some(b.page));
    assert b in FreeIn(h, b.page, n) && FreeIn(h', b.page, n) == FreeIn(h, b.page, n) - {b};
    FreeInBound(h, b.page, n);
  }

  lemma TakeInv(h: Heap, d: nat, size: nat, others: set<nat>, x: Option<nat>)
    requires InvBut(h, others, x) && d < DESCS && h.free[d] != [] && 0 < size <= BlockSize(d)
    requires x.Some? ==> h.free[d][0].page == x.value
    ensures h.free[d][0].page in h.arenas && h.free[d][0] !in h.live && h.arenas[h.free[d][0].page].freeCnt >= 1
    ensures Inv(Take(h, d, size), others)
  {
    hide ArenaOk, ListOk, LiveOk, FreeIn, PerArena, BlockSize, PagesOk, Take;
    TakeFront(h, d, size, others, x);
    var b, h' := h.free[d][0], Take(h, d, size);
    TakeSame(h, d, size);
    TakeArenas(h, d, size, x);
    forall e | 0 <= e < DESCS ensures ListOk(h', e) { TakeList(h, d, size, others, x, e); }
    forall c | c in h'.live ensures LiveOk(h', c) { if c != b { SameLive(h, h', c); } }
    SamePages(h, h', others);
  }

  lemma TakeSame(h: Heap, d: nat, size: nat)
    requires d < DESCS && |h.free| == DESCS && h.free[d] != [] && h.free[d][0].page in h.arenas
    requires h.arenas[h.free[d][0].page].desc.Some?
    ensures var h' := Take(h, d, size);
            && h'.used == h.used && |h'.free| == DESCS && h'.live == h.live[h.free[d][0] := size]
            && h'.arenas.Keys == h.arenas.Keys
            && (forall p :: p in h.arenas ==> h'.arenas[p].desc == h.arenas[p].desc)
            && (forall p :: p in h.arenas ==> Extent(h'.arenas[p]) == Extent(h.arenas[p]))
  {
  }

  // Only the front block's arena has one free block less.
  lemma TakeArenas(h: Heap, d: nat, size: nat, x: Option<nat>)
    requires d < DESCS && |h.free| == DESCS && h.free[d] != [] && h.free[d][0].page in h.arenas
    requires (forall p :: p in h.arenas ==> ArenaOk(h, p, x == Some(p))) && (x.Some? ==> h.free[d][0].page == x.value)
    requires ArenaOk(Take(h, d, size), h.free[d][0].page, false)
    ensures forall p :: p in Take(h, d, size).arenas ==> ArenaOk(Take(h, d, size), p, false)
  {
    hide ArenaOk, FreeIn, PerArena, BlockSize;
    var b, h' := h.free[d][0], Take(h, d, size);
    forall p | p in h'.arenas ensures ArenaOk(h', p, false) {
      if p != b.page { SameArena(h, h', p, x == Some(p)); }
    }
  }

  lemma SameLive(h: Heap, h': Heap, c: Block)
    requires c in h.live && LiveOk(h, c) && c in h'.live && h'.live[c] == h.live[c]
    requires h'.arenas.Keys == h.arenas.Keys && forall p :: p in h.arenas ==> h'.arenas[p].desc == h.arenas[p].desc
    requires forall p :: p in h.arenas ==> Extent(h'.arenas[p]) == Extent(h.arenas[p])
    ensures LiveOk(h', c)
  {
  }

  // Taking free pages for a new arena keeps the accounts of pages.
  lemma NewPages(h: Heap, h': Heap, others: set<nat>, p: nat, cnt: nat)
    requires PagesOk(h, others) && cnt >= 1 && AllAre(h.used, p, cnt, false) && h'.used == Fill(h.used, p, cnt, true)
    requires p in h'.arenas && h'.arenas == h.arenas[p := h'.arenas[p]] && Extent(h'.arenas[p]) == cnt
    requires forall q :: q in h.arenas ==> Extent(h.arenas[q]) >= 1
    ensures p !in h.arenas && PagesOk(h', others)
  {
    if p in h.arenas { assert Holds(h, p, p); }
    forall q: nat, i: nat
      ensures Holds(h', q, i) <==> Holds(h, q, i) || (q == p && p <= i < p + cnt)
    {
    }
    forall i: nat | 0 <= i < |h'.used| && h'.used[i] && i !in others ensures exists q :: Holds(h', q, i) {
      if p <= i < p + cnt {
        assert Holds(h', p, i);
      } else {
        var q :| Holds(h, q, i);
        assert Holds(h', q, i);
      }
    }
  }

  lemma ExtentsPositive(h: Heap, others: set<nat>, x: Option<nat>)
    requires InvBut(h, others, x)
    ensures forall q :: q in h.arenas ==> Extent(h.arenas[q]) >= 1
  {
    forall q | q in h.arenas ensures Extent(h.arenas[q]) >= 1 { assert ArenaOk(h, q, x == Some(q)); }
  }

  lemma NoLiveBlocks(h: Heap, others: set<nat>, p: nat, b: Block)
    requires Inv(h, others) && p !in h.arenas && b.page == p
    ensures b !in h.live
  {
    assert b in h.live ==> LiveOk(h, b);
  }

  lemma AddArenaList(h: Heap, d: nat, p: nat, others: set<nat>, e: nat)
    requires Inv(h, others) && d < DESCS && h.free[d] == [] && p < |h.used| && p !in h.arenas && e < DESCS
    ensures ListOk(AddArena(h, d, p), e)
  {
    var h' := AddArena(h, d, p);
    assert ListOk(h, e) && ListOk(h, d);
    var bs := BlocksOf(p, PerArena(d));
    assert h'.free[d] == bs;
    forall b ensures b in h'.free[e] <==>
      b.page in h'.arenas && h'.arenas[b.page].desc == Some(e) && b.idx < PerArena(e) && b !in h'.live
    {
      if b.page == p {
        NoLiveBlocks(h, others, p, b);
        if e == d && b.idx < PerArena(d) { assert bs[b.idx] == b; }
      }
    }
  }

  lemma AddArenaInv(h: Heap, d: nat, p: nat, others: set<nat>)
    requires Inv(h, others) && d < DESCS && h.free[d] == [] && AllAre(h.used, p, 1, false)
    ensures InvBut(AddArena(h, d, p), others, Some(p)) && AddArena(h, d, p).free[d][0] == Block(p, 0)
  {
    var h' := AddArena(h, d, p);
    ExtentsPositive(h, others, None);
    NewPages(h, h', others, p, 1);
    forall q | q in h'.arenas ensures ArenaOk(h', q, q == p) {
      if q == p {
        forall b | b in All(p, PerArena(d)) ensures b !in h'.live { NoLiveBlocks(h, others, p, b); }
        assert FreeIn(h', p, PerArena(d)) == All(p, PerArena(d));
        AllCount(p, PerArena(d));
      } else {
        assert ArenaOk(h, q, false);
        SameArena(h, h', q, false);
      }
    }
    forall e | 0 <= e < DESCS ensures ListOk(h', e) { AddArenaList(h, d, p, others, e); }
    forall b | b in h'.live ensures LiveOk(h', b) { assert LiveOk(h, b); }
  }

  lemma TakeBigInv(h: Heap, p: nat, size: nat, others: set<nat>)
    requires Inv(h, others) && size > 0 && AllAre(h.used, p, PagesFor(size), false)
    ensures p !in h.arenas && Inv(TakeBig(h, p, size), others)
  {
    var h' := TakeBig(h, p, size);
    ExtentsPositive(h, others, None);
    NewPages(h, h', others, p, PagesFor(size));
    forall q | q in h'.arenas && q != p ensures ArenaOk(h', q, false) {
      assert ArenaOk(h, q, false);
      SameArena(h, h', q, false);
    }
    forall e | 0 <= e < DESCS ensures ListOk(h', e) { assert ListOk(h, e); }
    forall b | b in h'.live ensures LiveOk(h', b) { if b != Block(p, 0) { assert LiveOk(h, b); } }
  }

  // ---- free ----

  lemma ReturnList(h: Heap, d: nat, b: Block, others: set<nat>, e: nat)
    requires Inv(h, others) && b in h.live && b.page in h.arenas && h.arenas[b.page].desc == Some(d) && d < DESCS
    requires e < DESCS
    ensures ListOk(Return(h, d, b), e)
  {
    assert ListOk(h, e) && LiveOk(h, b);
    if e == d {
      PasteNoDup(h.free[d], 0, b);
      assert h.free[d][..0] + [b] + h.free[d][0..] == [b] + h.free[d];
    }
  }

  lemma ReturnInv(h: Heap, d: nat, b: Block, others: set<nat>)
    requires Inv(h, others) && b in h.live && b.page in h.arenas && h.arenas[b.page].desc == Some(d) && d < DESCS
    ensures InvBut(Return(h, d, b), others, Some(b.page))
  {
    var h' := Return(h, d, b);
    var n := PerArena(d);
    assert LiveOk(h, b) && ArenaOk(h, b.page, false);
    assert FreeIn(h', b.page, n) == FreeIn(h, b.page, n) + {b};
    forall p | p in h'.arenas ensures ArenaOk(h', p, p == b.page) {
      if p != b.page {
        assert ArenaOk(h, p, false);
        SameArena(h, h', p, false);
      }
    }
    forall e | 0 <= e < DESCS ensures ListOk(h', e) { ReturnList(h, d, b, others, e); }
    forall c | c in h'.live ensures LiveOk(h', c) { assert LiveOk(h, c); }
    SamePages(h, h', others);
  }

  lemma {:induction false} DropPageIn(s: seq<Block>, p: nat, n: nat, b: Block)
    ensures b in DropPage(s, p, n) <==> b in s && !(b.page == p && b.idx < n)
  {
    if s != [] {
      DropPageIn(s[1..], p, n, b);
      assert s == [s[0]] + s[1..];
    }
  }

  lemma {:induction false} DropPageNoDup(s: seq<Block>, p: nat, n: nat)
    requires NoDup(s)
    ensures NoDup(DropPage(s, p, n))
  {
    if s != [] {
      DropPageNoDup(s[1..], p, n);
      DropPageIn(s[1..], p, n, s[0]);
      assert s[0] !in s[1..];
    }
  }

  // Taking the blocks of a page off the list one by one.
  lemma {:induction false} DropPageStep(s: seq<Block>, p: nat, n: nat)
    requires NoDup(s)
    ensures DropPage(s, p, n + 1) == Remove(DropPage(s, p, n), Block(p, n))
  {
    if s != [] {
      var r := DropPage(s[1..], p, n);
      DropPageStep(s[1..], p, n);
      if s[0] == Block(p, n) {
        DropPageNone(s[1..], p, n);
        assert ([s[0]] + r)[1..] == r;
      } else if s[0].page == p && s[0].idx < n {
        assert DropPage(s, p, n) == r && DropPage(s, p, n + 1) == DropPage(s[1..], p, n + 1);
      } else {
        assert ([s[0]] + r)[1..] == r;
      }
    }
  }

  lemma {:induction false} DropPageNone(s: seq<Block>, p: nat, n: nat)
    requires Block(p, n) !in s
    ensures DropPage(s, p, n + 1) == DropPage(s, p, n)
  {
    if s != [] {
      assert s[0] in s && forall b :: b in s[1..] ==> b in s;
      DropPageNone(s[1..], p, n);
    }
  }

  lemma {:induction false} DropPageZero(s: seq<Block>, p: nat)
    ensures DropPage(s, p, 0) == s
  {
    if s != [] { DropPageZero(s[1..], p); }
  }

  // Giving the pages of an arena back keeps the accounts of pages.
  lemma OldPages(h: Heap, h': Heap, others: set<nat>, p: nat)
    requires PagesOk(h, others) && p in h.arenas && p + Extent(h.arenas[p]) <= |h.used|
    requires h'.used == Fill(h.used, p, Extent(h.arenas[p]), false) && h'.arenas == h.arenas - {p}
    ensures PagesOk(h', others)
  {
    var cnt := Extent(h.arenas[p]);
    forall q: nat, i: nat ensures Holds(h', q, i) <==> Holds(h, q, i) && q != p {}
    forall i: nat | p <= i < p + cnt ensures i !in others && forall q: nat :: !Holds(h', q, i) { assert Holds(h, p, i); }
    forall i: nat | 0 <= i < |h'.used| && h'.used[i] && i !in others ensures exists q :: Holds(h', q, i) {
      var q :| Holds(h, q, i);
      assert Holds(h', q, i);
    }
  }

  lemma DropInv(h: Heap, d: nat, p: nat, others: set<nat>)
    requires InvBut(h, others, Some(p)) && d < DESCS && p in h.arenas && h.arenas[p].desc == Some(d)
    requires h.arenas[p].freeCnt >= PerArena(d)
    ensures h.arenas[p].freeCnt == PerArena(d) && p < |h.used| && Inv(Drop(h, d, p), others)
  {
    var n := PerArena(d);
    assert ArenaOk(h, p, true) && Holds(h, p, p);
    FreeInBound(h, p, n);
    var h' := Drop(h, d, p);
    OldPages(h, h', others, p);
    forall b: Block | b.page == p ensures b !in h.live {
      assert b in h.live ==> LiveOk(h, b);
      assert b.idx < n ==> b in All(p, n);
    }
    forall q | q in h'.arenas ensures ArenaOk(h', q, false) {
      assert ArenaOk(h, q, false);
      SameArena(h, h', q, false);
    }
    forall e | 0 <= e < DESCS ensures ListOk(h', e) {
      assert ListOk(h, e);
      if e == d {
        forall b ensures b in h'.free[d] <==> b in h.free[d] && !(b.page == p && b.idx < n) { DropPageIn(h.free[d], p, n, b); }
        DropPageNoDup(h.free[d], p, n);
      }
    }
    forall b | b in h'.live ensures LiveOk(h', b) { assert LiveOk(h, b); }
  }

  lemma PutBackBigInv(h: Heap, b: Block, others: set<nat>)
    requires Inv(h, others) && b in h.live && b.page in h.arenas && h.arenas[b.page].desc.None?
    ensures b.page + h.arenas[b.page].freeCnt <= |h.used| && AllAre(h.used, b.page, h.arenas[b.page].freeCnt, true)
    ensures Inv(PutBackBig(h, b), others)
  {
    var p := b.page;
    var cnt := h.arenas[p].freeCnt;
    assert ArenaOk(h, p, false) && Holds(h, p, p + cnt - 1);
    forall i: nat | p <= i < p + cnt ensures h.used[i] { assert Holds(h, p, i); }
    var h' := PutBackBig(h, b);
    OldPages(h, h', others, p);
    hide PagesOk, PerArena, BlockSize;
    forall c | c in h'.live ensures LiveOk(h', c) { assert LiveOk(h, c) && LiveOk(h, b); }
    forall q | q in h'.arenas ensures ArenaOk(h', q, false) {
      assert ArenaOk(h, q, false);
      SameArena(h, h', q, false);
    }
    forall e | 0 <= e < DESCS ensures ListOk(h', e) { assert ListOk(h, e); }
  }
}
