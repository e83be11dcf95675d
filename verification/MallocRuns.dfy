/** Sequences of `malloc` and `free`, with the rest of the kernel getting and freeing pages in
    between, and what they mean in bytes of memory. */
module MallocRuns {
  import opened Queues
  import opened Bits
  import opened Bitmaps
  import opened Malloc

  // ---- whole operations ----

  ghost predicate MallocStep(h: Heap, size: nat, h': Heap, r: Option<Block>)
    requires |h.free| == DESCS
  {
    if size == 0 then
      h' == h && r == None
    else
      match DescFor(size)
      case None =>
        exists f :: FirstFit(h.used, 0, PagesFor(size), false, f) &&
          if f.None? then h' == h && r == None else h' == TakeBig(h, f.value, size) && r == Some(Block(f.value, 0))
      case Some(d) =>
        if h.free[d] != [] then
          h.free[d][0].page in h.arenas && h' == Take(h, d, size) && r == Some(h.free[d][0])
        else
          exists f :: FirstFit(h.used, 0, 1, false, f) &&
            if f.None? then h' == h && r == None else
              var h1 := AddArena(h, d, f.value);
              Block(f.value, 0) == h1.free[d][0] && h' == Take(h1, d, size) && r == Some(Block(f.value, 0))
  }

  function Free(h: Heap, b: Block): Heap
    requires |h.free| == DESCS && b.page in h.arenas && b.page + Extent(h.arenas[b.page]) <= |h.used|
    requires h.arenas[b.page].desc.Some? ==> h.arenas[b.page].desc.value < DESCS
  {
    if h.arenas[b.page].desc.Some? then
      if b.page < |h.used| then PutBack(h, h.arenas[b.page].desc.value, b) else h
    else
      PutBackBig(h, b)
  }

  /** `malloc` hands out a block that was not live, or nothing and then changes nothing. */
  lemma MallocKeeps(h: Heap, size: nat, h': Heap, r: Option<Block>, others: set<nat>)
    requires Inv(h, others) && MallocStep(h, size, h', r)
    ensures Inv(h', others)
    ensures if r.Some? then r.value !in h.live && h'.live == h.live[r.value := size] else h' == h
  {
    if size > 0 {
      var df := DescFor(size);
      if df.None? {
        var f :| FirstFit(h.used, 0, PagesFor(size), false, f) &&
          if f.None? then h' == h && r == None else h' == TakeBig(h, f.value, size) && r == Some(Block(f.value, 0));
        if f.Some? {
          TakeBigInv(h, f.value, size, others);
          NoLiveBlocks(h, others, f.value, Block(f.value, 0));
        }
      } else {
        SmallKeeps(h, df.value, size, h', r, others);
      }
    }
  }

  // ---- when and where ----

  // d is the smallest descriptor whose blocks have size bytes.
  ghost predicate Smallest(d: nat, size: nat) {
    d < DESCS && size <= BlockSize(d) && forall e :: 0 <= e < d ==> BlockSize(e) < size
  }

  /** There is nothing for size bytes: no free block of the smallest size that will do and every page
      taken; or, if no block size will do, no free run of pages for size bytes and a header. */
  ghost predicate NoRoom(h: Heap, size: nat)
    requires |h.free| == DESCS
  {
    if exists d: nat :: Smallest(d, size) then
      exists d: nat :: Smallest(d, size) && h.free[d] == [] && forall i :: 0 <= i < |h.used| ==> h.used[i]
    else
      forall p: nat, cnt: nat :: size + 12 <= 4096 * cnt ==> !AllAre(h.used, p, cnt, false)
  }

  lemma SmallestIs(d: nat, size: nat)
    requires Smallest(d, size)
    ensures DescFor(size) == Some(d)
  {
    var f := DescFor(size);
    assert !(f.None? || d < f.value) && !(f.value < d);
  }

  lemma NoneSmallest(size: nat)
    ensures DescFor(size).None? <==> !exists d: nat :: Smallest(d, size)
  {
    var f := DescFor(size);
    if f.Some? { assert Smallest(f.value, size); }
    forall d | Smallest(d, size) ensures f.Some? { SmallestIs(d, size); }
  }

  // A run of more pages than needed has one of as many as needed at its front.
  lemma PagesRoom(used: seq<bool>, size: nat)
    ensures (forall p: nat :: !AllAre(used, p, PagesFor(size), false)) <==>
              forall p: nat, cnt: nat :: size + 12 <= 4096 * cnt ==> !AllAre(used, p, cnt, false)
  {
    var n := PagesFor(size);
    assert size + 12 <= 4096 * n;
    forall p: nat, cnt: nat | size + 12 <= 4096 * cnt && AllAre(used, p, cnt, false) ensures AllAre(used, p, n, false) {
      assert n <= cnt;
    }
  }

  lemma NoPageIff(used: seq<bool>)
    ensures (forall p: nat :: !AllAre(used, p, 1, false)) <==> forall i :: 0 <= i < |used| ==> used[i]
  {
    forall i: nat | i < |used| && !used[i] ensures AllAre(used, i, 1, false) {}
    if forall i :: 0 <= i < |used| ==> used[i] {
      forall p: nat ensures !AllAre(used, p, 1, false) { if p < |used| { assert used[p]; } }
    }
  }

  /** `malloc` gives null for a request of zero bytes and where there is no room, and never else. */
  lemma MallocFailsIff(h: Heap, size: nat, h': Heap, r: Option<Block>)
    requires |h.free| == DESCS && MallocStep(h, size, h', r)
    ensures r.None? <==> size == 0 || NoRoom(h, size)
  {
    if size > 0 {
      NoneSmallest(size);
      match DescFor(size)
      case None => PagesRoom(h.used, size);
      case Some(d) =>
        assert Smallest(d, size);
        forall e | Smallest(e, size) ensures e == d { SmallestIs(e, size); }
        NoPageIff(h.used);
    }
  }

  // The lowest place where cnt pages in a row are free.
  ghost predicate Lowest(used: seq<bool>, p: nat, cnt: nat) {
    AllAre(used, p, cnt, false) && forall q: nat :: q < p ==> !AllAre(used, q, cnt, false)
  }

  /** Which block it is: the one at the front of the free list; else the first one of the lowest free
      page; and for a big request the lowest run of as many pages as it takes. */
  lemma MallocWhere(h: Heap, size: nat, h': Heap, r: Option<Block>)
    requires |h.free| == DESCS && MallocStep(h, size, h', r) && r.Some?
    ensures if exists d: nat :: Smallest(d, size) then
              exists d: nat :: Smallest(d, size) && if h.free[d] != [] then r.value == h.free[d][0]
                                               else r.value.idx == 0 && Lowest(h.used, r.value.page, 1)
            else
              r.value.idx == 0 && exists cnt :: 4096 * (cnt - 1) < size + 12 <= 4096 * cnt && Lowest(h.used, r.value.page, cnt)
  {
    NoneSmallest(size);
    if DescFor(size).Some? {
      assert Smallest(DescFor(size).value, size);
    } else {
      assert 4096 * (PagesFor(size) - 1) < size + 12 <= 4096 * PagesFor(size) && Lowest(h.used, r.value.page, PagesFor(size));
    }
  }

  /** A small block that is freed is the next one to be handed out, unless it was the last live one of
      its arena, whose page then goes back. */
  lemma FreedIsNext(h: Heap, b: Block, size: nat, h': Heap, r: Option<Block>, others: set<nat>)
    requires Inv(h, others) && b in h.live && b.page in h.arenas && h.arenas[b.page].desc.Some?
    requires b.page + Extent(h.arenas[b.page]) <= |h.used| && h.arenas[b.page].desc.value < DESCS
    requires (exists c :: c in h.live && c != b && c.page == b.page) && Smallest(h.arenas[b.page].desc.value, size) && size > 0
    requires MallocStep(Free(h, b), size, h', r)
    ensures r == Some(b)
  {
    var d := h.arenas[b.page].desc.value;
    SmallestIs(d, size);
    assert ArenaOk(h, b.page, false) && LiveOk(h, b);
    var c :| c in h.live && c != b && c.page == b.page;
    assert LiveOk(h, c);
    KeptArena(h, b, c, d);
  }

  // With another live block the arena is not full after the free.
  lemma KeptArena(h: Heap, b: Block, c: Block, d: nat)
    requires b.page in h.arenas && h.arenas[b.page].desc == Some(d) && d < DESCS && ArenaOk(h, b.page, false)
    requires b in h.live && c in h.live && c != b && c.page == b.page && c.idx < PerArena(d) && b.idx < PerArena(d)
    ensures h.arenas[b.page].freeCnt + 1 < PerArena(d)
  {
    var n := PerArena(d);
    var a, f := All(b.page, n), FreeIn(h, b.page, n);
    assert b in a && c in a && f <= a - {b, c};
    AllCount(b.page, n);
    SubsetCount(f, a - {b, c});
    assert |a - {b, c}| == |a| - 2;
  }

  lemma SmallKeeps(h: Heap, d: nat, size: nat, h': Heap, r: Option<Block>, others: set<nat>)
    requires Inv(h, others) && MallocStep(h, size, h', r) && size > 0 && DescFor(size) == Some(d)
    ensures Inv(h', others)
    ensures if r.Some? then r.value !in h.live && h'.live == h.live[r.value := size] else h' == h
  {
    if h.free[d] != [] {
      TakeInv(h, d, size, others, None);
    } else {
      var f :| FirstFit(h.used, 0, 1, false, f) &&
            if f.None? then h' == h && r == None else
              var h1 := AddArena(h, d, f.value);
              Block(f.value, 0) == h1.free[d][0] && h' == Take(h1, d, size) && r == Some(Block(f.value, 0));
      if f.Some? {
        AddArenaInv(h, d, f.value, others);
        TakeInv(AddArena(h, d, f.value), d, size, others, Some(f.value));
      }
    }
  }

  /** `free` of a live block takes exactly that block out. */
  lemma FreeKeeps(h: Heap, b: Block, others: set<nat>)
    requires Inv(h, others) && b in h.live
    ensures b.page in h.arenas && b.page + Extent(h.arenas[b.page]) <= |h.used|
    ensures h.arenas[b.page].desc.Some? ==> h.arenas[b.page].desc.value < DESCS
    ensures Inv(Free(h, b), others) && Free(h, b).live == h.live - {b}
  {
    assert LiveOk(h, b) && ArenaOk(h, b.page, false);
    if h.arenas[b.page].desc.Some? {
      assert Holds(h, b.page, b.page);
      FreeSmallKeeps(h, b, h.arenas[b.page].desc.value, others);
    } else {
      PutBackBigInv(h, b, others);
    }
  }

  lemma FreeSmallKeeps(h: Heap, b: Block, d: nat, others: set<nat>)
    requires Inv(h, others) && b in h.live && b.page in h.arenas && h.arenas[b.page].desc == Some(d) && d < DESCS && b.page < |h.used|
    ensures Inv(PutBack(h, d, b), others) && PutBack(h, d, b).live == h.live - {b}
  {
    hide PerArena, BlockSize;
    ReturnInv(h, d, b, others);
    var h1 := Return(h, d, b);
    if h1.arenas[b.page].freeCnt >= PerArena(d) {
      DropInv(h1, d, b.page, others);
    } else {
      forall p | p in h1.arenas ensures ArenaOk(h1, p, false) { assert ArenaOk(h1, p, Some(b.page) == Some(p)); }
    }
  }

  // ---- pages for the rest of the kernel ----

  predicate Within(i: nat, p: nat, cnt: nat) { p <= i < p + cnt }

  ghost function Pages(p: nat, cnt: nat): set<nat> { set i: nat | i < p + cnt && Within(i, p, cnt) }

  lemma GetPagesKeeps(h: Heap, p: nat, cnt: nat, others: set<nat>)
    requires Inv(h, others) && AllAre(h.used, p, cnt, false)
    ensures Pages(p, cnt) !! others
    ensures Inv(h.(used := Fill(h.used, p, cnt, true)), others + Pages(p, cnt))
  {
    var h' := h.(used := Fill(h.used, p, cnt, true));
    var others' := others + Pages(p, cnt);
    OtherPages(h, h', others, others');
    forall i: nat, q: nat | Holds(h', q, i) ensures i < |h'.used| && h'.used[i] && i !in others' { assert Holds(h, q, i); }
    forall i | 0 <= i < |h'.used| && h'.used[i] && i !in others' ensures exists q :: Holds(h', q, i) {
      var q :| Holds(h, q, i);
      assert Holds(h', q, i);
    }
  }

  lemma FreePagesKeeps(h: Heap, p: nat, cnt: nat, others: set<nat>)
    requires Inv(h, others) && p + cnt <= |h.used| && Pages(p, cnt) <= others
    ensures AllAre(h.used, p, cnt, true)
    ensures Inv(h.(used := Fill(h.used, p, cnt, false)), others - Pages(p, cnt))
  {
    var h' := h.(used := Fill(h.used, p, cnt, false));
    var others' := others - Pages(p, cnt);
    forall i | p <= i < p + cnt ensures h.used[i] { assert i in Pages(p, cnt); }
    OtherPages(h, h', others, others');
    forall i: nat, q: nat | Holds(h', q, i) ensures i < |h'.used| && h'.used[i] && i !in others' {
      assert Holds(h, q, i);
      assert i !in Pages(p, cnt);
    }
    forall i | 0 <= i < |h'.used| && h'.used[i] && i !in others' ensures exists q :: Holds(h', q, i) {
      assert i !in Pages(p, cnt);
      var q :| Holds(h, q, i);
      assert Holds(h', q, i);
    }
  }

  // All but the accounts of pages is independent of the bitmap.
  lemma OtherPages(h: Heap, h': Heap, others: set<nat>, others': set<nat>)
    requires Inv(h, others) && h' == h.(used := h'.used) && |h'.used| == |h.used|
    requires forall i :: i in others' ==> i < |h'.used| && h'.used[i]
    ensures forall p :: p in h'.arenas ==> ArenaOk(h', p, false)
    ensures forall d :: 0 <= d < DESCS ==> ListOk(h', d)
    ensures forall b :: b in h'.live ==> LiveOk(h', b)
    ensures forall p: nat, q: nat, i: nat :: Holds(h', p, i) && Holds(h', q, i) ==> p == q
  {
    forall p | p in h'.arenas ensures ArenaOk(h', p, false) { SameArena(h, h', p, false); }
    forall d | 0 <= d < DESCS ensures ListOk(h', d) { assert ListOk(h, d); }
    forall b | b in h'.live ensures LiveOk(h', b) { assert LiveOk(h, b); }
    forall p: nat, q: nat, i: nat | Holds(h', p, i) && Holds(h', q, i) ensures p == q {
      assert Holds(h, p, i) && Holds(h, q, i);
    }
  }

  // ---- bytes ----

  // A block of an arena, live or free.
  ghost predicate IsSlot(h: Heap, b: Block) {
    && b.page in h.arenas
    && match h.arenas[b.page].desc
       case Some(d) => d < DESCS && b.idx < PerArena(d)
       case None => b.idx == 0
  }

  // `arena_to_block`, and a + 1 for a big block
  function Address(h: Heap, b: Block): nat
    requires b.page in h.arenas && (h.arenas[b.page].desc.Some? ==> h.arenas[b.page].desc.value < DESCS)
  {
    PAGE * b.page + HEADER +
    match h.arenas[b.page].desc
    case Some(d) => b.idx * BlockSize(d)
    case None => 0
  }

  // `block_size`
  function Size(h: Heap, b: Block): int
    requires b.page in h.arenas && (h.arenas[b.page].desc.Some? ==> h.arenas[b.page].desc.value < DESCS)
  {
    match h.arenas[b.page].desc
    case Some(d) => BlockSize(d)
    case None => PAGE * h.arenas[b.page].freeCnt - HEADER
  }

  /** A block lies inside its arena's pages, behind the header. */
  lemma SlotInside(h: Heap, others: set<nat>, b: Block)
    requires Inv(h, others) && IsSlot(h, b)
    ensures PAGE * b.page + HEADER <= Address(h, b)
    ensures Address(h, b) + Size(h, b) <= PAGE * (b.page + Extent(h.arenas[b.page]))
  {
    assert ArenaOk(h, b.page, false);
    if h.arenas[b.page].desc.Some? {
      var d := h.arenas[b.page].desc.value;
      MulBound(b.idx, PerArena(d), BlockSize(d));
    }
  }

  /** `block_to_arena` finds the arena from the address, and its alignment assertions hold. */
  lemma ArenaOfAddress(h: Heap, others: set<nat>, b: Block)
    requires Inv(h, others) && IsSlot(h, b)
    ensures Address(h, b) / PAGE == b.page
    ensures match h.arenas[b.page].desc
            case Some(d) => (Address(h, b) % PAGE - HEADER) % BlockSize(d) == 0
            case None => Address(h, b) % PAGE == HEADER
  {
    hide Inv, BlockSize, PerArena;
    if h.arenas[b.page].desc.Some? { SlotAddress(b.page, b.idx, h.arenas[b.page].desc.value); }
  }

  lemma SlotAddress(p: nat, i: nat, d: nat)
    requires d < DESCS && i < PerArena(d)
    ensures var a := PAGE * p + HEADER + i * BlockSize(d);
            a / PAGE == p && a % PAGE == HEADER + i * BlockSize(d) && (a % PAGE - HEADER) % BlockSize(d) == 0
  {
    hide BlockSize, PerArena;
    MulBound(i, PerArena(d), BlockSize(d));
    ModIs(i * BlockSize(d), BlockSize(d), i, 0);
  }

  // Arenas on different pages have no page in common.
  lemma ArenasApart(h: Heap, others: set<nat>, p: nat, q: nat)
    requires Inv(h, others) && p in h.arenas && q in h.arenas && p < q
    ensures p + Extent(h.arenas[p]) <= q
  {
    assert ArenaOk(h, q, false);
    assert Holds(h, q, q);
    assert q < p + Extent(h.arenas[p]) ==> Holds(h, p, q);
  }

  ghost predicate Apart(a: nat, n: int, b: nat, m: int) { a + n <= b || b + m <= a }

  /** Two different blocks, live or free, have no byte in common. */
  lemma SlotsApart(h: Heap, others: set<nat>, b: Block, c: Block)
    requires Inv(h, others) && IsSlot(h, b) && IsSlot(h, c) && b != c
    ensures Apart(Address(h, b), Size(h, b), Address(h, c), Size(h, c))
  {
    if b.page == c.page {
      var d := h.arenas[b.page].desc.value;
      if b.idx < c.idx { MulBound(b.idx, c.idx, BlockSize(d)); } else { MulBound(c.idx, b.idx, BlockSize(d)); }
    } else {
      SlotInside(h, others, b);
      SlotInside(h, others, c);
      if b.page < c.page { ArenasApart(h, others, b.page, c.page); } else { ArenasApart(h, others, c.page, b.page); }
    }
  }

  /** A live block has room for its request, and shares no byte with another live block, with a
      free block, with an arena header or with a page of the rest of the kernel. */
  ghost predicate LiveSafe(h: Heap, others: set<nat>, b: Block)
    requires b in h.live
  {
    && IsSlot(h, b) && h.live[b] <= Size(h, b)
    && (forall c :: c in h.live && c != b ==> IsSlot(h, c) && Apart(Address(h, b), Size(h, b), Address(h, c), Size(h, c)))
    && (forall d, c :: 0 <= d < |h.free| && c in h.free[d] ==>
          IsSlot(h, c) && Apart(Address(h, b), Size(h, b), Address(h, c), Size(h, c)))
    && (forall p :: p in h.arenas ==> Apart(Address(h, b), Size(h, b), PAGE * p, HEADER))
    && (forall i :: i in others ==> Apart(Address(h, b), Size(h, b), PAGE * i, PAGE))
  }

  lemma LiveIsSafe(h: Heap, others: set<nat>, b: Block)
    requires Inv(h, others) && b in h.live
    ensures LiveSafe(h, others, b)
  {
    assert LiveOk(h, b) && ArenaOk(h, b.page, false);
    SlotInside(h, others, b);
    forall c | c in h.live && c != b
      ensures IsSlot(h, c) && Apart(Address(h, b), Size(h, b), Address(h, c), Size(h, c))
    {
      assert LiveOk(h, c);
      SlotsApart(h, others, b, c);
    }
    forall d, c | 0 <= d < |h.free| && c in h.free[d]
      ensures IsSlot(h, c) && Apart(Address(h, b), Size(h, b), Address(h, c), Size(h, c))
    {
      assert ListOk(h, d);
      SlotsApart(h, others, b, c);
    }
    forall p | p in h.arenas ensures Apart(Address(h, b), Size(h, b), PAGE * p, HEADER) {
      HeaderApart(h, others, b, p);
    }
    forall i | i in others ensures Apart(Address(h, b), Size(h, b), PAGE * i, PAGE) {
      assert !Holds(h, b.page, i);
    }
  }

  lemma HeaderApart(h: Heap, others: set<nat>, b: Block, p: nat)
    requires Inv(h, others) && IsSlot(h, b) && p in h.arenas
    ensures Apart(Address(h, b), Size(h, b), PAGE * p, HEADER)
  {
    SlotInside(h, others, b);
    if b.page < p { ArenasApart(h, others, b.page, p); }
  }

  // ---- pages come and go with their live blocks ----

  /** Every arena has a live block. */
  lemma ArenaHasLive(h: Heap, others: set<nat>, p: nat) returns (b: Block)
    requires Inv(h, others) && p in h.arenas
    ensures b.page == p && b in h.live
  {
    assert ArenaOk(h, p, false);
    if h.arenas[p].desc.None? { return Block(p, 0); }
    var n := PerArena(h.arenas[p].desc.value);
    AllCount(p, n);
    assert FreeIn(h, p, n) != All(p, n);
    b :| b in All(p, n) && b !in FreeIn(h, p, n);
  }

  /** A page is in use by the block allocator exactly while a live block's arena holds it. */
  lemma PageHeldIff(h: Heap, others: set<nat>, i: nat)
    requires Inv(h, others) && i < |h.used|
    ensures h.used[i] && i !in others <==> exists b :: b in h.live && Holds(h, b.page, i)
  {
    if h.used[i] && i !in others {
      var p :| Holds(h, p, i);
      var b := ArenaHasLive(h, others, p);
    }
  }

  // ---- runs ----

  datatype World = World(heap: Heap, others: set<nat>)

  datatype Op =
    | DoMalloc(size: nat, r: Option<Block>)
    | DoFree(b: Block)
    | GetPages(cnt: nat, at: Option<nat>)
    | FreePages(p: nat, cnt: nat)

  // A caller frees only what is live, and pages only that it has.
  ghost predicate Step(w: World, op: Op, w': World) {
    && |w.heap.free| == DESCS
    && match op
       case DoMalloc(size, r) => MallocStep(w.heap, size, w'.heap, r) && w'.others == w.others
       case DoFree(b) =>
         && b in w.heap.live && b.page in w.heap.arenas && b.page + Extent(w.heap.arenas[b.page]) <= |w.heap.used|
         && (w.heap.arenas[b.page].desc.Some? ==> w.heap.arenas[b.page].desc.value < DESCS)
         && w' == World(Free(w.heap, b), w.others)
       case GetPages(cnt, r) =>
         if cnt == 0 || r.None? then
           r.None? && w' == w && (cnt > 0 ==> FirstFit(w.heap.used, 0, cnt, false, r))
         else
           && FirstFit(w.heap.used, 0, cnt, false, r)
           && w' == World(w.heap.(used := Fill(w.heap.used, r.value, cnt, true)), w.others + Pages(r.value, cnt))
       case FreePages(p, cnt) =>
         && Pages(p, cnt) <= w.others && p + cnt <= |w.heap.used|
         && w' == World(w.heap.(used := Fill(w.heap.used, p, cnt, false)), w.others - Pages(p, cnt))
  }

  lemma StepKeeps(w: World, op: Op, w': World)
    requires Inv(w.heap, w.others) && Step(w, op, w')
    ensures Inv(w'.heap, w'.others) && |w'.heap.used| == |w.heap.used|
  {
    match op
    case DoMalloc(size, r) => MallocKeeps(w.heap, size, w'.heap, r, w.others);
    case DoFree(b) => FreeKeeps(w.heap, b, w.others);
    case GetPages(cnt, r) => if cnt > 0 && r.Some? { GetPagesKeeps(w.heap, r.value, cnt, w.others); }
    case FreePages(p, cnt) => FreePagesKeeps(w.heap, p, cnt, w.others);
  }

  ghost predicate IsRun(ws: seq<World>, ops: seq<Op>) {
    && |ws| == |ops| + 1
    && (exists used :: ws[0] == World(Initial(used), set i | 0 <= i < |used| && used[i]))
    && forall k :: 0 <= k < |ops| ==> Step(ws[k], ops[k], ws[k + 1])
  }

  lemma {:induction false} RunKeeps(ws: seq<World>, ops: seq<Op>, k: nat)
    requires IsRun(ws, ops) && k < |ws|
    ensures Inv(ws[k].heap, ws[k].others) && |ws[k].heap.used| == |ws[0].heap.used|
  {
    if k > 0 {
      RunKeeps(ws, ops, k - 1);
      StepKeeps(ws[k - 1], ops[k - 1], ws[k]);
    }
  }

  /** At every moment of every run each live block is safe. */
  lemma RunSafe(ws: seq<World>, ops: seq<Op>, k: nat, b: Block)
    requires IsRun(ws, ops) && k < |ws| && b in ws[k].heap.live
    ensures LiveSafe(ws[k].heap, ws[k].others, b)
  {
    RunKeeps(ws, ops, k);
    LiveIsSafe(ws[k].heap, ws[k].others, b);
  }

  /** Freeing everything gives the page bitmap back: when nothing is live and the rest of the
      kernel has the pages it started with, the allocator is as it was at the start. */
  lemma RunRestores(ws: seq<World>, ops: seq<Op>, k: nat)
    requires IsRun(ws, ops) && k < |ws| && ws[k].heap.live == map[] && ws[k].others == ws[0].others
    ensures ws[k] == ws[0]
  {
    RunKeeps(ws, ops, k);
    var h, others := ws[k].heap, ws[k].others;
    forall p | p in h.arenas ensures false { var b := ArenaHasLive(h, others, p); }
    assert h.arenas == map[];
    forall d | 0 <= d < DESCS ensures h.free[d] == [] {
      assert ListOk(h, d);
      HasMember(h.free[d]);
    }
    forall i | 0 <= i < |h.used| ensures h.used[i] <==> i in others { PageHeldIff(h, others, i); }
    assert h.free == ws[0].heap.free;
  }
}
