/** Who owns which sector: inodes, the free map and the root directory under creating, opening,
    removing and closing files (`inode.c`, `free-map.c`, `directory.c`, `filesys.c`). What memory
    and the device allow is an argument of each operation. */
module FileSystem {
  import opened Queues
  import opened Bitmaps
  import opened InodeStore

  const FREE_MAP_SECTOR := 0
  const ROOT_DIR_SECTOR := 1
  const NAME_MAX := 14
  // `dir_create` at formatting: 16 entries of 20 bytes
  const DIR_SLOTS := 16
  const ENTRY_BYTES := 20

  datatype Entry = Entry(inUse: bool, name: string, sector: nat)

  // An in-memory inode.
  datatype Open = Open(sector: nat, openCnt: nat, removed: bool, data: Extent)

  /** headers are the on-disk inodes by sector; open, the list of in-memory ones. */
  datatype FS = FS(marked: seq<bool>, headers: map<nat, Extent>, dir: seq<Entry>, open: seq<Open>)

  /** What memory and the device say during an operation. The lookup of a name can read the first
      seen entries of the directory and the search for a free slot the first scanned: each read
      needs memory of its own, and the scans take a failed one for the end. */
  datatype Env = Env(rootOk: bool, headerOk: bool, memOk: bool, dataOk: bool, seen: nat, scanned: nat, dirOk: bool, fileOk: bool)

  // ---- the operations ----

  ghost function Scan(s: seq<bool>, start: nat, cnt: nat): (r: Option<nat>)
    requires start <= |s| + 1
    ensures FirstFit(s, start, cnt, false, r)
    decreases |s| + 1 - start
  {
    if start + cnt > |s| then None
    else if AllAre(s, start, cnt, false) then Some(start)
    else
      Scan(s, start + 1, cnt)
  }

  function FindOpen(open: seq<Open>, sector: nat): (r: Option<nat>)
    ensures r.Some? ==> r.value < |open| && open[r.value].sector == sector
    ensures r.None? ==> forall j :: 0 <= j < |open| ==> open[j].sector != sector
  {
    if open == [] then None
    else if open[0].sector == sector then Some(0)
    else match FindOpen(open[1..], sector)
      case None => assert forall j :: 0 < j < |open| ==> open[j] == open[1..][j - 1]; None
      case Some(j) => Some(j + 1)
  }

  // `lookup`, whose n-th read is the first to fail
  function Lookup(dir: seq<Entry>, name: string, n: nat): (r: Option<nat>)
    ensures r.Some? ==> r.value < |dir| && r.value < n && dir[r.value].inUse && dir[r.value].name == name
    ensures forall i :: 0 <= i < |dir| && i < n && dir[i].inUse && (r.None? || i < r.value) ==> dir[i].name != name
  {
    if dir == [] || n == 0 then None
    else if dir[0].inUse && dir[0].name == name then Some(0)
    else
      assert forall i :: 0 < i < |dir| ==> dir[i] == dir[1..][i - 1];
      match Lookup(dir[1..], name, n - 1) case None => None case Some(i) => Some(i + 1)
  }

  // Where the search for a free slot stops: at a free entry, at the end, or where a read fails.
  function SlotAt(dir: seq<Entry>, n: nat): (r: nat)
    ensures r <= |dir| && r <= n
    ensures r < |dir| && r < n ==> !dir[r].inUse
    ensures forall k :: 0 <= k < r ==> dir[k].inUse
  {
    if dir == [] || n == 0 || !dir[0].inUse then 0 else 1 + SlotAt(dir[1..], n - 1)
  }

  // `dir_add`, into a directory that does not grow; it writes wherever the search stopped
  function DirAdd(dir: seq<Entry>, name: string, sector: nat, env: Env): Option<seq<Entry>> {
    if name == "" || |name| > NAME_MAX || Lookup(dir, name, env.seen).Some? then None
    else
      var i := SlotAt(dir, env.scanned);
      if i == |dir| || !env.dirOk then None else Some(dir[i := Entry(true, name, sector)])
  }

  // `inode_create`: data sectors for the header in sector h; None leaves everything as it was
  ghost function InodeCreate(fs: FS, h: nat, length: nat, memOk: bool, writeOk: bool): Option<FS> {
    var at := Scan(fs.marked, 0, SectorsFor(length));
    if !memOk || at.None? || !writeOk then None
    else Some(fs.(marked := Fill(fs.marked, at.value, SectorsFor(length), true),
                  headers := fs.headers[h := Extent(at.value, length)]))
  }

  function Header(fs: FS, sector: nat): Extent { if sector in fs.headers then fs.headers[sector] else Extent(0, 0) }

  function InodeOpen(fs: FS, sector: nat, memOk: bool): Option<FS> {
    match FindOpen(fs.open, sector)
    case Some(j) => Some(fs.(open := fs.open[j := fs.open[j].(openCnt := fs.open[j].openCnt + 1)]))
    case None => if memOk then Some(fs.(open := [Open(sector, 1, false, Header(fs, sector))] + fs.open)) else None
  }

  ghost predicate InRange(marked: seq<bool>, h: nat, e: Extent) {
    h < |marked| && e.start + SectorsFor(e.length) <= |marked|
  }

  // Both releases of `inode_close`.
  ghost function Unmark(marked: seq<bool>, h: nat, e: Extent): seq<bool> {
    if InRange(marked, h, e) then Fill(Fill(marked, h, 1, false), e.start, SectorsFor(e.length), false) else marked
  }

  // `inode_close` of the j-th open inode
  ghost function InodeClose(fs: FS, j: nat): FS
    requires j < |fs.open|
  {
    var o := fs.open[j];
    if o.openCnt > 1 then
      fs.(open := fs.open[j := o.(openCnt := o.openCnt - 1)])
    else
      fs.(open := fs.open[..j] + fs.open[j + 1..], marked := if o.removed then Unmark(fs.marked, o.sector, o.data) else fs.marked)
  }

  // `filesys_create` once the header has its sector h: without success the sector is released
  ghost function CreateAt(fs: FS, h: nat, name: string, length: nat, env: Env): (FS, bool)
    requires h < |fs.marked|
  {
    match InodeCreate(fs, h, length, env.memOk, env.dataOk)
    case None => (fs.(marked := Fill(fs.marked, h, 1, false)), false)
    case Some(fs1) =>
      match DirAdd(fs1.dir, name, h, env)
      case None => (fs1.(marked := Fill(fs1.marked, h, 1, false)), false)
      case Some(dir) => (fs1.(dir := dir), true)
  }

  // `filesys_create`
  ghost function FileCreate(fs: FS, name: string, length: nat, env: Env): (FS, bool) {
    var h := Scan(fs.marked, 0, 1);
    if !env.rootOk || h.None? || !env.headerOk then (fs, false)
    else CreateAt(fs.(marked := Fill(fs.marked, h.value, 1, true)), h.value, name, length, env)
  }

  // `filesys_open`
  ghost function FileOpen(fs: FS, name: string, env: Env): (FS, bool) {
    var i := Lookup(fs.dir, name, env.seen);
    if !env.rootOk || i.None? then (fs, false)
    else
      var s := fs.dir[i.value].sector;
      match InodeOpen(fs, s, env.memOk)
      case None => (fs, false)
      case Some(fs1) =>
        var j := FindOpen(fs1.open, s);
        if env.fileOk || j.None? then (fs1, true) else (InodeClose(fs1, j.value), false)
  }

  // `filesys_remove`
  ghost function FileRemove(fs: FS, name: string, env: Env): (FS, bool) {
    var i := Lookup(fs.dir, name, env.seen);
    if !env.rootOk || i.None? then (fs, false)
    else
      var s := fs.dir[i.value].sector;
      match InodeOpen(fs, s, env.memOk)
      case None => (fs, false)
      case Some(fs1) =>
        var j := FindOpen(fs1.open, s);
        if j.None? then (fs1, false)
        else if !env.dirOk then (InodeClose(fs1, j.value), false)
        else (InodeClose(Erase(fs1, i.value, j.value), j.value), true)
  }

  // The entry goes and the inode is marked removed.
  function Erase(fs: FS, i: nat, j: nat): FS
    requires i < |fs.dir| && j < |fs.open|
  {
    fs.(dir := fs.dir[i := fs.dir[i].(inUse := false)], open := fs.open[j := fs.open[j].(removed := true)])
  }

  // ---- ownership ----

  ghost predicate Owns(headers: map<nat, Extent>, h: nat, s: nat)
    requires h in headers
  {
    s == h || headers[h].start <= s < headers[h].start + SectorsFor(headers[h].length)
  }

  /** Every header in live owns itself and its data sectors, all marked, and nobody else does. */
  ghost predicate Owned(marked: seq<bool>, headers: map<nat, Extent>, live: set<nat>) {
    && (forall h :: h in live ==> h in headers && InRange(marked, h, headers[h]))
    && (forall h, s: nat :: h in live && Owns(headers, h, s) ==> s < |marked| && marked[s])
    && (forall h, k, s: nat :: h in live && k in live && Owns(headers, h, s) && Owns(headers, k, s) ==> h == k)
    && (forall h :: h in live ==> !(headers[h].start <= h < headers[h].start + SectorsFor(headers[h].length)))
  }

  ghost function Named(dir: seq<Entry>): set<nat> { set i | 0 <= i < |dir| && dir[i].inUse :: dir[i].sector }

  ghost function Opened(open: seq<Open>): set<nat> { set j | 0 <= j < |open| :: open[j].sector }

  // The headers in use: the two system files, what the directory names and what is open.
  ghost function Live(fs: FS): set<nat> { {FREE_MAP_SECTOR, ROOT_DIR_SECTOR} + Named(fs.dir) + Opened(fs.open) }

  ghost predicate HasName(dir: seq<Entry>, name: string) {
    exists i :: 0 <= i < |dir| && dir[i].inUse && dir[i].name == name
  }

  ghost predicate DistinctNames(dir: seq<Entry>) {
    forall i, j :: 0 <= i < j < |dir| && dir[i].inUse && dir[j].inUse ==> dir[i].name != dir[j].name
  }

  ghost predicate DirOk(dir: seq<Entry>) {
    && (forall i, j :: 0 <= i < j < |dir| && dir[i].inUse && dir[j].inUse ==> dir[i].sector != dir[j].sector)
    && FREE_MAP_SECTOR !in Named(dir) && ROOT_DIR_SECTOR !in Named(dir)
  }

  /** One in-memory inode per sector, true to the disk; a removed one has no name any more. */
  ghost predicate OpenOk(fs: FS) {
    && (forall i, j :: 0 <= i < j < |fs.open| ==> fs.open[i].sector != fs.open[j].sector)
    && (forall j :: 0 <= j < |fs.open| ==> fs.open[j].openCnt >= 1 && fs.open[j].data == Header(fs, fs.open[j].sector))
    && (forall j :: 0 <= j < |fs.open| && fs.open[j].removed ==>
          fs.open[j].sector !in Named(fs.dir) + {FREE_MAP_SECTOR, ROOT_DIR_SECTOR})
  }

  ghost predicate Inv(fs: FS) {
    Owned(fs.marked, fs.headers, Live(fs)) && DirOk(fs.dir) && OpenOk(fs)
  }

  // ---- ownership when headers come and go ----

  lemma FewerOwned(marked: seq<bool>, headers: map<nat, Extent>, live: set<nat>, live': set<nat>)
    requires Owned(marked, headers, live) && live' <= live
    ensures Owned(marked, headers, live')
  {
  }

  /** A new header in a free sector, with free data sectors. */
  lemma OneMoreOwned(marked: seq<bool>, headers: map<nat, Extent>, live: set<nat>, h: nat, e: Extent)
    requires Owned(marked, headers, live) && h < |marked| && !marked[h]
    requires AllAre(Fill(marked, h, 1, true), e.start, SectorsFor(e.length), false)
    ensures Owned(Fill(Fill(marked, h, 1, true), e.start, SectorsFor(e.length), true), headers[h := e], live + {h})
  {
    var marked', headers' := Fill(Fill(marked, h, 1, true), e.start, SectorsFor(e.length), true), headers[h := e];
    forall k, s: nat | k in live && Owns(headers', k, s) && k != h ensures s < |marked| && marked[s] && Owns(headers, k, s) {}
    forall s: nat | Owns(headers', h, s) ensures s < |marked| && !marked[s] && marked'[s] {
      if s != h { assert !Fill(marked, h, 1, true)[s]; }
    }
    assert forall k :: k in live ==> Owns(headers, k, k);
  }

  // A header nobody uses may change, and unused sectors may be marked or not.
  lemma OthersOwned(marked: seq<bool>, headers: map<nat, Extent>, live: set<nat>, marked': seq<bool>, headers': map<nat, Extent>)
    requires Owned(marked, headers, live) && |marked'| == |marked|
    requires forall k :: k in live ==> k in headers' && headers'[k] == headers[k]
    requires forall s :: 0 <= s < |marked| && marked[s] ==> marked'[s]
    ensures Owned(marked', headers', live)
  {
    forall k, s: nat | k in live && Owns(headers', k, s) ensures Owns(headers, k, s) {}
  }

  /** A header goes and its sectors are free again; the others keep theirs. */
  lemma OneLessOwned(marked: seq<bool>, headers: map<nat, Extent>, live: set<nat>, h: nat)
    requires Owned(marked, headers, live) && h in live
    ensures InRange(marked, h, headers[h])
    ensures AllAre(marked, h, 1, true) && AllAre(marked, headers[h].start, SectorsFor(headers[h].length), true)
    ensures Owned(Unmark(marked, h, headers[h]), headers, live - {h})
    ensures forall s :: 0 <= s < |marked| ==> Unmark(marked, h, headers[h])[s] == (marked[s] && !Owns(headers, h, s))
  {
    assert Owns(headers, h, h);
    forall s: nat | headers[h].start <= s < headers[h].start + SectorsFor(headers[h].length) ensures marked[s] {
      assert Owns(headers, h, s);
    }
  }

  // ---- each operation keeps the invariant ----

  lemma OpenUnique(open: seq<Open>, j: nat)
    requires j < |open| && forall i, k :: 0 <= i < k < |open| ==> open[i].sector != open[k].sector
    ensures FindOpen(open, open[j].sector) == Some(j)
  {
  }

  // Changing one entry of the open list, not its sector.
  lemma OpenUpdate(fs: FS, j: nat, o: Open)
    requires Inv(fs) && j < |fs.open| && o.sector == fs.open[j].sector && o.data == fs.open[j].data && o.openCnt >= 1
    requires o.removed ==> o.sector !in Named(fs.dir) + {FREE_MAP_SECTOR, ROOT_DIR_SECTOR}
    ensures Inv(fs.(open := fs.open[j := o]))
  {
    var fs' := fs.(open := fs.open[j := o]);
    assert Opened(fs'.open) == Opened(fs.open) by {
      forall s ensures s in Opened(fs'.open) <==> s in Opened(fs.open) {
        if s in Opened(fs.open) {
          var i :| 0 <= i < |fs.open| && fs.open[i].sector == s;
          assert fs'.open[i].sector == s;
        }
      }
    }
  }

  lemma OpenedCut(open: seq<Open>, j: nat)
    requires j < |open| && forall i, k :: 0 <= i < k < |open| ==> open[i].sector != open[k].sector
    ensures Opened(open[..j] + open[j + 1..]) == Opened(open) - {open[j].sector}
  {
    var r := open[..j] + open[j + 1..];
    forall i | 0 <= i < |open| && i != j ensures open[i].sector in Opened(r) {
      assert r[if i < j then i else i - 1] == open[i];
    }
    forall i | 0 <= i < |r| ensures r[i].sector in Opened(open) - {open[j].sector} {
      assert r[i] == open[if i < j then i else i + 1];
    }
  }

  lemma CutOpenOk(fs: FS, j: nat, fs': FS)
    requires OpenOk(fs) && j < |fs.open| && fs'.open == fs.open[..j] + fs.open[j + 1..]
    requires fs'.dir == fs.dir && fs'.headers == fs.headers
    ensures OpenOk(fs')
  {
    assert forall i :: 0 <= i < |fs'.open| ==> fs'.open[i] == fs.open[if i < j then i else i + 1];
  }

  lemma CloseLive(fs: FS, j: nat, fs': FS)
    requires OpenOk(fs) && j < |fs.open| && fs'.open == fs.open[..j] + fs.open[j + 1..] && fs'.dir == fs.dir
    ensures fs.open[j].sector in Live(fs) && Live(fs') <= Live(fs)
    ensures fs.open[j].removed ==> Live(fs') == Live(fs) - {fs.open[j].sector}
  {
    OpenedCut(fs.open, j);
    assert fs.open[j].sector in Opened(fs.open);
  }

  /** A removed file keeps its sectors until the last close, which frees exactly those. */
  lemma CloseKeeps(fs: FS, j: nat)
    requires Inv(fs) && j < |fs.open|
    ensures Inv(InodeClose(fs, j))
    ensures var o := fs.open[j];
            InodeClose(fs, j).marked == if o.removed && o.openCnt == 1 then Unmark(fs.marked, o.sector, o.data) else fs.marked
  {
    var o, fs' := fs.open[j], InodeClose(fs, j);
    assert o.openCnt >= 1 && o.data == Header(fs, o.sector) && (o.removed ==> o.sector !in Named(fs.dir) + {0, 1});
    if o.openCnt > 1 {
      OpenUpdate(fs, j, o.(openCnt := o.openCnt - 1));
    } else {
      hide Owned, OpenOk, DirOk, Live, Unmark;
      CutOpenOk(fs, j, fs');
      CloseLive(fs, j, fs');
      if o.removed {
        LiveHeaders(fs, o.sector);
        OneLessOwned(fs.marked, fs.headers, Live(fs), o.sector);
      } else {
        FewerOwned(fs.marked, fs.headers, Live(fs), Live(fs'));
      }
    }
  }

  lemma LiveHeaders(fs: FS, h: nat)
    requires Owned(fs.marked, fs.headers, Live(fs)) && h in Live(fs)
    ensures h in fs.headers
  {
  }

  lemma PushOpen(fs: FS, o: Open, fs': FS)
    requires OpenOk(fs) && fs' == fs.(open := [o] + fs.open) && FindOpen(fs.open, o.sector).None?
    requires o.openCnt >= 1 && o.data == Header(fs, o.sector) && !o.removed
    ensures OpenOk(fs') && FindOpen(fs'.open, o.sector).Some?
    ensures o.sector in Live(fs) ==> Live(fs') == Live(fs)
  {
    assert fs'.open[0] == o && forall i :: 1 <= i < |fs'.open| ==> fs'.open[i] == fs.open[i - 1];
    assert Opened(fs'.open) == Opened(fs.open) + {o.sector} by {
      forall i | 0 <= i < |fs.open| ensures fs.open[i].sector in Opened(fs'.open) { assert fs'.open[i + 1] == fs.open[i]; }
    }
  }

  lemma ReopenKeeps(fs: FS, j: nat)
    requires Inv(fs) && j < |fs.open|
    ensures var fs' := fs.(open := fs.open[j := fs.open[j].(openCnt := fs.open[j].openCnt + 1)]);
            Inv(fs') && Live(fs') == Live(fs) && FindOpen(fs'.open, fs.open[j].sector).Some?
  {
    var o := fs.open[j].(openCnt := fs.open[j].openCnt + 1);
    OpenUpdate(fs, j, o);
    SameOpened(fs.open, fs.open[j := o]);
    assert fs.open[j := o][j].sector == fs.open[j].sector;
  }

  lemma OpenKeeps(fs: FS, sector: nat, memOk: bool)
    requires Inv(fs) && sector in Live(fs)
    ensures match InodeOpen(fs, sector, memOk)
            case None => FindOpen(fs.open, sector).None? && !memOk
            case Some(fs') => Inv(fs') && Live(fs') == Live(fs) && FindOpen(fs'.open, sector).Some?
  {
    hide Owned, OpenOk, DirOk, Live;
    var found := FindOpen(fs.open, sector);
    if found.Some? {
      ReopenKeeps(fs, found.value);
    } else if memOk {
      PushOpen(fs, Open(sector, 1, false, Header(fs, sector)), InodeOpen(fs, sector, memOk).value);
    }
  }

  lemma SameOpened(open: seq<Open>, open': seq<Open>)
    requires |open'| == |open| && forall i :: 0 <= i < |open| ==> open'[i].sector == open[i].sector
    ensures Opened(open') == Opened(open)
  {
    forall s | s in Opened(open) ensures s in Opened(open') {
      var i :| 0 <= i < |open| && open[i].sector == s;
      assert open'[i].sector == s;
    }
  }

  /** Opening an inode and closing it again leaves no trace. */
  lemma OpenCloseCancels(fs: FS, sector: nat, memOk: bool)
    requires OpenOk(fs) && InodeOpen(fs, sector, memOk).Some?
    ensures var fs1 := InodeOpen(fs, sector, memOk).value;
            FindOpen(fs1.open, sector).Some? && InodeClose(fs1, FindOpen(fs1.open, sector).value) == fs
  {
    var fs1 := InodeOpen(fs, sector, memOk).value;
    var found := FindOpen(fs.open, sector);
    if found.Some? {
      var j := found.value;
      assert fs1.open[j].sector == sector;
      assert forall i, k :: 0 <= i < k < |fs1.open| ==> fs1.open[i].sector != fs1.open[k].sector;
      OpenUnique(fs1.open, j);
      assert fs1.open[j := fs.open[j]] == fs.open;
    } else {
      assert fs1.open[0].sector == sector && fs1.open[..0] + fs1.open[1..] == fs.open;
    }
  }

  // ---- creating ----

  lemma ScanFree(s: seq<bool>, cnt: nat)
    requires Scan(s, 0, cnt).Some?
    ensures AllAre(s, Scan(s, 0, cnt).value, cnt, false)
  {
  }

  lemma AddedDir(dir: seq<Entry>, i: nat, name: string, sector: nat)
    requires DirOk(dir) && i < |dir| && sector !in Named(dir) && sector != 0 && sector != 1
    ensures var dir' := dir[i := Entry(true, name, sector)];
            DirOk(dir') && sector in Named(dir') && Named(dir') <= Named(dir) + {sector}
  {
    var dir' := dir[i := Entry(true, name, sector)];
    assert dir'[i] == Entry(true, name, sector);
    forall k | 0 <= k < |dir| && dir[k].inUse ensures dir[k].sector != sector { assert dir[k].sector in Named(dir); }
  }

  // Another header on disk, other marks: the open inodes do not notice.
  lemma SameOpenOk(fs: FS, fs': FS, h: nat)
    requires OpenOk(fs) && fs'.open == fs.open && h !in Opened(fs.open)
    requires forall k :: k != h ==> Header(fs', k) == Header(fs, k)
    requires forall s :: s in Named(fs'.dir) ==> s in Named(fs.dir) || s == h
    ensures OpenOk(fs')
  {
    forall j | 0 <= j < |fs.open| ensures fs.open[j].sector != h { assert fs.open[j].sector in Opened(fs.open); }
  }

  lemma UnmarkedNotLive(fs: FS, h: nat)
    requires Inv(fs) && h < |fs.marked| && !fs.marked[h]
    ensures h !in Live(fs)
  {
    assert h in Live(fs) ==> h in fs.headers && Owns(fs.headers, h, h);
  }

  // The outcomes once header sector h and data sectors from d on have been found.
  lemma CreatedKeeps(fs: FS, name: string, length: nat, h: nat, d: nat, env: Env)
    requires Inv(fs) && h < |fs.marked| && !fs.marked[h]
    requires AllAre(Fill(fs.marked, h, 1, true), d, SectorsFor(length), false)
    ensures var e, m := Extent(d, length), Fill(Fill(fs.marked, h, 1, true), d, SectorsFor(length), true);
            match DirAdd(fs.dir, name, h, env)
            case None => Inv(FS(Fill(m, h, 1, false), fs.headers[h := e], fs.dir, fs.open))
            case Some(dir) => Inv(FS(m, fs.headers[h := e], dir, fs.open))
  {
    var e, m := Extent(d, length), Fill(Fill(fs.marked, h, 1, true), d, SectorsFor(length), true);
    UnmarkedNotLive(fs, h);
    OneMoreOwned(fs.marked, fs.headers, Live(fs), h, e);
    var dir := DirAdd(fs.dir, name, h, env);
    if dir.Some? {
      AddedDir(fs.dir, SlotAt(fs.dir, env.scanned), name, h);
      var fs' := FS(m, fs.headers[h := e], dir.value, fs.open);
      SameOpenOk(fs, fs', h);
      FewerOwned(m, fs'.headers, Live(fs) + {h}, Live(fs'));
    } else {
      var fs' := FS(Fill(m, h, 1, false), fs.headers[h := e], fs.dir, fs.open);
      SameOpenOk(fs, fs', h);
      OthersOwned(fs.marked, fs.headers, Live(fs), fs'.marked, fs'.headers);
    }
  }

  /** After a creation: the entry where the search stopped has the name, for a new inode of that
      length in a sector nobody used; no other entry or inode has changed, and of the sectors exactly
      the new inode's, which were all free, are marked that were not. */
  ghost predicate Created(fs: FS, fs': FS, name: string, length: nat, env: Env) {
    var i := SlotAt(fs.dir, env.scanned);
    && i < |fs.dir| == |fs'.dir| && fs'.dir == fs.dir[i := fs'.dir[i]] && Lookup(fs.dir, name, env.seen).None?
    && fs'.dir[i].inUse && fs'.dir[i].name == name && fs'.dir[i].sector !in Live(fs)
    && var h := fs'.dir[i].sector;
       && h in fs'.headers && fs'.headers == fs.headers[h := fs'.headers[h]] && fs'.headers[h].length == length
       && |fs'.marked| == |fs.marked|
       && (forall s: nat :: s < |fs.marked| ==> (fs'.marked[s] <==> fs.marked[s] || Owns(fs'.headers, h, s)))
       && forall s: nat :: Owns(fs'.headers, h, s) ==> s < |fs.marked| && !fs.marked[s]
  }

  lemma CreatedIs(fs: FS, name: string, length: nat, h: nat, d: nat, env: Env)
    requires Inv(fs) && h < |fs.marked| && !fs.marked[h]
    requires AllAre(Fill(fs.marked, h, 1, true), d, SectorsFor(length), false)
    ensures var m := Fill(Fill(fs.marked, h, 1, true), d, SectorsFor(length), true);
            match DirAdd(fs.dir, name, h, env)
            case None => true
            case Some(dir) => Created(fs, FS(m, fs.headers[h := Extent(d, length)], dir, fs.open), name, length, env)
  {
    var m, headers' := Fill(fs.marked, h, 1, true), fs.headers[h := Extent(d, length)];
    UnmarkedNotLive(fs, h);
    forall s: nat | Owns(headers', h, s) ensures s < |fs.marked| && !fs.marked[s] {
      if s != h { assert !m[s]; }
    }
    hide Inv, Live, Lookup, SlotAt;
  }

  /** Creating makes that one entry or leaves directory and open files alone; a failure before the
      data sectors are taken leaves no trace at all. */
  lemma CreateKeeps(fs: FS, name: string, length: nat, env: Env)
    requires Inv(fs)
    ensures var r := FileCreate(fs, name, length, env);
            && Inv(r.0) && r.0.open == fs.open
            && if r.1 then Created(fs, r.0, name, length, env) else r.0.dir == fs.dir
    ensures !env.rootOk || !env.headerOk || !env.memOk || !env.dataOk ==> FileCreate(fs, name, length, env) == (fs, false)
  {
    var h := Scan(fs.marked, 0, 1);
    if env.rootOk && h.Some? && env.headerOk {
      ScanFree(fs.marked, 1);
      var m := Fill(fs.marked, h.value, 1, true);
      FillBack(fs.marked, h.value, 1, false);
      var d := Scan(m, 0, SectorsFor(length));
      if env.memOk && env.dataOk && d.Some? {
        ScanFree(m, SectorsFor(length));
        CreatedKeeps(fs, name, length, h.value, d.value, env);
        CreatedIs(fs, name, length, h.value, d.value, env);
        hide Inv, Created, DirAdd, Scan, Fill, AllAre;
      }
    }
  }

  /** What a creation needs: memory and the device, a sector for the header and sectors for the data,
      a valid name that the lookup does not see, and a search for a slot that stops at an entry. */
  ghost predicate Creatable(fs: FS, name: string, length: nat, env: Env) {
    && env.rootOk && env.headerOk && env.memOk && env.dataOk && env.dirOk
    && name != "" && |name| <= NAME_MAX && SlotAt(fs.dir, env.scanned) < |fs.dir|
    && (forall i :: 0 <= i < |fs.dir| && i < env.seen && fs.dir[i].inUse ==> fs.dir[i].name != name)
    && exists h, d :: FirstFit(fs.marked, 0, 1, false, Some(h)) && AllAre(Fill(fs.marked, h, 1, true), d, SectorsFor(length), false)
  }

  lemma CreateSucceedsIff(fs: FS, name: string, length: nat, env: Env)
    ensures FileCreate(fs, name, length, env).1 <==> Creatable(fs, name, length, env)
  {
    var h := Scan(fs.marked, 0, 1);
    if h.Some? {
      var m := Fill(fs.marked, h.value, 1, true);
      var d := Scan(m, 0, SectorsFor(length));
      if d.Some? {
        assert FirstFit(fs.marked, 0, 1, false, Some(h.value)) && AllAre(m, d.value, SectorsFor(length), false);
      }
      forall x | FirstFit(fs.marked, 0, 1, false, Some(x)) ensures x == h.value {
        FirstFitUnique(fs.marked, 0, 1, false, h, Some(x));
      }
    } else {
      forall x ensures !FirstFit(fs.marked, 0, 1, false, Some(x)) {}
    }
  }

  // ---- what a failed read of the directory does to a creation ----

  /** A read of one entry needs memory: it gives the whole entry with it and nothing without. */
  lemma EntryRead(i: nat, memOk: bool)
    requires i <= DIR_SLOTS
    ensures Reaches(ENTRY_BYTES, ENTRY_BYTES * i, ENTRY_BYTES * DIR_SLOTS, memOk)
            == if memOk && i < DIR_SLOTS then ENTRY_BYTES else 0
  {
  }

  // Another entry has the name, behind what the lookup could read.
  ghost predicate NameHidden(dir: seq<Entry>, name: string, env: Env) {
    exists k :: env.seen <= k < |dir| && k != SlotAt(dir, env.scanned) && dir[k].inUse && dir[k].name == name
  }

  // The search for a slot broke off at an entry in use, with no free one in front of it.
  ghost predicate SlotMissed(dir: seq<Entry>, env: Env) {
    env.scanned < |dir| && forall k :: 0 <= k <= env.scanned ==> dir[k].inUse
  }

  /** A creation that succeeds keeps the names apart if and only if no other entry with the name
      was hidden from the lookup. */
  lemma CreateNamesIff(fs: FS, name: string, length: nat, env: Env)
    requires Inv(fs) && DistinctNames(fs.dir) && Creatable(fs, name, length, env)
    ensures DistinctNames(FileCreate(fs, name, length, env).0.dir) <==> !NameHidden(fs.dir, name, env)
  {
    CreateSucceedsIff(fs, name, length, env);
    CreateKeeps(fs, name, length, env);
    var fs', i := FileCreate(fs, name, length, env).0, SlotAt(fs.dir, env.scanned);
    hide Inv, FileCreate, Live;
    if NameHidden(fs.dir, name, env) {
      var k :| env.seen <= k < |fs.dir| && k != i && fs.dir[k].inUse && fs.dir[k].name == name;
      assert fs'.dir[k] == fs.dir[k];
    }
  }

  /** A creation that succeeds keeps every entry in use if and only if the search for a slot did
      not break off at one of them. */
  lemma CreateEntriesIff(fs: FS, name: string, length: nat, env: Env)
    requires Inv(fs) && Creatable(fs, name, length, env)
    ensures var dir' := FileCreate(fs, name, length, env).0.dir;
            |dir'| == |fs.dir| && ((forall k :: 0 <= k < |fs.dir| && fs.dir[k].inUse ==> dir'[k] == fs.dir[k]) <==> !SlotMissed(fs.dir, env))
  {
    CreateSucceedsIff(fs, name, length, env);
    CreateKeeps(fs, name, length, env);
    var fs', i := FileCreate(fs, name, length, env).0, SlotAt(fs.dir, env.scanned);
    SlotMissedIs(fs.dir, env);
    hide Inv, FileCreate, SlotMissed, Opened;
    if fs.dir[i].inUse { assert fs.dir[i].sector in Named(fs.dir); }
  }

  lemma SlotMissedIs(dir: seq<Entry>, env: Env)
    requires SlotAt(dir, env.scanned) < |dir|
    ensures SlotMissed(dir, env) <==> dir[SlotAt(dir, env.scanned)].inUse
  {
    var i := SlotAt(dir, env.scanned);
    hide SlotAt;
    if dir[i].inUse { assert i == env.scanned; } else { assert i <= env.scanned; }
  }

  // Header and data sectors are found and recorded, and there are data sectors.
  ghost predicate TakesData(fs: FS, length: nat, env: Env) {
    && env.rootOk && env.headerOk && env.memOk && env.dataOk && length > 0 && Scan(fs.marked, 0, 1).Some?
    && Scan(Fill(fs.marked, Scan(fs.marked, 0, 1).value, 1, true), 0, SectorsFor(length)).Some?
  }

  /** A creation that fails gives the free map back if and only if it did not get as far as
      taking data sectors: after that only the header's sector is released. */
  lemma FailedCreateIff(fs: FS, name: string, length: nat, env: Env)
    requires !FileCreate(fs, name, length, env).1
    ensures FileCreate(fs, name, length, env).0.marked == fs.marked <==> !TakesData(fs, length, env)
  {
    var h := Scan(fs.marked, 0, 1);
    if env.rootOk && h.Some? && env.headerOk {
      ScanFree(fs.marked, 1);
      FillBack(fs.marked, h.value, 1, false);
      var m := Fill(fs.marked, h.value, 1, true);
      var d := Scan(m, 0, SectorsFor(length));
      if env.memOk && env.dataOk && d.Some? {
        ScanFree(m, SectorsFor(length));
        var m' := FileCreate(fs, name, length, env).0.marked;
        assert m' == Fill(Fill(m, d.value, SectorsFor(length), true), h.value, 1, false);
        if length > 0 {
          assert !m[d.value] && d.value != h.value && !fs.marked[d.value] && m'[d.value];
        } else {
          assert Fill(m, d.value, 0, true) == m;
        }
      }
    }
  }
}
