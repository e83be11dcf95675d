/** The file operations as they run: the free map, the directory and the list of open inodes
    changed in place. */
module FileSystemObject {
  import opened Queues
  import opened Bitmaps
  import opened InodeStore
  import opened FileSystem
  import opened FileSystemRuns

  // Searching a list step by step.
  lemma FindOpenFrom(open: seq<Open>, sector: nat, j: nat)
    requires j <= |open| && forall i :: 0 <= i < j ==> open[i].sector != sector
    ensures j < |open| && open[j].sector == sector ==> FindOpen(open, sector) == Some(j)
    ensures j == |open| ==> FindOpen(open, sector) == None
    decreases j
  {
    if j > 0 { FindOpenFrom(open[1..], sector, j - 1); }
  }

  lemma LookupFrom(dir: seq<Entry>, name: string, n: nat, i: nat)
    requires i <= |dir| && i <= n && forall k :: 0 <= k < i ==> !(dir[k].inUse && dir[k].name == name)
    ensures i < |dir| && i < n && dir[i].inUse && dir[i].name == name ==> Lookup(dir, name, n) == Some(i)
    ensures i == |dir| || i == n ==> Lookup(dir, name, n) == None
    decreases i
  {
    if i > 0 { LookupFrom(dir[1..], name, n - 1, i - 1); }
  }

  lemma SlotFrom(dir: seq<Entry>, n: nat, i: nat)
    requires i <= |dir| && i <= n && forall k :: 0 <= k < i ==> dir[k].inUse
    ensures i == |dir| || i == n || !dir[i].inUse ==> SlotAt(dir, n) == i
    decreases i
  {
    if i > 0 { SlotFrom(dir[1..], n - 1, i - 1); }
  }

  class Files {
    const freeMap: Bitmap
    var headers: map<nat, Extent>
    var dir: seq<Entry>
    var open: seq<Open>

    ghost function View(): FS
      requires freeMap.Valid()
      reads this, freeMap.bits
    {
      FS(freeMap.Contents(), headers, dir, open)
    }

    ghost predicate Valid()
      reads this, freeMap.bits
    {
      freeMap.Valid() && Inv(View())
    }

    // `filesys_init` with formatting, on a device with room for the two system files
    constructor (n: nat)
      requires n >= 2 && Format(n).Some?
      ensures Valid() && fresh(freeMap.bits) && Some(View()) == Format(n)
    {
      freeMap := new Bitmap(n);
      headers, open := map[], [];
      dir := seq(DIR_SLOTS, _ => Entry(false, "", 0));
      new;
      freeMap.SetMultiple(0, 2, true);
      FormatKeeps(n);
      hide Inv;
      var ok := NewInode(FREE_MAP_SECTOR, 4 * ((n + 31) / 32), true, true);
      ok := NewInode(ROOT_DIR_SECTOR, DIR_SLOTS * ENTRY_BYTES, true, true);
      ok := OpenInode(FREE_MAP_SECTOR, true);
    }

    // `lookup`, whose n-th read is the first to fail
    method DirLookup(name: string, n: nat) returns (r: Option<nat>)
      ensures r == Lookup(dir, name, n)
    {
      var i := 0;
      while i < n && i < |dir|
        invariant i <= |dir| && i <= n
        invariant forall k :: 0 <= k < i ==> !(dir[k].inUse && dir[k].name == name)
      {
        LookupFrom(dir, name, n, i);
        if dir[i].inUse && dir[i].name == name { return Some(i); }
        i := i + 1;
      }
      LookupFrom(dir, name, n, i);
      return None;
    }

    // the search of `inode_open`
    method OpenLookup(sector: nat) returns (r: Option<nat>)
      ensures r == FindOpen(open, sector)
    {
      var j := 0;
      while j < |open|
        invariant j <= |open|
        invariant forall i :: 0 <= i < j ==> open[i].sector != sector
      {
        FindOpenFrom(open, sector, j);
        if open[j].sector == sector { return Some(j); }
        j := j + 1;
      }
      FindOpenFrom(open, sector, j);
      return None;
    }

    // `dir_add`
    method AddEntry(name: string, sector: nat, env: Env) returns (ok: bool)
      modifies this`dir
      ensures ok == DirAdd(old(dir), name, sector, env).Some?
      ensures dir == if ok then DirAdd(old(dir), name, sector, env).value else old(dir)
    {
      if name == "" || |name| > NAME_MAX { return false; }
      var found := DirLookup(name, env.seen);
      if found.Some? { return false; }
      var i := 0;
      while i < env.scanned && i < |dir| && dir[i].inUse
        invariant i <= |dir| && i <= env.scanned && forall k :: 0 <= k < i ==> dir[k].inUse
      {
        i := i + 1;
      }
      SlotFrom(dir, env.scanned, i);
      if i == |dir| || !env.dirOk { return false; }
      dir := dir[i := Entry(true, name, sector)];
      return true;
    }

    // `free_map_allocate`
    method Allocate(cnt: nat, writeOk: bool) returns (r: Option<nat>)
      requires freeMap.Valid()
      modifies freeMap.bits
      ensures r == if writeOk then Scan(old(freeMap.Contents()), 0, cnt) else None
      ensures freeMap.Contents() ==
        if r.Some? then Fill(old(freeMap.Contents()), r.value, cnt, true) else old(freeMap.Contents())
    {
      ghost var was := freeMap.Contents();
      r := freeMap.ScanAndFlip(0, cnt, false);
      FirstFitUnique(was, 0, cnt, false, r, Scan(was, 0, cnt));
      if r.Some? && !writeOk {
        FillBack(was, r.value, cnt, false);
        freeMap.SetMultiple(r.value, cnt, false);
        r := None;
      }
    }

    // `inode_create`
    method NewInode(h: nat, length: nat, memOk: bool, writeOk: bool) returns (ok: bool)
      requires freeMap.Valid()
      modifies this`headers, freeMap.bits
      ensures ok == InodeCreate(old(View()), h, length, memOk, writeOk).Some?
      ensures View() == if ok then InodeCreate(old(View()), h, length, memOk, writeOk).value else old(View())
    {
      if !memOk { return false; }
      var at := Allocate(SectorsFor(length), writeOk);
      if at.None? { return false; }
      headers := headers[h := Extent(at.value, length)];
      return true;
    }

    method CreateWith(h: nat, name: string, length: nat, env: Env) returns (ok: bool)
      requires freeMap.Valid() && h < freeMap.bitCnt
      modifies this, freeMap.bits
      ensures (View(), ok) == CreateAt(old(View()), h, name, length, env)
    {
      ok := NewInode(h, length, env.memOk, env.dataOk);
      if ok { ok := AddEntry(name, h, env); }
      if !ok { freeMap.SetMultiple(h, 1, false); }
    }

    // `filesys_create`
    method Create(name: string, length: nat, env: Env) returns (ok: bool)
      requires Valid()
      modifies this, freeMap.bits
      ensures Valid() && (View(), ok) == FileCreate(old(View()), name, length, env)
    {
      ghost var fs := View();
      CreateKeeps(fs, name, length, env);
      hide Inv;
      if !env.rootOk { return false; }
      var h := Allocate(1, env.headerOk);
      if h.None? { return false; }
      ScanFree(fs.marked, 1);
      ok := CreateWith(h.value, name, length, env);
    }

    // `inode_open`
    method OpenInode(sector: nat, memOk: bool) returns (ok: bool)
      requires freeMap.Valid() && sector in headers
      modifies this`open
      ensures ok == InodeOpen(old(View()), sector, memOk).Some?
      ensures View() == if ok then InodeOpen(old(View()), sector, memOk).value else old(View())
    {
      var j := OpenLookup(sector);
      if j.Some? {
        open := open[j.value := open[j.value].(openCnt := open[j.value].openCnt + 1)];
        return true;
      }
      if !memOk { return false; }
      open := [Open(sector, 1, false, headers[sector])] + open;
      return true;
    }

    // `inode_close`
    method CloseInode(j: nat)
      requires Valid() && j < |open|
      modifies this`open, freeMap.bits
      ensures Valid() && View() == InodeClose(old(View()), j)
    {
      ghost var fs := View();
      CloseKeeps(fs, j);
      ClosingInRange(fs, j);
      hide Inv;
      var o := open[j];
      if o.openCnt > 1 {
        open := open[j := o.(openCnt := o.openCnt - 1)];
      } else {
        open := open[..j] + open[j + 1..];
        if o.removed {
          freeMap.SetMultiple(o.sector, 1, false);
          freeMap.SetMultiple(o.data.start, SectorsFor(o.data.length), false);
        }
      }
    }

    // `filesys_open`, up to the file object
    method OpenFile(name: string, env: Env) returns (ok: bool)
      requires Valid()
      modifies this, freeMap.bits
      ensures Valid() && (View(), ok) == FileOpen(old(View()), name, env)
    {
      ghost var fs := View();
      FileOpenKeeps(fs, name, env);
      if !env.rootOk { return false; }
      var i := DirLookup(name, env.seen);
      if i.None? { return false; }
      var s := dir[i.value].sector;
      NamedLive(fs, i.value);
      LiveHeaders(fs, s);
      OpenKeeps(fs, s, env.memOk);
      hide Inv, Live;
      ok := OpenInode(s, env.memOk);
      if !ok { return; }
      if !env.fileOk {
        var j := OpenLookup(s);
        CloseInode(j.value);
        return false;
      }
    }

    // the second half of `dir_remove`, with the file's inode open
    method EraseAndClose(i: nat, j: nat, dirOk: bool)
      requires Valid() && i < |dir| && dir[i].inUse && j < |open| && open[j].sector == dir[i].sector
      modifies this, freeMap.bits
      ensures Valid()
      ensures View() == InodeClose(if dirOk then Erase(old(View()), i, j) else old(View()), j)
    {
      if dirOk {
        EraseKeeps(View(), i, j);
        dir := dir[i := dir[i].(inUse := false)];
        open := open[j := open[j].(removed := true)];
      }
      CloseInode(j);
    }

    // `filesys_remove`
    method RemoveFile(name: string, env: Env) returns (ok: bool)
      requires Valid()
      modifies this, freeMap.bits
      ensures Valid() && (View(), ok) == FileRemove(old(View()), name, env)
    {
      ghost var fs := View();
      if !env.rootOk { return false; }
      var i := DirLookup(name, env.seen);
      if i.None? { return false; }
      var s := dir[i.value].sector;
      NamedLive(fs, i.value);
      LiveHeaders(fs, s);
      OpenKeeps(fs, s, env.memOk);
      hide Inv, Live;
      ok := OpenInode(s, env.memOk);
      if !ok { return; }
      var j := OpenLookup(s);
      EraseAndClose(i.value, j.value, env.dirOk);
      ok := env.dirOk;
    }
  }

  // The assertions of both releases hold.
  lemma ClosingInRange(fs: FS, j: nat)
    requires Inv(fs) && j < |fs.open|
    ensures InRange(fs.marked, fs.open[j].sector, fs.open[j].data)
    ensures AllAre(fs.marked, fs.open[j].sector, 1, true)
    ensures AllAre(fs.marked, fs.open[j].data.start, SectorsFor(fs.open[j].data.length), true)
  {
    var h := fs.open[j].sector;
    assert h in Opened(fs.open);
    OneLessOwned(fs.marked, fs.headers, Live(fs), h);
  }
}
