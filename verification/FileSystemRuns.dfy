/** Sequences of file operations on a formatted device. */
module FileSystemRuns {
  import opened Queues
  import opened Bits
  import opened Bitmaps
  import opened InodeStore
  import opened FileSystem

  // ---- opening and removing by name ----

  lemma NamedLive(fs: FS, i: nat)
    requires Inv(fs) && i < |fs.dir| && fs.dir[i].inUse
    ensures fs.dir[i].sector in Live(fs) && fs.dir[i].sector != FREE_MAP_SECTOR && fs.dir[i].sector != ROOT_DIR_SECTOR
  {
    assert fs.dir[i].sector in Named(fs.dir);
  }

  /** With memory for all reads, opening by name succeeds for exactly the names in the directory. */
  lemma FileOpenKeeps(fs: FS, name: string, env: Env)
    requires Inv(fs)
    ensures var r, i := FileOpen(fs, name, env), Lookup(fs.dir, name, env.seen);
            && Inv(r.0) && r.0.dir == fs.dir && r.0.marked == fs.marked && (!r.1 ==> r.0 == fs)
            && (r.1 ==> i.Some? && FindOpen(r.0.open, fs.dir[i.value].sector).Some?)
            && (env.rootOk && env.memOk && env.fileOk ==> (r.1 <==> i.Some?))
    ensures env.rootOk && env.memOk && env.fileOk && env.seen >= |fs.dir| ==>
              (FileOpen(fs, name, env).1 <==> HasName(fs.dir, name))
  {
    hide Inv, Live;
    var i := Lookup(fs.dir, name, env.seen);
    if env.rootOk && i.Some? {
      var s := fs.dir[i.value].sector;
      NamedLive(fs, i.value);
      OpenKeeps(fs, s, env.memOk);
      if InodeOpen(fs, s, env.memOk).Some? {
        OpenListOk(fs);
        OpenCloseCancels(fs, s, env.memOk);
      }
    }
  }

  lemma OpenListOk(fs: FS)
    requires Inv(fs)
    ensures OpenOk(fs) && DirOk(fs.dir) && Owned(fs.marked, fs.headers, Live(fs))
  {
  }

  // i is the first entry of the name among those that can be read.
  ghost predicate FirstNamed(dir: seq<Entry>, name: string, env: Env, i: nat) {
    && i < |dir| && i < env.seen && dir[i].inUse && dir[i].name == name
    && forall k :: 0 <= k < i && dir[k].inUse ==> dir[k].name != name
  }

  lemma LookupIs(dir: seq<Entry>, name: string, env: Env)
    ensures Lookup(dir, name, env.seen).None? ==> forall i: nat :: !FirstNamed(dir, name, env, i)
    ensures Lookup(dir, name, env.seen).Some? ==> FirstNamed(dir, name, env, Lookup(dir, name, env.seen).value)
    ensures forall i: nat :: FirstNamed(dir, name, env, i) ==> Lookup(dir, name, env.seen) == Some(i)
  {
    var r := Lookup(dir, name, env.seen);
    forall i: nat | FirstNamed(dir, name, env, i) ensures r == Some(i) { assert r.Some? && !(i < r.value) && !(r.value < i); }
  }

  // The inode in that sector is open.
  ghost predicate IsOpen(fs: FS, sector: nat) { exists j :: 0 <= j < |fs.open| && fs.open[j].sector == sector }

  /** Opening succeeds if and only if an entry that can be read has the name, there is memory for the
      file, and the inode is open already or there is memory for it. */
  lemma OpenSucceedsIff(fs: FS, name: string, env: Env)
    requires Inv(fs)
    ensures FileOpen(fs, name, env).1 <==>
              env.rootOk && env.fileOk && exists i: nat :: FirstNamed(fs.dir, name, env, i) && (env.memOk || IsOpen(fs, fs.dir[i].sector))
  {
    LookupIs(fs.dir, name, env);
    FileOpenKeeps(fs, name, env);
    var i := Lookup(fs.dir, name, env.seen);
    if i.Some? {
      NamedLive(fs, i.value);
      OpenKeeps(fs, fs.dir[i.value].sector, env.memOk);
      assert FirstNamed(fs.dir, name, env, i.value);
    }
  }

  /** The opened inode is open once more, and nothing else has changed. */
  lemma OpenCounts(fs: FS, name: string, env: Env, i: nat)
    requires Inv(fs) && FirstNamed(fs.dir, name, env, i) && FileOpen(fs, name, env).1
    ensures var fs', s := FileOpen(fs, name, env).0, fs.dir[i].sector;
            && fs' == fs.(open := fs'.open) && Opens(fs', s) == Opens(fs, s) + 1
            && forall x :: x != s ==> Opens(fs', x) == Opens(fs, x)
  {
    LookupIs(fs.dir, name, env);
    var s := fs.dir[i].sector;
    NamedLive(fs, i);
    OpenKeeps(fs, s, env.memOk);
    var fs' := InodeOpen(fs, s, env.memOk).value;
    OpenListOk(fs);
    forall x ensures Opens(fs', x) == Opens(fs, x) + if x == s then 1 else 0 { OpensAfter(fs, s, env.memOk, x); }
  }

  // How often the inode in that sector is open.
  function Opens(fs: FS, sector: nat): nat {
    match FindOpen(fs.open, sector) case None => 0 case Some(j) => fs.open[j].openCnt
  }

  lemma OpensAfter(fs: FS, s: nat, memOk: bool, x: nat)
    requires OpenOk(fs) && InodeOpen(fs, s, memOk).Some?
    ensures Opens(InodeOpen(fs, s, memOk).value, x) == Opens(fs, x) + if x == s then 1 else 0
  {
    var fs' := InodeOpen(fs, s, memOk).value;
    var found, at := FindOpen(fs.open, s), FindOpen(fs.open, x);
    if found.Some? {
      assert forall k :: 0 <= k < |fs.open| ==> fs'.open[k].sector == fs.open[k].sector;
      if at.Some? {
        assert fs'.open[at.value].sector == x;
        OpenUnique(fs'.open, at.value);
      }
    } else {
      assert fs'.open[0].sector == s && fs'.open[1..] == fs.open;
    }
  }

  /** A close takes one opener away and frees sectors only if it was the last of a removed file: then
      exactly the file's own. */
  lemma CloseCounts(fs: FS, s: nat)
    requires Inv(fs) && FindOpen(fs.open, s).Some?
    ensures var fs', o := InodeClose(fs, FindOpen(fs.open, s).value), fs.open[FindOpen(fs.open, s).value];
            && fs'.dir == fs.dir && fs'.headers == fs.headers && |fs'.marked| == |fs.marked|
            && (forall x :: Opens(fs', x) == Opens(fs, x) - if x == s then 1 else 0)
            && s in fs.headers
            && forall x: nat :: x < |fs.marked| ==>
                 (fs'.marked[x] <==> fs.marked[x] && !(o.removed && Opens(fs, s) == 1 && Owns(fs.headers, s, x)))
  {
    var j := FindOpen(fs.open, s).value;
    CloseKeeps(fs, j);
    OpenListOk(fs);
    assert s in Opened(fs.open) && s in Live(fs);
    LiveHeaders(fs, s);
    OneLessOwned(fs.marked, fs.headers, Live(fs), s);
    hide Inv, Owned, DirOk, Live, Unmark, Owns;
    forall x ensures Opens(InodeClose(fs, j), x) == Opens(fs, x) - if x == s then 1 else 0 { OpensClosed(fs, j, x); }
  }

  lemma OpensClosed(fs: FS, j: nat, x: nat)
    requires OpenOk(fs) && j < |fs.open| && FindOpen(fs.open, fs.open[j].sector) == Some(j)
    ensures Opens(InodeClose(fs, j), x) == Opens(fs, x) - if x == fs.open[j].sector then 1 else 0
  {
    var fs', at := InodeClose(fs, j), FindOpen(fs.open, x);
    if fs.open[j].openCnt > 1 {
      assert forall k :: 0 <= k < |fs.open| ==> fs'.open[k].sector == fs.open[k].sector;
      if at.Some? { OpenUnique(fs'.open, at.value); }
    } else {
      FoundAfterCut(fs.open, j, x);
    }
  }

  // Taking one inode off the list of open ones does not change what is found for the others.
  lemma FoundAfterCut(open: seq<Open>, j: nat, x: nat)
    requires j < |open| && forall i, k :: 0 <= i < k < |open| ==> open[i].sector != open[k].sector
    ensures var at, r := FindOpen(open, x), open[..j] + open[j + 1..];
            match FindOpen(r, x)
            case None => at.None? || at.value == j
            case Some(k) => at.Some? && at.value != j && r[k] == open[at.value]
  {
    var at, r := FindOpen(open, x), open[..j] + open[j + 1..];
    assert forall k :: 0 <= k < |r| ==> r[k] == open[if k < j then k else k + 1];
    if at.Some? && at.value != j {
      var k := if at.value < j then at.value else at.value - 1;
      assert r[k] == open[at.value];
      OpenUnique(r, k);
    }
  }

  lemma NamedErased(dir: seq<Entry>, i: nat)
    requires DirOk(dir) && i < |dir| && dir[i].inUse
    ensures var dir' := dir[i := dir[i].(inUse := false)];
            DirOk(dir') && Named(dir') == Named(dir) - {dir[i].sector}
  {
    var dir' := dir[i := dir[i].(inUse := false)];
    forall k | 0 <= k < |dir| && dir[k].inUse && k != i ensures dir[k].sector in Named(dir') && dir[k].sector != dir[i].sector {
      assert dir'[k] == dir[k];
    }
    forall s | s in Named(dir') ensures s in Named(dir) - {dir[i].sector} {
      var k :| 0 <= k < |dir'| && dir'[k].inUse && dir'[k].sector == s;
      assert dir'[k] == dir[k] && k != i;
    }
  }

  lemma EraseKeeps(fs: FS, i: nat, j: nat)
    requires Inv(fs) && i < |fs.dir| && fs.dir[i].inUse && j < |fs.open| && fs.open[j].sector == fs.dir[i].sector
    ensures Inv(Erase(fs, i, j))
  {
    var fs' := Erase(fs, i, j);
    NamedErased(fs.dir, i);
    NamedLive(fs, i);
    SameOpened(fs.open, fs'.open);
    assert fs.open[j].sector in Opened(fs.open);
    assert Live(fs') == Live(fs);
  }

  /** Removing takes one entry of the name out, and so the name if it was there once. The sectors
      go at once if nobody has the file open, and stay marked otherwise. */
  lemma RemoveKeeps(fs: FS, name: string, env: Env)
    requires Inv(fs)
    ensures var r, i := FileRemove(fs, name, env), Lookup(fs.dir, name, env.seen);
            && Inv(r.0)
            && if r.1 then
                 && i.Some? && r.0.dir == fs.dir[i.value := fs.dir[i.value].(inUse := false)]
                 && (DistinctNames(fs.dir) ==> !HasName(r.0.dir, name))
                 && var s := fs.dir[i.value].sector;
                    r.0.marked == if FindOpen(fs.open, s).Some? then fs.marked else Unmark(fs.marked, s, Header(fs, s))
               else
                 r.0 == fs
  {
    hide HasName, DistinctNames, Unmark;
    var i := Lookup(fs.dir, name, env.seen);
    if env.rootOk && i.Some? {
      var s := fs.dir[i.value].sector;
      NamedLive(fs, i.value);
      OpenKeeps(fs, s, env.memOk);
      if InodeOpen(fs, s, env.memOk).Some? {
        OpenListOk(fs);
        OpenCloseCancels(fs, s, env.memOk);
        if env.dirOk {
          RemovedKeeps(fs, i.value, InodeOpen(fs, s, env.memOk).value, env.memOk);
          RemovedName(fs.dir, i.value);
        }
      }
    }
  }

  /** Removing succeeds if and only if an entry that can be read has the name, the directory can be
      written, and the inode is open already or there is memory for it. */
  lemma RemoveSucceedsIff(fs: FS, name: string, env: Env)
    requires Inv(fs)
    ensures FileRemove(fs, name, env).1 <==>
              env.rootOk && env.dirOk && exists i: nat :: FirstNamed(fs.dir, name, env, i) && (env.memOk || IsOpen(fs, fs.dir[i].sector))
  {
    LookupIs(fs.dir, name, env);
    var i := Lookup(fs.dir, name, env.seen);
    if i.Some? {
      NamedLive(fs, i.value);
      OpenKeeps(fs, fs.dir[i.value].sector, env.memOk);
      assert FirstNamed(fs.dir, name, env, i.value);
    }
  }

  /** After a removal an inode that was open stays open, as removed, and so keeps its sectors until the
      last close; one that was not open is not open then either. The headers stay. */
  lemma RemoveOpens(fs: FS, name: string, env: Env, i: nat)
    requires Inv(fs) && FirstNamed(fs.dir, name, env, i) && FileRemove(fs, name, env).1
    ensures var fs', s := FileRemove(fs, name, env).0, fs.dir[i].sector;
            && fs'.headers == fs.headers
            && match FindOpen(fs.open, s)
               case None => fs'.open == fs.open
               case Some(j) => fs'.open == fs.open[j := fs.open[j].(removed := true)]
  {
    LookupIs(fs.dir, name, env);
    var s := fs.dir[i].sector;
    NamedLive(fs, i);
    OpenKeeps(fs, s, env.memOk);
    OpenListOk(fs);
    hide Inv, Lookup, FirstNamed, InodeClose, Erase, InodeOpen, OpenOk, DirOk, Owned;
    ErasedOpens(fs, s, env.memOk, i);
  }

  lemma ErasedOpens(fs: FS, s: nat, memOk: bool, i: nat)
    requires OpenOk(fs) && i < |fs.dir| && InodeOpen(fs, s, memOk).Some?
    ensures var fs1 := InodeOpen(fs, s, memOk).value;
            && i < |fs1.dir| && FindOpen(fs1.open, s).Some?
            && var j := FindOpen(fs1.open, s).value;
               var fs' := InodeClose(Erase(fs1, i, j), j);
               && fs'.headers == fs.headers
               && match FindOpen(fs.open, s)
                  case None => fs'.open == fs.open
                  case Some(k) => fs'.open == fs.open[k := fs.open[k].(removed := true)]
  {
    var fs1, found := InodeOpen(fs, s, memOk).value, FindOpen(fs.open, s);
    if found.Some? {
      OpenedAgain(fs, s, memOk, found.value);
    } else {
      assert fs1.open == [Open(s, 1, false, Header(fs, s))] + fs.open && fs1.dir == fs.dir && fs1.headers == fs.headers;
      assert fs1.open[0].sector == s && FindOpen(fs1.open, s) == Some(0);
      hide FindOpen, InodeOpen, OpenOk, Header, Erase, InodeClose;
      ErasedFirst(fs1, i, fs.open);
    }
  }

  lemma ErasedFirst(fs: FS, i: nat, rest: seq<Open>)
    requires i < |fs.dir| && |fs.open| > 0 && fs.open[0].openCnt == 1 && fs.open == [fs.open[0]] + rest
    ensures InodeClose(Erase(fs, i, 0), 0).headers == fs.headers && InodeClose(Erase(fs, i, 0), 0).open == rest
  {
    hide Unmark;
    var o := fs.open[0 := fs.open[0].(removed := true)];
    assert Erase(fs, i, 0).open == o && o[..0] + o[1..] == rest;
  }

  lemma OpenedAgain(fs: FS, s: nat, memOk: bool, k: nat)
    requires OpenOk(fs) && FindOpen(fs.open, s) == Some(k)
    ensures var o := fs.open[k].(openCnt := fs.open[k].openCnt + 1);
            && InodeOpen(fs, s, memOk) == Some(fs.(open := fs.open[k := o])) && FindOpen(fs.open[k := o], s) == Some(k)
            && fs.open[k].openCnt >= 1
  {
    var open' := fs.open[k := fs.open[k].(openCnt := fs.open[k].openCnt + 1)];
    assert forall x :: 0 <= x < |fs.open| ==> open'[x].sector == fs.open[x].sector;
    OpenUnique(open', k);
  }

  lemma RemovedName(dir: seq<Entry>, i: nat)
    requires i < |dir| && dir[i].inUse
    ensures DistinctNames(dir) ==> !HasName(dir[i := dir[i].(inUse := false)], dir[i].name)
  {
  }

  lemma RemovedKeeps(fs: FS, i: nat, fs1: FS, memOk: bool)
    requires Inv(fs) && Inv(fs1) && i < |fs.dir| && fs.dir[i].inUse && InodeOpen(fs, fs.dir[i].sector, memOk) == Some(fs1)
    requires FindOpen(fs1.open, fs.dir[i].sector).Some?
    ensures var s := fs.dir[i].sector;
            var r := InodeClose(Erase(fs1, i, FindOpen(fs1.open, s).value), FindOpen(fs1.open, s).value);
            && Inv(r)
            && r.marked == if FindOpen(fs.open, s).Some? then fs.marked else Unmark(fs.marked, s, Header(fs, s))
  {
    var s := fs.dir[i].sector;
    var j := FindOpen(fs1.open, s).value;
    EraseKeeps(fs1, i, j);
    CloseKeeps(Erase(fs1, i, j), j);
    OpenedCount(fs, s, memOk, fs1);
  }

  // The count after opening: one if it was not open before.
  lemma OpenedCount(fs: FS, s: nat, memOk: bool, fs1: FS)
    requires OpenOk(fs) && OpenOk(fs1) && InodeOpen(fs, s, memOk) == Some(fs1) && FindOpen(fs1.open, s).Some?
    ensures var o := fs1.open[FindOpen(fs1.open, s).value];
            o.data == Header(fs, s) && (FindOpen(fs.open, s).None? <==> o.openCnt == 1)
  {
    var found := FindOpen(fs.open, s);
    if found.Some? {
      assert fs1.open[found.value].sector == s;
      OpenUnique(fs1.open, found.value);
    } else {
      assert fs1.open[0].sector == s;
    }
  }

  // ---- formatting ----

  ghost function Format(n: nat): Option<FS>
    requires n >= 2
  {
    match InodeCreate(Unformatted(n), FREE_MAP_SECTOR, 4 * ((n + 31) / 32), true, true)
    case None => None
    case Some(fs1) =>
      match InodeCreate(fs1, ROOT_DIR_SECTOR, DIR_SLOTS * ENTRY_BYTES, true, true)
      case None => None
      case Some(fs2) => InodeOpen(fs2, FREE_MAP_SECTOR, true)
  }

  lemma UnownedUnmarked(marked: seq<bool>, headers: map<nat, Extent>, live: set<nat>, s: nat)
    requires Owned(marked, headers, live) && s < |marked| && forall h :: h in live ==> !Owns(headers, h, s)
    ensures Owned(Fill(marked, s, 1, false), headers, live)
  {
  }

  // A header in a sector set aside for it.
  lemma ReservedOwned(fs: FS, live: set<nat>, h: nat, length: nat)
    requires Owned(fs.marked, fs.headers, live) && h < |fs.marked| && fs.marked[h] && h !in live
    requires forall k :: k in live ==> !Owns(fs.headers, k, h)
    requires InodeCreate(fs, h, length, true, true).Some?
    ensures var fs' := InodeCreate(fs, h, length, true, true).value; Owned(fs'.marked, fs'.headers, live + {h})
  {
    var m := Fill(fs.marked, h, 1, false);
    UnownedUnmarked(fs.marked, fs.headers, live, h);
    FillBack(fs.marked, h, 1, true);
    ScanFree(fs.marked, SectorsFor(length));
    OneMoreOwned(m, fs.headers, live, h, Extent(Scan(fs.marked, 0, SectorsFor(length)).value, length));
  }

  // Before the first system file, and after it.
  ghost function Unformatted(n: nat): FS
    requires n >= 2
  {
    FS(Fill(seq(n, _ => false), 0, 2, true), map[], seq(DIR_SLOTS, _ => Entry(false, "", 0)), [])
  }

  lemma FirstFile(n: nat, length: nat)
    requires n >= 2 && InodeCreate(Unformatted(n), FREE_MAP_SECTOR, length, true, true).Some?
    ensures var fs := InodeCreate(Unformatted(n), FREE_MAP_SECTOR, length, true, true).value;
            && Owned(fs.marked, fs.headers, {FREE_MAP_SECTOR}) && |fs.marked| == n && fs.marked[ROOT_DIR_SECTOR]
            && FREE_MAP_SECTOR in fs.headers && !Owns(fs.headers, FREE_MAP_SECTOR, ROOT_DIR_SECTOR)
            && fs.dir == Unformatted(n).dir && fs.open == []
  {
    var fs0 := Unformatted(n);
    ReservedOwned(fs0, {}, FREE_MAP_SECTOR, length);
    ScanFree(fs0.marked, SectorsFor(length));
    assert {} + {FREE_MAP_SECTOR} == {FREE_MAP_SECTOR};
  }

  lemma SecondFile(fs: FS, length: nat)
    requires Owned(fs.marked, fs.headers, {FREE_MAP_SECTOR}) && 2 <= |fs.marked| && fs.marked[ROOT_DIR_SECTOR]
    requires FREE_MAP_SECTOR in fs.headers && !Owns(fs.headers, FREE_MAP_SECTOR, ROOT_DIR_SECTOR)
    requires InodeCreate(fs, ROOT_DIR_SECTOR, length, true, true).Some?
    requires fs.open == [] && forall i :: 0 <= i < |fs.dir| ==> !fs.dir[i].inUse
    ensures Inv(InodeCreate(fs, ROOT_DIR_SECTOR, length, true, true).value)
  {
    ReservedOwned(fs, {FREE_MAP_SECTOR}, ROOT_DIR_SECTOR, length);
    var fs' := InodeCreate(fs, ROOT_DIR_SECTOR, length, true, true).value;
    assert Named(fs'.dir) == {} && Opened(fs'.open) == {};
    assert Live(fs') == {FREE_MAP_SECTOR} + {ROOT_DIR_SECTOR};
  }

  lemma FormatKeeps(n: nat)
    requires n >= 2 && Format(n).Some?
    ensures Inv(Format(n).value)
  {
    var length := 4 * ((n + 31) / 32);
    FirstFile(n, length);
    var fs1 := InodeCreate(Unformatted(n), FREE_MAP_SECTOR, length, true, true).value;
    SecondFile(fs1, DIR_SLOTS * ENTRY_BYTES);
    var fs2 := InodeCreate(fs1, ROOT_DIR_SECTOR, DIR_SLOTS * ENTRY_BYTES, true, true).value;
    hide Inv, InodeCreate, Owned;
    OpenKeeps(fs2, FREE_MAP_SECTOR, true);
  }

  // ---- runs ----

  datatype Op =
    | DoCreate(name: string, length: nat)
    | DoOpen(name: string)
    | DoRemove(name: string)
    | DoReopen(sector: nat)
    | DoClose(sector: nat)

  // A process reopens and closes only files it has open.
  ghost predicate Step(fs: FS, op: Op, env: Env, fs': FS) {
    match op
    case DoCreate(name, length) => fs' == FileCreate(fs, name, length, env).0
    case DoOpen(name) => fs' == FileOpen(fs, name, env).0
    case DoRemove(name) => fs' == FileRemove(fs, name, env).0
    case DoReopen(s) => FindOpen(fs.open, s).Some? && Some(fs') == InodeOpen(fs, s, true)
    case DoClose(s) => FindOpen(fs.open, s).Some? && fs' == InodeClose(fs, FindOpen(fs.open, s).value)
  }

  lemma StepKeeps(fs: FS, op: Op, env: Env, fs': FS)
    requires Inv(fs) && Step(fs, op, env, fs')
    ensures Inv(fs')
  {
    hide Inv, FileCreate, FileOpen, FileRemove, InodeClose;
    match op
    case DoCreate(name, length) => CreateKeeps(fs, name, length, env);
    case DoOpen(name) => FileOpenKeeps(fs, name, env);
    case DoRemove(name) => RemoveKeeps(fs, name, env);
    case DoReopen(s) => ReopenKeeps(fs, FindOpen(fs.open, s).value);
    case DoClose(s) => CloseKeeps(fs, FindOpen(fs.open, s).value);
  }

  ghost predicate IsRun(n: nat, fss: seq<FS>, ops: seq<Op>, envs: seq<Env>) {
    && n >= 2 && |fss| == |ops| + 1 == |envs| + 1 && Format(n) == Some(fss[0])
    && forall k :: 0 <= k < |ops| ==> Step(fss[k], ops[k], envs[k], fss[k + 1])
  }

  lemma {:induction false} RunKeeps(n: nat, fss: seq<FS>, ops: seq<Op>, envs: seq<Env>, k: nat)
    requires IsRun(n, fss, ops, envs) && k < |fss|
    ensures Inv(fss[k])
  {
    if k == 0 {
      FormatKeeps(n);
    } else {
      RunKeeps(n, fss, ops, envs, k - 1);
      StepKeeps(fss[k - 1], ops[k - 1], envs[k - 1], fss[k]);
    }
  }

  /** In every state of every run: two different headers in use share no sector, and every sector
      of one is marked; a file that is open, removed or not, is in use. */
  lemma RunOwnership(n: nat, fss: seq<FS>, ops: seq<Op>, envs: seq<Env>, k: nat, h: nat, g: nat, s: nat)
    requires IsRun(n, fss, ops, envs) && k < |fss| && h in Live(fss[k]) && g in Live(fss[k])
    ensures h in fss[k].headers && g in fss[k].headers
    ensures Owns(fss[k].headers, h, s) ==> s < |fss[k].marked| && fss[k].marked[s]
    ensures Owns(fss[k].headers, h, s) && Owns(fss[k].headers, g, s) ==> h == g
  {
    RunKeeps(n, fss, ops, envs, k);
  }

  /** In every state of every run, whatever fails: no sector twice among the entries in use nor
      among the open inodes, and no removed inode still named. */
  lemma RunSectors(n: nat, fss: seq<FS>, ops: seq<Op>, envs: seq<Env>, k: nat)
    requires IsRun(n, fss, ops, envs) && k < |fss|
    ensures var fs := fss[k];
            && (forall i, j :: 0 <= i < j < |fs.dir| && fs.dir[i].inUse && fs.dir[j].inUse ==> fs.dir[i].sector != fs.dir[j].sector)
            && (forall i, j :: 0 <= i < j < |fs.open| ==> fs.open[i].sector != fs.open[j].sector)
            && (forall i, j :: 0 <= i < |fs.dir| && fs.dir[i].inUse && 0 <= j < |fs.open| && fs.open[j].removed ==>
                  fs.dir[i].sector != fs.open[j].sector)
  {
    RunKeeps(n, fss, ops, envs, k);
    forall i | 0 <= i < |fss[k].dir| && fss[k].dir[i].inUse ensures fss[k].dir[i].sector in Named(fss[k].dir) {}
  }

  // A write within a file: its bytes on the device become data, and no others change.
  ghost predicate Wrote(before: seq<seq<Byte>>, after: seq<seq<Byte>>, e: Extent, offset: nat, data: seq<Byte>) {
    && Formatted(before) && Formatted(after) && |after| == |before| && (data == [] || offset + |data| <= e.length)
    && Patched(Bytes(before), Place(e, offset), data, Bytes(after))
  }

  // Sectors a write does not reach.
  lemma OtherSector(before: seq<seq<Byte>>, after: seq<seq<Byte>>, e: Extent, offset: nat, data: seq<Byte>, s: nat)
    requires Wrote(before, after, e, offset, data) && s < |before| && !(e.start <= s < e.start + SectorsFor(e.length))
    ensures after[s] == before[s]
  {
    forall i | 0 <= i < SECTOR ensures after[s][i] == before[s][i] {
      SectorBytes(before, s, i);
      SectorBytes(after, s, i);
      hide Bytes;
      if data != [] { assert SECTOR * s + i < Place(e, offset) || Place(e, offset) + |data| <= SECTOR * s + i; }
    }
  }

  /** In every state of every run: a write to one file in use changes exactly that part of its data,
      and no sector of any other file in use, header or data. */
  lemma RunWrites(n: nat, fss: seq<FS>, ops: seq<Op>, envs: seq<Env>, k: nat, h: nat, g: nat,
                  before: seq<seq<Byte>>, after: seq<seq<Byte>>, offset: nat, data: seq<Byte>)
    requires IsRun(n, fss, ops, envs) && k < |fss| && h in Live(fss[k]) && g in Live(fss[k]) && h in fss[k].headers && g in fss[k].headers
    requires |before| == |fss[k].marked| && Wrote(before, after, fss[k].headers[h], offset, data)
    ensures var e := fss[k].headers[h];
            Fits(before, e) && Fits(after, e) && Patched(Data(before, e), offset, data, Data(after, e))
    ensures h != g ==> forall s: nat :: Owns(fss[k].headers, g, s) ==> s < |before| && after[s] == before[s]
  {
    RunKeeps(n, fss, ops, envs, k);
    var e := fss[k].headers[h];
    hide IsRun, Step;
    WriteEffect(before, after, e, e, offset, data);
    forall s: nat | h != g && Owns(fss[k].headers, g, s) ensures s < |before| && after[s] == before[s] {
      assert !Owns(fss[k].headers, h, s);
      OtherSector(before, after, e, offset, data, s);
    }
  }

  // ---- names and entries over runs ----

  // The step does not create a name that memory hid from the lookup.
  ghost predicate SeesNames(fs: FS, op: Op, env: Env) {
    op.DoCreate? && Creatable(fs, op.name, op.length, env) ==> !NameHidden(fs.dir, op.name, env)
  }

  // The step does not write its entry over another.
  ghost predicate SparesEntries(fs: FS, op: Op, env: Env) {
    op.DoCreate? && Creatable(fs, op.name, op.length, env) ==> !SlotMissed(fs.dir, env)
  }

  lemma StepNamesIff(fs: FS, op: Op, env: Env, fs': FS)
    requires Inv(fs) && DistinctNames(fs.dir) && Step(fs, op, env, fs')
    ensures DistinctNames(fs'.dir) <==> SeesNames(fs, op, env)
  {
    match op
    case DoCreate(name, length) =>
      CreateKeeps(fs, name, length, env);
      CreateSucceedsIff(fs, name, length, env);
      if Creatable(fs, name, length, env) { CreateNamesIff(fs, name, length, env); }
    case DoOpen(name) => FileOpenKeeps(fs, name, env);
    case DoRemove(name) => RemoveKeeps(fs, name, env);
    case DoReopen(s) =>
    case DoClose(s) =>
  }

  lemma FormatEmpty(n: nat)
    requires n >= 2 && Format(n).Some?
    ensures forall i :: 0 <= i < |Format(n).value.dir| ==> !Format(n).value.dir[i].inUse
  {
    assert Format(n).value.dir == Unformatted(n).dir;
  }

  ghost predicate NamesApart(fss: seq<FS>, k: nat) {
    forall j :: 0 <= j <= k && j < |fss| ==> DistinctNames(fss[j].dir)
  }

  ghost predicate NamesSeen(fss: seq<FS>, ops: seq<Op>, envs: seq<Env>, k: nat)
    requires k <= |ops| == |envs| && k < |fss|
  {
    forall j :: 0 <= j < k ==> SeesNames(fss[j], ops[j], envs[j])
  }

  /** A run keeps the names apart in all its states if and only if it never creates a name that
      memory hid from the lookup. */
  lemma {:induction false} RunNamesIff(n: nat, fss: seq<FS>, ops: seq<Op>, envs: seq<Env>, k: nat)
    requires IsRun(n, fss, ops, envs) && k < |fss|
    ensures NamesApart(fss, k) <==> NamesSeen(fss, ops, envs, k)
  {
    if k == 0 {
      FormatEmpty(n);
    } else {
      RunNamesIff(n, fss, ops, envs, k - 1);
      RunKeeps(n, fss, ops, envs, k - 1);
      assert Step(fss[k - 1], ops[k - 1], envs[k - 1], fss[k]);
      hide *;
      NamesNext(fss, ops, envs, k);
      if DistinctNames(fss[k - 1].dir) { StepNamesIff(fss[k - 1], ops[k - 1], envs[k - 1], fss[k]); }
    }
  }

  lemma NamesNext(fss: seq<FS>, ops: seq<Op>, envs: seq<Env>, k: nat)
    requires 0 < k <= |ops| == |envs| && k < |fss|
    ensures NamesApart(fss, k) <==> NamesApart(fss, k - 1) && DistinctNames(fss[k].dir)
    ensures NamesApart(fss, k - 1) ==> DistinctNames(fss[k - 1].dir)
    ensures NamesSeen(fss, ops, envs, k) <==> NamesSeen(fss, ops, envs, k - 1) && SeesNames(fss[k - 1], ops[k - 1], envs[k - 1])
  {
    hide SeesNames, DistinctNames;
  }

  /** An entry goes only by a removal of its own name if and only if the step does not write over
      it. */
  lemma StepEntriesIff(fs: FS, op: Op, env: Env, fs': FS)
    requires Inv(fs) && Step(fs, op, env, fs')
    ensures |fs'.dir| == |fs.dir|
    ensures (forall k :: 0 <= k < |fs.dir| && fs.dir[k].inUse && fs'.dir[k] != fs.dir[k] ==> op.DoRemove? && op.name == fs.dir[k].name)
            <==> SparesEntries(fs, op, env)
  {
    match op
    case DoCreate(name, length) =>
      CreateKeeps(fs, name, length, env);
      CreateSucceedsIff(fs, name, length, env);
      if Creatable(fs, name, length, env) { CreateEntriesIff(fs, name, length, env); }
    case DoOpen(name) => FileOpenKeeps(fs, name, env);
    case DoRemove(name) => RemoveKeeps(fs, name, env);
    case DoReopen(s) =>
    case DoClose(s) =>
  }
}
