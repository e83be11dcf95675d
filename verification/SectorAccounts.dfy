/** Whether every sector marked in the free map belongs to a file in use, and which steps lose some. */
module SectorAccounts {
  import opened Queues
  import opened Bits
  import opened Bitmaps
  import opened InodeStore
  import opened FileSystem
  import opened FileSystemRuns
  import opened FileSystemWitnesses

  ghost predicate HasOwner(fs: FS, s: nat) { exists h :: h in Live(fs) && h in fs.headers && Owns(fs.headers, h, s) }

  // Every marked sector is the header or data of a file in use.
  ghost predicate Tight(fs: FS) { forall s: nat :: s < |fs.marked| && fs.marked[s] ==> HasOwner(fs, s) }

  // An open inode that is not removed can still be found.
  ghost predicate Anchored(fs: FS) {
    forall j :: 0 <= j < |fs.open| ==> fs.open[j].removed || fs.open[j].sector in Named(fs.dir) + {FREE_MAP_SECTOR, ROOT_DIR_SECTOR}
  }

  ghost predicate Exact(fs: FS) { Tight(fs) && Anchored(fs) }

  lemma SameTight(fs: FS, fs': FS)
    requires Tight(fs) && fs'.marked == fs.marked && Live(fs) <= Live(fs')
    requires forall h :: h in Live(fs) && h in fs.headers ==> h in fs'.headers && fs'.headers[h] == fs.headers[h]
    ensures Tight(fs')
  {
    hide Live;
    forall s: nat | s < |fs.marked| && fs.marked[s] ensures HasOwner(fs', s) {
      assert HasOwner(fs, s);
      var h :| h in Live(fs) && h in fs.headers && Owns(fs.headers, h, s);
      assert Owns(fs'.headers, h, s);
    }
  }

  // ---- closing, opening, erasing ----

  lemma CutAnchored(fs: FS, j: nat, fs': FS)
    requires Anchored(fs) && j < |fs.open| && fs'.open == fs.open[..j] + fs.open[j + 1..] && fs'.dir == fs.dir
    ensures Anchored(fs')
  {
    assert forall i :: 0 <= i < |fs'.open| ==> fs'.open[i] == fs.open[if i < j then i else i + 1];
  }

  // The last close of a removed inode: its sectors go, and with them their owner.
  lemma FreedTight(fs: FS, fs': FS, h: nat)
    requires Inv(fs) && Tight(fs) && h in Live(fs) && h in fs.headers && Live(fs') == Live(fs) - {h}
    requires fs'.headers == fs.headers && fs'.marked == Unmark(fs.marked, h, fs.headers[h])
    ensures Tight(fs')
  {
    OneLessOwned(fs.marked, fs.headers, Live(fs), h);
    hide Inv, Live, Unmark;
    forall s: nat | s < |fs'.marked| && fs'.marked[s] ensures HasOwner(fs', s) {
      assert fs.marked[s] && !Owns(fs.headers, h, s) && HasOwner(fs, s);
      var k :| k in Live(fs) && k in fs.headers && Owns(fs.headers, k, s);
      assert k in Live(fs') && Owns(fs'.headers, k, s);
    }
  }

  lemma CloseExact(fs: FS, j: nat)
    requires Inv(fs) && Exact(fs) && j < |fs.open|
    ensures Exact(InodeClose(fs, j))
  {
    var o, fs' := fs.open[j], InodeClose(fs, j);
    if o.openCnt > 1 {
      SameOpened(fs.open, fs'.open);
      SameTight(fs, fs');
    } else {
      CutAnchored(fs, j, fs');
      CloseLive(fs, j, fs');
      if o.removed {
        LiveHeaders(fs, o.sector);
        FreedTight(fs, fs', o.sector);
      } else {
        OpenedCut(fs.open, j);
        SameTight(fs, fs');
      }
    }
  }

  lemma OpenExact(fs: FS, s: nat, memOk: bool)
    requires Inv(fs) && Exact(fs) && s in Live(fs) && InodeOpen(fs, s, memOk).Some?
    requires FindOpen(fs.open, s).Some? || s in Named(fs.dir)
    ensures Exact(InodeOpen(fs, s, memOk).value)
  {
    var fs' := InodeOpen(fs, s, memOk).value;
    OpenKeeps(fs, s, memOk);
    SameTight(fs, fs');
    var found := FindOpen(fs.open, s);
    hide Inv, Live, FindOpen;
    if found.None? { assert forall i :: 1 <= i < |fs'.open| ==> fs'.open[i] == fs.open[i - 1]; }
  }

  lemma EraseExact(fs: FS, i: nat, j: nat)
    requires Inv(fs) && Exact(fs) && i < |fs.dir| && fs.dir[i].inUse && j < |fs.open| && fs.open[j].sector == fs.dir[i].sector
    ensures Exact(Erase(fs, i, j))
  {
    var fs' := Erase(fs, i, j);
    NamedErased(fs.dir, i);
    NamedLive(fs, i);
    SameOpened(fs.open, fs'.open);
    assert fs.open[j].sector in Opened(fs.open);
    assert Live(fs') == Live(fs);
    SameTight(fs, fs');
  }

  lemma RemoveExact(fs: FS, name: string, env: Env)
    requires Inv(fs) && Exact(fs)
    ensures Exact(FileRemove(fs, name, env).0)
  {
    RemoveKeeps(fs, name, env);
    if FileRemove(fs, name, env).1 {
      var i := Lookup(fs.dir, name, env.seen).value;
      var s := fs.dir[i].sector;
      NamedLive(fs, i);
      assert s in Named(fs.dir);
      OpenKeeps(fs, s, env.memOk);
      OpenExact(fs, s, env.memOk);
      var fs1 := InodeOpen(fs, s, env.memOk).value;
      var j := FindOpen(fs1.open, s).value;
      hide Inv, Exact, Live, Named, InodeOpen, Lookup, FindOpen, Erase, InodeClose;
      EraseKeeps(fs1, i, j);
      EraseExact(fs1, i, j);
      CloseExact(Erase(fs1, i, j), j);
    }
  }

  // ---- creating ----

  // A failed creation: the files in use are as before, and no mark has gone.
  ghost predicate OnlyMarks(fs: FS, fs': FS) {
    && fs'.dir == fs.dir && fs'.open == fs.open && |fs'.marked| == |fs.marked|
    && (forall h :: h in Live(fs) && h in fs.headers ==> h in fs'.headers && fs'.headers[h] == fs.headers[h])
    && forall s :: 0 <= s < |fs.marked| && fs.marked[s] ==> fs'.marked[s]
  }

  lemma FailedMarks(fs: FS, name: string, length: nat, env: Env)
    requires Inv(fs) && !FileCreate(fs, name, length, env).1
    ensures OnlyMarks(fs, FileCreate(fs, name, length, env).0)
  {
    var h := Scan(fs.marked, 0, 1);
    if env.rootOk && h.Some? && env.headerOk {
      ScanFree(fs.marked, 1);
      FillBack(fs.marked, h.value, 1, false);
      UnmarkedNotLive(fs, h.value);
      hide Inv, Live, DirAdd;
    }
  }

  lemma FailedExact(fs: FS, fs': FS)
    requires Inv(fs) && Exact(fs) && OnlyMarks(fs, fs')
    ensures Exact(fs') <==> fs'.marked == fs.marked
  {
    assert Live(fs') == Live(fs);
    if fs'.marked == fs.marked {
      SameTight(fs, fs');
    } else {
      var s: nat :| s < |fs.marked| && fs'.marked[s] != fs.marked[s];
      forall h | h in Live(fs') && h in fs'.headers ensures !Owns(fs'.headers, h, s) {
        assert Owns(fs'.headers, h, s) ==> Owns(fs.headers, h, s);
      }
      assert !HasOwner(fs', s);
    }
  }

  lemma CreatedNamed(fs: FS, fs': FS, name: string, length: nat, env: Env)
    requires DirOk(fs.dir) && Created(fs, fs', name, length, env)
    ensures var i := SlotAt(fs.dir, env.scanned);
            Named(fs'.dir) == (if fs.dir[i].inUse then Named(fs.dir) - {fs.dir[i].sector} else Named(fs.dir)) + {fs'.dir[i].sector}
  {
    var i := SlotAt(fs.dir, env.scanned);
    hide SlotAt, Live, Owns;
    assert fs'.dir[i].sector in Named(fs'.dir);
    forall k | 0 <= k < |fs.dir| && fs.dir[k].inUse && k != i ensures fs.dir[k].sector in Named(fs'.dir) { assert fs'.dir[k] == fs.dir[k]; }
  }

  // A new entry in a free slot.
  lemma AddedExact(fs: FS, fs': FS, name: string, length: nat, env: Env)
    requires Inv(fs) && Exact(fs) && Created(fs, fs', name, length, env) && fs'.open == fs.open
    requires !fs.dir[SlotAt(fs.dir, env.scanned)].inUse
    ensures Exact(fs')
  {
    CreatedNamed(fs, fs', name, length, env);
    var h := fs'.dir[SlotAt(fs.dir, env.scanned)].sector;
    assert Live(fs') == Live(fs) + {h};
    hide Inv, Live, SlotAt;
    forall s: nat | s < |fs'.marked| && fs'.marked[s] ensures HasOwner(fs', s) {
      if Owns(fs'.headers, h, s) {
        assert h in Live(fs');
      } else {
        assert HasOwner(fs, s);
        var k :| k in Live(fs) && k in fs.headers && Owns(fs.headers, k, s);
        assert k in Live(fs') && Owns(fs'.headers, k, s);
      }
    }
  }

  // A new entry over another: that file is lost, or open with nothing to find it by.
  lemma OverwrittenInexact(fs: FS, fs': FS, name: string, length: nat, env: Env)
    requires Inv(fs) && Created(fs, fs', name, length, env) && fs'.open == fs.open
    requires fs.dir[SlotAt(fs.dir, env.scanned)].inUse
    ensures !Exact(fs')
  {
    CreatedNamed(fs, fs', name, length, env);
    var i := SlotAt(fs.dir, env.scanned);
    var h, v := fs'.dir[i].sector, fs.dir[i].sector;
    NamedLive(fs, i);
    assert v !in Named(fs'.dir) && v != 0 && v != 1;
    if FindOpen(fs.open, v).Some? {
      var j := FindOpen(fs.open, v).value;
      assert v in Named(fs.dir) && !fs.open[j].removed;
      assert !Anchored(fs');
    } else {
      assert v !in Opened(fs.open);
      LostOwner(fs, fs', h, v);
    }
  }

  lemma LostOwner(fs: FS, fs': FS, h: nat, v: nat)
    requires Inv(fs) && v in Live(fs) && v !in Live(fs') && Live(fs') <= Live(fs) + {h} && h in fs'.headers && v != h
    requires fs'.headers == fs.headers[h := fs'.headers[h]] && |fs'.marked| == |fs.marked|
    requires forall s: nat :: s < |fs.marked| ==> (fs'.marked[s] <==> fs.marked[s] || Owns(fs'.headers, h, s))
    requires forall s: nat :: Owns(fs'.headers, h, s) ==> s < |fs.marked| && !fs.marked[s]
    ensures !Tight(fs')
  {
    assert v in fs.headers && Owns(fs.headers, v, v) && v < |fs.marked| && fs.marked[v];
    forall k | k in Live(fs') && k in fs'.headers ensures !Owns(fs'.headers, k, v) {
      if k != h { assert Owns(fs'.headers, k, v) ==> k in Live(fs) && k in fs.headers && Owns(fs.headers, k, v); }
    }
    assert !HasOwner(fs', v);
  }

  // ---- steps and runs ----

  /** The step takes no data sectors for a file it then fails to create, and writes its entry over no
      other. */
  ghost predicate Saves(fs: FS, op: Op, env: Env) {
    op.DoCreate? ==> if Creatable(fs, op.name, op.length, env) then !SlotMissed(fs.dir, env) else !TakesData(fs, op.length, env)
  }

  lemma CreateExactIff(fs: FS, name: string, length: nat, env: Env)
    requires Inv(fs) && Exact(fs)
    ensures Exact(FileCreate(fs, name, length, env).0) <==> Saves(fs, DoCreate(name, length), env)
  {
    var fs' := FileCreate(fs, name, length, env).0;
    CreateSucceedsIff(fs, name, length, env);
    CreateKeeps(fs, name, length, env);
    if Creatable(fs, name, length, env) {
      SlotMissedIs(fs.dir, env);
      hide Inv, Exact, FileCreate, Creatable, SlotMissed;
      if fs.dir[SlotAt(fs.dir, env.scanned)].inUse {
        OverwrittenInexact(fs, fs', name, length, env);
      } else {
        AddedExact(fs, fs', name, length, env);
      }
    } else {
      hide Inv, Exact, FileCreate, Creatable, TakesData;
      FailedMarks(fs, name, length, env);
      FailedExact(fs, fs');
      FailedCreateIff(fs, name, length, env);
    }
  }

  /** Where every marked sector has an owner, a step keeps it so if and only if it saves. */
  lemma StepExactIff(fs: FS, op: Op, env: Env, fs': FS)
    requires Inv(fs) && Exact(fs) && Step(fs, op, env, fs')
    ensures Exact(fs') <==> Saves(fs, op, env)
  {
    hide Inv, Exact, FileCreate, FileRemove, InodeClose;
    match op
    case DoCreate(name, length) => CreateExactIff(fs, name, length, env);
    case DoOpen(name) => FileOpenExact(fs, name, env);
    case DoRemove(name) => RemoveExact(fs, name, env);
    case DoReopen(s) => ReopenExact(fs, s);
    case DoClose(s) => CloseExact(fs, FindOpen(fs.open, s).value);
  }

  lemma ReopenExact(fs: FS, s: nat)
    requires Inv(fs) && Exact(fs) && FindOpen(fs.open, s).Some?
    ensures InodeOpen(fs, s, true).Some? && Exact(InodeOpen(fs, s, true).value)
  {
    assert fs.open[FindOpen(fs.open, s).value].sector in Opened(fs.open);
    OpenExact(fs, s, true);
  }

  lemma FileOpenExact(fs: FS, name: string, env: Env)
    requires Inv(fs) && Exact(fs)
    ensures Exact(FileOpen(fs, name, env).0)
  {
    FileOpenKeeps(fs, name, env);
    if FileOpen(fs, name, env).1 {
      var i := Lookup(fs.dir, name, env.seen).value;
      NamedLive(fs, i);
      assert fs.dir[i].sector in Named(fs.dir);
      OpenKeeps(fs, fs.dir[i].sector, env.memOk);
      hide Inv, Exact, Live, Named, InodeOpen;
      OpenExact(fs, fs.dir[i].sector, env.memOk);
    }
  }

  lemma FormatExact(n: nat)
    requires n >= 2 && Format(n).Some?
    ensures Exact(Format(n).value)
  {
    FormatIff(n);
    var fs, k := Format(n).value, MapSectors(n);
    forall s: nat | s < |fs.marked| && fs.marked[s] ensures HasOwner(fs, s) {
      var h := if s == 0 || 2 <= s < 2 + k then 0 else 1;
      assert h in Live(fs) && h in fs.headers && Owns(fs.headers, h, s);
    }
  }

  ghost predicate ExactUpTo(fss: seq<FS>, k: nat) { forall j :: 0 <= j <= k && j < |fss| ==> Exact(fss[j]) }

  ghost predicate SavesUpTo(fss: seq<FS>, ops: seq<Op>, envs: seq<Env>, k: nat)
    requires k <= |ops| == |envs| && k < |fss|
  {
    forall j :: 0 <= j < k ==> Saves(fss[j], ops[j], envs[j])
  }

  lemma ExactNext(fss: seq<FS>, ops: seq<Op>, envs: seq<Env>, k: nat)
    requires 0 < k <= |ops| == |envs| && k < |fss|
    ensures ExactUpTo(fss, k) <==> ExactUpTo(fss, k - 1) && Exact(fss[k])
    ensures ExactUpTo(fss, k - 1) ==> Exact(fss[k - 1])
    ensures SavesUpTo(fss, ops, envs, k) <==> SavesUpTo(fss, ops, envs, k - 1) && Saves(fss[k - 1], ops[k - 1], envs[k - 1])
  {
    hide Saves, Exact;
  }

  /** A run has an owner for every marked sector in all its states if and only if all its steps save. */
  lemma {:induction false} RunExactIff(n: nat, fss: seq<FS>, ops: seq<Op>, envs: seq<Env>, k: nat)
    requires IsRun(n, fss, ops, envs) && k < |fss|
    ensures ExactUpTo(fss, k) <==> SavesUpTo(fss, ops, envs, k)
  {
    if k == 0 {
      FormatExact(n);
    } else {
      RunExactIff(n, fss, ops, envs, k - 1);
      RunKeeps(n, fss, ops, envs, k - 1);
      assert Step(fss[k - 1], ops[k - 1], envs[k - 1], fss[k]);
      hide *;
      ExactNext(fss, ops, envs, k);
      if Exact(fss[k - 1]) { StepExactIff(fss[k - 1], ops[k - 1], envs[k - 1], fss[k]); }
    }
  }

  /** So in such a run the marked sectors are exactly those of the files in use: a sector is free
      again as soon as the last of name and openers of its file is gone. */
  lemma SavingRunMarks(n: nat, fss: seq<FS>, ops: seq<Op>, envs: seq<Env>, k: nat, s: nat)
    requires IsRun(n, fss, ops, envs) && k < |fss| && SavesUpTo(fss, ops, envs, k) && s < |fss[k].marked|
    ensures fss[k].marked[s] <==> HasOwner(fss[k], s)
  {
    RunExactIff(n, fss, ops, envs, k);
    RunKeeps(n, fss, ops, envs, k);
    assert Exact(fss[k]);
    hide IsRun, SavesUpTo;
  }
}
