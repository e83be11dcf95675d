/** Runs of the file system that lose something: sectors after a failed creation, and names and
    entries when memory fails during one. */
module FileSystemWitnesses {
  import opened Queues
  import opened Bitmaps
  import opened InodeStore
  import opened FileSystem
  import opened FileSystemRuns

  const ROOM: Env := Env(true, true, true, true, 16, 16, true, true)
  // memory fails at the first read of either scan, and not at the write
  const BLIND: Env := ROOM.(seen := 0, scanned := 0)

  // The first m of n sectors are taken.
  ghost function Prefix(m: nat, n: nat): (s: seq<bool>) { seq(n, i => i < m) }

  lemma PrefixScan(m: nat, n: nat, cnt: nat)
    requires 0 < cnt && m + cnt <= n
    ensures Scan(Prefix(m, n), 0, cnt) == Some(m) && Fill(Prefix(m, n), m, cnt, true) == Prefix(m + cnt, n)
  {
    var s := Prefix(m, n);
    forall i | 0 <= i < m ensures !AllAre(s, i, cnt, false) { assert s[i]; }
    FirstFitUnique(s, 0, cnt, false, Scan(s, 0, cnt), Some(m));
  }

  lemma PrefixFull(m: nat, n: nat, cnt: nat)
    requires m <= n < m + cnt
    ensures Scan(Prefix(m, n), 0, cnt) == None
  {
    var s := Prefix(m, n);
    forall i: nat ensures !AllAre(s, i, cnt, false) { if i < m { assert s[i]; } }
    FirstFitUnique(s, 0, cnt, false, Scan(s, 0, cnt), None);
  }

  // The sectors of the free map's file: a bit for each sector, in whole words.
  function MapSectors(n: nat): (k: nat)
    ensures n > 0 ==> k > 0
  {
    SectorsFor(4 * ((n + 31) / 32))
  }

  // After formatting, the system files have the first sectors, and nobody else has any.
  ghost predicate Fresh(n: nat, fs: FS) {
    && fs.marked == Prefix(3 + MapSectors(n), n) && fs.headers.Keys == {0, 1} && fs.open == [Open(0, 1, false, fs.headers[0])]
    && fs.headers[0] == Extent(2, 4 * ((n + 31) / 32)) && fs.headers[1] == Extent(2 + MapSectors(n), 320)
    && fs.dir == seq(DIR_SLOTS, _ => Entry(false, "", 0))
  }

  /** Formatting succeeds if and only if there is room for two headers, the free map and one sector of
      directory, and takes exactly those sectors. */
  lemma FormatIff(n: nat)
    requires n >= 2
    ensures Format(n).Some? <==> 3 + MapSectors(n) <= n
    ensures Format(n).Some? ==> Fresh(n, Format(n).value)
  {
    var fs0, len, k := Unformatted(n), 4 * ((n + 31) / 32), MapSectors(n);
    assert fs0.marked == Prefix(2, n) && SectorsFor(DIR_SLOTS * ENTRY_BYTES) == 1;
    if 2 + k > n {
      PrefixFull(2, n, k);
    } else {
      PrefixScan(2, n, k);
      if 3 + k > n {
        PrefixFull(2 + k, n, 1);
        hide Scan, Prefix, Fill, SectorsFor;
        assert InodeCreate(fs0, 0, len, true, true).value.marked == Prefix(2 + k, n);
      } else {
        PrefixScan(2 + k, n, 1);
        FormattedIs(n, fs0, len, k);
      }
    }
  }

  lemma FormattedIs(n: nat, fs0: FS, len: nat, k: nat)
    requires n >= 2 && fs0 == Unformatted(n) && len == 4 * ((n + 31) / 32) && k == MapSectors(n) && 3 + k <= n
    requires fs0.marked == Prefix(2, n) && SectorsFor(DIR_SLOTS * ENTRY_BYTES) == 1
    requires Scan(Prefix(2, n), 0, k) == Some(2) && Fill(Prefix(2, n), 2, k, true) == Prefix(2 + k, n)
    requires Scan(Prefix(2 + k, n), 0, 1) == Some(2 + k) && Fill(Prefix(2 + k, n), 2 + k, 1, true) == Prefix(3 + k, n)
    ensures Format(n).Some? && Fresh(n, Format(n).value)
  {
    hide Scan, Prefix, Fill, SectorsFor;
    var fs1 := InodeCreate(fs0, 0, len, true, true).value;
    var fs2 := InodeCreate(fs1, 1, DIR_SLOTS * ENTRY_BYTES, true, true).value;
    assert fs2.headers.Keys == {0, 1};
    assert [Open(0, 1, false, fs2.headers[0])] + [] == [Open(0, 1, false, fs2.headers[0])];
  }

  lemma FormatSmall(n: nat)
    requires 4 <= n <= 4096
    ensures Format(n).Some? && Fresh(n, Format(n).value) && MapSectors(n) == 1
  {
    FormatIff(n);
  }

  // Adding an entry where the search stops, or not at all.
  lemma AddsAt(dir: seq<Entry>, name: string, h: nat, env: Env, i: nat)
    requires name != "" && |name| <= NAME_MAX && env.dirOk && i < |dir| && i <= env.scanned
    requires forall k :: 0 <= k < |dir| && k < env.seen && dir[k].inUse ==> dir[k].name != name
    requires (forall k :: 0 <= k < i ==> dir[k].inUse) && (i == env.scanned || !dir[i].inUse)
    ensures DirAdd(dir, name, h, env) == Some(dir[i := Entry(true, name, h)])
  {
  }

  lemma AddsNot(dir: seq<Entry>, name: string, h: nat, env: Env, k: nat)
    requires k < |dir| && k < env.seen && dir[k].inUse && dir[k].name == name
    ensures DirAdd(dir, name, h, env).None?
  {
  }

  // Creating a file of one sector where the first m sectors are taken.
  lemma CreateAtPrefix(fs: FS, n: nat, m: nat, name: string, env: Env)
    requires fs.marked == Prefix(m, n) && m + 2 <= n
    requires env.rootOk && env.headerOk && env.memOk && env.dataOk
    ensures TakesData(fs, SECTOR, env)
    ensures var r := FileCreate(fs, name, SECTOR, env);
            match DirAdd(fs.dir, name, m, env)
            case None => r == (FS(Fill(Prefix(m + 2, n), m, 1, false), fs.headers[m := Extent(m + 1, SECTOR)], fs.dir, fs.open), false)
            case Some(dir) => r == (FS(Prefix(m + 2, n), fs.headers[m := Extent(m + 1, SECTOR)], dir, fs.open), true)
  {
    PrefixScan(m, n, 1);
    PrefixScan(m + 1, n, 1);
    assert SectorsFor(SECTOR) == 1;
    hide Scan, Prefix, Fill, DirAdd, SectorsFor;
  }

  // A file of one sector made where the first m sectors are taken, named in entry i.
  ghost predicate Made(n: nat, fs: FS, fs': FS, m: nat, i: nat, name: string) {
    && i < |fs.dir| && fs'.marked == Prefix(m + 2, n) && fs'.headers == fs.headers[m := Extent(m + 1, SECTOR)]
    && fs'.dir == fs.dir[i := Entry(true, name, m)] && fs'.open == fs.open
  }

  lemma Makes(n: nat, fs: FS, m: nat, name: string, env: Env, i: nat)
    requires fs.marked == Prefix(m, n) && m + 2 <= n && env.rootOk && env.headerOk && env.memOk && env.dataOk
    requires name != "" && |name| <= NAME_MAX && env.dirOk && i < |fs.dir| && i <= env.scanned
    requires forall k :: 0 <= k < |fs.dir| && k < env.seen && fs.dir[k].inUse ==> fs.dir[k].name != name
    requires (forall k :: 0 <= k < i ==> fs.dir[k].inUse) && (i == env.scanned || !fs.dir[i].inUse)
    ensures Made(n, fs, FileCreate(fs, name, SECTOR, env).0, m, i, name)
  {
    CreateAtPrefix(fs, n, m, name, env);
    AddsAt(fs.dir, name, m, env, i);
  }

  // What the second creation of a name leaves behind.
  ghost predicate Lost(n: nat, fs: FS, fs': FS) {
    && |fs.marked| == n == |fs'.marked| && 7 < n && !fs.marked[7] && fs'.marked[7]
    && Live(fs') == {0, 1, 4} && 4 in fs'.headers && !Owns(fs'.headers, 4, 7)
  }

  lemma SecondFails(n: nat, fs: FS, name: string)
    requires 8 <= n && fs.marked == Prefix(6, n) && 4 in fs.headers && fs.headers[4] == Extent(5, SECTOR)
    requires fs.dir == seq(DIR_SLOTS, _ => Entry(false, "", 0))[0 := Entry(true, name, 4)]
    requires |fs.open| == 1 && fs.open[0].sector == 0
    ensures TakesData(fs, SECTOR, ROOM) && !FileCreate(fs, name, SECTOR, ROOM).1
    ensures Lost(n, fs, FileCreate(fs, name, SECTOR, ROOM).0)
  {
    CreateAtPrefix(fs, n, 6, name, ROOM);
    AddsNot(fs.dir, name, 6, ROOM, 0);
    OneNamed(FileCreate(fs, name, SECTOR, ROOM).0, name, 4);
  }

  lemma OneNamed(fs: FS, name: string, h: nat)
    requires fs.dir == seq(DIR_SLOTS, _ => Entry(false, "", 0))[0 := Entry(true, name, h)]
    requires |fs.open| == 1 && fs.open[0].sector == 0
    ensures Live(fs) == {0, 1, h}
  {
    assert fs.dir[0].inUse && fs.dir[0].sector == h;
    assert Named(fs.dir) == {h};
    assert Opened(fs.open) == {0};
  }

  lemma CreateStep(fs: FS, op: Op, env: Env)
    requires op.DoCreate?
    ensures Step(fs, op, env, FileCreate(fs, op.name, op.length, env).0)
  {
  }

  lemma RunOfTwo(n: nat, fss: seq<FS>, ops: seq<Op>, envs: seq<Env>)
    requires n >= 2 && |fss| == 3 && |ops| == 2 == |envs| && Format(n) == Some(fss[0])
    requires Step(fss[0], ops[0], envs[0], fss[1]) && Step(fss[1], ops[1], envs[1], fss[2])
    ensures IsRun(n, fss, ops, envs)
  {
    hide Step, Format;
  }

  lemma RunOfThree(n: nat, fss: seq<FS>, ops: seq<Op>, envs: seq<Env>)
    requires n >= 2 && |fss| == 4 && |ops| == 3 == |envs| && Format(n) == Some(fss[0])
    requires Step(fss[0], ops[0], envs[0], fss[1]) && Step(fss[1], ops[1], envs[1], fss[2]) && Step(fss[2], ops[2], envs[2], fss[3])
    ensures IsRun(n, fss, ops, envs)
  {
    hide Step, Format;
  }

  /** Creating one name twice loses a sector: the second creation fails, and the data sector it
      took stays marked with nobody owning it. */
  lemma LosesSectors(n: nat, op: Op) returns (fss: seq<FS>)
    requires 8 <= n <= 4096 && op == DoCreate("a", SECTOR)
    ensures IsRun(n, fss, [op, op], [ROOM, ROOM])
    ensures !FileCreate(fss[1], op.name, op.length, ROOM).1 && TakesData(fss[1], op.length, ROOM) && Lost(n, fss[1], fss[2])
  {
    hide Format, FileCreate, TakesData, Lost, Prefix, Step, IsRun;
    FormatSmall(n);
    var fs0 := Format(n).value;
    Makes(n, fs0, 4, op.name, ROOM, 0);
    var fs1 := FileCreate(fs0, op.name, op.length, ROOM).0;
    SecondFails(n, fs1, op.name);
    CreateStep(fs0, op, ROOM);
    CreateStep(fs1, op, ROOM);
    fss := [fs0, fs1, FileCreate(fs1, op.name, op.length, ROOM).0];
    RunOfTwo(n, fss, [op, op], [ROOM, ROOM]);
  }

  ghost predicate Doubled(dir: seq<Entry>, dir': seq<Entry>) {
    && HasName(dir, "b") && !HasName(dir', "b") && DistinctNames(dir) && |dir'| == 16
    && dir'[0] == Entry(true, "a", 8) && dir'[1] == Entry(true, "a", 6)
  }

  // After creating "b" and then "a".
  ghost predicate TwoNamed(n: nat, fs: FS) {
    && fs.marked == Prefix(8, n)
    && fs.dir == seq(DIR_SLOTS, _ => Entry(false, "", 0))[0 := Entry(true, "b", 4)][1 := Entry(true, "a", 6)]
  }

  lemma TwoFiles(n: nat, fs: FS, a: Op, b: Op) returns (fs1: FS, fs2: FS)
    requires 10 <= n && Fresh(n, fs) && MapSectors(n) == 1 && a == DoCreate("a", SECTOR) && b == DoCreate("b", SECTOR)
    ensures Step(fs, b, ROOM, fs1) && Step(fs1, a, ROOM, fs2) && TwoNamed(n, fs2)
  {
    Makes(n, fs, 4, b.name, ROOM, 0);
    fs1 := FileCreate(fs, b.name, b.length, ROOM).0;
    hide FileCreate, Prefix;
    Makes(n, fs1, 6, a.name, ROOM, 1);
    fs2 := FileCreate(fs1, a.name, a.length, ROOM).0;
  }

  lemma BlindCreate(n: nat, fs: FS, a: Op) returns (fs': FS)
    requires 10 <= n && TwoNamed(n, fs) && a == DoCreate("a", SECTOR)
    ensures Step(fs, a, BLIND, fs') && Doubled(fs.dir, fs'.dir)
  {
    Makes(n, fs, 8, a.name, BLIND, 0);
    fs' := FileCreate(fs, a.name, a.length, BLIND).0;
    hide FileCreate, Prefix;
    assert fs.dir[0] == Entry(true, "b", 4);
  }

  /** Memory failing twice in one creation puts the name into the directory a second time, over
      the entry of another file. */
  lemma NameTwice(n: nat, a: Op, b: Op) returns (fss: seq<FS>)
    requires 10 <= n <= 4096 && a == DoCreate("a", SECTOR) && b == DoCreate("b", SECTOR)
    ensures IsRun(n, fss, [b, a, a], [ROOM, ROOM, BLIND]) && Doubled(fss[2].dir, fss[3].dir)
  {
    hide *;
    FormatSmall(n);
    var fs0 := Format(n).value;
    var fs1, fs2 := TwoFiles(n, fs0, a, b);
    var fs3 := BlindCreate(n, fs2, a);
    fss := [fs0, fs1, fs2, fs3];
    RunOfThree(n, fss, [b, a, a], [ROOM, ROOM, BLIND]);
  }
}
