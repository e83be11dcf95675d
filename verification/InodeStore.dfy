/** Reading and writing a file's bytes through whole sectors (`inode.c`). The device is a
    sequence of sectors; a file is a run of bytes in consecutive sectors. */
module InodeStore {
  import opened Bits

  const SECTOR := 512

  // The part of `struct inode_disk` that places the data.
  datatype Extent = Extent(start: nat, length: nat)

  // `bytes_to_sectors`
  function SectorsFor(length: nat): (r: nat)
    ensures SECTOR * r >= length && SECTOR * r < length + SECTOR
  {
    (length + SECTOR - 1) / SECTOR
  }

  ghost predicate Formatted(sectors: seq<seq<Byte>>) { forall i :: 0 <= i < |sectors| ==> |sectors[i]| == SECTOR }

  ghost predicate Fits(sectors: seq<seq<Byte>>, e: Extent) { e.start + SectorsFor(e.length) <= |sectors| }

  // ---- the device as one sequence of bytes ----

  ghost function ByteAt(sectors: seq<seq<Byte>>, i: nat): Byte
    requires Formatted(sectors) && i < SECTOR * |sectors|
  {
    sectors[i / SECTOR][i % SECTOR]
  }

  ghost function Bytes(sectors: seq<seq<Byte>>): seq<Byte>
    requires Formatted(sectors)
  {
    seq(SECTOR * |sectors|, i requires 0 <= i < SECTOR * |sectors| => ByteAt(sectors, i))
  }

  // s with the bytes from i on overwritten by data.
  ghost function Splice(s: seq<Byte>, i: nat, data: seq<Byte>): (r: seq<Byte>)
    requires i + |data| <= |s|
    ensures |r| == |s|
    ensures forall k :: 0 <= k < |s| ==> r[k] == if i <= k < i + |data| then data[k - i] else s[k]
  {
    s[..i] + data + s[i + |data|..]
  }

  lemma SpliceMore(s: seq<Byte>, i: nat, a: seq<Byte>, b: seq<Byte>)
    requires i + |a| + |b| <= |s|
    ensures Splice(Splice(s, i, a), i + |a|, b) == Splice(s, i, a + b)
  {
  }

  /** A file's contents. */
  ghost function Data(sectors: seq<seq<Byte>>, e: Extent): (r: seq<Byte>)
    requires Formatted(sectors) && Fits(sectors, e)
    ensures |r| == e.length
  {
    Bytes(sectors)[SECTOR * e.start..][..e.length]
  }

  lemma SectorBytes(sectors: seq<seq<Byte>>, k: nat, i: nat)
    requires Formatted(sectors) && k < |sectors| && i < SECTOR
    ensures Bytes(sectors)[SECTOR * k + i] == sectors[k][i]
  {
    assert (SECTOR * k + i) / SECTOR == k && (SECTOR * k + i) % SECTOR == i;
  }

  /** Overwriting part of one sector overwrites those bytes of the device. */
  lemma SectorWrite(sectors: seq<seq<Byte>>, k: nat, i: nat, data: seq<Byte>)
    requires Formatted(sectors) && k < |sectors| && i + |data| <= SECTOR
    ensures Formatted(sectors[k := Splice(sectors[k], i, data)])
    ensures Bytes(sectors[k := Splice(sectors[k], i, data)]) == Splice(Bytes(sectors), SECTOR * k + i, data)
  {
    var sectors' := sectors[k := Splice(sectors[k], i, data)];
    var s, s' := Bytes(sectors), Bytes(sectors');
    var r := Splice(s, SECTOR * k + i, data);
    forall j | 0 <= j < |s| ensures s'[j] == r[j] {
      var q, m := j / SECTOR, j % SECTOR;
      assert j == SECTOR * q + m;
      SectorBytes(sectors, q, m);
      SectorBytes(sectors', q, m);
    }
  }

  // ---- how much moves ----

  function Min(a: int, b: int): int { if a < b then a else b }

  // min(size, length - offset), and nothing when there is nothing
  function Moves(size: int, offset: nat, length: nat): (r: nat)
    ensures r == 0 || offset + r <= length
  {
    if size <= 0 || length <= offset then 0 else Min(size, length - offset)
  }

  /** Without memory for the bounce buffer only whole sectors move, up to the first that is not. */
  function Reaches(size: int, offset: nat, length: nat, allocOk: bool): (r: nat)
    ensures r <= Moves(size, offset, length)
  {
    var n := Moves(size, offset, length);
    if allocOk then n else if offset % SECTOR != 0 then 0 else n - n % SECTOR
  }

  // One turn of the loops: how much of the current sector moves.
  function Chunk(size: int, offset: nat, length: nat): int {
    Min(size, Min(length - offset, SECTOR - offset % SECTOR))
  }

  predicate Whole(size: int, offset: nat, length: nat) {
    offset % SECTOR == 0 && Chunk(size, offset, length) == SECTOR
  }

  /** What is left to move is the chunk and what is left after it. */
  lemma ReachesNext(size: int, offset: nat, length: nat, allocOk: bool)
    requires size > 0
    ensures var c := Chunk(size, offset, length);
            && (c <= 0 ==> Reaches(size, offset, length, allocOk) == 0)
            && (c > 0 && !allocOk && !Whole(size, offset, length) ==> Reaches(size, offset, length, allocOk) == 0)
            && (c > 0 && (allocOk || Whole(size, offset, length)) ==>
                 Reaches(size, offset, length, allocOk) == c + Reaches(size - c, offset + c, length, allocOk))
  {
    var c := Chunk(size, offset, length);
    var n := Moves(size, offset, length);
    if c > 0 && (allocOk || Whole(size, offset, length)) {
      assert n == c + Moves(size - c, offset + c, length);
      if !allocOk { assert (offset + SECTOR) % SECTOR == 0 && (n - SECTOR) % SECTOR == n % SECTOR; }
    }
  }

  // n bytes can move: they are asked for and in the file, and without memory for the bounce buffer
  // they are whole sectors.
  ghost predicate CanMove(n: nat, size: int, offset: nat, length: nat, allocOk: bool) {
    n <= size && offset + n <= length && (allocOk || (offset % 512 == 0 && n % 512 == 0))
  }

  /** n is the most that can move, and nothing if nothing can. */
  ghost predicate MostMoves(n: nat, size: int, offset: nat, length: nat, allocOk: bool) {
    && (n == 0 || CanMove(n, size, offset, length, allocOk))
    && forall m: nat :: m > n ==> !CanMove(m, size, offset, length, allocOk)
  }

  lemma ReachesMost(size: int, offset: nat, length: nat, allocOk: bool)
    ensures MostMoves(Reaches(size, offset, length, allocOk), size, offset, length, allocOk)
  {
    var n, r := Moves(size, offset, length), Reaches(size, offset, length, allocOk);
    forall m: nat | m > r ensures !CanMove(m, size, offset, length, allocOk) {
      if CanMove(m, size, offset, length, allocOk) {
        assert m <= n;
        if !allocOk { WholeBelow(m, n); }
      }
    }
    if !allocOk { assert (n - n % SECTOR) % 512 == 0; }
  }

  lemma WholeBelow(m: nat, n: nat)
    requires m <= n && m % 512 == 0
    ensures m <= n - n % 512
  {
    assert m / 512 <= n / 512;
  }

  // `byte_to_sector` for an offset inside the file, and the place in that sector
  function SectorOf(e: Extent, offset: nat): nat { e.start + offset / SECTOR }

  function Within(offset: nat): nat { offset % SECTOR }

  // The same place on the device.
  function Place(e: Extent, offset: nat): (r: nat) { SECTOR * e.start + offset }

  lemma PlaceMore(e: Extent, offset: nat, n: nat)
    ensures Place(e, offset + n) == Place(e, offset) + n
  {
  }

  // The chunk lies within one sector of the device.
  ghost predicate Located(sectors: seq<seq<Byte>>, e: Extent, offset: nat, chunk: nat) {
    && SectorOf(e, offset) < |sectors| && Within(offset) + chunk <= SECTOR
    && SECTOR * SectorOf(e, offset) + Within(offset) == Place(e, offset)
  }

  // n bytes have moved and the rest of what can is still to come.
  ghost predicate Moved(size: int, offset: nat, length: nat, allocOk: bool, n: nat) {
    Reaches(size, offset, length, allocOk) == n + Reaches(size - n, offset + n, length, allocOk)
  }

  lemma MovedMore(size: int, offset: nat, length: nat, allocOk: bool, n: nat, chunk: nat)
    requires Moved(size, offset, length, allocOk, n)
    requires Reaches(size - n, offset + n, length, allocOk)
             == chunk + Reaches(size - n - chunk, offset + n + chunk, length, allocOk)
    ensures Moved(size, offset, length, allocOk, n + chunk)
  {
  }

  lemma MovedAll(size: int, offset: nat, length: nat, allocOk: bool, n: nat)
    requires Moved(size, offset, length, allocOk, n)
    requires size - n <= 0 || Reaches(size - n, offset + n, length, allocOk) == 0
    ensures n == Reaches(size, offset, length, allocOk)
  {
  }

  // What one turn of the loops needs to know.
  lemma Turn(sectors: seq<seq<Byte>>, e: Extent, size: int, offset: nat, allocOk: bool)
    requires Formatted(sectors) && Fits(sectors, e) && size > 0
    ensures var c, r := Chunk(size, offset, e.length), Reaches(size, offset, e.length, allocOk);
            if c <= 0 || (!allocOk && !Whole(size, offset, e.length)) then
              r == 0
            else
              && c <= size && r == c + Reaches(size - c, offset + c, e.length, allocOk)
              && Located(sectors, e, offset, c)
  {
    ReachesNext(size, offset, e.length, allocOk);
  }

  // n bytes from i on, none if there are not as many.
  ghost function Slice(s: seq<Byte>, i: nat, n: nat): (r: seq<Byte>)
    ensures |r| == if i + n <= |s| then n else 0
  {
    if i + n <= |s| then s[i..i + n] else []
  }

  // b is a with the bytes from i on overwritten by data.
  ghost predicate Patched(a: seq<Byte>, i: nat, data: seq<Byte>, b: seq<Byte>) {
    if data == [] then b == a else i + |data| <= |a| && b == Splice(a, i, data)
  }

  lemma PatchedMore(a: seq<Byte>, i: nat, x: seq<Byte>, b: seq<Byte>, y: seq<Byte>, c: seq<Byte>)
    requires Patched(a, i, x, b) && Patched(b, i + |x|, y, c)
    ensures Patched(a, i, x + y, c)
  {
    if x == [] {
      assert x + y == y;
    } else if y == [] {
      assert x + y == x;
    } else {
      SpliceMore(a, i, x, y);
    }
  }

  lemma SliceMore(s: seq<Byte>, i: nat, n: nat, m: nat)
    requires i + n + m <= |s|
    ensures Slice(s, i, n) + Slice(s, i + n, m) == Slice(s, i, n + m)
  {
  }

  lemma SectorSlice(sectors: seq<seq<Byte>>, k: nat, i: nat, n: nat)
    requires Formatted(sectors) && k < |sectors| && i + n <= SECTOR
    ensures SECTOR * k + i + n <= SECTOR * |sectors|
    ensures sectors[k][i..i + n] == Slice(Bytes(sectors), SECTOR * k + i, n)
  {
    var s := Slice(Bytes(sectors), SECTOR * k + i, n);
    forall j | 0 <= j < n ensures sectors[k][i..i + n][j] == s[j] { SectorBytes(sectors, k, i + j); }
  }

  lemma DataSlice(sectors: seq<seq<Byte>>, e: Extent, offset: nat, n: nat)
    requires Formatted(sectors) && Fits(sectors, e) && offset + n <= e.length
    ensures Data(sectors, e)[offset..offset + n] == Slice(Bytes(sectors), Place(e, offset), n)
  {
    assert Place(e, offset) + n <= |Bytes(sectors)|;
  }

  lemma ReadStep(sectors: seq<seq<Byte>>, e: Extent, offset: nat, n: nat, chunk: nat)
    requires Formatted(sectors) && Located(sectors, e, offset + n, chunk)
    ensures Place(e, offset) + n + chunk <= |Bytes(sectors)|
    ensures var s, base, k, i := Bytes(sectors), Place(e, offset), SectorOf(e, offset + n), Within(offset + n);
            && i + chunk <= |sectors[k]| && sectors[k][i..i + chunk] == Slice(s, base + n, chunk)
            && Slice(s, base, n) + Slice(s, base + n, chunk) == Slice(s, base, n + chunk)
  {
    var k, i := SectorOf(e, offset + n), Within(offset + n);
    PlaceMore(e, offset, n);
    SectorSlice(sectors, k, i, chunk);
    SliceMore(Bytes(sectors), Place(e, offset), n, chunk);
  }

  lemma ReadResult(sectors: seq<seq<Byte>>, e: Extent, offset: nat, n: nat, was: seq<Byte>, b: seq<Byte>,
                   total: nat, size: int, allocOk: bool)
    requires Formatted(sectors) && Fits(sectors, e) && n <= |was| && n == total
    requires total == Reaches(size, offset, e.length, allocOk)
    requires Patched(was, 0, Slice(Bytes(sectors), Place(e, offset), n), b)
    ensures |b| == |was| && (n > 0 ==> offset + n <= e.length && b[..n] == Data(sectors, e)[offset..offset + n])
    ensures b[n..] == was[n..]
  {
    if n > 0 { DataSlice(sectors, e, offset, n); }
  }

  // The first n bytes asked for are in the buffer, and no others have changed.
  ghost predicate ReadSoFar(sectors: seq<seq<Byte>>, e: Extent, offset: nat, n: nat, was: seq<Byte>, b: seq<Byte>) {
    && Formatted(sectors) && (n > 0 ==> Place(e, offset) + n <= |Bytes(sectors)|)
    && Patched(was, 0, Slice(Bytes(sectors), Place(e, offset), n), b)
  }

  lemma NothingRead(sectors: seq<seq<Byte>>, e: Extent, size: int, offset: nat, allocOk: bool, b: seq<Byte>)
    requires Formatted(sectors)
    ensures ReadSoFar(sectors, e, offset, 0, b, b) && Moved(size, offset, e.length, allocOk, 0)
  {
  }

  lemma ReadDone(sectors: seq<seq<Byte>>, e: Extent, offset: nat, n: nat, was: seq<Byte>, b: seq<Byte>)
    requires Formatted(sectors) && ReadSoFar(sectors, e, offset, n, was, b)
    ensures Patched(was, 0, Slice(Bytes(sectors), Place(e, offset), n), b)
  {
  }

  class Device {
    var sectors: seq<seq<Byte>>

    ghost predicate Valid()
      reads this
    {
      Formatted(sectors)
    }

    // memcpy from a sector to the buffer
    static method CopyOut(sector: seq<Byte>, i: nat, chunk: nat, buffer: array<Byte>, n: nat)
      requires i + chunk <= |sector| && n + chunk <= buffer.Length
      modifies buffer
      ensures Patched(old(buffer[..]), n, sector[i..i + chunk], buffer[..])
    {
      var j := n;
      while j < n + chunk
        invariant n <= j <= n + chunk
        invariant forall m :: 0 <= m < n || j <= m < buffer.Length ==> buffer[m] == old(buffer[m])
        invariant forall m :: n <= m < j ==> buffer[m] == sector[i + m - n]
      {
        buffer[j] := sector[i + j - n];
        j := j + 1;
      }
      if chunk > 0 { assert buffer[..] == Splice(old(buffer[..]), n, sector[i..i + chunk]); }
    }

    // one turn of the read loop; was is the buffer before the loop
    method ReadChunk(e: Extent, chunk: nat, offset: nat, n: nat, buffer: array<Byte>, ghost was: seq<Byte>)
      requires Valid() && Located(sectors, e, offset + n, chunk) && n + chunk <= buffer.Length
      requires Patched(was, 0, Slice(Bytes(sectors), Place(e, offset), n), buffer[..])
      requires n > 0 ==> Place(e, offset) + n <= |Bytes(sectors)|
      modifies buffer
      ensures Place(e, offset) + n + chunk <= |Bytes(sectors)|
      ensures Patched(was, 0, Slice(Bytes(sectors), Place(e, offset), n + chunk), buffer[..])
    {
      hide Bytes, Patched, Slice, Place;
      ghost var b := buffer[..];
      var k, i := SectorOf(e, offset + n), Within(offset + n);
      ReadStep(sectors, e, offset, n, chunk);
      CopyOut(sectors[k], i, chunk, buffer, n);
      ghost var s, base := Bytes(sectors), Place(e, offset);
      PatchedMore(was, 0, Slice(s, base, n), b, Slice(s, base + n, chunk), buffer[..]);
    }

    // how far the next turn of the loops gets; n bytes have moved before it
    method NextChunk(e: Extent, size: int, offset: nat, n: nat, allocOk: bool) returns (chunk: nat)
      requires Valid() && Fits(sectors, e) && n < size && Moved(size, offset, e.length, allocOk, n)
      ensures if chunk == 0 then n == Reaches(size, offset, e.length, allocOk) else
                && n + chunk <= size && Moved(size, offset, e.length, allocOk, n + chunk)
                && Located(sectors, e, offset + n, chunk)
    {
      Turn(sectors, e, size - n, offset + n, allocOk);
      hide Reaches, Chunk, Whole, Located, Moved;
      var c := Chunk(size - n, offset + n, e.length);
      if c <= 0 || (!allocOk && !Whole(size - n, offset + n, e.length)) {
        chunk := 0;
        MovedAll(size, offset, e.length, allocOk, n);
      } else {
        chunk := c;
        MovedMore(size, offset, e.length, allocOk, n, chunk);
      }
    }

    // the loop of `inode_read_at`
    method ReadLoop(e: Extent, buffer: array<Byte>, size: int, offset: nat, allocOk: bool) returns (n: nat)
      requires Valid() && Fits(sectors, e) && size <= buffer.Length
      modifies buffer
      ensures n == Reaches(size, offset, e.length, allocOk) && n <= buffer.Length
      ensures Patched(old(buffer[..]), 0, Slice(Bytes(sectors), Place(e, offset), n), buffer[..])
    {
      n := 0;
      ghost var was := buffer[..];
      NothingRead(sectors, e, size, offset, allocOk, was);
      hide ReadSoFar, Moved, Reaches, Fits, Patched, Slice, Bytes, Place;
      var chunk: nat := 1;
      while n < size && chunk > 0
        invariant n <= buffer.Length && ReadSoFar(sectors, e, offset, n, was, buffer[..])
        invariant if chunk > 0 then Moved(size, offset, e.length, allocOk, n) else n == Reaches(size, offset, e.length, allocOk)
        decreases size - n, chunk
      {
        chunk := ReadTurn(e, buffer, size, offset, allocOk, n, was);
        n := n + chunk;
      }
      if chunk > 0 { MovedAll(size, offset, e.length, allocOk, n); }
      ReadDone(sectors, e, offset, n, was, buffer[..]);
    }

    // one turn of the read loop; was is the buffer before the loop
    method ReadTurn(e: Extent, buffer: array<Byte>, size: int, offset: nat, allocOk: bool, n: nat, ghost was: seq<Byte>) returns (chunk: nat)
      requires Valid() && Fits(sectors, e) && n < size <= buffer.Length && Moved(size, offset, e.length, allocOk, n)
      requires ReadSoFar(sectors, e, offset, n, was, buffer[..])
      modifies buffer
      ensures n + chunk <= size && ReadSoFar(sectors, e, offset, n + chunk, was, buffer[..])
      ensures if chunk > 0 then Moved(size, offset, e.length, allocOk, n + chunk) else n == Reaches(size, offset, e.length, allocOk)
    {
      hide Moved, Reaches, Fits, Patched, Slice, Bytes, Place, Located, Formatted;
      chunk := NextChunk(e, size, offset, n, allocOk);
      if chunk > 0 { ReadChunk(e, chunk, offset, n, buffer, was); }
    }

    // `inode_read_at`
    method ReadAt(e: Extent, buffer: array<Byte>, size: int, offset: nat, allocOk: bool) returns (n: nat)
      requires Valid() && Fits(sectors, e) && size <= buffer.Length
      modifies buffer
      ensures n == Reaches(size, offset, e.length, allocOk) && n <= buffer.Length
      ensures MostMoves(n, size, offset, e.length, allocOk)
      ensures n > 0 ==> buffer[..n] == Data(sectors, e)[offset..offset + n]
      ensures buffer[n..] == old(buffer[n..])
    {
      ghost var was := buffer[..];
      n := ReadLoop(e, buffer, size, offset, allocOk);
      ReachesMost(size, offset, e.length, allocOk);
      ReadResult(sectors, e, offset, n, was, buffer[..], n, size, allocOk);
    }

    // `inode_write_at`; deny is deny_write_cnt
    method WriteAt(e: Extent, deny: nat, buffer: seq<Byte>, size: int, offset: nat, allocOk: bool) returns (n: nat)
      requires Valid() && Fits(sectors, e) && size <= |buffer|
      modifies this
      ensures Valid() && |sectors| == old(|sectors|)
      ensures n == (if deny > 0 then 0 else Reaches(size, offset, e.length, allocOk)) && n <= |buffer|
      ensures if deny > 0 then n == 0 else MostMoves(n, size, offset, e.length, allocOk)
      ensures Patched(old(Bytes(sectors)), Place(e, offset), buffer[..n], Bytes(sectors))
    {
      n := 0;
      if deny > 0 { return; }
      ghost var was, base := Bytes(sectors), Place(e, offset);
      ReachesMost(size, offset, e.length, allocOk);
      hide Bytes, Reaches, Moves, Place, Located, SectorsFor, Fits, Formatted, MostMoves;
      assert Patched(was, base, [], Bytes(sectors)) && buffer[..0] == [] && Moved(size, offset, e.length, allocOk, 0);
      hide Patched, Moved;
      var chunk: nat := 1;
      while n < size && chunk > 0
        invariant n <= |buffer|
        invariant if chunk > 0 then Moved(size, offset, e.length, allocOk, n) else n == Reaches(size, offset, e.length, allocOk)
        invariant Valid() && Fits(sectors, e) && |sectors| == old(|sectors|)
        invariant Patched(was, base, buffer[..n], Bytes(sectors))
        decreases size - n, chunk
      {
        chunk := NextChunk(e, size, offset, n, allocOk);
        if chunk > 0 {
          WriteChunk(e, chunk, offset, n, buffer, was);
          n := n + chunk;
        }
      }
      if chunk > 0 { MovedAll(size, offset, e.length, allocOk, n); }
    }

    // one turn of the write loop; was is the device before the loop
    method WriteChunk(e: Extent, chunk: nat, offset: nat, n: nat, buffer: seq<Byte>, ghost was: seq<Byte>)
      requires Valid() && Fits(sectors, e) && Located(sectors, e, offset + n, chunk) && 0 < chunk && n + chunk <= |buffer|
      requires Patched(was, Place(e, offset), buffer[..n], Bytes(sectors))
      modifies this
      ensures Valid() && Fits(sectors, e) && |sectors| == old(|sectors|)
      ensures Patched(was, Place(e, offset), buffer[..n + chunk], Bytes(sectors))
    {
      var k, i := SectorOf(e, offset + n), Within(offset + n);
      var data := buffer[n..n + chunk];
      ghost var base, b := Place(e, offset), Bytes(sectors);
      assert Place(e, offset + n) + chunk <= |b|;
      hide Bytes, SectorOf, Within;
      SectorWrite(sectors, k, i, data);
      WriteSector(k, i, data);
      PlaceMore(e, offset, n);
      PatchedMore(was, base, buffer[..n], b, data, Bytes(sectors));
      assert buffer[..n] + data == buffer[..n + chunk];
    }

    // a whole sector goes out as it is; otherwise the rest of the sector is read in first
    method WriteSector(k: nat, i: nat, data: seq<Byte>)
      requires Valid() && k < |sectors| && 0 < |data| && i + |data| <= SECTOR
      modifies this
      ensures sectors == old(sectors)[k := Splice(old(sectors)[k], i, data)]
    {
      if i == 0 && |data| == SECTOR {
        assert Splice(sectors[k], i, data) == data;
        sectors := sectors[k := data];
      } else {
        var bounce := sectors[k];
        bounce := bounce[..i] + data + bounce[i + |data|..];
        sectors := sectors[k := bounce];
      }
    }
  }

  // ---- a new file ----

  /** The loop of `inode_create`: the data sectors of a new file are zeroed and no others change, so
      the file reads as zeros. */
  method ZeroData(d: Device, e: Extent)
    requires d.Valid() && Fits(d.sectors, e)
    modifies d
    ensures d.Valid() && |d.sectors| == old(|d.sectors|)
    ensures forall s :: 0 <= s < |d.sectors| && !(e.start <= s < e.start + SectorsFor(e.length)) ==> d.sectors[s] == old(d.sectors)[s]
    ensures forall i :: 0 <= i < e.length ==> Data(d.sectors, e)[i] == 0
  {
    ghost var was := d.sectors;
    var zeros: seq<Byte> := seq(SECTOR, _ => 0);
    var n := SectorsFor(e.length);
    var i := 0;
    while i < n
      invariant 0 <= i <= n && d.Valid() && |d.sectors| == |was|
      invariant forall s :: e.start <= s < e.start + i ==> d.sectors[s] == zeros
      invariant forall s :: 0 <= s < |was| && !(e.start <= s < e.start + i) ==> d.sectors[s] == was[s]
    {
      d.sectors := d.sectors[e.start + i := zeros];
      i := i + 1;
    }
    ZeroedData(d.sectors, e, zeros);
  }

  lemma ZeroedData(sectors: seq<seq<Byte>>, e: Extent, zeros: seq<Byte>)
    requires Formatted(sectors) && Fits(sectors, e) && |zeros| == SECTOR && forall i :: 0 <= i < SECTOR ==> zeros[i] == 0
    requires forall s :: e.start <= s < e.start + SectorsFor(e.length) ==> sectors[s] == zeros
    ensures forall i :: 0 <= i < e.length ==> Data(sectors, e)[i] == 0
  {
    forall i | 0 <= i < e.length ensures Data(sectors, e)[i] == 0 {
      var k, m := i / SECTOR, i % SECTOR;
      assert SECTOR * e.start + i == SECTOR * (e.start + k) + m;
      SectorBytes(sectors, e.start + k, m);
      assert Data(sectors, e)[i] == Bytes(sectors)[SECTOR * e.start + i];
    }
  }

  // ---- what it means for files ----

  ghost predicate Disjoint(a: Extent, b: Extent) {
    a.start + SectorsFor(a.length) <= b.start || b.start + SectorsFor(b.length) <= a.start
  }

  /** A write replaces exactly that part of the file and touches no file with other sectors. */
  lemma WriteEffect(before: seq<seq<Byte>>, after: seq<seq<Byte>>, e: Extent, f: Extent, offset: nat, data: seq<Byte>)
    requires Formatted(before) && Formatted(after) && |after| == |before| && Fits(before, e) && Fits(before, f)
    requires data == [] || offset + |data| <= e.length
    requires Patched(Bytes(before), Place(e, offset), data, Bytes(after))
    ensures Patched(Data(before, e), offset, data, Data(after, e))
    ensures Disjoint(e, f) ==> Data(after, f) == Data(before, f)
  {
    if data != [] {
      var s, s' := Bytes(before), Bytes(after);
      hide Bytes;
      forall k | 0 <= k < e.length ensures Data(after, e)[k] == Splice(Data(before, e), offset, data)[k] {
        assert Data(after, e)[k] == s'[SECTOR * e.start + k] && Data(before, e)[k] == s[SECTOR * e.start + k];
      }
      forall k | 0 <= k < f.length ensures Disjoint(e, f) ==> Data(after, f)[k] == Data(before, f)[k] {
        assert Data(after, f)[k] == s'[SECTOR * f.start + k] && Data(before, f)[k] == s[SECTOR * f.start + k];
      }
    }
  }

  /** Writing and reading back the same place gives what was written, as far as it went. */
  method WriteThenRead(d: Device, e: Extent, buffer: seq<Byte>, into: array<Byte>, offset: nat) returns (n: nat)
    requires d.Valid() && Fits(d.sectors, e) && into.Length == |buffer|
    modifies d, into
    ensures MostMoves(n, |buffer|, offset, e.length, true) && n <= |buffer| && into[..n] == buffer[..n]
  {
    ghost var before := d.sectors;
    n := d.WriteAt(e, 0, buffer, |buffer|, offset, true);
    var m := d.ReadAt(e, into, |buffer|, offset, true);
    if n > 0 {
      WriteEffect(before, d.sectors, e, e, offset, buffer[..n]);
    }
  }
}
