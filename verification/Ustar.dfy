/** Writing and reading ustar archive headers (`ustar.c`), with the octal output of `stdio.c`.
    The layout is that of the "ustar Interchange Format" of the pax utility in POSIX.1-2001. */
module Ustar {
  import opened Queues
  import opened Bits

  const NUL: Byte := 0
  const SPACE: Byte := 32
  const DOT: Byte := 46
  const SLASH: Byte := 47
  const ZERO: Byte := 48
  const REGULAR: Byte := 48
  const DIRECTORY: Byte := 53

  const HEADER_SIZE := 512
  const ULONG_MAX := 0xFFFF_FFFF
  const INT_MAX := 0x7FFF_FFFF

  predicate IsOctal(c: Byte) { 48 <= c <= 55 }

  // ---- octal numbers ----

  ghost function Value(ds: seq<Byte>): int {
    if ds == [] then 0 else 8 * Value(ds[..|ds| - 1]) + ds[|ds| - 1] - 48
  }

  function Zeros(n: nat): (r: seq<Byte>)
    ensures |r| == n
  {
    seq(n, _ => ZERO)
  }

  // The digits of v, none for zero.
  function Digits(v: nat): (r: seq<Byte>)
    ensures forall i :: 0 <= i < |r| ==> IsOctal(r[i])
  {
    if v == 0 then [] else Digits(v / 8) + [48 + v % 8]
  }

  // What "%0<width>o" prints.
  function Octal(v: nat, width: nat): (r: seq<Byte>)
    ensures |r| >= width && forall i :: 0 <= i < |r| ==> IsOctal(r[i])
  {
    var ds := if v == 0 then [ZERO] else Digits(v);
    if |ds| < width then Zeros(width - |ds|) + ds else ds
  }

  lemma {:induction false} ValueAppend(a: seq<Byte>, d: Byte)
    ensures Value(a + [d]) == 8 * Value(a) + d - 48
  {
    assert (a + [d])[..|a|] == a;
  }

  lemma {:induction false} ZerosValue(n: nat)
    ensures Value(Zeros(n)) == 0
  {
    if n > 0 {
      assert Zeros(n) == Zeros(n - 1) + [ZERO];
      ValueAppend(Zeros(n - 1), ZERO);
      ZerosValue(n - 1);
    }
  }

  lemma {:induction false} DigitsValue(n: nat, v: nat)
    ensures Value(Zeros(n) + Digits(v)) == v
    decreases v
  {
    if v == 0 {
      assert Zeros(n) + Digits(0) == Zeros(n);
      ZerosValue(n);
    } else {
      DigitsValue(n, v / 8);
      assert Zeros(n) + Digits(v) == (Zeros(n) + Digits(v / 8)) + [48 + v % 8];
      ValueAppend(Zeros(n) + Digits(v / 8), 48 + v % 8);
    }
  }

  /** Printing in octal loses nothing. */
  lemma OctalValue(v: nat, width: nat)
    ensures Value(Octal(v, width)) == v
  {
    if v == 0 {
      assert Octal(0, width) == Zeros(|Octal(0, width)|);
      ZerosValue(|Octal(0, width)|);
    } else {
      var pad := if |Digits(v)| < width then width - |Digits(v)| else 0;
      assert Octal(v, width) == Zeros(pad) + Digits(v);
      DigitsValue(pad, v);
    }
  }

  ghost function Pow8(k: nat): nat { if k == 0 then 1 else 8 * Pow8(k - 1) }

  lemma {:induction false} DigitsFit(v: nat, k: nat)
    requires v < Pow8(k)
    ensures |Digits(v)| <= k
  {
    if v > 0 { DigitsFit(v / 8, k - 1); }
  }

  /** A number below 8^width takes exactly width characters. */
  lemma OctalFits(v: nat, width: nat)
    requires v < Pow8(width) && width > 0
    ensures |Octal(v, width)| == width
  {
    DigitsFit(v, width);
  }

  // the digits as `format_integer` collects them, the last one first
  method CollectDigits(v: nat) returns (buf: seq<Byte>)
    ensures Reversed(buf) == Digits(v)
  {
    buf := [];
    var value := v;
    while value > 0
      invariant Digits(v) == Digits(value) + Reversed(buf)
      decreases value
    {
      var d: Byte := 48 + value % 8;
      assert Reversed(buf + [d]) == [d] + Reversed(buf);
      assert Digits(value / 8) + [d] + Reversed(buf) == Digits(value / 8) + ([d] + Reversed(buf));
      buf := buf + [d];
      value := value / 8;
    }
  }

  // the buffer goes out backwards
  method OutputBackwards(before: seq<Byte>, buf: seq<Byte>) returns (out: seq<Byte>)
    ensures out == before + Reversed(buf)
  {
    out := before;
    var cp := |buf|;
    while cp > 0
      invariant 0 <= cp <= |buf| && out == before + Reversed(buf[cp..])
    {
      cp := cp - 1;
      assert Reversed(buf[cp..]) == Reversed(buf[cp + 1..]) + [buf[cp]];
      out := out + [buf[cp]];
    }
    assert buf[0..] == buf;
  }

  // `format_integer` for an unsigned octal conversion with zero padding
  method FormatOctal(v: nat, width: nat) returns (out: seq<Byte>)
    ensures out == Octal(v, width)
  {
    var buf := CollectDigits(v);
    if |buf| < 1 { buf := buf + [ZERO]; }
    out := OutputBackwards(if |buf| < width then Zeros(width - |buf|) else [], buf);
  }

  // ---- octal fields ----

  function OctalPrefix(s: seq<Byte>): (k: nat)
    ensures k <= |s| && (forall i :: 0 <= i < k ==> IsOctal(s[i])) && (k < |s| ==> !IsOctal(s[k]))
  {
    if s == [] || !IsOctal(s[0]) then 0 else 1 + OctalPrefix(s[1..])
  }

  /** A field is at least one octal digit, then a space or null byte, with a value that fits. */
  ghost function ParseOctal(s: seq<Byte>): Option<int> {
    var k := OctalPrefix(s);
    if 0 < k < |s| && (s[k] == SPACE || s[k] == NUL) && Value(s[..k]) <= ULONG_MAX then Some(Value(s[..k])) else None
  }

  lemma {:induction false} OctalPrefixIs(s: seq<Byte>, k: nat)
    requires k <= |s| && (forall i :: 0 <= i < k ==> IsOctal(s[i])) && (k < |s| ==> !IsOctal(s[k]))
    ensures OctalPrefix(s) == k
  {
    if k > 0 { OctalPrefixIs(s[1..], k - 1); }
  }

  lemma {:induction false} ValueGrows(s: seq<Byte>, j: nat)
    requires j <= |s| && forall i :: 0 <= i < |s| ==> IsOctal(s[i])
    ensures 0 <= Value(s[..j]) <= Value(s)
    decreases |s|
  {
    if j < |s| {
      ValueGrows(s[..|s| - 1], j);
      assert s[..|s| - 1][..j] == s[..j];
    } else {
      assert s[..j] == s;
      if s != [] { ValueGrows(s[..|s| - 1], |s| - 1); assert s[..|s| - 1][..|s| - 1] == s[..|s| - 1]; }
    }
  }

  // `parse_octal_field`
  method ParseOctalField(s: seq<Byte>) returns (r: Option<nat>)
    ensures r == ParseOctal(s)
  {
    var value, ofs := 0, 0;
    while ofs < |s|
      invariant 0 <= ofs <= |s| && 0 <= value <= ULONG_MAX
      invariant value == Value(s[..ofs]) && forall i :: 0 <= i < ofs ==> IsOctal(s[i])
    {
      var c := s[ofs];
      if IsOctal(c) {
        assert s[..ofs + 1] == s[..ofs] + [c];
        ValueAppend(s[..ofs], c);
        if value > ULONG_MAX / 8 {
          var k := OctalPrefix(s);
          OctalPrefixAtLeast(s, ofs + 1);
          ValueGrows(s[..k], ofs + 1);
          assert s[..k][..ofs + 1] == s[..ofs + 1];
          return None;
        }
        value := c - 48 + value * 8;
      } else {
        OctalPrefixIs(s, ofs);
        return if (c == SPACE || c == NUL) && ofs > 0 then Some(value) else None;
      }
      ofs := ofs + 1;
    }
    OctalPrefixIs(s, ofs);
    return None;
  }

  lemma {:induction false} OctalPrefixAtLeast(s: seq<Byte>, j: nat)
    requires j <= |s| && forall i :: 0 <= i < j ==> IsOctal(s[i])
    ensures OctalPrefix(s) >= j
  {
    if j > 0 { OctalPrefixAtLeast(s[1..], j - 1); }
  }

  /** Parsing a printed field gives the number back. */
  lemma OctalRoundTrip(v: nat, width: nat)
    requires v <= ULONG_MAX && width > 0
    ensures ParseOctal(Octal(v, width) + [NUL]) == Some(v)
  {
    var ds := Octal(v, width);
    OctalPrefixIs(ds + [NUL], |ds|);
    assert (ds + [NUL])[..|ds|] == ds;
    OctalValue(v, width);
  }

  // ---- the checksum ----

  const CHKSUM := 148
  const CHKSUM_END := 156

  // The sum of the first n bytes, those of the checksum field taken as spaces.
  function Checksum(h: seq<Byte>, n: nat): (r: nat)
    requires n <= |h|
    ensures r <= 255 * n
  {
    if n == 0 then 0
    else Checksum(h, n - 1) + if CHKSUM <= n - 1 < CHKSUM_END then SPACE else h[n - 1]
  }

  /** The checksum does not depend on its own field. */
  lemma {:induction false} ChecksumIndependent(h: seq<Byte>, h': seq<Byte>, n: nat)
    requires n <= |h| == |h'| && forall i :: 0 <= i < |h| && !(CHKSUM <= i < CHKSUM_END) ==> h'[i] == h[i]
    ensures Checksum(h', n) == Checksum(h, n)
  {
    if n > 0 { ChecksumIndependent(h, h', n - 1); }
  }

  function Sum(s: seq<Byte>): nat { if s == [] then 0 else s[0] as nat + Sum(s[1..]) }

  // The header with spaces in bytes 148 to 155.
  function Blanked(h: seq<Byte>): (r: seq<Byte>)
    requires |h| == 512
    ensures |r| == 512
  {
    h[..148] + seq(8, _ => 32) + h[156..]
  }

  lemma {:induction false} SumAppend(s: seq<Byte>, x: Byte)
    ensures Sum(s + [x]) == Sum(s) + x as nat
  {
    if s != [] {
      assert (s + [x])[1..] == s[1..] + [x];
      SumAppend(s[1..], x);
    } else {
      assert s + [x] == [x];
    }
  }

  lemma {:induction false} ChecksumPrefix(h: seq<Byte>, n: nat)
    requires |h| == HEADER_SIZE && n <= HEADER_SIZE
    ensures Checksum(h, n) == Sum(Blanked(h)[..n])
  {
    if n > 0 {
      ChecksumPrefix(h, n - 1);
      assert Blanked(h)[..n] == Blanked(h)[..n - 1] + [Blanked(h)[n - 1]];
      SumAppend(Blanked(h)[..n - 1], Blanked(h)[n - 1]);
    } else {
      assert Blanked(h)[..0] == [];
    }
  }

  /** The checksum is the sum over the header with its own field taken as spaces. */
  lemma ChecksumIs(h: seq<Byte>)
    requires |h| == HEADER_SIZE
    ensures Checksum(h, HEADER_SIZE) == Sum(Blanked(h))
  {
    ChecksumPrefix(h, HEADER_SIZE);
    assert Blanked(h)[..HEADER_SIZE] == Blanked(h);
  }

  // `calculate_chksum`
  method CalculateChecksum(h: seq<Byte>) returns (sum: nat)
    requires |h| == HEADER_SIZE
    ensures sum == Checksum(h, HEADER_SIZE) == Sum(Blanked(h))
  {
    ChecksumIs(h);
    sum := 0;
    var i := 0;
    while i < HEADER_SIZE
      invariant 0 <= i <= HEADER_SIZE && sum == Checksum(h, i)
    {
      sum := sum + if CHKSUM <= i < CHKSUM_END then SPACE else h[i];
      i := i + 1;
    }
  }

  // ---- names ----

  // How long a dangerous prefix is, if there is one.
  function Prefix(s: seq<Byte>): (k: nat)
    ensures k <= |s|
  {
    if |s| >= 1 && s[0] == SLASH then 1
    else if |s| >= 2 && s[..2] == [DOT, SLASH] then 2
    else if |s| >= 3 && s[..3] == [DOT, DOT, SLASH] then 3
    else 0
  }

  function DropPrefixes(s: seq<Byte>): (r: seq<Byte>)
    ensures Prefix(r) == 0
    decreases |s|
  {
    if Prefix(s) == 0 then s else DropPrefixes(s[Prefix(s)..])
  }

  function Strip(s: seq<Byte>): seq<Byte> {
    var r := DropPrefixes(s);
    if r == [] || r == [DOT, DOT] then [DOT] else r
  }

  /** A stripped name has nothing left to strip, and is not empty or the parent directory. */
  lemma StripSafe(s: seq<Byte>)
    ensures Prefix(Strip(s)) == 0 && !Begins(Strip(s)) && Strip(s) != [] && Strip(s) != [DOT, DOT] && Strip(Strip(s)) == Strip(s)
  {
  }

  // ---- what stripping is, apart from how it is done ----

  // What may not stand at the front: "/", "./" and "../".
  predicate Climbs(s: seq<Byte>) { s == [47] || s == [46, 47] || s == [46, 46, 47] }

  predicate Begins(s: seq<Byte>) { [47] <= s || [46, 47] <= s || [46, 46, 47] <= s }

  // Those parts make up the front of the name, and what is left begins with none.
  ghost predicate FrontIs(name: seq<Byte>, parts: seq<seq<Byte>>) {
    (forall i :: 0 <= i < |parts| ==> Climbs(parts[i])) && Flat(parts) <= name && !Begins(name[|Flat(parts)|..])
  }

  // The rest of the name without that front; "." if there is none, or only "..".
  ghost function Rest(name: seq<Byte>, parts: seq<seq<Byte>>): seq<Byte>
    requires FrontIs(name, parts)
  {
    var rest := name[|Flat(parts)|..];
    if rest == [] || rest == [46, 46] then [46] else rest
  }

  lemma FrontMore(name: seq<Byte>, k: nat, parts: seq<seq<Byte>>)
    requires k <= |name| && Climbs(name[..k]) && FrontIs(name[k..], parts)
    ensures FrontIs(name, [name[..k]] + parts) && Rest(name, [name[..k]] + parts) == Rest(name[k..], parts)
  {
    var all := [name[..k]] + parts;
    assert all[0] == name[..k] && all[1..] == parts && Flat(all) == name[..k] + Flat(parts);
    assert name == name[..k] + name[k..];
    assert name[|Flat(all)|..] == name[k..][|Flat(parts)|..];
  }

  lemma {:induction false} DropsFront(s: seq<Byte>) returns (parts: seq<seq<Byte>>)
    ensures FrontIs(s, parts) && DropPrefixes(s) == s[|Flat(parts)|..]
    decreases |s|
  {
    var k := Prefix(s);
    if k == 0 {
      parts := [];
      assert s[0..] == s;
    } else {
      var rest := DropsFront(s[k..]);
      assert Climbs(s[..k]);
      FrontMore(s, k, rest);
      parts := [s[..k]] + rest;
      assert Flat(parts) == s[..k] + Flat(rest) by { assert parts[1..] == rest; }
      assert s[|Flat(parts)|..] == s[k..][|Flat(rest)|..];
    }
  }

  /** A stripped name is the name without the longest front made up of "/", "./" and "../"; so a name
      that begins with none of them is itself, but for the empty one and "..". */
  lemma StripIs(name: seq<Byte>) returns (parts: seq<seq<Byte>>)
    ensures FrontIs(name, parts) && Strip(name) == Rest(name, parts)
    ensures !Begins(name) && name != [] && name != [46, 46] ==> Strip(name) == name
  {
    parts := DropsFront(name);
  }

  lemma FrontNone(name: seq<Byte>)
    requires FrontIs(name, [])
    ensures !Begins(name)
  {
    assert name[0..] == name;
  }

  /** There is one such front only. */
  lemma {:induction false} FrontUnique(name: seq<Byte>, a: seq<seq<Byte>>, b: seq<seq<Byte>>)
    requires FrontIs(name, a) && FrontIs(name, b)
    ensures a == b
    decreases |a|
  {
    hide FrontIs, Begins, Climbs;
    if a != [] { FrontCut(name, a); } else { FrontNone(name); }
    if b != [] { FrontCut(name, b); } else { FrontNone(name); }
    if a != [] && b != [] {
      FirstClimb(name, a[0], b[0]);
      FrontUnique(name[|a[0]|..], a[1..], b[1..]);
      assert a == [a[0]] + a[1..] && b == [b[0]] + b[1..];
    }
  }

  lemma FirstClimb(name: seq<Byte>, p: seq<Byte>, q: seq<Byte>)
    requires p <= name && q <= name && Climbs(p) && Climbs(q)
    ensures p == q
  {
    assert p[0] == q[0] == name[0];
    if |p| > 1 && |q| > 1 {
      assert p[1] == q[1] == name[1];
    }
  }

  lemma CutAt<T>(s: seq<T>, p: seq<T>, f: seq<T>)
    requires p + f <= s
    ensures p <= s && f <= s[|p|..] && s[|p|..][|f|..] == s[|p + f|..]
  {
    assert s == p + f + s[|p + f|..];
    assert s[|p|..] == f + s[|p + f|..];
  }

  lemma FrontCut(name: seq<Byte>, parts: seq<seq<Byte>>)
    requires FrontIs(name, parts) && parts != []
    ensures parts[0] <= name && Climbs(parts[0]) && Begins(name) && FrontIs(name[|parts[0]|..], parts[1..])
  {
    assert Climbs(parts[0]);
    CutAt(name, parts[0], Flat(parts[1..]));
  }

  lemma {:induction false} DropPrefixesIn(s: seq<Byte>, x: Byte)
    requires x in DropPrefixes(s)
    ensures x in s
    decreases |s|
  {
    if Prefix(s) != 0 { DropPrefixesIn(s[Prefix(s)..], x); }
  }

  // `strip_antisocial_prefixes`
  method StripPrefixes(name: seq<Byte>) returns (r: seq<Byte>)
    ensures r == Strip(name) && exists parts :: FrontIs(name, parts) && r == Rest(name, parts)
  {
    ghost var parts := StripIs(name);
    r := name;
    while Prefix(r) != 0
      invariant DropPrefixes(r) == DropPrefixes(name)
      decreases |r|
    {
      // strchr finds the slash that ends the prefix
      var i := 0;
      while r[i] != SLASH
        invariant 0 <= i < Prefix(r) && forall j :: 0 <= j < i ==> r[j] != SLASH
        decreases |r| - i
      {
        i := i + 1;
      }
      assert i + 1 == Prefix(r);
      r := r[i + 1..];
    }
    if r == [] || r == [DOT, DOT] { r := [DOT]; }
  }

  // ---- the header ----

  const FIELDS := 14

  // Fields from the name to the group name; the last one is the rest, always null bytes.
  function Width(i: nat): nat {
    if i == 0 || i == 8 then 100 else if i == 4 || i == 5 then 12 else if i == 7 then 1 else if i == 9 then 6
    else if i == 10 then 2 else if i == 11 || i == 12 then 32 else if i == 13 then 183 else 8
  }

  // Where field i starts.
  function Start(i: nat): nat { if i == 0 then 0 else Start(i - 1) + Width(i - 1) }

  lemma StartValues()
    ensures Start(6) == CHKSUM && Start(7) == CHKSUM_END && Start(9) == 257 && Start(13) == 329 && Start(14) == HEADER_SIZE
  {
    assert Start(3) == 116;
    assert Start(6) == 148;
    assert Start(9) == 257;
    assert Start(12) == 297;
  }

  const USTAR: seq<Byte> := [117, 115, 116, 97, 114]
  const ROOT: seq<Byte> := [114, 111, 111, 116]

  function Nuls(n: nat): (r: seq<Byte>)
    ensures |r| == n
  {
    seq(n, _ => NUL)
  }

  // s in a field of n bytes
  function Text(s: seq<Byte>, n: nat): (r: seq<Byte>)
    ensures |r| >= n && (|s| <= n ==> |r| == n)
  {
    if |s| <= n then s + Nuls(n - |s|) else s
  }

  // A number in a field of width + 1 bytes.
  function Number(v: nat, width: nat): seq<Byte> { Text(Octal(v, width), width + 1) }

  // What goes into field i, given what the checksum field holds.
  function Content(name: seq<Byte>, kind: Byte, size: int, chksum: seq<Byte>, i: nat): seq<Byte> {
    if i == 0 then Text(name, 100)
    else if i == 1 then Number(if kind == REGULAR then 420 else 493, 7)
    else if i == 2 || i == 3 then Text(Zeros(7), 8)
    else if i == 4 then Number(size % 0x1_0000_0000, 11)
    else if i == 5 then Number(1136102400, 11)
    else if i == 6 then chksum
    else if i == 7 then Text([kind], 1)
    else if i == 9 then Text(USTAR, 6)
    else if i == 10 then Text([ZERO, ZERO], 2)
    else if i == 11 || i == 12 then Text(ROOT, 32)
    else Nuls(Width(i))
  }

  function Fields(name: seq<Byte>, kind: Byte, size: int, chksum: seq<Byte>): (r: seq<seq<Byte>>)
    ensures |r| == FIELDS
  {
    seq(FIELDS, i requires 0 <= i < FIELDS => Content(name, kind, size, chksum, i))
  }

  ghost predicate Shaped(fs: seq<seq<Byte>>) { |fs| == FIELDS && forall i :: 0 <= i < FIELDS ==> |fs[i]| == Width(i) }

  lemma {:induction false} StartIs(fs: seq<seq<Byte>>, i: nat)
    requires Shaped(fs) && i <= FIELDS
    ensures |Flat(fs[..i])| == Start(i)
  {
    hide Width;
    if i > 0 {
      StartIs(fs, i - 1);
      FlatSplit(fs[..i], i - 1);
      assert fs[..i][..i - 1] == fs[..i - 1] && fs[..i][i..] == [];
    } else {
      assert fs[..0] == [];
    }
  }

  function Field(h: seq<Byte>, i: nat): seq<Byte> {
    if Start(i) + Width(i) <= |h| then h[Start(i)..Start(i) + Width(i)] else []
  }

  lemma FieldIs(fs: seq<seq<Byte>>, i: nat)
    requires Shaped(fs) && i < FIELDS
    ensures |Flat(fs)| == HEADER_SIZE && Start(i) + Width(i) <= HEADER_SIZE && Field(Flat(fs), i) == fs[i]
  {
    hide Width;
    StartIs(fs, i);
    StartIs(fs, FIELDS);
    StartValues();
    assert fs[..FIELDS] == fs;
    FlatSplit(fs, i);
  }

  lemma NumberFits(v: nat)
    ensures v < 2097152 ==> |Octal(v, 7)| == 7 && |Number(v, 7)| == 8 && Number(v, 7) == Octal(v, 7) + [NUL]
    ensures v < 0x1_0000_0000 ==> |Octal(v, 11)| == 11 && |Number(v, 11)| == 12 && Number(v, 11) == Octal(v, 11) + [NUL]
  {
    assert Pow8(3) == 512 && Pow8(7) == 4096 * Pow8(3) && Pow8(11) == 4096 * Pow8(7);
    if v < 2097152 { OctalFits(v, 7); }
    if v < 0x1_0000_0000 { OctalFits(v, 11); }
  }

  lemma FieldsShaped(name: seq<Byte>, kind: Byte, size: int, chksum: seq<Byte>)
    requires |name| <= 99 && |chksum| == 8
    ensures Shaped(Fields(name, kind, size, chksum))
  {
    NumberFits(if kind == REGULAR then 420 else 493);
    NumberFits(1136102400);
    NumberFits(size % 0x1_0000_0000);
    hide Octal, Number, Text, Nuls;
    forall i | 0 <= i < FIELDS ensures |Content(name, kind, size, chksum, i)| == Width(i) {}
  }

  /** A complete header: every byte is as the format says, the checksum being that of the header. */
  ghost predicate Made(h: seq<Byte>, name: seq<Byte>, kind: Byte, size: int) {
    && |h| == HEADER_SIZE
    && h == Flat(Fields(name, kind, size, Number(Checksum(h, HEADER_SIZE), 7)))
  }

  // ---- reading ----

  datatype Fault =
    | NotUstar | BadVersion | CorruptChecksum | ChecksumMismatch | NameTooLong | UnknownType | CorruptSize | TooLarge

  datatype Parsed = EndOfArchive | Failed(why: Fault) | Entry(name: seq<Byte>, kind: Byte, size: int)

  function CString(s: seq<Byte>): seq<Byte> { if s == [] || s[0] == NUL then [] else [s[0]] + CString(s[1..]) }

  // `ustar_parse_header`
  ghost function Parse(h: seq<Byte>): Parsed
    requires |h| == HEADER_SIZE
  {
    var chksum, size := ParseOctal(Field(h, 6)), ParseOctal(Field(h, 4));
    if forall i :: 0 <= i < HEADER_SIZE ==> h[i] == NUL then EndOfArchive
    else if Field(h, 9) != Text(USTAR, 6) then Failed(NotUstar)
    else if Field(h, 10) != Text([ZERO, ZERO], 2) then Failed(BadVersion)
    else if chksum.None? then Failed(CorruptChecksum)
    else if chksum.value != Checksum(h, HEADER_SIZE) then Failed(ChecksumMismatch)
    else if h[99] != NUL || h[345] != NUL then Failed(NameTooLong)
    else if h[156] != REGULAR && h[156] != DIRECTORY then Failed(UnknownType)
    else if h[156] == REGULAR && size.None? then Failed(CorruptSize)
    else if h[156] == REGULAR && size.value > INT_MAX then Failed(TooLarge)
    else Entry(Strip(CString(Field(h, 0))), h[156], if h[156] == REGULAR then size.value else 0)
  }

  lemma {:induction false} CStringText(s: seq<Byte>, n: nat)
    requires NUL !in s && n > 0
    ensures CString(s + Nuls(n)) == s
  {
    if s != [] {
      assert (s + Nuls(n))[1..] == s[1..] + Nuls(n);
      CStringText(s[1..], n);
    }
  }

  lemma MadeField(h: seq<Byte>, name: seq<Byte>, kind: Byte, size: int, i: nat)
    requires Made(h, name, kind, size) && |name| <= 99 && i < FIELDS
    ensures |h| == HEADER_SIZE && Field(h, i) == Fields(name, kind, size, Number(Checksum(h, HEADER_SIZE), 7))[i]
  {
    var fs := Fields(name, kind, size, Number(Checksum(h, HEADER_SIZE), 7));
    NumberFits(Checksum(h, HEADER_SIZE));
    FieldsShaped(name, kind, size, Number(Checksum(h, HEADER_SIZE), 7));
    FieldIs(fs, i);
  }

  lemma MadeTexts(h: seq<Byte>, name: seq<Byte>, kind: Byte, size: int)
    requires Made(h, name, kind, size) && |name| <= 99
    ensures |h| == HEADER_SIZE && Field(h, 0) == Text(name, 100) && Field(h, 9) == Text(USTAR, 6)
    ensures Field(h, 10) == Text([ZERO, ZERO], 2) && Field(h, 13) == Nuls(183)
  {
    MadeField(h, name, kind, size, 0);
    MadeField(h, name, kind, size, 9);
    MadeField(h, name, kind, size, 10);
    MadeField(h, name, kind, size, 13);
  }

  lemma MadeNumbers(h: seq<Byte>, name: seq<Byte>, kind: Byte, size: int)
    requires Made(h, name, kind, size) && |name| <= 99
    ensures |h| == HEADER_SIZE && Field(h, 4) == Number(size % 0x1_0000_0000, 11)
    ensures Field(h, 6) == Number(Checksum(h, HEADER_SIZE), 7) && Field(h, 7) == Text([kind], 1)
  {
    MadeField(h, name, kind, size, 4);
    MadeField(h, name, kind, size, 6);
    MadeField(h, name, kind, size, 7);
  }

  // The single bytes that reading looks at.
  lemma FieldBytes(h: seq<Byte>, name: seq<Byte>, kind: Byte)
    requires |h| == HEADER_SIZE && |name| <= 99 && Field(h, 0) == Text(name, 100) && Field(h, 7) == Text([kind], 1)
    requires Field(h, 9) == Text(USTAR, 6) && Field(h, 13) == Nuls(183)
    ensures h[99] == NUL && h[345] == NUL && h[156] == kind && h[257] != NUL
  {
    StartValues();
    assert h[99] == Field(h, 0)[99] && h[156] == Field(h, 7)[0] && h[257] == Field(h, 9)[0] && h[345] == Field(h, 13)[16];
  }

  lemma SizeField(h: seq<Byte>, size: int)
    requires |h| == HEADER_SIZE && Field(h, 4) == Number(size % 0x1_0000_0000, 11) && -INT_MAX - 1 <= size <= INT_MAX
    ensures ParseOctal(Field(h, 4)).Some?
    ensures if size < 0 then ParseOctal(Field(h, 4)).value > INT_MAX else ParseOctal(Field(h, 4)).value == size
  {
    var v := size % 0x1_0000_0000;
    assert v == if size < 0 then size + 0x1_0000_0000 else size;
    hide *;
    NumberFits(v);
    OctalRoundTrip(v, 11);
  }

  lemma ChecksumField(h: seq<Byte>)
    requires |h| == HEADER_SIZE && Field(h, 6) == Number(Checksum(h, HEADER_SIZE), 7)
    ensures ParseOctal(Field(h, 6)) == Some(Checksum(h, HEADER_SIZE))
  {
    NumberFits(Checksum(h, HEADER_SIZE));
    OctalRoundTrip(Checksum(h, HEADER_SIZE), 7);
  }

  lemma NameField(h: seq<Byte>, name: seq<Byte>)
    requires |h| == HEADER_SIZE && |Strip(name)| <= 99 && NUL !in name && Field(h, 0) == Text(Strip(name), 100)
    ensures Strip(CString(Field(h, 0))) == Strip(name)
  {
    StripNoNul(name);
    CStringText(Strip(name), 100 - |Strip(name)|);
    StripSafe(name);
  }

  lemma ParseIs(h: seq<Byte>, kind: Byte)
    requires |h| == HEADER_SIZE && h[257] != NUL && Field(h, 9) == Text(USTAR, 6) && Field(h, 10) == Text([ZERO, ZERO], 2)
    requires ParseOctal(Field(h, 6)) == Some(Checksum(h, HEADER_SIZE)) && ParseOctal(Field(h, 4)).Some?
    requires h[99] == NUL && h[345] == NUL && h[156] == kind && (kind == REGULAR || kind == DIRECTORY)
    ensures Parse(h) == if kind == REGULAR && ParseOctal(Field(h, 4)).value > INT_MAX then Failed(TooLarge)
                        else Entry(Strip(CString(Field(h, 0))), kind,
                                   if kind == REGULAR then ParseOctal(Field(h, 4)).value else 0)
  {
  }

  /** Reading a header that was made gives back the stripped name, the type and the size, unless
      it is a regular file of negative size, which reads as too large. */
  lemma RoundTrip(h: seq<Byte>, name: seq<Byte>, kind: Byte, size: int)
    requires Made(h, Strip(name), kind, size) && |Strip(name)| <= 99 && NUL !in name
    requires (kind == REGULAR || kind == DIRECTORY) && -INT_MAX - 1 <= size <= INT_MAX
    ensures Parse(h) == if kind == REGULAR && size < 0 then Failed(TooLarge)
                        else Entry(Strip(name), kind, if kind == REGULAR then size else 0)
  {
    hide *;
    MadeTexts(h, Strip(name), kind, size);
    MadeNumbers(h, Strip(name), kind, size);
    FieldBytes(h, Strip(name), kind);
    NameField(h, name);
    SizeField(h, size);
    ChecksumField(h);
    ParseIs(h, kind);
  }

  // ---- which headers are read, byte by byte ----

  ghost predicate AllNul(h: seq<Byte>, lo: nat, hi: nat) { hi <= |h| && forall i :: lo <= i < hi ==> h[i] == 0 }

  // Bytes lo to k are octal digits of value v, a space or a null byte comes next, all before hi.
  ghost predicate OctalUpTo(h: seq<Byte>, lo: nat, hi: nat, k: nat, v: int) {
    && lo < k < hi <= |h|
    && (forall i :: lo <= i < k ==> 48 <= h[i] <= 55)
    && (h[k] == 32 || h[k] == 0)
    && v == Value(h[lo..k]) <= 0xFFFF_FFFF
  }

  ghost predicate OctalAt(h: seq<Byte>, lo: nat, hi: nat, v: int) { exists k: nat :: OctalUpTo(h, lo, hi, k, v) }

  lemma OctalAtIff(h: seq<Byte>, lo: nat, hi: nat, v: int)
    requires lo <= hi <= |h|
    ensures ParseOctal(h[lo..hi]) == Some(v) <==> OctalAt(h, lo, hi, v)
  {
    var s := h[lo..hi];
    if OctalAt(h, lo, hi, v) {
      var k: nat :| OctalUpTo(h, lo, hi, k, v);
      forall i | 0 <= i < k - lo ensures IsOctal(s[i]) { assert s[i] == h[lo + i]; }
      assert s[k - lo] == h[k] && s[..k - lo] == h[lo..k];
      OctalPrefixIs(s, k - lo);
    }
    if ParseOctal(s) == Some(v) {
      var k := lo + OctalPrefix(s);
      forall i | lo <= i < k ensures 48 <= h[i] <= 55 { assert IsOctal(s[i - lo]); }
      assert h[k] == s[k - lo] && s[..k - lo] == h[lo..k];
      assert OctalUpTo(h, lo, hi, k, v);
    }
  }

  // What a header that is not all null bytes must pass, in the order of the tests.
  ghost predicate Passes(h: seq<Byte>, test: Fault)
    requires |h| == 512
  {
    match test
    case NotUstar => h[257] == 117 && h[258] == 115 && h[259] == 116 && h[260] == 97 && h[261] == 114 && h[262] == 0
    case BadVersion => h[263] == 48 && h[264] == 48
    case CorruptChecksum => exists v :: OctalAt(h, 148, 156, v)
    case ChecksumMismatch => OctalAt(h, 148, 156, Sum(Blanked(h)))
    case NameTooLong => h[99] == 0 && h[345] == 0
    case UnknownType => h[156] == 48 || h[156] == 53
    case CorruptSize => h[156] == 48 ==> exists v :: OctalAt(h, 124, 136, v)
    case TooLarge => h[156] == 48 ==> exists v :: OctalAt(h, 124, 136, v) && v <= 0x7FFF_FFFF
  }

  function Order(test: Fault): nat {
    match test
    case NotUstar => 0
    case BadVersion => 1
    case CorruptChecksum => 2
    case ChecksumMismatch => 3
    case NameTooLong => 4
    case UnknownType => 5
    case CorruptSize => 6
    case TooLarge => 7
  }

  ghost predicate FailsFirst(h: seq<Byte>, test: Fault)
    requires |h| == 512
  {
    !Passes(h, test) && forall t :: Order(t) < Order(test) ==> Passes(h, t)
  }

  // The name of the first k bytes, type and size of a header.
  ghost predicate Holds(h: seq<Byte>, k: nat, name: seq<Byte>, kind: Byte, size: int)
    requires |h| == 512
  {
    && k <= 99 && h[k] == 0 && 0 !in h[..k] && (exists parts :: FrontIs(h[..k], parts) && name == Rest(h[..k], parts))
    && kind == h[156] && (if kind == 48 then OctalAt(h, 124, 136, size) else size == 0)
  }

  lemma FieldSpots(h: seq<Byte>)
    requires |h| == HEADER_SIZE
    ensures Field(h, 0) == h[..100] && Field(h, 4) == h[124..136] && Field(h, 6) == h[148..156]
    ensures Field(h, 9) == h[257..263] && Field(h, 10) == h[263..265]
  {
    assert Start(4) == 124;
    StartValues();
  }

  lemma TextTests(h: seq<Byte>)
    requires |h| == HEADER_SIZE
    ensures Field(h, 9) == Text(USTAR, 6) <==> Passes(h, NotUstar)
    ensures Field(h, 10) == Text([ZERO, ZERO], 2) <==> Passes(h, BadVersion)
  {
    FieldSpots(h);
    var m, v := h[257..263], h[263..265];
    assert m == [h[257], h[258], h[259], h[260], h[261], h[262]] && v == [h[263], h[264]];
    assert Text(USTAR, 6) == [117, 115, 116, 97, 114, 0] && Text([ZERO, ZERO], 2) == [48, 48];
  }

  lemma OctalOnce(h: seq<Byte>, lo: nat, hi: nat)
    requires lo <= hi <= |h|
    ensures ParseOctal(h[lo..hi]).Some? <==> exists v :: OctalAt(h, lo, hi, v)
    ensures ParseOctal(h[lo..hi]).Some? ==> OctalAt(h, lo, hi, ParseOctal(h[lo..hi]).value)
    ensures forall v :: OctalAt(h, lo, hi, v) ==> ParseOctal(h[lo..hi]) == Some(v)
  {
    var r := ParseOctal(h[lo..hi]);
    if r.Some? { OctalAtIff(h, lo, hi, r.value); }
    forall v | OctalAt(h, lo, hi, v) ensures r == Some(v) { OctalAtIff(h, lo, hi, v); }
  }

  lemma NumberTests(h: seq<Byte>)
    requires |h| == HEADER_SIZE
    ensures var c := ParseOctal(Field(h, 6));
            (c.Some? <==> Passes(h, CorruptChecksum))
            && (c == Some(Checksum(h, HEADER_SIZE)) <==> Passes(h, ChecksumMismatch))
    ensures var z := ParseOctal(Field(h, 4));
            && (h[156] == REGULAR ==> (z.Some? <==> Passes(h, CorruptSize)))
            && (h[156] == REGULAR ==> (z.Some? && z.value <= INT_MAX <==> Passes(h, TooLarge)))
            && (z.Some? ==> OctalAt(h, 124, 136, z.value))
  {
    hide ParseOctal, Field, OctalAt, Checksum, Sum, Blanked;
    FieldSpots(h);
    OctalOnce(h, 148, 156);
    OctalOnce(h, 124, 136);
    ChecksumIs(h);
  }

  lemma {:induction false} CStringIs(s: seq<Byte>, n: nat) returns (k: nat)
    requires n < |s| && s[n] == NUL
    ensures k <= n && s[k] == NUL && NUL !in s[..k] && CString(s) == s[..k]
  {
    if s[0] == NUL {
      k := 0;
    } else {
      var j := CStringIs(s[1..], n - 1);
      k := j + 1;
      assert s[..k] == [s[0]] + s[1..][..j];
    }
  }

  lemma HoldsName(h: seq<Byte>, name: seq<Byte>, kind: Byte, size: int) returns (k: nat)
    requires |h| == HEADER_SIZE && h[99] == NUL && name == Strip(CString(Field(h, 0)))
    requires kind == h[156] && (if kind == 48 then OctalAt(h, 124, 136, size) else size == 0)
    ensures Holds(h, k, name, kind, size)
  {
    FieldSpots(h);
    k := CStringIs(h[..100], 99);
    assert h[..100][..k] == h[..k];
    var parts := StripIs(h[..k]);
  }

  // The first test that fails, if any.
  ghost function Why(h: seq<Byte>): Option<Fault>
    requires |h| == 512
  {
    if !Passes(h, NotUstar) then Some(NotUstar)
    else if !Passes(h, BadVersion) then Some(BadVersion)
    else if !Passes(h, CorruptChecksum) then Some(CorruptChecksum)
    else if !Passes(h, ChecksumMismatch) then Some(ChecksumMismatch)
    else if !Passes(h, NameTooLong) then Some(NameTooLong)
    else if !Passes(h, UnknownType) then Some(UnknownType)
    else if !Passes(h, CorruptSize) then Some(CorruptSize)
    else if !Passes(h, TooLarge) then Some(TooLarge)
    else None
  }

  lemma WhyFirst(h: seq<Byte>, t: Fault)
    requires |h| == HEADER_SIZE
    ensures Why(h) == Some(t) <==> FailsFirst(h, t)
  {
    hide Passes;
    if FailsFirst(h, t) && Why(h).Some? {
      assert Order(Why(h).value) >= Order(t);
    }
  }

  lemma WhySome(h: seq<Byte>)
    requires |h| == HEADER_SIZE && Why(h).Some?
    ensures !Passes(h, Why(h).value)
  {
    hide Passes;
  }

  lemma WhyNone(h: seq<Byte>, t: Fault)
    requires |h| == HEADER_SIZE && Why(h) == None
    ensures Passes(h, t)
  {
    hide Passes;
  }

  lemma ParseWhy(h: seq<Byte>)
    requires |h| == HEADER_SIZE && !AllNul(h, 0, 512)
    ensures Why(h).Some? ==> Parse(h) == Failed(Why(h).value)
    ensures Why(h).None? ==>
              && h[99] == NUL && (h[156] == REGULAR ==> ParseOctal(Field(h, 4)).Some?)
              && Parse(h) == Entry(Strip(CString(Field(h, 0))), h[156],
                                   if h[156] == REGULAR then ParseOctal(Field(h, 4)).value else 0)
  {
    hide ParseOctal, Field, OctalAt, Checksum, Sum, Blanked, Strip, CString, Text;
    assert Passes(h, NameTooLong) <==> h[99] == NUL && h[345] == NUL;
    assert Passes(h, UnknownType) <==> h[156] == REGULAR || h[156] == DIRECTORY;
    assert h[156] != REGULAR ==> Passes(h, CorruptSize) && Passes(h, TooLarge);
    hide Passes;
    TextTests(h);
    NumberTests(h);
  }

  lemma ParseEntry(h: seq<Byte>)
    requires |h| == HEADER_SIZE && !AllNul(h, 0, 512) && Why(h).None?
    ensures Parse(h).Entry? && exists k :: Holds(h, k, Parse(h).name, Parse(h).kind, Parse(h).size)
  {
    assert |h| == 512 && REGULAR == 48;
    hide *;
    NumberTests(h);
    ParseWhy(h);
    var k := HoldsName(h, Parse(h).name, Parse(h).kind, Parse(h).size);
  }

  lemma ParseNul(h: seq<Byte>)
    requires |h| == HEADER_SIZE
    ensures Parse(h) == EndOfArchive <==> AllNul(h, 0, 512)
  {
    hide ParseOctal, Field, Checksum, Strip, CString, Text;
  }

  /** Which headers are rejected, and why: the first of the tests that fails says; one that passes
      all is read as the name before its first null byte, stripped, its type and its size. */
  lemma ParseExactly(h: seq<Byte>)
    requires |h| == HEADER_SIZE
    ensures Parse(h) == EndOfArchive <==> AllNul(h, 0, 512)
    ensures forall t :: Parse(h) == Failed(t) <==> !AllNul(h, 0, 512) && FailsFirst(h, t)
    ensures Parse(h).Entry? <==> !AllNul(h, 0, 512) && forall t :: Passes(h, t)
    ensures Parse(h).Entry? ==> exists k :: Holds(h, k, Parse(h).name, Parse(h).kind, Parse(h).size)
  {
    assert |h| == 512;
    hide *;
    ParseNul(h);
    forall t ensures Why(h) == Some(t) <==> FailsFirst(h, t) { WhyFirst(h, t); }
    if !AllNul(h, 0, 512) {
      ParseWhy(h);
      if Why(h).None? {
        forall t ensures Passes(h, t) { WhyNone(h, t); }
        ParseEntry(h);
      } else {
        WhySome(h);
      }
    }
  }

  // ---- a header that was made, byte by byte ----

  // Bytes lo to hi are octal digits of value v, and a null byte comes next.
  ghost predicate OctalFull(h: seq<Byte>, lo: nat, hi: nat, v: int) {
    lo <= hi < |h| && (forall i :: lo <= i < hi ==> 48 <= h[i] <= 55) && Value(h[lo..hi]) == v && h[hi] == 0
  }

  lemma FieldText(h: seq<Byte>, i: nat, s: seq<Byte>)
    requires Start(i) + Width(i) <= |h| && |s| <= Width(i) && Field(h, i) == Text(s, Width(i))
    ensures h[Start(i)..Start(i) + |s|] == s && AllNul(h, Start(i) + |s|, Start(i) + Width(i))
  {
    hide Width, Start;
    var f := h[Start(i)..Start(i) + Width(i)];
    assert f == s + Nuls(Width(i) - |s|);
    assert h[Start(i)..Start(i) + |s|] == f[..|s|];
    forall j | Start(i) + |s| <= j < Start(i) + Width(i) ensures h[j] == 0 { assert h[j] == f[j - Start(i)]; }
  }

  lemma EndNul(h: seq<Byte>, at: nat)
    requires AllNul(h, at, at + 1)
    ensures at < |h| && h[at] == 0
  {
  }

  lemma FieldNumber(h: seq<Byte>, i: nat, v: nat, w: nat)
    requires Start(i) + Width(i) <= |h| && Width(i) == w + 1 && |Octal(v, w)| == w && Field(h, i) == Number(v, w)
    ensures OctalFull(h, Start(i), Start(i) + w, v)
  {
    hide Octal, Value, OctalFull, Start, Width, Field, AllNul, Text;
    FieldText(h, i, Octal(v, w));
    EndNul(h, Start(i) + w);
    OctalValue(v, w);
    OctalBytes(h, Start(i), Octal(v, w));
  }

  lemma OctalBytes(h: seq<Byte>, lo: nat, ds: seq<Byte>)
    requires lo + |ds| < |h| && h[lo..lo + |ds|] == ds && (forall j :: 0 <= j < |ds| ==> IsOctal(ds[j])) && h[lo + |ds|] == 0
    ensures OctalFull(h, lo, lo + |ds|, Value(ds))
  {
    hide Value;
    forall j | lo <= j < lo + |ds| ensures 48 <= h[j] <= 55 { assert h[j] == ds[j - lo] && IsOctal(ds[j - lo]); }
  }

  lemma Starts()
    ensures Start(0) == 0 && Start(1) == 100 && Start(2) == 108 && Start(3) == 116 && Start(4) == 124 && Start(5) == 136
    ensures Start(6) == 148 && Start(7) == 156 && Start(8) == 157 && Start(9) == 257 && Start(10) == 263
    ensures Start(11) == 265 && Start(12) == 297 && Start(13) == 329 && Start(14) == 512
    ensures Width(1) == Width(2) == Width(3) == Width(6) == 8 && Width(4) == Width(5) == 12
  {
    StartValues();
    assert Start(3) == 116 && Start(5) == 136 && Start(8) == 157 && Start(12) == 297;
  }

  // The numbers of a made header and where they stand.
  ghost predicate NumbersMade(h: seq<Byte>, kind: Byte, size: int)
    requires |h| == 512
  {
    && OctalFull(h, 100, 107, if kind == 48 then 420 else 493)
    && OctalFull(h, 108, 115, 0)
    && OctalFull(h, 116, 123, 0)
    && OctalFull(h, 124, 135, size % 0x1_0000_0000)
    && OctalFull(h, 136, 147, 1136102400)
    && OctalFull(h, 148, 155, Sum(Blanked(h)))
  }

  // Its texts.
  ghost predicate TextsMade(h: seq<Byte>, name: seq<Byte>, kind: Byte)
    requires |h| == 512
  {
    && name <= h && AllNul(h, |name|, 100)
    && h[156] == kind && AllNul(h, 157, 257)
    && h[257..265] == [117, 115, 116, 97, 114, 0, 48, 48]
    && h[265..269] == [114, 111, 111, 116] && AllNul(h, 269, 297)
    && h[297..301] == [114, 111, 111, 116] && AllNul(h, 301, 329)
    && AllNul(h, 329, 512)
  }

  lemma NumberOfMade(h: seq<Byte>, name: seq<Byte>, kind: Byte, size: int, i: nat, v: nat, w: nat)
    requires Made(h, name, kind, size) && |name| <= 99 && i < FIELDS && Width(i) == w + 1 && |Octal(v, w)| == w
    requires Content(name, kind, size, Number(Checksum(h, HEADER_SIZE), 7), i) == Number(v, w)
    ensures OctalFull(h, Start(i), Start(i) + w, v)
  {
    MadeField(h, name, kind, size, i);
    hide Octal, Made, Checksum, OctalFull, Text, Number, Content;
    assert Start(i) + Width(i) <= 512 by { Starts(); }
    FieldNumber(h, i, v, w);
  }

  lemma ContentNumbers(name: seq<Byte>, kind: Byte, size: int, chksum: seq<Byte>)
    ensures Content(name, kind, size, chksum, 1) == Number(if kind == 48 then 420 else 493, 7)
    ensures Content(name, kind, size, chksum, 2) == Number(0, 7) && Content(name, kind, size, chksum, 3) == Number(0, 7)
    ensures Content(name, kind, size, chksum, 4) == Number(size % 0x1_0000_0000, 11)
    ensures Content(name, kind, size, chksum, 5) == Number(1136102400, 11) && Content(name, kind, size, chksum, 6) == chksum
  {
    assert Octal(0, 7) == Zeros(7);
  }

  lemma MadeAt(h: seq<Byte>, name: seq<Byte>, kind: Byte, size: int, i: nat, at: nat, v: nat, w: nat)
    requires Made(h, name, kind, size) && |name| <= 99 && i < FIELDS && Start(i) == at && Width(i) == w + 1
    requires (w == 7 && v < 2097152) || (w == 11 && v < 0x1_0000_0000)
    requires Content(name, kind, size, Number(Checksum(h, HEADER_SIZE), 7), i) == Number(v, w)
    ensures OctalFull(h, at, at + w, v)
  {
    hide *;
    NumberFits(v);
    NumberOfMade(h, name, kind, size, i, v, w);
  }

  lemma MadeSum(h: seq<Byte>, name: seq<Byte>, kind: Byte, size: int)
    requires Made(h, name, kind, size)
    ensures FIELDS == 14 && HEADER_SIZE == 512 == |h| && Checksum(h, HEADER_SIZE) == Sum(Blanked(h)) < 2097152
  {
    hide Sum, Checksum, Blanked;
    ChecksumIs(h);
  }

  lemma NumbersOfMade(h: seq<Byte>, name: seq<Byte>, kind: Byte, size: int)
    requires Made(h, name, kind, size) && |name| <= 99
    ensures |h| == 512 && NumbersMade(h, kind, size)
  {
    hide *;
    MadeSum(h, name, kind, size);
    var mode, v, sum := if kind == 48 then 420 else 493, size % 0x1_0000_0000, Checksum(h, HEADER_SIZE);
    Starts();
    ContentNumbers(name, kind, size, Number(sum, 7));
    MadeAt(h, name, kind, size, 1, 100, mode, 7);
    MadeAt(h, name, kind, size, 2, 108, 0, 7);
    MadeAt(h, name, kind, size, 3, 116, 0, 7);
    MadeAt(h, name, kind, size, 4, 124, v, 11);
    MadeAt(h, name, kind, size, 5, 136, 1136102400, 11);
    MadeAt(h, name, kind, size, 6, 148, sum, 7);
    NumbersAre(h, kind, size);
  }

  lemma NumbersAre(h: seq<Byte>, kind: Byte, size: int)
    requires |h| == 512 && OctalFull(h, 100, 107, if kind == 48 then 420 else 493)
    requires OctalFull(h, 108, 115, 0) && OctalFull(h, 116, 123, 0) && OctalFull(h, 124, 135, size % 0x1_0000_0000)
    requires OctalFull(h, 136, 147, 1136102400) && OctalFull(h, 148, 155, Sum(Blanked(h)))
    ensures NumbersMade(h, kind, size)
  {
    hide OctalFull, Sum, Blanked;
  }

  lemma FieldEnds(i: nat)
    requires i < FIELDS
    ensures Start(i) + Width(i) <= 512
  {
    Starts();
  }

  lemma TextOfMade(h: seq<Byte>, name: seq<Byte>, kind: Byte, size: int, i: nat, s: seq<Byte>)
    requires Made(h, name, kind, size) && |name| <= 99 && i < FIELDS && |s| <= Width(i)
    requires Content(name, kind, size, Number(Checksum(h, HEADER_SIZE), 7), i) == Text(s, Width(i))
    ensures |h| == 512 && Start(i) + Width(i) <= 512
    ensures h[Start(i)..Start(i) + |s|] == s && AllNul(h, Start(i) + |s|, Start(i) + Width(i))
  {
    assert |h| == 512 && |Fields(name, kind, size, Number(Checksum(h, HEADER_SIZE), 7))| == 14;
    assert Fields(name, kind, size, Number(Checksum(h, HEADER_SIZE), 7))[i] == Text(s, Width(i));
    hide *;
    MadeField(h, name, kind, size, i);
    FieldEnds(i);
    FieldText(h, i, s);
  }

  lemma TextsOfMade(h: seq<Byte>, name: seq<Byte>, kind: Byte, size: int)
    requires Made(h, name, kind, size) && |name| <= 99
    ensures |h| == 512 && TextsMade(h, name, kind)
  {
    Starts();
    assert Nuls(100) == Text([], 100) && Nuls(183) == Text([], 183);
    hide Start, Made, Checksum, Number, AllNul, Text, Nuls;
    TextOfMade(h, name, kind, size, 0, name);
    TextOfMade(h, name, kind, size, 7, [kind]);
    TextOfMade(h, name, kind, size, 8, []);
    TextOfMade(h, name, kind, size, 9, USTAR);
    TextOfMade(h, name, kind, size, 10, [ZERO, ZERO]);
    TextOfMade(h, name, kind, size, 11, ROOT);
    TextOfMade(h, name, kind, size, 12, ROOT);
    TextOfMade(h, name, kind, size, 13, []);
    TextsJoin(h);
  }

  lemma TextsJoin(h: seq<Byte>)
    requires |h| == 512 && h[257..262] == USTAR && AllNul(h, 262, 263) && h[263..265] == [48, 48]
    ensures h[257..265] == [117, 115, 116, 97, 114, 0, 48, 48]
  {
    assert h[257..265] == h[257..262] + [h[262]] + h[263..265];
  }

  lemma StripNoNul(name: seq<Byte>)
    requires NUL !in name
    ensures NUL !in Strip(name)
  {
    forall x | x in DropPrefixes(name) ensures x in name { DropPrefixesIn(name, x); }
  }

  // ---- the header as it is filled in ----

  // The header with the given fields filled in and null bytes elsewhere.
  ghost function Mix(target: seq<seq<Byte>>, filled: set<nat>): (r: seq<seq<Byte>>)
    requires Shaped(target)
    ensures Shaped(r)
  {
    seq(FIELDS, i requires 0 <= i < FIELDS => if i in filled then target[i] else Nuls(Width(i)))
  }

  ghost predicate Filled(h: seq<Byte>, target: seq<seq<Byte>>, filled: set<nat>) {
    Shaped(target) && h == Flat(Mix(target, filled))
  }

  // memcpy into the header
  method CopyAt(h: array<Byte>, at: nat, data: seq<Byte>)
    requires at + |data| <= h.Length
    modifies h
    ensures h[..] == old(h[..])[..at] + data + old(h[..])[at + |data|..]
  {
    ghost var was := h[..];
    var j := 0;
    while j < |data|
      invariant 0 <= j <= |data|
      invariant forall x :: at <= x < at + j ==> h[x] == data[x - at]
      invariant forall x :: 0 <= x < h.Length && !(at <= x < at + j) ==> h[x] == was[x]
    {
      h[at + j] := data[j];
      j := j + 1;
    }
  }

  // data is what goes into field i.
  ghost predicate Slot(target: seq<seq<Byte>>, i: nat, data: seq<Byte>) {
    Shaped(target) && i < FIELDS && |data| <= Width(i) && target[i] == Text(data, Width(i))
  }

  lemma MixStep(target: seq<seq<Byte>>, filled: set<nat>, i: nat)
    requires Shaped(target) && i < FIELDS && i !in filled
    ensures var fs := Mix(target, filled);
            Mix(target, filled + {i}) == fs[i := target[i]] && fs[i] == Nuls(Width(i))
  {
    hide Width;
  }

  lemma FlatUpdate(fs: seq<seq<Byte>>, i: nat, x: seq<Byte>)
    requires i < |fs|
    ensures Flat(fs) == Flat(fs[..i]) + fs[i] + Flat(fs[i + 1..])
    ensures Flat(fs[i := x]) == Flat(fs[..i]) + x + Flat(fs[i + 1..])
  {
    FlatSplit(fs, i);
    FlatSplit(fs[i := x], i);
    assert fs[i := x][..i] == fs[..i] && fs[i := x][i + 1..] == fs[i + 1..];
  }

  lemma PutResult(was: seq<Byte>, target: seq<seq<Byte>>, filled: set<nat>, i: nat, data: seq<Byte>, at: nat)
    requires Filled(was, target, filled) && Slot(target, i, data) && i !in filled && at == Start(i)
    ensures |was| == HEADER_SIZE && at + |data| <= HEADER_SIZE
    ensures Filled(was[..at] + data + was[at + |data|..], target, filled + {i})
  {
    hide *;
    FilledSplit(was, target, filled, i, data, at);
    var fs := Mix(target, filled);
    MixStep(target, filled, i);
    PutFlat(was, fs, target, i, data, at);
    FilledIs(was[..at] + data + was[at + |data|..], target, filled + {i}, fs[i := target[i]]);
  }

  lemma FilledIs(h: seq<Byte>, target: seq<seq<Byte>>, filled: set<nat>, fs: seq<seq<Byte>>)
    requires Shaped(target) && fs == Mix(target, filled) && h == Flat(fs)
    ensures Filled(h, target, filled)
  {
  }

  lemma FilledSplit(was: seq<Byte>, target: seq<seq<Byte>>, filled: set<nat>, i: nat, data: seq<Byte>, at: nat)
    requires Filled(was, target, filled) && Slot(target, i, data) && i !in filled && at == Start(i)
    ensures Shaped(target) && |target| == FIELDS && i < FIELDS && |was| == HEADER_SIZE && at + |data| <= HEADER_SIZE
    ensures var fs := Mix(target, filled);
            && |fs| == FIELDS && fs[i] == Nuls(|fs[i]|) && |data| <= |fs[i]| && target[i] == Text(data, |fs[i]|)
            && was == Flat(fs[..i]) + fs[i] + Flat(fs[i + 1..]) && at == |Flat(fs[..i])|
            && Flat(fs[i := target[i]]) == Flat(fs[..i]) + target[i] + Flat(fs[i + 1..])
  {
    var fs := Mix(target, filled);
    FieldIs(fs, i);
    StartIs(fs, i);
    MixStep(target, filled, i);
    FlatUpdate(fs, i, target[i]);
  }

  lemma PutFlat(was: seq<Byte>, fs: seq<seq<Byte>>, target: seq<seq<Byte>>, i: nat, data: seq<Byte>, at: nat)
    requires i < |fs| && i < |target| && |data| <= |fs[i]| && fs[i] == Nuls(|fs[i]|) && target[i] == Text(data, |fs[i]|)
    requires was == Flat(fs[..i]) + fs[i] + Flat(fs[i + 1..]) && at == |Flat(fs[..i])|
    requires Flat(fs[i := target[i]]) == Flat(fs[..i]) + target[i] + Flat(fs[i + 1..])
    ensures at + |data| <= |was| && was[..at] + data + was[at + |data|..] == Flat(fs[i := target[i]])
  {
    PutBytes(Flat(fs[..i]), Flat(fs[i + 1..]), data, |fs[i]|);
  }

  lemma PutBytes(a: seq<Byte>, b: seq<Byte>, data: seq<Byte>, n: nat)
    requires |data| <= n
    ensures var s := a + Nuls(n) + b; s[..|a|] + data + s[|a| + |data|..] == a + Text(data, n) + b
  {
  }

  // data in a field that was null bytes
  method PutField(h: array<Byte>, i: nat, data: seq<Byte>, ghost target: seq<seq<Byte>>, ghost filled: set<nat>)
    requires h.Length == HEADER_SIZE && Filled(h[..], target, filled) && Slot(target, i, data) && i !in filled
    modifies h
    ensures Filled(h[..], target, filled + {i})
  {
    hide *;
    PutResult(h[..], target, filled, i, data, Start(i));
    CopyAt(h, Start(i), data);
  }

  function Truncated(s: seq<Byte>, n: nat): seq<Byte> { if |s| <= n then s else s[..n] }

  // snprintf of an octal number to a field
  method PutNumber(h: array<Byte>, i: nat, v: nat, width: nat, ghost target: seq<seq<Byte>>, ghost filled: set<nat>)
    requires h.Length == HEADER_SIZE && Filled(h[..], target, filled) && i !in filled
    requires Slot(target, i, Octal(v, width)) && |Octal(v, width)| < Width(i)
    modifies h
    ensures Filled(h[..], target, filled + {i})
  {
    var out := FormatOctal(v, width);
    // at most the field without its last byte
    out := Truncated(out, Width(i) - 1);
    PutField(h, i, out, target, filled);
  }

  lemma Slots(name: seq<Byte>, kind: Byte, size: int, chksum: seq<Byte>)
    requires |name| <= 99 && |chksum| == 8
    ensures var f := Fields(name, kind, size, chksum);
            && Shaped(f) && Slot(f, 0, name) && Slot(f, 2, Zeros(7)) && Slot(f, 3, Zeros(7)) && Slot(f, 7, [kind])
            && Slot(f, 9, USTAR) && Slot(f, 10, [ZERO, ZERO]) && Slot(f, 11, ROOT) && Slot(f, 12, ROOT)
  {
    FieldsShaped(name, kind, size, chksum);
  }

  lemma NumberSlots(name: seq<Byte>, kind: Byte, size: int, chksum: seq<Byte>)
    requires |name| <= 99 && |chksum| == 8
    ensures var f, mode := Fields(name, kind, size, chksum), if kind == REGULAR then 420 else 493;
            && Slot(f, 1, Octal(mode, 7)) && |Octal(mode, 7)| < Width(1)
            && Slot(f, 4, Octal(size % 0x1_0000_0000, 11)) && |Octal(size % 0x1_0000_0000, 11)| < Width(4)
            && Slot(f, 5, Octal(1136102400, 11)) && |Octal(1136102400, 11)| < Width(5)
  {
    FieldsShaped(name, kind, size, chksum);
    NumberFits(if kind == REGULAR then 420 else 493);
    NumberFits(1136102400);
    NumberFits(size % 0x1_0000_0000);
  }

  // All the fields that get something, but for the checksum.
  ghost predicate NoChecksumYet(filled: set<nat>) {
    6 !in filled && forall i: nat :: i < FIELDS && i !in filled ==> i == 6 || i == 8 || i == 13
  }

  method FillNumbers(h: array<Byte>, name: seq<Byte>, kind: Byte, size: int, ghost target: seq<seq<Byte>>)
    returns (ghost filled: set<nat>)
    requires h.Length == HEADER_SIZE && |name| <= 99 && Filled(h[..], target, {})
    requires target == Fields(name, kind, size, Nuls(8))
    modifies h
    ensures Filled(h[..], target, filled) && filled == {0, 1, 2, 3, 4, 5}
  {
    hide *;
    Slots(name, kind, size, Nuls(8));
    NumberSlots(name, kind, size, Nuls(8));
    filled := {};
    PutField(h, 0, name, target, filled);
    filled := filled + {0};
    PutNumber(h, 1, if kind == REGULAR then 420 else 493, 7, target, filled);
    filled := filled + {1};
    PutField(h, 2, Zeros(7), target, filled);
    filled := filled + {2};
    PutField(h, 3, Zeros(7), target, filled);
    filled := filled + {3};
    PutNumber(h, 4, size % 0x1_0000_0000, 11, target, filled);
    filled := filled + {4};
    PutNumber(h, 5, 1136102400, 11, target, filled);
    filled := filled + {5};
  }

  method FillTexts(h: array<Byte>, name: seq<Byte>, kind: Byte, size: int, ghost target: seq<seq<Byte>>, ghost before: set<nat>)
    returns (ghost filled: set<nat>)
    requires h.Length == HEADER_SIZE && |name| <= 99 && Filled(h[..], target, before) && before == {0, 1, 2, 3, 4, 5}
    requires target == Fields(name, kind, size, Nuls(8))
    modifies h
    ensures Filled(h[..], target, filled) && NoChecksumYet(filled)
  {
    hide *;
    Slots(name, kind, size, Nuls(8));
    filled := before;
    PutField(h, 7, [kind], target, filled);
    filled := filled + {7};
    PutField(h, 9, USTAR, target, filled);
    filled := filled + {9};
    PutField(h, 10, [ZERO, ZERO], target, filled);
    filled := filled + {10};
    PutField(h, 12, ROOT, target, filled);
    filled := filled + {12};
    PutField(h, 11, ROOT, target, filled);
    filled := filled + {11};
    AllButChecksum(filled);
  }

  lemma AllButChecksum(filled: set<nat>)
    requires filled == {0, 1, 2, 3, 4, 5} + {7} + {9} + {10} + {12} + {11}
    ensures NoChecksumYet(filled)
  {
  }

  // The fields do not say what the checksum will be.
  lemma AnyChecksum(h: seq<Byte>, name: seq<Byte>, kind: Byte, size: int, chksum: seq<Byte>, filled: set<nat>)
    requires |name| <= 99 && |chksum| == 8 && NoChecksumYet(filled)
    requires Filled(h, Fields(name, kind, size, Nuls(8)), filled)
    ensures Filled(h, Fields(name, kind, size, chksum), filled)
  {
    var f, g := Fields(name, kind, size, Nuls(8)), Fields(name, kind, size, chksum);
    FieldsShaped(name, kind, size, chksum);
    forall i | 0 <= i < FIELDS && i != 6 ensures f[i] == g[i] { SameContent(name, kind, size, Nuls(8), chksum, i); }
    SameMix(f, g, filled);
  }

  lemma SameContent(name: seq<Byte>, kind: Byte, size: int, c: seq<Byte>, c': seq<Byte>, i: nat)
    requires i != 6
    ensures Content(name, kind, size, c, i) == Content(name, kind, size, c', i)
  {
  }

  lemma SameMix(f: seq<seq<Byte>>, g: seq<seq<Byte>>, filled: set<nat>)
    requires Shaped(f) && Shaped(g) && 6 !in filled && forall i :: 0 <= i < FIELDS && i != 6 ==> f[i] == g[i]
    ensures Mix(f, filled) == Mix(g, filled)
  {
  }

  lemma AllFilled(name: seq<Byte>, kind: Byte, size: int, chksum: seq<Byte>, filled: set<nat>)
    requires |name| <= 99 && |chksum| == 8 && NoChecksumYet(filled)
    ensures Shaped(Fields(name, kind, size, chksum))
    ensures Mix(Fields(name, kind, size, chksum), filled + {6}) == Fields(name, kind, size, chksum)
  {
    hide Number, Text, Nuls, Octal;
    var g := Fields(name, kind, size, chksum);
    assert g[8] == Nuls(Width(8)) && g[13] == Nuls(Width(13));
    hide Fields, Content, Shaped, Width;
    FieldsShaped(name, kind, size, chksum);
    forall i | 0 <= i < FIELDS ensures Mix(g, filled + {6})[i] == g[i] {}
  }

  // `ustar_make_header`
  method MakeHeader(name: seq<Byte>, kind: Byte, size: int, h: array<Byte>) returns (ok: bool)
    requires h.Length == HEADER_SIZE && (kind == REGULAR || kind == DIRECTORY)
    modifies h
    ensures ok <==> |Strip(name)| <= 99
    ensures ok ==> Made(h[..], Strip(name), kind, size)
    ensures ok ==> NumbersMade(h[..], kind, size) && TextsMade(h[..], Strip(name), kind)
    ensures !ok ==> h[..] == old(h[..])
  {
    hide *;
    var name' := StripPrefixes(name);
    if |name'| > 99 { return false; }
    Clear(h);
    ghost var target := Fields(name', kind, size, Nuls(8));
    FieldsShaped(name', kind, size, Nuls(8));
    BlankIs(h[..], target);
    ghost var filled := FillNumbers(h, name', kind, size, target);
    filled := FillTexts(h, name', kind, size, target, filled);
    FinishHeader(h, name', kind, size, filled);
    NumbersOfMade(h[..], name', kind, size);
    TextsOfMade(h[..], name', kind, size);
    return true;
  }

  // the checksum of everything else goes into its field
  method FinishHeader(h: array<Byte>, name: seq<Byte>, kind: Byte, size: int, ghost filled: set<nat>)
    requires h.Length == HEADER_SIZE && |name| <= 99 && NoChecksumYet(filled)
    requires Filled(h[..], Fields(name, kind, size, Nuls(8)), filled)
    modifies h
    ensures Made(h[..], name, kind, size)
  {
    hide *;
    var sum := CalculateChecksum(h[..]);
    ghost var was, target := h[..], Fields(name, kind, size, Number(sum, 7));
    ChecksumSlot(name, kind, size, sum, filled);
    AnyChecksum(was, name, kind, size, Number(sum, 7), filled);
    AllFilled(name, kind, size, Number(sum, 7), filled);
    PutNumber(h, 6, sum, 7, target, filled);
    SumUnchanged(was, h[..], target, filled);
    MadeNow(h[..], name, kind, size, filled);
  }

  lemma ChecksumSlot(name: seq<Byte>, kind: Byte, size: int, sum: nat, filled: set<nat>)
    requires |name| <= 99 && sum <= 255 * HEADER_SIZE && NoChecksumYet(filled)
    ensures |Number(sum, 7)| == 8 && 6 !in filled
    ensures Slot(Fields(name, kind, size, Number(sum, 7)), 6, Octal(sum, 7)) && |Octal(sum, 7)| < Width(6)
  {
    NumberFits(sum);
    FieldsShaped(name, kind, size, Number(sum, 7));
  }

  lemma MadeNow(h: seq<Byte>, name: seq<Byte>, kind: Byte, size: int, filled: set<nat>)
    requires |h| == HEADER_SIZE
    requires var t := Fields(name, kind, size, Number(Checksum(h, HEADER_SIZE), 7));
             Shaped(t) && Mix(t, filled + {6}) == t && Filled(h, t, filled + {6})
    ensures Made(h, name, kind, size)
  {
  }

  lemma SumUnchanged(was: seq<Byte>, h: seq<Byte>, target: seq<seq<Byte>>, filled: set<nat>)
    requires Filled(was, target, filled) && Filled(h, target, filled + {6}) && 6 !in filled
    ensures |was| == HEADER_SIZE == |h| && Checksum(h, HEADER_SIZE) == Checksum(was, HEADER_SIZE)
  {
    var fs := Mix(target, filled);
    FieldIs(fs, 6);
    StartIs(fs, 6);
    MixStep(target, filled, 6);
    FlatUpdate(fs, 6, target[6]);
    FieldIs(Mix(target, filled + {6}), 6);
    StartValues();
    ChecksumIndependent(was, h, HEADER_SIZE);
  }

  // memset
  method Clear(h: array<Byte>)
    modifies h
    ensures forall i :: 0 <= i < h.Length ==> h[i] == NUL
  {
    var i := 0;
    while i < h.Length
      invariant 0 <= i <= h.Length && forall j :: 0 <= j < i ==> h[j] == NUL
    {
      h[i] := NUL;
      i := i + 1;
    }
  }

  lemma BlankIs(h: seq<Byte>, target: seq<seq<Byte>>)
    requires |h| == HEADER_SIZE && Shaped(target) && forall i :: 0 <= i < HEADER_SIZE ==> h[i] == NUL
    ensures Filled(h, target, {})
  {
    var fs := Mix(target, {});
    NulsFlat(fs);
    FieldIs(fs, 0);
  }

  lemma {:induction false} NulsFlat(fs: seq<seq<Byte>>)
    requires forall i, k :: 0 <= i < |fs| && 0 <= k < |fs[i]| ==> fs[i][k] == NUL
    ensures forall k :: 0 <= k < |Flat(fs)| ==> Flat(fs)[k] == NUL
  {
    if fs != [] { NulsFlat(fs[1..]); }
  }

  // ---- the header as it is read ----

  method IsAllZeros(h: seq<Byte>) returns (r: bool)
    ensures r <==> forall i :: 0 <= i < |h| ==> h[i] == NUL
  {
    var i := 0;
    while i < |h|
      invariant 0 <= i <= |h| && forall j :: 0 <= j < i ==> h[j] == NUL
    {
      if h[i] != NUL { return false; }
      i := i + 1;
    }
    return true;
  }

  // `ustar_parse_header`
  method ParseHeader(h: seq<Byte>) returns (r: Parsed)
    requires |h| == HEADER_SIZE
    ensures r == Parse(h)
  {
    hide Field, ParseOctal, Strip, CString, Checksum, Text;
    var eof := IsAllZeros(h);
    if eof { return EndOfArchive; }
    if Field(h, 9) != Text(USTAR, 6) { return Failed(NotUstar); }
    if Field(h, 10) != Text([ZERO, ZERO], 2) { return Failed(BadVersion); }
    var chksum := ParseOctalField(Field(h, 6));
    if chksum.None? { return Failed(CorruptChecksum); }
    var sum := CalculateChecksum(h);
    if chksum.value != sum { return Failed(ChecksumMismatch); }
    if h[99] != NUL || h[345] != NUL { return Failed(NameTooLong); }
    if h[156] != REGULAR && h[156] != DIRECTORY { return Failed(UnknownType); }
    var size := 0;
    if h[156] == REGULAR {
      var field := ParseOctalField(Field(h, 4));
      if field.None? { return Failed(CorruptSize); }
      if field.value > INT_MAX { return Failed(TooLarge); }
      size := field.value;
    }
    var name := StripPrefixes(CString(Field(h, 0)));
    return Entry(name, h[156], size);
  }
}
