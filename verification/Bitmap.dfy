/** Bitmaps packed into words (`bitmap.c`), and the first-fit scan over them. */
module Bitmaps {
  import opened Queues
  import opened Bits

  // ---- the bits as a sequence ----

  // All cnt bits from i on have the given value.
  ghost predicate AllAre(s: seq<bool>, i: nat, cnt: nat, value: bool) {
    i + cnt <= |s| && forall j :: i <= j < i + cnt ==> s[j] == value
  }

  // s with the cnt bits from i on set to the given value.
  function Fill(s: seq<bool>, i: nat, cnt: nat, value: bool): (r: seq<bool>)
    requires i + cnt <= |s|
    ensures |r| == |s| && forall j :: 0 <= j < |s| ==> r[j] == if i <= j < i + cnt then value else s[j]
  {
    s[..i] + seq(cnt, _ => value) + s[i + cnt..]
  }

  /** Flipping a group of equal bits and setting them back is no change. */
  lemma FillBack(s: seq<bool>, i: nat, cnt: nat, value: bool)
    requires AllAre(s, i, cnt, value)
    ensures Fill(Fill(s, i, cnt, !value), i, cnt, value) == s
  {
  }

  // The result of a scan: the first place at or after start with cnt bits of that value.
  ghost predicate FirstFit(s: seq<bool>, start: nat, cnt: nat, value: bool, r: Option<nat>) {
    match r
    case None => forall i :: start <= i ==> !AllAre(s, i, cnt, value)
    case Some(k) => start <= k && AllAre(s, k, cnt, value) && forall i :: start <= i < k ==> !AllAre(s, i, cnt, value)
  }

  lemma FirstFitUnique(s: seq<bool>, start: nat, cnt: nat, value: bool, r: Option<nat>, r': Option<nat>)
    requires FirstFit(s, start, cnt, value, r) && FirstFit(s, start, cnt, value, r')
    ensures r == r'
  {
  }

  // ---- packed words ----

  const WORD_BITS := 32

  type Word = x: int | 0 <= x < 0x1_0000_0000

  lemma Pow2Word(k: nat)
    requires k < WORD_BITS
    ensures Pow2(k) < Pow2(WORD_BITS) == 0x1_0000_0000
  {
    PowMono(k, WORD_BITS);
    Pow2Values();
  }

  lemma {:induction false} PowMono(j: nat, k: nat)
    requires j < k
    ensures Pow2(j) < Pow2(k)
    decreases k
  {
    if j < k - 1 { PowMono(j, k - 1); }
  }

  class Bitmap {
    const bitCnt: nat
    const bits: array<Word>

    ghost predicate Valid() {
      bits.Length == (bitCnt + WORD_BITS - 1) / WORD_BITS
    }

    predicate BitAt(i: nat)
      requires Valid() && i < bitCnt
      reads bits
    {
      Bit(bits[i / WORD_BITS], i % WORD_BITS)
    }

    /** The bits in order. */
    ghost function Contents(): (s: seq<bool>)
      requires Valid()
      reads bits
      ensures |s| == bitCnt && forall i :: 0 <= i < bitCnt ==> s[i] == BitAt(i)
    {
      seq(bitCnt, i requires 0 <= i < bitCnt reads bits => BitAt(i))
    }

    // `bitmap_create`: all bits off
    constructor (n: nat)
      ensures Valid() && bitCnt == n && fresh(bits) && Contents() == seq(n, _ => false)
    {
      bitCnt := n;
      bits := new Word[(n + WORD_BITS - 1) / WORD_BITS](_ => 0);
      new;
      forall i | 0 <= i < bitCnt ensures !BitAt(i) { BitZero(i % WORD_BITS); }
    }

    // `bitmap_test`: masks out one bit of one word
    method Test(i: nat) returns (b: bool)
      requires Valid() && i < bitCnt
      ensures b == Contents()[i]
    {
      AndMask(bits[i / WORD_BITS], i % WORD_BITS);
      b := And(bits[i / WORD_BITS], Pow2(i % WORD_BITS)) != 0;
    }

    // `bitmap_mark` and `bitmap_reset`: one word changes in one bit
    method Set(i: nat, value: bool)
      requires Valid() && i < bitCnt
      modifies bits
      ensures Contents() == old(Contents())[i := value]
    {
      var w, k := i / WORD_BITS, i % WORD_BITS;
      ghost var x := bits[w];
      Pow2Word(k);
      if value {
        OrBound(bits[w], Pow2(k), WORD_BITS);
        bits[w] := Or(bits[w], Pow2(k));
      } else {
        AndBound(bits[w], Not(Pow2(k), WORD_BITS));
        bits[w] := And(bits[w], Not(Pow2(k), WORD_BITS));
      }
      forall j | 0 <= j < WORD_BITS
        ensures Bit(bits[w], j) == if j == k then value else Bit(x, j)
      {
        BitOr(x, Pow2(k), j);
        BitAnd(x, Not(Pow2(k), WORD_BITS), j);
        BitNot(Pow2(k), WORD_BITS, j);
        BitPow2(k, j);
      }
      forall j | 0 <= j < bitCnt ensures BitAt(j) == if j == i then value else old(BitAt(j)) {
        if j / WORD_BITS == w { assert j % WORD_BITS == k <==> j == i; }
      }
    }

    method SetMultiple(start: nat, cnt: nat, value: bool)
      requires Valid() && start + cnt <= bitCnt
      modifies bits
      ensures Contents() == Fill(old(Contents()), start, cnt, value)
    {
      ghost var s := Contents();
      var i := 0;
      while i < cnt
        invariant 0 <= i <= cnt
        invariant Contents() == Fill(s, start, i, value)
      {
        Set(start + i, value);
        i := i + 1;
      }
    }

    /** `bitmap_contains`: some bit of the group has the value. */
    method Contains(start: nat, cnt: nat, value: bool) returns (b: bool)
      requires Valid() && start + cnt <= bitCnt
      ensures b <==> !AllAre(Contents(), start, cnt, !value)
    {
      var i := 0;
      while i < cnt
        invariant 0 <= i <= cnt
        invariant AllAre(Contents(), start, i, !value)
      {
        var t := Test(start + i);
        if t == value { return true; }
        i := i + 1;
      }
      return false;
    }

    /** `bitmap_scan` finds the first group of cnt equal bits, if there is one. */
    method Scan(start: nat, cnt: nat, value: bool) returns (r: Option<nat>)
      requires Valid() && start <= bitCnt
      ensures FirstFit(Contents(), start, cnt, value, r)
    {
      if cnt <= bitCnt {
        var last := bitCnt - cnt;
        var i := start;
        while i <= last
          invariant start <= i
          invariant forall j :: start <= j < i ==> !AllAre(Contents(), j, cnt, value)
          decreases last - i
        {
          var other := Contains(i, cnt, !value);
          if !other { return Some(i); }
          i := i + 1;
        }
      }
      return None;
    }

    /** `bitmap_scan_and_flip` takes the first group; without one the bitmap is unchanged. */
    method ScanAndFlip(start: nat, cnt: nat, value: bool) returns (r: Option<nat>)
      requires Valid() && start <= bitCnt
      modifies bits
      ensures FirstFit(old(Contents()), start, cnt, value, r)
      ensures Contents() == if r.Some? then Fill(old(Contents()), r.value, cnt, !value) else old(Contents())
    {
      r := Scan(start, cnt, value);
      if r.Some? { SetMultiple(r.value, cnt, !value); }
    }
  }
}
