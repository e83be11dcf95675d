/** Bitwise operations on unsigned words, as natural numbers. */
module Bits {

  type Byte = x: int | 0 <= x < 256

  function Pow2(k: nat): (r: nat)
    ensures r >= 1
  {
    if k == 0 then 1 else 2 * Pow2(k - 1)
  }

  predicate Bit(x: nat, k: nat) { if k == 0 then x % 2 == 1 else Bit(x / 2, k - 1) }

  function And(x: nat, y: nat): nat {
    if x == 0 || y == 0 then 0 else 2 * And(x / 2, y / 2) + (x % 2) * (y % 2)
  }

  function Or(x: nat, y: nat): nat {
    if x == 0 then y else if y == 0 then x else 2 * Or(x / 2, y / 2) + (if x % 2 + y % 2 > 0 then 1 else 0)
  }

  // The complement within n bits.
  function Not(x: nat, n: nat): nat
    requires x < Pow2(n)
  {
    Pow2(n) - 1 - x
  }

  lemma {:induction false} BitZero(k: nat)
    ensures !Bit(0, k)
  {
    if k > 0 { BitZero(k - 1); }
  }

  lemma {:induction false} BitAnd(x: nat, y: nat, k: nat)
    ensures Bit(And(x, y), k) <==> Bit(x, k) && Bit(y, k)
  {
    if x == 0 || y == 0 {
      BitZero(k);
    } else if k > 0 {
      BitAnd(x / 2, y / 2, k - 1);
      assert And(x, y) / 2 == And(x / 2, y / 2);
    }
  }

  lemma {:induction false} BitOr(x: nat, y: nat, k: nat)
    ensures Bit(Or(x, y), k) <==> Bit(x, k) || Bit(y, k)
  {
    if x == 0 || y == 0 {
      BitZero(k);
    } else if k > 0 {
      BitOr(x / 2, y / 2, k - 1);
      assert Or(x, y) / 2 == Or(x / 2, y / 2);
    }
  }

  lemma {:induction false} PowAdd(j: nat, k: nat)
    ensures Pow2(j + k) == Pow2(j) * Pow2(k)
  {
    if j > 0 { PowAdd(j - 1, k); }
  }

  lemma Pow2Values()
    ensures Pow2(1) == 2 && Pow2(2) == 4 && Pow2(4) == 16 && Pow2(8) == 256 && Pow2(16) == 0x1_0000
    ensures Pow2(31) == 0x8000_0000 && Pow2(32) == 0x1_0000_0000
  {
    assert Pow2(2) == 2 * Pow2(1);
    PowAdd(2, 2);
    PowAdd(4, 4);
    PowAdd(8, 8);
    PowAdd(16, 16);
    assert Pow2(32) == 2 * Pow2(31);
  }

  lemma {:induction false} BitPow2(j: nat, k: nat)
    ensures Bit(Pow2(j), k) <==> j == k
  {
    if j == 0 {
      if k > 0 { BitZero(k - 1); }
    } else if k > 0 {
      BitPow2(j - 1, k - 1);
      assert Pow2(j) / 2 == Pow2(j - 1);
    }
  }

  lemma {:induction false} BitNot(x: nat, n: nat, k: nat)
    requires x < Pow2(n) && k < n
    ensures Bit(Not(x, n), k) <==> !Bit(x, k)
  {
    assert Pow2(n) == 2 * Pow2(n - 1);
    assert x / 2 < Pow2(n - 1);
    assert Not(x, n) / 2 == Not(x / 2, n - 1);
    if k > 0 { BitNot(x / 2, n - 1, k - 1); }
  }

  lemma {:induction false} AndBound(x: nat, y: nat)
    ensures And(x, y) <= x && And(x, y) <= y
  {
    if x > 0 && y > 0 {
      AndBound(x / 2, y / 2);
      assert (x % 2) * (y % 2) <= x % 2 && (x % 2) * (y % 2) <= y % 2;
    }
  }

  lemma {:induction false} OrBound(x: nat, y: nat, n: nat)
    requires x < Pow2(n) && y < Pow2(n)
    ensures Or(x, y) < Pow2(n)
  {
    if x > 0 && y > 0 {
      assert Pow2(n) == 2 * Pow2(n - 1);
      OrBound(x / 2, y / 2, n - 1);
    }
  }

  /** Masking with a single bit tells whether that bit is set. */
  lemma {:induction false} AndMask(x: nat, k: nat)
    ensures And(x, Pow2(k)) != 0 <==> Bit(x, k)
  {
    if x == 0 {
      BitZero(k);
    } else if k > 0 {
      AndMask(x / 2, k - 1);
      assert Pow2(k) / 2 == Pow2(k - 1);
    } else {
      assert And(x / 2, 0) == 0;
    }
  }

  /** Masking with 2^k - 1 is the remainder modulo 2^k. */
  lemma {:induction false} AndLowMask(x: nat, k: nat)
    ensures And(x, Pow2(k) - 1) == x % Pow2(k)
  {
    if k > 0 {
      var m := Pow2(k - 1);
      AndLowMask(x / 2, k - 1);
      assert (Pow2(k) - 1) / 2 == m - 1;
      ModTwice(x, m);
    }
  }

  lemma ModTwice(x: nat, m: nat)
    requires m > 0
    ensures x % (2 * m) == 2 * ((x / 2) % m) + x % 2
  {
    var h := x / 2;
    var r := 2 * (h % m) + x % 2;
    assert h == m * (h / m) + h % m;
    assert x == (2 * m) * (h / m) + r;
    ModIs(x, 2 * m, h / m, r);
  }

  lemma ModIs(x: int, m: int, q: int, r: int)
    requires m > 0 && 0 <= r < m && x == m * q + r
    ensures x % m == r
  {
    var d := x / m - q;
    assert x == m * (x / m) + x % m;
    assert m * (x / m) - m * q == m * d;
    assert -m < m * d < m;
    assert d == 0;
  }

  // Slot k of cnt slots lies within them all.
  lemma MulBound(k: nat, cnt: nat, size: nat)
    requires k < cnt
    ensures 0 <= k * size && k * size + size <= cnt * size
  {
    assert (k + 1) * size <= cnt * size;
  }
}
