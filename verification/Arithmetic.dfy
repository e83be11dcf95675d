/** 64-bit division from a 64-by-32 divide (`arithmetic.c`). Words are integers; where the C
    arithmetic wraps, the wrap is written out. */
module Arithmetic {
  import opened Bits

  const B32: int := 0x1_0000_0000
  const B63: int := 0x8000_0000_0000_0000
  const B64: int := 0x1_0000_0000_0000_0000

  // uint64_t subtraction and multiplication
  function Sub64(a: int, b: int): nat { (a - b) % B64 }

  function Mul64(a: int, b: int): nat { (a * b) % B64 }

  // The int64_t with the same bits.
  function ToInt64(x: int): int { (x + B63) % B64 - B63 }

  function ToInt32(x: int): int { (x + 0x8000_0000) % B32 - 0x8000_0000 }

  // ---- products and quotients ----

  lemma Cancel(a: int, b: int, c: int)
    requires c > 0 && a * c < b * c
    ensures a < b
  {
  }

  lemma MulMono(a: int, b: int, c: int)
    requires a <= b && c >= 0
    ensures a * c <= b * c
  {
  }

  lemma DivBound(n: int, d: int)
    requires d > 0
    ensures (n / d) * d <= n < (n / d + 1) * d
  {
    assert n == d * (n / d) + n % d;
  }

  lemma DivIs(n: int, d: int, q: int)
    requires d > 0 && q * d <= n < (q + 1) * d
    ensures n / d == q
  {
    DivBound(n, d);
    Cancel(n / d, q + 1, d);
    Cancel(q, n / d + 1, d);
  }

  lemma Assoc(a: int, b: int, c: int)
    ensures (a * b) * c == a * (c * b)
  {
  }

  lemma DivDiv(a: nat, b: nat, c: nat)
    requires b > 0 && c > 0
    ensures b * c > 0 && (a / b) / c == a / (b * c)
  {
    var x := a / b;
    var q := x / c;
    DivBound(a, b);
    DivBound(x, c);
    MulMono(q * c, x, b);
    MulMono(x + 1, (q + 1) * c, b);
    Assoc(q, c, b);
    Assoc(q + 1, c, b);
    DivIs(a, b * c, q);
  }

  // A common factor of dividend and divisor drops out.
  lemma DivCancel(a: nat, b: nat, p: nat)
    requires b > 0 && p > 0
    ensures b * p > 0 && (a * p) / (b * p) == a / b
  {
    var q := a / b;
    DivBound(a, b);
    MulMono(q * b, a, p);
    MulMono(a + 1, (q + 1) * b, p);
    Assoc(q, b, p);
    Assoc(q + 1, b, p);
    DivIs(a * p, b * p, q);
  }

  // ---- nlz ----

  function LeadingZeros(x: nat): nat
    requires 0 < x < B32
    decreases B32 - x
  {
    if x >= 0x8000_0000 then 0 else 1 + LeadingZeros(2 * x)
  }

  lemma {:induction false} LeadingZerosShift(x: nat, k: nat, p: nat)
    requires 0 < x < B32 && p == Pow2(k) && x * p < B32
    ensures p >= 1 && LeadingZeros(x) == k + LeadingZeros(x * p)
    decreases k
  {
    if k > 0 {
      var p' := Pow2(k - 1);
      assert x * p == (2 * x) * p';
      MulMono(1, p', 2 * x);
      LeadingZerosShift(2 * x, k - 1, p');
    }
  }

  /** Shifting left by the number of leading zeros brings the top bit to position 31. */
  lemma {:induction false} LeadingZerosNormalize(x: nat)
    requires 0 < x < B32
    ensures B32 / 2 <= x * Pow2(LeadingZeros(x)) < B32
    decreases B32 - x
  {
    if x < 0x8000_0000 {
      LeadingZerosNormalize(2 * x);
      var k := LeadingZeros(2 * x);
      assert Pow2(k + 1) == 2 * Pow2(k);
      assert (2 * x) * Pow2(k) == x * Pow2(k + 1);
    }
  }

  lemma {:induction false} LeadingZerosLimit(x: nat, k: nat, p: nat)
    requires 0 < x < B32 && p == Pow2(k) && x * p < B32
    ensures k <= 31
    decreases k
  {
    MulMono(1, x, p);
    if k >= 32 { PowAtLeast(k); }
  }

  lemma {:induction false} PowAtLeast(k: nat)
    requires k >= 32
    ensures Pow2(k) >= B32
  {
    if k == 32 { Pow2Values(); } else { PowAtLeast(k - 1); }
  }

  /** `nlz` narrows down the leading zeros by halves. */
  method Nlz(x0: nat) returns (n: nat)
    requires 0 < x0 < B32
    ensures n == LeadingZeros(x0)
  {
    Pow2Values();
    var x := x0;
    n := 0;
    if x <= 0x0000_FFFF {
      LeadingZerosShift(x, 16, 0x1_0000);
      n := n + 16;
      x := x * 0x1_0000;
    }
    assert 0x0000_FFFF < x < B32 && n + LeadingZeros(x) == LeadingZeros(x0);
    if x <= 0x00FF_FFFF {
      LeadingZerosShift(x, 8, 0x100);
      n := n + 8;
      x := x * 0x100;
    }
    assert 0x00FF_FFFF < x < B32 && n + LeadingZeros(x) == LeadingZeros(x0);
    if x <= 0x0FFF_FFFF {
      LeadingZerosShift(x, 4, 0x10);
      n := n + 4;
      x := x * 0x10;
    }
    assert 0x0FFF_FFFF < x < B32 && n + LeadingZeros(x) == LeadingZeros(x0);
    if x <= 0x3FFF_FFFF {
      LeadingZerosShift(x, 2, 4);
      n := n + 2;
      x := x * 4;
    }
    assert 0x3FFF_FFFF < x < B32 && n + LeadingZeros(x) == LeadingZeros(x0);
    if x <= 0x7FFF_FFFF {
      n := n + 1;
    }
  }

  // ---- udiv64 ----

  /** The DIVL instruction: it traps unless the quotient fits in 32 bits, so every use must
      show that it does. */
  function Divl(n: nat, d: nat): (q: nat)
    requires n < B64 && 0 < d < B32
    requires n / d < B32
  {
    n / d
  }

  // The short case: dividing the high word first leaves a remainder that cannot overflow.
  lemma ShortDivision(n: nat, n1: nat, n0: nat, d: nat)
    requires n1 < B32 && n0 < B32 && n == B32 * n1 + n0 && 0 < d < B32
    ensures n1 % d >= 0 && n1 / d >= 0
    ensures B32 * (n1 % d) + n0 < B64 && (B32 * (n1 % d) + n0) / d < B32
    ensures (B32 * (n1 % d) + n0) / d + B32 * (n1 / d) == n / d
  {
    var t, r := n1 / d, n1 % d;
    var m := B32 * r + n0;
    assert m < B32 * d;
    var q := m / d;
    DivBound(m, d);
    Cancel(q, B32, d);
    assert n1 == d * t + r;
    assert n == m + B32 * (d * t);
    assert (q + B32 * t) * d == q * d + B32 * (d * t);
    assert (q + 1) * d == q * d + d && (q + B32 * t + 1) * d == (q + B32 * t) * d + d;
    DivIs(n, d, q + B32 * t);
    DivNonneg(n1, d);
  }

  lemma DivNonneg(a: nat, b: nat)
    requires b > 0
    ensures a / b >= 0
  {
  }

  lemma {:induction false} PowSplit(s: nat)
    requires s <= 31
    ensures Pow2(s) >= 1 && Pow2(31 - s) >= 1 && Pow2(s) * (2 * Pow2(31 - s)) == B32
  {
    if s == 0 {
      Pow2Values();
    } else {
      PowSplit(s - 1);
      assert Pow2(32 - s) == 2 * Pow2(31 - s) && Pow2(s) == 2 * Pow2(s - 1);
      hide Pow2;
      Regroup(Pow2(s - 1), Pow2(31 - s));
    }
  }

  lemma Regroup(x: int, y: int)
    ensures (2 * x) * (2 * y) == x * (2 * (2 * y))
  {
  }

  // The shift by s, as a factor p, brings d's top bit to position 63; p * k is 2^32.
  lemma Shifted(d: nat, p: nat, k: nat)
    requires B32 <= d < B64 && p >= 1 && p * k == B32 && B32 / 2 <= (d / B32) * p < B32
    ensures d * p < B64 && B32 / 2 <= d * p / B32 < B32
  {
    var d1 := d / B32;
    Cancel(d1, k, p);
    MulMono(d1 + 1, k, p);
    assert d < (d1 + 1) * B32;
    assert d * p <= ((d1 + 1) * B32 - 1) * p;
    assert ((d1 + 1) * B32 - 1) * p == ((d1 + 1) * p) * B32 - p;
    MulMono(d1 * B32, d, p);
    assert (d1 * B32) * p == (d1 * p) * B32;
  }

  // The normalized divisor v is d / k: v * k is d with its low bits cleared.
  lemma Normalized(d: nat, s: nat)
    requires B32 <= d < B64 && s == LeadingZeros(d / B32)
    ensures s <= 31 && d * Pow2(s) < B64
    ensures var v := d * Pow2(s) / B32; var k := 2 * Pow2(31 - s);
            B32 / 2 <= v < B32 && k >= 2 && v * k <= d < v * k + k
  {
    LeadingZerosNormalize(d / B32);
    LeadingZerosLimit(d / B32, s, Pow2(s));
    PowSplit(s);
    var p, k := Pow2(s), 2 * Pow2(31 - s);
    Shifted(d, p, k);
    DivCancel(d, k, p);
    assert k * p == B32;
    DivBound(d, k);
    assert (d / k + 1) * k == (d / k) * k + k;
  }

  lemma SquareMono(a: nat, b: nat)
    requires a <= b
    ensures a * a <= b * b
  {
    MulMono(a, b, a);
    MulMono(a, b, b);
  }

  lemma TwiceLess(k: int)
    ensures 4 * (k - 1) <= k * k
  {
    assert (k - 2) * (k - 2) == k * k - 4 * k + 4;
    assert (k - 2) * (k - 2) >= 0;
  }

  lemma ErrorLow(n: nat, x: nat, k: nat)
    requires n < B64 && 1 <= k && x <= k - 1
    ensures n * x < 0x4000_0000_0000_0000 * (k * k)
  {
    MulMono(x, k - 1, n);
    MulMono(n, B64 - 1, k - 1);
    TwiceLess(k);
    MulMono(1, k, k);
  }

  lemma ErrorHigh(d: nat, D: nat, x: nat)
    requires x <= D <= d
    ensures x * x <= d * D
  {
    SquareMono(x, D);
    MulMono(D, d, D);
  }

  lemma SquareOfProduct(h: int, k: int)
    ensures (h * k) * (h * k) == (h * h) * (k * k)
  {
  }

  lemma ErrorBelowOne(n: nat, d: nat, v: nat, k: nat)
    requires n < B64 && B32 / 2 <= v && 2 <= k && v * k <= d < v * k + k
    ensures n * (d - v * k) < d * (v * k)
  {
    ErrorLow(n, d - v * k, k);
    MulMono(B32 / 2, v, k);
    SquareOfProduct(0x8000_0000, k);
    ErrorHigh(d, v * k, (B32 / 2) * k);
  }

  /** The estimate is the quotient or one more: dropping the divisor's low bits errs by less
      than one, because (k - 2)^2 is never negative. */
  lemma EstimateBounds(n: nat, d: nat, v: nat, k: nat)
    requires n < B64 && B32 / 2 <= v && 2 <= k && v * k <= d < v * k + k
    ensures v * k > 0 && d > 0 && n / d <= n / (v * k) <= n / d + 1
  {
    ErrorBelowOne(n, d, v, k);
    MulMono(2, k, v);
    QuotientsClose(n, d, v * k);
  }

  lemma QuotientGrows(n: nat, d: nat, D: nat)
    requires 0 < D <= d
    ensures n / d <= n / D
  {
    var q, e := n / d, n / D;
    DivBound(n, d);
    DivBound(n, D);
    MulMono(D, d, q);
    Cancel(q, e + 1, D);
  }

  lemma QuotientsClose(n: nat, d: nat, D: nat)
    requires 0 < D <= d && n * (d - D) < d * D
    ensures n / d <= n / D <= n / d + 1
  {
    QuotientGrows(n, d, D);
    DivBound(n, d);
    DivBound(n, D);
    QuotientBelow(n, d, D, n / d, n / D);
  }

  lemma QuotientBelow(n: nat, d: nat, D: nat, q: nat, e: nat)
    requires 0 < D <= d && n * (d - D) < d * D && n < (q + 1) * d && e * D <= n
    ensures e <= q + 1
  {
    MulMono(e * D, n, d);
    assert n * d == n * D + n * (d - D);
    assert (e * D) * d == (e * d) * D && n * D + d * D == (n + d) * D;
    Cancel(e * d, n + d, D);
    assert (q + 2) * d == (q + 1) * d + d;
    Cancel(e, q + 2, d);
  }

  lemma FitsDivl(n: nat, v: nat)
    requires n < B64 && B32 / 2 <= v
    ensures (n / 2) / v < B32
  {
    DivBound(n / 2, v);
    MulMono(B32 / 2, v, B32);
    Cancel((n / 2) / v, B32, v);
  }

  // The estimate `divl(n >> 1, (d << s) >> 32) >> (31 - s)` is n / (v * k).
  lemma EstimateIs(n: nat, v: nat, m: nat)
    requires v > 0 && m > 0
    ensures v * (2 * m) > 0 && (n / 2) / v / m == n / (v * (2 * m))
  {
    DivDiv(n / 2, v, m);
    DivDiv(n, 2, v * m);
    assert 2 * (v * m) == v * (2 * m);
  }

  // What the final comparison sees, for the quotient and for one more.
  lemma Correction(n: nat, d: nat, q: nat)
    requires 0 < d <= n < B64 && (q == n / d || q == n / d + 1)
    ensures n / d >= 1
    ensures Sub64(n, Mul64(q - 1, d)) == if q == n / d then n % d + d else n % d
  {
    var t := n / d;
    DivBound(n, d);
    assert n == d * t + n % d;
    Cancel(1, t + 1, d);
    var w := (q - 1) * d;
    MulPred(t, d);
    MulMono(0, q - 1, d);
    assert w == if q == t then t * d - d else t * d;
    assert t * d == n - n % d;
    assert Mul64(q - 1, d) == w % B64 == w;
  }

  lemma MulPred(t: int, d: int)
    ensures (t - 1) * d == t * d - d
  {
  }

  // `(d << s) >> 32`
  function Norm(d: nat): nat
    requires B32 <= d < B64
  {
    Mul64(d, Pow2(LeadingZeros(d / B32))) / B32
  }

  lemma NormOk(d: nat)
    requires B32 <= d < B64
    ensures var s := LeadingZeros(d / B32);
            s <= 31 && Pow2(31 - s) >= 1 && B32 / 2 <= Norm(d) < B32
            && Norm(d) * (2 * Pow2(31 - s)) <= d < Norm(d) * (2 * Pow2(31 - s)) + 2 * Pow2(31 - s)
  {
    var s := LeadingZeros(d / B32);
    Normalized(d, s);
    PowSplit(s);
    assert Mul64(d, Pow2(s)) == d * Pow2(s);
  }

  lemma EstimateOk(n: nat, d: nat, v: nat, m: nat)
    requires n < B64 && B32 / 2 <= v && m >= 1 && v * (2 * m) <= d < v * (2 * m) + 2 * m
    ensures d > 0 && (n / 2) / v < B32
    ensures var q := (n / 2) / v / m; q == n / d || q == n / d + 1
  {
    FitsDivl(n, v);
    EstimateIs(n, v, m);
    EstimateBounds(n, d, v, 2 * m);
  }

  /** `udiv64` is division on every pair of words with a nonzero divisor, and its DIVL never traps. */
  function UDiv64(n: nat, d: nat): (q: nat)
    requires n < B64 && 0 < d < B64
    ensures q == n / d
  {
    if d / B32 == 0 then
      ShortDivide(n, d)
    else if n < d then
      DivIs(n, d, 0);
      0
    else
      LongDivide(n, d)
  }

  // The case of a divisor of 32 bits.
  function ShortDivide(n: nat, d: nat): (q: nat)
    requires n < B64 && 0 < d < B32
    ensures q == n / d
  {
    var n1, n0 := n / B32, n % B32;
    ShortDivision(n, n1, n0, d);
    Divl(B32 * (n1 % d) + n0, d) + B32 * (n1 / d)
  }

  // The case of a divisor beyond 32 bits.
  function LongDivide(n: nat, d: nat): (q: nat)
    requires B32 <= d <= n < B64
    ensures q == n / d
  {
    NormOk(d);
    var m := Pow2(31 - LeadingZeros(d / B32));
    EstimateOk(n, d, Norm(d), m);
    var q := Divl(n / 2, Norm(d)) / m;
    Correction(n, d, q);
    if Sub64(n, Mul64(q - 1, d)) < d then q - 1 else q
  }

  // ---- remainders and signed division ----

  // `umod64` returns a uint32_t.
  function UMod64(n: nat, d: nat): nat
    requires n < B64 && 0 < d < B64
  {
    Sub64(n, Mul64(d, UDiv64(n, d))) % B32
  }

  lemma RemainderOf(n: nat, d: nat, q: nat)
    requires n < B64 && 0 < d && q == n / d
    ensures Sub64(n, Mul64(d, q)) == n % d
  {
    var x := d * q;
    assert n == x + n % d;
    MulMono(0, q, d);
    assert Mul64(d, q) == x % B64 == x;
  }

  lemma UMod64Truncates(n: nat, d: nat)
    requires n < B64 && 0 < d < B64
    ensures UMod64(n, d) == (n % d) % B32
  {
    RemainderOf(n, d, UDiv64(n, d));
  }

  lemma UMod64Within(n: nat, d: nat)
    requires n < B64 && 0 < d <= B32
    ensures UMod64(n, d) == n % d
  {
    hide UMod64;
    UMod64Truncates(n, d);
  }

  lemma UMod64Beyond(d: nat)
    requires B32 < d < B64
    ensures UMod64(B32, d) != B32 % d
  {
    hide UMod64;
    UMod64Truncates(B32, d);
    ModIs(B32, d, 0, B32);
  }

  /** `umod64` is the remainder for every dividend exactly when the divisor is at most 2^32. */
  lemma UMod64ExactIff(d: nat)
    requires 0 < d < B64
    ensures (forall n: nat | n < B64 :: UMod64(n, d) == n % d) <==> d <= B32
  {
    hide UMod64;
    if d <= B32 {
      forall n: nat | n < B64 ensures UMod64(n, d) == n % d { UMod64Within(n, d); }
    } else {
      UMod64Beyond(d);
    }
  }

  predicate IsInt64(x: int) { -B63 <= x < B63 }

  function Abs64(x: int): nat
    requires IsInt64(x)
  {
    if x >= 0 then x else Sub64(0, x % B64)
  }

  function SDiv64(n: int, d: int): int
    requires IsInt64(n) && IsInt64(d) && d != 0
  {
    Abs64Value(n);
    Abs64Value(d);
    Signed(n, d, UDiv64(Abs64(n), Abs64(d)))
  }

  // C's division of integers truncates toward zero.
  function TruncDiv(n: int, d: int): int
    requires d != 0
  {
    var a := if n >= 0 then n else -n;
    var b := if d >= 0 then d else -d;
    if (n < 0) == (d < 0) then a / b else -(a / b)
  }

  lemma Abs64Value(x: int)
    requires IsInt64(x)
    ensures Abs64(x) == if x >= 0 then x else -x
  {
    if x < 0 { assert x % B64 == x + B64; }
  }

  lemma SignFix(q: nat)
    requires q <= B63
    ensures (ToInt64(q) == q <==> q < B63) && ToInt64(-ToInt64(q)) == 0 - q
  {
  }

  // The quotient of the magnitudes with its sign, truncated to 64 bits.
  function Signed(n: int, d: int, q: int): int {
    if (n < 0) == (d < 0) then ToInt64(q) else ToInt64(-ToInt64(q))
  }

  lemma SignedExactIff(n: int, d: int, a: nat, b: nat, q: nat)
    requires IsInt64(n) && IsInt64(d) && d != 0
    requires a == (if n >= 0 then n else -n) && b == (if d >= 0 then d else -d) && q == a / b
    ensures Signed(n, d, q) == TruncDiv(n, d) <==> !(n == -B63 && d == -1)
  {
    QuotientFits(a, b);
    SignFix(q);
  }

  /** `sdiv64` truncates toward zero on every pair but one, where the quotient does not fit. */
  lemma SDiv64ExactIff(n: int, d: int)
    requires IsInt64(n) && IsInt64(d) && d != 0
    ensures SDiv64(n, d) == TruncDiv(n, d) <==> !(n == -B63 && d == -1)
  {
    Abs64Value(n);
    Abs64Value(d);
    SignedExactIff(n, d, Abs64(n), Abs64(d), UDiv64(Abs64(n), Abs64(d)));
  }

  lemma QuotientFits(a: nat, b: nat)
    requires a <= B63 && 0 < b
    ensures a / b <= a && (a / b == B63 <==> a == B63 && b == 1)
  {
    var q := a / b;
    assert a == q * b + a % b;
    if b >= 2 { assert q * b >= 2 * q; }
  }

  // `smod64` returns an int32_t.
  function SMod64(n: int, d: int): int
    requires IsInt64(n) && IsInt64(d) && d != 0
  {
    ToInt32(ToInt64(n - ToInt64(d * SDiv64(n, d))))
  }

  function TruncMod(n: int, d: int): int
    requires d != 0
  {
    n - d * TruncDiv(n, d)
  }

  lemma TruncProduct(n: int, d: int, a: nat, b: nat)
    requires d != 0 && a == (if n >= 0 then n else -n) && b == (if d >= 0 then d else -d)
    ensures 0 <= a - b * (a / b) < b && 0 <= b * (a / b)
    ensures d * TruncDiv(n, d) == if n >= 0 then b * (a / b) else -(b * (a / b))
  {
    EuclidBound(a, b);
    NegProducts(b, a / b);
  }

  lemma EuclidBound(a: nat, b: nat)
    requires b > 0
    ensures 0 <= a - b * (a / b) < b && 0 <= b * (a / b)
  {
    assert a == b * (a / b) + a % b;
    MulMono(0, a / b, b);
  }

  lemma TruncModBounds(n: int, d: int)
    requires d != 0
    ensures var b := if d >= 0 then d else -d; -b < TruncMod(n, d) < b
    ensures IsInt64(n) ==> -B63 <= d * TruncDiv(n, d) <= B63
  {
    TruncProduct(n, d, if n >= 0 then n else -n, if d >= 0 then d else -d);
  }

  lemma NegProducts(b: int, q: int)
    ensures (-b) * q == -(b * q) && b * (-q) == -(b * q) && (-b) * (-q) == b * q
  {
  }

  lemma WrapTwice(n: int, x: int)
    requires IsInt64(n) && IsInt64(n - x)
    ensures ToInt64(n - ToInt64(x)) == n - x
  {
  }

  lemma SDiv64Overflow()
    ensures SDiv64(-B63, -1) == -B63
  {
    Abs64Value(-B63);
    Abs64Value(-1);
  }

  lemma TruncOverflow()
    ensures TruncDiv(-B63, -1) == B63
  {
  }

  lemma SMod64Overflow()
    ensures SMod64(-B63, -1) == 0 && TruncMod(-B63, -1) == 0
  {
    hide SDiv64, TruncDiv;
    SDiv64Overflow();
    TruncOverflow();
    var q := SDiv64(-B63, -1);
    assert -1 * q == B63;
    assert ToInt64(B63) == -B63;
  }

  lemma SMod64Truncates(n: int, d: int)
    requires IsInt64(n) && IsInt64(d) && d != 0
    ensures SMod64(n, d) == ToInt32(TruncMod(n, d))
  {
    if n == -B63 && d == -1 {
      SMod64Overflow();
    } else {
      SDiv64ExactIff(n, d);
      TruncModBounds(n, d);
      WrapTwice(n, d * TruncDiv(n, d));
    }
  }

  lemma SMod64Within(n: int, d: int)
    requires IsInt64(n) && IsInt64(d) && d != 0 && -0x8000_0000 <= d <= 0x8000_0000
    ensures SMod64(n, d) == TruncMod(n, d)
  {
    hide SMod64, TruncMod, TruncDiv;
    SMod64Truncates(n, d);
    TruncModBounds(n, d);
  }

  lemma SMod64Beyond(d: int)
    requires IsInt64(d) && !(-0x8000_0000 <= d <= 0x8000_0000)
    ensures IsInt64(0x8000_0000) && SMod64(0x8000_0000, d) != TruncMod(0x8000_0000, d)
  {
    var m := 0x8000_0000;
    DivIs(m, if d >= 0 then d else -d, 0);
    assert TruncDiv(m, d) == 0;
    SMod64Truncates(m, d);
  }

  /** `smod64` is the remainder for every dividend, the overflowing pair included, exactly when
      the divisor's magnitude is at most 2^31. */
  lemma SMod64ExactIff(d: int)
    requires IsInt64(d) && d != 0
    ensures (forall n: int | IsInt64(n) :: SMod64(n, d) == TruncMod(n, d)) <==> -0x8000_0000 <= d <= 0x8000_0000
  {
    if -0x8000_0000 <= d <= 0x8000_0000 {
      forall n: int | IsInt64(n) ensures SMod64(n, d) == TruncMod(n, d) { SMod64Within(n, d); }
    } else {
      SMod64Beyond(d);
    }
  }
}
