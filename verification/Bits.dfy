/** Shifts and masks of natural numbers, and the patterns of 32-bit C integers. */
module Bits {
  import opened Words

  const TWO_31: int := 0x8000_0000
  const TWO_32: int := 0x1_0000_0000

  /** A 32-bit C integer as its pattern. */
  type Pattern = x: int | 0 <= x < 0x1_0000_0000 witness 0

  function Pow2(n: nat): (p: nat)
    ensures p > 0
  {
    if n == 0 then 1 else 2 * Pow2(n - 1)
  }

  lemma Pow2Zero()
    ensures Pow2(0) == 1
  {
  }

  lemma {:induction false} Pow2Monotone(a: nat, b: nat)
    requires a <= b
    ensures Pow2(a) <= Pow2(b)
  {
    if a < b { Pow2Monotone(a, b - 1); }
  }

  lemma {:induction false} Pow2Add(a: nat, b: nat)
    ensures Pow2(a + b) == Pow2(a) * Pow2(b)
    decreases b
  {
    if b > 0 {
      Pow2Add(a, b - 1);
      TimesTwice(Pow2(a), Pow2(b - 1));
    }
  }

  lemma TimesTwice(p: nat, q: nat)
    ensures p * (2 * q) == 2 * (p * q)
  {
  }

  lemma Pow2Of32()
    ensures Pow2(16) == 0x1_0000 && Pow2(31) == TWO_31 && Pow2(32) == TWO_32
  {
    assert Pow2(4) == 16;
    assert Pow2(8) == 256;
    assert Pow2(12) == 4096;
    assert Pow2(16) == 0x1_0000;
    assert Pow2(20) == 0x10_0000;
    assert Pow2(24) == 0x100_0000;
    assert Pow2(28) == 0x1000_0000;
  }

  lemma DivUnique(x: int, d: int, q: int, r: int)
    requires d > 0 && x == d * q + r && 0 <= r < d
    ensures x / d == q
  {
    var q', r' := x / d, x % d;
    assert x == d * q' + r';
    assert d * (q' - q) == d * q' - d * q && d * (q - q') == d * q - d * q';
    if q < q' { MulAtLeastOne(d, q' - q); }
    if q' < q { MulAtLeastOne(d, q - q'); }
  }

  lemma MulAtLeastOne(d: int, k: int)
    requires d > 0 && k >= 1
    ensures d * k >= d
  {
  }

  /** Setting a bit above which all bits of `k` are already decided. */
  lemma {:induction false} XorLowBit(high: nat, n: nat)
    ensures BitXor(high * Pow2(n + 1), Pow2(n)) == high * Pow2(n + 1) + Pow2(n)
    decreases n
  {
    var p := Pow2(n);
    var x := high * Pow2(n + 1);
    assert x == 2 * (high * p);
    if n == 0 {
      XorZero(high);
    } else {
      XorLowBit(high, n - 1);
      assert x / 2 == high * p && p / 2 == Pow2(n - 1);
    }
  }

  lemma {:induction false} XorZero(x: nat)
    ensures BitXor(x, 0) == x
  {
    if x != 0 { XorZero(x / 2); }
  }

  /** `x >> n`. */
  function ShiftRight(x: nat, n: nat): nat
    decreases n
  {
    if n == 0 then x else ShiftRight(x / 2, n - 1)
  }

  /** The `n` low bits of `x`. */
  function LowBits(x: nat, n: nat): nat
    decreases n
  {
    if n == 0 then 0 else x % 2 + 2 * LowBits(x / 2, n - 1)
  }

  /** Shifting and masking are division with remainder by `2^n`. */
  lemma {:induction false} SplitBits(x: nat, n: nat)
    ensures LowBits(x, n) < Pow2(n) && x == LowBits(x, n) + Pow2(n) * ShiftRight(x, n)
    decreases n
  {
    if n > 0 {
      SplitBits(x / 2, n - 1);
      SplitOne(x, LowBits(x / 2, n - 1), Pow2(n - 1), ShiftRight(x / 2, n - 1));
    }
  }

  lemma SplitOne(x: nat, low: nat, p: nat, high: nat)
    requires x / 2 == low + p * high
    ensures x == x % 2 + 2 * low + 2 * p * high
  {
    assert 2 * p * high == 2 * (p * high);
  }

  lemma {:induction false} ShiftAdd(x: nat, a: nat, b: nat)
    ensures ShiftRight(ShiftRight(x, a), b) == ShiftRight(x, a + b)
    decreases a
  {
    if a > 0 { ShiftAdd(x / 2, a - 1, b); }
  }

  lemma ShiftIsDiv(x: nat, n: nat)
    ensures ShiftRight(x, n) == x / Pow2(n) && LowBits(x, n) == x % Pow2(n)
  {
    hide Pow2, ShiftRight, LowBits;
    SplitBits(x, n);
    DivUnique(x, Pow2(n), ShiftRight(x, n), LowBits(x, n));
    RemainderIs(x, Pow2(n), ShiftRight(x, n), LowBits(x, n));
  }

  lemma RemainderIs(x: int, d: int, q: int, r: int)
    requires d > 0 && x == d * q + r && x / d == q
    ensures x % d == r
  {
  }

  /** Masking with `2^n - 1` keeps the `n` low bits. */
  lemma {:induction false} AndMask(x: nat, n: nat)
    ensures BitAnd(x, Pow2(n) - 1) == LowBits(x, n)
    decreases n
  {
    if n > 0 {
      var p := Pow2(n - 1);
      AndMask(x / 2, n - 1);
      assert (2 * p - 1) / 2 == p - 1 && (2 * p - 1) % 2 == 1;
      LowBitsZero(n - 1);
    }
  }

  lemma {:induction false} LowBitsZero(n: nat)
    ensures LowBits(0, n) == 0
  {
    if n > 0 { LowBitsZero(n - 1); }
  }

  /** `m << k`. */
  function ShiftLeft(m: nat, k: nat): nat {
    if k == 0 then m else 2 * ShiftLeft(m, k - 1)
  }

  lemma {:induction false} ShiftLeftIs(m: nat, k: nat)
    ensures ShiftLeft(m, k) == Pow2(k) * m
  {
    if k > 0 { ShiftLeftIs(m, k - 1); }
  }

  /** Masking with a shifted mask looks at the shifted number. */
  lemma {:induction false} AndShifted(x: nat, m: nat, k: nat)
    ensures BitAnd(x, ShiftLeft(m, k)) == ShiftLeft(BitAnd(ShiftRight(x, k), m), k)
    decreases k
  {
    if k > 0 {
      AndShifted(x / 2, m, k - 1);
      AndDouble(x, ShiftLeft(m, k - 1));
    }
  }

  lemma AndDouble(x: nat, y: nat)
    ensures BitAnd(x, 2 * y) == 2 * BitAnd(x / 2, y)
  {
  }

  lemma {:induction false} ShiftBack(m: nat, k: nat)
    ensures ShiftRight(ShiftLeft(m, k), k) == m
    decreases k
  {
    if k > 0 { ShiftBack(m, k - 1); }
  }

  function BitOr(x: nat, y: nat): nat
    decreases x + y
  {
    if x == 0 && y == 0 then 0 else (if x % 2 == 1 || y % 2 == 1 then 1 else 0) + 2 * BitOr(x / 2, y / 2)
  }

  /** `and` works on the low and on the high bits separately. */
  lemma {:induction false} AndSplit(x: nat, u: nat, y: nat, v: nat, q: nat)
    requires x < Pow2(q) && y < Pow2(q)
    ensures BitAnd(x + Pow2(q) * u, y + Pow2(q) * v) == BitAnd(x, y) + Pow2(q) * BitAnd(u, v)
    decreases q
  {
    if q > 0 {
      AndSplit(x / 2, u, y / 2, v, q - 1);
      AndStep(x, Pow2(q - 1), u, y, v);
    }
  }

  lemma AndStep(x: nat, p: nat, u: nat, y: nat, v: nat)
    requires BitAnd(x / 2 + p * u, y / 2 + p * v) == BitAnd(x / 2, y / 2) + p * BitAnd(u, v)
    ensures BitAnd(x + 2 * p * u, y + 2 * p * v) == BitAnd(x, y) + 2 * p * BitAnd(u, v)
  {
    hide BitAnd;
    Doubles(x, p, u);
    Doubles(y, p, v);
    AndHalves(x + 2 * p * u, y + 2 * p * v);
    AndHalves(x, y);
    assert 2 * p * BitAnd(u, v) == 2 * (p * BitAnd(u, v));
  }

  lemma Doubles(x: nat, p: nat, u: nat)
    ensures (x + 2 * p * u) / 2 == x / 2 + p * u && (x + 2 * p * u) % 2 == x % 2
  {
    assert 2 * p * u == 2 * (p * u);
  }

  lemma AndHalves(x: nat, y: nat)
    ensures BitAnd(x, y) == (x % 2) * (y % 2) + 2 * BitAnd(x / 2, y / 2)
  {
  }

  lemma Pow2Of64()
    ensures Pow2(64) == TWO_64
  {
    hide Pow2;
    Pow2Of32();
    Pow2Add(32, 32);
  }

  lemma {:induction false} OrZero(x: nat)
    ensures BitOr(x, 0) == x && BitOr(0, x) == x
  {
    if x != 0 { OrZero(x / 2); }
  }
}
