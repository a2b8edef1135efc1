/** The bit-level floating-point puzzles of `bits.c`, against IEEE 754-2008 binary32. */
module Floats {
  import opened Words
  import opened Bits

  const TWO_23: int := 0x80_0000

  // ---------------------------------------------------------------------------------------------
  // The format (IEEE 754-2008, section 3.4)
  // ---------------------------------------------------------------------------------------------

  function SignBit(f: Pattern): nat { f / TWO_31 }

  function Exponent(f: Pattern): nat { f / TWO_23 % 256 }

  function Fraction(f: Pattern): nat { f % TWO_23 }

  predicate Finite(f: Pattern) { Exponent(f) < 255 }

  /** The magnitude of a finite pattern, in units of 2^-149. */
  function Magnitude(f: Pattern): nat {
    if Exponent(f) == 0 then Fraction(f) else Pow2(Exponent(f) - 1) * (TWO_23 + Fraction(f))
  }

  function Value(f: Pattern): int { if SignBit(f) == 0 then Magnitude(f) else 0 - Magnitude(f) }

  function Infinity(sign: nat): Pattern
    requires sign < 2
  {
    sign * TWO_31 + 255 * TWO_23
  }

  lemma Parts(f: Pattern)
    ensures f == SignBit(f) * TWO_31 + Exponent(f) * TWO_23 + Fraction(f)
    ensures SignBit(f) < 2 && Exponent(f) < 256 && Fraction(f) < TWO_23
  {
  }

  /** Assembling a pattern from its parts. */
  lemma FromParts(f: Pattern, sign: nat, exponent: nat, fraction: nat)
    requires sign < 2 && exponent < 256 && fraction < TWO_23 && f == sign * TWO_31 + exponent * TWO_23 + fraction
    ensures SignBit(f) == sign && Exponent(f) == exponent && Fraction(f) == fraction
  {
  }

  // ---------------------------------------------------------------------------------------------
  // Masks
  // ---------------------------------------------------------------------------------------------

  const EXP_MASK: nat := 0x7F80_0000
  const FRAC_MASK: nat := 0x7F_FFFF
  const NOT_FRAC_MASK: nat := 0xFF80_0000

  lemma Pow2Values()
    ensures Pow2(8) == 256 && Pow2(9) == 512 && Pow2(23) == TWO_23 && Pow2(31) == TWO_31
  {
    assert Pow2(8) == 256;
    assert Pow2(16) == 65536;
    assert Pow2(23) == TWO_23;
    assert Pow2(31) == TWO_31;
  }

  /** The fraction, and what is above it. */
  lemma LowPart(f: Pattern)
    ensures BitAnd(f, FRAC_MASK) == Fraction(f) && ShiftRight(f, 23) == f / TWO_23
  {
    hide BitAnd, ShiftRight, LowBits, Pow2;
    Pow2Values();
    SplitBits(f, 23);
    AndMask(f, 23);
  }

  lemma ExponentPart(f: Pattern)
    ensures ShiftRight(BitAnd(f, EXP_MASK), 23) == Exponent(f)
  {
    hide BitAnd, ShiftRight, ShiftLeft, LowBits, Pow2;
    Pow2Values();
    LowPart(f);
    ShiftLeftIs(255, 23);
    AndShifted(f, 255, 23);
    var high: nat := f / TWO_23;
    AndMask(high, 8);
    SplitBits(high, 8);
    ShiftBack(BitAnd(high, 255), 23);
  }

  lemma HighPart(f: Pattern)
    ensures BitAnd(f, NOT_FRAC_MASK) == f - Fraction(f)
  {
    hide BitAnd, ShiftRight, ShiftLeft, LowBits, Pow2;
    Pow2Values();
    LowPart(f);
    ShiftLeftIs(511, 23);
    AndShifted(f, 511, 23);
    var high: nat := f / TWO_23;
    AndMask(high, 9);
    SplitBits(high, 9);
    ShiftLeftIs(BitAnd(high, 511), 23);
  }

  lemma SignPart(f: Pattern)
    ensures ShiftRight(f, 31) == SignBit(f)
  {
    hide ShiftRight, LowBits, Pow2;
    Pow2Values();
    SplitBits(f, 31);
  }

  /** What the masks of the source select. */
  lemma Masks(f: Pattern)
    ensures ShiftRight(BitAnd(f, EXP_MASK), 23) == Exponent(f)
    ensures BitAnd(f, FRAC_MASK) == Fraction(f)
    ensures BitAnd(f, NOT_FRAC_MASK) == f - Fraction(f)
    ensures ShiftRight(f, 31) == SignBit(f)
  {
    hide BitAnd, ShiftRight;
    LowPart(f);
    ExponentPart(f);
    HighPart(f);
    SignPart(f);
  }

  // ---------------------------------------------------------------------------------------------
  // Doubling
  // ---------------------------------------------------------------------------------------------

  /** Unsigned arithmetic is modulo 2^32. */
  function U32(x: int): Pattern { x % TWO_32 }

  function FloatScale2(uf: Pattern): Pattern {
    var exponent := ShiftRight(BitAnd(uf, EXP_MASK), 23);
    if exponent == 0xff then uf
    else if exponent == 0 then U32(BitAnd(uf, NOT_FRAC_MASK) + 2 * BitAnd(uf, FRAC_MASK))
    else
      var up := U32(uf + TWO_23);
      if exponent == 0xfe then U32(BitAnd(up, NOT_FRAC_MASK)) else up
  }

  const MAX_MAGNITUDE: nat := Pow2(253) * (2 * TWO_23 - 1)

  /** The largest finite magnitude belongs to exponent 254. */
  lemma MagnitudeBounds(f: Pattern)
    requires Finite(f)
    ensures Magnitude(f) <= MAX_MAGNITUDE
    ensures Exponent(f) > 0 ==> Pow2(Exponent(f) - 1) * TWO_23 <= Magnitude(f) < Pow2(Exponent(f)) * TWO_23
    ensures Exponent(f) == 0 ==> Magnitude(f) < TWO_23
  {
    hide Pow2;
    var e, f0 := Exponent(f), Fraction(f);
    Pow2Monotone(if e == 0 then 0 else e - 1, 253);
    Pow2Zero();
    if e > 0 {
      var p, q := Pow2(e - 1), Pow2(253);
      Pow2Next(e - 1);
      MulMonotone(p, TWO_23, TWO_23 + f0);
      MulMonotone(p, TWO_23 + f0 + 1, 2 * TWO_23);
      MulMonotone(p, TWO_23 + f0, 2 * TWO_23 - 1);
      MulMonotone2(p, q, 2 * TWO_23 - 1);
      assert p * (TWO_23 + f0 + 1) == p * (TWO_23 + f0) + p;
      assert p * (2 * TWO_23) == (2 * p) * TWO_23;
    } else {
      MulMonotone2(1, Pow2(253), 2 * TWO_23 - 1);
    }
  }

  lemma Pow2Next(k: nat)
    ensures Pow2(k + 1) == 2 * Pow2(k)
  {
  }

  lemma MulMonotone(p: nat, a: nat, b: nat)
    requires a <= b
    ensures p * a <= p * b
  {
  }

  lemma MulMonotone2(p: nat, q: nat, a: nat)
    requires p <= q
    ensures p * a <= q * a
  {
  }

  /** Doubling is exact: a pattern that is not finite is returned as it is, and a finite one gives the same
      sign and twice the value, across the step from denormal to normal, or, exactly when twice the
      magnitude is larger than any finite one, the infinity of that sign. */
  lemma Scale2Doubles(uf: Pattern)
    ensures var r := FloatScale2(uf);
            && (!Finite(uf) ==> r == uf)
            && (Finite(uf) && 2 * Magnitude(uf) <= MAX_MAGNITUDE ==>
                  Finite(r) && SignBit(r) == SignBit(uf) && Value(r) == 2 * Value(uf))
            && (Finite(uf) && 2 * Magnitude(uf) > MAX_MAGNITUDE ==> r == Infinity(SignBit(uf)))
  {
    hide BitAnd, ShiftRight, Pow2, Magnitude, SignBit, Exponent, Fraction;
    Masks(uf);
    Parts(uf);
    var e := Exponent(uf);
    if e == 0 {
      DoubleDenormal(uf);
    } else if e < 254 {
      DoubleNormal(uf);
    } else if e == 254 {
      DoubleLargest(uf);
    }
  }

  lemma DoubleDenormal(uf: Pattern)
    requires Exponent(uf) == 0
    ensures var r := FloatScale2(uf);
            && Finite(r) && SignBit(r) == SignBit(uf) && Magnitude(r) == 2 * Magnitude(uf)
            && 2 * Magnitude(uf) <= MAX_MAGNITUDE
  {
    hide BitAnd, ShiftRight, Pow2;
    Masks(uf);
    Parts(uf);
    Pow2Zero();
    var s, f := SignBit(uf), Fraction(uf);
    var r := FloatScale2(uf);
    if 2 * f < TWO_23 {
      FromParts(r, s, 0, 2 * f);
    } else {
      FromParts(r, s, 1, 2 * f - TWO_23);
    }
    MagnitudeBounds(r);
  }

  lemma DoubleNormal(uf: Pattern)
    requires 0 < Exponent(uf) < 254
    ensures var r := FloatScale2(uf);
            && Finite(r) && SignBit(r) == SignBit(uf) && Magnitude(r) == 2 * Magnitude(uf)
            && 2 * Magnitude(uf) <= MAX_MAGNITUDE
  {
    hide BitAnd, ShiftRight, Pow2;
    Masks(uf);
    Parts(uf);
    var s, e, f := SignBit(uf), Exponent(uf), Fraction(uf);
    var r := FloatScale2(uf);
    FromParts(r, s, e + 1, f);
    Pow2Next(e - 1);
    var p := Pow2(e - 1);
    assert (2 * p) * (TWO_23 + f) == 2 * (p * (TWO_23 + f));
    MagnitudeBounds(r);
  }

  lemma DoubleLargest(uf: Pattern)
    requires Exponent(uf) == 254
    ensures FloatScale2(uf) == Infinity(SignBit(uf)) && 2 * Magnitude(uf) > MAX_MAGNITUDE
  {
    hide BitAnd, ShiftRight, Pow2;
    Masks(uf);
    Parts(uf);
    var s, f := SignBit(uf), Fraction(uf);
    var up := U32(uf + TWO_23);
    FromParts(up, s, 255, f);
    Masks(up);
    var p := Pow2(253);
    MulMonotone(p, TWO_23, TWO_23 + f);
    assert 2 * (p * TWO_23) == p * (2 * TWO_23 - 1) + p;
  }

  /** A finite pattern is determined by its sign and magnitude, so the results above are determined bit by bit. */
  lemma PatternUnique(a: Pattern, b: Pattern)
    requires Finite(a) && Finite(b) && SignBit(a) == SignBit(b) && Magnitude(a) == Magnitude(b)
    ensures a == b
  {
    hide Pow2;
    Parts(a);
    Parts(b);
    MagnitudeBounds(a);
    MagnitudeBounds(b);
    var e, d := Exponent(a), Exponent(b);
    if e < d { ExponentsOrder(a, b); }
    if d < e { ExponentsOrder(b, a); }
    if e == d && e > 0 { MulCancel(Pow2(e - 1), TWO_23 + Fraction(a), TWO_23 + Fraction(b)); }
  }

  /** A larger exponent means a larger magnitude. */
  lemma ExponentsOrder(a: Pattern, b: Pattern)
    requires Finite(a) && Finite(b) && Exponent(a) < Exponent(b)
    ensures Magnitude(a) < Magnitude(b)
  {
    hide Pow2, Magnitude;
    MagnitudeBounds(a);
    MagnitudeBounds(b);
    Pow2Monotone(Exponent(a), Exponent(b) - 1);
    MulMonotone2(Pow2(Exponent(a)), Pow2(Exponent(b) - 1), TWO_23);
    Pow2Zero();
    Pow2Monotone(0, Exponent(b) - 1);
    MulMonotone2(1, Pow2(Exponent(b) - 1), TWO_23);
  }

  lemma MulCancel(p: nat, a: int, b: int)
    requires p > 0 && p * a == p * b
    ensures a == b
  {
    if a < b { MulMonotone3(p, a, b); }
    if b < a { MulMonotone3(p, b, a); }
  }

  lemma MulMonotone3(p: nat, a: int, b: int)
    requires p > 0 && a < b
    ensures p * a < p * b
  {
  }

  // ---------------------------------------------------------------------------------------------
  // Powers of two
  // ---------------------------------------------------------------------------------------------

  function FloatPower2(x: int): Pattern
    requires -TWO_31 <= x < TWO_31
  {
    if x > 127 then U32(ShiftLeft(0xff, 23))
    else if x < -149 then 0
    else if x >= -126 then U32(ShiftLeft(x + 127, 23))
    else U32(ShiftLeft(1, 149 + x))
  }

  /** The pattern of 2^x is exact from the smallest denormal on; below it the result is zero, and above the
      largest exponent it is infinity. */
  lemma Power2Exact(x: int)
    requires -TWO_31 <= x < TWO_31
    ensures var r := FloatPower2(x);
            && (x > 127 ==> r == Infinity(0))
            && (x < -149 ==> r == 0)
            && (-149 <= x <= 127 ==> Finite(r) && SignBit(r) == 0 && Magnitude(r) == Pow2(x + 149))
  {
    hide Pow2, ShiftLeft;
    Pow2Values();
    if x > 127 {
      ShiftLeftIs(0xff, 23);
    } else if x >= -126 {
      ShiftLeftIs(x + 127, 23);
      FromParts(FloatPower2(x), 0, x + 127, 0);
      Pow2Add(x + 126, 23);
    } else if x >= -149 {
      ShiftLeftIs(1, x + 149);
      Pow2Monotone(x + 149, 22);
      Pow2Next(22);
      FromParts(FloatPower2(x), 0, 0, Pow2(x + 149));
    }
  }

  // ---------------------------------------------------------------------------------------------
  // Conversion to an integer
  // ---------------------------------------------------------------------------------------------

  function ToInt32(x: int): int { (x + TWO_31) % TWO_32 - TWO_31 }

  function FloatFloat2Int(uf: Pattern): int {
    var exponent := ShiftRight(BitAnd(uf, EXP_MASK), 23);
    var normalizedFracture := BitAnd(uf, FRAC_MASK) + TWO_23;
    var sign := ToInt32(U32(1 - 2 * ShiftRight(uf, 31)));
    if exponent < 126 then 0
    else if exponent > 157 then -TWO_31
    else if exponent < 151 then sign * (normalizedFracture / Pow2(150 - exponent))
    else ToInt32(sign * normalizedFracture * Pow2(exponent - 150))
  }

  /** Rounding toward zero (IEEE 754-2008, section 5.8). */
  function Truncated(value: int, unit: nat): int
    requires unit > 0
  {
    if value >= 0 then value / unit else -(-value / unit)
  }

  /** The conversion truncates toward zero whenever the magnitude is below 2^31, and otherwise, as for NaN
      and infinity, gives the pattern 0x80000000. */
  lemma Float2IntTruncates(uf: Pattern)
    ensures FloatFloat2Int(uf) ==
      if Finite(uf) && Magnitude(uf) < Pow2(180) then Truncated(Value(uf), Pow2(149)) else -TWO_31
  {
    hide BitAnd, ShiftRight, Pow2, Magnitude, Truncated, ToInt32, U32;
    Masks(uf);
    var e := Exponent(uf);
    if e < 126 {
      SmallTruncates(uf);
    } else if e < 151 {
      MiddleTruncates(uf);
    } else if e <= 157 {
      LargeTruncates(uf);
    } else if e < 255 {
      TooLarge(uf);
    }
  }

  lemma SignIs(uf: Pattern)
    ensures ToInt32(U32(1 - 2 * ShiftRight(uf, 31))) == if SignBit(uf) == 0 then 1 else -1
  {
    hide ShiftRight;
    SignPart(uf);
    Parts(uf);
  }

  /** Truncation acts on the magnitude and keeps the sign. */
  lemma TruncatedIs(uf: Pattern, unit: nat)
    requires unit > 0
    ensures Truncated(Value(uf), unit) == if SignBit(uf) == 0 then Magnitude(uf) / unit else -(Magnitude(uf) / unit)
  {
    hide Magnitude, SignBit;
    var m := Magnitude(uf);
    if m == 0 { DivSmall(0, unit); }
  }

  lemma DivSmall(m: nat, unit: nat)
    requires m < unit
    ensures m / unit == 0
  {
  }

  /** The magnitude of a normal number lies between neighbouring powers of two. */
  lemma MagnitudePowers(uf: Pattern)
    requires 0 < Exponent(uf) < 255
    ensures Pow2(Exponent(uf) + 22) <= Magnitude(uf) < Pow2(Exponent(uf) + 23)
  {
    hide Pow2, Magnitude;
    Pow2Values();
    MagnitudeBounds(uf);
    Pow2Add(Exponent(uf) - 1, 23);
    Pow2Add(Exponent(uf), 23);
  }

  lemma SmallTruncates(uf: Pattern)
    requires Exponent(uf) < 126
    ensures FloatFloat2Int(uf) == Truncated(Value(uf), Pow2(149)) && Magnitude(uf) < Pow2(180)
  {
    hide BitAnd, ShiftRight, Pow2, Magnitude, Truncated, Value;
    Masks(uf);
    Pow2Values();
    if Exponent(uf) == 0 { MagnitudeBounds(uf); } else { MagnitudePowers(uf); }
    Pow2Monotone(Exponent(uf) + 23, 149);
    Pow2Monotone(23, 149);
    Pow2Monotone(149, 180);
    TruncatedIs(uf, Pow2(149));
    DivSmall(Magnitude(uf), Pow2(149));
  }

  lemma DivCancel(p: nat, a: nat, b: nat)
    requires p > 0 && b > 0
    ensures p * b > 0 && (p * a) / (p * b) == a / b
  {
    MulMonotone3(p, 0, b);
    var q, r := a / b, a % b;
    assert a == b * q + r;
    assert p * a == (p * b) * q + p * r by { MulSum(p, b, q, r); }
    MulMonotone3(p, r, b);
    MulMonotone(p, 0, r);
    DivUnique(p * a, p * b, q, p * r);
  }

  lemma MulSum(p: int, b: int, q: int, r: int)
    ensures p * (b * q + r) == (p * b) * q + p * r
  {
    assert p * (b * q) == (p * b) * q;
  }

  lemma MiddleTruncates(uf: Pattern)
    requires 126 <= Exponent(uf) < 151
    ensures FloatFloat2Int(uf) == Truncated(Value(uf), Pow2(149)) && Magnitude(uf) < Pow2(180)
  {
    hide BitAnd, ShiftRight, Pow2, Truncated, Value, ToInt32, U32;
    Masks(uf);
    SignIs(uf);
    MagnitudePowers(uf);
    var e := Exponent(uf);
    Pow2Monotone(e + 23, 180);
    TruncatedIs(uf, Pow2(149));
    Pow2Add(e - 1, 150 - e);
    DivCancel(Pow2(e - 1), TWO_23 + Fraction(uf), Pow2(150 - e));
  }

  lemma LargeTruncates(uf: Pattern)
    requires 151 <= Exponent(uf) <= 157
    ensures FloatFloat2Int(uf) == Truncated(Value(uf), Pow2(149)) && Magnitude(uf) < Pow2(180)
  {
    hide BitAnd, ShiftRight, Pow2, Truncated, Value, U32, Magnitude;
    Masks(uf);
    SignIs(uf);
    var k, n := Pow2(Exponent(uf) - 150), TWO_23 + Fraction(uf);
    LargeMagnitude(uf);
    TruncatedIs(uf, Pow2(149));
    DivCancel(Pow2(149), k * n, 1);
    Parts(uf);
    MulNegate(n, k);
  }

  lemma LargeMagnitude(uf: Pattern)
    requires 151 <= Exponent(uf) <= 157
    ensures var k, n := Pow2(Exponent(uf) - 150), TWO_23 + Fraction(uf);
            Magnitude(uf) == Pow2(149) * (k * n) && k * n < TWO_31 && Magnitude(uf) < Pow2(180)
  {
    hide Pow2;
    MagnitudePowers(uf);
    var e, n := Exponent(uf), TWO_23 + Fraction(uf);
    var k := Pow2(e - 150);
    Pow2Monotone(e + 23, 180);
    Pow2Add(149, e - 150);
    assert Magnitude(uf) == Pow2(149) * (k * n) by { MulSum(Pow2(149), k, n, 0); }
    Pow2Monotone(e - 150, 7);
    assert Pow2(7) == 128 by { Pow2Seven(); }
    Parts(uf);
    MulMonotone2(k, 128, n);
  }

  lemma MulNegate(n: nat, k: nat)
    ensures -1 * n * k == -(k * n) && 1 * n * k == k * n
  {
  }

  lemma Pow2Seven()
    ensures Pow2(7) == 128
  {
  }

  lemma TooLarge(uf: Pattern)
    requires 158 <= Exponent(uf) < 255
    ensures FloatFloat2Int(uf) == -TWO_31 && Magnitude(uf) >= Pow2(180)
  {
    hide BitAnd, ShiftRight, Pow2, Magnitude;
    Masks(uf);
    MagnitudePowers(uf);
    Pow2Monotone(180, Exponent(uf) + 22);
  }
}
