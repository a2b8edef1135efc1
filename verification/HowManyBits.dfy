/** `howManyBits` of `bits.c`: the least width in which a number fits in two's complement, from a smear of its
    leading bits and a count of ones in parallel fields.  An int is its 32-bit pattern. */
module HowManyBits {
  import opened Words
  import opened Bits

  type Int32 = x: int | -0x8000_0000 <= x < 0x8000_0000

  function Pat(x: Int32): Pattern { if x < 0 then x + TWO_32 else x }

  function Not(p: Pattern): Pattern { TWO_32 - 1 - p }

  /** `>>` on an int copies the sign. */
  function Sar(p: Pattern, k: nat): Pattern {
    ShiftSmaller(p, k);
    ShiftSmaller(Not(p), k);
    if p >= TWO_31 then Not(ShiftRight(Not(p), k)) else ShiftRight(p, k)
  }

  function And(p: Pattern, q: Pattern): Pattern { AndBound(p, q); BitAnd(p, q) }

  function Or(p: Pattern, q: Pattern): Pattern { Pow2Of32(); OrBound(p, q, 32); BitOr(p, q) }

  function Plus(p: Pattern, q: Pattern): Pattern { (p + q) % TWO_32 }

  // ---------------------------------------------------------------------------------------------
  // The program
  // ---------------------------------------------------------------------------------------------

  /** The bits that repeat the sign become leading ones. */
  function LeadingForm(p: Pattern): Pattern {
    var negative := Sar(p, 31);
    Or(And(negative, p), And(Not(negative), Not(p)))
  }

  function Spread(n: Pattern, k: nat): Pattern { And(n, Sar(n, k)) }

  /** Only the leading ones stay. */
  function LeadingOnes(p: Pattern): Pattern {
    Spread(Spread(Spread(Spread(Spread(LeadingForm(p), 1), 2), 4), 8), 16)
  }

  /** Neighbouring fields of `w` bits are added. */
  function Fold(n: Pattern, w: nat, mask: Pattern): Pattern { Plus(And(n, mask), And(Sar(n, w), mask)) }

  function Ones(n: Pattern): Pattern {
    Fold(Fold(Fold(Fold(Fold(n, 1, 0x5555_5555), 2, 0x3333_3333), 4, 0x0F0F_0F0F), 8, 0x00FF_00FF), 16, 0xFFFF)
  }

  function HowManyBits(p: Pattern): Pattern { Plus(Plus(32, Plus(Not(Ones(LeadingOnes(p))), 1)), 1) }

  // ---------------------------------------------------------------------------------------------
  // Bit lemmas
  // ---------------------------------------------------------------------------------------------

  predicate Bit(x: nat, i: nat) { if i == 0 then x % 2 == 1 else Bit(x / 2, i - 1) }

  lemma {:induction false} ShiftSmaller(x: nat, k: nat)
    ensures ShiftRight(x, k) <= x
    decreases k
  {
    if k > 0 { ShiftSmaller(x / 2, k - 1); }
  }

  lemma {:induction false} AndBound(x: nat, y: nat)
    ensures BitAnd(x, y) <= x && BitAnd(x, y) <= y
  {
    if x != 0 && y != 0 { AndBound(x / 2, y / 2); }
  }

  lemma {:induction false} OrBound(x: nat, y: nat, n: nat)
    requires x < Pow2(n) && y < Pow2(n)
    ensures BitOr(x, y) < Pow2(n)
    decreases n
  {
    if n > 0 { OrBound(x / 2, y / 2, n - 1); }
  }

  lemma {:induction false} BitShift(x: nat, k: nat, i: nat)
    ensures Bit(ShiftRight(x, k), i) == Bit(x, i + k)
    decreases k
  {
    if k > 0 { BitShift(x / 2, k - 1, i); }
  }

  lemma {:induction false} BitOfOr(x: nat, y: nat, i: nat)
    ensures Bit(BitOr(x, y), i) <==> Bit(x, i) || Bit(y, i)
    decreases i
  {
    hide BitOr;
    OrHalf(x, y);
    if i > 0 { BitOfOr(x / 2, y / 2, i - 1); }
  }

  lemma OrHalf(x: nat, y: nat)
    ensures BitOr(x, y) / 2 == BitOr(x / 2, y / 2) && (BitOr(x, y) % 2 == 1 <==> x % 2 == 1 || y % 2 == 1)
  {
  }

  /** De Morgan. */
  lemma {:induction false} AndOfNot(x: nat, y: nat, n: nat)
    requires x < Pow2(n) && y < Pow2(n)
    ensures BitAnd(Pow2(n) - 1 - x, Pow2(n) - 1 - y) == Pow2(n) - 1 - BitOr(x, y)
    decreases n
  {
    if n > 0 {
      AndOfNot(x / 2, y / 2, n - 1);
      NotHalf(x, n);
      NotHalf(y, n);
      OrBound(x, y, n);
    }
  }

  lemma NotHalf(x: nat, n: nat)
    requires n > 0 && x < Pow2(n)
    ensures x / 2 < Pow2(n - 1)
    ensures (Pow2(n) - 1 - x) / 2 == Pow2(n - 1) - 1 - x / 2 && (Pow2(n) - 1 - x) % 2 == 1 - x % 2
  {
  }

  // ---------------------------------------------------------------------------------------------
  // The smear
  // ---------------------------------------------------------------------------------------------

  /** Some bit of `x` from `i` on, before `i + m`, is set. */
  ghost predicate SomeBit(x: nat, i: nat, m: nat) {
    exists t: nat :: i <= t < i + m && Bit(x, t)
  }

  /** Every bit of `y` says whether one of the `m` bits of `x` from there on is set. */
  ghost predicate Smeared(x: nat, y: nat, m: nat) {
    forall i: nat {:trigger Bit(y, i)} :: Bit(y, i) <==> SomeBit(x, i, m)
  }

  lemma SmearStep(x: nat, y: nat, m: nat)
    requires Smeared(x, y, m)
    ensures Smeared(x, BitOr(y, ShiftRight(y, m)), 2 * m)
  {
    hide Bit, BitOr, ShiftRight;
    var z := BitOr(y, ShiftRight(y, m));
    forall i: nat
      ensures Bit(z, i) <==> SomeBit(x, i, 2 * m)
    {
      BitOfOr(y, ShiftRight(y, m), i);
      BitShift(y, m, i);
      if SomeBit(x, i, 2 * m) {
        var t: nat :| i <= t < i + 2 * m && Bit(x, t);
        assert SomeBit(x, i, m) || SomeBit(x, i + m, m);
      }
    }
  }

  lemma SmearStart(x: nat)
    ensures Smeared(x, x, 1)
  {
    hide Bit;
    forall i: nat
      ensures Bit(x, i) <==> SomeBit(x, i, 1)
    {
      assert i <= i < i + 1;
    }
  }

  /** The number of bits of `x`. */
  function Length(x: nat): nat { if x == 0 then 0 else 1 + Length(x / 2) }

  lemma {:induction false} LengthBounds(x: nat)
    ensures x < Pow2(Length(x)) && (x > 0 ==> Pow2(Length(x) - 1) <= x)
  {
    if x > 0 { LengthBounds(x / 2); }
  }

  lemma {:induction false} LengthAtMost(x: nat, n: nat)
    requires x < Pow2(n)
    ensures Length(x) <= n
    decreases n
  {
    if n > 0 && x > 0 { LengthAtMost(x / 2, n - 1); }
  }

  lemma {:induction false} TopBit(x: nat, i: nat)
    ensures Bit(x, i) ==> i < Length(x)
    ensures i + 1 == Length(x) ==> Bit(x, i)
    decreases i
  {
    if i > 0 { TopBit(x / 2, i - 1); } else if x > 1 { assert Length(x / 2) > 0; }
    if x == 0 { NoBit(i); }
  }

  lemma {:induction false} NoBit(i: nat)
    ensures !Bit(0, i)
  {
    if i > 0 { NoBit(i - 1); }
  }

  lemma {:induction false} AllOnes(y: nat, e: nat)
    requires forall i: nat {:trigger Bit(y, i)} :: Bit(y, i) <==> i < e
    ensures y == Pow2(e) - 1
    decreases y + e
  {
    assert Bit(y, 0) <==> 0 < e;
    if e > 0 {
      forall i: nat
        ensures Bit(y / 2, i) <==> i < e - 1
      {
        assert Bit(y, i + 1) == Bit(y / 2, i);
      }
      AllOnes(y / 2, e - 1);
    } else if y > 0 {
      TopBit(y, Length(y) - 1);
    }
  }

  function SmearBy(x: nat, k: nat): nat { BitOr(x, ShiftRight(x, k)) }

  /** After shifts by 1, 2, 4, 8 and 16 every bit below the highest is set. */
  lemma SmearAll(x: nat)
    requires x < TWO_32
    ensures SmearBy(SmearBy(SmearBy(SmearBy(SmearBy(x, 1), 2), 4), 8), 16) == Pow2(Length(x)) - 1
  {
    var y1 := SmearBy(x, 1);
    var y2 := SmearBy(y1, 2);
    var y3 := SmearBy(y2, 4);
    var y4 := SmearBy(y3, 8);
    var y5 := SmearBy(y4, 16);
    hide Bit, BitOr, ShiftRight, Pow2, Length, Smeared;
    SmearStart(x);
    SmearStep(x, x, 1);
    SmearStep(x, y1, 2);
    SmearStep(x, y2, 4);
    SmearStep(x, y3, 8);
    SmearStep(x, y4, 16);
    SmearedAll(x, y5);
  }

  lemma SmearedAll(x: nat, y: nat)
    requires x < TWO_32 && Smeared(x, y, 32)
    ensures y == Pow2(Length(x)) - 1
  {
    Pow2Of32();
    LengthAtMost(x, 32);
    hide Bit, Pow2, Length;
    var e := Length(x);
    forall i: nat
      ensures Bit(y, i) <==> i < e
    {
      if SomeBit(x, i, 32) {
        var t: nat :| i <= t < i + 32 && Bit(x, t);
        TopBit(x, t);
      }
      if i < e {
        TopBit(x, e - 1);
        assert i <= e - 1 < i + 32;
      }
    }
    AllOnes(y, e);
  }

  /** On a pattern with its sign bit set, a spread is a smear of the complement. */
  lemma SpreadIs(n: Pattern, k: nat)
    requires n >= TWO_31
    ensures Spread(n, k) == TWO_32 - 1 - SmearBy(Not(n), k) && SmearBy(Not(n), k) < TWO_31
  {
    hide Pow2, BitOr, BitAnd, ShiftRight;
    Pow2Of32();
    ShiftSmaller(Not(n), k);
    AndOfNot(Not(n), ShiftRight(Not(n), k), 32);
    OrBound(Not(n), ShiftRight(Not(n), k), 31);
  }

  /** What is smeared: the number itself, or its complement if it is negative. */
  function Away(x: Int32): nat { if x < 0 then -1 - x else x }

  lemma LeadingFormIs(x: Int32)
    ensures LeadingForm(Pat(x)) == TWO_32 - 1 - Away(x)
  {
    hide ShiftRight;
    var p := Pat(x);
    Pow2Of32();
    SignMask(x);
    AllAnd(p);
    AllAnd(Not(p));
    OrZero(p);
    OrZero(Not(p));
  }

  lemma SignMask(x: Int32)
    ensures Sar(Pat(x), 31) == if x < 0 then TWO_32 - 1 else 0
  {
    hide Pow2, ShiftRight;
    Pow2Of32();
    HighZero(Away(x), 31);
  }

  lemma HighZero(x: nat, n: nat)
    requires x < Pow2(n)
    ensures ShiftRight(x, n) == 0
    decreases n
  {
    if n > 0 { HighZero(x / 2, n - 1); }
  }

  lemma AllAnd(p: Pattern)
    ensures BitAnd(TWO_32 - 1, p) == p && BitAnd(0, p) == 0
  {
    hide Pow2;
    Pow2Of32();
    AndCommutes(TWO_32 - 1, p);
    AndMask(p, 32);
    SplitBits(p, 32);
    HighZero(p, 32);
  }

  lemma {:induction false} AndCommutes(x: nat, y: nat)
    ensures BitAnd(x, y) == BitAnd(y, x)
  {
    if x != 0 && y != 0 { AndCommutes(x / 2, y / 2); }
  }

  lemma LeadingOnesIs(x: Int32)
    ensures LeadingOnes(Pat(x)) == TWO_32 - Pow2(Length(Away(x)))
  {
    hide Spread, SmearBy, LeadingForm, Pow2, Length;
    LeadingFormIs(x);
    var n := LeadingForm(Pat(x));
    var n1 := Spread(n, 1);
    SpreadIs(n, 1);
    var n2 := Spread(n1, 2);
    SpreadIs(n1, 2);
    var n3 := Spread(n2, 4);
    SpreadIs(n2, 4);
    var n4 := Spread(n3, 8);
    SpreadIs(n3, 8);
    SpreadIs(n4, 16);
    SmearAll(Away(x));
  }

  // ---------------------------------------------------------------------------------------------
  // Counting ones in parallel
  // ---------------------------------------------------------------------------------------------

  /** The sum of the `k` lowest fields of `w` bits. */
  function Sum(n: nat, w: nat, k: nat): nat
    decreases k
  {
    if k == 0 then 0 else LowBits(n, w) + Sum(ShiftRight(n, w), w, k - 1)
  }

  /** `k` fields of `2 * w` bits, each the sum of two neighbours of `w` bits. */
  function Pairs(n: nat, w: nat, k: nat): nat
    decreases k
  {
    if k == 0 then 0
    else LowBits(n, w) + LowBits(ShiftRight(n, w), w) + Pow2(2 * w) * Pairs(ShiftRight(n, 2 * w), w, k - 1)
  }

  /** Ones in the lower half of each of `k` fields of `2 * w` bits. */
  function Mask(w: nat, k: nat): nat {
    if k == 0 then 0 else Pow2(w) - 1 + Pow2(2 * w) * Mask(w, k - 1)
  }

  lemma {:induction false} ShiftSplit(x: nat, u: nat, q: nat)
    requires x < Pow2(q)
    ensures ShiftRight(x + Pow2(q) * u, q) == u && LowBits(x + Pow2(q) * u, q) == x
    decreases q
  {
    if q > 0 {
      Doubles(x, Pow2(q - 1), u);
      ShiftSplit(x / 2, u, q - 1);
    }
  }

  lemma {:induction false} LowOfLow(x: nat, a: nat, b: nat)
    requires a <= b
    ensures LowBits(LowBits(x, b), a) == LowBits(x, a)
    decreases a
  {
    if a > 0 { LowOfLow(x / 2, a - 1, b - 1); }
  }

  /** Masking adds neighbouring fields without mixing them up. */
  lemma {:induction false} PairsIs(n: nat, w: nat, k: nat)
    requires w > 0
    ensures BitAnd(n, Mask(w, k)) + BitAnd(ShiftRight(n, w), Mask(w, k)) == Pairs(n, w, k)
    decreases k
  {
    hide Pow2, BitAnd, ShiftRight, LowBits;
    if k == 0 {
      AndZero(n);
      AndZero(ShiftRight(n, w));
    } else {
      PairsIs(ShiftRight(n, 2 * w), w, k - 1);
      MaskedLow(n, w, k);
      MaskedLow(ShiftRight(n, w), w, k);
      ShiftAdd(n, w, 2 * w);
      ShiftAdd(n, 2 * w, w);
      Distribute(Pow2(2 * w), BitAnd(ShiftRight(n, 2 * w), Mask(w, k - 1)),
                 BitAnd(ShiftRight(n, 3 * w), Mask(w, k - 1)));
    }
  }

  lemma Distribute(p: nat, b: nat, c: nat)
    ensures p * b + p * c == p * (b + c)
  {
  }

  lemma AndZero(x: nat)
    ensures BitAnd(x, 0) == 0
  {
  }

  lemma MaskedLow(n: nat, w: nat, k: nat)
    requires w > 0 && k > 0
    ensures BitAnd(n, Mask(w, k)) == LowBits(n, w) + Pow2(2 * w) * BitAnd(ShiftRight(n, 2 * w), Mask(w, k - 1))
  {
    hide Pow2, BitAnd, ShiftRight, LowBits;
    SplitBits(n, 2 * w);
    MaskBelow(w);
    AndSplit(LowBits(n, 2 * w), ShiftRight(n, 2 * w), Pow2(w) - 1, Mask(w, k - 1), 2 * w);
    AndMask(LowBits(n, 2 * w), w);
    LowOfLow(n, w, 2 * w);
  }

  /** Two fields of `w` bits add up to fewer than `2 * w` bits. */
  lemma MaskBelow(w: nat)
    requires w > 0
    ensures 2 * (Pow2(w) - 1) < Pow2(2 * w)
  {
    Pow2Monotone(w + 1, 2 * w);
  }

  /** Adding neighbours keeps the sum of the fields. */
  lemma {:induction false} PairsSum(n: nat, w: nat, k: nat)
    requires w > 0
    ensures Sum(Pairs(n, w, k), 2 * w, k) == Sum(n, w, 2 * k)
    decreases k
  {
    hide Pow2, ShiftRight, LowBits;
    if k > 0 {
      var pair := LowBits(n, w) + LowBits(ShiftRight(n, w), w);
      SplitBits(n, w);
      SplitBits(ShiftRight(n, w), w);
      MaskBelow(w);
      ShiftSplit(pair, Pairs(ShiftRight(n, 2 * w), w, k - 1), 2 * w);
      PairsSum(ShiftRight(n, 2 * w), w, k - 1);
      ShiftAdd(n, w, w);
      assert Sum(n, w, 2 * k) == LowBits(n, w) + Sum(ShiftRight(n, w), w, 2 * k - 1);
    }
  }

  lemma {:induction false} PairsBound(n: nat, w: nat, k: nat)
    requires w > 0
    ensures Pairs(n, w, k) < Pow2(2 * w * k)
    decreases k
  {
    hide Pow2, ShiftRight, LowBits;
    if k > 0 {
      var rest := Pairs(ShiftRight(n, 2 * w), w, k - 1);
      PairsBound(ShiftRight(n, 2 * w), w, k - 1);
      SplitBits(n, w);
      SplitBits(ShiftRight(n, w), w);
      MaskBelow(w);
      assert 2 * w * k == 2 * w + 2 * w * (k - 1);
      Pow2Add(2 * w, 2 * w * (k - 1));
      Within(Pairs(n, w, k) - Pow2(2 * w) * rest, Pow2(2 * w), rest, Pow2(2 * w * (k - 1)));
    } else {
      Pow2Zero();
    }
  }

  lemma {:induction false} Within(x: nat, p: nat, u: nat, q: nat)
    requires x < p && u < q
    ensures x + p * u < p * q
    decreases q
  {
    if u < q - 1 { Within(x, p, u, q - 1); }
    assert p * q == p * (q - 1) + p;
  }

  // ---------------------------------------------------------------------------------------------
  // The width
  // ---------------------------------------------------------------------------------------------

  /** The masked upper fields are those of the logical shift: the mask drops the copied signs. */
  lemma MaskedSar(p: Pattern, w: nat, mask: Pattern)
    requires 0 < w <= 16 && mask < Pow2(32 - w)
    ensures And(Sar(p, w), mask) == BitAnd(ShiftRight(p, w), mask)
  {
    hide Pow2, BitAnd, ShiftRight;
    if p >= TWO_31 {
      SarParts(p, w);
      AndSplit(ShiftRight(p, w), Pow2(w) - 1, mask, 0, 32 - w);
      AndZero(Pow2(w) - 1);
    }
  }

  lemma SarParts(p: Pattern, w: nat)
    requires 0 < w <= 16 && p >= TWO_31
    ensures ShiftRight(p, w) < Pow2(32 - w)
    ensures Sar(p, w) == ShiftRight(p, w) + Pow2(32 - w) * (Pow2(w) - 1)
  {
    hide Pow2, ShiftRight;
    Pow2Of32();
    SplitBits(p, w);
    Pow2Add(w, 32 - w);
    var h, l, s, t := ShiftRight(p, w), LowBits(p, w), Pow2(w), Pow2(32 - w);
    Quotient(l, s, h, t);
    NotParts(l, s, h, t);
    ShiftSplit(s - 1 - l, t - 1 - h, w);
    Distribute2(t, s);
  }

  lemma {:induction false} Quotient(l: nat, s: nat, h: nat, t: nat)
    requires l < s && l + s * h < s * t
    ensures h < t
  {
    if h >= t { Grows(s, t, h); }
  }

  lemma Grows(s: nat, t: nat, h: nat)
    requires t <= h
    ensures s * t <= s * h
  {
    assert s * h - s * t == s * (h - t);
  }

  lemma NotParts(l: nat, s: nat, h: nat, t: nat)
    requires l < s && h < t
    ensures s * t - 1 - (l + s * h) == (s - 1 - l) + s * (t - 1 - h)
  {
  }

  lemma Distribute2(t: nat, s: nat)
    requires s > 0
    ensures t * (s - 1) == s * t - t
  {
  }

  /** One stage of the count, with the mask for its fields. */
  lemma FoldIs(n: Pattern, w: nat, k: nat, mask: Pattern)
    requires 0 < w <= 16 && 2 * w * k == 32 && mask == Mask(w, k) && mask < Pow2(32 - w)
    ensures Fold(n, w, mask) == Pairs(n, w, k)
    ensures Sum(Fold(n, w, mask), 2 * w, k) == Sum(n, w, 2 * k)
  {
    hide Pow2, BitAnd, ShiftRight, Mask, Pairs, Sum;
    Pow2Of32();
    MaskedSar(n, w, mask);
    PairsIs(n, w, k);
    PairsBound(n, w, k);
    PairsSum(n, w, k);
  }

  lemma Masks()
    ensures Mask(1, 16) == 0x5555_5555 < Pow2(31)
    ensures Mask(2, 8) == 0x3333_3333 < Pow2(30)
    ensures Mask(4, 4) == 0x0F0F_0F0F < Pow2(28)
    ensures Mask(8, 2) == 0x00FF_00FF < Pow2(24)
    ensures Mask(16, 1) == 0xFFFF < Pow2(16)
  {
    SmallPowers();
    hide Pow2;
    assert Mask(1, 4) == 0x55;
    assert Mask(1, 8) == 0x5555;
    assert Mask(1, 12) == 0x55_5555;
    assert Mask(2, 4) == 0x3333;
    assert Mask(4, 2) == 0x0F0F;
  }

  lemma SmallPowers()
    ensures Pow2(1) == 2 && Pow2(2) == 4 && Pow2(4) == 16 && Pow2(8) == 256 && Pow2(16) == 0x1_0000
    ensures Pow2(24) == 0x100_0000 && Pow2(28) == 0x1000_0000 && Pow2(30) == 0x4000_0000 && Pow2(31) == TWO_31
  {
    Pow2Of32();
    assert Pow2(20) == 0x10_0000;
    assert Pow2(24) == 0x100_0000;
  }

  /** The five stages count the ones of any pattern. */
  lemma OnesIs(n: Pattern)
    ensures Ones(n) == Sum(n, 1, 32)
  {
    hide Fold, Mask, Pow2, Sum, Pairs;
    var n1 := Fold(n, 1, 0x5555_5555);
    var n2 := Fold(n1, 2, 0x3333_3333);
    var n3 := Fold(n2, 4, 0x0F0F_0F0F);
    var n4 := Fold(n3, 8, 0x00FF_00FF);
    Masks();
    FoldIs(n, 1, 16, 0x5555_5555);
    FoldIs(n1, 2, 8, 0x3333_3333);
    FoldIs(n2, 4, 4, 0x0F0F_0F0F);
    FoldIs(n3, 8, 2, 0x00FF_00FF);
    FoldIs(n4, 16, 1, 0xFFFF);
    WholeField(Fold(n4, 16, 0xFFFF));
  }

  lemma WholeField(n: Pattern)
    ensures Sum(n, 32, 1) == n
  {
    hide Pow2, LowBits, ShiftRight;
    Pow2Of32();
    SplitBits(n, 32);
    HighZero(n, 32);
  }

  /** `2^k - 2^e` has ones exactly from bit `e` to bit `k - 1`. */
  lemma {:induction false} OnesBetween(e: nat, k: nat)
    requires e <= k
    ensures Pow2(e) <= Pow2(k) && Sum(Pow2(k) - Pow2(e), 1, k) == k - e
    decreases k
  {
    hide Sum;
    Pow2Monotone(e, k);
    if k == 0 {
      NoFields(Pow2(k) - Pow2(e));
    } else {
      SumBit(Pow2(k) - Pow2(e), k);
      OnesBetween(if e > 0 then e - 1 else 0, k - 1);
    }
  }

  lemma NoFields(n: nat)
    ensures Sum(n, 1, 0) == 0
  {
  }

  lemma SumBit(n: nat, k: nat)
    requires k > 0
    ensures Sum(n, 1, k) == n % 2 + Sum(n / 2, 1, k - 1)
  {
    assert LowBits(n, 1) == n % 2 && ShiftRight(n, 1) == n / 2;
  }

  /** `x` is a two's-complement number of `width` bits. */
  predicate Fits(x: int, width: nat)
    requires width > 0
  {
    0 - Pow2(width - 1) <= x < Pow2(width - 1)
  }

  lemma SomeLength(x: nat)
    ensures Length(x) > 0 <==> x > 0
  {
  }

  lemma AnswerIs(x: Int32)
    ensures Length(Away(x)) <= 31 && HowManyBits(Pat(x)) == Length(Away(x)) + 1
  {
    hide LeadingOnes, Ones, Length, Pow2, Sum, HowManyBits;
    Pow2Of32();
    LengthAtMost(Away(x), 31);
    LeadingOnesIs(x);
    OnesIs(LeadingOnes(Pat(x)));
    OnesBetween(Length(Away(x)), 32);
    LeastWidth(Pat(x), Length(Away(x)));
  }

  lemma LeastWidth(p: Pattern, e: nat)
    requires e <= 31 && Ones(LeadingOnes(p)) == 32 - e
    ensures HowManyBits(p) == e + 1
  {
    hide LeadingOnes, Ones;
  }

  lemma FitsIff(x: Int32, width: nat)
    requires width > 0
    ensures Fits(x, width) <==> width > Length(Away(x))
  {
    hide Length, Pow2;
    var e := Length(Away(x));
    LengthBounds(Away(x));
    if width > e {
      Pow2Monotone(e, width - 1);
    } else {
      Pow2Monotone(width - 1, e - 1);
      SomeLength(Away(x));
    }
  }

  /** The answer is the least width in which the number fits. */
  lemma HowManyBitsIsLeast(x: Int32)
    ensures 1 <= HowManyBits(Pat(x)) <= 32
    ensures forall width: nat {:trigger Fits(x, width)} :: width > 0 ==>
      (Fits(x, width) <==> width >= HowManyBits(Pat(x)))
  {
    hide Length, Fits, HowManyBits, Away;
    AnswerIs(x);
    forall width: nat | width > 0
      ensures Fits(x, width) <==> width > Length(Away(x))
    {
      FitsIff(x, width);
    }
  }
}
