/** What the four operations of the ALU compute, in integers and in single bits, and what its flags say. */
module Alu {
  import opened Words
  import opened Bits
  import opened Isa

  /** Bit `i` of a word in two's complement. */
  predicate BitOf(x: Word, i: nat) { Unsigned(x) / Pow2(i) % 2 == 1 }

  lemma {:induction false} AndBit(x: nat, y: nat, i: nat)
    ensures BitAnd(x, y) / Pow2(i) % 2 == 1 <==> x / Pow2(i) % 2 == 1 && y / Pow2(i) % 2 == 1
    decreases i
  {
    AndHalf(x, y);
    if i > 0 {
      AndBit(x / 2, y / 2, i - 1);
      HalfDiv(x, i);
      HalfDiv(y, i);
      HalfDiv(BitAnd(x, y), i);
    }
  }

  lemma {:induction false} XorBit(x: nat, y: nat, i: nat)
    ensures BitXor(x, y) / Pow2(i) % 2 == 1 <==> (x / Pow2(i) % 2 == 1) != (y / Pow2(i) % 2 == 1)
    decreases i
  {
    XorHalf(x, y);
    if i > 0 {
      XorBit(x / 2, y / 2, i - 1);
      HalfDiv(x, i);
      HalfDiv(y, i);
      HalfDiv(BitXor(x, y), i);
    }
  }

  lemma AndHalf(x: nat, y: nat)
    ensures BitAnd(x, y) / 2 == BitAnd(x / 2, y / 2)
    ensures BitAnd(x, y) % 2 == 1 <==> x % 2 == 1 && y % 2 == 1
  {
    if x != 0 && y != 0 { OddProduct(x % 2, y % 2, BitAnd(x / 2, y / 2)); }
  }

  lemma OddProduct(p: nat, q: nat, rest: nat)
    requires p < 2 && q < 2
    ensures (p * q + 2 * rest) / 2 == rest
    ensures (p * q + 2 * rest) % 2 == 1 <==> p == 1 && q == 1
  {
    if p == 0 { assert p * q == 0; } else { assert p * q == q; }
  }

  lemma XorHalf(x: nat, y: nat)
    ensures BitXor(x, y) / 2 == BitXor(x / 2, y / 2)
    ensures BitXor(x, y) % 2 == 1 <==> (x % 2 == 1) != (y % 2 == 1)
  {
  }

  lemma HalfDiv(x: nat, i: nat)
    requires i > 0
    ensures x / Pow2(i) == x / 2 / Pow2(i - 1)
  {
    DivDiv(x, Pow2(i - 1));
  }

  lemma DivDiv(x: nat, p: nat)
    requires p > 0
    ensures x / (2 * p) == x / 2 / p
  {
    var q, r := x / 2 / p, x / 2 % p;
    assert x / 2 == p * q + r;
    assert x == 2 * p * q + (2 * r + x % 2);
    DivUnique(x, 2 * p, q, 2 * r + x % 2);
  }

  lemma {:induction false} AndBelow(x: nat, y: nat)
    ensures BitAnd(x, y) <= x
  {
    if x != 0 && y != 0 { AndBelow(x / 2, y / 2); }
  }

  lemma {:induction false} XorBelow(x: nat, y: nat, n: nat)
    requires x < Pow2(n) && y < Pow2(n)
    ensures BitXor(x, y) < Pow2(n)
    decreases n
  {
    if n > 0 { XorBelow(x / 2, y / 2, n - 1); }
  }

  /** `andq` and `xorq` work bit by bit. */
  lemma LogicBits(a: Word, b: Word, i: nat)
    ensures BitOf(ComputeAlu(A_AND, a, b), i) <==> BitOf(a, i) && BitOf(b, i)
    ensures BitOf(ComputeAlu(A_XOR, a, b), i) <==> BitOf(a, i) != BitOf(b, i)
  {
    hide BitAnd, BitXor, Pow2;
    var x, y := Unsigned(a), Unsigned(b);
    AndBelow(x, y);
    Pow2Of64();
    XorBelow(x, y, 64);
    assert Unsigned(ComputeAlu(A_AND, a, b)) == BitAnd(x, y);
    assert Unsigned(ComputeAlu(A_XOR, a, b)) == BitXor(x, y);
    AndBit(x, y, i);
    XorBit(x, y, i);
  }

  /** A word is determined by its sixty-four bits. */
  lemma BitsDetermine(a: Word, b: Word)
    requires forall i: nat {:trigger BitOf(a, i)} :: i < 64 ==> BitOf(a, i) == BitOf(b, i)
    ensures a == b
  {
    hide Pow2;
    Pow2Of64();
    forall i: nat | i < 64
      ensures Unsigned(a) / Pow2(i) % 2 == Unsigned(b) / Pow2(i) % 2
    {
      assert BitOf(a, i) == BitOf(b, i);
    }
    SameBits(Unsigned(a), Unsigned(b), 64);
    WrapUnsigned(a);
    WrapUnsigned(b);
  }

  lemma {:induction false} SameBits(x: nat, y: nat, n: nat)
    requires x < Pow2(n) && y < Pow2(n)
    requires forall i: nat {:trigger Pow2(i)} :: i < n ==> x / Pow2(i) % 2 == y / Pow2(i) % 2
    ensures x == y
    decreases n
  {
    if n > 0 {
      forall i: nat | i < n - 1
        ensures x / 2 / Pow2(i) % 2 == y / 2 / Pow2(i) % 2
      {
        HalfDiv(x, i + 1);
        HalfDiv(y, i + 1);
      }
      SameBits(x / 2, y / 2, n - 1);
      assert x / Pow2(0) % 2 == y / Pow2(0) % 2;
    }
  }

  /** `addq` and `subq` are exact modulo 2^64, and any other operation answers zero. */
  lemma SumsModulo(a: Word, b: Word, op: nat)
    ensures (ComputeAlu(A_ADD, a, b) - (a + b)) % TWO_64 == 0
    ensures (ComputeAlu(A_SUB, a, b) - (b - a)) % TWO_64 == 0
    ensures op > 3 ==> ComputeAlu(op, a, b) == 0
  {
  }

  /** The flags one by one: zero, negative, and overflow of the true sum or difference. */
  lemma FlagsSay(op: nat, a: Word, b: Word)
    ensures var (cc, result) := (ComputeCc(op, a, b), ComputeAlu(op, a, b));
            && (cc.zf <==> result == 0)
            && (cc.sf <==> result < 0)
            && (cc.of <==>
                  || (op == A_ADD && !(-TWO_63 <= a + b < TWO_63))
                  || (op == A_SUB && !(-TWO_63 <= b - a < TWO_63)))
  {
    hide And64, Xor64;
  }
}
