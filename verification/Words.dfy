/** The 64-bit two's-complement words of the Y86-64 machine, as mathematical integers. */
module Words {

  const TWO_63: int := 0x8000_0000_0000_0000
  const TWO_64: int := 0x1_0000_0000_0000_0000

  type Word = x: int | -0x8000_0000_0000_0000 <= x < 0x8000_0000_0000_0000 witness 0
  type Byte = x: int | 0 <= x < 256 witness 0

  /** The value a 64-bit register holds after an operation whose true result is `x`. */
  function Wrap(x: int): (w: Word)
    ensures -TWO_63 <= x < TWO_63 ==> w == x
  {
    (x + TWO_63) % TWO_64 - TWO_63
  }

  function Unsigned(w: Word): nat { w % TWO_64 }

  lemma WrapUnsigned(w: Word)
    ensures Wrap(Unsigned(w)) == w
  {
  }

  lemma WrapAdd(a: int, b: int)
    ensures Wrap(Wrap(a) + b) == Wrap(a + b)
  {
    var q := (a + TWO_63) / TWO_64;
    assert Wrap(a) == a - q * TWO_64;
    var r := (a + b + TWO_63) / TWO_64;
    ModShift(a + b + TWO_63, q);
  }

  lemma ModShift(x: int, q: int)
    ensures (x - q * TWO_64) % TWO_64 == x % TWO_64
  {
    var d, r := x / TWO_64, x % TWO_64;
    assert x - q * TWO_64 == (d - q) * TWO_64 + r;
    ModUnique(x - q * TWO_64, d - q, r);
  }

  lemma ModUnique(x: int, q: int, r: int)
    requires x == q * TWO_64 + r && 0 <= r < TWO_64
    ensures x % TWO_64 == r && x / TWO_64 == q
  {
  }

  // Bitwise operations, bit by bit from the low end.

  function BitAnd(x: nat, y: nat): nat {
    if x == 0 || y == 0 then 0 else (x % 2) * (y % 2) + 2 * BitAnd(x / 2, y / 2)
  }

  function BitXor(x: nat, y: nat): nat
    decreases x + y
  {
    if x == 0 && y == 0 then 0 else (if x % 2 == y % 2 then 0 else 1) + 2 * BitXor(x / 2, y / 2)
  }

  lemma {:induction false} BitAndSelf(x: nat)
    ensures BitAnd(x, x) == x
  {
    if x != 0 { BitAndSelf(x / 2); }
  }

  lemma {:induction false} BitXorSelf(x: nat)
    ensures BitXor(x, x) == 0
  {
    if x != 0 { BitXorSelf(x / 2); }
  }

  function And64(a: Word, b: Word): Word { Wrap(BitAnd(Unsigned(a), Unsigned(b))) }

  function Xor64(a: Word, b: Word): Word { Wrap(BitXor(Unsigned(a), Unsigned(b))) }

  lemma And64Self(a: Word)
    ensures And64(a, a) == a
  {
    BitAndSelf(Unsigned(a));
    WrapUnsigned(a);
  }

  lemma Xor64Self(a: Word)
    ensures Xor64(a, a) == 0
  {
    BitXorSelf(Unsigned(a));
  }
}
