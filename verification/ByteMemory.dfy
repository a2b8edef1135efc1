/**
  Byte-addressed memory: `get_byte_val`, `get_word_val` and `set_word_val` of the simulators, first
  as functions on byte sequences, then as the loops of the original working on an array.
*/
module ByteMemory {
  import opened Lists
  import opened Words

  type Bytes = seq<Byte>

  /** Little-endian value of a byte string. */
  function FromBytes(bs: Bytes): nat {
    if bs == [] then 0 else bs[0] + 256 * FromBytes(bs[1..])
  }

  /** The `n` low bytes of `v`, lowest first. */
  function ToBytes(v: int, n: nat): (bs: Bytes)
    ensures |bs| == n
    decreases n
  {
    if n == 0 then [] else [v % 256] + ToBytes(v / 256, n - 1)
  }

  function Pow256(n: nat): nat {
    if n == 0 then 1 else 256 * Pow256(n - 1)
  }

  lemma {:induction false} FromToBytes(v: int, n: nat)
    ensures Pow256(n) > 0 && FromBytes(ToBytes(v, n)) == v % Pow256(n)
    decreases n
  {
    if n > 0 {
      FromToBytes(v / 256, n - 1);
      var bs := ToBytes(v, n);
      assert bs[1..] == ToBytes(v / 256, n - 1);
      var p := Pow256(n - 1);
      DivMod(v, p);
    }
  }

  lemma DivMod(v: int, p: nat)
    requires p > 0
    ensures v % (256 * p) == v % 256 + 256 * ((v / 256) % p)
  {
    var q, r := (v / 256) / p, (v / 256) % p;
    assert v / 256 == q * p + r;
    assert v == 256 * (q * p + r) + v % 256;
    assert v == q * (256 * p) + (256 * r + v % 256);
    assert 0 <= 256 * r + v % 256 < 256 * p;
    ModUnique2(v, 256 * p, q, 256 * r + v % 256);
  }

  /** Byte `k` is `(v >> 8 * k) & 0xFF`: the lowest comes first. */
  lemma {:induction false} ToBytesAt(v: int, n: nat, k: nat)
    requires k < n
    ensures Pow256(k) > 0 && ToBytes(v, n)[k] == v / Pow256(k) % 256
    decreases k
  {
    if k > 0 {
      ToBytesAt(v / 256, n - 1, k - 1);
      DivTwice(v, Pow256(k - 1));
    }
  }

  lemma DivTwice(v: int, p: nat)
    requires p > 0
    ensures v / 256 / p == v / (256 * p)
  {
    var q, r := (v / 256) / p, (v / 256) % p;
    assert v / 256 == q * p + r;
    assert v == q * (256 * p) + (256 * r + v % 256);
    ModUnique2(v, 256 * p, q, 256 * r + v % 256);
  }

  lemma MulAtLeast(k: int, d: nat)
    requires k >= 1
    ensures k * d >= d
  {
    assert k * d == d + (k - 1) * d;
  }

  lemma ModUnique2(v: int, d: nat, q: int, r: int)
    requires d > 0 && v == q * d + r && 0 <= r < d
    ensures v % d == r
  {
    var q', r' := v / d, v % d;
    assert (q - q') * d == r' - r by { assert v == q' * d + r'; }
    if q > q' { MulAtLeast(q - q', d); }
    assert (q' - q) * d == r - r';
    if q < q' { MulAtLeast(q' - q, d); }
  }

  lemma Pow256Is64()
    ensures Pow256(8) == TWO_64
  {
    assert Pow256(4) == 0x1_0000_0000;
  }

  predicate WordInside(m: Bytes, pos: int) { 0 <= pos && pos + 8 <= |m| }

  function GetByte(m: Bytes, pos: int): Option<Byte> {
    if 0 <= pos < |m| then Some(m[pos]) else None
  }

  function WordAt(m: Bytes, pos: int): Word
    requires WordInside(m, pos)
  {
    Wrap(FromBytes(m[pos..pos + 8]))
  }

  function GetWord(m: Bytes, pos: int): Option<Word> {
    if WordInside(m, pos) then Some(WordAt(m, pos)) else None
  }

  function PutWord(m: Bytes, pos: int, v: Word): (m': Bytes)
    requires WordInside(m, pos)
    ensures |m'| == |m|
  {
    m[..pos] + ToBytes(v, 8) + m[pos + 8..]
  }

  lemma WordRoundTrip(v: Word)
    ensures Wrap(FromBytes(ToBytes(v, 8))) == v
  {
    FromToBytes(v, 8);
    Pow256Is64();
    WrapUnsigned(v);
  }

  /** Reading back what was written. */
  lemma ReadBack(m: Bytes, pos: int, v: Word)
    requires WordInside(m, pos)
    ensures WordAt(PutWord(m, pos, v), pos) == v
  {
    assert PutWord(m, pos, v)[pos..pos + 8] == ToBytes(v, 8);
    WordRoundTrip(v);
  }

  /** Bytes outside the written word are as before. */
  lemma PutFrame(m: Bytes, pos: int, v: Word, lo: int, hi: int)
    requires WordInside(m, pos) && 0 <= lo <= hi <= |m| && (hi <= pos || pos + 8 <= lo)
    ensures PutWord(m, pos, v)[lo..hi] == m[lo..hi]
  {
  }

  lemma ReadOther(m: Bytes, pos: int, v: Word, at: int)
    requires WordInside(m, pos) && WordInside(m, at) && (at + 8 <= pos || pos + 8 <= at)
    ensures WordAt(PutWord(m, pos, v), at) == WordAt(m, at)
  {
    PutFrame(m, pos, v, at, at + 8);
  }

  // The loops of the original.

  method GetWordVal(m: array<Byte>, pos: int) returns (ok: bool, dest: Word)
    ensures ok == WordInside(m[..], pos)
    ensures ok ==> dest == WordAt(m[..], pos)
  {
    if pos < 0 || pos + 8 > m.Length {
      return false, 0;
    }
    var val: int, shift: int := 0, 1;
    for i := 0 to 8
      invariant val == FromBytes(m[pos..pos + i]) && shift == Pow256(i)
    {
      FromBytesSnoc(m[pos..pos + i], m[pos + i]);
      assert m[pos..pos + i + 1] == m[pos..pos + i] + [m[pos + i]];
      val, shift := val + m[pos + i] * shift, shift * 256;
    }
    return true, Wrap(val);
  }

  lemma {:induction false} FromBytesSnoc(bs: Bytes, b: Byte)
    ensures FromBytes(bs + [b]) == FromBytes(bs) + b * Pow256(|bs|)
  {
    if bs == [] {
      assert ([] + [b])[1..] == [];
    } else {
      FromBytesSnoc(bs[1..], b);
      assert (bs + [b])[1..] == bs[1..] + [b];
      var p := Pow256(|bs| - 1);
      assert 256 * (b * p) == b * (256 * p);
    }
  }

  /** `bytes` with the `n` low bytes of `v` from `pos` on. */
  function PutBytes(bytes: Bytes, pos: nat, v: int, n: nat): (r: Bytes)
    requires pos + n <= |bytes|
    ensures |r| == |bytes|
  {
    Splice(bytes, pos, ToBytes(v, n))
  }

  /** The storing loop of `set_word_val` and of the assembler's `get_num`: lowest byte first. */
  method StoreBytes(m: array<Byte>, pos: nat, v: int, n: nat)
    requires pos + n <= m.Length
    modifies m
    ensures m[..] == PutBytes(old(m[..]), pos, v, n)
  {
    hide ToBytes;
    var val := v;
    ghost var m0: Bytes, done: Bytes := m[..], [];
    for i := 0 to n
      invariant |done| == i && done + ToBytes(val, n - i) == ToBytes(v, n)
      invariant m[..] == m0[..pos] + done + m0[pos + i..]
    {
      ghost var rest := ToBytes(val / 256, n - i - 1);
      ToBytesHead(val, n - i);
      var low: Byte := val % 256;
      PutNext(m0, pos, done, low);
      m[pos + i] := low;
      assert done + ([low] + rest) == (done + [low]) + rest;
      done := done + [low];
      val := val / 256;
    }
    assert done + ToBytes(val, 0) == done;
  }

  lemma PutNext(m: Bytes, pos: nat, done: Bytes, b: Byte)
    requires pos + |done| < |m|
    ensures (m[..pos] + done + m[pos + |done|..])[pos + |done| := b]
         == m[..pos] + (done + [b]) + m[pos + |done| + 1..]
  {
  }

  method SetWordVal(m: array<Byte>, pos: int, v: Word) returns (ok: bool)
    modifies m
    ensures ok == WordInside(old(m[..]), pos)
    ensures m[..] == if ok then PutWord(old(m[..]), pos, v) else old(m[..])
  {
    hide ToBytes;
    if pos < 0 || pos + 8 > m.Length {
      return false;
    }
    StoreBytes(m, pos, v, 8);
    return true;
  }

  lemma ToBytesHead(v: int, n: nat)
    requires n > 0
    ensures ToBytes(v, n) == [v % 256] + ToBytes(v / 256, n - 1)
  {
  }
}
