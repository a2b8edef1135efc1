/**
  The size arithmetic of `mm_malloc`, in the machine's widths: `size_t` wraps at 64 bits, and the
  adjusted size is stored in a 32-bit `int`.
*/
module Requests {

  const TWO_31: nat := 0x8000_0000
  const TWO_32: nat := 0x1_0000_0000
  const TWO_63: nat := 0x8000_0000_0000_0000
  const TWO_64: nat := 0x1_0000_0000_0000_0000
  const MAX_REQUEST: nat := 0x7FFF_FFF0

  function Align(x: nat): nat { (x + 7) % TWO_64 / 8 * 8 }

  function ToInt32(x: nat): int {
    var y := x % TWO_32;
    if y >= 0x8000_0000 then y - TWO_32 else y
  }

  /** MAX(ALIGN(size + SIZE_T_SIZE), 2 * PTR_SIZE + 2 * SIZE_T_SIZE), as a size_t. */
  function BlockSize(size: nat): nat {
    var aligned := Align((size + 8) % TWO_64);
    if aligned >= 32 then aligned else 32
  }

  /** The same after the assignment to `int asize`. */
  function MallocSize(size: nat): int { ToInt32(BlockSize(size)) }

  /** The block has room for the header and the request exactly for requests up to `MAX_REQUEST`. */
  lemma MallocSizeIffSmall(size: nat)
    requires size < TWO_64
    ensures MallocSize(size) >= size + 8 <==> size <= MAX_REQUEST
  {
    if size <= MAX_REQUEST {
      assert (size + 8) % TWO_64 == size + 8;
      assert (size + 15) % TWO_64 == size + 15;
      assert BlockSize(size) < 0x8000_0000;
    } else {
      assert BlockSize(size) % 8 == 0;
      AlignedBelow(BlockSize(size));
    }
  }

  lemma AlignedBelow(x: nat)
    requires x % 8 == 0
    ensures ToInt32(x) <= 0x7FFF_FFF8
  {
    assert x % TWO_32 % 8 == 0;
  }

  /** A request of four gigabytes is served with an eight-byte block. */
  lemma LargeRequestShrinks()
    ensures MallocSize(TWO_32) == 8
  {
    assert Align(TWO_32 + 8) == TWO_32 + 8;
  }

  /** A small request's block, in words: at least the minimum, and never a word more than needed. */
  lemma SmallRequest(size: nat)
    requires size <= MAX_REQUEST
    ensures MallocSize(size) == BlockSize(size) && MallocSize(size) % 8 == 0 && MallocSize(size) / 8 >= 4
    ensures size <= MallocSize(size) - 8
    ensures MallocSize(size) > 32 ==> MallocSize(size) - 8 < size + 8
  {
    assert (size + 8) % TWO_64 == size + 8;
    assert (size + 15) % TWO_64 == size + 15;
  }

  /** When a block of `words` words is too small for `size` bytes, the doubled request has room for
      its whole payload: the copy of `mm_realloc` fits both blocks. */
  lemma DoubledRoom(size: nat, words: nat)
    requires 0 < size * 2 <= MAX_REQUEST && words >= 4 && BlockSize(size) / 8 > words
    ensures MallocSize(size * 2) / 8 >= words
  {
    SmallRequest(size * 2);
    assert (size + 8) % TWO_64 == size + 8;
    assert (size + 15) % TWO_64 == size + 15;
  }

  ghost predicate DoubledCovers(size: nat, bytes: nat) {
    MallocSize(size * 2 % TWO_64) >= bytes
  }

  /** Exactly when the block for the doubled request covers what `mm_realloc` copies out of a block of
      `bytes` bytes, for every `size_t`.  Up to 0x3FFFFFF8 it always does; from there to 2^31 it never
      does; beyond, the doubling has lost its upper bits. */
  lemma DoubledCoversIff(size: nat, bytes: nat)
    requires size < TWO_64 && bytes % 8 == 0 && 32 <= bytes < BlockSize(size)
    ensures DoubledCovers(size, bytes) <==>
            || (size % TWO_31 * 2 <= MAX_REQUEST && bytes <= size % TWO_31 * 2 + 15)
            || (bytes == 32 && TWO_63 - 7 <= size <= TWO_63 + 12)
  {
    hide BlockSize, ToInt32;
    BlockOf(size);
    if TWO_63 - 7 <= size <= TWO_63 + 12 {
      DoubledTiny(size);
    } else {
      DoubledLow(size);
      RoundedDown(size % TWO_31 * 2 + 15, bytes);
    }
  }

  lemma RoundedDown(y: nat, bytes: nat)
    requires bytes % 8 == 0 && y < TWO_32 + 15
    ensures bytes <= y <==> bytes <= y / 8 * 8
    ensures y / 8 * 8 - TWO_32 < 32
  {
  }

  lemma DoubledTiny(size: nat)
    requires TWO_63 - 7 <= size <= TWO_63 + 12
    ensures MallocSize(size * 2 % TWO_64) == 32
    ensures size % TWO_31 * 2 <= MAX_REQUEST ==> size % TWO_31 <= 12
  {
    hide BlockSize;
    TinyParts(size);
    BlockOf(size * 2 % TWO_64);
  }

  lemma TinyParts(size: nat)
    requires TWO_63 - 7 <= size <= TWO_63 + 12
    ensures size * 2 % TWO_64 <= 24 || size * 2 % TWO_64 + 15 >= TWO_64
    ensures size % TWO_31 == size - TWO_63 + (if size < TWO_63 then TWO_31 else 0)
  {
  }

  /** The doubled request in terms of the size's lower 31 bits. */
  lemma DoubledLow(size: nat)
    requires 25 <= size < TWO_64 - 15 && !(TWO_63 - 7 <= size <= TWO_63 + 12)
    ensures var y := size % TWO_31 * 2 + 15;
            MallocSize(size * 2 % TWO_64) == y / 8 * 8 - (if size % TWO_31 * 2 <= MAX_REQUEST then 0 else TWO_32)
  {
    hide BlockSize, ToInt32;
    var low, d := size % TWO_31, size * 2 % TWO_64;
    var k := DoubledParts(size);
    BlockOf(d);
    WholeWords(low * 2 + 15, k);
    Narrowed((low * 2 + 15) / 8 * 8, k);
    BoundOf(low);
  }

  lemma BoundOf(low: nat)
    requires low < TWO_31
    ensures low * 2 <= MAX_REQUEST <==> (low * 2 + 15) / 8 * 8 < TWO_31
    ensures (low * 2 + 15) / 8 * 8 < TWO_32 + TWO_31
  {
  }

  lemma DoubledParts(size: nat) returns (k: nat)
    requires 25 <= size < TWO_64 - 15 && !(TWO_63 - 7 <= size <= TWO_63 + 12)
    ensures size * 2 % TWO_64 == size % TWO_31 * 2 + k * TWO_32
    ensures 24 < size * 2 % TWO_64 < TWO_64 - 15
  {
    assert size * 2 % TWO_64 == if size < TWO_63 then size * 2 else size * 2 - TWO_64;
    k := if size < TWO_63 then size / TWO_31 else size / TWO_31 - TWO_32;
  }

  lemma WholeWords(y: nat, k: nat)
    ensures (y + k * TWO_32) / 8 * 8 == y / 8 * 8 + k * TWO_32
  {
  }

  lemma Narrowed(y: nat, k: nat)
    requires y < TWO_32 + TWO_31
    ensures ToInt32(y + k * TWO_32) == if y < TWO_31 then y else y - TWO_32
  {
    assert (y + k * TWO_32) % TWO_32 == y % TWO_32;
  }

  lemma BlockOf(size: nat)
    requires size < TWO_64
    ensures BlockSize(size) == if size <= 24 || size + 15 >= TWO_64 then 32 else (size + 15) / 8 * 8
  {
  }
}
