/** The program listings describe real layouts: there is a memory that holds each of them. */
module Layout {
  import opened Lists
  import opened Words
  import opened ByteMemory
  import opened Assembly
  import Ncopy
  import RsumList
  import CopyBlock

  /** A listing: which instruction starts at an offset. */
  type Listing = nat -> Option<Instr>

  /** The instruction at `off` ends inside the listing, none starts inside it, and one starts right behind it. */
  ghost predicate Tile(listing: Listing, length: nat, off: nat)
    requires listing(off).Some?
  {
    var i := listing(off).value;
    && Encodable(i) && off + Size(i) <= length
    && (forall k: nat {:trigger NoStart(listing, off, k)} :: 0 < k < Size(i) ==> NoStart(listing, off, k))
    && (off + Size(i) < length ==> listing(off + Size(i)).Some?)
  }

  ghost predicate NoStart(listing: Listing, off: nat, k: nat) { listing(off + k) == None }

  /** The instructions of the listing cover its bytes one after the other. */
  ghost predicate Tiles(listing: Listing, length: nat) {
    && listing(0).Some?
    && forall off: nat {:trigger listing(off)} :: listing(off).Some? ==> Tile(listing, length, off)
  }

  lemma TileOf(listing: Listing, length: nat, off: nat)
    requires Tiles(listing, length) && listing(off).Some?
    ensures Tile(listing, length, off)
  {
  }

  /** The offset at which the instruction covering `off` starts. */
  function Owner(listing: Listing, off: nat): (r: nat)
    ensures r <= off
  {
    if listing(off).Some? || off == 0 then off else Owner(listing, off - 1)
  }

  lemma {:induction false} OwnerIs(listing: Listing, length: nat, off: nat, k: nat)
    requires listing(off).Some? && Tile(listing, length, off) && k < Size(listing(off).value)
    ensures Owner(listing, off + k) == off
  {
    if k > 0 {
      assert NoStart(listing, off, k);
      OwnerIs(listing, length, off, k - 1);
    }
  }

  function ByteAt(listing: Listing, off: nat): Byte {
    var start := Owner(listing, off);
    match listing(start)
    case None => 0
    case Some(i) => if Encodable(i) && off - start < Size(i) then Encode(i)[off - start] else 0
  }

  function MemoryByte(listing: Listing, base: nat, p: nat): Byte {
    if p < base then 0 else ByteAt(listing, p - base)
  }

  /** The bytes of a listing, from address `base` on, in a memory of `size` bytes. */
  function Memory(listing: Listing, base: nat, size: nat): (m: Bytes)
    ensures |m| == size
  {
    seq(size, p requires 0 <= p < size => MemoryByte(listing, base, p))
  }

  lemma MemoryHolds(listing: Listing, length: nat, base: nat, size: nat, off: nat)
    requires listing(off).Some? && Tile(listing, length, off) && base + length <= size <= MAX_MEM
    ensures At(Memory(listing, base, size), base + off, listing(off).value)
  {
    hide Encode, Size, Owner;
    var m, i := Memory(listing, base, size), listing(off).value;
    var slice := m[base + off..base + off + Size(i)];
    forall k: nat | k < Size(i)
      ensures slice[k] == Encode(i)[k]
    {
      OwnerIs(listing, length, off, k);
      assert slice[k] == ByteAt(listing, off + k);
    }
    assert slice == Encode(i);
  }

  // ---------------------------------------------------------------------------------------------
  // The two programs
  // ---------------------------------------------------------------------------------------------

  function RsumCode(base: nat): Listing
    requires base <= MAX_MEM
  {
    (off: nat) => RsumList.Listing(base, off)
  }

  function CopyCode(base: nat): Listing
    requires base <= MAX_MEM
  {
    (off: nat) => CopyBlock.Listing(base, off)
  }

  function NcopyCode(base: nat): Listing
    requires base <= MAX_MEM
  {
    (off: nat) => Ncopy.Listing(base, off)
  }

  lemma RsumNext(base: nat, off: nat, k: nat)
    requires base <= MAX_MEM && RsumList.Listing(base, off).Some? && k <= Size(RsumList.Listing(base, off).value)
    ensures Encodable(RsumList.Listing(base, off).value)
    ensures off + k == RsumList.LENGTH
         || (RsumList.Listing(base, off + k).Some? <==> k in {0, Size(RsumList.Listing(base, off).value)})
  {
  }

  lemma RsumTiles(base: nat)
    requires base <= MAX_MEM
    ensures Tiles(RsumCode(base), RsumList.LENGTH)
  {
    assert RsumList.Listing(base, 0).Some?;
    hide RsumList.Listing, Size, Encodable;
    var listing := RsumCode(base);
    forall off: nat | listing(off).Some?
      ensures Tile(listing, RsumList.LENGTH, off)
    {
      RsumList.ListingInside(base, off);
      forall k: nat | 0 < k < Size(listing(off).value)
        ensures NoStart(listing, off, k)
      {
        RsumNext(base, off, k);
      }
      RsumNext(base, off, Size(listing(off).value));
    }
  }

  lemma CopyNext(base: nat, off: nat, k: nat)
    requires base <= MAX_MEM && CopyBlock.Listing(base, off).Some? && k <= Size(CopyBlock.Listing(base, off).value)
    ensures Encodable(CopyBlock.Listing(base, off).value)
    ensures off + k == CopyBlock.LENGTH
         || (CopyBlock.Listing(base, off + k).Some? <==> k in {0, Size(CopyBlock.Listing(base, off).value)})
  {
  }

  lemma CopyTiles(base: nat)
    requires base <= MAX_MEM
    ensures Tiles(CopyCode(base), CopyBlock.LENGTH)
  {
    assert CopyBlock.Listing(base, 0).Some?;
    hide CopyBlock.Listing, Size, Encodable;
    var listing := CopyCode(base);
    forall off: nat | listing(off).Some?
      ensures Tile(listing, CopyBlock.LENGTH, off)
    {
      CopyBlock.ListingInside(base, off);
      forall k: nat | 0 < k < Size(listing(off).value)
        ensures NoStart(listing, off, k)
      {
        CopyNext(base, off, k);
      }
      CopyNext(base, off, Size(listing(off).value));
    }
  }

  /** The sizes of the instructions that occur in `ncopy`. */
  function NcopySize(i: Instr): nat { if i.Ret? then 1 else if i.Alu? then 2 else if i.Jmp? then 9 else 10 }

  lemma NcopySizes(base: nat, off: nat)
    requires base <= MAX_MEM && Ncopy.Listing(base, off).Some?
    ensures var i := Ncopy.Listing(base, off).value; Encodable(i) && Size(i) == NcopySize(i)
  {
  }

  /** From `off` up to `k` further on, with `i` at `off`, instructions start only at `off` and behind `i`. */
  predicate NcopyStarts(base: nat, off: nat, k: nat, i: Instr)
    requires base <= MAX_MEM
  {
    off + k == Ncopy.LENGTH || (Ncopy.Listing(base, off + k).Some? <==> k in {0, NcopySize(i)})
  }

  // One lemma for each section of the program.

  lemma SetupTile(base: nat, off: nat, k: nat)
    requires base <= MAX_MEM && Ncopy.Setup(base, off).Some? && k <= NcopySize(Ncopy.Setup(base, off).value)
    ensures Ncopy.Listing(base, off) == Ncopy.Setup(base, off)
    ensures NcopyStarts(base, off, k, Ncopy.Setup(base, off).value)
  {
  }

  lemma LoopEndTile(base: nat, off: nat, k: nat)
    requires base <= MAX_MEM && Ncopy.LoopEnd(base, off).Some? && k <= NcopySize(Ncopy.LoopEnd(base, off).value)
    ensures Ncopy.Listing(base, off) == Ncopy.LoopEnd(base, off)
    ensures NcopyStarts(base, off, k, Ncopy.LoopEnd(base, off).value)
  {
  }

  lemma LeftoverTile(base: nat, off: nat, k: nat)
    requires base <= MAX_MEM && Ncopy.Leftover(base, off).Some? && k <= NcopySize(Ncopy.Leftover(base, off).value)
    ensures Ncopy.Listing(base, off) == Ncopy.Leftover(base, off)
    ensures NcopyStarts(base, off, k, Ncopy.Leftover(base, off).value)
  {
  }

  lemma FourLeftTile(base: nat, off: nat, k: nat)
    requires base <= MAX_MEM && Ncopy.FourLeft(base, off).Some? && k <= NcopySize(Ncopy.FourLeft(base, off).value)
    ensures Ncopy.Listing(base, off) == Ncopy.FourLeft(base, off)
    ensures NcopyStarts(base, off, k, Ncopy.FourLeft(base, off).value)
  {
  }

  lemma FourTestsTile(base: nat, off: nat, k: nat)
    requires base <= MAX_MEM && Ncopy.FourTests(base, off).Some? && k <= NcopySize(Ncopy.FourTests(base, off).value)
    ensures Ncopy.Listing(base, off) == Ncopy.FourTests(base, off)
    ensures NcopyStarts(base, off, k, Ncopy.FourTests(base, off).value)
  {
  }

  lemma ThreeLeftTile(base: nat, off: nat, k: nat)
    requires base <= MAX_MEM && Ncopy.ThreeLeft(base, off).Some? && k <= NcopySize(Ncopy.ThreeLeft(base, off).value)
    ensures Ncopy.Listing(base, off) == Ncopy.ThreeLeft(base, off)
    ensures NcopyStarts(base, off, k, Ncopy.ThreeLeft(base, off).value)
  {
  }

  lemma TwoOrOneLeftTile(base: nat, off: nat, k: nat)
    requires base <= MAX_MEM && Ncopy.TwoOrOneLeft(base, off).Some?
    requires k <= NcopySize(Ncopy.TwoOrOneLeft(base, off).value)
    ensures Ncopy.Listing(base, off) == Ncopy.TwoOrOneLeft(base, off)
    ensures NcopyStarts(base, off, k, Ncopy.TwoOrOneLeft(base, off).value)
  {
  }

  /** Behind the start of an instruction the next one starts where it ends. */
  lemma NcopyNext(base: nat, off: nat, k: nat)
    requires base <= MAX_MEM && Ncopy.Listing(base, off).Some? && k <= NcopySize(Ncopy.Listing(base, off).value)
    ensures NcopyStarts(base, off, k, Ncopy.Listing(base, off).value)
  {
    hide Ncopy.Setup, Ncopy.LoopEnd, Ncopy.Leftover, Ncopy.FourLeft, Ncopy.FourTests, Ncopy.ThreeLeft,
      Ncopy.TwoOrOneLeft, NcopySize;
    if off < 121 {
      SetupTile(base, off, k);
    } else if off < 265 {
      LoopEndTile(base, off, k);
    } else if off < 341 {
      LeftoverTile(base, off, k);
    } else if off < 421 {
      FourLeftTile(base, off, k);
    } else if off < 514 {
      FourTestsTile(base, off, k);
    } else if off < 646 {
      ThreeLeftTile(base, off, k);
    } else {
      TwoOrOneLeftTile(base, off, k);
    }
  }

  lemma NcopyTiles(base: nat)
    requires base <= MAX_MEM
    ensures Tiles(NcopyCode(base), Ncopy.LENGTH)
  {
    assert Ncopy.Listing(base, 0).Some?;
    hide Ncopy.Listing, NcopySize, Size, Encodable;
    var listing := NcopyCode(base);
    forall off: nat | listing(off).Some?
      ensures Tile(listing, Ncopy.LENGTH, off)
    {
      NcopySizes(base, off);
      Ncopy.ListingInside(base, off);
      forall k: nat | 0 < k < Size(listing(off).value)
        ensures NoStart(listing, off, k)
      {
        NcopyNext(base, off, k);
      }
      NcopyNext(base, off, Size(listing(off).value));
    }
  }

  /** `rsum_list` can be loaded at any address at which it fits. */
  lemma RsumCanBeLoaded(base: nat, size: nat) returns (m: Bytes)
    requires base + RsumList.LENGTH <= size <= MAX_MEM
    ensures |m| == size && RsumList.Loaded(m, base)
  {
    hide RsumList.Listing, At, Tiles, Tile;
    RsumTiles(base);
    m := Memory(RsumCode(base), base, size);
    forall off: nat | RsumList.Listing(base, off).Some?
      ensures At(m, base + off, RsumList.Listing(base, off).value)
    {
      TileOf(RsumCode(base), RsumList.LENGTH, off);
      MemoryHolds(RsumCode(base), RsumList.LENGTH, base, size, off);
    }
  }

  /** `copy_block` can be loaded at any address at which it fits. */
  lemma CopyCanBeLoaded(base: nat, size: nat) returns (m: Bytes)
    requires base + CopyBlock.LENGTH <= size <= MAX_MEM
    ensures |m| == size && CopyBlock.Loaded(m, base)
  {
    hide CopyBlock.Listing, At, Tiles, Tile;
    CopyTiles(base);
    m := Memory(CopyCode(base), base, size);
    forall off: nat | CopyBlock.Listing(base, off).Some?
      ensures At(m, base + off, CopyBlock.Listing(base, off).value)
    {
      TileOf(CopyCode(base), CopyBlock.LENGTH, off);
      MemoryHolds(CopyCode(base), CopyBlock.LENGTH, base, size, off);
    }
  }

  /** `ncopy` can be loaded at any address at which it fits. */
  lemma NcopyCanBeLoaded(base: nat, size: nat) returns (m: Bytes)
    requires base + Ncopy.LENGTH <= size <= MAX_MEM
    ensures |m| == size && Ncopy.Loaded(m, base)
  {
    hide Ncopy.Listing, At, Tiles, Tile;
    NcopyTiles(base);
    m := Memory(NcopyCode(base), base, size);
    forall off: nat | Ncopy.Listing(base, off).Some?
      ensures At(m, base + off, Ncopy.Listing(base, off).value)
    {
      TileOf(NcopyCode(base), Ncopy.LENGTH, off);
      MemoryHolds(NcopyCode(base), Ncopy.LENGTH, base, size, off);
    }
  }
}
