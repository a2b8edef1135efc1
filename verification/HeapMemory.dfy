/**
  How an abstract heap is laid out in the words of memory: boundary tags in headers and footers,
  and the free list threaded through the first two payload words of the free blocks.
*/
module HeapMemory {
  import opened Lists
  import opened HeapModel
  import Words
  import Bits

  /** PACK_HDR: sizes are multiples of 8 bytes, so the low three bits carry the flags. */
  function PackHdr(size: nat, prevAlloc: bool, alloc: bool): nat {
    8 * size + (if prevAlloc then 2 else 0) + (if alloc then 1 else 0)
  }

  function SizeOf(w: nat): nat { w / 8 }

  predicate AllocOf(w: nat) { w % 2 == 1 }

  predicate PrevAllocOf(w: nat) { w / 2 % 2 == 1 }

  function UnsetPrev(w: nat): nat { if PrevAllocOf(w) then w - 2 else w }

  function SetPrev(w: nat): nat { if PrevAllocOf(w) then w else w + 2 }

  lemma Unpack(size: nat, prevAlloc: bool, alloc: bool)
    ensures var w := PackHdr(size, prevAlloc, alloc);
            && SizeOf(w) == size && AllocOf(w) == alloc && PrevAllocOf(w) == prevAlloc
            && UnsetPrev(w) == PackHdr(size, false, alloc) && SetPrev(w) == PackHdr(size, true, alloc)
  {
  }

  /** The macros of the header word are these, as operations on the bits of a `size_t`. */
  lemma Macros(w: nat)
    requires w < Words.TWO_64
    ensures Words.BitAnd(w, Words.TWO_64 - 1 - 7) == 8 * SizeOf(w)
    ensures Words.BitAnd(w, 1) == (if AllocOf(w) then 1 else 0)
    ensures Words.BitAnd(w / 2, 1) == (if PrevAllocOf(w) then 1 else 0)
    ensures Words.BitAnd(w, Words.TWO_64 - 1 - 2) == UnsetPrev(w)
    ensures Bits.BitOr(w, 2) == SetPrev(w)
  {
    hide Words.BitAnd, Bits.BitOr, Bits.Pow2;
    LowBit(w);
    LowBit(w / 2);
    MaskSize(w);
    MaskPrev(w);
    OrTwo(w);
  }

  lemma LowBit(w: nat)
    ensures Words.BitAnd(w, 1) == w % 2
  {
    assert Bits.Pow2(1) == 2;
    Bits.AndMask(w, 1);
    assert Bits.LowBits(w / 2, 0) == 0;
  }

  lemma KeepAll(x: nat, n: nat)
    requires x < Bits.Pow2(n)
    ensures Words.BitAnd(x, Bits.Pow2(n) - 1) == x
  {
    hide Bits.Pow2, Bits.LowBits, Bits.ShiftRight, Words.BitAnd;
    Bits.AndMask(x, n);
    Bits.ShiftIsDiv(x, n);
  }

  /** Masking the `q` lowest bits and keeping all others. */
  lemma KeepHigh(low: nat, high: nat, q: nat, mask: nat, ones: nat)
    requires q <= 64 && low < Bits.Pow2(q) && high <= ones == Bits.Pow2(64 - q) - 1 && mask < Bits.Pow2(q)
    ensures Words.BitAnd(low + Bits.Pow2(q) * high, mask + Bits.Pow2(q) * ones)
         == Words.BitAnd(low, mask) + Bits.Pow2(q) * high
  {
    hide Bits.Pow2, Words.BitAnd;
    Bits.AndSplit(low, high, mask, ones, q);
    KeepAll(high, 64 - q);
  }

  lemma HighPowers()
    ensures Bits.Pow2(2) == 4 && Bits.Pow2(3) == 8
    ensures Bits.Pow2(61) == 0x2000_0000_0000_0000 && Bits.Pow2(62) == 0x4000_0000_0000_0000
  {
    Bits.Pow2Of64();
    assert Bits.Pow2(63) == 2 * Bits.Pow2(62);
  }

  lemma MaskSize(w: nat)
    requires w < Words.TWO_64
    ensures Words.BitAnd(w, Words.TWO_64 - 1 - 7) == 8 * SizeOf(w)
  {
    hide Bits.Pow2;
    HighPowers();
    KeepHigh(w % 8, w / 8, 3, 0, 0x1FFF_FFFF_FFFF_FFFF);
  }

  lemma MaskPrev(w: nat)
    requires w < Words.TWO_64
    ensures Words.BitAnd(w, Words.TWO_64 - 1 - 2) == UnsetPrev(w)
  {
    hide Bits.Pow2;
    HighPowers();
    KeepHigh(w % 4, w / 4, 2, 1, 0x3FFF_FFFF_FFFF_FFFF);
    LowBit(w % 4);
  }

  lemma OrTwo(w: nat)
    ensures Bits.BitOr(w, 2) == SetPrev(w)
  {
    assert Bits.BitOr(w / 2, 1) == (if w / 2 % 2 == 1 then w / 2 else w / 2 + 1) by { OrOne(w / 2); }
  }

  lemma OrOne(x: nat)
    ensures Bits.BitOr(x, 1) == if x % 2 == 1 then x else x + 1
  {
    Bits.OrZero(x / 2);
  }

  /** PACK_HDR joins its fields by `|`. */
  lemma PackIs(size: nat, prevAlloc: bool, alloc: bool)
    ensures PackHdr(size, prevAlloc, alloc)
         == Bits.BitOr(Bits.BitOr(8 * size, 2 * (if prevAlloc then 1 else 0)), if alloc then 1 else 0)
  {
    hide Bits.BitOr;
    Bits.OrZero(8 * size);
    OrTwo(8 * size);
    var w := 8 * size + 2 * (if prevAlloc then 1 else 0);
    Bits.OrZero(w);
    OrOne(w);
  }

  ghost predicate PrevAlloc(b: map<nat, Block>, p: nat)
    requires p in b
  {
    p == PROLOGUE || (b[p].prev in b && b[b[p].prev].alloc)
  }

  ghost function HeaderOf(b: map<nat, Block>, p: nat): nat
    requires p in b
  {
    PackHdr(b[p].size, PrevAlloc(b, p), b[p].alloc)
  }

  ghost predicate HeaderAt(m: seq<nat>, b: map<nat, Block>, p: nat)
    requires p in b
  {
    1 <= p <= |m| && m[p - 1] == HeaderOf(b, p)
  }

  ghost predicate FooterAt(m: seq<nat>, b: map<nat, Block>, p: nat)
    requires p in b
  {
    2 <= Next(b, p) <= |m| + 1 && m[Next(b, p) - 2] == 8 * b[p].size
  }

  /** Every header outside `stale` is right. */
  ghost predicate Headers(m: seq<nat>, b: map<nat, Block>, stale: set<nat>) {
    forall p {:trigger HeaderAt(m, b, p)} :: p in b && p !in stale ==> HeaderAt(m, b, p)
  }

  /** Every free block's footer outside `stale` repeats its size. */
  ghost predicate Footers(m: seq<nat>, b: map<nat, Block>, stale: set<nat>) {
    forall p {:trigger FooterAt(m, b, p)} ::
      p in b && !b[p].alloc && p !in stale ==> FooterAt(m, b, p)
  }

  ghost predicate Linked(m: seq<nat>, free: seq<nat>, i: nat)
    requires i < |free|
  {
    && free[i] + 1 < |m|
    && m[free[i]] == (if i == 0 then 0 else free[i - 1])
    && m[free[i] + 1] == (if i + 1 < |free| then free[i + 1] else 0)
  }

  /** The previous and next pointers of the listed blocks. */
  ghost predicate Links(m: seq<nat>, free: seq<nat>) {
    forall i {:trigger Linked(m, free, i)} :: 0 <= i < |free| ==> Linked(m, free, i)
  }

  ghost function HeadOf(free: seq<nat>): nat { if free == [] then 0 else free[0] }

  // ---------------------------------------------------------------------------------------------
  // Which words an operation may touch
  // ---------------------------------------------------------------------------------------------

  /** Word `i` lies in the payload of an allocated block. */
  ghost predicate InPayload(b: map<nat, Block>, i: int) {
    exists q {:trigger b[q].alloc} :: q in b && b[q].alloc && q <= i < Next(b, q) - 1
  }

  ghost predicate Untouched(m: seq<nat>, m': seq<nat>, b: map<nat, Block>) {
    |m'| == |m| && forall i {:trigger m'[i]} :: 0 <= i < |m| && InPayload(b, i) ==> m'[i] == m[i]
  }

  /** Word `i` is a list pointer of one of the listed blocks. */
  ghost predicate IsLink(free: seq<nat>, i: int) {
    exists p {:trigger p in free} :: p in free && (i == p || i == p + 1)
  }

  ghost predicate OnlyLinks(m: seq<nat>, m': seq<nat>, free: seq<nat>) {
    |m'| == |m| && forall i {:trigger m'[i]} :: 0 <= i < |m| && !IsLink(free, i) ==> m'[i] == m[i]
  }

  ghost predicate AllFree(b: map<nat, Block>, free: seq<nat>) {
    forall p {:trigger p in free} :: p in free ==> p in b && !b[p].alloc && b[p].size >= MIN_BLOCK
  }

  lemma HeaderNotPayload(b: map<nat, Block>, p: nat)
    requires Apart(b) && p in b
    ensures !InPayload(b, p - 1)
  {
    forall q | q in b && b[q].alloc
      ensures !(q <= p - 1 < Next(b, q) - 1)
    {
      assert q < p ==> Next(b, q) <= p;
    }
  }

  lemma FreeNotPayload(b: map<nat, Block>, p: nat, i: int)
    requires Apart(b) && p in b && !b[p].alloc && p - 1 <= i < Next(b, p) - 1
    ensures !InPayload(b, i)
  {
    forall q | q in b && b[q].alloc
      ensures !(q <= i < Next(b, q) - 1)
    {
      assert q < p ==> Next(b, q) <= p;
      assert p < q ==> Next(b, p) <= q;
    }
  }

  lemma LinkNotHeader(b: map<nat, Block>, free: seq<nat>, p: nat)
    requires Apart(b) && AllFree(b, free) && p in b
    ensures !IsLink(free, p - 1)
  {
    forall q | q in free
      ensures p - 1 != q && p - 1 != q + 1
    {
      assert q < p ==> Next(b, q) <= p;
    }
  }

  lemma LinkNotFooter(b: map<nat, Block>, free: seq<nat>, p: nat)
    requires Apart(b) && AllFree(b, free) && p in b && !b[p].alloc && b[p].size >= MIN_BLOCK
    ensures !IsLink(free, Next(b, p) - 2)
  {
    forall q | q in free
      ensures Next(b, p) - 2 != q && Next(b, p) - 2 != q + 1
    {
      assert q < p ==> Next(b, q) <= p;
      assert p < q ==> Next(b, p) <= q;
    }
  }

  lemma LinkNotPayload(b: map<nat, Block>, free: seq<nat>, i: int)
    requires Apart(b) && AllFree(b, free) && IsLink(free, i)
    ensures !InPayload(b, i)
  {
    var p :| p in free && (i == p || i == p + 1);
    FreeNotPayload(b, p, i);
  }

  ghost predicate FreeSized(b: map<nat, Block>) {
    forall p {:trigger b[p].alloc} :: p in b && !b[p].alloc ==> b[p].size >= MIN_BLOCK
  }

  /** Relinking the list disturbs neither tags nor payloads. */
  lemma LinksFrame(m: seq<nat>, m': seq<nat>, b: map<nat, Block>, free: seq<nat>, stale: set<nat>)
    requires Apart(b) && AllFree(b, free) && FreeSized(b) && OnlyLinks(m, m', free)
    ensures Headers(m, b, stale) ==> Headers(m', b, stale)
    ensures Footers(m, b, stale) ==> Footers(m', b, stale)
    ensures Untouched(m, m', b)
  {
    if Headers(m, b, stale) {
      forall p | p in b && p !in stale
        ensures HeaderAt(m', b, p)
      {
        LinkNotHeader(b, free, p);
        assert HeaderAt(m, b, p);
      }
    }
    if Footers(m, b, stale) {
      forall p | p in b && !b[p].alloc && p !in stale
        ensures FooterAt(m', b, p)
      {
        LinkNotFooter(b, free, p);
        assert FooterAt(m, b, p);
      }
    }
    forall i | 0 <= i < |m| && InPayload(b, i)
      ensures m'[i] == m[i]
    {
      if IsLink(free, i) { LinkNotPayload(b, free, i); }
    }
  }

  // ---------------------------------------------------------------------------------------------
  // The free list
  // ---------------------------------------------------------------------------------------------

  /** The effect of `remove_from_free_list` on memory. */
  function Unlink(m: seq<nat>, p: nat): (m': seq<nat>)
    requires p + 1 < |m|
    requires m[p] != 0 ==> m[p] + 1 < |m|
    requires m[p + 1] != 0 ==> m[p + 1] < |m|
    ensures |m'| == |m|
  {
    var m1 := if m[p] != 0 then m[m[p] + 1 := m[p + 1]] else m;
    if m[p + 1] != 0 then m1[m[p + 1] := m[p]] else m1
  }

  /** No list pointer of one block is a list pointer of another. */
  ghost predicate Spaced(free: seq<nat>) {
    && (forall i {:trigger free[i]} :: 0 <= i < |free| ==> free[i] != 0)
    && forall i, j {:trigger free[i], free[j]} :: 0 <= i < |free| && 0 <= j < |free| && i != j ==>
         free[i] != free[j] && free[i] + 1 != free[j]
  }

  lemma FreeSpaced(b: map<nat, Block>, free: seq<nat>)
    requires Apart(b) && AllFree(b, free) && Distinct(free) && 0 !in b
    ensures Spaced(free)
  {
    forall i, j | 0 <= i < |free| && 0 <= j < |free| && i != j
      ensures free[i] != free[j] && free[i] + 1 != free[j]
    {
      assert free[i] in free && free[j] in free;
      assert free[i] < free[j] ==> Next(b, free[i]) <= free[j];
    }
    forall i | 0 <= i < |free| ensures free[i] != 0 { assert free[i] in free; }
  }

  lemma UnlinkAt(m: seq<nat>, free: seq<nat>, k: nat)
    requires k < |free| && Links(m, free)
    ensures var p := free[k];
            && p + 1 < |m|
            && m[p] == (if k == 0 then 0 else free[k - 1])
            && m[p + 1] == (if k + 1 < |free| then free[k + 1] else 0)
            && (m[p] != 0 ==> m[p] + 1 < |m|) && (m[p + 1] != 0 ==> m[p + 1] < |m|)
  {
    assert Linked(m, free, k);
    if k > 0 { assert Linked(m, free, k - 1); }
    if k + 1 < |free| { assert Linked(m, free, k + 1); }
  }

  ghost predicate Unlinkable(m: seq<nat>, p: nat) {
    p + 1 < |m| && (m[p] != 0 ==> m[p] + 1 < |m|) && (m[p + 1] != 0 ==> m[p + 1] < |m|)
  }

  lemma UnlinkOnlyLinks(m: seq<nat>, free: seq<nat>, k: nat)
    requires k < |free| && Links(m, free) && Unlinkable(m, free[k])
    ensures OnlyLinks(m, Unlink(m, free[k]), free)
  {
    UnlinkAt(m, free, k);
    var m' := Unlink(m, free[k]);
    forall i | 0 <= i < |m| && !IsLink(free, i)
      ensures m'[i] == m[i]
    {
      if k > 0 { assert free[k - 1] in free; }
      if k + 1 < |free| { assert free[k + 1] in free; }
    }
  }

  /** What the two pointers of the `j`-th block become when the `k`-th is unlinked. */
  lemma UnlinkPointers(m: seq<nat>, free: seq<nat>, k: nat, j: nat)
    requires k < |free| && j < |free| && j != k && Links(m, free) && Spaced(free) && Unlinkable(m, free[k])
    ensures free[j] + 1 < |m|
    ensures var m' := Unlink(m, free[k]);
            && m'[free[j]] == (if j == k + 1 then (if k == 0 then 0 else free[k - 1]) else m[free[j]])
            && m'[free[j] + 1] ==
               (if j + 1 == k then (if k + 1 < |free| then free[k + 1] else 0) else m[free[j] + 1])
  {
    UnlinkAt(m, free, k);
    assert Linked(m, free, j);
    assert k > 0 ==> free[k - 1] != 0;
    assert k + 1 < |free| ==> free[k + 1] != 0;
  }

  lemma UnlinkLinks(m: seq<nat>, free: seq<nat>, k: nat)
    requires k < |free| && Links(m, free) && Spaced(free) && Unlinkable(m, free[k])
    ensures Links(Unlink(m, free[k]), free[..k] + free[k + 1..])
  {
    hide Unlink, Linked, Spaced;
    var m', rest := Unlink(m, free[k]), free[..k] + free[k + 1..];
    forall i | 0 <= i < |rest|
      ensures Linked(m', rest, i)
    {
      UnlinkLinksAt(m, free, k, i);
    }
  }

  lemma UnlinkLinksAt(m: seq<nat>, free: seq<nat>, k: nat, i: nat)
    requires k < |free| && i < |free| - 1 && Links(m, free) && Spaced(free) && Unlinkable(m, free[k])
    ensures Linked(Unlink(m, free[k]), free[..k] + free[k + 1..], i)
  {
    hide Unlink;
    var rest := free[..k] + free[k + 1..];
    var j := if i < k then i else i + 1;
    assert rest[i] == free[j];
    assert i > 0 ==> rest[i - 1] == free[if i - 1 < k then i - 1 else i];
    assert i + 1 < |rest| ==> rest[i + 1] == free[if i + 1 < k then i + 1 else i + 2];
    UnlinkPointers(m, free, k, j);
    assert Linked(m, free, j);
  }

  /** The effect of `add_to_free_list` on memory. */
  function Push(m: seq<nat>, p: nat, head: nat): (m': seq<nat>)
    requires p + 1 < |m| && head < |m|
    ensures |m'| == |m|
  {
    var m1 := m[p := 0][p + 1 := head];
    if head != 0 then m1[head := p] else m1
  }

  lemma PushLinks(m: seq<nat>, free: seq<nat>, p: nat)
    requires p + 1 < |m| && Links(m, free) && Spaced([p] + free)
    ensures HeadOf(free) < |m|
    ensures Links(Push(m, p, HeadOf(free)), [p] + free)
    ensures OnlyLinks(m, Push(m, p, HeadOf(free)), [p] + free)
  {
    var f := [p] + free;
    if free != [] { assert Linked(m, free, 0) && f[1] == free[0]; }
    var m' := Push(m, p, HeadOf(free));
    forall i | 0 <= i < |f|
      ensures Linked(m', f, i)
    {
      if i > 0 {
        assert f[i] == free[i - 1] && Linked(m, free, i - 1);
        assert i + 1 < |f| ==> f[i + 1] == free[i];
      } else {
        assert f[0] == p;
      }
    }
    forall i | 0 <= i < |m| && !IsLink(f, i)
      ensures m'[i] == m[i]
    {
      assert f[0] in f;
      if free != [] { assert f[1] in f; }
    }
  }

  // ---------------------------------------------------------------------------------------------
  // Boundary tags under each change of the block structure
  // ---------------------------------------------------------------------------------------------

  /** The neighbourhood of a free block that is about to change. */
  ghost predicate Site(b: map<nat, Block>, p: nat) {
    && p in b && Next(b, p) in b && 1 < p && p + 2 < Next(b, p) && !b[p].alloc
    && b[p].prev in b && b[p].prev < p && b[Next(b, p)].prev == p
  }

  /** The header of `q` depends only on `q` and on the block below it. */
  ghost predicate SameHeader(b: map<nat, Block>, b': map<nat, Block>, q: nat) {
    && q in b && q in b' && b'[q].size == b[q].size && b'[q].alloc == b[q].alloc && PrevAlloc(b', q) == PrevAlloc(b, q)
  }

  lemma TakeSameHeader(b: map<nat, Block>, top: nat, p: nat, q: nat)
    requires Backward(b, top) && Site(b, p) && q in b && q != p && q != Next(b, p)
    ensures SameHeader(b, b[p := b[p].(alloc := true)], q)
  {
    if q != PROLOGUE { assert Next(b, b[q].prev) == q; }
  }

  /** Taking a whole free block, once its header and the next header's bit are written. */
  lemma TakeHeaders(m: seq<nat>, b: map<nat, Block>, top: nat, p: nat)
    requires Backward(b, top) && Site(b, p) && b[Next(b, p)].alloc && PrevAlloc(b, p)
    requires Headers(m, b, {p, Next(b, p)}) && Next(b, p) <= |m|
    requires m[p - 1] == PackHdr(b[p].size, true, true) && m[Next(b, p) - 1] == PackHdr(b[Next(b, p)].size, true, true)
    ensures Headers(m, b[p := b[p].(alloc := true)], {})
  {
    hide Backward;
    var r := Next(b, p);
    var b' := b[p := b[p].(alloc := true)];
    forall q | q in b'
      ensures HeaderAt(m, b', q)
    {
      if q != p && q != r {
        TakeSameHeader(b, top, p, q);
        assert HeaderAt(m, b, q);
      }
    }
  }

  lemma FooterWordUnique(b: map<nat, Block>, p: nat, q: nat)
    requires Apart(b) && p in b && q in b && p != q && b[q].size > 0 && b[p].size > 0
    ensures Next(b, p) != Next(b, q)
  {
    assert p < q ==> Next(b, p) <= q;
    assert q < p ==> Next(b, q) <= p;
  }

  lemma FooterNotHeader(b: map<nat, Block>, p: nat, q: nat)
    requires Apart(b) && p in b && q in b && b[p].size >= MIN_BLOCK
    ensures Next(b, p) - 2 != q - 1
  {
    assert p < q ==> Next(b, p) <= q;
  }

  lemma TakeFooters(m: seq<nat>, b: map<nat, Block>, p: nat)
    requires Site(b, p) && b[Next(b, p)].alloc && Footers(m, b, {p, Next(b, p)})
    ensures Footers(m, b[p := b[p].(alloc := true)], {})
  {
    var b' := b[p := b[p].(alloc := true)];
    forall q | q in b' && !b'[q].alloc
      ensures FooterAt(m, b', q)
    {
      assert FooterAt(m, b, q);
    }
  }

  lemma SplitSameHeader(b: map<nat, Block>, top: nat, p: nat, n: nat, q: nat)
    requires Backward(b, top) && Site(b, p) && Splits(b, p, n) && 0 < n && p + n !in b
    requires q in b && q != p
    ensures SameHeader(b, SplitBlocks(b, p, n), q)
  {
    if q != PROLOGUE { assert Next(b, b[q].prev) == q; }
  }

  /** Splitting: memory once the remainder's tags are written. */
  function SplitMem(m: seq<nat>, p: nat, size: nat, n: nat): seq<nat>
    requires 1 <= p + n <= |m| && n + 2 <= size && 2 <= p + size <= |m|
  {
    m[p + n - 1 := PackHdr(size - n, true, false)][p + size - 2 := 8 * (size - n)]
  }

  lemma SplitHeaders(m: seq<nat>, b: map<nat, Block>, top: nat, p: nat, n: nat)
    requires Apart(b) && Backward(b, top) && Site(b, p) && Splits(b, p, n) && 0 < n && p + n !in b
    requires PrevAlloc(b, p) && b[p].size >= MIN_BLOCK
    requires Next(b, p) <= |m| && Headers(m, b, {p}) && m[p - 1] == PackHdr(n, true, true)
    ensures Headers(SplitMem(m, p, b[p].size, n), SplitBlocks(b, p, n), {})
  {
    hide Apart, Backward;
    var b' := SplitBlocks(b, p, n);
    var m' := SplitMem(m, p, b[p].size, n);
    forall q | q in b'
      ensures HeaderAt(m', b', q)
    {
      if q in b {
        FooterNotHeader(b, p, q);
        if q != p {
          SplitSameHeader(b, top, p, n, q);
          assert HeaderAt(m, b, q);
        }
      }
    }
  }

  lemma SplitFooters(m: seq<nat>, b: map<nat, Block>, p: nat, n: nat)
    requires Apart(b) && FreeSized(b) && Site(b, p) && Splits(b, p, n) && 0 < n && p + n !in b
    requires Next(b, p) <= |m| && Footers(m, b, {p})
    ensures Footers(SplitMem(m, p, b[p].size, n), SplitBlocks(b, p, n), {})
  {
    var b' := SplitBlocks(b, p, n);
    var m' := SplitMem(m, p, b[p].size, n);
    forall q | q in b' && !b'[q].alloc
      ensures FooterAt(m', b', q)
    {
      if q != p + n {
        assert FooterAt(m, b, q);
        FooterWordUnique(b, p, q);
        assert q < p ==> Next(b, q) <= p;
        assert p < q ==> Next(b, p) <= q;
      }
    }
  }

  /** Merging: the lower header and the upper footer take the total size. */
  function MergeMem(m: seq<nat>, p: nat, size: nat): seq<nat>
    requires 1 <= p <= |m| && 2 <= p + size <= |m|
  {
    m[p - 1 := PackHdr(size, true, false)][p + size - 2 := 8 * size]
  }

  ghost predicate MergeSite(b: map<nat, Block>, p: nat) {
    && NextFree(b, p) && 1 < p && p + 2 < Next(b, p) && Next(b, p) + 2 < Next(b, Next(b, p))
    && !b[p].alloc && b[Next(b, p)].prev == p && b[Next(b, Next(b, p))].prev == Next(b, p)
    && b[p].prev in b && b[p].prev < p
  }

  lemma MergeSameHeader(b: map<nat, Block>, top: nat, p: nat, q: nat)
    requires Backward(b, top) && MergeSite(b, p) && q in b && q != p && q != Next(b, p)
    ensures SameHeader(b, MergeNext(b, p), q)
  {
    if q != PROLOGUE { assert Next(b, b[q].prev) == q; }
  }

  /** The tags of the two merged blocks themselves may be stale beforehand. */
  lemma MergeHeaders(m: seq<nat>, b: map<nat, Block>, top: nat, p: nat)
    requires Apart(b) && Backward(b, top) && MergeSite(b, p) && PrevAlloc(b, p) && b[Next(b, p)].size >= MIN_BLOCK
    requires Next(b, Next(b, p)) <= |m| && Headers(m, b, {p, Next(b, p)})
    ensures Headers(MergeMem(m, p, b[p].size + b[Next(b, p)].size), MergeNext(b, p), {})
  {
    hide Apart, Backward;
    var n := Next(b, p);
    var b' := MergeNext(b, p);
    var m' := MergeMem(m, p, b[p].size + b[n].size);
    forall q | q in b'
      ensures HeaderAt(m', b', q)
    {
      FooterNotHeader(b, n, q);
      if q != p {
        MergeSameHeader(b, top, p, q);
        assert HeaderAt(m, b, q);
      }
    }
  }

  lemma MergeFooters(m: seq<nat>, b: map<nat, Block>, p: nat)
    requires Apart(b) && FreeSized(b) && MergeSite(b, p)
    requires Next(b, Next(b, p)) <= |m| && Footers(m, b, {p, Next(b, p)})
    ensures Footers(MergeMem(m, p, b[p].size + b[Next(b, p)].size), MergeNext(b, p), {})
  {
    hide Apart;
    var n := Next(b, p);
    var b' := MergeNext(b, p);
    var m' := MergeMem(m, p, b[p].size + b[n].size);
    forall q | q in b' && !b'[q].alloc
      ensures FooterAt(m', b', q)
    {
      if q != p {
        assert FooterAt(m, b, q);
        FooterWordUnique(b, n, q);
        FooterNotHeader(b, q, p);
      }
    }
  }

  /** After an unwritten first merge only the merged block's own tags are stale. */
  lemma MergeStale(m: seq<nat>, b: map<nat, Block>, top: nat, p: nat)
    requires Backward(b, top) && MergeSite(b, p) && Headers(m, b, {}) && Footers(m, b, {})
    ensures Headers(m, MergeNext(b, p), {p}) && Footers(m, MergeNext(b, p), {p})
  {
    hide Backward;
    var b' := MergeNext(b, p);
    forall q | q in b' && q != p
      ensures HeaderAt(m, b', q)
    {
      MergeSameHeader(b, top, p, q);
      assert HeaderAt(m, b, q);
    }
    forall q | q in b' && !b'[q].alloc && q != p
      ensures FooterAt(m, b', q)
    {
      assert FooterAt(m, b, q);
    }
  }

  /** Freeing: the block's own header and footer, and the bit in the next header. */
  function FreeMem(m: seq<nat>, p: nat, size: nat, prevAlloc: bool): seq<nat>
    requires 1 <= p && 2 <= size && p + size <= |m|
  {
    var m1 := m[p - 1 := PackHdr(size, prevAlloc, false)][p + size - 2 := 8 * size];
    m1[p + size - 1 := UnsetPrev(m1[p + size - 1])]
  }

  ghost predicate LiveSite(b: map<nat, Block>, p: nat) {
    && p in b && Next(b, p) in b && 1 < p && b[p].size >= MIN_BLOCK && b[p].alloc
    && b[p].prev in b && b[p].prev < p && b[Next(b, p)].prev == p
  }

  lemma FreeSameHeader(b: map<nat, Block>, top: nat, p: nat, q: nat)
    requires Backward(b, top) && LiveSite(b, p) && q in b && q != p && q != Next(b, p)
    ensures SameHeader(b, b[p := b[p].(alloc := false)], q)
  {
    if q != PROLOGUE { assert Next(b, b[q].prev) == q; }
  }

  lemma FreeHeaders(m: seq<nat>, b: map<nat, Block>, top: nat, p: nat)
    requires Apart(b) && Backward(b, top) && LiveSite(b, p) && Headers(m, b, {}) && Next(b, p) <= |m|
    ensures Headers(FreeMem(m, p, b[p].size, PrevAlloc(b, p)), b[p := b[p].(alloc := false)], {})
  {
    hide Apart, Backward;
    var r := Next(b, p);
    var b' := b[p := b[p].(alloc := false)];
    var m' := FreeMem(m, p, b[p].size, PrevAlloc(b, p));
    assert HeaderAt(m, b, r);
    Unpack(b[r].size, true, b[r].alloc);
    forall q | q in b'
      ensures HeaderAt(m', b', q)
    {
      FooterNotHeader(b, p, q);
      if q != p && q != r {
        FreeSameHeader(b, top, p, q);
        assert HeaderAt(m, b, q);
      }
    }
  }

  lemma FreeFooters(m: seq<nat>, b: map<nat, Block>, p: nat)
    requires Apart(b) && FreeSized(b) && LiveSite(b, p) && Footers(m, b, {}) && Next(b, p) <= |m|
    ensures Footers(FreeMem(m, p, b[p].size, PrevAlloc(b, p)), b[p := b[p].(alloc := false)], {})
  {
    hide Apart;
    var r := Next(b, p);
    var b' := b[p := b[p].(alloc := false)];
    var m' := FreeMem(m, p, b[p].size, PrevAlloc(b, p));
    forall q | q in b' && !b'[q].alloc
      ensures FooterAt(m', b', q)
    {
      if q != p {
        assert FooterAt(m, b, q);
        FooterWordUnique(b, p, q);
        FooterNotHeader(b, q, p);
        FooterNotHeader(b, q, r);
      }
    }
  }

  /** Growing by `n` words: the old epilogue's header becomes the new block's. */
  function GrowMem(m: seq<nat>, top: nat, n: nat, prevAlloc: bool): seq<nat>
    requires 1 <= top && 2 <= n && top + n <= |m|
  {
    m[top - 1 := PackHdr(n, prevAlloc, false)][top + n - 2 := 8 * n][top + n - 1 := PackHdr(0, false, true)]
  }

  lemma GrowHeaders(m: seq<nat>, h: Heap, n: nat)
    requires Tiled(h.blocks, h.top) && n >= MIN_BLOCK && h.top + n <= |m| && Headers(m, h.blocks, {})
    ensures Headers(GrowMem(m, h.top, n, PrevAlloc(h.blocks, h.top)), Grow(h, n).blocks, {})
  {
    hide Apart, Forward, Sized;
    var b := h.blocks;
    TiledBounded(b, h.top);
    var b' := Grow(h, n).blocks;
    var m' := GrowMem(m, h.top, n, PrevAlloc(b, h.top));
    assert HeaderAt(m, b, h.top);
    forall q | q in b'
      ensures HeaderAt(m', b', q)
    {
      if q < h.top {
        assert HeaderAt(m, b, q);
        assert b[q].prev != h.top;
      }
    }
  }

  lemma GrowFooters(m: seq<nat>, h: Heap, n: nat)
    requires Tiled(h.blocks, h.top) && n >= MIN_BLOCK && h.top + n <= |m| && Footers(m, h.blocks, {})
    ensures Footers(GrowMem(m, h.top, n, PrevAlloc(h.blocks, h.top)), Grow(h, n).blocks, {})
  {
    hide Backward, Forward;
    var b := h.blocks;
    TiledBounded(b, h.top);
    var b' := Grow(h, n).blocks;
    var m' := GrowMem(m, h.top, n, PrevAlloc(b, h.top));
    forall q | q in b' && !b'[q].alloc
      ensures FooterAt(m', b', q)
    {
      if q < h.top {
        assert FooterAt(m, b, q);
        assert Next(b, q) <= h.top;
      }
    }
  }
}
