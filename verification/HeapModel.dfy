/**
  The abstract heap of the malloc-lab allocator: which blocks there are, where they lie, and in
  which order the explicit free list visits the free ones.

  All addresses and sizes are counted in 8-byte words from the start of the heap.  A block is
  named by its payload pointer `bp`, as in the C code: its header is the word `bp - 1`, the next
  block's payload pointer is `bp + size`, and a free block keeps its footer in the word
  `bp + size - 2`.  Pointer 0 stands for NULL; word 0 holds the prologue header, so no payload
  starts there.
*/
module HeapModel {

  import opened Lists

  /** `prev` is the payload pointer of the block just below (0 for the prologue). */
  datatype Block = Block(size: nat, alloc: bool, prev: nat)

  /** `top` is the break: the payload pointer of the epilogue, and the heap size in words. */
  datatype Heap = Heap(blocks: map<nat, Block>, free: seq<nat>, top: nat)

  const MIN_BLOCK: nat := 4     // header, two links, footer
  const CHUNK_WORDS: nat := 512 // CHUNKSIZE, 1 << 12 bytes
  const PROLOGUE: nat := 1

  const NO_HEAP := Heap(map[], [], 0)
  const EMPTY_HEAP := Heap(map[1 := Block(2, true, 0), 3 := Block(0, true, 1)], [], 3)

  function Next(b: map<nat, Block>, p: nat): nat
    requires p in b
  {
    p + b[p].size
  }

  // ---------------------------------------------------------------------------------------------
  // Well-formedness
  // ---------------------------------------------------------------------------------------------

  ghost predicate Ends(b: map<nat, Block>, top: nat) {
    && PROLOGUE in b && b[PROLOGUE] == Block(2, true, 0)
    && top in b && b[top].size == 0 && b[top].alloc && top >= 3
  }

  ghost predicate Sized(b: map<nat, Block>, top: nat) {
    forall p {:trigger b[p].size} :: p in b && p != top && p != PROLOGUE ==> 3 <= p < top && b[p].size >= MIN_BLOCK
  }

  ghost predicate Forward(b: map<nat, Block>, top: nat) {
    forall p {:trigger Next(b, p)} :: p in b && p != top ==> Next(b, p) in b && b[Next(b, p)].prev == p
  }

  ghost predicate Backward(b: map<nat, Block>, top: nat) {
    forall p {:trigger b[p].prev} :: p in b && p != PROLOGUE ==>
          b[p].prev in b && b[p].prev != top && Next(b, b[p].prev) == p
  }

  ghost predicate Apart(b: map<nat, Block>) {
    forall p, q {:trigger Next(b, p), q in b} :: p in b && q in b && p < q ==> Next(b, p) <= q
  }

  /** The blocks tile the heap from the prologue at 1 to the epilogue at `top`. */
  ghost predicate Tiled(b: map<nat, Block>, top: nat) {
    Ends(b, top) && Sized(b, top) && Forward(b, top) && Backward(b, top) && Apart(b)
  }

  /** The free list holds exactly the free blocks, apart from `pending`, each of them once. */
  ghost predicate ListsFree(b: map<nat, Block>, free: seq<nat>, pending: nat) {
    && Distinct(free)
    && (forall p {:trigger p in free} {:trigger b[p].alloc} ::
          p in free <==> p in b && !b[p].alloc && p != pending)
  }

  /** No two free blocks touch, unless one of them is `pending`. */
  ghost predicate Coalesced(b: map<nat, Block>, pending: nat) {
    forall p {:trigger Next(b, p)} ::
      p in b && !b[p].alloc && p != pending && Next(b, p) in b && Next(b, p) != pending
      ==> b[Next(b, p)].alloc
  }

  ghost predicate WellFormed(h: Heap) {
    && Tiled(h.blocks, h.top)
    && ListsFree(h.blocks, h.free, 0)
    && Coalesced(h.blocks, 0)
  }

  /** The state in which `coalesce(bp)` is called: `bp` is free but not listed yet, and it alone
      may touch another free block. */
  ghost predicate Pending(h: Heap, bp: nat) {
    && Tiled(h.blocks, h.top)
    && bp in h.blocks && !h.blocks[bp].alloc
    && ListsFree(h.blocks, h.free, bp)
    && Coalesced(h.blocks, bp)
  }

  // ---------------------------------------------------------------------------------------------
  // The operations on the abstract heap
  // ---------------------------------------------------------------------------------------------

  /** First block in list order with at least `n` words. */
  function FirstFit(b: map<nat, Block>, free: seq<nat>, n: nat): Option<nat> {
    if free == [] then None
    else if free[0] in b && n <= b[free[0]].size then Some(free[0])
    else FirstFit(b, free[1..], n)
  }

  ghost predicate Splits(b: map<nat, Block>, p: nat, n: nat)
    requires p in b
  {
    b[p].size >= n + MIN_BLOCK
  }

  ghost function SplitBlocks(b: map<nat, Block>, p: nat, n: nat): map<nat, Block>
    requires p in b && Next(b, p) in b && Splits(b, p, n)
  {
    var r := Next(b, p);
    b[p := b[p].(size := n, alloc := true)]
     [p + n := Block(b[p].size - n, false, p)]
     [r := b[r].(prev := p + n)]
  }

  ghost function PlaceBlocks(b: map<nat, Block>, p: nat, n: nat): map<nat, Block>
    requires p in b && Next(b, p) in b
  {
    if Splits(b, p, n) then SplitBlocks(b, p, n) else b[p := b[p].(alloc := true)]
  }

  ghost function Place(h: Heap, p: nat, n: nat): Heap
    requires p in h.blocks && Next(h.blocks, p) in h.blocks
  {
    var rest := Remove(h.free, p);
    Heap(PlaceBlocks(h.blocks, p, n),
         if Splits(h.blocks, p, n) then [p + n] + rest else rest,
         h.top)
  }

  /** Absorb the block after `p` into `p`. */
  ghost function MergeNext(b: map<nat, Block>, p: nat): map<nat, Block>
    requires p in b && Next(b, p) in b && Next(b, Next(b, p)) in b
  {
    var n := Next(b, p);
    var r := Next(b, n);
    (b - {n})[p := b[p].(size := b[p].size + b[n].size)][r := b[r].(prev := p)]
  }

  ghost predicate NextFree(b: map<nat, Block>, p: nat) {
    p in b && Next(b, p) in b && !b[Next(b, p)].alloc && Next(b, Next(b, p)) in b
  }

  ghost predicate PrevFree(b: map<nat, Block>, p: nat) {
    && p in b && b[p].prev in b && !b[b[p].prev].alloc
    && Next(b, b[p].prev) == p && Next(b, p) in b
  }

  ghost function CoalesceUp(h: Heap, p: nat): Heap {
    if NextFree(h.blocks, p) then
      Heap(MergeNext(h.blocks, p), Remove(h.free, Next(h.blocks, p)), h.top)
    else h
  }

  ghost function CoalesceDown(h: Heap, p: nat): (Heap, nat) {
    if PrevFree(h.blocks, p) then
      var q := h.blocks[p].prev;
      (Heap(MergeNext(h.blocks, q), Remove(h.free, q), h.top), q)
    else (h, p)
  }

  /** Merge with whichever neighbours are free and put the result at the head of the list. */
  ghost function Coalesce(h: Heap, p: nat): (Heap, nat) {
    var (h1, q) := CoalesceDown(CoalesceUp(h, p), p);
    (h1.(free := [q] + h1.free), q)
  }

  ghost function MarkFree(h: Heap, p: nat): Heap
    requires p in h.blocks
  {
    h.(blocks := h.blocks[p := h.blocks[p].(alloc := false)])
  }

  ghost function Free(h: Heap, p: nat): Heap
    requires p in h.blocks
  {
    Coalesce(MarkFree(h, p), p).0
  }

  ghost predicate Live(h: Heap, p: nat) {
    p in h.blocks && h.blocks[p].alloc && p != PROLOGUE && p != h.top
  }

  /** The old epilogue becomes a free block of `n` words below a new epilogue. */
  ghost function Grow(h: Heap, n: nat): Heap
    requires h.top in h.blocks
  {
    h.(blocks := h.blocks[h.top := Block(n, false, h.blocks[h.top].prev)]
                         [h.top + n := Block(0, true, h.top)],
       top := h.top + n)
  }

  ghost function Extend(h: Heap, n: nat): (Heap, nat)
    requires h.top in h.blocks
  {
    Coalesce(Grow(h, n), h.top)
  }

  // ---------------------------------------------------------------------------------------------
  // The search of the free list
  // ---------------------------------------------------------------------------------------------

  /** Every block listed before some occurrence of `p` is too small. */
  ghost predicate FirstAmong(b: map<nat, Block>, free: seq<nat>, n: nat, p: nat) {
    exists i :: 0 <= i < |free| && free[i] == p && TooSmall(b, free[..i], n)
  }

  ghost predicate TooSmall(b: map<nat, Block>, free: seq<nat>, n: nat) {
    forall q :: q in free && q in b ==> b[q].size < n
  }

  lemma {:induction false} FirstFitFound(b: map<nat, Block>, free: seq<nat>, n: nat)
    ensures var r := FirstFit(b, free, n);
            match r
            case Some(p) => p in free && p in b && n <= b[p].size && FirstAmong(b, free, n, p)
            case None => TooSmall(b, free, n)
  {
    if free != [] && !(free[0] in b && n <= b[free[0]].size) {
      FirstFitFound(b, free[1..], n);
      match FirstFit(b, free[1..], n)
      case Some(p) =>
        var i :| 0 <= i < |free[1..]| && free[1..][i] == p && TooSmall(b, free[1..][..i], n);
        assert free[..i + 1] == [free[0]] + free[1..][..i];
        assert free[i + 1] == p;
      case None =>
        assert free == [free[0]] + free[1..];
    } else if free != [] {
      assert free[0] == FirstFit(b, free, n).value && TooSmall(b, free[..0], n);
    }
  }

  /** `find_fit` returns NULL exactly when no free block of the whole heap is large enough. */
  lemma FitIffSomeFreeBlock(h: Heap, n: nat)
    requires WellFormed(h)
    ensures FirstFit(h.blocks, h.free, n) == None
       <==> forall p :: p in h.blocks && !h.blocks[p].alloc ==> h.blocks[p].size < n
  {
    FirstFitFound(h.blocks, h.free, n);
    forall p | p in h.blocks && !h.blocks[p].alloc
      ensures p in h.free
    {
      assert 1 <= p;
    }
  }

  // ---------------------------------------------------------------------------------------------
  // Every operation keeps the heap well formed
  // ---------------------------------------------------------------------------------------------

  lemma EmptyWellFormed()
    ensures WellFormed(EMPTY_HEAP)
  {
  }

  /** What a free block's surroundings look like. */
  lemma Around(b: map<nat, Block>, top: nat, p: nat)
    requires Tiled(b, top) && p in b && !b[p].alloc
    ensures 3 <= p < top && b[p].size >= MIN_BLOCK
    ensures Next(b, p) in b && b[Next(b, p)].prev == p && Next(b, p) != PROLOGUE
    ensures b[p].prev in b && b[p].prev != top && Next(b, b[p].prev) == p
  {
    hide Apart;
  }

  /** Changing only allocation bits keeps the tiling. */
  ghost predicate SameShape(b: map<nat, Block>, b': map<nat, Block>) {
    && b'.Keys == b.Keys
    && forall p :: p in b ==> b'[p].size == b[p].size && b'[p].prev == b[p].prev
  }

  lemma SameForward(b: map<nat, Block>, b': map<nat, Block>, top: nat)
    requires Forward(b, top) && SameShape(b, b')
    ensures Forward(b', top)
  {
    forall q | q in b' && q != top
      ensures Next(b', q) in b' && b'[Next(b', q)].prev == q
    {
      assert Next(b, q) in b;
    }
  }

  lemma SameBackward(b: map<nat, Block>, b': map<nat, Block>, top: nat)
    requires Backward(b, top) && SameShape(b, b')
    ensures Backward(b', top)
  {
    forall q | q in b' && q != PROLOGUE
      ensures b'[q].prev in b' && b'[q].prev != top && Next(b', b'[q].prev) == q
    {
      assert Next(b, b[q].prev) == q;
    }
  }

  lemma SameApart(b: map<nat, Block>, b': map<nat, Block>)
    requires Apart(b) && SameShape(b, b')
    ensures Apart(b')
  {
    forall p, q | p in b' && q in b' && p < q
      ensures Next(b', p) <= q
    {
      assert Next(b, p) <= q;
    }
  }

  lemma SameShapeTiled(b: map<nat, Block>, b': map<nat, Block>, top: nat)
    requires Tiled(b, top) && SameShape(b, b') && Ends(b', top)
    ensures Tiled(b', top)
  {
    hide Forward, Backward, Apart;
    SameForward(b, b', top);
    SameBackward(b, b', top);
    SameApart(b, b');
    assert forall q :: q in b ==> b[q].size == b'[q].size;
  }

  lemma SplitForward(b: map<nat, Block>, top: nat, p: nat, n: nat)
    requires p in b && Next(b, p) in b && Splits(b, p, n) && p + n !in b && n > 0 && p < top
    requires Forward(b, top)
    ensures Forward(SplitBlocks(b, p, n), top)
  {
    var b' := SplitBlocks(b, p, n);
    forall q | q in b' && q != top
      ensures Next(b', q) in b' && b'[Next(b', q)].prev == q
    {
      if q != p && q != p + n { assert Next(b, q) in b; }
      else { assert Next(b, p) in b; }
    }
  }

  lemma SplitBackward(b: map<nat, Block>, top: nat, p: nat, n: nat)
    requires p in b && Next(b, p) in b && Splits(b, p, n) && p + n !in b && n > 0 && p + n != top
    requires Next(b, p) != PROLOGUE && b[Next(b, p)].prev == p && p != top
    requires Backward(b, top)
    ensures Backward(SplitBlocks(b, p, n), top)
  {
    var b' := SplitBlocks(b, p, n);
    forall q | q in b' && q != PROLOGUE
      ensures b'[q].prev in b' && b'[q].prev != top && Next(b', b'[q].prev) == q
    {
      if q != p + n && q != Next(b, p) { assert Next(b, b[q].prev) == q; }
    }
  }

  lemma SplitApart(b: map<nat, Block>, p: nat, n: nat)
    requires p in b && Next(b, p) in b && Splits(b, p, n) && p + n !in b && n > 0
    requires Apart(b)
    ensures Apart(SplitBlocks(b, p, n))
  {
    var b' := SplitBlocks(b, p, n);
    forall x, y | x in b' && y in b' && x < y
      ensures Next(b', x) <= y
    {
      if y == p + n {
        if x < p { assert Next(b, x) <= p; }
      } else if x == p || x == p + n {
        assert Next(b, p) <= y;
      } else {
        assert Next(b, x) <= y;
      }
    }
  }

  lemma SplitSized(b: map<nat, Block>, top: nat, p: nat, n: nat)
    requires p in b && Next(b, p) in b && Splits(b, p, n) && n >= MIN_BLOCK && 3 <= p < top && Next(b, p) <= top
    requires Sized(b, top)
    ensures Sized(SplitBlocks(b, p, n), top)
  {
    var b' := SplitBlocks(b, p, n);
    forall q | q in b' && q != top && q != PROLOGUE
      ensures 3 <= q < top && b'[q].size >= MIN_BLOCK
    {
      if q in b { assert b[q].size >= MIN_BLOCK; }
    }
  }

  lemma SplitPointFresh(b: map<nat, Block>, p: nat, n: nat)
    requires p in b && 0 < n < b[p].size && Apart(b)
    ensures p + n !in b
  {
    assert p + n in b ==> Next(b, p) <= p + n;
  }

  lemma SplitTiled(b: map<nat, Block>, top: nat, p: nat, n: nat)
    requires Tiled(b, top) && p in b && !b[p].alloc && n >= MIN_BLOCK && Splits(b, p, n)
    requires Next(b, p) in b
    ensures p + n !in b
    ensures Tiled(SplitBlocks(b, p, n), top)
  {
    hide Forward, Backward, Apart, Sized;
    Around(b, top, p);
    TiledBounded(b, top);
    SplitPointFresh(b, p, n);
    SplitSized(b, top, p, n);
    SplitForward(b, top, p, n);
    SplitBackward(b, top, p, n);
    SplitApart(b, p, n);
  }

  lemma MergeForward(b: map<nat, Block>, top: nat, p: nat)
    requires NextFree(b, p) && Next(b, p) != top && p < Next(b, p) < Next(b, Next(b, p)) && p < top
    requires Forward(b, top)
    ensures Forward(MergeNext(b, p), top)
  {
    var b' := MergeNext(b, p);
    forall q | q in b' && q != top
      ensures Next(b', q) in b' && b'[Next(b', q)].prev == q
    {
      if q != p {
        assert Next(b, q) in b;
        assert b[Next(b, p)].prev == p;
      } else {
        assert Next(b, Next(b, p)) in b;
      }
    }
  }

  lemma MergeBackward(b: map<nat, Block>, top: nat, p: nat)
    requires NextFree(b, p) && Next(b, p) != top && p < Next(b, p) < Next(b, Next(b, p)) && p != top
    requires b[Next(b, Next(b, p))].prev == Next(b, p) && p > 0
    requires Backward(b, top)
    ensures Backward(MergeNext(b, p), top)
  {
    var b' := MergeNext(b, p);
    forall q | q in b' && q != PROLOGUE
      ensures b'[q].prev in b' && b'[q].prev != top && Next(b', b'[q].prev) == q
    {
      if q != Next(b, Next(b, p)) { assert Next(b, b[q].prev) == q; }
    }
  }

  lemma MergeApart(b: map<nat, Block>, p: nat)
    requires NextFree(b, p) && p < Next(b, p) < Next(b, Next(b, p))
    requires Apart(b)
    ensures Apart(MergeNext(b, p))
  {
    var b' := MergeNext(b, p);
    forall x, y | x in b' && y in b' && x < y
      ensures Next(b', x) <= y
    {
      assert Next(b, x) <= y;
      if x == p { assert Next(b, Next(b, p)) <= y; }
    }
  }

  lemma MergeSized(b: map<nat, Block>, top: nat, p: nat)
    requires NextFree(b, p) && 3 <= p < top && b[p].size >= MIN_BLOCK
    requires Sized(b, top)
    ensures Sized(MergeNext(b, p), top)
  {
    var b' := MergeNext(b, p);
    forall q | q in b' && q != top && q != PROLOGUE
      ensures 3 <= q < top && b'[q].size >= MIN_BLOCK
    {
      assert b[q].size >= MIN_BLOCK;
    }
  }

  lemma MergeTiled(b: map<nat, Block>, top: nat, p: nat)
    requires Tiled(b, top) && p in b && !b[p].alloc && NextFree(b, p)
    ensures Tiled(MergeNext(b, p), top)
  {
    hide Forward, Backward, Apart, Sized;
    Around(b, top, p);
    Around(b, top, Next(b, p));
    MergeSized(b, top, p);
    MergeForward(b, top, p);
    MergeBackward(b, top, p);
    MergeApart(b, p);
  }

  lemma GrowForward(h: Heap, n: nat)
    requires h.top in h.blocks && Bounded(h.blocks, h.top) && n > 0
    requires Forward(h.blocks, h.top)
    ensures Forward(Grow(h, n).blocks, h.top + n)
  {
    var b := h.blocks;
    var b' := Grow(h, n).blocks;
    forall q | q in b' && q != h.top + n
      ensures Next(b', q) in b' && b'[Next(b', q)].prev == q
    {
      if q != h.top { assert Next(b, q) in b; }
    }
  }

  lemma GrowBackward(h: Heap, n: nat)
    requires h.top in h.blocks && Bounded(h.blocks, h.top) && n > 0
    requires Backward(h.blocks, h.top)
    ensures Backward(Grow(h, n).blocks, h.top + n)
  {
    var b := h.blocks;
    var b' := Grow(h, n).blocks;
    forall q | q in b' && q != PROLOGUE
      ensures b'[q].prev in b' && b'[q].prev != h.top + n && Next(b', b'[q].prev) == q
    {
      if q != h.top + n { assert Next(b, b[q].prev) == q; }
    }
  }

  lemma GrowApart(h: Heap, n: nat)
    requires h.top in h.blocks && Bounded(h.blocks, h.top) && n > 0
    requires Apart(h.blocks)
    ensures Apart(Grow(h, n).blocks)
  {
    var b := h.blocks;
    var b' := Grow(h, n).blocks;
    forall x, y | x in b' && y in b' && x < y
      ensures Next(b', x) <= y
    {
      if y in b { assert Next(b, x) <= y; }
      else if x != h.top { assert Next(b, x) <= h.top; }
    }
  }

  lemma GrowSized(h: Heap, n: nat)
    requires h.top in h.blocks && n >= MIN_BLOCK && h.top >= 3
    requires Sized(h.blocks, h.top)
    ensures Sized(Grow(h, n).blocks, h.top + n)
  {
    var b' := Grow(h, n).blocks;
    forall q | q in b' && q != h.top + n && q != PROLOGUE
      ensures 3 <= q < h.top + n && b'[q].size >= MIN_BLOCK
    {
      if q != h.top { assert h.blocks[q].size >= MIN_BLOCK; }
    }
  }

  lemma GrowTiled(h: Heap, n: nat)
    requires Tiled(h.blocks, h.top) && n >= MIN_BLOCK
    ensures Tiled(Grow(h, n).blocks, h.top + n)
  {
    hide Forward, Backward, Apart, Sized;
    TiledBounded(h.blocks, h.top);
    GrowSized(h, n);
    GrowForward(h, n);
    GrowBackward(h, n);
    GrowApart(h, n);
  }

  ghost predicate Bounded(b: map<nat, Block>, top: nat) {
    forall p :: p in b ==> 1 <= p <= top
  }

  lemma TiledBounded(b: map<nat, Block>, top: nat)
    requires Tiled(b, top)
    ensures Bounded(b, top)
  {
    hide Forward, Backward, Apart;
    forall p | p in b
      ensures 1 <= p <= top
    {
      assert b[p].size >= 0;
    }
  }


  lemma FitAround(h: Heap, n: nat)
    requires WellFormed(h)
    ensures var r := FirstFit(h.blocks, h.free, n);
            r.Some? ==>
              && r.value in h.free && r.value in h.blocks && !h.blocks[r.value].alloc
              && n <= h.blocks[r.value].size && Next(h.blocks, r.value) in h.blocks && r.value != 0
  {
    hide Coalesced;
    FirstFitFound(h.blocks, h.free, n);
    var r := FirstFit(h.blocks, h.free, n);
    if r.Some? {
      assert r.value in h.free;
      Around(h.blocks, h.top, r.value);
    }
  }

  lemma AllocShape(b: map<nat, Block>, p: nat, alloc: bool)
    requires p in b
    ensures SameShape(b, b[p := b[p].(alloc := alloc)])
  {
  }

  lemma PlaceListsFree(h: Heap, p: nat, n: nat)
    requires p in h.blocks && Next(h.blocks, p) in h.blocks && p != 0 && Next(h.blocks, p) != p
    requires Splits(h.blocks, p, n) ==> p + n !in h.blocks && n > 0
    requires h.blocks[Next(h.blocks, p)].alloc && !h.blocks[p].alloc
    requires ListsFree(h.blocks, h.free, 0)
    ensures ListsFree(Place(h, p, n).blocks, Place(h, p, n).free, 0)
  {
    RemoveKeeps(h.free, p);
    var b := h.blocks;
    var h' := Place(h, p, n);
    forall q
      ensures q in h'.free <==> q in h'.blocks && !h'.blocks[q].alloc && q != 0
    {
      assert q in b && q != p ==> (q in h.free <==> !b[q].alloc && q != 0);
      assert p + n in h.free ==> p + n in b;
    }
    assert p + n !in b ==> p + n !in h.free;
  }

  lemma PlaceCoalesced(h: Heap, p: nat, n: nat)
    requires p in h.blocks && Next(h.blocks, p) in h.blocks && p != 0 && Next(h.blocks, p) != p
    requires Splits(h.blocks, p, n) ==> p + n !in h.blocks && n > 0
    requires !h.blocks[p].alloc
    requires Forward(h.blocks, h.top) && Coalesced(h.blocks, 0) && Bounded(h.blocks, h.top)
    ensures Coalesced(Place(h, p, n).blocks, 0)
  {
    var b := h.blocks;
    var b' := Place(h, p, n).blocks;
    assert b[Next(b, p)].alloc;
    forall q | q in b' && !b'[q].alloc && q != 0 && Next(b', q) in b' && Next(b', q) != 0
      ensures b'[Next(b', q)].alloc
    {
      if q != p + n || !Splits(b, p, n) {
        assert Next(b, q) == Next(b', q);
        assert q == h.top || Next(b, q) in b;
      }
    }
  }

  lemma PlaceWellFormed(h: Heap, p: nat, n: nat)
    requires WellFormed(h) && p in h.blocks && !h.blocks[p].alloc && n >= MIN_BLOCK && n <= h.blocks[p].size
    requires Next(h.blocks, p) in h.blocks
    ensures WellFormed(Place(h, p, n))
    ensures Live(Place(h, p, n), p) && Place(h, p, n).blocks[p].size >= n
  {
    var b := h.blocks;
    FreeNeighboursAlloc(h, 0, p);
    hide Forward, Backward, Apart, Sized, ListsFree, Coalesced;
    Around(b, h.top, p);
    TiledBounded(b, h.top);
    if Splits(b, p, n) {
      SplitTiled(b, h.top, p, n);
    } else {
      AllocShape(b, p, true);
      SameShapeTiled(b, Place(h, p, n).blocks, h.top);
    }
    PlaceListsFree(h, p, n);
    PlaceCoalesced(h, p, n);
  }

  /** Both neighbours of a listed free block are allocated, or are the pending block. */
  lemma FreeNeighboursAlloc(h: Heap, pending: nat, p: nat)
    requires Tiled(h.blocks, h.top) && Coalesced(h.blocks, pending)
    requires p in h.blocks && !h.blocks[p].alloc && p != pending
    ensures Next(h.blocks, p) in h.blocks && h.blocks[p].prev in h.blocks
    ensures Next(h.blocks, p) == pending || h.blocks[Next(h.blocks, p)].alloc
    ensures h.blocks[p].prev == pending || h.blocks[h.blocks[p].prev].alloc
  {
    Around(h.blocks, h.top, p);
    hide Forward, Backward, Apart, Sized;
    assert Next(h.blocks, h.blocks[p].prev) == p;
  }

  lemma MarkFreePending(h: Heap, p: nat)
    requires WellFormed(h) && Live(h, p)
    ensures Pending(MarkFree(h, p), p)
  {
    hide Forward, Backward, Apart, Sized;
    var b := h.blocks;
    var h' := MarkFree(h, p);
    AllocShape(b, p, false);
    SameShapeTiled(b, h'.blocks, h.top);
    forall q | q in h'.blocks && !h'.blocks[q].alloc && q != p && Next(h'.blocks, q) in h'.blocks
      && Next(h'.blocks, q) != p
      ensures h'.blocks[Next(h'.blocks, q)].alloc
    {
      TiledBounded(b, h.top);
      assert Next(b, q) == Next(h'.blocks, q);
    }
    assert Coalesced(h'.blocks, p);
    TiledBounded(b, h.top);
    assert ListsFree(h'.blocks, h'.free, p);
  }

  lemma GrowPending(h: Heap, n: nat)
    requires WellFormed(h) && n >= MIN_BLOCK
    ensures Pending(Grow(h, n), h.top)
  {
    hide Forward, Backward, Apart, Sized;
    var b := h.blocks;
    var h' := Grow(h, n);
    TiledBounded(b, h.top);
    GrowTiled(h, n);
    forall q | q in h'.blocks && !h'.blocks[q].alloc && q != h.top && Next(h'.blocks, q) in h'.blocks
      && Next(h'.blocks, q) != h.top
      ensures h'.blocks[Next(h'.blocks, q)].alloc
    {
      assert Next(b, q) == Next(h'.blocks, q);
    }
    assert Coalesced(h'.blocks, h.top);
    assert ListsFree(h'.blocks, h'.free, h.top);
  }

  lemma MergeListsFree(b: map<nat, Block>, free: seq<nat>, p: nat, pending: nat)
    requires NextFree(b, p) && 0 < p < Next(b, p) < Next(b, Next(b, p)) && !b[p].alloc
    requires pending in {p, Next(b, p)}
    requires ListsFree(b, free, pending)
    ensures ListsFree(MergeNext(b, p), Remove<nat>(free, if pending == p then Next(b, p) else p), p)
  {
    var other: nat := if pending == p then Next(b, p) else p;
    assert other in free by { assert !b[other].alloc; }
    RemoveKeeps(free, other);
    var b' := MergeNext(b, p);
    var free' := Remove(free, other);
    forall q: nat
      ensures q in free' <==> q in b' && !b'[q].alloc && q != p
    {
      assert q in b ==> (q in free <==> !b[q].alloc && q != pending);
    }
  }

  lemma MergeCoalesced(b: map<nat, Block>, top: nat, p: nat, pending: nat)
    requires NextFree(b, p) && p < Next(b, p) < Next(b, Next(b, p)) && !b[p].alloc && p != 0
    requires pending in {p, Next(b, p)}
    requires Forward(b, top) && Bounded(b, top) && Coalesced(b, pending)
    ensures Coalesced(MergeNext(b, p), p)
  {
    var b' := MergeNext(b, p);
    forall q | q in b' && !b'[q].alloc && q != p && Next(b', q) in b' && Next(b', q) != p
      ensures b'[Next(b', q)].alloc
    {
      assert Next(b, q) == Next(b', q);
    }
  }

  lemma MergePending(h: Heap, p: nat, pending: nat)
    requires Pending(h, pending) && NextFree(h.blocks, p) && !h.blocks[p].alloc
    requires pending in {p, Next(h.blocks, p)}
    ensures var other := if pending == p then Next(h.blocks, p) else p;
            Pending(Heap(MergeNext(h.blocks, p), Remove<nat>(h.free, other), h.top), p)
  {
    hide Forward, Backward, Apart, Sized, ListsFree, Coalesced;
    var b := h.blocks;
    Around(b, h.top, p);
    Around(b, h.top, Next(b, p));
    TiledBounded(b, h.top);
    MergeTiled(b, h.top, p);
    MergeListsFree(b, h.free, p, pending);
    MergeCoalesced(b, h.top, p, pending);
  }

  ghost predicate NextAlloc(b: map<nat, Block>, p: nat) {
    p in b && Next(b, p) in b && b[Next(b, p)].alloc
  }

  ghost predicate PrevAllocated(b: map<nat, Block>, p: nat) {
    p in b && b[p].prev in b && b[b[p].prev].alloc
  }

  lemma NeighbourCases(b: map<nat, Block>, top: nat, p: nat)
    requires Tiled(b, top) && p in b && !b[p].alloc
    ensures NextFree(b, p) || NextAlloc(b, p)
    ensures PrevFree(b, p) || PrevAllocated(b, p)
  {
    Around(b, top, p);
    hide Backward, Apart, Sized;
    assert Next(b, p) == top || Next(b, Next(b, p)) in b;
  }

  lemma CoalesceUpPending(h: Heap, p: nat)
    requires Pending(h, p)
    ensures var h1 := CoalesceUp(h, p);
            && Pending(h1, p) && NextAlloc(h1.blocks, p) && h1.top == h.top
            && h1.blocks[p].prev == h.blocks[p].prev
            && h1.blocks[p].size >= h.blocks[p].size
            && (PrevFree(h1.blocks, p) <==> PrevFree(h.blocks, p))
  {
    hide Forward, Backward, Apart, Sized, ListsFree, Coalesced;
    var b := h.blocks;
    Around(b, h.top, p);
    NeighbourCases(b, h.top, p);
    if NextFree(b, p) {
      var n := Next(b, p);
      MergePending(h, p, p);
      Around(b, h.top, n);
      FreeNeighboursAlloc(h, p, n);
    }
  }

  /** `coalesce` when a neighbour is not free. */
  lemma CoalesceCases(h: Heap, p: nat)
    requires Pending(h, p)
    ensures !NextFree(h.blocks, p) ==> CoalesceUp(h, p) == h
    ensures !PrevFree(h.blocks, p) ==> CoalesceDown(CoalesceUp(h, p), p) == (CoalesceUp(h, p), p)
  {
    hide Pending, MergeNext, Remove, NextFree, PrevFree;
    CoalesceUpPending(h, p);
  }

  lemma CoalesceDownPending(h: Heap, p: nat)
    requires Pending(h, p) && NextAlloc(h.blocks, p)
    ensures var (h1, q) := CoalesceDown(h, p);
            && Pending(h1, q) && NextAlloc(h1.blocks, q) && PrevAllocated(h1.blocks, q) && h1.top == h.top
            && h1.blocks[q].size >= h.blocks[p].size
  {
    hide Forward, Backward, Apart, Sized, ListsFree, Coalesced;
    var b := h.blocks;
    Around(b, h.top, p);
    NeighbourCases(b, h.top, p);
    if PrevFree(b, p) {
      var q := b[p].prev;
      MergePending(h, q, p);
      Around(b, h.top, q);
      FreeNeighboursAlloc(h, p, q);
      assert b[q].prev in b;
      Around(b, h.top, q);
    }
  }

  lemma PushWellFormed(h: Heap, q: nat)
    requires Pending(h, q) && NextAlloc(h.blocks, q) && PrevAllocated(h.blocks, q)
    ensures WellFormed(h.(free := [q] + h.free))
  {
    hide Tiled, ListsFree, Coalesced;
    TiledBounded(h.blocks, h.top);
    PushLists(h, q);
    PushCoalesced(h, q);
  }

  lemma PushLists(h: Heap, q: nat)
    requires ListsFree(h.blocks, h.free, q) && q in h.blocks && !h.blocks[q].alloc && 0 !in h.blocks
    ensures ListsFree(h.blocks, [q] + h.free, 0)
  {
    var f := [q] + h.free;
    assert forall p :: p in f <==> p == q || p in h.free;
  }

  lemma PushCoalesced(h: Heap, q: nat)
    requires Pending(h, q) && NextAlloc(h.blocks, q) && PrevAllocated(h.blocks, q)
    ensures Coalesced(h.blocks, 0)
  {
    Around(h.blocks, h.top, q);
    TiledBounded(h.blocks, h.top);
    hide Backward, Apart, Sized, ListsFree;
    var b := h.blocks;
    forall p | p in b && !b[p].alloc && p != 0 && Next(b, p) in b && Next(b, p) != 0
      ensures b[Next(b, p)].alloc
    {
      assert p != q ==> Next(b, p) != q;
    }
  }

  lemma CoalesceWellFormed(h: Heap, p: nat)
    requires Pending(h, p)
    ensures var (h', q) := Coalesce(h, p);
            && WellFormed(h') && h'.top == h.top
            && q in h'.blocks && !h'.blocks[q].alloc && Next(h'.blocks, q) in h'.blocks
            && h'.blocks[q].size >= h.blocks[p].size && q != 0
  {
    hide Forward, Backward, Apart, Sized, ListsFree, Coalesced;
    CoalesceUpPending(h, p);
    var h1 := CoalesceUp(h, p);
    CoalesceDownPending(h1, p);
    var (h2, q) := CoalesceDown(h1, p);
    PushWellFormed(h2, q);
    Around(h2.blocks, h.top, q);
  }

  lemma FreeWellFormed(h: Heap, p: nat)
    requires WellFormed(h) && Live(h, p)
    ensures WellFormed(Free(h, p)) && Free(h, p).top == h.top
  {
    hide WellFormed, Pending;
    MarkFreePending(h, p);
    CoalesceWellFormed(MarkFree(h, p), p);
  }

  lemma ExtendWellFormed(h: Heap, n: nat)
    requires WellFormed(h) && n >= MIN_BLOCK
    ensures h.top in h.blocks
    ensures var (h', q) := Extend(h, n);
            && WellFormed(h') && h'.top == h.top + n
            && q in h'.blocks && !h'.blocks[q].alloc && h'.blocks[q].size >= n
            && Next(h'.blocks, q) in h'.blocks && q != 0
  {
    assert h.top in h.blocks;
    hide Tiled, ListsFree, Coalesced, Pending;
    GrowPending(h, n);
    CoalesceWellFormed(Grow(h, n), h.top);
  }

  function Max(a: nat, b: nat): nat { if a >= b then a else b }

  /** `mm_malloc` for a block of `n` words in a region of `limit` words: the new heap and the
      payload pointer, 0 when the heap cannot grow. */
  ghost function Malloc(h: Heap, limit: nat, n: nat): (Heap, nat)
    requires WellFormed(h) && n >= MIN_BLOCK
  {
    match FirstFit(h.blocks, h.free, n)
    case Some(p) =>
      FitAround(h, n);
      (Place(h, p, n), p)
    case None =>
      var grown := Max(n, CHUNK_WORDS);
      if h.top + grown > limit then (h, 0)
      else
        ExtendWellFormed(h, grown);
        var (h1, p) := Extend(h, grown);
        (Place(h1, p, n), p)
  }

  lemma MallocWellFormed(h: Heap, limit: nat, n: nat)
    requires WellFormed(h) && n >= MIN_BLOCK
    ensures var (h', p) := Malloc(h, limit, n);
            && WellFormed(h')
            && (p == 0 ==> h' == h)
            && (p != 0 ==> Live(h', p) && h'.blocks[p].size >= n)
  {
    hide WellFormed;
    FitAround(h, n);
    match FirstFit(h.blocks, h.free, n)
    case Some(p) =>
      PlaceWellFormed(h, p, n);
    case None =>
      var grown := Max(n, CHUNK_WORDS);
      ExtendWellFormed(h, grown);
      var (h1, p) := Extend(h, grown);
      PlaceWellFormed(h1, p, n);
  }
}
