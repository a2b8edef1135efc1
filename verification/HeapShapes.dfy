/** What allocation and freeing leave behind: where the block served came from, how much of it was cut off
    again, what a freed block was merged with, and in which order the free list stands. */
module HeapShapes {
  import opened Lists
  import opened HeapModel
  import opened HeapSteps
  import opened HeapFacts

  // ---------------------------------------------------------------------------------------------
  // Coalescing
  // ---------------------------------------------------------------------------------------------

  /** An allocated block is not listed, so removing it changes nothing. */
  lemma NotListed(h: Heap, p: nat, q: nat)
    requires Pending(h, p) && q in h.blocks && h.blocks[q].alloc
    ensures Remove(h.free, q) == h.free
  {
    hide Tiled, Coalesced;
    assert h.blocks[q].alloc;
    RemoveAbsent(h.free, q);
  }

  lemma UpShape(h: Heap, p: nat)
    requires Pending(h, p)
    ensures Next(h.blocks, p) in h.blocks
    ensures var next := Next(h.blocks, p);
            var h1 := CoalesceUp(h, p);
            && h1.free == Remove(h.free, next) && p in h1.blocks
            && Next(h1.blocks, p) == (if h.blocks[next].alloc then next else Next(h.blocks, next))
    ensures h.blocks[p].prev in h.blocks && h.blocks[p].prev in CoalesceUp(h, p).blocks
    ensures CoalesceUp(h, p).blocks[h.blocks[p].prev].alloc == h.blocks[h.blocks[p].prev].alloc
  {
    Around(h.blocks, h.top, p);
    SizedPositive(h.blocks, h.top, h.blocks[p].prev);
    NeighbourCases(h.blocks, h.top, p);
    hide Tiled, ListsFree, Coalesced, Remove, Pending;
    var next := Next(h.blocks, p);
    if h.blocks[next].alloc {
      NotListed(h, p, next);
    }
  }

  lemma DownShape(h: Heap, p: nat)
    requires Pending(h, p)
    ensures h.blocks[p].prev in h.blocks
    ensures var prev := h.blocks[p].prev;
            var (h1, q) := CoalesceDown(h, p);
            && q == (if h.blocks[prev].alloc then p else prev)
            && h1.free == Remove(h.free, prev) && q in h1.blocks && Next(h1.blocks, q) == Next(h.blocks, p)
  {
    Around(h.blocks, h.top, p);
    NeighbourCases(h.blocks, h.top, p);
    if h.blocks[h.blocks[p].prev].alloc { NotListed(h, p, h.blocks[p].prev); }
    hide Tiled, ListsFree, Coalesced, Remove;
  }

  /** Coalescing reaches from the start of a free block below to the end of a free block above.  The result is
      first in the list, before all others in their old order. */
  lemma CoalesceShape(h: Heap, p: nat)
    requires Pending(h, p)
    ensures h.blocks[p].prev in h.blocks && Next(h.blocks, p) in h.blocks
    ensures var next := Next(h.blocks, p);
            var prev := h.blocks[p].prev;
            var (h', q) := HeapModel.Coalesce(h, p);
            && q == (if h.blocks[prev].alloc then p else prev) && q in h'.blocks
            && Next(h'.blocks, q) == (if h.blocks[next].alloc then next else Next(h.blocks, next))
            && h'.free == [q] + Remove(Remove(h.free, next), prev)
  {
    CoalesceUpPending(h, p);
    hide Pending, CoalesceUp, CoalesceDown, Remove;
    UpShape(h, p);
    DownShape(CoalesceUp(h, p), p);
  }

  /** A freed block is merged with exactly its free neighbours and comes first in the list. */
  lemma FreeShape(h: Heap, p: nat)
    requires WellFormed(h) && Live(h, p)
    ensures h.blocks[p].prev in h.blocks && Next(h.blocks, p) in h.blocks
    ensures var next := Next(h.blocks, p);
            var prev := h.blocks[p].prev;
            var start := if h.blocks[prev].alloc then p else prev;
            var end := if h.blocks[next].alloc then next else Next(h.blocks, next);
            var h' := Free(h, p);
            && start in h'.blocks && !h'.blocks[start].alloc && Next(h'.blocks, start) == end
            && h'.free == [start] + Remove(Remove(h.free, next), prev)
  {
    LiveAround(h, p);
    MarkFreePending(h, p);
    CoalesceWellFormed(MarkFree(h, p), p);
    NextBeyond(h, p);
    hide WellFormed, Pending, HeapModel.Coalesce, Remove;
    CoalesceShape(MarkFree(h, p), p);
  }

  lemma NextBeyond(h: Heap, p: nat)
    requires WellFormed(h) && Live(h, p)
    ensures h.blocks[p].prev in h.blocks && Next(h.blocks, p) in h.blocks
    ensures h.blocks[p].prev < p < Next(h.blocks, p)
  {
    LiveAround(h, p);
    SizedPositive(h.blocks, h.top, p);
    SizedPositive(h.blocks, h.top, h.blocks[p].prev);
  }

  /** Growth reaches from the start of a free block at the end of the heap, or from the old end, to the new end. */
  lemma ExtendShape(h: Heap, n: nat)
    requires WellFormed(h) && n >= MIN_BLOCK
    ensures h.top in h.blocks && h.blocks[h.top].prev in h.blocks
    ensures var last := h.blocks[h.top].prev;
            var (h', q) := Extend(h, n);
            && q == (if h.blocks[last].alloc then h.top else last)
            && q in h'.blocks && Next(h'.blocks, q) == h.top + n
            && h'.free == [q] + Remove(h.free, q)
  {
    GrowPending(h, n);
    TopParts(h);
    hide WellFormed, Pending, HeapModel.Coalesce, Remove;
    CoalesceShape(Grow(h, n), h.top);
    NeverListed(h, h.top + n);
    NeverListed(h, h.top);
    if h.blocks[h.blocks[h.top].prev].alloc { NeverListed(h, h.blocks[h.top].prev); }
  }

  lemma TopParts(h: Heap)
    requires WellFormed(h)
    ensures h.top in h.blocks && h.blocks[h.top].alloc
    ensures h.blocks[h.top].prev in h.blocks && h.blocks[h.top].prev < h.top
  {
    TiledBounded(h.blocks, h.top);
    hide Apart, Sized, ListsFree, Coalesced;
    assert Next(h.blocks, h.blocks[h.top].prev) == h.top;
  }

  lemma NeverListed(h: Heap, q: nat)
    requires WellFormed(h) && (q !in h.blocks || h.blocks[q].alloc)
    ensures Remove(h.free, q) == h.free
  {
    hide Tiled, Coalesced;
    assert q in h.free ==> q in h.blocks;
    RemoveAbsent(h.free, q);
  }

  // ---------------------------------------------------------------------------------------------
  // Allocation
  // ---------------------------------------------------------------------------------------------

  /** Block `p`, of `s` words while it was free, is allocated for `n` words.  A rest that can be a block of its
      own is cut off and comes first in the list. */
  ghost predicate CutFrom(h: Heap, p: nat, n: nat, s: nat, others: seq<nat>) {
    && p in h.blocks && h.blocks[p].alloc
    && if s >= n + MIN_BLOCK
       then && h.blocks[p].size == n && h.free == [p + n] + others
            && p + n in h.blocks && h.blocks[p + n] == Block(s - n, false, p)
       else h.blocks[p].size == s && h.free == others
  }

  lemma PlaceShape(h: Heap, p: nat, n: nat)
    requires p in h.blocks && Next(h.blocks, p) in h.blocks && n >= MIN_BLOCK
    ensures CutFrom(Place(h, p, n), p, n, h.blocks[p].size, Remove(h.free, p))
  {
    hide Remove;
  }

  ghost predicate SomeFits(h: Heap, n: nat) {
    exists q {:trigger h.blocks[q]} :: q in h.blocks && !h.blocks[q].alloc && n <= h.blocks[q].size
  }

  /** Exactly which block an allocation takes, and what it leaves of it: the first listed block with room, or
      else everything from the last free block, if the heap ends with one, to the new end. */
  lemma MallocShape(h: Heap, limit: nat, n: nat)
    requires WellFormed(h) && n >= MIN_BLOCK && Malloc(h, limit, n).1 != 0
    ensures h.top in h.blocks && h.blocks[h.top].prev in h.blocks
    ensures var (h', p) := Malloc(h, limit, n);
            var last := h.blocks[h.top].prev;
            if SomeFits(h, n)
            then && p in h.blocks && n <= h.blocks[p].size && FirstAmong(h.blocks, h.free, n, p) && h'.top == h.top
                 && CutFrom(h', p, n, h.blocks[p].size, Remove(h.free, p))
            else && p == (if h.blocks[last].alloc then h.top else last)
                 && h'.top == h.top + Max(n, CHUNK_WORDS) && p + n <= h'.top
                 && CutFrom(h', p, n, h'.top - p, Remove(h.free, p))
  {
    TopParts(h);
    FitAround(h, n);
    FirstFitFound(h.blocks, h.free, n);
    FitIffSomeFreeBlock(h, n);
    hide WellFormed, Remove, Place, Extend, CutFrom, FirstAmong;
    match FirstFit(h.blocks, h.free, n)
    case Some(p) =>
      PlaceShape(h, p, n);
    case None =>
      var grown := Max(n, CHUNK_WORDS);
      ExtendWellFormed(h, grown);
      ExtendShape(h, grown);
      var (h1, p) := Extend(h, grown);
      PlaceShape(h1, p, n);
      HeadRemoved(p, Remove(h.free, p));
  }

  lemma HeadRemoved(p: nat, rest: seq<nat>)
    ensures Remove([p] + rest, p) == rest
  {
  }

  /** The block answered wastes less than a smallest block. */
  lemma MallocTight(h: Heap, limit: nat, n: nat)
    requires WellFormed(h) && n >= MIN_BLOCK && Malloc(h, limit, n).1 != 0
    ensures var (h', p) := Malloc(h, limit, n);
            p in h'.blocks && n <= h'.blocks[p].size < n + MIN_BLOCK
  {
    hide WellFormed, Malloc, FirstAmong, Remove;
    MallocShape(h, limit, n);
  }
}
