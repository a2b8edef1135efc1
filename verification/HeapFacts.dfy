/** What well-formedness of the heap means for a reader of memory: coverage, growth and the end state. */
module HeapFacts {
  import opened Lists
  import opened HeapModel
  import opened HeapSteps

  /** Word `i` belongs to block `p`, header included. */
  ghost predicate Owns(b: map<nat, Block>, p: nat, i: nat) {
    p in b && p <= i + 1 < Next(b, p)
  }

  lemma {:induction false} Walk(h: Heap, p: nat, i: nat) returns (q: nat)
    requires WellFormed(h) && p in h.blocks && p <= i + 1 < h.top
    ensures Owns(h.blocks, q, i)
    decreases h.top - p
  {
    if i + 1 < Next(h.blocks, p) {
      return p;
    }
    WalkOn(h, p);
    q := Walk(h, Next(h.blocks, p), i);
  }

  lemma WalkOn(h: Heap, p: nat)
    requires WellFormed(h) && p in h.blocks && p < h.top
    ensures p < Next(h.blocks, p) <= h.top && Next(h.blocks, p) in h.blocks
  {
    hide Apart, ListsFree, Coalesced;
    TiledBounded(h.blocks, h.top);
    SizedPositive(h.blocks, h.top, p);
  }

  /** Below the epilogue's header every word of the heap belongs to exactly one block. */
  lemma EveryWordOwnedOnce(h: Heap, i: nat)
    requires WellFormed(h) && i + 1 < h.top
    ensures exists p :: Owns(h.blocks, p, i)
    ensures forall p, q :: Owns(h.blocks, p, i) && Owns(h.blocks, q, i) ==> p == q
  {
    var _ := Walk(h, PROLOGUE, i);
    hide ListsFree, Coalesced, Forward, Backward, Sized;
    forall p, q | Owns(h.blocks, p, i) && Owns(h.blocks, q, i)
      ensures p == q
    {
      var ends := {Next(h.blocks, p), Next(h.blocks, q)};
    }
  }

  /** Once everything has been freed, the heap is one free block of all its words but three (prologue
      and epilogue), or nothing at all if it was never extended. */
  lemma AllFreed(h: Heap)
    requires WellFormed(h) && forall p :: !Live(h, p)
    ensures h.top >= 3
    ensures h.top == 3 ==> h.blocks == EMPTY_HEAP.blocks && h.free == []
    ensures h.top != 3 ==>
      && h.blocks == map[1 := Block(2, true, 0), 3 := Block(h.top - 3, false, 1), h.top := Block(0, true, 3)]
      && h.free == [3]
  {
    var b := h.blocks;
    WalkOn(h, PROLOGUE);
    TiledBounded(b, h.top);
    assert Next(b, PROLOGUE) == 3 && b[3].prev == PROLOGUE;
    if h.top != 3 {
      assert !Live(h, 3);
      FreeNeighboursAlloc(h, 0, 3);
      assert !Live(h, Next(b, 3));
      assert Next(b, 3) != PROLOGUE;
    }
    forall p | p in b
      ensures p in {1, 3, h.top}
    {
      OnlyThree(b, h.top, p);
    }
    assert b.Keys == {1, 3, h.top};
    FreeListExact(h);
  }

  lemma OnlyThree(b: map<nat, Block>, top: nat, p: nat)
    requires Apart(b) && p in b && 1 in b && Next(b, 1) == 3 && 3 in b && 1 <= p <= top
    requires top == 3 || Next(b, 3) == top
    ensures p in {1, 3, top}
  {
    assert 1 < p ==> Next(b, 1) <= p;
    assert 3 < p ==> Next(b, 3) <= p;
  }

  lemma EndsAlloc(h: Heap)
    requires WellFormed(h)
    ensures 1 in h.blocks && h.top in h.blocks && h.blocks[1].alloc && h.blocks[h.top].alloc
  {
    hide ListsFree, Coalesced, Forward, Backward, Apart, Sized;
  }

  lemma SomeElement(s: seq<nat>)
    ensures s == [] || exists x :: x in s
  {
    if s != [] { assert s[0] in s; }
  }

  lemma Singleton(s: seq<nat>, v: nat)
    requires Distinct(s) && v in s && forall x :: x in s ==> x == v
    ensures s == [v]
  {
    var j := if |s| > 1 then 1 else 0;
    assert s[0] in s && s[j] in s;
  }

  lemma FreeListExact(h: Heap)
    requires WellFormed(h) && h.blocks.Keys == {1, 3, h.top} && (h.top != 3 ==> !h.blocks[3].alloc)
    ensures h.free == if h.top == 3 then [] else [3]
  {
    hide Tiled, Coalesced;
    EndsAlloc(h);
    forall p | p in h.free
      ensures p == 3 && h.top != 3
    {
      assert p in h.blocks ==> !h.blocks[p].alloc;
    }
    assert h.top != 3 ==> 3 in h.free by { assert h.top != 3 ==> !h.blocks[3].alloc; }
    if h.top == 3 {
      assert forall p :: p !in h.free;
      SomeElement(h.free);
    } else {
      Singleton(h.free, 3);
    }
  }

  /** `mm_malloc` moves the break exactly when no free block of the whole heap is large enough and the
      region still has room; otherwise it serves the first such block in list order, or fails with the
      heap unchanged. */
  lemma MallocGrowsIff(h: Heap, limit: nat, n: nat)
    requires WellFormed(h) && n >= MIN_BLOCK
    ensures var (h', p) := Malloc(h, limit, n);
            var noFit := forall q :: q in h.blocks && !h.blocks[q].alloc ==> h.blocks[q].size < n;
            var room := h.top + Max(n, CHUNK_WORDS) <= limit;
            && (h'.top != h.top <==> noFit && room)
            && (h'.top != h.top ==> h'.top == h.top + Max(n, CHUNK_WORDS))
            && (p == 0 <==> noFit && !room)
            && (p == 0 ==> h' == h)
  {
    hide WellFormed;
    FitIffSomeFreeBlock(h, n);
    FitAround(h, n);
    MallocWellFormed(h, limit, n);
    match FirstFit(h.blocks, h.free, n)
    case Some(p) =>
    case None =>
      ExtendWellFormed(h, Max(n, CHUNK_WORDS));
  }

  // ---------------------------------------------------------------------------------------------
  // Exactly which blocks are live after a call
  // ---------------------------------------------------------------------------------------------

  /** Every block allocated in `b'` was allocated in `b`, apart from `p`. */
  ghost predicate NothingNew(b: map<nat, Block>, b': map<nat, Block>, p: nat) {
    forall q {:trigger b'[q].alloc} :: q in b' && b'[q].alloc && q != p ==> q in b && b[q].alloc
  }

  lemma NothingNewTrans(b0: map<nat, Block>, b1: map<nat, Block>, b2: map<nat, Block>, p: nat)
    requires NothingNew(b0, b1, p) && NothingNew(b1, b2, p)
    ensures NothingNew(b0, b2, p)
  {
    forall q | q in b2 && b2[q].alloc && q != p
      ensures q in b0 && b0[q].alloc
    {
      assert b1[q].alloc;
    }
  }

  lemma PlaceNothingNew(h: Heap, p: nat, n: nat)
    requires p in h.blocks && Next(h.blocks, p) in h.blocks
    ensures NothingNew(h.blocks, Place(h, p, n).blocks, p)
  {
  }

  lemma CoalesceNothingNew(h: Heap, p: nat)
    ensures NothingNew(h.blocks, Coalesce(h, p).0.blocks, 0)
  {
    NothingNewTrans(h.blocks, CoalesceUp(h, p).blocks, Coalesce(h, p).0.blocks, 0);
  }

  /** A free takes exactly its own block from the live ones. */
  lemma LiveAfterFree(h: Heap, p: nat, q: nat)
    requires WellFormed(h) && Live(h, p)
    ensures Live(Free(h, p), q) <==> Live(h, q) && q != p
    ensures Live(h, q) && q != p ==> Free(h, p).blocks[q].size == h.blocks[q].size
  {
    TiledBounded(h.blocks, h.top);
    if Live(h, q) { LiveAround(h, q); }
    hide WellFormed, Pending, HeapModel.Coalesce;
    MarkFreePending(h, p);
    FreeWellFormed(h, p);
    CoalesceKeeps(MarkFree(h, p), p);
    CoalesceNothingNew(MarkFree(h, p), p);
    assert q in MarkFree(h, p).blocks ==> MarkFree(h, p).blocks[q].alloc == (q != p && h.blocks[q].alloc);
  }

  /** An allocation adds exactly the block it answers, or none when it answers NULL. */
  lemma LiveAfterMalloc(h: Heap, limit: nat, n: nat, q: nat)
    requires WellFormed(h) && n >= MIN_BLOCK
    ensures var (h', p) := Malloc(h, limit, n);
            Live(h', q) <==> Live(h, q) || (p != 0 && q == p)
  {
    hide WellFormed, Malloc;
    MallocAllocated(h, limit, n);
    MallocWellFormed(h, limit, n);
    if Live(Malloc(h, limit, n).0, q) && q != Malloc(h, limit, n).1 { OnlyTheNewOne(h, limit, n, q); }
  }

  lemma OnlyTheNewOne(h: Heap, limit: nat, n: nat, q: nat)
    requires WellFormed(h) && n >= MIN_BLOCK && Live(Malloc(h, limit, n).0, q) && q != Malloc(h, limit, n).1
    ensures Live(h, q)
  {
    FitAround(h, n);
    match FirstFit(h.blocks, h.free, n)
    case Some(p) =>
      PlaceNothingNew(h, p, n);
    case None =>
      var grown := Max(n, CHUNK_WORDS);
      if h.top + grown <= limit {
        ExtendWellFormed(h, grown);
        var (h1, p) := Extend(h, grown);
        CoalesceNothingNew(Grow(h, grown), h.top);
        PlaceNothingNew(h1, p, n);
        hide WellFormed;
        assert h1.blocks[q].alloc;
        assert Grow(h, grown).blocks[q].alloc;
      }
  }

  /** Some free block is large enough, or the region has room for one more chunk. */
  ghost predicate CanServe(h: Heap, limit: nat, n: nat) {
    || (exists q {:trigger h.blocks[q]} :: q in h.blocks && !h.blocks[q].alloc && n <= h.blocks[q].size)
    || h.top + Max(n, CHUNK_WORDS) <= limit
  }

  lemma ServedIff(h: Heap, limit: nat, n: nat)
    requires WellFormed(h) && n >= MIN_BLOCK
    ensures Malloc(h, limit, n).1 != 0 <==> CanServe(h, limit, n)
  {
    MallocGrowsIff(h, limit, n);
  }
}
