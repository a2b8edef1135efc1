/**
  The allocator itself: `mm.c` over the break of `memlib.c`, working in place on one array of
  8-byte words.
*/
module Mm {
  import opened Lists
  import opened HeapModel
  import opened HeapMemory
  import opened HeapSteps
  import opened Requests

  class Allocator {
    const mem: array<nat>      // mem_start_brk up to mem_max_addr
    var brk: nat               // mem_brk
    var heapListp: int         // 0 for NULL, -1 for a failed mem_sbrk
    var freeListHead: nat

    ghost var h: Heap

    ghost predicate Rep(stale: set<nat>)
      reads this, mem
    {
      && heapListp == PROLOGUE && brk == h.top && freeListHead == HeadOf(h.free)
      && Shows(mem[..], h, stale)
    }

    method Put(i: nat, v: nat)
      requires i < mem.Length
      modifies mem
      ensures mem[..] == old(mem[..])[i := v]
    {
      mem[i] := v;
    }

    method RemoveFromFreeList(bp: nat, ghost stale: set<nat>)
      requires Listed(h) && bp in h.free && Rep(stale)
      modifies this`freeListHead, this`h, mem
      ensures h == old(h).(free := Remove(old(h.free), bp))
      ensures Listed(h) && Rep(stale)
      ensures OnlyLinks(old(mem[..]), mem[..], old(h.free))
      ensures Untouched(old(mem[..]), mem[..], h.blocks)
    {
      UnlinkShows(mem[..], h, bp, stale);
      RemoveListed(h, bp);
      ghost var m := mem[..];
      var prev := mem[bp];
      var next := mem[bp + 1];
      if prev != 0 {
        Put(prev + 1, next);
      } else {
        freeListHead := next;
      }
      if next != 0 {
        Put(next, prev);
      }
      assert mem[..] == Unlink(m, bp);
      h := h.(free := Remove(h.free, bp));
    }

    method AddToFreeList(bp: nat)
      requires Listed(h.(free := [bp] + h.free)) && Rep({}) && bp + 1 < mem.Length
      modifies this`freeListHead, this`h, mem
      ensures h == old(h).(free := [bp] + old(h.free))
      ensures Rep({})
      ensures Untouched(old(mem[..]), mem[..], h.blocks)
    {
      PushShows(mem[..], h, bp, {});
      ghost var m := mem[..];
      Put(bp, 0);
      Put(bp + 1, freeListHead);
      if freeListHead != 0 {
        Put(freeListHead, bp);
      }
      assert mem[..] == Push(m, bp, HeadOf(h.free));
      freeListHead := bp;
      h := h.(free := [bp] + h.free);
    }

    /** The list can be walked: links, and a right header before each listed block. */
    ghost predicate Walkable()
      reads this, mem
    {
      && freeListHead == HeadOf(h.free) && Links(mem[..], h.free) && Spaced(h.free)
      && forall p {:trigger p in h.free} :: p in h.free ==> p in h.blocks && HeaderAt(mem[..], h.blocks, p)
    }

    lemma ReadyWalkable()
      requires WellFormed(h) && Rep({})
      ensures Walkable()
    {
      hide Tiled, Coalesced;
      ListsFreeListed(h, 0);
      Basics(h);
      forall p | p in h.free
        ensures p in h.blocks && HeaderAt(mem[..], h.blocks, p)
      {
        assert p in h.blocks ==> HeaderAt(mem[..], h.blocks, p);
      }
    }

    /** The first listed block with room for `n` words, 0 for none. */
    method FindFit(n: nat) returns (bp: nat)
      requires Walkable()
      ensures bp == match FirstFit(h.blocks, h.free, n) case Some(p) => p case None => 0
    {
      bp := freeListHead;
      ghost var i: nat := 0;
      while bp != 0
        invariant i <= |h.free|
        invariant bp == if i < |h.free| then h.free[i] else 0
        invariant FirstFit(h.blocks, h.free, n) == FirstFit(h.blocks, h.free[i..], n)
        decreases |h.free| - i
      {
        assert h.free[i..][1..] == h.free[i + 1..];
        assert bp in h.free;
        assert HeaderAt(mem[..], h.blocks, bp) && Linked(mem[..], h.free, i);
        Unpack(h.blocks[bp].size, PrevAlloc(h.blocks, bp), h.blocks[bp].alloc);
        if n <= SizeOf(mem[bp - 1]) {
          return;
        }
        bp := mem[bp + 1];
        i := i + 1;
      }
    }

    /** Take `n` words of the free block `bp`, splitting it when the rest can stand alone. */
    method Place(bp: nat, n: nat)
      requires WellFormed(h) && Rep({}) && n >= MIN_BLOCK
      requires bp in h.blocks && !h.blocks[bp].alloc && n <= h.blocks[bp].size && Next(h.blocks, bp) in h.blocks
      modifies this`freeListHead, this`h, mem
      ensures h == HeapModel.Place(old(h), bp, n)
      ensures WellFormed(h) && Rep({})
      ensures Untouched(old(mem[..]), mem[..], old(h.blocks))
    {
      PlaceWellFormed(h, bp, n);
      FreeFacts(mem[..], h, bp);
      var csize := SizeOf(mem[bp - 1]);
      if csize >= n + MIN_BLOCK {
        PlaceSplit(bp, csize, n);
      } else {
        PlaceWhole(bp, csize);
      }
    }

    /** The branch of `place` that cuts the block in two. */
    method PlaceSplit(bp: nat, csize: nat, n: nat)
      requires WellFormed(h) && Rep({}) && n >= MIN_BLOCK
      requires bp in h.blocks && !h.blocks[bp].alloc && Next(h.blocks, bp) in h.blocks
      requires csize == h.blocks[bp].size >= n + MIN_BLOCK
      modifies this`freeListHead, this`h, mem
      ensures h == HeapModel.Place(old(h), bp, n)
      ensures Rep({})
      ensures Untouched(old(mem[..]), mem[..], old(h.blocks))
    {
      hide WellFormed, Untouched, OnlyLinks, Headers, Footers, Links, Keeps, Listed, IsLink;
      ghost var m0, h0 := mem[..], h;
      FreeFacts(m0, h, bp);
      StaleHeader(m0, h, bp, PackHdr(n, true, true), {});
      Put(bp - 1, PackHdr(n, true, true));
      ghost var m1 := mem[..];
      RemoveListed(h, bp);
      assert {} + {bp} == {bp};
      RemoveFromFreeList(bp, {bp});
      ghost var m2 := mem[..];
      HeaderSurvives(m1, m2, h0, bp);
      var next := bp + SizeOf(mem[bp - 1]);
      SplitShows(m2, h, bp, n);
      Put(next - 1, PackHdr(csize - n, true, false));
      Put(next + SizeOf(mem[next - 1]) - 2, 8 * (csize - n));
      ghost var m3 := mem[..];
      assert m3 == SplitMem(m2, bp, csize, n);
      h := h.(blocks := SplitBlocks(h.blocks, bp, n));
      AddToFreeList(next);
      KeepsUntouched(m3, mem[..], h0.blocks, h.blocks);
      UntouchedTrans(m0, m1, m2, h0.blocks);
      UntouchedTrans(m0, m2, m3, h0.blocks);
      UntouchedTrans(m0, m3, mem[..], h0.blocks);
    }

    /** The branch of `place` that hands out the whole block. */
    method PlaceWhole(bp: nat, csize: nat)
      requires WellFormed(h) && Rep({})
      requires bp in h.blocks && !h.blocks[bp].alloc && Next(h.blocks, bp) in h.blocks
      requires csize == h.blocks[bp].size
      modifies this`freeListHead, this`h, mem
      ensures h == Heap(old(h.blocks)[bp := old(h.blocks[bp]).(alloc := true)], Remove(old(h.free), bp), old(h.top))
      ensures Rep({})
      ensures Untouched(old(mem[..]), mem[..], old(h.blocks))
    {
      hide WellFormed, Untouched, OnlyLinks, Headers, Footers, Links, Keeps, Listed, IsLink;
      ghost var m0, h0 := mem[..], h;
      FreeFacts(m0, h, bp);
      StaleHeader(m0, h, bp, PackHdr(csize, true, true), {});
      Put(bp - 1, PackHdr(csize, true, true));
      ghost var m1 := mem[..];
      var next := bp + SizeOf(mem[bp - 1]);
      StaleHeader(m1, h, next, SetPrev(mem[next - 1]), {} + {bp});
      Put(next - 1, SetPrev(mem[next - 1]));
      ghost var m2 := mem[..];
      assert {} + {bp} + {next} == {bp, next};
      RemoveListed(h, bp);
      RemoveFromFreeList(bp, {bp, next});
      HeaderSurvives(m2, mem[..], h0, bp);
      HeaderSurvives(m2, mem[..], h0, next);
      TakeShows(mem[..], h, bp);
      h := h.(blocks := h.blocks[bp := h.blocks[bp].(alloc := true)]);
      UntouchedTrans(m0, m1, m2, h0.blocks);
      UntouchedTrans(m0, m2, mem[..], h0.blocks);
    }

    /** The branch of `coalesce` that absorbs the next block only. */
    method CoalesceNext(bp: nat)
      requires Pending(h, bp) && Rep({}) && NextFree(h.blocks, bp) && !PrevFree(h.blocks, bp)
      modifies this`freeListHead, this`h, mem
      ensures h == CoalesceUp(old(h), bp)
      ensures Rep({}) && Listed(h.(free := [bp] + h.free))
      ensures Untouched(old(mem[..]), mem[..], old(h.blocks)) && Keeps(old(h.blocks), h.blocks)
    {
      hide WellFormed, Pending, Untouched, OnlyLinks, Headers, Footers, Links, Keeps, Listed, IsLink;
      ghost var m0, h0 := mem[..], h;
      PendingFacts(m0, h, bp);
      NextFacts(h, bp);
      var next := bp + SizeOf(mem[bp - 1]);
      RemoveListed(h, next);
      RemoveFromFreeList(next, {});
      ghost var m1 := mem[..];
      HeaderSurvives(m0, m1, h0, bp);
      HeaderSurvives(m0, m1, h0, next);
      var size := SizeOf(mem[bp - 1]) + SizeOf(mem[next - 1]);
      ShowsWeaken(m1, h, {}, {bp, next});
      MergeShows(m1, h, bp);
      Put(bp - 1, PackHdr(size, true, false));
      Put(bp + SizeOf(mem[bp - 1]) - 2, 8 * size);
      assert mem[..] == MergeMem(m1, bp, size);
      h := h.(blocks := MergeNext(h.blocks, bp));
      UntouchedTrans(m0, m1, mem[..], h0.blocks);
    }

    /** The branch of `coalesce` that is absorbed by the previous block only. */
    method CoalescePrev(bp: nat) returns (r: nat)
      requires Pending(h, bp) && Rep({}) && !NextFree(h.blocks, bp) && PrevFree(h.blocks, bp)
      modifies this`freeListHead, this`h, mem
      ensures (h, r) == CoalesceDown(old(h), bp)
      ensures Rep({}) && Listed(h.(free := [r] + h.free))
      ensures Untouched(old(mem[..]), mem[..], old(h.blocks)) && Keeps(old(h.blocks), h.blocks)
    {
      hide WellFormed, Pending, Untouched, OnlyLinks, Headers, Footers, Links, Keeps, Listed, IsLink;
      ghost var m0, h0 := mem[..], h;
      PendingFacts(m0, h, bp);
      PrevFacts(m0, h, bp);
      r := bp - SizeOf(mem[bp - 2]);
      RemoveListed(h, r);
      RemoveFromFreeList(r, {});
      ghost var m1 := mem[..];
      HeaderSurvives(m0, m1, h0, bp);
      HeaderSurvives(m0, m1, h0, r);
      FooterSurvives(m0, m1, h0, r);
      var size := SizeOf(mem[bp - 1]) + SizeOf(mem[bp - SizeOf(mem[bp - 2]) - 1]);
      ShowsWeaken(m1, h, {}, {r, bp});
      MergeShows(m1, h, r);
      Put(bp + SizeOf(mem[bp - 1]) - 2, 8 * size);
      Put(bp - SizeOf(mem[bp - 2]) - 1, PackHdr(size, true, false));
      assert mem[..] == MergeMem(m1, r, size);
      h := h.(blocks := MergeNext(h.blocks, r));
      UntouchedTrans(m0, m1, mem[..], h0.blocks);
    }

    /** The tags that `coalesce` reads after unlisting its neighbours. */
    ghost predicate TagsAround(b: map<nat, Block>, p: nat)
      requires Site(b, p)
      reads mem
    {
      var q, n := b[p].prev, Next(b, p);
      && 3 <= q && q + 2 <= p && n <= mem.Length && mem[p - 2] == 8 * b[q].size
      && SizeOf(mem[p - 1]) == b[p].size && SizeOf(mem[q - 1]) == b[q].size && SizeOf(mem[n - 1]) == b[n].size
    }

    method UnlinkNeighbours(bp: nat, prev: nat, next: nat)
      requires Pending(h, bp) && Rep({}) && NextFree(h.blocks, bp) && PrevFree(h.blocks, bp)
      requires prev == h.blocks[bp].prev && next == Next(h.blocks, bp)
      modifies this`freeListHead, this`h, mem
      ensures h == old(h).(free := Remove(Remove(old(h.free), prev), next))
      ensures Listed(h) && Rep({}) && Site(h.blocks, bp) && TagsAround(h.blocks, bp)
      ensures Untouched(old(mem[..]), mem[..], h.blocks)
    {
      hide WellFormed, Pending, Shows, Untouched, OnlyLinks, Headers, Footers, Links, Keeps, Listed, IsLink;
      ghost var m0, h0 := mem[..], h;
      PendingFacts(m0, h, bp);
      PrevFacts(m0, h, bp);
      BothLists(h, bp);
      RemoveListed(h, prev);
      RemoveFromFreeList(prev, {});
      ghost var m1, h1 := mem[..], h;
      Survives(m0, m1, h0, bp, prev, next);
      RemoveListed(h, next);
      RemoveFromFreeList(next, {});
      Survives(m1, mem[..], h1, bp, prev, next);
      UntouchedTrans(m0, m1, mem[..], h0.blocks);
    }

    /** The branch of `coalesce` in which both neighbours are free. */
    method CoalesceBoth(bp: nat) returns (r: nat)
      requires Pending(h, bp) && Rep({}) && NextFree(h.blocks, bp) && PrevFree(h.blocks, bp)
      modifies this`freeListHead, this`h, mem
      ensures (h, r) == CoalesceDown(CoalesceUp(old(h), bp), bp)
      ensures Rep({}) && Listed(h.(free := [r] + h.free))
      ensures Untouched(old(mem[..]), mem[..], old(h.blocks)) && Keeps(old(h.blocks), h.blocks)
    {
      hide CoalesceUp, CoalesceDown, MergeNext, Remove, WellFormed, Pending, Shows, Untouched, OnlyLinks,
        Headers, Footers, Links, Keeps, Listed, IsLink;
      ghost var m0, h0 := mem[..], h;
      PendingFacts(m0, h, bp);
      PrevFacts(m0, h, bp);
      BothLists(h, bp);
      BothSpec(h, bp);
      UnlinkNeighbours(bp, bp - SizeOf(mem[bp - 2]), bp + SizeOf(mem[bp - 1]));
      ghost var m1 := mem[..];
      r := bp - SizeOf(mem[bp - 2]);
      var next := bp + SizeOf(mem[bp - 1]);
      var size := SizeOf(mem[bp - 1]) + SizeOf(mem[r - 1]) + SizeOf(mem[next - 1]);
      MergeBothShows(m1, h, bp);
      Put(r - 1, PackHdr(size, true, false));
      Put(next + SizeOf(mem[next - 1]) - 2, 8 * size);
      assert mem[..] == MergeMem(m1, r, size);
      h := h.(blocks := MergeNext(MergeNext(h.blocks, bp), r));
      UntouchedTrans(m0, m1, mem[..], h0.blocks);
    }

    /** The two allocation bits that `coalesce` looks at tell which neighbours are free. */
    method ReadBits(bp: nat) returns (prevAlloc: bool, nextAlloc: bool)
      requires Pending(h, bp) && Rep({})
      ensures prevAlloc == !PrevFree(h.blocks, bp) && nextAlloc == !NextFree(h.blocks, bp)
    {
      hide WellFormed, Pending, NextFree, PrevFree, Shows, Listed, PackHdr, SizeOf, AllocOf, PrevAllocOf, PrevAlloc;
      PendingFacts(mem[..], h, bp);
      ghost var next := h.blocks[Next(h.blocks, bp)];
      Unpack(h.blocks[bp].size, PrevAlloc(h.blocks, bp), false);
      Unpack(next.size, false, next.alloc);
      prevAlloc := PrevAllocOf(mem[bp - 1]);
      nextAlloc := AllocOf(mem[bp + SizeOf(mem[bp - 1]) - 1]);
    }

    /** The four cases of `coalesce`: merge the unlisted free block with its free neighbours. */
    method MergeNeighbours(bp: nat) returns (r: nat)
      requires Pending(h, bp) && Rep({})
      modifies this`freeListHead, this`h, mem
      ensures (h, r) == CoalesceDown(CoalesceUp(old(h), bp), bp)
      ensures Rep({}) && Listed(h.(free := [r] + h.free))
      ensures Untouched(old(mem[..]), mem[..], old(h.blocks)) && Keeps(old(h.blocks), h.blocks)
    {
      hide WellFormed, Pending, CoalesceUp, CoalesceDown, NextFree, PrevFree, Untouched, Shows, Keeps, Listed;
      CoalesceCases(h, bp);
      var prevAlloc, nextAlloc := ReadBits(bp);
      r := bp;
      if prevAlloc && !nextAlloc {
        CoalesceNext(bp);
      } else if !prevAlloc && nextAlloc {
        r := CoalescePrev(bp);
      } else if !prevAlloc && !nextAlloc {
        r := CoalesceBoth(bp);
      } else {
        KeepsSelf(h.blocks);
        UntouchedSelf(mem[..], h.blocks);
        PendingListed(h, bp);
      }
    }

    /** Merge the unlisted free block `bp` with its free neighbours and list the result. */
    method Coalesce(bp: nat) returns (r: nat)
      requires Pending(h, bp) && Rep({})
      modifies this`freeListHead, this`h, mem
      ensures (h, r) == HeapModel.Coalesce(old(h), bp)
      ensures WellFormed(h) && Rep({})
      ensures Untouched(old(mem[..]), mem[..], old(h.blocks))
    {
      hide WellFormed, Pending, CoalesceUp, CoalesceDown, Untouched, OnlyLinks, Headers, Footers, Links, Keeps,
        Listed, IsLink;
      ghost var m0, h0 := mem[..], h;
      CoalesceWellFormed(h, bp);
      r := MergeNeighbours(bp);
      ghost var m1, h1 := mem[..], h;
      ListedInside(h, r, m1);
      AddToFreeList(r);
      KeepsUntouched(m1, mem[..], h0.blocks, h1.blocks);
      UntouchedTrans(m0, m1, mem[..], h0.blocks);
    }

    /** mem_sbrk: the old break, or -1 when the region is exhausted. */
    method MemSbrk(words: nat) returns (old_brk: int)
      modifies this`brk
      ensures old(brk) + words > mem.Length ==> old_brk == -1 && brk == old(brk)
      ensures old(brk) + words <= mem.Length ==> old_brk == old(brk) && brk == old(brk) + words
    {
      if brk + words > mem.Length {
        return -1;
      }
      old_brk := brk;
      brk := brk + words;
    }

    /** mem_reset_brk: what the region holds stays, but no heap is left in it until `mm_init`. */
    method MemResetBrk()
      modifies this`brk
      ensures brk == 0
    {
      brk := 0;
    }

    ghost predicate Ready()
      reads this, mem
    {
      WellFormed(h) && Rep({})
    }

    /** Either a heap in good order, or none yet: not started, or refused by mem_sbrk for good. */
    ghost predicate Valid()
      reads this, mem
    {
      || Ready()
      || (heapListp == 0 && brk == 0 && freeListHead == 0 && h == NO_HEAP)
      || (heapListp == -1 && brk == 0 && freeListHead == 0 && h == NO_HEAP && mem.Length < 3)
    }

    /** Turn the old epilogue into a free block of `n` words and coalesce it; 0 when the break cannot move. */
    method ExtendHeap(n: nat) returns (bp: nat)
      requires n >= MIN_BLOCK && (Ready() || brk + n > mem.Length)
      modifies this, mem
      ensures old(brk) + n > mem.Length ==> bp == 0 && unchanged(this) && mem[..] == old(mem[..])
      ensures old(brk) + n <= mem.Length ==>
        && old(brk) == old(h).top && old(h).top in old(h).blocks && Ready() && (h, bp) == Extend(old(h), n)
        && Untouched(old(mem[..]), mem[..], old(h.blocks))
    {
      hide Tiled, ListsFree, Coalesced, Shows, Untouched, Headers, Footers, Links;
      ghost var m0, h0 := mem[..], h;
      var r := MemSbrk(n);
      if r == -1 {
        return 0;
      }
      TopInside(m0, h);
      bp := r;
      GrowShows(m0, h, n);
      GrowPending(h, n);
      Put(bp - 1, PackHdr(n, PrevAllocOf(mem[bp - 1]), false));
      Put(bp + SizeOf(mem[bp - 1]) - 2, 8 * n);
      Put(bp + SizeOf(mem[bp - 1]) - 1, PackHdr(0, false, true));
      ghost var m1 := mem[..];
      assert m1 == GrowMem(m0, h.top, n, PrevAlloc(h.blocks, h.top));
      h := Grow(h, n);
      bp := Coalesce(bp);
      TiledOf(h0);
      GrowKeeps(h0, n);
      KeepsUntouched(m1, mem[..], h0.blocks, Grow(h0, n).blocks);
      UntouchedTrans(m0, m1, mem[..], h0.blocks);
    }

    constructor (words: nat)
      ensures Valid() && heapListp == 0 && mem.Length == words && fresh(mem)
    {
      mem := new nat[words];
      brk, heapListp, freeListHead := 0, 0, 0;
      h := NO_HEAP;
    }

    method MmInit() returns (status: int)
      requires brk == 0
      modifies this, mem
      ensures Valid() && heapListp != 0
      ensures mem.Length < 3 ==> status == -1 && !Ready() && mem[..] == old(mem[..])
      ensures mem.Length >= 3 ==> status == 0 && Ready() && h == EMPTY_HEAP
      ensures mem.Length >= 3 ==> Untouched(old(mem[..]), mem[..], EMPTY_HEAP.blocks)
    {
      var r := MemSbrk(3);
      if r == -1 {
        heapListp := -1;
        freeListHead := 0;
        h := NO_HEAP;
        return -1;
      }
      ghost var m0 := mem[..];
      Put(r, PackHdr(2, true, true));
      heapListp := r + 1;
      Put(1 + SizeOf(mem[0]) - 1, PackHdr(0, true, true));
      freeListHead := 0;
      h := EMPTY_HEAP;
      InitShows(m0);
      status := 0;
    }

    /** The heap a call starts from: the current one, or the one `mm_init` would build. */
    ghost function StartHeap(): Heap
      reads this
    {
      if heapListp == PROLOGUE then h else EMPTY_HEAP
    }

    ghost predicate CanStart()
      reads this
    {
      heapListp == PROLOGUE || (heapListp == 0 && mem.Length >= 3)
    }

    lemma ValidWalkable()
      requires Valid()
      ensures Walkable()
      ensures heapListp == PROLOGUE ==> Ready()
    {
      if Ready() { ReadyWalkable(); }
    }

    method MmMalloc(size: nat) returns (bp: nat)
      requires Valid() && size <= MAX_REQUEST
      modifies this, mem
      ensures Valid()
      ensures size == 0 || !old(CanStart()) ==> bp == 0 && mem[..] == old(mem[..]) && h == old(h)
      ensures size == 0 ==> heapListp == old(heapListp)
      ensures size > 0 && old(CanStart()) ==>
        && Ready() && WellFormed(old(StartHeap())) && MallocSize(size) / 8 >= MIN_BLOCK
        && (h, bp) == Malloc(old(StartHeap()), mem.Length, MallocSize(size) / 8)
        && Untouched(old(mem[..]), mem[..], old(StartHeap()).blocks)
    {
      hide WellFormed, Shows, Untouched, Walkable;
      if size == 0 {
        return 0;
      }
      ghost var m0, start, canStart := mem[..], StartHeap(), CanStart();
      ValidWalkable();
      UntouchedSelf(m0, h.blocks);
      if heapListp == 0 {
        var _ := MmInit();
      }
      ghost var m1 := mem[..];
      ValidWalkable();
      SmallRequest(size);
      var asize := MallocSize(size) / 8;
      if canStart {
        FitAround(h, asize);
        ExtendWellFormed(h, Max(asize, CHUNK_WORDS));
        MallocKeeps(h, mem.Length, asize);
      }
      bp := FindFit(asize);
      if bp != 0 {
        Place(bp, asize);
        UntouchedTrans(m0, m1, mem[..], start.blocks);
        return;
      }
      bp := ExtendHeap(Max(asize, CHUNK_WORDS));
      if bp == 0 {
        return;
      }
      ghost var m2, h2 := mem[..], h;
      ExtendKeeps(start, Max(asize, CHUNK_WORDS));
      Place(bp, asize);
      KeepsUntouched(m2, mem[..], start.blocks, h2.blocks);
      UntouchedTrans(m1, m2, mem[..], start.blocks);
      UntouchedTrans(m0, m1, mem[..], start.blocks);
    }

    /** Turn a live block into a free one, not yet listed: header, footer and the next block's bit. */
    method MarkBlockFree(bp: nat)
      requires Ready() && Live(h, bp)
      modifies this`h, mem
      ensures bp in old(h).blocks && h == MarkFree(old(h), bp)
      ensures Pending(h, bp) && Rep({}) && Untouched(old(mem[..]), mem[..], h.blocks)
    {
      hide WellFormed, Pending, Shows, Untouched, PackHdr, SizeOf, PrevAllocOf, AllocOf, SetPrev, UnsetPrev, PrevAlloc;
      ghost var m0 := mem[..];
      Unpack(h.blocks[bp].size, PrevAlloc(h.blocks, bp), true);
      Unpack(h.blocks[bp].size, PrevAlloc(h.blocks, bp), false);
      MarkFreePending(h, bp);
      FreeShows(m0, h, bp);
      LiveTags(m0, h, bp);
      var size := SizeOf(mem[bp - 1]);
      Put(bp - 1, PackHdr(size, PrevAllocOf(mem[bp - 1]), false));
      Put(bp + SizeOf(mem[bp - 1]) - 2, 8 * size);
      var next := bp + SizeOf(mem[bp - 1]);
      Put(next - 1, UnsetPrev(mem[next - 1]));
      assert mem[..] == FreeMem(m0, bp, size, PrevAlloc(h.blocks, bp));
      h := MarkFree(h, bp);
    }

    method MmFree(bp: nat)
      requires Valid() && (bp == 0 || (Ready() && Live(h, bp)))
      modifies this, mem
      ensures Valid() && heapListp == old(heapListp)
      ensures bp == 0 ==> h == old(h) && mem[..] == old(mem[..])
      ensures bp != 0 ==>
        && Ready() && bp in old(h).blocks && h == Free(old(h), bp)
        && Untouched(old(mem[..]), mem[..], MarkFree(old(h), bp).blocks)
    {
      hide WellFormed, Pending, Live, MarkFree, HeapModel.Coalesce, Shows, Untouched;
      if bp == 0 {
        return;
      }
      ghost var m0 := mem[..];
      MarkBlockFree(bp);
      ghost var m1, h1 := mem[..], h;
      var _ := Coalesce(bp);
      UntouchedTrans(m0, m1, mem[..], h1.blocks);
    }

    /** memcpy of `words` words. */
    method Memcpy(dst: nat, src: nat, words: nat)
      requires dst + words <= mem.Length && src + words <= mem.Length
      requires dst + words <= src || src + words <= dst
      modifies mem
      ensures mem[..] == old(mem[..])[..dst] + old(mem[..])[src..src + words] + old(mem[..])[dst + words..]
    {
      forall i | 0 <= i < words {
        mem[dst + i] := mem[src + i];
      }
    }

    method MmRealloc(bp: nat, size: nat) returns (r: nat)
      requires Valid() && size * 2 <= MAX_REQUEST && (bp == 0 || (Ready() && Live(h, bp)))
      modifies this, mem
      ensures Valid()
      ensures bp == 0 && (size == 0 || !old(CanStart())) ==> r == 0 && mem[..] == old(mem[..])
      ensures bp == 0 && size > 0 && old(CanStart()) ==>
        && Ready() && WellFormed(old(StartHeap())) && MallocSize(size) / 8 >= MIN_BLOCK
        && (h, r) == Malloc(old(StartHeap()), mem.Length, MallocSize(size) / 8)
        && Untouched(old(mem[..]), mem[..], old(StartHeap()).blocks)
      ensures bp != 0 && size == 0 ==>
        && r == 0 && Ready() && bp in old(h).blocks && h == Free(old(h), bp)
        && Untouched(old(mem[..]), mem[..], MarkFree(old(h), bp).blocks)
      ensures bp != 0 && size > 0 && bp in old(h).blocks && BlockSize(size) / 8 <= old(h).blocks[bp].size ==>
        r == bp && h == old(h) && mem[..] == old(mem[..])
      ensures bp != 0 && size > 0 && bp in old(h).blocks && BlockSize(size) / 8 > old(h).blocks[bp].size ==>
        && Ready() && WellFormed(old(h)) && MallocSize(size * 2) / 8 >= MIN_BLOCK
        && (var (h1, new_bp) := Malloc(old(h), mem.Length, MallocSize(size * 2) / 8);
            && r == new_bp
            && (r == 0 ==> h == old(h) && Untouched(old(mem[..]), mem[..], old(h).blocks))
            && (r != 0 ==>
                  var words := old(h).blocks[bp].size - 1;
                  && bp in h1.blocks && h == Free(h1, bp)
                  && Untouched(old(mem[..]), mem[..], MarkFree(old(h), bp).blocks)
                  && r + words <= mem.Length && bp + words <= mem.Length
                  && mem[r..r + words] == old(mem[bp..bp + words])))
    {
      hide WellFormed, Tiled, Shows, Untouched, Headers, Footers, Links, Malloc, Free, MarkFree, MallocSize, BlockSize;
      if bp == 0 {
        r := MmMalloc(size);
        return;
      }
      if size == 0 {
        MmFree(bp);
        return 0;
      }
      ghost var m0, h0 := mem[..], h;
      LiveTags(m0, h, bp);
      UntouchedSelf(m0, h.blocks);
      var csize := SizeOf(mem[bp - 1]);
      if BlockSize(size) / 8 > csize {
        r := MoveBlock(bp, csize, size);
        return;
      }
      r := bp;
    }

    /** The copying branch of `mm_realloc`. */
    method MoveBlock(bp: nat, csize: nat, size: nat) returns (r: nat)
      requires Ready() && Live(h, bp) && csize == h.blocks[bp].size
      requires 0 < size * 2 <= MAX_REQUEST && BlockSize(size) / 8 > csize
      modifies this, mem
      ensures Ready() && WellFormed(old(h)) && MallocSize(size * 2) / 8 >= MIN_BLOCK
      ensures var (h1, new_bp) := Malloc(old(h), mem.Length, MallocSize(size * 2) / 8);
              && r == new_bp
              && (r == 0 ==> h == old(h) && Untouched(old(mem[..]), mem[..], old(h).blocks))
              && (r != 0 ==>
                    && bp in h1.blocks && h == Free(h1, bp)
                    && Untouched(old(mem[..]), mem[..], MarkFree(old(h), bp).blocks)
                    && r + csize - 1 <= mem.Length && bp + csize - 1 <= mem.Length
                    && mem[r..r + csize - 1] == old(mem[bp..bp + csize - 1]))
    {
      hide WellFormed, Tiled, Malloc, Free, MarkFree, MallocSize, BlockSize, OnlyPayload, Shows, Untouched,
        Headers, Footers, Links, Keeps;
      ghost var m0, h0 := mem[..], h;
      LiveTags(m0, h0, bp);
      r := MmMalloc(size * 2);
      ghost var m1, h1 := mem[..], h;
      MallocAllocated(h0, mem.Length, MallocSize(size * 2) / 8);
      MallocWellFormed(h0, mem.Length, MallocSize(size * 2) / 8);
      if r == 0 {
        return;
      }
      MallocFresh(h0, mem.Length, MallocSize(size * 2) / 8);
      DoubledRoom(size, csize);
      LiveTags(m1, h1, r);
      LiveTags(m1, h1, bp);
      LiveApart(h1, bp, r);
      Memcpy(r, bp, csize - 1);
      ghost var m2 := mem[..];
      CopyFacts(m1, m2, h1.blocks, r, bp, csize - 1);
      PayloadWriteShows(m1, m2, h1, r);
      MmFree(bp);
      TopEmpty(h0);
      MoveContents(m0, m1, m2, mem[..], h0, h1, bp, r, csize - 1);
    }
  }
}
