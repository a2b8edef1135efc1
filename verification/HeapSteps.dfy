/**
  Each routine of the allocator as a step from one memory image to the next: the image it leaves
  represents the abstract result, and no live payload word has changed.
*/
module HeapSteps {
  import opened Lists
  import opened HeapModel
  import opened HeapMemory

  /** The list holds free blocks only, each once; it may still miss some. */
  ghost predicate Listed(h: Heap) {
    && Tiled(h.blocks, h.top) && Distinct(h.free)
    && forall p {:trigger p in h.free} :: p in h.free ==> p in h.blocks && !h.blocks[p].alloc
  }

  lemma ListsFreeListed(h: Heap, pending: nat)
    requires Tiled(h.blocks, h.top) && ListsFree(h.blocks, h.free, pending)
    ensures Listed(h)
  {
    hide Tiled;
  }

  lemma RemoveListed(h: Heap, p: nat)
    requires Listed(h) && p in h.free
    ensures Listed(h.(free := Remove(h.free, p)))
    ensures p !in Remove(h.free, p)
  {
    hide Tiled;
    RemoveKeeps(h.free, p);
  }

  lemma Basics(h: Heap)
    requires Listed(h)
    ensures AllFree(h.blocks, h.free) && FreeSized(h.blocks) && Spaced(h.free) && 0 !in h.blocks
    ensures Apart(h.blocks) && Forward(h.blocks, h.top) && Backward(h.blocks, h.top)
  {
    hide Forward, Backward, Apart;
    TiledBounded(h.blocks, h.top);
    assert FreeSized(h.blocks);
    forall p | p in h.free
      ensures p in h.blocks && !h.blocks[p].alloc && h.blocks[p].size >= MIN_BLOCK
    {
      assert p in h.blocks ==> h.blocks[p].size >= 0;
    }
    FreeSpaced(h.blocks, h.free);
  }

  /** Memory `m` shows heap `h`, except for the tags of the blocks in `stale`. */
  ghost predicate Shows(m: seq<nat>, h: Heap, stale: set<nat>) {
    h.top <= |m| && Headers(m, h.blocks, stale) && Footers(m, h.blocks, stale) && Links(m, h.free)
  }

  lemma UnlinkShows(m: seq<nat>, h: Heap, p: nat, stale: set<nat>)
    requires Listed(h) && p in h.free && Shows(m, h, stale)
    ensures Unlinkable(m, p)
    ensures var m' := Unlink(m, p);
            && Shows(m', h.(free := Remove(h.free, p)), stale)
            && OnlyLinks(m, m', h.free) && Untouched(m, m', h.blocks)
    ensures HeadOf(Remove(h.free, p)) == if m[p] == 0 then m[p + 1] else HeadOf(h.free)
  {
    hide Tiled, Headers, Footers;
    var k :| 0 <= k < |h.free| && h.free[k] == p;
    Basics(h);
    RemoveAt(h.free, k);
    UnlinkAt(m, h.free, k);
    UnlinkOnlyLinks(m, h.free, k);
    UnlinkLinks(m, h.free, k);
    LinksFrame(m, Unlink(m, p), h.blocks, h.free, stale);
    assert k > 0 ==> h.free[k - 1] != 0;
  }

  lemma HeaderSurvives(m: seq<nat>, m': seq<nat>, h: Heap, p: nat)
    requires Listed(h) && OnlyLinks(m, m', h.free) && p in h.blocks && 1 <= p <= |m|
    ensures |m'| == |m| && m'[p - 1] == m[p - 1]
  {
    hide Tiled, IsLink;
    Basics(h);
    LinkNotHeader(h.blocks, h.free, p);
  }

  lemma FooterSurvives(m: seq<nat>, m': seq<nat>, h: Heap, p: nat)
    requires Listed(h) && OnlyLinks(m, m', h.free) && p in h.blocks && !h.blocks[p].alloc
    requires 2 <= Next(h.blocks, p) <= |m| + 1
    ensures |m'| == |m| && m'[Next(h.blocks, p) - 2] == m[Next(h.blocks, p) - 2]
  {
    hide Tiled, IsLink;
    Basics(h);
    LinkNotFooter(h.blocks, h.free, p);
  }

  /** Relinking leaves the tags that `coalesce` still has to read. */
  lemma Survives(m: seq<nat>, m': seq<nat>, h: Heap, p: nat, q: nat, n: nat)
    requires Listed(h) && OnlyLinks(m, m', h.free) && p in h.blocks && q in h.blocks && n in h.blocks
    requires 3 <= p <= |m| && 1 <= q <= |m| && 1 <= n <= |m| && Next(h.blocks, q) == p && !h.blocks[q].alloc
    ensures |m'| == |m| && m'[p - 1] == m[p - 1] && m'[q - 1] == m[q - 1] && m'[n - 1] == m[n - 1]
      && m'[p - 2] == m[p - 2]
  {
    HeaderSurvives(m, m', h, p);
    HeaderSurvives(m, m', h, q);
    HeaderSurvives(m, m', h, n);
    FooterSurvives(m, m', h, q);
  }

  lemma UntouchedSelf(m: seq<nat>, b: map<nat, Block>)
    ensures Untouched(m, m, b)
  {
  }

  lemma PendingListed(h: Heap, p: nat)
    requires Pending(h, p)
    ensures Listed(h.(free := [p] + h.free))
  {
    hide Tiled, Coalesced, Distinct;
    ConsDistinct(p, h.free);
  }

  lemma ListedInside(h: Heap, p: nat, m: seq<nat>)
    requires Listed(h.(free := [p] + h.free)) && h.top <= |m|
    ensures p + 1 < |m|
  {
    var f := [p] + h.free;
    assert f[0] == p;
    assert p in f;
    FreeSite(h.blocks, h.top, p);
  }

  lemma PushShows(m: seq<nat>, h: Heap, p: nat, stale: set<nat>)
    requires Listed(h.(free := [p] + h.free)) && Shows(m, h, stale) && p + 1 < |m|
    ensures HeadOf(h.free) < |m|
    ensures var m' := Push(m, p, HeadOf(h.free));
            && Shows(m', h.(free := [p] + h.free), stale)
            && OnlyLinks(m, m', [p] + h.free) && Untouched(m, m', h.blocks)
  {
    hide Tiled, Headers, Footers;
    var h' := h.(free := [p] + h.free);
    Basics(h');
    PushLinks(m, h.free, p);
    LinksFrame(m, Push(m, p, HeadOf(h.free)), h.blocks, h'.free, stale);
  }

  lemma FreeSite(b: map<nat, Block>, top: nat, p: nat)
    requires Tiled(b, top) && p in b && !b[p].alloc
    ensures Site(b, p) && Next(b, p) <= top && b[p].size >= MIN_BLOCK
    ensures NextFree(b, p) ==> MergeSite(b, p)
  {
    Around(b, top, p);
    TiledBounded(b, top);
    if NextFree(b, p) {
      Around(b, top, Next(b, p));
    }
    hide Forward, Backward, Apart, Sized;
    SizedPositive(b, top, b[p].prev);
  }

  lemma SizedPositive(b: map<nat, Block>, top: nat, p: nat)
    requires Ends(b, top) && Sized(b, top) && p in b && p != top
    ensures b[p].size >= 2
  {
    assert b[p].size >= 0;
  }

  lemma UntouchedTrans(m0: seq<nat>, m1: seq<nat>, m2: seq<nat>, b: map<nat, Block>)
    requires Untouched(m0, m1, b) && Untouched(m1, m2, b)
    ensures Untouched(m0, m2, b)
  {
    forall i | 0 <= i < |m0| && InPayload(b, i)
      ensures m2[i] == m0[i]
    {
      assert m1[i] == m0[i];
    }
  }

  lemma PutLinks(m: seq<nat>, i: nat, v: nat, free: seq<nat>)
    requires i < |m| && Links(m, free) && !IsLink(free, i)
    ensures Links(m[i := v], free)
  {
    var m' := m[i := v];
    forall j | 0 <= j < |free|
      ensures Linked(m', free, j)
    {
      assert Linked(m, free, j);
      assert free[j] in free;
    }
  }

  lemma InteriorNotLink(b: map<nat, Block>, free: seq<nat>, p: nat, i: int)
    requires Apart(b) && AllFree(b, free) && p in b && p !in free && p - 1 <= i < Next(b, p) - 1
    ensures !IsLink(free, i)
  {
    forall q | q in free
      ensures i != q && i != q + 1
    {
      assert q < p ==> Next(b, q) <= p;
      assert p < q ==> Next(b, p) <= q;
    }
  }

  /** Payloads of `b` are still payloads of `b'`. */
  ghost predicate Keeps(b: map<nat, Block>, b': map<nat, Block>) {
    forall q {:trigger b[q].alloc} :: q in b && b[q].alloc && b[q].size > 1 ==>
      q in b' && b'[q].alloc && b'[q].size == b[q].size
  }

  lemma KeepsUntouched(m: seq<nat>, m': seq<nat>, b: map<nat, Block>, b': map<nat, Block>)
    requires Keeps(b, b') && Untouched(m, m', b')
    ensures Untouched(m, m', b)
  {
    forall i | 0 <= i < |m| && InPayload(b, i)
      ensures m'[i] == m[i]
    {
      var q :| q in b && b[q].alloc && q <= i < Next(b, q) - 1;
      assert b'[q].alloc && Next(b', q) == Next(b, q);
    }
  }

  // ---------------------------------------------------------------------------------------------
  // place
  // ---------------------------------------------------------------------------------------------

  /** Overwriting one header makes that header stale and nothing else. */
  lemma StaleHeader(m: seq<nat>, h: Heap, p: nat, v: nat, stale: set<nat>)
    requires Listed(h) && p in h.blocks && 1 <= p <= |m| && Shows(m, h, stale)
    ensures Shows(m[p - 1 := v], h, stale + {p}) && Untouched(m, m[p - 1 := v], h.blocks)
  {
    hide Tiled, Apart, Forward, Backward, IsLink, InPayload, Links;
    Basics(h);
    var b := h.blocks;
    var m' := m[p - 1 := v];
    LinkNotHeader(b, h.free, p);
    HeaderNotPayload(b, p);
    PutLinks(m, p - 1, v, h.free);
    forall q | q in b && q !in stale + {p}
      ensures HeaderAt(m', b, q)
    {
      assert HeaderAt(m, b, q);
    }
    forall q | q in b && !b[q].alloc && q !in stale + {p}
      ensures FooterAt(m', b, q)
    {
      assert FooterAt(m, b, q);
      FooterNotHeader(b, q, p);
    }
  }

  /** Two words inside one unlisted free block can be written without disturbing list or payloads. */
  lemma InteriorWrites(m: seq<nat>, b: map<nat, Block>, free: seq<nat>, p: nat, i: nat, v: nat, j: nat, w: nat)
    requires Apart(b) && AllFree(b, free) && p in b && p !in free && !b[p].alloc && 1 <= p && Next(b, p) <= |m|
    requires p - 1 <= i < Next(b, p) - 1 && p - 1 <= j < Next(b, p) - 1 && Links(m, free)
    ensures Links(m[i := v][j := w], free) && Untouched(m, m[i := v][j := w], b)
  {
    hide Apart, Links, IsLink, InPayload;
    InteriorNotLink(b, free, p, i);
    InteriorNotLink(b, free, p, j);
    PutLinks(m, i, v, free);
    PutLinks(m[i := v], j, w, free);
    FreeNotPayload(b, p, i);
    FreeNotPayload(b, p, j);
  }

  lemma SplitShows(m: seq<nat>, h: Heap, p: nat, n: nat)
    requires Listed(h) && Shows(m, h, {p}) && p in h.blocks && !h.blocks[p].alloc && p !in h.free
    requires Next(h.blocks, p) in h.blocks && n >= MIN_BLOCK && Splits(h.blocks, p, n) && PrevAlloc(h.blocks, p)
    requires 1 <= p <= |m| && m[p - 1] == PackHdr(n, true, true)
    ensures Next(h.blocks, p) <= |m|
    ensures var m' := SplitMem(m, p, h.blocks[p].size, n);
            var h' := h.(blocks := SplitBlocks(h.blocks, p, n));
            && Shows(m', h', {}) && Untouched(m, m', h.blocks) && Keeps(h.blocks, h'.blocks)
            && Listed(h'.(free := [p + n] + h.free)) && p + n + 1 < |m|
  {
    hide Forward, Backward, Apart, Headers, Footers, Links, Sized;
    var b := h.blocks;
    Basics(h);
    FreeSite(b, h.top, p);
    SplitTiled(b, h.top, p, n);
    SplitHeaders(m, b, h.top, p, n);
    SplitFooters(m, b, p, n);
    InteriorWrites(m, b, h.free, p, p + n - 1, PackHdr(b[p].size - n, true, false), Next(b, p) - 2,
      8 * (b[p].size - n));
    SplitKeeps(b, p, n);
    SplitListed(h, p, n);
  }

  lemma SplitListed(h: Heap, p: nat, n: nat)
    requires Listed(h) && p in h.blocks && p !in h.free && p + n !in h.blocks && n > 0
    requires Next(h.blocks, p) in h.blocks && Splits(h.blocks, p, n)
    requires Tiled(SplitBlocks(h.blocks, p, n), h.top)
    ensures Listed(h.(blocks := SplitBlocks(h.blocks, p, n), free := [p + n] + h.free))
  {
    hide Tiled;
    var f := [p + n] + h.free;
    assert p + n !in h.free;
    forall i, j | 0 <= i < j < |f|
      ensures f[i] != f[j]
    {
      assert f[j] == h.free[j - 1];
      assert h.free[j - 1] in h.free;
    }
  }

  lemma SplitKeeps(b: map<nat, Block>, p: nat, n: nat)
    requires p in b && Next(b, p) in b && Splits(b, p, n) && !b[p].alloc && p + n !in b
    ensures Keeps(b, SplitBlocks(b, p, n))
  {
  }

  lemma TakeShows(m: seq<nat>, h: Heap, p: nat)
    requires Listed(h) && p in h.blocks && !h.blocks[p].alloc && p !in h.free
    requires Next(h.blocks, p) in h.blocks && PrevAlloc(h.blocks, p) && h.blocks[Next(h.blocks, p)].alloc
    requires Shows(m, h, {p, Next(h.blocks, p)}) && 1 <= p && Next(h.blocks, p) <= |m|
    requires m[p - 1] == PackHdr(h.blocks[p].size, true, true)
    requires m[Next(h.blocks, p) - 1] == PackHdr(h.blocks[Next(h.blocks, p)].size, true, true)
    ensures Shows(m, h.(blocks := h.blocks[p := h.blocks[p].(alloc := true)]), {})
  {
    hide Forward, Backward, Apart, Headers, Footers, Links, Sized;
    Basics(h);
    FreeSite(h.blocks, h.top, p);
    TakeHeaders(m, h.blocks, h.top, p);
    TakeFooters(m, h.blocks, p);
  }

  /** Facts about a free block of a well-formed heap that `place` and `coalesce` rely on. */
  lemma FreeFacts(m: seq<nat>, h: Heap, p: nat)
    requires WellFormed(h) && p in h.blocks && !h.blocks[p].alloc && Shows(m, h, {})
    ensures Listed(h) && p in h.free && 3 <= p && Next(h.blocks, p) in h.blocks && Next(h.blocks, p) <= |m|
    ensures PrevAlloc(h.blocks, p) && h.blocks[Next(h.blocks, p)].alloc
    ensures HeaderAt(m, h.blocks, p) && HeaderAt(m, h.blocks, Next(h.blocks, p))
    ensures m[p - 1] == PackHdr(h.blocks[p].size, true, false)
    ensures m[Next(h.blocks, p) - 1] == PackHdr(h.blocks[Next(h.blocks, p)].size, false, true)
  {
    ListsFreeListed(h, 0);
    Around(h.blocks, h.top, p);
    FreeNeighboursAlloc(h, 0, p);
    FreeSite(h.blocks, h.top, p);
    hide Tiled, Coalesced, Footers, Links;
    assert HeaderAt(m, h.blocks, p) && HeaderAt(m, h.blocks, Next(h.blocks, p));
  }

  // ---------------------------------------------------------------------------------------------
  // coalesce
  // ---------------------------------------------------------------------------------------------

  lemma ShowsWeaken(m: seq<nat>, h: Heap, stale: set<nat>, more: set<nat>)
    requires Shows(m, h, stale) && stale <= more
    ensures Shows(m, h, more)
  {
  }

  lemma MergeKeeps(b: map<nat, Block>, p: nat)
    requires NextFree(b, p) && !b[p].alloc
    ensures Keeps(b, MergeNext(b, p))
  {
  }

  lemma MergeListed(h: Heap, p: nat)
    requires Listed(h) && NextFree(h.blocks, p) && !h.blocks[p].alloc
    requires p !in h.free && Next(h.blocks, p) !in h.free
    ensures Listed(h.(blocks := MergeNext(h.blocks, p)))
    ensures Listed(h.(blocks := MergeNext(h.blocks, p), free := [p] + h.free))
  {
    hide Tiled, Distinct;
    MergeTiled(h.blocks, h.top, p);
    ConsDistinct(p, h.free);
  }

  lemma ConsDistinct(p: nat, free: seq<nat>)
    requires Distinct(free) && p !in free
    ensures Distinct([p] + free)
  {
    var f := [p] + free;
    forall i, j | 0 <= i < j < |f|
      ensures f[i] != f[j]
    {
      assert f[j] == free[j - 1] && free[j - 1] in free;
    }
  }

  /** Writing the merged block's header and footer. */
  lemma MergeShows(m: seq<nat>, h: Heap, p: nat)
    requires Listed(h) && NextFree(h.blocks, p) && !h.blocks[p].alloc && PrevAlloc(h.blocks, p)
    requires p !in h.free && Next(h.blocks, p) !in h.free
    requires Shows(m, h, {p, Next(h.blocks, p)})
    ensures 1 <= p && Next(h.blocks, Next(h.blocks, p)) <= |m|
    ensures var m' := MergeMem(m, p, h.blocks[p].size + h.blocks[Next(h.blocks, p)].size);
            var h' := h.(blocks := MergeNext(h.blocks, p));
            && Shows(m', h', {}) && Untouched(m, m', h.blocks) && Keeps(h.blocks, h'.blocks)
            && Listed(h'.(free := [p] + h.free))
  {
    hide Forward, Backward, Apart, Headers, Footers, Links, Sized, IsLink, InPayload, AllFree, Keeps;
    var b := h.blocks;
    var n := Next(b, p);
    var size := b[p].size + b[n].size;
    Basics(h);
    FreeSite(b, h.top, p);
    FreeSite(b, h.top, n);
    MergeHeaders(m, b, h.top, p);
    MergeFooters(m, b, p);
    MergeKeeps(b, p);
    MergeListed(h, p);
    LinkNotHeader(b, h.free, p);
    InteriorNotLink(b, h.free, n, Next(b, n) - 2);
    PutLinks(m, p - 1, PackHdr(size, true, false), h.free);
    PutLinks(m[p - 1 := PackHdr(size, true, false)], Next(b, n) - 2, 8 * size, h.free);
    HeaderNotPayload(b, p);
    FreeNotPayload(b, n, Next(b, n) - 2);
  }

  /** A merge whose tags are not written leaves only the merged block's tags stale. */
  lemma MergeUnwritten(m: seq<nat>, h: Heap, p: nat)
    requires Listed(h) && NextFree(h.blocks, p) && !h.blocks[p].alloc
    requires p !in h.free && Next(h.blocks, p) !in h.free
    requires Shows(m, h, {})
    ensures var h' := h.(blocks := MergeNext(h.blocks, p));
            && Shows(m, h', {p}) && Keeps(h.blocks, h'.blocks) && Listed(h')
  {
    hide Forward, Backward, Apart, Headers, Footers, Links, Sized, Keeps;
    Basics(h);
    FreeSite(h.blocks, h.top, p);
    MergeStale(m, h.blocks, h.top, p);
    MergeKeeps(h.blocks, p);
    MergeListed(h, p);
  }

  /** Facts about the block that `coalesce` is called with. */
  lemma PendingFacts(m: seq<nat>, h: Heap, p: nat)
    requires Pending(h, p) && Shows(m, h, {})
    ensures Listed(h) && p !in h.free && Site(h.blocks, p) && 3 <= p && Next(h.blocks, p) <= |m|
    ensures m[p - 1] == PackHdr(h.blocks[p].size, PrevAlloc(h.blocks, p), false)
    ensures m[Next(h.blocks, p) - 1] == PackHdr(h.blocks[Next(h.blocks, p)].size, false,
      h.blocks[Next(h.blocks, p)].alloc)
    ensures NextFree(h.blocks, p) <==> !h.blocks[Next(h.blocks, p)].alloc
    ensures PrevFree(h.blocks, p) <==> !PrevAlloc(h.blocks, p)
  {
    ListsFreeListed(h, p);
    Around(h.blocks, h.top, p);
    FreeSite(h.blocks, h.top, p);
    NeighbourCases(h.blocks, h.top, p);
    hide Tiled, Coalesced, Footers, Links;
    assert HeaderAt(m, h.blocks, p) && HeaderAt(m, h.blocks, Next(h.blocks, p));
  }

  lemma NextFacts(h: Heap, p: nat)
    requires Pending(h, p) && NextFree(h.blocks, p)
    ensures Next(h.blocks, p) in h.free && p !in Remove(h.free, Next(h.blocks, p))
    ensures MergeSite(h.blocks, p) && Next(h.blocks, Next(h.blocks, p)) <= h.top
  {
    FreeSite(h.blocks, h.top, p);
    FreeSite(h.blocks, h.top, Next(h.blocks, p));
    hide Tiled, Coalesced;
    assert !h.blocks[Next(h.blocks, p)].alloc;
    RemoveKeeps(h.free, Next(h.blocks, p));
  }

  lemma PrevFacts(m: seq<nat>, h: Heap, p: nat)
    requires Pending(h, p) && PrevFree(h.blocks, p) && Shows(m, h, {})
    ensures var q := h.blocks[p].prev;
            && q in h.free && p !in Remove(h.free, q) && 3 <= q && q + 4 <= p && MergeSite(h.blocks, q)
              && PrevAlloc(h.blocks, q)
            && p <= |m| && m[p - 2] == 8 * h.blocks[q].size && m[q - 1] == PackHdr(h.blocks[q].size, true, false)
  {
    hide Tiled, Coalesced, Links, Distinct, Remove;
    var q := h.blocks[p].prev;
    FreeSite(h.blocks, h.top, q);
    Around(h.blocks, h.top, q);
    FreeSite(h.blocks, h.top, p);
    FreeNeighboursAlloc(h, p, q);
    assert !h.blocks[q].alloc;
    assert FooterAt(m, h.blocks, q) && HeaderAt(m, h.blocks, q);
    RemoveKeeps(h.free, q);
  }

  /** When both neighbours are free: the two unlistings commute and end with none of the three listed. */
  lemma BothLists(h: Heap, p: nat)
    requires Pending(h, p) && NextFree(h.blocks, p) && PrevFree(h.blocks, p)
    ensures var q, n := h.blocks[p].prev, Next(h.blocks, p);
            var f := Remove(Remove(h.free, q), n);
            && q in h.free && n in Remove(h.free, q) && n in h.free
            && p !in f && q !in f && n !in f && f == Remove(Remove(h.free, n), q)
  {
    var q, n := h.blocks[p].prev, Next(h.blocks, p);
    FreeSite(h.blocks, h.top, p);
    hide Tiled, Coalesced;
    assert !h.blocks[q].alloc && !h.blocks[n].alloc;
    RemoveKeeps(h.free, q);
    RemoveKeeps(Remove(h.free, q), n);
    RemoveCommute(h.free, q, n);
  }

  /** What the first, unwritten merge leaves for the second. */
  lemma BothBlocks(b: map<nat, Block>, p: nat)
    requires Site(b, p) && NextFree(b, p) && PrevFree(b, p) && MergeSite(b, b[p].prev) && PrevAlloc(b, b[p].prev)
    ensures var q, b1 := b[p].prev, MergeNext(b, p);
            && NextFree(b1, q) && PrevFree(b1, p) && Next(b1, q) == p && b1[p].prev == q
            && b1[q] == b[q] && PrevAlloc(b1, q) && b1[p].size == b[p].size + b[Next(b, p)].size
  {
  }

  lemma BothSpec(h: Heap, p: nat)
    requires Pending(h, p) && NextFree(h.blocks, p) && PrevFree(h.blocks, p)
    ensures var q, n := h.blocks[p].prev, Next(h.blocks, p);
            && NextFree(MergeNext(h.blocks, p), q)
            && CoalesceDown(CoalesceUp(h, p), p)
               == (Heap(MergeNext(MergeNext(h.blocks, p), q), Remove(Remove(h.free, q), n), h.top), q)
  {
    FreeSite(h.blocks, h.top, p);
    FreeSite(h.blocks, h.top, h.blocks[p].prev);
    FreeNeighboursAlloc(h, p, h.blocks[p].prev);
    hide Pending, Remove;
    BothLists(h, p);
    BothBlocks(h.blocks, p);
  }

  lemma MergeBothShows(m: seq<nat>, h: Heap, p: nat)
    requires Listed(h) && Shows(m, h, {}) && NextFree(h.blocks, p) && PrevFree(h.blocks, p)
    requires Site(h.blocks, p) && MergeSite(h.blocks, h.blocks[p].prev) && PrevAlloc(h.blocks, h.blocks[p].prev)
    requires p !in h.free && h.blocks[p].prev !in h.free && Next(h.blocks, p) !in h.free
    ensures var q, n := h.blocks[p].prev, Next(h.blocks, p);
            var size := h.blocks[p].size + h.blocks[q].size + h.blocks[n].size;
            && 1 <= q && Next(h.blocks, n) <= |m| && q + size == Next(h.blocks, n)
            && NextFree(MergeNext(h.blocks, p), q)
            && (var h'' := h.(blocks := MergeNext(MergeNext(h.blocks, p), q));
                var m' := MergeMem(m, q, size);
                && Shows(m', h'', {}) && Untouched(m, m', h.blocks)
                && Keeps(h.blocks, h''.blocks) && Listed(h''.(free := [q] + h.free)))
  {
    hide Shows, Headers, Footers, Links, Untouched, Keeps, Listed;
    var q := h.blocks[p].prev;
    BothBlocks(h.blocks, p);
    MergeUnwritten(m, h, p);
    var h1 := h.(blocks := MergeNext(h.blocks, p));
    ShowsWeaken(m, h1, {p}, {q, p});
    MergeShows(m, h1, q);
    var m' := MergeMem(m, q, h1.blocks[q].size + h1.blocks[p].size);
    KeepsUntouched(m, m', h.blocks, h1.blocks);
    KeepsTrans(h.blocks, h1.blocks, MergeNext(h1.blocks, q));
  }

  // ---------------------------------------------------------------------------------------------
  // free and extend
  // ---------------------------------------------------------------------------------------------

  lemma LiveAround(h: Heap, p: nat)
    requires WellFormed(h) && Live(h, p)
    ensures LiveSite(h.blocks, p) && Next(h.blocks, p) <= h.top
  {
    hide ListsFree, Coalesced, Apart;
    TiledBounded(h.blocks, h.top);
    assert Next(h.blocks, p) in h.blocks;
    assert Next(h.blocks, h.blocks[p].prev) == p;
    SizedPositive(h.blocks, h.top, h.blocks[p].prev);
    SizedPositive(h.blocks, h.top, p);
  }

  lemma FreeShows(m: seq<nat>, h: Heap, p: nat)
    requires WellFormed(h) && Live(h, p) && Shows(m, h, {})
    ensures LiveSite(h.blocks, p) && Next(h.blocks, p) <= |m|
    ensures var m' := FreeMem(m, p, h.blocks[p].size, PrevAlloc(h.blocks, p));
            && Shows(m', MarkFree(h, p), {}) && Untouched(m, m', MarkFree(h, p).blocks)
  {
    hide Forward, Backward, Apart, Headers, Footers, Links, Sized, IsLink, InPayload, AllFree, Coalesced;
    var b := h.blocks;
    var h' := MarkFree(h, p);
    LiveAround(h, p);
    ListsFreeListed(h, 0);
    Basics(h);
    var r := Next(b, p);
    FreeHeaders(m, b, h.top, p);
    FreeFooters(m, b, p);
    MarkFreePending(h, p);
    ListsFreeListed(h', p);
    Basics(h');
    LinkNotHeader(b, h.free, p);
    LinkNotHeader(b, h.free, r);
    InteriorNotLink(b, h.free, p, r - 2);
    var v1 := PackHdr(b[p].size, PrevAlloc(b, p), false);
    var m1 := m[p - 1 := v1];
    var m2 := m1[r - 2 := 8 * b[p].size];
    PutLinks(m, p - 1, v1, h.free);
    PutLinks(m1, r - 2, 8 * b[p].size, h.free);
    PutLinks(m2, r - 1, UnsetPrev(m2[r - 1]), h.free);
    HeaderNotPayload(h'.blocks, p);
    HeaderNotPayload(h'.blocks, r);
    FreeNotPayload(h'.blocks, p, r - 2);
  }

  lemma GrowKeeps(h: Heap, n: nat)
    requires Tiled(h.blocks, h.top) && n > 0
    ensures Keeps(h.blocks, Grow(h, n).blocks)
  {
    TiledBounded(h.blocks, h.top);
    hide Forward, Backward, Apart, Sized;
  }

  lemma GrowShows(m: seq<nat>, h: Heap, n: nat)
    requires WellFormed(h) && n >= MIN_BLOCK && h.top + n <= |m| && Shows(m, h, {})
    ensures var m' := GrowMem(m, h.top, n, PrevAlloc(h.blocks, h.top));
            && Shows(m', Grow(h, n), {}) && Untouched(m, m', h.blocks)
  {
    hide Forward, Backward, Apart, Headers, Footers, Links, Sized, IsLink, InPayload, AllFree, Coalesced;
    var b := h.blocks;
    var top := h.top;
    var h' := Grow(h, n);
    ListsFreeListed(h, 0);
    Basics(h);
    GrowHeaders(m, h, n);
    GrowFooters(m, h, n);
    GrowPending(h, n);
    ListsFreeListed(h', top);
    Basics(h');
    LinkNotHeader(b, h.free, top);
    InteriorNotLink(h'.blocks, h.free, top, top + n - 2);
    LinkNotHeader(h'.blocks, h.free, top + n);
    var v1 := PackHdr(n, PrevAlloc(b, top), false);
    var m1 := m[top - 1 := v1];
    var m2 := m1[top + n - 2 := 8 * n];
    PutLinks(m, top - 1, v1, h.free);
    PutLinks(m1, top + n - 2, 8 * n, h.free);
    PutLinks(m2, top + n - 1, PackHdr(0, false, true), h.free);
    HeaderNotPayload(h'.blocks, top);
    HeaderNotPayload(h'.blocks, top + n);
    FreeNotPayload(h'.blocks, top, top + n - 2);
    GrowKeeps(h, n);
    KeepsUntouched(m, GrowMem(m, top, n, PrevAlloc(b, top)), b, h'.blocks);
  }

  // ---------------------------------------------------------------------------------------------
  // Writing into a live payload, as the client and `memcpy` do
  // ---------------------------------------------------------------------------------------------

  /** `m'` differs from `m` at most in the payload of block `p`. */
  ghost predicate OnlyPayload(m: seq<nat>, m': seq<nat>, b: map<nat, Block>, p: nat)
    requires p in b
  {
    |m'| == |m| && forall i {:trigger m'[i]} :: 0 <= i < |m| && !(p <= i < Next(b, p) - 1) ==> m'[i] == m[i]
  }

  lemma PayloadWriteShows(m: seq<nat>, m': seq<nat>, h: Heap, p: nat)
    requires WellFormed(h) && Live(h, p) && Shows(m, h, {}) && OnlyPayload(m, m', h.blocks, p)
    ensures Shows(m', h, {}) && Untouched(m, m', MarkFree(h, p).blocks)
  {
    hide Forward, Backward, Sized, Coalesced;
    var b := h.blocks;
    ListsFreeListed(h, 0);
    Basics(h);
    forall q | q in b
      ensures HeaderAt(m', b, q)
    {
      assert HeaderAt(m, b, q);
      assert p < q ==> Next(b, p) <= q;
    }
    forall q | q in b && !b[q].alloc
      ensures FooterAt(m', b, q)
    {
      assert FooterAt(m, b, q);
      assert p < q ==> Next(b, p) <= q;
      assert q < p ==> Next(b, q) <= p;
    }
    PayloadWriteLinks(m, m', h, p);
    PayloadWriteUntouched(m, m', h, p);
  }

  lemma PayloadWriteLinks(m: seq<nat>, m': seq<nat>, h: Heap, p: nat)
    requires Apart(h.blocks) && AllFree(h.blocks, h.free) && p in h.blocks && h.blocks[p].alloc
    requires Links(m, h.free) && OnlyPayload(m, m', h.blocks, p)
    ensures Links(m', h.free)
  {
    var b := h.blocks;
    forall j | 0 <= j < |h.free|
      ensures Linked(m', h.free, j)
    {
      assert Linked(m, h.free, j);
      var q := h.free[j];
      assert q in h.free;
      assert p < q ==> Next(b, p) <= q;
      assert q < p ==> Next(b, q) <= p;
    }
  }

  lemma PayloadWriteUntouched(m: seq<nat>, m': seq<nat>, h: Heap, p: nat)
    requires Apart(h.blocks) && p in h.blocks && OnlyPayload(m, m', h.blocks, p)
    ensures Untouched(m, m', MarkFree(h, p).blocks)
  {
    var b := h.blocks;
    var b' := MarkFree(h, p).blocks;
    forall i | 0 <= i < |m| && InPayload(b', i)
      ensures m'[i] == m[i]
    {
      var q :| q in b' && b'[q].alloc && q <= i < Next(b', q) - 1;
      assert p < q ==> Next(b, p) <= q;
      assert q < p ==> Next(b, q) <= p;
    }
  }

  // ---------------------------------------------------------------------------------------------
  // What happens to the other live blocks
  // ---------------------------------------------------------------------------------------------

  lemma KeepsTrans(b0: map<nat, Block>, b1: map<nat, Block>, b2: map<nat, Block>)
    requires Keeps(b0, b1) && Keeps(b1, b2)
    ensures Keeps(b0, b2)
  {
    forall q | q in b0 && b0[q].alloc && b0[q].size > 1
      ensures q in b2 && b2[q].alloc && b2[q].size == b0[q].size
    {
      assert b1[q].alloc;
    }
  }

  lemma PlaceKeeps(h: Heap, p: nat, n: nat)
    requires Tiled(h.blocks, h.top) && p in h.blocks && !h.blocks[p].alloc && Next(h.blocks, p) in h.blocks
    requires n >= MIN_BLOCK
    ensures Keeps(h.blocks, Place(h, p, n).blocks)
  {
    hide Tiled;
    if Splits(h.blocks, p, n) {
      SplitTiled(h.blocks, h.top, p, n);
      SplitKeeps(h.blocks, p, n);
    }
  }

  lemma CoalesceKeeps(h: Heap, p: nat)
    requires Pending(h, p)
    ensures Keeps(h.blocks, Coalesce(h, p).0.blocks)
  {
    CoalesceUpPending(h, p);
    hide Tiled, ListsFree, Coalesced, Keeps;
    var h1 := CoalesceUp(h, p);
    KeepsSelf(h.blocks);
    if NextFree(h.blocks, p) { MergeKeeps(h.blocks, p); }
    KeepsSelf(h1.blocks);
    if PrevFree(h1.blocks, p) { MergeKeeps(h1.blocks, h1.blocks[p].prev); }
    KeepsTrans(h.blocks, h1.blocks, Coalesce(h, p).0.blocks);
  }

  lemma KeepsSelf(b: map<nat, Block>)
    ensures Keeps(b, b)
  {
  }

  lemma ExtendKeeps(h: Heap, n: nat)
    requires WellFormed(h) && n >= MIN_BLOCK
    ensures h.top in h.blocks && Keeps(h.blocks, Extend(h, n).0.blocks)
  {
    ExtendWellFormed(h, n);
    GrowPending(h, n);
    TiledOf(h);
    GrowKeeps(h, n);
    hide WellFormed, Pending, Keeps;
    CoalesceKeeps(Grow(h, n), h.top);
    KeepsTrans(h.blocks, Grow(h, n).blocks, Extend(h, n).0.blocks);
  }

  lemma MallocKeeps(h: Heap, limit: nat, n: nat)
    requires WellFormed(h) && n >= MIN_BLOCK
    ensures Keeps(h.blocks, Malloc(h, limit, n).0.blocks)
  {
    FitAround(h, n);
    match FirstFit(h.blocks, h.free, n)
    case Some(p) =>
      PlaceKeeps(h, p, n);
    case None =>
      var grown := Max(n, CHUNK_WORDS);
      ExtendWellFormed(h, grown);
      ExtendKeeps(h, grown);
      var (h1, p) := Extend(h, grown);
      TiledOf(h1);
      hide WellFormed, Tiled, Keeps;
      PlaceKeeps(h1, p, n);
      KeepsTrans(h.blocks, h1.blocks, Place(h1, p, n).blocks);
      KeepsSelf(h.blocks);
  }

  lemma TiledOf(h: Heap)
    requires WellFormed(h)
    ensures Tiled(h.blocks, h.top)
  {
  }

  lemma TopInside(m: seq<nat>, h: Heap)
    requires WellFormed(h) && Shows(m, h, {})
    ensures h.top in h.blocks && 3 <= h.top <= |m|
    ensures m[h.top - 1] == PackHdr(0, PrevAlloc(h.blocks, h.top), true)
  {
    hide ListsFree, Coalesced, Forward, Backward, Apart, Footers, Links;
    assert HeaderAt(m, h.blocks, h.top);
  }

  function InitMem(m: seq<nat>): seq<nat>
    requires |m| >= 3
  {
    m[0 := PackHdr(2, true, true)][2 := PackHdr(0, true, true)]
  }

  lemma InitShows(m: seq<nat>)
    requires |m| >= 3
    ensures Shows(InitMem(m), EMPTY_HEAP, {}) && WellFormed(EMPTY_HEAP)
    ensures Untouched(m, InitMem(m), EMPTY_HEAP.blocks)
  {
    EmptyWellFormed();
    assert HeaderAt(InitMem(m), EMPTY_HEAP.blocks, 1);
    assert HeaderAt(InitMem(m), EMPTY_HEAP.blocks, 3);
  }

  /** What a live block's own tags say. */
  lemma LiveTags(m: seq<nat>, h: Heap, p: nat)
    requires WellFormed(h) && Live(h, p) && Shows(m, h, {})
    ensures 3 <= p && h.blocks[p].size >= MIN_BLOCK && Next(h.blocks, p) <= |m|
    ensures m[p - 1] == PackHdr(h.blocks[p].size, PrevAlloc(h.blocks, p), true)
  {
    LiveAround(h, p);
    hide WellFormed, Footers, Links;
    assert HeaderAt(m, h.blocks, p);
  }

  /** The block that `mm_malloc` hands out was not allocated before. */
  lemma MallocFresh(h: Heap, limit: nat, n: nat)
    requires WellFormed(h) && n >= MIN_BLOCK
    ensures var p := Malloc(h, limit, n).1;
            p in h.blocks && h.blocks[p].alloc ==> p == h.top
    ensures 0 !in h.blocks
  {
    TiledBounded(h.blocks, h.top);
    FitAround(h, n);
    match FirstFit(h.blocks, h.free, n)
    case Some(p) =>
    case None =>
      var grown := Max(n, CHUNK_WORDS);
      GrowPending(h, grown);
      CoalesceWhere(Grow(h, grown), h.top);
  }

  lemma CoalesceWhere(h: Heap, p: nat)
    requires Pending(h, p)
    ensures var q := Coalesce(h, p).1;
            q == p || (q in h.blocks && !h.blocks[q].alloc)
  {
    CoalesceUpPending(h, p);
    Around(h.blocks, h.top, p);
    hide Tiled, ListsFree, Coalesced;
    var h1 := CoalesceUp(h, p);
    var q := h1.blocks[p].prev;
    if PrevFree(h1.blocks, p) {
      assert q in h.blocks && PrevFree(h.blocks, p);
    }
  }

  lemma MallocAllocated(h: Heap, limit: nat, n: nat)
    requires WellFormed(h) && n >= MIN_BLOCK
    ensures var (h1, p) := Malloc(h, limit, n);
            p != 0 ==>
              && WellFormed(h1) && Live(h1, p) && h1.blocks[p].size >= n && Keeps(h.blocks, h1.blocks)
              && forall q :: Live(h, q) ==> q != p && Live(h1, q) && h1.blocks[q].size == h.blocks[q].size
  {
    hide Tiled, ListsFree, Coalesced;
    var (h1, p) := Malloc(h, limit, n);
    MallocWellFormed(h, limit, n);
    MallocKeeps(h, limit, n);
    MallocFresh(h, limit, n);
    if p != 0 {
      forall q | Live(h, q)
        ensures q != p && Live(h1, q) && h1.blocks[q].size == h.blocks[q].size
      {
        LiveAround(h, q);
        TopEmpty(h1);
      }
    }
  }

  lemma TopEmpty(h: Heap)
    requires WellFormed(h)
    ensures h.top in h.blocks && h.blocks[h.top].size == 0
  {
  }

  /** The three images of a moving `mm_realloc`: allocate, copy, free. */
  lemma MoveContents(m0: seq<nat>, m1: seq<nat>, m2: seq<nat>, m3: seq<nat>, h0: Heap, h1: Heap,
                     p: nat, r: nat, words: nat)
    requires WellFormed(h1) && Live(h0, p) && Live(h1, p) && Live(h1, r) && r != p
    requires Keeps(h0.blocks, h1.blocks) && !(r in h0.blocks && h0.blocks[r].alloc && h0.blocks[r].size > 1)
    requires Untouched(m0, m1, h0.blocks) && Untouched(m2, m3, MarkFree(h1, p).blocks)
    requires OnlyPayload(m1, m2, h1.blocks, r)
    requires words == h0.blocks[p].size - 1 && words < h1.blocks[r].size
    requires r + words <= |m0| && p + words <= |m0| && m2[r..r + words] == m1[p..p + words]
    ensures Untouched(m0, m3, MarkFree(h0, p).blocks) && m3[r..r + words] == m0[p..p + words]
  {
    hide ListsFree, Coalesced, Forward, Backward, Sized;
    var b, b' := MarkFree(h0, p).blocks, MarkFree(h1, p).blocks;
    forall i | 0 <= i < |m0| && InPayload(b, i)
      ensures m3[i] == m0[i]
    {
      var q :| q in b && b[q].alloc && q <= i < Next(b, q) - 1;
      MoveOther(h0, h1, p, r, q, i);
    }
    var copy, original, middle, source := m3[r..r + words], m0[p..p + words], m2[r..r + words], m1[p..p + words];
    forall k | 0 <= k < words
      ensures copy[k] == original[k]
    {
      assert b'[r].alloc && r <= r + k < Next(b', r) - 1;
      assert h0.blocks[p].alloc && p <= p + k < Next(h0.blocks, p) - 1;
      assert middle[k] == source[k];
    }
  }

  lemma MoveOther(h0: Heap, h1: Heap, p: nat, r: nat, q: nat, i: nat)
    requires Apart(h1.blocks) && p in h0.blocks && p in h1.blocks && r in h1.blocks
    requires Keeps(h0.blocks, h1.blocks) && !(r in h0.blocks && h0.blocks[r].alloc && h0.blocks[r].size > 1)
    requires q in h0.blocks && q != p && h0.blocks[q].alloc && q <= i < Next(h0.blocks, q) - 1
    ensures InPayload(h0.blocks, i) && InPayload(MarkFree(h1, p).blocks, i)
    ensures !(r <= i < Next(h1.blocks, r) - 1)
  {
    var b' := MarkFree(h1, p).blocks;
    assert b'[q].alloc && Next(b', q) == Next(h0.blocks, q) == Next(h1.blocks, q);
    assert q < r ==> Next(h1.blocks, q) <= r;
    assert r < q ==> Next(h1.blocks, r) <= q;
  }

  lemma LiveApart(h: Heap, p: nat, q: nat)
    requires WellFormed(h) && Live(h, p) && Live(h, q) && p != q
    ensures Next(h.blocks, p) <= q || Next(h.blocks, q) <= p
  {
    hide ListsFree, Coalesced, Forward, Backward, Sized;
  }

  lemma CopyFacts(m: seq<nat>, m': seq<nat>, b: map<nat, Block>, dst: nat, src: nat, words: nat)
    requires dst in b && words < b[dst].size && dst + words <= |m| && src + words <= |m|
    requires m' == m[..dst] + m[src..src + words] + m[dst + words..]
    ensures OnlyPayload(m, m', b, dst) && m'[dst..dst + words] == m[src..src + words]
  {
  }
}
