/**
  Whole runs of the allocator in memory: exactly the outcome of the client's model, with every client
  array in its own block and holding what was last written to it.
*/
module MmRun {
  import opened HeapModel
  import opened HeapMemory
  import opened HeapSteps
  import opened HeapFacts
  import opened MmClient
  import opened Requests
  import opened Mm

  /** Block `p` of the heap holds the client array `s`. */
  ghost predicate Holds(m: seq<nat>, h: Heap, p: nat, s: Slot) {
    && Live(h, p) && s.words < h.blocks[p].size && Next(h.blocks, p) <= |m|
    && forall k {:trigger k in s.data} :: k in s.data ==> k < s.words && m[p + k] == s.data[k]
  }

  /** Every client array sits in its live block. */
  ghost predicate Agrees(m: seq<nat>, h: Heap, sh: Shadow, ptrs: map<nat, nat>) {
    && ptrs.Keys == sh.Keys
    && (forall id {:trigger ptrs[id]} :: id in sh ==> Holds(m, h, ptrs[id], sh[id]))
  }

  lemma HoldsKept(m: seq<nat>, m': seq<nat>, h: Heap, h': Heap, b: map<nat, Block>, p: nat, s: Slot)
    requires Holds(m, h, p, s) && Untouched(m, m', b)
    requires p in b && b[p] == h.blocks[p] && Live(h', p) && h'.blocks[p].size == h.blocks[p].size
    ensures Holds(m', h', p, s)
  {
    forall k | k in s.data
      ensures m'[p + k] == m[p + k]
    {
      assert b[p].alloc && p <= p + k < Next(b, p) - 1;
    }
  }

  lemma AfterFree(m: seq<nat>, m': seq<nat>, h: Heap, sh: Shadow, ptrs: map<nat, nat>, id: nat)
    requires WellFormed(h) && Agrees(m, h, sh, ptrs) && OneEach(ptrs) && id in sh && Live(h, ptrs[id])
    requires Untouched(m, m', MarkFree(h, ptrs[id]).blocks)
    ensures Agrees(m', Free(h, ptrs[id]), sh - {id}, ptrs - {id})
  {
    hide WellFormed, Untouched, Free, Holds;
    var p := ptrs[id];
    var ptrs' := ptrs - {id};
    forall j | j in sh - {id}
      ensures Holds(m', Free(h, p), ptrs'[j], sh[j])
    {
      assert Holds(m, h, ptrs[j], sh[j]);
      HoldsLive(m, h, ptrs[j], sh[j]);
      LiveAfterFree(h, p, ptrs[j]);
      HoldsKept(m, m', h, Free(h, p), MarkFree(h, p).blocks, ptrs[j], sh[j]);
    }
  }

  lemma HoldsLive(m: seq<nat>, h: Heap, p: nat, s: Slot)
    requires Holds(m, h, p, s)
    ensures Live(h, p)
  {
  }

  /** Every block live in `h` is live in `h'`, with the same size, and is not `p`. */
  ghost predicate OthersStay(h: Heap, h': Heap, p: nat) {
    forall q {:trigger Live(h, q)} :: Live(h, q) ==> q != p && Live(h', q) && h'.blocks[q].size == h.blocks[q].size
  }

  /** A new, uninitialised client array in a block that was not live before. */
  lemma AfterAlloc(m: seq<nat>, m': seq<nat>, h: Heap, h': Heap, sh: Shadow, ptrs: map<nat, nat>,
                   id: nat, p: nat, words: nat)
    requires Agrees(m, h, sh, ptrs) && id !in sh && Untouched(m, m', h.blocks)
    requires OthersStay(h, h', p) && Live(h', p) && words < h'.blocks[p].size && Next(h'.blocks, p) <= |m'|
    ensures Agrees(m', h', sh[id := Slot(words, map[])], ptrs[id := p])
  {
    hide Untouched;
    var sh', ptrs' := sh[id := Slot(words, map[])], ptrs[id := p];
    forall j | j in sh'
      ensures Holds(m', h', ptrs'[j], sh'[j])
    {
      if j != id {
        assert Holds(m, h, ptrs[j], sh[j]);
        HoldsKept(m, m', h, h', h.blocks, ptrs[j], sh[j]);
      }
    }
  }

  lemma AfterInPlace(m: seq<nat>, h: Heap, sh: Shadow, ptrs: map<nat, nat>, id: nat, words: nat)
    requires Agrees(m, h, sh, ptrs) && id in sh && ptrs[id] in h.blocks && words < h.blocks[ptrs[id]].size
    ensures Agrees(m, h, sh[id := Slot(words, Trim(sh[id].data, words))], ptrs)
  {
    var sh' := sh[id := Slot(words, Trim(sh[id].data, words))];
    forall j | j in sh'
      ensures Holds(m, h, ptrs[j], sh'[j])
    {
      assert Holds(m, h, ptrs[j], sh[j]);
    }
  }

  lemma AfterWrite(m: seq<nat>, h: Heap, sh: Shadow, ptrs: map<nat, nat>, id: nat, offset: nat, value: nat)
    requires WellFormed(h) && Shows(m, h, {}) && Agrees(m, h, sh, ptrs) && OneEach(ptrs)
    requires id in sh && offset < sh[id].words
    ensures Live(h, ptrs[id]) && ptrs[id] + offset < |m|
    ensures var m' := m[ptrs[id] + offset := value];
            && Shows(m', h, {})
            && Agrees(m', h, sh[id := sh[id].(data := sh[id].data[offset := value])], ptrs)
  {
    hide WellFormed, Shows, Untouched;
    var p := ptrs[id];
    assert Holds(m, h, p, sh[id]);
    var m' := m[p + offset := value];
    PayloadWriteShows(m, m', h, p);
    var sh' := sh[id := sh[id].(data := sh[id].data[offset := value])];
    forall j | j in sh'
      ensures Holds(m', h, ptrs[j], sh'[j])
    {
      assert Holds(m, h, ptrs[j], sh[j]);
      if j != id {
        HoldsKept(m, m', h, h, MarkFree(h, p).blocks, ptrs[j], sh[j]);
      }
    }
  }

  lemma MovedHolds(m: seq<nat>, m': seq<nat>, h: Heap, h': Heap, p: nat, s: Slot, r: nat, words: nat, room: nat)
    requires Holds(m, h, p, s) && Live(h', r) && words < h'.blocks[r].size && Next(h'.blocks, r) <= |m'|
    requires room == h.blocks[p].size - 1 && r + room <= |m'| && p + room <= |m|
    requires m'[r..r + room] == m[p..p + room]
    ensures Holds(m', h', r, Slot(words, Trim(s.data, words)))
  {
    forall k | k in s.data && k < words
      ensures m'[r + k] == s.data[k]
    {
      assert m'[r..r + room][k] == m[p..p + room][k];
    }
  }

  /** A client array that `mm_realloc` has moved from `p` to `r`. */
  lemma AfterMove(m: seq<nat>, m': seq<nat>, h: Heap, h1: Heap, sh: Shadow, ptrs: map<nat, nat>,
                  id: nat, r: nat, words: nat, room: nat)
    requires Agrees(m, h, sh, ptrs) && OneEach(ptrs) && id in sh && WellFormed(h1) && Live(h, ptrs[id])
    requires Untouched(m, m', MarkFree(h, ptrs[id]).blocks)
    requires Live(h1, r) && words < h1.blocks[r].size
    requires OthersStay(h, h1, r) && ptrs[id] in h1.blocks
    requires room == h.blocks[ptrs[id]].size - 1 && r + room <= |m'| && ptrs[id] + room <= |m|
    requires m'[r..r + room] == m[ptrs[id]..ptrs[id] + room]
    requires Shows(m', Free(h1, ptrs[id]), {})
    ensures Agrees(m', Free(h1, ptrs[id]), sh[id := Slot(words, Trim(sh[id].data, words))], ptrs[id := r])
  {
    hide WellFormed, Untouched, Free, Shows;
    var p := ptrs[id];
    var h' := Free(h1, p);
    FreeWellFormed(h1, p);
    LiveAfterFree(h1, p, r);
    LiveTags(m', h', r);
    var sh', ptrs' := sh[id := Slot(words, Trim(sh[id].data, words))], ptrs[id := r];
    assert Holds(m, h, p, sh[id]);
    MovedHolds(m, m', h, h', p, sh[id], r, words, room);
    forall j | j in sh'
      ensures Holds(m', h', ptrs'[j], sh'[j])
    {
      if j != id {
        assert Holds(m, h, ptrs[j], sh[j]);
        LiveAfterFree(h1, p, ptrs[j]);
        HoldsKept(m, m', h, h', MarkFree(h, p).blocks, ptrs[j], sh[j]);
      }
    }
  }

  ghost predicate Sound(a: Allocator, sh: Shadow, ptrs: map<nat, nat>)
    reads a, a.mem
  {
    a.Ready() && Good(World(a.h, sh, ptrs)) && Agrees(a.mem[..], a.h, sh, ptrs)
  }

  /** The block of `id` has at least `n` words, and fewer than a smallest block beyond that. */
  ghost predicate Tight(h: Heap, ptrs: map<nat, nat>, id: nat, n: nat) {
    id in ptrs && ptrs[id] in h.blocks && n <= h.blocks[ptrs[id]].size < n + MIN_BLOCK
  }

  method RunAlloc(a: Allocator, sh: Shadow, ptrs: map<nat, nat>, id: nat, size: nat)
    returns (ptrs': map<nat, nat>, ok: bool)
    requires Sound(a, sh, ptrs) && Legal(sh, AllocOp(id, size))
    modifies a, a.mem
    ensures Sound(a, ShadowStep(sh, AllocOp(id, size), ok), ptrs')
    ensures Advance(World(old(a.h), sh, ptrs), a.mem.Length, AllocOp(id, size))
         == (World(a.h, ShadowStep(sh, AllocOp(id, size), ok), ptrs'), ok)
    ensures ok <==> size > 0 && CanServe(old(a.h), a.mem.Length, BlockWords(size))
    ensures ok ==> Tight(a.h, ptrs', id, BlockWords(size))
  {
    hide WellFormed, Shows, Agrees, Untouched, Malloc, Good, CanServe;
    ghost var m0, h0 := a.mem[..], a.h;
    AdvanceGood(World(h0, sh, ptrs), a.mem.Length, AllocOp(id, size));
    SucceedsIff(World(h0, sh, ptrs), a.mem.Length, AllocOp(id, size));
    if Advance(World(h0, sh, ptrs), a.mem.Length, AllocOp(id, size)).1 {
      ServedTightly(World(h0, sh, ptrs), a.mem.Length, AllocOp(id, size));
    }
    var p := a.MmMalloc(size);
    if p == 0 {
      if size > 0 {
        MallocWellFormed(h0, a.mem.Length, MallocSize(size) / 8);
        AgreesKept(m0, a.mem[..], h0, sh, ptrs);
      }
      return ptrs, false;
    }
    SmallRequest(size);
    MallocAllocated(h0, a.mem.Length, MallocSize(size) / 8);
    LiveTags(a.mem[..], a.h, p);
    AfterAlloc(m0, a.mem[..], h0, a.h, sh, ptrs, id, p, WordsFor(size));
    return ptrs[id := p], true;
  }

  lemma AgreesKept(m: seq<nat>, m': seq<nat>, h: Heap, sh: Shadow, ptrs: map<nat, nat>)
    requires Agrees(m, h, sh, ptrs) && Untouched(m, m', h.blocks)
    ensures Agrees(m', h, sh, ptrs)
  {
    hide Untouched;
    forall j | j in sh
      ensures Holds(m', h, ptrs[j], sh[j])
    {
      assert Holds(m, h, ptrs[j], sh[j]);
      HoldsKept(m, m', h, h, h.blocks, ptrs[j], sh[j]);
    }
  }

  method RunFree(a: Allocator, sh: Shadow, ptrs: map<nat, nat>, id: nat) returns (ptrs': map<nat, nat>)
    requires Sound(a, sh, ptrs) && Legal(sh, FreeOp(id))
    modifies a, a.mem
    ensures Sound(a, sh - {id}, ptrs')
    ensures Advance(World(old(a.h), sh, ptrs), a.mem.Length, FreeOp(id)) == (World(a.h, sh - {id}, ptrs'), true)
  {
    hide WellFormed, Shows, Untouched, Good, Agrees;
    ghost var m0, h0 := a.mem[..], a.h;
    HeldBlock(World(h0, sh, ptrs), id);
    AdvanceGood(World(h0, sh, ptrs), a.mem.Length, FreeOp(id));
    LiveTags(m0, h0, ptrs[id]);
    a.MmFree(ptrs[id]);
    AfterFree(m0, a.mem[..], h0, sh, ptrs, id);
    ptrs' := ptrs - {id};
  }

  method RunResize(a: Allocator, sh: Shadow, ptrs: map<nat, nat>, id: nat, size: nat)
    returns (ptrs': map<nat, nat>, ok: bool)
    requires Sound(a, sh, ptrs) && Legal(sh, ResizeOp(id, size))
    modifies a, a.mem
    ensures Sound(a, ShadowStep(sh, ResizeOp(id, size), ok), ptrs')
    ensures Advance(World(old(a.h), sh, ptrs), a.mem.Length, ResizeOp(id, size))
         == (World(a.h, ShadowStep(sh, ResizeOp(id, size), ok), ptrs'), ok)
    ensures ptrs[id] in old(a.h).blocks
    ensures ok <==> size > 0 && (InPlace(old(a.h), ptrs[id], size)
                                 || CanServe(old(a.h), a.mem.Length, BlockWords(size * 2)))
    ensures ok && !InPlace(old(a.h), ptrs[id], size) ==> Tight(a.h, ptrs', id, BlockWords(size * 2))
  {
    hide WellFormed, Shows, Untouched, Agrees, Malloc, Free, MallocSize, BlockSize, Good, CanServe;
    ghost var m0, h0 := a.mem[..], a.h;
    HeldBlock(World(h0, sh, ptrs), id);
    AdvanceGood(World(h0, sh, ptrs), a.mem.Length, ResizeOp(id, size));
    SucceedsIff(World(h0, sh, ptrs), a.mem.Length, ResizeOp(id, size));
    if Asked(World(h0, sh, ptrs), ResizeOp(id, size)).Some?
       && Advance(World(h0, sh, ptrs), a.mem.Length, ResizeOp(id, size)).1 {
      ServedTightly(World(h0, sh, ptrs), a.mem.Length, ResizeOp(id, size));
    }
    var p := ptrs[id];
    LiveTags(m0, h0, p);
    var r := a.MmRealloc(p, size);
    if size == 0 {
      AfterFree(m0, a.mem[..], h0, sh, ptrs, id);
      return ptrs - {id}, false;
    }
    SmallRequest(size * 2);
    SmallRequest(size);
    if BlockSize(size) / 8 <= h0.blocks[p].size {
      AfterInPlace(m0, h0, sh, ptrs, id, WordsFor(size));
      assert ptrs[id := r] == ptrs;
    } else {
      MallocAllocated(h0, a.mem.Length, MallocSize(size * 2) / 8);
      if r == 0 {
        AgreesKept(m0, a.mem[..], h0, sh, ptrs);
      } else {
        AfterMove(m0, a.mem[..], h0, Malloc(h0, a.mem.Length, MallocSize(size * 2) / 8).0, sh, ptrs, id, r,
                  WordsFor(size), h0.blocks[p].size - 1);
      }
    }
    if r == 0 {
      return ptrs, false;
    }
    return ptrs[id := r], true;
  }

  method RunWrite(a: Allocator, sh: Shadow, ptrs: map<nat, nat>, id: nat, offset: nat, value: nat)
    requires Sound(a, sh, ptrs) && Legal(sh, WriteOp(id, offset, value))
    modifies a.mem
    ensures Sound(a, ShadowStep(sh, WriteOp(id, offset, value), true), ptrs)
    ensures a.h == old(a.h)
  {
    hide WellFormed, Shows, Agrees, Good;
    HeldBlock(World(a.h, sh, ptrs), id);
    AdvanceGood(World(a.h, sh, ptrs), a.mem.Length, WriteOp(id, offset, value));
    AfterWrite(a.mem[..], a.h, sh, ptrs, id, offset, value);
    a.Put(ptrs[id] + offset, value);
  }

  lemma NothingToAgree(m: seq<nat>, h: Heap)
    ensures Agrees(m, h, map[], map[])
  {
  }

  /** Word `k` of the block of `id` holds `v`. */
  ghost predicate InMemory(a: Allocator, ptrs: map<nat, nat>, id: nat, k: nat, v: nat)
    reads a, a.mem
  {
    id in ptrs && ptrs[id] + k < a.mem.Length && a.mem[ptrs[id] + k] == v
  }

  /** The trace driver on an allocator in any state: reset, initialise, then any sequence of client
      operations.  Heap, answers and places are exactly the model's, whatever was last written is still in
      its block, and a client that ends with nothing has left one free block. */
  method Run(a: Allocator, ops: seq<Op>) returns (started: bool, ptrs: map<nat, nat>, oks: seq<bool>, sh: Shadow)
    modifies a, a.mem
    ensures started <==> a.mem.Length >= 3
    ensures started ==>
      && |oks| == |ops| && sh == ShadowRun(map[], ops, oks)
      && Sound(a, sh, ptrs)
      && (World(a.h, sh, ptrs), oks) == Outcome(a.mem.Length, ops)
      && (sh == map[] ==> a.h == Swept(a.h.top))
      && (forall id, k, v {:trigger LastWrite(ops, oks, id, k, v)} :: LastWrite(ops, oks, id, k, v) ==>
            InMemory(a, ptrs, id, k, v))
  {
    hide Good, Shows, Agrees, Advance, LastWrite;
    ptrs, oks, sh := map[], [], map[];
    a.MemResetBrk();
    var status := a.MmInit();
    if status < 0 {
      return false, ptrs, oks, sh;
    }
    started := true;
    NothingHeld();
    NothingToAgree(a.mem[..], a.h);
    for i := 0 to |ops|
      invariant Sound(a, sh, ptrs)
      invariant (World(a.h, sh, ptrs), oks) == Outcome(a.mem.Length, ops[..i])
    {
      OutcomeSnoc(a.mem.Length, ops[..i], ops[i]);
      assert ops[..i] + [ops[i]] == ops[..i + 1];
      var ok;
      ptrs, ok := RunOne(a, sh, ptrs, ops[i]);
      if Legal(sh, ops[i]) {
        sh := ShadowStep(sh, ops[i], ok);
      }
      oks := oks + [ok];
    }
    assert ops[..|ops|] == ops;
    OutcomeShadow(a.mem.Length, ops);
    NothingLeaks(a.mem.Length, ops);
    forall id, k, v | LastWrite(ops, oks, id, k, v)
      ensures InMemory(a, ptrs, id, k, v)
    {
      HoldsLastWritten(a.mem.Length, ops, id, k, v);
      AgreesValue(a.mem[..], a.h, sh, ptrs, id, k, v);
    }
  }

  lemma AgreesValue(m: seq<nat>, h: Heap, sh: Shadow, ptrs: map<nat, nat>, id: nat, k: nat, v: nat)
    requires Agrees(m, h, sh, ptrs) && HasValue(sh, id, k, v)
    ensures id in ptrs && ptrs[id] + k < |m| && m[ptrs[id] + k] == v
  {
    assert Holds(m, h, ptrs[id], sh[id]);
  }

  /** One operation, if the client may issue it. */
  method RunOne(a: Allocator, sh: Shadow, ptrs: map<nat, nat>, op: Op) returns (ptrs': map<nat, nat>, ok: bool)
    requires Sound(a, sh, ptrs)
    modifies a, a.mem
    ensures Sound(a, if Legal(sh, op) then ShadowStep(sh, op, ok) else sh, ptrs')
    ensures AdvanceOrSkip(World(old(a.h), sh, ptrs), a.mem.Length, op)
         == (World(a.h, if Legal(sh, op) then ShadowStep(sh, op, ok) else sh, ptrs'), ok)
  {
    hide Good, Shows, Agrees, WellFormed;
    ptrs', ok := ptrs, false;
    if Legal(sh, op) {
      match op {
        case AllocOp(id, size) => ptrs', ok := RunAlloc(a, sh, ptrs, id, size);
        case FreeOp(id) =>
          ptrs' := RunFree(a, sh, ptrs, id);
          ok := true;
        case ResizeOp(id, size) => ptrs', ok := RunResize(a, sh, ptrs, id, size);
        case WriteOp(id, offset, value) =>
          RunWrite(a, sh, ptrs, id, offset, value);
          ok := true;
      }
    }
  }
}
