/**
  The client's side of the allocator: a client that allocates, frees, resizes and writes, as the trace
  driver does.  Its own view is a set of independent little arrays, one per block id; a `World` adds
  the abstract heap and the place of every array in it.
*/
module MmClient {
  import opened Lists
  import opened HeapModel
  import opened HeapSteps
  import opened HeapFacts
  import opened HeapShapes
  import opened Requests

  datatype Op =
    | AllocOp(id: nat, size: nat)
    | FreeOp(id: nat)
    | ResizeOp(id: nat, size: nat)
    | WriteOp(id: nat, offset: nat, value: nat)

  /** A client array: how many words were asked for, and the last value written at each offset. */
  datatype Slot = Slot(words: nat, data: map<nat, nat>)

  type Shadow = map<nat, Slot>

  function WordsFor(size: nat): nat { (size + 7) / 8 }

  predicate Legal(sh: Shadow, op: Op) {
    match op
    case AllocOp(id, size) => id !in sh && size <= MAX_REQUEST
    case FreeOp(id) => id in sh
    case ResizeOp(id, size) => id in sh && size * 2 <= MAX_REQUEST
    case WriteOp(id, offset, _) => id in sh && offset < sh[id].words
  }

  function Trim(data: map<nat, nat>, words: nat): map<nat, nat> {
    map k | k in data && k < words :: data[k]
  }

  /** The client's view after a legal operation that succeeded (a non-NULL result) or not. */
  function ShadowStep(sh: Shadow, op: Op, ok: bool): Shadow
    requires Legal(sh, op)
  {
    match op
    case AllocOp(id, size) => if ok then sh[id := Slot(WordsFor(size), map[])] else sh
    case FreeOp(id) => sh - {id}
    case ResizeOp(id, size) =>
      if size == 0 then sh - {id}
      else if ok then sh[id := Slot(WordsFor(size), Trim(sh[id].data, WordsFor(size)))]
      else sh
    case WriteOp(id, offset, value) => sh[id := sh[id].(data := sh[id].data[offset := value])]
  }

  /** Operations the client may not issue are skipped. */
  function ShadowRun(sh: Shadow, ops: seq<Op>, oks: seq<bool>): Shadow
    requires |ops| == |oks|
  {
    if ops == [] then sh
    else
      var before := ShadowRun(sh, ops[..|ops| - 1], oks[..|oks| - 1]);
      if Legal(before, ops[|ops| - 1]) then ShadowStep(before, ops[|ops| - 1], oks[|oks| - 1]) else before
  }

  lemma ShadowRunSnoc(sh: Shadow, ops: seq<Op>, oks: seq<bool>, op: Op, ok: bool)
    requires |ops| == |oks|
    ensures var before := ShadowRun(sh, ops, oks);
            ShadowRun(sh, ops + [op], oks + [ok]) == if Legal(before, op) then ShadowStep(before, op, ok) else before
  {
    var ops', oks' := ops + [op], oks + [ok];
    assert ops'[..|ops'| - 1] == ops && oks'[..|oks'| - 1] == oks;
  }

  // ---------------------------------------------------------------------------------------------
  // The clients' arrays in the heap
  // ---------------------------------------------------------------------------------------------

  /** The heap, the client arrays, and the block that each of them lies in. */
  datatype World = World(h: Heap, sh: Shadow, ptrs: map<nat, nat>)

  const START := World(EMPTY_HEAP, map[], map[])

  ghost predicate OneEach(ptrs: map<nat, nat>) {
    forall id, id' {:trigger ptrs[id], ptrs[id']} :: id in ptrs && id' in ptrs && id != id' ==> ptrs[id] != ptrs[id']
  }

  /** The live blocks are exactly the clients' blocks: nothing leaks and nothing dangles. */
  ghost predicate NoOthers(h: Heap, ptrs: map<nat, nat>) {
    forall p {:trigger Live(h, p)} {:trigger p in ptrs.Values} :: Live(h, p) <==> p in ptrs.Values
  }

  ghost predicate Good(w: World) {
    WellFormed(w.h) && w.ptrs.Keys == w.sh.Keys && OneEach(w.ptrs) && NoOthers(w.h, w.ptrs)
  }

  function BlockWords(size: nat): nat
    requires size <= MAX_REQUEST
    ensures BlockWords(size) >= MIN_BLOCK
  {
    SmallRequest(size);
    MallocSize(size) / 8
  }

  /** A moving `mm_realloc`: allocate a block of `n` words, then free `p`. */
  ghost function Move(h: Heap, limit: nat, p: nat, n: nat): (Heap, nat)
    requires WellFormed(h) && Live(h, p) && n >= MIN_BLOCK
  {
    MallocAllocated(h, limit, n);
    var (h1, r) := Malloc(h, limit, n);
    if r == 0 then (h, 0) else (Free(h1, p), r)
  }

  /** One legal operation, and whether it answered a non-NULL pointer (always so for a free or a write). */
  ghost function Advance(w: World, limit: nat, op: Op): (World, bool)
    requires Good(w) && Legal(w.sh, op)
  {
    match op
    case AllocOp(id, size) =>
      if size == 0 then (w, false)
      else
        var (h, p) := Malloc(w.h, limit, BlockWords(size));
        Answered(w, op, h, id, p)
    case FreeOp(id) =>
      var p := w.ptrs[id];
      assert p in w.ptrs.Values;
      (World(Free(w.h, p), ShadowStep(w.sh, op, true), w.ptrs - {id}), true)
    case ResizeOp(id, size) =>
      var p := w.ptrs[id];
      assert p in w.ptrs.Values;
      if size == 0 then (World(Free(w.h, p), ShadowStep(w.sh, op, false), w.ptrs - {id}), false)
      else if InPlace(w.h, p, size) then Answered(w, op, w.h, id, p)
      else
        var (h, r) := Move(w.h, limit, p, BlockWords(size * 2));
        Answered(w, op, h, id, r)
    case WriteOp(_, _, _) =>
      (w.(sh := ShadowStep(w.sh, op, true)), true)
  }

  ghost function Answered(w: World, op: Op, h: Heap, id: nat, p: nat): (World, bool)
    requires Legal(w.sh, op)
  {
    (World(h, ShadowStep(w.sh, op, p != 0), if p != 0 then w.ptrs[id := p] else w.ptrs), p != 0)
  }

  lemma LiveAfterMove(h: Heap, limit: nat, p: nat, n: nat, q: nat)
    requires WellFormed(h) && Live(h, p) && n >= MIN_BLOCK
    ensures var (h', r) := Move(h, limit, p, n);
            && WellFormed(h')
            && (r == 0 <==> !CanServe(h, limit, n))
            && (r == 0 ==> h' == h)
            && (r != 0 ==> !Live(h, r) && (Live(h', q) <==> (Live(h, q) && q != p) || q == r))
  {
    hide WellFormed, Malloc, Free, CanServe;
    MallocAllocated(h, limit, n);
    ServedIff(h, limit, n);
    var (h1, r) := Malloc(h, limit, n);
    if r != 0 {
      LiveAfterMalloc(h, limit, n, q);
      LiveAfterFree(h1, p, q);
      FreeWellFormed(h1, p);
    }
  }

  /** Taking a new block for a client array, new or moved. */
  lemma TakesBlock(w: World, h: Heap, sh: Shadow, id: nat, p: nat)
    requires Good(w) && WellFormed(h) && sh.Keys == w.sh.Keys + {id} && !Live(w.h, p)
    requires forall q :: Live(h, q) <==> (Live(w.h, q) && (id in w.ptrs ==> q != w.ptrs[id])) || q == p
    ensures Good(World(h, sh, w.ptrs[id := p]))
  {
    hide WellFormed, Live;
    var ptrs' := w.ptrs[id := p];
    forall j, j' | j in ptrs' && j' in ptrs' && j != j'
      ensures ptrs'[j] != ptrs'[j']
    {
      if j in w.ptrs { assert w.ptrs[j] in w.ptrs.Values; }
      if j' in w.ptrs { assert w.ptrs[j'] in w.ptrs.Values; }
    }
    forall q
      ensures Live(h, q) <==> q in ptrs'.Values
    {
      if q in w.ptrs.Values {
        var j :| j in w.ptrs && w.ptrs[j] == q;
        assert j != id ==> ptrs'[j] == q;
      }
      assert ptrs'[id] == p;
    }
  }

  lemma DropsBlock(w: World, h: Heap, id: nat)
    requires Good(w) && WellFormed(h) && id in w.ptrs
    requires forall q :: Live(h, q) <==> Live(w.h, q) && q != w.ptrs[id]
    ensures Good(World(h, w.sh - {id}, w.ptrs - {id}))
  {
    hide WellFormed, Live;
    var ptrs' := w.ptrs - {id};
    forall q
      ensures Live(h, q) <==> q in ptrs'.Values
    {
      if q in w.ptrs.Values && q != w.ptrs[id] {
        var j :| j in w.ptrs && w.ptrs[j] == q;
        assert ptrs'[j] == q;
      }
      if q in ptrs'.Values {
        var j :| j in ptrs' && ptrs'[j] == q;
        assert w.ptrs[j] == q && w.ptrs[j] != w.ptrs[id];
      }
    }
  }

  lemma AllocGood(w: World, limit: nat, id: nat, size: nat)
    requires Good(w) && Legal(w.sh, AllocOp(id, size))
    ensures Good(Advance(w, limit, AllocOp(id, size)).0)
    ensures Advance(w, limit, AllocOp(id, size)).1 <==> size > 0 && CanServe(w.h, limit, BlockWords(size))
  {
    hide WellFormed, Malloc, CanServe;
    if size > 0 {
      var n := BlockWords(size);
      MallocWellFormed(w.h, limit, n);
      MallocAllocated(w.h, limit, n);
      ServedIff(w.h, limit, n);
      forall q { LiveAfterMalloc(w.h, limit, n, q); }
      var (h, p) := Malloc(w.h, limit, n);
      if p != 0 { TakesBlock(w, h, ShadowStep(w.sh, AllocOp(id, size), true), id, p); }
    }
  }

  lemma FreeGood(w: World, id: nat)
    requires Good(w) && id in w.sh
    ensures Live(w.h, w.ptrs[id]) && Good(World(Free(w.h, w.ptrs[id]), w.sh - {id}, w.ptrs - {id}))
  {
    hide WellFormed, Free;
    var p := w.ptrs[id];
    assert p in w.ptrs.Values;
    FreeWellFormed(w.h, p);
    forall q { LiveAfterFree(w.h, p, q); }
    DropsBlock(w, Free(w.h, p), id);
  }

  lemma HeldBlock(w: World, id: nat)
    requires Good(w) && id in w.sh
    ensures id in w.ptrs && OneEach(w.ptrs) && WellFormed(w.h) && Live(w.h, w.ptrs[id])
  {
    assert w.ptrs[id] in w.ptrs.Values;
  }

  /** Whether a block has room for `size` bytes, so that `mm_realloc` leaves it where it is. */
  predicate InPlace(h: Heap, p: nat, size: nat)
    requires p in h.blocks
  {
    BlockSize(size) / 8 <= h.blocks[p].size
  }

  lemma NotNull(h: Heap, p: nat)
    requires WellFormed(h) && p in h.blocks
    ensures p != 0
  {
    TiledBounded(h.blocks, h.top);
  }

  lemma ResizeGood(w: World, limit: nat, id: nat, size: nat)
    requires Good(w) && Legal(w.sh, ResizeOp(id, size))
    ensures Live(w.h, w.ptrs[id]) && Good(Advance(w, limit, ResizeOp(id, size)).0)
    ensures Advance(w, limit, ResizeOp(id, size)).1 <==>
            size > 0 && (InPlace(w.h, w.ptrs[id], size) || CanServe(w.h, limit, BlockWords(size * 2)))
  {
    hide WellFormed, Free, Move, CanServe, BlockSize;
    FreeGood(w, id);
    var p := w.ptrs[id];
    if size > 0 && !InPlace(w.h, p, size) {
      var n := BlockWords(size * 2);
      forall q { LiveAfterMove(w.h, limit, p, n, q); }
      var (h, r) := Move(w.h, limit, p, n);
      LiveAfterMove(w.h, limit, p, n, 0);
      if r != 0 { TakesBlock(w, h, ShadowStep(w.sh, ResizeOp(id, size), true), id, r); }
    } else if size > 0 {
      NotNull(w.h, p);
      assert w.ptrs[id := p] == w.ptrs;
    }
  }

  /** After every legal operation the heap is well formed, its live blocks are the clients' blocks, and
      the clients' view is what the answer says. */
  lemma AdvanceGood(w: World, limit: nat, op: Op)
    requires Good(w) && Legal(w.sh, op)
    ensures Good(Advance(w, limit, op).0)
    ensures Advance(w, limit, op).0.sh == ShadowStep(w.sh, op, Advance(w, limit, op).1)
  {
    hide WellFormed, Malloc, Free;
    match op
    case AllocOp(id, size) => AllocGood(w, limit, id, size);
    case FreeOp(id) => FreeGood(w, id);
    case ResizeOp(id, size) => ResizeGood(w, limit, id, size);
    case WriteOp(id, offset, value) =>
  }

  /** How many words an operation asks `mm_malloc` for, if it does. */
  ghost function Asked(w: World, op: Op): Option<nat>
    requires Good(w) && Legal(w.sh, op)
  {
    match op
    case AllocOp(_, size) => if size == 0 then None else Some(BlockWords(size))
    case ResizeOp(id, size) =>
      HeldBlock(w, id);
      if size == 0 || InPlace(w.h, w.ptrs[id], size) then None else Some(BlockWords(size * 2))
    case _ => None
  }

  /** A block just allocated is large enough and wastes less than a smallest block. */
  lemma ServedTightly(w: World, limit: nat, op: Op)
    requires Good(w) && Legal(w.sh, op) && Asked(w, op).Some? && Advance(w, limit, op).1
    ensures var n := Asked(w, op).value;
            var w' := Advance(w, limit, op).0;
            op.id in w'.ptrs && w'.ptrs[op.id] in w'.h.blocks && n <= w'.h.blocks[w'.ptrs[op.id]].size < n + MIN_BLOCK
  {
    hide WellFormed, Malloc, Free, CanServe, BlockSize, Good;
    GoodParts(w);
    match op
    case AllocOp(id, size) =>
      MallocTight(w.h, limit, BlockWords(size));
    case ResizeOp(id, size) =>
      HeldBlock(w, id);
      MovedTightly(w.h, limit, w.ptrs[id], BlockWords(size * 2));
  }

  lemma GoodParts(w: World)
    requires Good(w)
    ensures WellFormed(w.h)
  {
  }

  lemma MovedTightly(h: Heap, limit: nat, p: nat, n: nat)
    requires WellFormed(h) && Live(h, p) && n >= MIN_BLOCK && Move(h, limit, p, n).1 != 0
    ensures var (h', r) := Move(h, limit, p, n);
            r in h'.blocks && n <= h'.blocks[r].size < n + MIN_BLOCK
  {
    hide WellFormed, Malloc, Free;
    MallocTight(h, limit, n);
    MallocAllocated(h, limit, n);
    var (h1, r) := Malloc(h, limit, n);
    LiveAfterFree(h1, p, r);
  }

  /** Operations the client may not issue are skipped. */
  ghost function AdvanceOrSkip(w: World, limit: nat, op: Op): (r: (World, bool))
    requires Good(w)
    ensures Good(r.0) && r.0.sh == if Legal(w.sh, op) then ShadowStep(w.sh, op, r.1) else w.sh
  {
    if Legal(w.sh, op) then
      AdvanceGood(w, limit, op);
      Advance(w, limit, op)
    else (w, false)
  }

  /** Exactly when an operation succeeds. */
  lemma SucceedsIff(w: World, limit: nat, op: Op)
    requires Good(w)
    ensures AdvanceOrSkip(w, limit, op).1 <==>
            match op
            case AllocOp(id, size) => id !in w.sh && 0 < size <= MAX_REQUEST && CanServe(w.h, limit, BlockWords(size))
            case FreeOp(id) => id in w.sh
            case ResizeOp(id, size) =>
              && id in w.sh && size > 0 && size * 2 <= MAX_REQUEST && w.ptrs[id] in w.h.blocks
              && (InPlace(w.h, w.ptrs[id], size) || CanServe(w.h, limit, BlockWords(size * 2)))
            case WriteOp(id, offset, _) => id in w.sh && offset < w.sh[id].words
  {
    hide WellFormed, Malloc, Free, CanServe, BlockSize;
    if Legal(w.sh, op) {
      match op
      case AllocOp(id, size) => AllocGood(w, limit, id, size);
      case ResizeOp(id, size) => ResizeGood(w, limit, id, size);
      case _ =>
    }
  }

  /** The operations one after the other, on a freshly initialised heap. */
  ghost function Outcome(limit: nat, ops: seq<Op>): (r: (World, seq<bool>))
    ensures Good(r.0) && |r.1| == |ops|
  {
    if ops == [] then
      NothingHeld();
      (START, [])
    else
      var (w, oks) := Outcome(limit, ops[..|ops| - 1]);
      var (w', ok) := AdvanceOrSkip(w, limit, ops[|ops| - 1]);
      (w', oks + [ok])
  }

  lemma OutcomeSnoc(limit: nat, ops: seq<Op>, op: Op)
    ensures var ((w, oks), (w', ok)) := (Outcome(limit, ops), AdvanceOrSkip(Outcome(limit, ops).0, limit, op));
            Outcome(limit, ops + [op]) == (w', oks + [ok])
  {
    hide Good, AdvanceOrSkip;
    var ops' := ops + [op];
    assert ops'[..|ops'| - 1] == ops && ops'[|ops'| - 1] == op;
  }

  lemma {:induction false} OutcomeShadow(limit: nat, ops: seq<Op>)
    ensures Outcome(limit, ops).0.sh == ShadowRun(map[], ops, Outcome(limit, ops).1)
  {
    hide Good, AdvanceOrSkip, Legal, ShadowStep;
    if ops != [] {
      var most, last := ops[..|ops| - 1], ops[|ops| - 1];
      OutcomeShadow(limit, most);
      var (w, oks) := Outcome(limit, most);
      ShadowRunSnoc(map[], most, oks, last, AdvanceOrSkip(w, limit, last).1);
      assert ops == most + [last];
    }
  }

  lemma NothingHeld()
    ensures Good(START)
  {
    EmptyWellFormed();
  }

  /** The heap that is left when nothing is live: one free block, or none. */
  function Swept(top: nat): Heap {
    if top == 3 then EMPTY_HEAP
    else
      var whole := Block(if top > 3 then top - 3 else 0, false, 1);
      Heap(map[1 := Block(2, true, 0), 3 := whole, top := Block(0, true, 3)], [3], top)
  }

  /** Whatever the operations were, a client that holds nothing at the end has given everything back:
      the heap is one free block again. */
  lemma NothingLeaks(limit: nat, ops: seq<Op>)
    ensures var w := Outcome(limit, ops).0;
            w.sh == map[] ==> w.h == Swept(w.h.top)
  {
    hide WellFormed, Outcome, Swept, OneEach, Live;
    var w := Outcome(limit, ops).0;
    if w.sh == map[] {
      assert forall p :: p !in w.ptrs.Values;
      SweptIs(w.h);
    }
  }

  lemma SweptIs(h: Heap)
    requires WellFormed(h) && forall p :: !Live(h, p)
    ensures h == Swept(h.top)
  {
    hide WellFormed, Live;
    AllFreed(h);
  }

  // ---------------------------------------------------------------------------------------------
  // The client's view, from the operations and their answers alone
  // ---------------------------------------------------------------------------------------------

  predicate Wrote(op: Op, ok: bool, id: nat, k: nat, v: nat) { op == WriteOp(id, k, v) && ok }

  /** The operation ends what was written at word `k` of `id`: another write, a free, or a smaller size. */
  predicate Ends(op: Op, ok: bool, id: nat, k: nat) {
    match op
    case WriteOp(i, offset, _) => i == id && offset == k && ok
    case FreeOp(i) => i == id
    case ResizeOp(i, size) => i == id && (size == 0 || (ok && 8 * k >= size))
    case AllocOp(_, _) => false
  }

  /** `v` was written at word `k` of `id`, and nothing since has ended that. */
  ghost predicate LastWrite(ops: seq<Op>, oks: seq<bool>, id: nat, k: nat, v: nat)
    requires |ops| == |oks|
  {
    exists j: nat {:trigger ops[j]} :: j < |ops| && Wrote(ops[j], oks[j], id, k, v)
      && forall l {:trigger ops[l]} :: j < l < |ops| ==> !Ends(ops[l], oks[l], id, k)
  }

  lemma LastWriteSnoc(ops: seq<Op>, oks: seq<bool>, op: Op, ok: bool, id: nat, k: nat, v: nat)
    requires |ops| == |oks|
    ensures LastWrite(ops + [op], oks + [ok], id, k, v) <==>
            Wrote(op, ok, id, k, v) || (LastWrite(ops, oks, id, k, v) && !Ends(op, ok, id, k))
  {
    var ops', oks', n := ops + [op], oks + [ok], |ops|;
    assert ops'[n] == op && forall l :: 0 <= l < n ==> ops'[l] == ops[l] && oks'[l] == oks[l];
    if LastWrite(ops', oks', id, k, v) && !Wrote(op, ok, id, k, v) {
      var j: nat :| j < |ops'| && Wrote(ops'[j], oks'[j], id, k, v)
        && forall l {:trigger ops'[l]} :: j < l < |ops'| ==> !Ends(ops'[l], oks'[l], id, k);
      assert forall l :: j < l < n ==> !Ends(ops'[l], oks'[l], id, k);
    }
    if LastWrite(ops, oks, id, k, v) && !Ends(op, ok, id, k) {
      var j: nat :| j < |ops| && Wrote(ops[j], oks[j], id, k, v)
        && forall l {:trigger ops[l]} :: j < l < |ops| ==> !Ends(ops[l], oks[l], id, k);
      assert Wrote(ops'[j], oks'[j], id, k, v);
    }
  }

  predicate HasValue(sh: Shadow, id: nat, k: nat, v: nat) { id in sh && k in sh[id].data && sh[id].data[k] == v }

  lemma ValueStep(w: World, limit: nat, op: Op, id: nat, k: nat, v: nat)
    requires Good(w)
    ensures var (w', ok) := AdvanceOrSkip(w, limit, op);
            HasValue(w'.sh, id, k, v) <==> Wrote(op, ok, id, k, v) || (HasValue(w.sh, id, k, v) && !Ends(op, ok, id, k))
  {
    hide Good, AdvanceOrSkip, CanServe, InPlace;
    SucceedsIff(w, limit, op);
    ShadowValue(w.sh, op, AdvanceOrSkip(w, limit, op).1, id, k, v);
  }

  /** The client's view of one word, whatever the operation. */
  lemma ShadowValue(sh: Shadow, op: Op, ok: bool, id: nat, k: nat, v: nat)
    requires ok ==> Legal(sh, op)
    requires op.WriteOp? || op.FreeOp? ==> (ok <==> Legal(sh, op))
    requires ok && op.ResizeOp? ==> op.size > 0
    ensures HasValue(if Legal(sh, op) then ShadowStep(sh, op, ok) else sh, id, k, v) <==>
            Wrote(op, ok, id, k, v) || (HasValue(sh, id, k, v) && !Ends(op, ok, id, k))
  {
  }

  /** What a client array holds is what was last written to it. */
  lemma {:induction false} HoldsLastWritten(limit: nat, ops: seq<Op>, id: nat, k: nat, v: nat)
    ensures HasValue(Outcome(limit, ops).0.sh, id, k, v) <==> LastWrite(ops, Outcome(limit, ops).1, id, k, v)
  {
    hide Good, AdvanceOrSkip, LastWrite, Wrote, Ends;
    if ops == [] {
      NothingWritten(id, k, v);
    } else {
      var most, last := ops[..|ops| - 1], ops[|ops| - 1];
      HoldsLastWritten(limit, most, id, k, v);
      OutcomeSnoc(limit, most, last);
      var (w, oks) := Outcome(limit, most);
      ValueStep(w, limit, last, id, k, v);
      LastWriteSnoc(most, oks, last, AdvanceOrSkip(w, limit, last).1, id, k, v);
      assert ops == most + [last];
    }
  }

  lemma NothingWritten(id: nat, k: nat, v: nat)
    ensures !LastWrite([], [], id, k, v)
  {
  }

  /** The operation gives `id` room for `size` bytes. */
  predicate Grants(op: Op, ok: bool, id: nat, size: nat) {
    ok && (op == AllocOp(id, size) || op == ResizeOp(id, size))
  }

  /** The operation ends the room that `id` had: a free, or another size. */
  predicate Takes(op: Op, ok: bool, id: nat) {
    match op
    case AllocOp(i, _) => i == id && ok
    case FreeOp(i) => i == id
    case ResizeOp(i, size) => i == id && (ok || size == 0)
    case WriteOp(_, _, _) => false
  }

  ghost predicate LastGrant(ops: seq<Op>, oks: seq<bool>, id: nat, size: nat)
    requires |ops| == |oks|
  {
    exists j: nat {:trigger ops[j]} :: j < |ops| && Grants(ops[j], oks[j], id, size)
      && forall l {:trigger ops[l]} :: j < l < |ops| ==> !Takes(ops[l], oks[l], id)
  }

  lemma LastGrantSnoc(ops: seq<Op>, oks: seq<bool>, op: Op, ok: bool, id: nat, size: nat)
    requires |ops| == |oks|
    ensures LastGrant(ops + [op], oks + [ok], id, size) <==>
            Grants(op, ok, id, size) || (LastGrant(ops, oks, id, size) && !Takes(op, ok, id))
  {
    var ops', oks', n := ops + [op], oks + [ok], |ops|;
    assert ops'[n] == op && forall l :: 0 <= l < n ==> ops'[l] == ops[l] && oks'[l] == oks[l];
    if LastGrant(ops', oks', id, size) && !Grants(op, ok, id, size) {
      var j: nat :| j < |ops'| && Grants(ops'[j], oks'[j], id, size)
        && forall l {:trigger ops'[l]} :: j < l < |ops'| ==> !Takes(ops'[l], oks'[l], id);
      assert forall l :: j < l < n ==> !Takes(ops'[l], oks'[l], id);
    }
    if LastGrant(ops, oks, id, size) && !Takes(op, ok, id) {
      var j: nat :| j < |ops| && Grants(ops[j], oks[j], id, size)
        && forall l {:trigger ops[l]} :: j < l < |ops| ==> !Takes(ops[l], oks[l], id);
      assert Grants(ops'[j], oks'[j], id, size);
    }
  }

  /** Exactly the ids with room are held, and the words of an array are those of the size last granted. */
  lemma {:induction false} HoldsLastGranted(limit: nat, ops: seq<Op>, id: nat)
    ensures id in Outcome(limit, ops).0.sh <==> exists size: nat :: LastGrant(ops, Outcome(limit, ops).1, id, size)
    ensures forall size: nat :: LastGrant(ops, Outcome(limit, ops).1, id, size) ==>
      id in Outcome(limit, ops).0.sh && 0 < size <= 8 * Outcome(limit, ops).0.sh[id].words < size + 8
  {
    hide Good, AdvanceOrSkip, LastGrant, Grants, Takes;
    if ops == [] {
      NothingGranted(id);
    } else {
      var most, last := ops[..|ops| - 1], ops[|ops| - 1];
      HoldsLastGranted(limit, most, id);
      OutcomeSnoc(limit, most, last);
      assert ops == most + [last];
      var (w, oks) := Outcome(limit, most);
      GrantStep(w, limit, last, id);
      forall size: nat { LastGrantSnoc(most, oks, last, AdvanceOrSkip(w, limit, last).1, id, size); }
    }
  }

  lemma NothingGranted(id: nat)
    ensures forall size: nat :: !LastGrant([], [], id, size)
  {
  }

  lemma GrantStep(w: World, limit: nat, op: Op, id: nat)
    requires Good(w)
    ensures var (w', ok) := AdvanceOrSkip(w, limit, op);
            && (id in w'.sh <==> (exists size: nat :: Grants(op, ok, id, size)) || (id in w.sh && !Takes(op, ok, id)))
            && (forall size: nat :: Grants(op, ok, id, size) ==>
                  Takes(op, ok, id) && id in w'.sh && 0 < size <= 8 * w'.sh[id].words < size + 8)
            && (id in w.sh && !Takes(op, ok, id) ==> id in w'.sh && w'.sh[id].words == w.sh[id].words)
  {
    hide Good, AdvanceOrSkip, CanServe, InPlace;
    SucceedsIff(w, limit, op);
    ShadowRoom(w.sh, op, AdvanceOrSkip(w, limit, op).1, id);
  }

  lemma ShadowRoom(sh: Shadow, op: Op, ok: bool, id: nat)
    requires ok ==> Legal(sh, op)
    requires op.WriteOp? || op.FreeOp? ==> (ok <==> Legal(sh, op))
    requires ok && (op.ResizeOp? || op.AllocOp?) ==> op.size > 0
    ensures var sh' := if Legal(sh, op) then ShadowStep(sh, op, ok) else sh;
            && (id in sh' <==> (exists size: nat :: Grants(op, ok, id, size)) || (id in sh && !Takes(op, ok, id)))
            && (forall size: nat :: Grants(op, ok, id, size) ==>
                  Takes(op, ok, id) && id in sh' && 0 < size <= 8 * sh'[id].words < size + 8)
            && (id in sh && !Takes(op, ok, id) ==> id in sh' && sh'[id].words == sh[id].words)
  {
    if ok && op.AllocOp? && op.id == id { assert Grants(op, ok, id, op.size); }
    if ok && op.ResizeOp? && op.id == id { assert Grants(op, ok, id, op.size); }
  }
}
