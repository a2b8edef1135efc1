/** The proxy cache under any number of threads: `cache_add` and `cache_get` as step machines over the two
    semaphores, interleaved in every way. One step is one semaphore operation or one list operation. */
module ProxyThreads {
  import opened Lists
  import opened ProxyModel

  datatype Thread =
    | Idle
    // cache_add
    | WriterWait(key: string, data: Bytes)
    | WriterRoom(key: string, data: Bytes)
    | WriterUnlink(key: string, data: Bytes, victim: nat)
    | WriterPrepend(key: string, data: Bytes)
    | WriterAppend(key: string, data: Bytes, n: nat)
    | WriterPost(key: string, data: Bytes, n: nat)
    | AddReturned(key: string, data: Bytes, entry: Option<nat>)
    // cache_get
    | EnterWait(key: string)
    | EnterCount(key: string)
    | EnterFirst(key: string)
    | EnterPost(key: string)
    | Scan(key: string, current: Option<nat>)
    | MoveWait(key: string, n: nat)
    | MoveRemove(key: string, n: nat)
    | MoveAppend(key: string, n: nat)
    | MovePost(key: string, n: nat)
    | Copy(key: string, n: nat)
    | LeaveWait(key: string, a: Option<Bytes>)
    | LeaveCount(key: string, a: Option<Bytes>)
    | LeaveLast(key: string, a: Option<Bytes>)
    | LeavePost(key: string, a: Option<Bytes>)
    | Returned(key: string, a: Option<Bytes>)
    // a null pointer or one to an entry that has been freed was followed
    | Fault

  datatype State = State(threads: seq<Thread>, readersLock: nat, writersLock: nat, readersCount: int,
                         totalSize: int, store: Store)

  predicate Initial(s: State) {
    && (forall t :: 0 <= t < |s.threads| ==> s.threads[t] == Idle)
    && s.readersLock == 1 && s.writersLock == 1 && s.readersCount == 0 && s.totalSize == 0 && s.store == EMPTY
  }

  /** The `next` field of item `n`; None inside for a null pointer, None outside when `n` is not in the list. */
  function NextItem(items: seq<nat>, n: nat): Option<Option<nat>> {
    if items == [] then None
    else if items[0] == n then Some(if |items| > 1 then Some(items[1]) else None)
    else NextItem(items[1..], n)
  }

  /** The next step of thread `t`, or None while a semaphore blocks it. An idle thread may start any call. */
  function Successor(s: State, t: nat): Option<State>
    requires t < |s.threads|
  {
    var h, items, lru := s.store.history, s.store.items, s.store.lru;
    var go := (next: Thread) => s.(threads := s.threads[t := next]);
    match s.threads[t]
    case Idle => None
    case WriterWait(key, data) =>
      if |data| > MAX_OBJECT_SIZE then Some(go(AddReturned(key, data, None)))
      else if s.writersLock == 0 then None
      else Some(go(WriterRoom(key, data)).(writersLock := s.writersLock - 1))
    case WriterRoom(key, data) =>
      if s.totalSize + |data| <= MAX_CACHE_SIZE then Some(go(WriterPrepend(key, data)))
      else if lru == [] || lru[0] >= |h| || lru[0] !in items then Some(go(Fault))
      else Some(go(WriterUnlink(key, data, lru[0])).(
        totalSize := s.totalSize - |h[lru[0]].data|, store := s.store.(items := Remove(items, lru[0]))))
    case WriterUnlink(key, data, victim) =>
      if victim !in lru then Some(go(Fault))
      else Some(go(WriterRoom(key, data)).(store := s.store.(lru := Remove(lru, victim))))
    case WriterPrepend(key, data) =>
      Some(go(WriterAppend(key, data, |h|)).(totalSize := s.totalSize + |data|,
        store := s.store.(history := h + [Added(key, data)], items := [|h|] + items)))
    case WriterAppend(key, data, n) =>
      if n !in items then Some(go(Fault))
      else Some(go(WriterPost(key, data, n)).(store := s.store.(lru := lru + [n])))
    case WriterPost(key, data, n) => Some(go(AddReturned(key, data, Some(n))).(writersLock := s.writersLock + 1))
    case AddReturned(_, _, _) => Some(go(Idle))
    case EnterWait(key) =>
      if s.readersLock == 0 then None else Some(go(EnterCount(key)).(readersLock := s.readersLock - 1))
    case EnterCount(key) => Some(go(EnterFirst(key)).(readersCount := s.readersCount + 1))
    case EnterFirst(key) =>
      if s.readersCount != 1 then Some(go(EnterPost(key)))
      else if s.writersLock == 0 then None
      else Some(go(EnterPost(key)).(writersLock := s.writersLock - 1))
    case EnterPost(key) =>
      Some(go(Scan(key, if items == [] then None else Some(items[0]))).(readersLock := s.readersLock + 1))
    case Scan(key, current) =>
      (match current
       case None => Some(go(LeaveWait(key, None)))
       case Some(n) =>
         if n >= |h| || n !in items then Some(go(Fault))
         else if h[n].key == key then Some(go(MoveWait(key, n)))
         else match NextItem(items, n) case None => Some(go(Fault)) case Some(next) => Some(go(Scan(key, next))))
    case MoveWait(key, n) =>
      if s.readersLock == 0 then None else Some(go(MoveRemove(key, n)).(readersLock := s.readersLock - 1))
    case MoveRemove(key, n) =>
      if n !in lru then Some(go(Fault)) else Some(go(MoveAppend(key, n)).(store := s.store.(lru := Remove(lru, n))))
    case MoveAppend(key, n) =>
      if n !in items then Some(go(Fault)) else Some(go(MovePost(key, n)).(store := s.store.(lru := lru + [n])))
    case MovePost(key, n) => Some(go(Copy(key, n)).(readersLock := s.readersLock + 1))
    case Copy(key, n) =>
      if n >= |h| || n !in items then Some(go(Fault)) else Some(go(LeaveWait(key, Some(h[n].data))))
    case LeaveWait(key, a) =>
      if s.readersLock == 0 then None else Some(go(LeaveCount(key, a)).(readersLock := s.readersLock - 1))
    case LeaveCount(key, a) => Some(go(LeaveLast(key, a)).(readersCount := s.readersCount - 1))
    case LeaveLast(key, a) =>
      var left := go(LeavePost(key, a));
      Some(if s.readersCount == 0 then left.(writersLock := s.writersLock + 1) else left)
    case LeavePost(key, a) => Some(go(Returned(key, a)).(readersLock := s.readersLock + 1))
    case Returned(key, a) => Some(go(Idle))
    case Fault => None
  }

  predicate Starts(call: Thread) {
    call.WriterWait? || call.EnterWait?
  }

  ghost predicate Step(s: State, t: nat, r: State) {
    t < |s.threads| == |r.threads| &&
    if s.threads[t] == Idle then exists call :: Starts(call) && r == s.(threads := s.threads[t := call])
    else Successor(s, t) == Some(r)
  }

  // ---------------------------------------------------------------------------------------------
  // Counting threads
  // ---------------------------------------------------------------------------------------------

  datatype Group = HoldsReaders | Entering | Inside | LeavingLast | Writing

  predicate In(p: Thread, g: Group) {
    match g
    case HoldsReaders =>
      p.EnterCount? || p.EnterFirst? || p.EnterPost? || p.MoveRemove? || p.MoveAppend? || p.MovePost?
      || p.LeaveCount? || p.LeaveLast? || p.LeavePost?
    case Entering => p.EnterFirst?
    case Inside => Registered(p) && !p.EnterFirst?
    case LeavingLast => p.LeaveLast?
    case Writing => p.WriterRoom? || p.WriterUnlink? || p.WriterPrepend? || p.WriterAppend? || p.WriterPost?
  }

  /** Between a lookup's increment of readers_count and its decrement. */
  predicate Registered(p: Thread) {
    p.EnterFirst? || p.EnterPost? || p.Scan? || p.MoveWait? || p.MoveRemove? || p.MoveAppend? || p.MovePost?
    || p.Copy? || p.LeaveWait? || p.LeaveCount?
  }

  function One(p: Thread, g: Group): nat { if In(p, g) then 1 else 0 }

  function Count(ts: seq<Thread>, g: Group): nat {
    if ts == [] then 0 else One(ts[0], g) + Count(ts[1..], g)
  }

  lemma {:induction false} CountUpdate(ts: seq<Thread>, t: nat, p: Thread, g: Group)
    requires t < |ts|
    ensures Count(ts[t := p], g) == Count(ts, g) - One(ts[t], g) + One(p, g)
  {
    if t > 0 {
      CountUpdate(ts[1..], t - 1, p, g);
      assert ts[t := p][1..] == ts[1..][t - 1 := p];
    } else {
      assert ts[t := p][1..] == ts[1..];
    }
  }

  lemma {:induction false} CountSome(ts: seq<Thread>, g: Group) returns (t: nat)
    requires Count(ts, g) > 0
    ensures t < |ts| && In(ts[t], g)
  {
    if In(ts[0], g) {
      t := 0;
    } else {
      var u := CountSome(ts[1..], g);
      t := u + 1;
    }
  }

  lemma {:induction false} CountIn(ts: seq<Thread>, g: Group, t: nat)
    requires t < |ts| && In(ts[t], g)
    ensures Count(ts, g) >= 1
  {
    if t > 0 { CountIn(ts[1..], g, t - 1); }
  }

  lemma {:induction false} CountTwo(ts: seq<Thread>, g: Group, t: nat, u: nat)
    requires t < u < |ts| && In(ts[t], g) && In(ts[u], g)
    ensures Count(ts, g) >= 2
  {
    if t > 0 { CountTwo(ts[1..], g, t - 1, u - 1); } else { CountIn(ts[1..], g, u - 1); }
  }

  lemma {:induction false} CountHolders(ts: seq<Thread>)
    ensures Count(ts, Entering) + Count(ts, LeavingLast) <= Count(ts, HoldsReaders)
  {
    if ts != [] { CountHolders(ts[1..]); }
  }

  lemma {:induction false} CountIdle(ts: seq<Thread>, g: Group)
    requires forall t :: 0 <= t < |ts| ==> ts[t] == Idle
    ensures Count(ts, g) == 0
  {
    if ts != [] { CountIdle(ts[1..], g); }
  }

  // ---------------------------------------------------------------------------------------------
  // The locks
  // ---------------------------------------------------------------------------------------------

  ghost predicate ReadersLockOk(s: State) {
    s.readersLock + Count(s.threads, HoldsReaders) == 1
  }

  ghost predicate ReadersCountOk(s: State) {
    s.readersCount == Count(s.threads, Inside) + Count(s.threads, Entering)
  }

  /** The readers as a group hold the writers lock exactly from the first one's wait to the last one's post. */
  ghost predicate WritersLockOk(s: State) {
    s.writersLock + Count(s.threads, Writing)
      + (if Count(s.threads, Inside) + Count(s.threads, LeavingLast) > 0 then 1 else 0) == 1
  }

  ghost predicate LocksOk(s: State) {
    ReadersLockOk(s) && ReadersCountOk(s) && WritersLockOk(s)
  }

  /** What moving thread `t` to `p` does to a count. */
  ghost predicate Moves(s: State, t: nat, r: State, g: Group)
    requires t < |s.threads| == |r.threads|
  {
    Count(r.threads, g) == Count(s.threads, g) - One(s.threads[t], g) + One(r.threads[t], g)
  }

  lemma CountsMove(s: State, t: nat, r: State)
    requires t < |s.threads| == |r.threads| && r.threads == s.threads[t := r.threads[t]]
    ensures Moves(s, t, r, HoldsReaders) && Moves(s, t, r, Entering) && Moves(s, t, r, Inside)
    ensures Moves(s, t, r, LeavingLast) && Moves(s, t, r, Writing)
  {
    forall g
      ensures Moves(s, t, r, g)
    {
      CountUpdate(s.threads, t, r.threads[t], g);
    }
  }

  /** What a step does to the readers lock and the count. */
  ghost predicate ReadersMove(s: State, t: nat, r: State)
    requires t < |s.threads| == |r.threads|
  {
    var p, q := s.threads[t], r.threads[t];
    && r.readersLock + One(q, HoldsReaders) == s.readersLock + One(p, HoldsReaders)
    && r.readersCount - One(q, Inside) - One(q, Entering) == s.readersCount - One(p, Inside) - One(p, Entering)
  }

  lemma ReadersMoves(s: State, t: nat, r: State)
    requires Step(s, t, r) && r.threads[t] != Fault
    ensures ReadersMove(s, t, r)
  {
    hide Remove, NextItem;
  }

  lemma ReadersStep(s: State, t: nat, r: State)
    requires Step(s, t, r) && r.threads[t] != Fault && ReadersLockOk(s) && ReadersCountOk(s)
    ensures ReadersLockOk(r) && ReadersCountOk(r)
  {
    hide Count, Step, Successor, One;
    ReadersMoves(s, t, r);
    OnlyOneMoves(s, t, r);
    CountsMove(s, t, r);
  }

  /** What a step does to the writers lock: it passes with a writer, with the first reader and with the last. */
  ghost predicate WritersLockMove(s: State, t: nat, r: State)
    requires t < |s.threads| == |r.threads|
  {
    var p, q := s.threads[t], r.threads[t];
    if p.EnterFirst? then
      q.EnterPost? && r.writersLock == s.writersLock - (if s.readersCount == 1 then 1 else 0)
    else if p.LeaveLast? then
      q.LeavePost? && r.writersLock == s.writersLock + (if s.readersCount == 0 then 1 else 0)
    else
      && r.writersLock + One(q, Writing) == s.writersLock + One(p, Writing)
      && One(p, Inside) == One(q, Inside) + One(q, LeavingLast)
  }

  lemma WritersLockMoves(s: State, t: nat, r: State)
    requires Step(s, t, r) && r.threads[t] != Fault
    ensures WritersLockMove(s, t, r)
  {
    hide Remove, NextItem;
  }

  lemma WritersLockStep(s: State, t: nat, r: State)
    requires Step(s, t, r) && r.threads[t] != Fault
    requires LocksOk(s)
    ensures WritersLockOk(r)
  {
    hide Count, Step, Successor;
    WritersLockMoves(s, t, r);
    OnlyOneMoves(s, t, r);
    CountsMove(s, t, r);
    CountHolders(s.threads);
    CountHolders(r.threads);
    ReadersStep(s, t, r);
  }

  lemma OnlyOneMoves(s: State, t: nat, r: State)
    requires Step(s, t, r)
    ensures t < |s.threads| == |r.threads| && r.threads == s.threads[t := r.threads[t]]
  {
    hide Remove, NextItem;
  }

  // ---------------------------------------------------------------------------------------------
  // Exclusion
  // ---------------------------------------------------------------------------------------------

  /** About to change a list, or halfway through. */
  predicate Mutator(p: Thread) { In(p, Writing) || p.MoveRemove? || p.MoveAppend? }

  lemma AtMostOne(ts: seq<Thread>, g: Group, t: nat, u: nat)
    requires t < |ts| && u < |ts| && In(ts[t], g) && In(ts[u], g) && Count(ts, g) <= 1
    ensures t == u
  {
    if t < u { CountTwo(ts, g, t, u); } else if u < t { CountTwo(ts, g, u, t); }
  }

  /** No writer is ever inside together with a registered reader that has entered. */
  lemma WritersExcludeReaders(s: State, t: nat, u: nat)
    requires LocksOk(s) && t < |s.threads| && u < |s.threads| && In(s.threads[t], Writing)
    ensures !In(s.threads[u], Inside)
  {
    CountIn(s.threads, Writing, t);
    if In(s.threads[u], Inside) { CountIn(s.threads, Inside, u); }
  }

  /** At most one thread at a time is in a section that changes the lists. */
  lemma OneMutator(s: State, t: nat, u: nat)
    requires LocksOk(s) && t < |s.threads| && u < |s.threads| && Mutator(s.threads[t]) && Mutator(s.threads[u])
    ensures t == u
  {
    if In(s.threads[t], Writing) && In(s.threads[u], Writing) {
      AtMostOne(s.threads, Writing, t, u);
    } else if In(s.threads[t], Writing) {
      WritersExcludeReaders(s, t, u);
    } else if In(s.threads[u], Writing) {
      WritersExcludeReaders(s, u, t);
    } else {
      AtMostOne(s.threads, HoldsReaders, t, u);
    }
  }

  // ---------------------------------------------------------------------------------------------
  // The lists
  // ---------------------------------------------------------------------------------------------

  /** The store as it will be once thread `p` has finished the list operation it is halfway through. */
  function Whole(st: Store, p: Thread): Store {
    match p
    case WriterUnlink(_, _, victim) => st.(lru := Remove(st.lru, victim))
    case WriterAppend(_, _, n) => st.(lru := st.lru + [n])
    case MoveAppend(_, n) => st.(lru := st.lru + [n])
    case _ => st
  }

  predicate Halfway(p: Thread) { p.WriterUnlink? || p.WriterAppend? || p.MoveAppend? }

  ghost predicate StoreOk(s: State) {
    && ((forall t :: 0 <= t < |s.threads| ==> !Halfway(s.threads[t])) ==> Inv(s.store))
    && (forall t :: 0 <= t < |s.threads| && Halfway(s.threads[t]) ==> Inv(Whole(s.store, s.threads[t])))
    && Known(s.store.history, s.store.items) && s.totalSize == Total(s.store.history, s.store.items)
  }

  /** What a lookup should answer: the value most recently accepted for the key, if it is still held. */
  ghost function Current(st: Store, key: string): Option<Bytes> {
    match LastAdded(st.history, key)
    case None => None
    case Some(n) => LastAddedIs(st.history, key); if n in st.items then Some(st.history[n].data) else None
  }

  ghost predicate Found(st: Store, key: string, n: nat) {
    Known(st.history, st.items) && Lookup(st.history, st.items, key) == Some(n)
  }

  /** The scan has passed `i` items without a match and `current` points to the next one. */
  ghost predicate ScanAt(st: Store, key: string, current: Option<nat>, i: nat) {
    && i <= |st.items| && current == (if i < |st.items| then Some(st.items[i]) else None)
    && Known(st.history, st.items) && Known(st.history, st.items[i..])
    && Lookup(st.history, st.items, key) == Lookup(st.history, st.items[i..], key)
  }

  /** What holds of a thread, given the lists. */
  ghost predicate ThreadOk(st: Store, total: int, p: Thread) {
    match p
    case WriterRoom(_, data) => |data| <= MAX_OBJECT_SIZE
    case WriterUnlink(_, data, victim) => |data| <= MAX_OBJECT_SIZE && victim in st.lru
    case WriterPrepend(_, data) => |data| <= MAX_OBJECT_SIZE && total + |data| <= MAX_CACHE_SIZE
    case WriterAppend(_, data, n) => |data| <= MAX_OBJECT_SIZE && n in st.items
    case WriterPost(_, data, _) => |data| <= MAX_OBJECT_SIZE
    case AddReturned(_, data, entry) => entry.Some? <==> |data| <= MAX_OBJECT_SIZE
    case Scan(key, current) => exists i: nat :: ScanAt(st, key, current, i)
    case MoveWait(key, n) => Found(st, key, n)
    case MoveRemove(key, n) => Found(st, key, n)
    case MoveAppend(key, n) => Found(st, key, n)
    case MovePost(key, n) => Found(st, key, n)
    case Copy(key, n) => Found(st, key, n)
    case Fault => false
    case _ => true
  }

  ghost predicate ThreadsOk(s: State) {
    forall t :: 0 <= t < |s.threads| ==> ThreadOk(s.store, s.totalSize, s.threads[t])
  }

  ghost predicate Good(s: State) { LocksOk(s) && StoreOk(s) && ThreadsOk(s) }

  /** What the thread that owns the lists knows of them. */
  lemma OwnStore(s: State, t: nat)
    requires Good(s) && t < |s.threads| && Mutator(s.threads[t])
    ensures Inv(Whole(s.store, s.threads[t]))
    ensures forall u :: 0 <= u < |s.threads| && u != t ==> !Halfway(s.threads[u])
  {
    hide Inv, Whole, ThreadsOk;
    forall u | 0 <= u < |s.threads| && u != t
      ensures !Halfway(s.threads[u])
    {
      if Halfway(s.threads[u]) { OneMutator(s, t, u); }
    }
    WholeOf(s.store, s.threads[t]);
  }

  lemma WholeOf(st: Store, p: Thread)
    ensures !Halfway(p) ==> Whole(st, p) == st
  {
  }

  /** While a lookup is inside and nobody is halfway, or whoever is halfway moves an entry: the item list is whole. */
  lemma InsideStore(s: State, t: nat)
    requires Good(s) && t < |s.threads| && In(s.threads[t], Inside)
    ensures exists lru :: Inv(s.store.(lru := lru))
  {
    hide Inv, ThreadsOk;
    if u: nat :| u < |s.threads| && Halfway(s.threads[u]) {
      if In(s.threads[u], Writing) { WritersExcludeReaders(s, u, t); }
      assert Inv(s.store.(lru := Whole(s.store, s.threads[u]).lru));
    } else {
      assert s.store == s.store.(lru := s.store.lru);
    }
  }

  // ---------------------------------------------------------------------------------------------
  // Steps that change the lists
  // ---------------------------------------------------------------------------------------------

  /** The invariant as thread `t`, owning the lists, leaves it. */
  ghost predicate OwnOk(r: State, t: nat)
    requires t < |r.threads|
  {
    && r.threads[t] != Fault && Inv(Whole(r.store, r.threads[t]))
    && Known(r.store.history, r.store.items) && r.totalSize == Total(r.store.history, r.store.items)
  }

  ghost predicate OwnBefore(s: State, t: nat) {
    t < |s.threads| && OwnOk(s, t) && ThreadOk(s.store, s.totalSize, s.threads[t])
  }

  /** The eviction loop never follows a null pointer: while there is too little room the lists are not empty. */
  lemma RoomStep(s: State, t: nat, r: State)
    requires OwnBefore(s, t) && s.threads[t].WriterRoom? && Successor(s, t) == Some(r)
    ensures OwnOk(r, t)
  {
    hide Inv, NextItem;
    var data := s.threads[t].data;
    if s.totalSize + |data| > MAX_CACHE_SIZE {
      EvictFirst(s.store, |data|);
      assert r.store.lru == s.store.lru && r.threads[t] == WriterUnlink(s.threads[t].key, data, s.store.lru[0]);
    }
  }

  lemma EvictFirst(st: Store, length: nat)
    requires Inv(st) && length <= MAX_OBJECT_SIZE && Total(st.history, st.items) + length > MAX_CACHE_SIZE
    ensures st.lru != [] && st.lru[0] < |st.history| && st.lru[0] in st.items
    ensures var e := st.(items := Remove(st.items, st.lru[0]), lru := Remove(st.lru, st.lru[0]));
            && Inv(e) && Total(e.history, e.items) == Total(st.history, st.items) - |st.history[st.lru[0]].data|
  {
    assert st.items[0] in st.lru;
    EvictKeeps(st);
  }

  lemma PrependStep(s: State, t: nat, r: State)
    requires OwnBefore(s, t) && s.threads[t].WriterPrepend? && Successor(s, t) == Some(r)
    ensures OwnOk(r, t)
  {
    hide Inv, NextItem, Remove;
    InsertKeeps(s.store, s.threads[t].key, s.threads[t].data);
    assert Whole(r.store, r.threads[t]) == Insert(s.store, s.threads[t].key, s.threads[t].data);
    InvKnown(Whole(r.store, r.threads[t]));
  }

  lemma RemoveStep(s: State, t: nat, r: State)
    requires OwnBefore(s, t) && s.threads[t].MoveRemove? && Successor(s, t) == Some(r)
    ensures OwnOk(r, t)
  {
    hide Inv, NextItem, Remove;
    InvKnown(s.store);
    FoundHeld(s.store, s.threads[t].key, s.threads[t].n);
    BothHold(s.store, s.threads[t].n);
    LookupIs(s.store.history, s.store.items, s.threads[t].key);
    TouchKeeps(s.store, s.threads[t].n);
    assert Whole(r.store, r.threads[t]) == Touch(s.store, s.threads[t].n);
  }

  lemma BothHold(st: Store, n: nat)
    requires Inv(st) && n in st.items
    ensures n in st.lru
  {
  }

  lemma InvKnown(st: Store)
    requires Inv(st)
    ensures Known(st.history, st.items) && Descending(st.items)
  {
  }

  lemma OwnStep(s: State, t: nat, r: State)
    requires OwnBefore(s, t) && Mutator(s.threads[t]) && Step(s, t, r)
    ensures OwnOk(r, t)
  {
    hide Inv, NextItem, Remove, Total;
    var p := s.threads[t];
    if p.WriterRoom? {
      RoomStep(s, t, r);
    } else if p.WriterPrepend? {
      PrependStep(s, t, r);
    } else if p.MoveRemove? {
      RemoveStep(s, t, r);
    } else if p.MoveAppend? {
      FoundHeld(s.store, p.key, p.n);
    }
  }

  lemma StoreSame(s: State, t: nat, r: State)
    requires Step(s, t, r) && !Mutator(s.threads[t])
    ensures r.store == s.store && r.totalSize == s.totalSize
    ensures !Halfway(r.threads[t])
  {
    hide NextItem, Remove;
  }

  lemma StoreStep(s: State, t: nat, r: State)
    requires Good(s) && Step(s, t, r)
    ensures StoreOk(r)
  {
    hide Inv, Step, Successor, LocksOk, ThreadOk, Whole, Total, Known;
    OnlyOneMoves(s, t, r);
    if Mutator(s.threads[t]) {
      OwnStore(s, t);
      assert OwnBefore(s, t);
      OwnStep(s, t, r);
      WholeOf(r.store, r.threads[t]);
    } else {
      StoreSame(s, t, r);
      assert !Halfway(s.threads[t]);
      assert forall u :: 0 <= u < |s.threads| && Halfway(s.threads[u]) ==> r.threads[u] == s.threads[u];
    }
  }

  // ---------------------------------------------------------------------------------------------
  // Every step keeps the invariant
  // ---------------------------------------------------------------------------------------------

  lemma {:induction false} NextItemAt(items: seq<nat>, i: nat)
    requires Descending(items) && i < |items|
    ensures NextItem(items, items[i]) == Some(if i + 1 < |items| then Some(items[i + 1]) else None)
  {
    if i > 0 { NextItemAt(items[1..], i - 1); }
  }

  lemma ScanFacts(s: State, t: nat) returns (i: nat)
    requires Good(s) && t < |s.threads| && s.threads[t].Scan?
    ensures Descending(s.store.items) && ScanAt(s.store, s.threads[t].key, s.threads[t].current, i)
  {
    hide Inv, LocksOk, StoreOk;
    InsideStore(s, t);
    var lru :| Inv(s.store.(lru := lru));
    InvKnown(s.store.(lru := lru));
    assert ThreadOk(s.store, s.totalSize, s.threads[t]);
    i :| ScanAt(s.store, s.threads[t].key, s.threads[t].current, i);
  }

  /** A scan step finds the entry, or moves to the next item, or ends without one. */
  lemma ScanStep(s: State, t: nat, r: State)
    requires Good(s) && t < |s.threads| && s.threads[t].Scan? && Successor(s, t) == Some(r)
    ensures ThreadOk(r.store, r.totalSize, r.threads[t])
    ensures r.threads[t].LeaveWait? ==>
      r.threads[t].a == None && Lookup(s.store.history, s.store.items, s.threads[t].key) == None
  {
    hide Good, NextItem;
    var i := ScanFacts(s, t);
    var key, items := s.threads[t].key, s.store.items;
    if i < |items| {
      NextItemAt(items, i);
      assert items[i] in items && items[i..][0] == items[i] && items[i..][1..] == items[i + 1..];
      if s.store.history[items[i]].key != key {
        assert ScanAt(r.store, key, r.threads[t].current, i + 1);
      }
    }
  }

  /** What is copied out is what the entry found holds. */
  lemma CopyStep(s: State, t: nat, r: State)
    requires Good(s) && t < |s.threads| && s.threads[t].Copy? && Successor(s, t) == Some(r)
    ensures ThreadOk(r.store, r.totalSize, r.threads[t]) && r.threads[t].LeaveWait?
    ensures Found(s.store, s.threads[t].key, s.threads[t].n)
    ensures s.threads[t].n < |s.store.history| && r.threads[t].a == Some(s.store.history[s.threads[t].n].data)
  {
    hide LocksOk, StoreOk, Total, NextItem, Lookup;
    assert ThreadOk(s.store, s.totalSize, s.threads[t]);
    FoundHeld(s.store, s.threads[t].key, s.threads[t].n);
  }

  lemma {:induction false} LookupHeld(h: seq<Added>, items: seq<nat>, key: string)
    requires Known(h, items) && Lookup(h, items, key).Some?
    ensures Lookup(h, items, key).value in items
  {
    if h[items[0]].key != key { LookupHeld(h, items[1..], key); }
  }

  lemma FoundHeld(st: Store, key: string, n: nat)
    requires Found(st, key, n)
    ensures n in st.items && n < |st.history|
  {
    LookupHeld(st.history, st.items, key);
  }

  lemma OwnThread(s: State, t: nat, r: State)
    requires Good(s) && Step(s, t, r)
    ensures ThreadOk(r.store, r.totalSize, r.threads[t])
  {
    hide Inv, LocksOk, StoreOk, ThreadOk, ScanAt, Total, NextItem, Remove, Lookup, LastAdded;
    OnlyOneMoves(s, t, r);
    if s.threads[t].Scan? {
      ScanStep(s, t, r);
    } else if s.threads[t].Copy? {
      CopyStep(s, t, r);
    } else if s.threads[t].EnterPost? {
      EnterStep(s, t, r);
    } else if Mutator(s.threads[t]) {
      OwnMutator(s, t, r);
    } else {
      OwnSimple(s, t, r);
    }
  }

  lemma EnterStep(s: State, t: nat, r: State)
    requires Good(s) && Step(s, t, r) && s.threads[t].EnterPost?
    ensures ThreadOk(r.store, r.totalSize, r.threads[t])
  {
    hide Inv, LocksOk, Total, NextItem, Remove, Lookup, LastAdded, ScanAt;
    ScanStarts(s.store, s.threads[t].key);
    assert ScanAt(s.store, s.threads[t].key, if s.store.items == [] then None else Some(s.store.items[0]), 0);
  }

  lemma OwnMutator(s: State, t: nat, r: State)
    requires Good(s) && Step(s, t, r) && Mutator(s.threads[t])
    ensures ThreadOk(r.store, r.totalSize, r.threads[t])
  {
    hide Inv, LocksOk, Total, NextItem, Remove, Lookup, LastAdded;
    assert ThreadOk(s.store, s.totalSize, s.threads[t]);
    OwnStore(s, t);
    OwnStep(s, t, r);
  }

  /** Steps that neither read nor change the lists. */
  lemma OwnSimple(s: State, t: nat, r: State)
    requires Good(s) && Step(s, t, r) && !Mutator(s.threads[t])
    requires !s.threads[t].Scan? && !s.threads[t].Copy? && !s.threads[t].EnterPost?
    ensures ThreadOk(r.store, r.totalSize, r.threads[t])
  {
    hide Inv, LocksOk, StoreOk, Total, NextItem, Remove, Lookup, LastAdded;
    assert ThreadOk(s.store, s.totalSize, s.threads[t]);
  }

  lemma ScanStarts(st: Store, key: string)
    requires Known(st.history, st.items)
    ensures ScanAt(st, key, if st.items == [] then None else Some(st.items[0]), 0)
  {
    assert st.items[0..] == st.items;
  }

  /** A lookup is not disturbed while the items and the history stay. */
  lemma ThreadSame(st: Store, total: int, st': Store, p: Thread)
    requires ThreadOk(st, total, p) && st'.history == st.history && st'.items == st.items && !In(p, Writing)
    ensures ThreadOk(st', total, p)
  {
    hide Lookup;
    if p.Scan? {
      var i: nat :| ScanAt(st, p.key, p.current, i);
      assert ScanAt(st', p.key, p.current, i);
    }
  }

  /** A thread that is neither inside nor writing is not disturbed by what a writer does. */
  lemma ThreadOutside(st: Store, total: int, st': Store, total': int, p: Thread)
    requires ThreadOk(st, total, p) && !In(p, Inside) && !In(p, Writing)
    ensures ThreadOk(st', total', p)
  {
  }

  lemma OnlyWritersChange(s: State, t: nat, r: State)
    requires Step(s, t, r) && !In(s.threads[t], Writing)
    ensures r.store.history == s.store.history && r.store.items == s.store.items && r.totalSize == s.totalSize
  {
    hide NextItem, Remove;
  }

  lemma OtherThread(s: State, t: nat, r: State, u: nat)
    requires Good(s) && Step(s, t, r) && u < |s.threads| && u != t
    ensures ThreadOk(r.store, r.totalSize, s.threads[u])
  {
    hide Step, Successor, StoreOk, ThreadOk, LocksOk;
    OnlyOneMoves(s, t, r);
    assert ThreadOk(s.store, s.totalSize, s.threads[u]);
    if In(s.threads[t], Writing) {
      WritersExcludeReaders(s, t, u);
      if In(s.threads[u], Writing) { OneMutator(s, t, u); }
      ThreadOutside(s.store, s.totalSize, r.store, r.totalSize, s.threads[u]);
    } else {
      OnlyWritersChange(s, t, r);
      if In(s.threads[u], Writing) {
        WriterUndisturbed(s, t, r, u);
      } else {
        ThreadSame(s.store, s.totalSize, r.store, s.threads[u]);
      }
    }
  }

  /** While a writer is in, no lookup moves an entry. */
  lemma WriterUndisturbed(s: State, t: nat, r: State, u: nat)
    requires Good(s) && Step(s, t, r) && u < |s.threads| && u != t
    requires In(s.threads[u], Writing) && !In(s.threads[t], Writing)
    ensures ThreadOk(r.store, r.totalSize, s.threads[u])
  {
    hide Step, Successor, LocksOk, StoreOk;
    OnlyOneMoves(s, t, r);
    OnlyWritersChange(s, t, r);
    if Mutator(s.threads[t]) { OneMutator(s, t, u); }
    StoreSame(s, t, r);
    assert ThreadOk(s.store, s.totalSize, s.threads[u]);
  }

  lemma StepKeeps(s: State, t: nat, r: State)
    requires Good(s) && Step(s, t, r)
    ensures Good(r)
  {
    hide Step, Successor, StoreOk, ThreadOk, ReadersLockOk, ReadersCountOk, WritersLockOk;
    OnlyOneMoves(s, t, r);
    OwnThread(s, t, r);
    assert r.threads[t] != Fault by { NotFault(r.store, r.totalSize, r.threads[t]); }
    ReadersStep(s, t, r);
    WritersLockStep(s, t, r);
    StoreStep(s, t, r);
    forall u | 0 <= u < |r.threads|
      ensures ThreadOk(r.store, r.totalSize, r.threads[u])
    {
      if u != t { OtherThread(s, t, r, u); }
    }
  }

  lemma NotFault(st: Store, total: int, p: Thread)
    requires ThreadOk(st, total, p)
    ensures p != Fault
  {
  }

  // ---------------------------------------------------------------------------------------------
  // Whole runs
  // ---------------------------------------------------------------------------------------------

  ghost predicate SomeStep(s: State, r: State) {
    exists t: nat :: Step(s, t, r)
  }

  /** A run: each state follows from the one before by a step of some thread. */
  ghost predicate IsRun(run: seq<State>) {
    && run != [] && Initial(run[0])
    && forall k {:trigger run[k]} :: 0 < k < |run| ==> SomeStep(run[k - 1], run[k])
  }

  lemma InitialGood(s: State)
    requires Initial(s)
    ensures Good(s)
  {
    hide Count, Inv;
    CountIdle(s.threads, HoldsReaders);
    CountIdle(s.threads, Entering);
    CountIdle(s.threads, Inside);
    CountIdle(s.threads, LeavingLast);
    CountIdle(s.threads, Writing);
    EmptyStore();
  }

  lemma EmptyStore()
    ensures Inv(EMPTY) && Known(EMPTY.history, EMPTY.items) && Total(EMPTY.history, EMPTY.items) == 0
  {
  }

  lemma {:induction false} RunGood(run: seq<State>)
    requires IsRun(run)
    ensures Good(run[|run| - 1])
  {
    hide Step, Good, Initial;
    var k := |run| - 1;
    if k == 0 {
      InitialGood(run[0]);
    } else {
      assert SomeStep(run[k - 1], run[k]);
      assert forall j :: 0 <= j < k ==> run[..k][j] == run[j];
      RunGood(run[..k]);
      var t: nat :| Step(run[k - 1], t, run[k]);
      StepKeeps(run[k - 1], t, run[k]);
    }
  }

  /** Mutual exclusion, in every state of every run. */
  lemma Exclusion(run: seq<State>, t: nat, u: nat)
    requires IsRun(run) && t < |run[|run| - 1].threads| && u < |run[|run| - 1].threads|
    ensures var s := run[|run| - 1];
            && (In(s.threads[t], Writing) ==> !In(s.threads[u], Inside))
            && (Mutator(s.threads[t]) && Mutator(s.threads[u]) ==> t == u)
  {
    var s := run[|run| - 1];
    RunGood(run);
    if In(s.threads[t], Writing) { WritersExcludeReaders(s, t, u); }
    if Mutator(s.threads[t]) && Mutator(s.threads[u]) { OneMutator(s, t, u); }
  }

  lemma {:induction false} RegisteredCount(ts: seq<Thread>)
    ensures Count(ts, Inside) + Count(ts, Entering) == |RegisteredThreads(ts)|
  {
    hide RegisteredThreads, Count;
    if ts == [] {
      NobodyRegistered();
    } else {
      var rest, p := ts[..|ts| - 1], ts[|ts| - 1];
      RegisteredCount(rest);
      CountSnoc(rest, p, Inside);
      CountSnoc(rest, p, Entering);
      RegisteredSnoc(rest, p);
      assert ts == rest + [p];
    }
  }

  lemma NobodyRegistered()
    ensures Count([], Inside) == Count([], Entering) == 0 && RegisteredThreads([]) == {}
  {
  }

  lemma RegisteredSnoc(ts: seq<Thread>, p: Thread)
    ensures |RegisteredThreads(ts + [p])| == |RegisteredThreads(ts)| + (if Registered(p) then 1 else 0)
  {
    hide Registered;
    assert RegisteredThreads(ts + [p]) == RegisteredThreads(ts) + (if Registered(p) then {|ts|} else {});
  }

  ghost function RegisteredThreads(ts: seq<Thread>): set<nat> {
    set t: nat | t < |ts| && Registered(ts[t])
  }

  lemma {:induction false} CountSnoc(ts: seq<Thread>, p: Thread, g: Group)
    ensures Count(ts + [p], g) == Count(ts, g) + One(p, g)
  {
    if ts != [] {
      CountSnoc(ts[1..], p, g);
      assert (ts + [p])[1..] == ts[1..] + [p];
    }
  }

  /** readers_count is the number of registered lookups, the recorded size is the sum of the entries' sizes,
      and no run follows a null pointer or one to an entry that was freed. */
  lemma CountsAreTrue(run: seq<State>)
    requires IsRun(run)
    ensures var s := run[|run| - 1];
            && s.readersCount == |RegisteredThreads(s.threads)|
            && (forall t :: 0 <= t < |s.threads| ==> s.threads[t] != Fault)
            && Known(s.store.history, s.store.items) && s.totalSize == Total(s.store.history, s.store.items)
  {
    var s := run[|run| - 1];
    RunGood(run);
    RegisteredCount(s.threads);
    forall t | 0 <= t < |s.threads|
      ensures s.threads[t] != Fault
    {
      NotFault(s.store, s.totalSize, s.threads[t]);
    }
  }

  /** Thread `p` is in a call of `cache_get` for `key`. */
  predicate Calls(p: Thread, key: string) {
    && (p.EnterWait? || p.EnterCount? || p.EnterFirst? || p.EnterPost? || p.Scan? || p.MoveWait? || p.MoveRemove?
        || p.MoveAppend? || p.MovePost? || p.Copy? || Answered(p))
    && p.key == key
  }

  predicate Answered(p: Thread) {
    p.LeaveWait? || p.LeaveCount? || p.LeaveLast? || p.LeavePost? || p.Returned?
  }

  /** From state `k` of the run on, thread `t` has been in one call of `cache_get`. */
  ghost predicate InCallSince(run: seq<State>, t: nat, k: nat, key: string) {
    && k < |run|
    && forall j {:trigger run[j]} :: k <= j < |run| ==> t < |run[j].threads| && Calls(run[j].threads[t], key)
  }

  /** What a lookup takes with it is what was current in the state in which it took it. */
  lemma AnswerTaken(s: State, t: nat, r: State)
    requires Good(s) && Step(s, t, r) && !Answered(s.threads[t]) && Answered(r.threads[t])
    ensures Calls(s.threads[t], r.threads[t].key) && r.threads[t].a == Current(s.store, r.threads[t].key)
  {
    hide Inv, LocksOk, StoreOk, ThreadOk, Total, NextItem, Remove, Lookup, LastAdded;
    InsideStore(s, t);
    var lru :| Inv(s.store.(lru := lru));
    InvKnown(s.store.(lru := lru));
    LookupIsLatest(s.store.(lru := lru), s.threads[t].key);
    if s.threads[t].Scan? {
      ScanStep(s, t, r);
    } else {
      CopyStep(s, t, r);
    }
  }

  lemma AnswerKept(s: State, t: nat, r: State, u: nat)
    requires Step(s, t, r) && u < |r.threads| && Answered(r.threads[u])
    requires t == u ==> Answered(s.threads[t])
    ensures u < |s.threads| && Answered(s.threads[u])
    ensures s.threads[u].key == r.threads[u].key && s.threads[u].a == r.threads[u].a
  {
    hide NextItem, Remove;
    OnlyOneMoves(s, t, r);
  }

  /** Every answer, in every interleaving, is what was current in some state between the start of the call
      and its return: the newest accepted value of the key if it was still held then, a miss if not. */
  lemma {:induction false} AnswersAreCurrent(run: seq<State>, t: nat) returns (k: nat)
    requires IsRun(run) && t < |run[|run| - 1].threads| && Answered(run[|run| - 1].threads[t])
    ensures InCallSince(run, t, k, run[|run| - 1].threads[t].key)
    ensures run[|run| - 1].threads[t].a == Current(run[k].store, run[|run| - 1].threads[t].key)
  {
    hide Step, Good, Current, Successor, Calls, IsRun, InCallSince;
    var n := |run| - 1;
    var u := LastStep(run, t);
    OnlyOneMoves(run[n - 1], u, run[n]);
    AnsweredCalls(run[n].threads[t]);
    if u == t && !Answered(run[n - 1].threads[t]) {
      AnswerTaken(run[n - 1], t, run[n]);
      k := n - 1;
      InCallNow(run, t, run[n].threads[t].key);
    } else {
      AnswerKept(run[n - 1], u, run[n], t);
      k := AnswersAreCurrent(run[..n], t);
      InCallStill(run, t, k, run[n].threads[t].key);
    }
  }

  lemma InCallNow(run: seq<State>, t: nat, key: string)
    requires |run| >= 2 && t < |run[|run| - 2].threads| && t < |run[|run| - 1].threads|
    requires Calls(run[|run| - 2].threads[t], key) && Calls(run[|run| - 1].threads[t], key)
    ensures InCallSince(run, t, |run| - 2, key)
  {
    hide Calls;
  }

  lemma InCallStill(run: seq<State>, t: nat, k: nat, key: string)
    requires run != [] && InCallSince(run[..|run| - 1], t, k, key)
    requires t < |run[|run| - 1].threads| && Calls(run[|run| - 1].threads[t], key)
    ensures InCallSince(run, t, k, key) && run[..|run| - 1][k] == run[k]
  {
    hide Calls;
    var n := |run| - 1;
    assert forall j :: k <= j < n ==> run[..n][j] == run[j];
  }

  /** The last step of a run in which some thread has an answer. */
  lemma LastStep(run: seq<State>, t: nat) returns (u: nat)
    requires IsRun(run) && t < |run[|run| - 1].threads| && Answered(run[|run| - 1].threads[t])
    ensures var n := |run| - 1;
            && n > 0 && IsRun(run[..n]) && run[..n][n - 1] == run[n - 1]
            && Good(run[n - 1]) && Step(run[n - 1], u, run[n])
  {
    hide Step, Good;
    var n := |run| - 1;
    var before := run[..n];
    assert n > 0;
    assert SomeStep(run[n - 1], run[n]) && forall j :: 0 <= j < n ==> before[j] == run[j];
    RunGood(before);
    u :| Step(run[n - 1], u, run[n]);
  }

  lemma AnsweredCalls(p: Thread)
    requires Answered(p)
    ensures Calls(p, p.key)
  {
  }

  // ---------------------------------------------------------------------------------------------
  // What each addition did
  // ---------------------------------------------------------------------------------------------

  predicate Adding(p: Thread) {
    p.WriterWait? || p.WriterRoom? || p.WriterUnlink? || p.WriterPrepend? || p.WriterAppend? || p.WriterPost?
    || p.AddReturned?
  }

  /** Thread `p` is in a call of `cache_add` with these arguments. */
  predicate Adds(p: Thread, key: string, data: Bytes) { Adding(p) && p.key == key && p.data == data }

  /** The call has put its object into the item list, as entry number `EntryOf`. */
  predicate HasAdded(p: Thread) { p.WriterAppend? || p.WriterPost? || (p.AddReturned? && p.entry.Some?) }

  function EntryOf(p: Thread): nat
    requires HasAdded(p)
  {
    if p.AddReturned? then p.entry.value else p.n
  }

  /** From state `k` of the run on, thread `t` has been in one call of `cache_add` with these arguments. */
  ghost predicate AddsSince(run: seq<State>, t: nat, k: nat, key: string, data: Bytes) {
    && k < |run|
    && forall j {:trigger run[j]} :: k <= j < |run| ==> t < |run[j].threads| && Adds(run[j].threads[t], key, data)
  }

  lemma AddMoves(s: State, t: nat, r: State)
    requires Step(s, t, r) && Adding(r.threads[t])
    ensures if s.threads[t] == Idle then r.threads[t].WriterWait?
            else Adds(s.threads[t], r.threads[t].key, r.threads[t].data)
  {
    hide NextItem, Remove;
  }

  /** What a step means to the thread `t` of an addition. */
  lemma AddStep(s: State, u: nat, r: State, t: nat)
    requires Step(s, u, r) && t < |r.threads| && Adding(r.threads[t])
    ensures t < |s.threads|
    ensures if s.threads[t] == Idle then r.threads[t].WriterWait?
            else Adds(s.threads[t], r.threads[t].key, r.threads[t].data)
  {
    OnlyOneMoves(s, u, r);
    hide Successor;
    if u == t { AddMoves(s, t, r); }
  }

  /** The step at which the object is added, and what the call remembers of it. */
  lemma EntryStep(s: State, u: nat, r: State, t: nat)
    requires Step(s, u, r) && t < |r.threads| && HasAdded(r.threads[t])
    ensures t < |s.threads|
    ensures HasAdded(s.threads[t]) ==> EntryOf(s.threads[t]) == EntryOf(r.threads[t])
    ensures !HasAdded(s.threads[t]) ==>
      && s.threads[t] == WriterPrepend(r.threads[t].key, r.threads[t].data)
      && r.store.history == s.store.history + [Added(r.threads[t].key, r.threads[t].data)]
      && EntryOf(r.threads[t]) == |s.store.history|
  {
    hide NextItem, Remove;
  }

  lemma HistoryStep(s: State, u: nat, r: State)
    requires Step(s, u, r)
    ensures s.store.history <= r.store.history
  {
    hide NextItem, Remove;
  }

  lemma RunLast(run: seq<State>) returns (u: nat)
    requires IsRun(run) && |run| > 1
    ensures var n := |run| - 1;
            IsRun(run[..n]) && run[..n][n - 1] == run[n - 1] && Step(run[n - 1], u, run[n])
  {
    hide Step, Initial;
    var n := |run| - 1;
    assert SomeStep(run[n - 1], run[n]) && forall j :: 0 <= j < n ==> run[..n][j] == run[j];
    u :| Step(run[n - 1], u, run[n]);
  }

  lemma AddsLonger(run: seq<State>, t: nat, k: nat, key: string, data: Bytes)
    requires run != [] && AddsSince(run[..|run| - 1], t, k, key, data)
    requires t < |run[|run| - 1].threads| && Adds(run[|run| - 1].threads[t], key, data)
    ensures AddsSince(run, t, k, key, data)
  {
    assert forall j :: k <= j < |run| - 1 ==> run[..|run| - 1][j] == run[j];
  }

  lemma AllIdle(s: State, t: nat)
    requires Initial(s) && t < |s.threads|
    ensures s.threads[t] == Idle
  {
  }

  lemma AddsIs(p: Thread, key: string, data: Bytes)
    requires Adding(p)
    ensures Adds(p, key, data) <==> p.key == key && p.data == data
  {
  }

  lemma AddsAdding(p: Thread, key: string, data: Bytes)
    requires Adds(p, key, data)
    ensures Adding(p) && p.key == key && p.data == data
  {
  }

  /** Every addition in progress began with its arguments, which it keeps throughout. */
  lemma {:induction false} AddsArguments(run: seq<State>, t: nat) returns (k: nat)
    requires IsRun(run) && t < |run[|run| - 1].threads| && Adding(run[|run| - 1].threads[t])
    ensures AddsSince(run, t, k, run[|run| - 1].threads[t].key, run[|run| - 1].threads[t].data)
    ensures run[k].threads[t].WriterWait?
  {
    hide Step, Adds, Initial;
    var n, p := |run| - 1, run[|run| - 1].threads[t];
    if n == 0 { StartsIdle(run, t); }
    var u := RunLast(run);
    AddStep(run[n - 1], u, run[n], t);
    AddsIs(p, p.key, p.data);
    if run[n - 1].threads[t] == Idle {
      k := n;
    } else {
      AddsAdding(run[n - 1].threads[t], p.key, p.data);
      k := AddsArguments(run[..n], t);
      AddsLonger(run, t, k, p.key, p.data);
      assert run[..n][k] == run[k];
    }
  }

  lemma StartsIdle(run: seq<State>, t: nat)
    requires IsRun(run) && |run| == 1 && t < |run[0].threads|
    ensures run[0].threads[t] == Idle
  {
    AllIdle(run[0], t);
  }

  /** In step `k` thread `t` appended exactly the object of its call to the history, where it still is. */
  ghost predicate AddedAt(run: seq<State>, t: nat, k: nat, p: Thread)
    requires run != [] && HasAdded(p)
  {
    && k + 1 < |run| && t < |run[k].threads| && run[k].threads[t] == WriterPrepend(p.key, p.data)
    && run[k + 1].store.history == run[k].store.history + [Added(p.key, p.data)]
    && EntryOf(p) == |run[k].store.history| < |run[|run| - 1].store.history|
    && run[|run| - 1].store.history[EntryOf(p)] == Added(p.key, p.data)
  }

  lemma AddedLonger(run: seq<State>, t: nat, k: nat, p: Thread, q: Thread)
    requires |run| > 1 && HasAdded(p) && HasAdded(q) && p.key == q.key && p.data == q.data && EntryOf(p) == EntryOf(q)
    requires AddedAt(run[..|run| - 1], t, k, p)
    requires run[|run| - 2].store.history <= run[|run| - 1].store.history
    ensures AddedAt(run, t, k, q)
  {
    hide HasAdded, EntryOf;
    var n := |run| - 1;
    assert run[..n][k] == run[k] && run[..n][k + 1] == run[k + 1] && run[..n][n - 1] == run[n - 1];
  }

  /** A call that has added its object has appended exactly that to the history, once, and there it stays. */
  lemma {:induction false} AddedOwn(run: seq<State>, t: nat) returns (k: nat)
    requires IsRun(run) && t < |run[|run| - 1].threads| && HasAdded(run[|run| - 1].threads[t])
    ensures var p := run[|run| - 1].threads[t]; AddedAt(run, t, k, p) && AddsSince(run, t, k, p.key, p.data)
  {
    hide Step, Adds, Adding, Initial, EntryOf, HasAdded, AddedAt, AddsSince;
    HasAddedAdding(run[|run| - 1].threads[t]);
    var n, p := |run| - 1, run[|run| - 1].threads[t];
    if n == 0 { StartsIdle(run, t); }
    var u := RunLast(run);
    AddStep(run[n - 1], u, run[n], t);
    EntryStep(run[n - 1], u, run[n], t);
    HistoryStep(run[n - 1], u, run[n]);
    AddsIs(p, p.key, p.data);
    if HasAdded(run[n - 1].threads[t]) {
      HasAddedAdding(run[n - 1].threads[t]);
      AddsAdding(run[n - 1].threads[t], p.key, p.data);
      k := AddedOwn(run[..n], t);
      AddsLonger(run, t, k, p.key, p.data);
      AddedLonger(run, t, k, run[n - 1].threads[t], p);
    } else {
      k := n - 1;
      AddsIs(run[n - 1].threads[t], p.key, p.data);
      AddedHere(run, t, p);
    }
  }

  lemma AddedHere(run: seq<State>, t: nat, p: Thread)
    requires |run| > 1 && HasAdded(p) && t < |run[|run| - 2].threads| && t < |run[|run| - 1].threads|
    requires var n := |run| - 1;
             && run[n - 1].threads[t] == WriterPrepend(p.key, p.data) && run[n].threads[t] == p
             && run[n].store.history == run[n - 1].store.history + [Added(p.key, p.data)]
             && EntryOf(p) == |run[n - 1].store.history|
    ensures AddedAt(run, t, |run| - 2, p) && AddsSince(run, t, |run| - 2, p.key, p.data)
  {
  }

  lemma HasAddedAdding(p: Thread)
    requires HasAdded(p)
    ensures Adding(p) && p != Idle
  {
  }

  /** A call that returns has added its object exactly if that was small enough. */
  lemma AddedIffSmall(run: seq<State>, t: nat)
    requires IsRun(run) && t < |run[|run| - 1].threads| && run[|run| - 1].threads[t].AddReturned?
    ensures run[|run| - 1].threads[t].entry.Some? <==> |run[|run| - 1].threads[t].data| <= MAX_OBJECT_SIZE
  {
    RunGood(run);
    assert ThreadOk(run[|run| - 1].store, run[|run| - 1].totalSize, run[|run| - 1].threads[t]);
  }

  /** Whenever nobody is halfway through a list operation both lists hold the same entries, and the
      bytes held stay within the limit. */
  lemma ListsAgree(run: seq<State>)
    requires IsRun(run)
    ensures var s := run[|run| - 1];
            (forall t :: 0 <= t < |s.threads| ==> !Halfway(s.threads[t])) ==>
              SameItems(s.store) && s.totalSize <= MAX_CACHE_SIZE
  {
    RunGood(run);
  }

  // ---------------------------------------------------------------------------------------------
  // Progress
  // ---------------------------------------------------------------------------------------------

  ghost predicate CanStep(s: State, t: nat) {
    t < |s.threads| && Successor(s, t).Some?
  }

  /** The thread that holds the writers lock for writing can step. */
  lemma WriterCan(s: State) returns (t: nat)
    requires Count(s.threads, Writing) > 0
    ensures CanStep(s, t)
  {
    t := CountSome(s.threads, Writing);
  }

  /** If the readers lock is taken, its holder can step, or waits for a writer that can. */
  lemma HolderCan(s: State) returns (t: nat)
    requires LocksOk(s) && s.readersLock == 0
    ensures CanStep(s, t)
  {
    t := CountSome(s.threads, HoldsReaders);
    if s.threads[t].EnterFirst? && s.readersCount == 1 && s.writersLock == 0 {
      CountIn(s.threads, Entering, t);
      CountHolders(s.threads);
      t := WriterCan(s);
    }
  }

  lemma InsideCan(s: State) returns (t: nat)
    requires LocksOk(s) && ThreadsOk(s) && Count(s.threads, Inside) > 0
    ensures CanStep(s, t)
  {
    t := CountSome(s.threads, Inside);
    assert ThreadOk(s.store, s.totalSize, s.threads[t]);
    if s.readersLock == 0 { t := HolderCan(s); }
  }

  /** No deadlock: in every state of every run, if some thread has not finished its call, some thread can step. */
  lemma SomeThreadCanStep(run: seq<State>, u: nat) returns (t: nat)
    requires IsRun(run) && u < |run[|run| - 1].threads| && run[|run| - 1].threads[u] != Idle
    ensures CanStep(run[|run| - 1], t) && run[|run| - 1].threads[t] != Idle
  {
    hide Good, ThreadOk;
    var s := run[|run| - 1];
    RunGood(run);
    t := Unstuck(s, u);
  }

  lemma Unstuck(s: State, u: nat) returns (t: nat)
    requires Good(s) && u < |s.threads| && s.threads[u] != Idle
    ensures CanStep(s, t)
  {
    hide StoreOk, Count, ThreadOk;
    assert ThreadOk(s.store, s.totalSize, s.threads[u]);
    NotFault(s.store, s.totalSize, s.threads[u]);
    t := u;
    if !CanStep(s, u) {
      if s.readersLock == 0 {
        t := HolderCan(s);
      } else if Count(s.threads, Writing) > 0 {
        t := WriterCan(s);
      } else {
        CountHolders(s.threads);
        t := InsideCan(s);
      }
    }
  }
}
