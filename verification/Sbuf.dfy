/** The bounded buffer of `sbuf.c` under any number of threads, each call a step machine over the three
    semaphores.  `inserted` and `removed` record what has gone in and come out, and a call that has done its
    part carries its item and the item's place in that record. */
module Sbuf {

  datatype Thread =
    | Idle
    // sbuf_insert
    | InsertWait(item: int)
    | InsertLock(item: int)
    | InsertBump(item: int)
    | InsertWrite(item: int)
    | InsertUnlock(item: int, at: nat)
    | InsertPost(item: int, at: nat)
    | InsertReturned(item: int, at: nat)
    // sbuf_remove
    | RemoveWait
    | RemoveLock
    | RemoveBump
    | RemoveRead
    | RemoveUnlock(item: int, at: nat)
    | RemovePost(item: int, at: nat)
    | RemoveReturned(item: int, at: nat)

  datatype State = State(buf: seq<int>, front: nat, rear: nat, mutex: nat, slots: nat, items: nat,
                         threads: seq<Thread>, inserted: seq<int>, removed: seq<int>)

  /** sbuf_init with a positive size. */
  predicate Initial(s: State) {
    && |s.buf| > 0 && s.front == s.rear == 0 && s.mutex == 1 && s.slots == |s.buf| && s.items == 0
    && s.inserted == [] && s.removed == [] && forall t :: 0 <= t < |s.threads| ==> s.threads[t] == Idle
  }

  predicate CanStep(s: State, t: nat) {
    t < |s.threads| &&
    match s.threads[t]
    case Idle => false
    case InsertWait(_) => s.slots > 0
    case InsertLock(_) => s.mutex > 0
    case RemoveWait => s.items > 0
    case RemoveLock => s.mutex > 0
    case _ => true
  }

  /** The next step of a thread that is in a call and not blocked. */
  function Successor(s: State, t: nat): State
    requires CanStep(s, t) && |s.buf| > 0
  {
    var go := (next: Thread) => s.(threads := s.threads[t := next]);
    var n := |s.buf|;
    match s.threads[t]
    case InsertWait(item) => go(InsertLock(item)).(slots := s.slots - 1)
    case InsertLock(item) => go(InsertBump(item)).(mutex := s.mutex - 1)
    case InsertBump(item) => go(InsertWrite(item)).(rear := s.rear + 1)
    case InsertWrite(item) =>
      go(InsertUnlock(item, |s.inserted|)).(buf := s.buf[s.rear % n := item], inserted := s.inserted + [item])
    case InsertUnlock(item, at) => go(InsertPost(item, at)).(mutex := s.mutex + 1)
    case InsertPost(item, at) => go(InsertReturned(item, at)).(items := s.items + 1)
    case InsertReturned(_, _) => go(Idle)
    case RemoveWait => go(RemoveLock).(items := s.items - 1)
    case RemoveLock => go(RemoveBump).(mutex := s.mutex - 1)
    case RemoveBump => go(RemoveRead).(front := s.front + 1)
    case RemoveRead =>
      go(RemoveUnlock(s.buf[s.front % n], |s.removed|)).(removed := s.removed + [s.buf[s.front % n]])
    case RemoveUnlock(item, at) => go(RemovePost(item, at)).(mutex := s.mutex + 1)
    case RemovePost(item, at) => go(RemoveReturned(item, at)).(slots := s.slots + 1)
    case RemoveReturned(_, _) => go(Idle)
  }

  ghost predicate Step(s: State, t: nat, r: State) {
    t < |s.threads| && |s.buf| > 0 &&
    if s.threads[t] == Idle then
      exists call: Thread :: (call.InsertWait? || call.RemoveWait?) && r == s.(threads := s.threads[t := call])
    else CanStep(s, t) && r == Successor(s, t)
  }

  // ---------------------------------------------------------------------------------------------
  // Counting threads
  // ---------------------------------------------------------------------------------------------

  datatype Group = Locked | HasSlot | Freed | Claimed | Unposted | Writing | Reading

  predicate In(p: Thread, g: Group) {
    match g
    case Locked =>
      p.InsertBump? || p.InsertWrite? || p.InsertUnlock? || p.RemoveBump? || p.RemoveRead? || p.RemoveUnlock?
    case HasSlot => p.InsertLock? || p.InsertBump? || p.InsertWrite?
    case Freed => p.RemoveUnlock? || p.RemovePost?
    case Claimed => p.RemoveLock? || p.RemoveBump? || p.RemoveRead?
    case Unposted => p.InsertUnlock? || p.InsertPost?
    case Writing => p.InsertWrite?
    case Reading => p.RemoveRead?
  }

  function One(p: Thread, g: Group): nat { if In(p, g) then 1 else 0 }

  function Count(ts: seq<Thread>, g: Group): nat {
    if ts == [] then 0 else One(ts[0], g) + Count(ts[1..], g)
  }

  lemma {:induction false} CountUpdate(ts: seq<Thread>, t: nat, p: Thread, g: Group)
    requires t < |ts|
    ensures Count(ts[t := p], g) == Count(ts, g) - One(ts[t], g) + One(p, g)
  {
    if t > 0 {
      CountUpdate(ts[1..], t - 1, p, g);
      assert ts[t := p][1..] == ts[1..][t - 1 := p];
    } else {
      assert ts[t := p][1..] == ts[1..];
    }
  }

  lemma {:induction false} CountSome(ts: seq<Thread>, g: Group) returns (t: nat)
    requires Count(ts, g) > 0
    ensures t < |ts| && In(ts[t], g)
  {
    if In(ts[0], g) {
      t := 0;
    } else {
      var u := CountSome(ts[1..], g);
      t := u + 1;
    }
  }

  /** Writers and readers of the buffer hold the mutex. */
  lemma {:induction false} CountLocked(ts: seq<Thread>)
    ensures Count(ts, Writing) + Count(ts, Reading) <= Count(ts, Locked)
  {
    if ts != [] { CountLocked(ts[1..]); }
  }

  lemma {:induction false} CountNone(ts: seq<Thread>, g: Group)
    requires forall t :: 0 <= t < |ts| ==> !In(ts[t], g)
    ensures Count(ts, g) == 0
  {
    if ts != [] {
      assert forall t :: 0 <= t < |ts[1..]| ==> ts[1..][t] == ts[t + 1];
      CountNone(ts[1..], g);
    }
  }

  // ---------------------------------------------------------------------------------------------
  // The invariant
  // ---------------------------------------------------------------------------------------------

  ghost function Outstanding(s: State): int { |s.inserted| - |s.removed| }

  ghost predicate MutexOk(s: State) {
    s.mutex + Count(s.threads, Locked) == 1
  }

  /** Every slot is free, claimed by a producer, holding an item, or emptied and about to be given back. */
  ghost predicate SlotsOk(s: State) {
    s.slots + Count(s.threads, HasSlot) + Outstanding(s) + Count(s.threads, Freed) == |s.buf|
  }

  /** Every item outstanding is announced, claimed by a consumer, or about to be announced. */
  ghost predicate ItemsOk(s: State) {
    s.items + Count(s.threads, Claimed) + Count(s.threads, Unposted) == Outstanding(s)
  }

  ghost predicate IndicesOk(s: State) {
    s.rear == |s.inserted| + Count(s.threads, Writing) && s.front == |s.removed| + Count(s.threads, Reading)
  }

  /** Item number `k` is still in its slot. */
  ghost predicate Unread(s: State, k: nat)
    requires k < |s.inserted| && |s.buf| > 0
  {
    s.buf[(k + 1) % |s.buf|] == s.inserted[k]
  }

  ghost predicate ContentsOk(s: State) {
    && |s.buf| > 0 && |s.removed| <= |s.inserted| && s.removed == s.inserted[..|s.removed|]
    && forall k {:trigger Unread(s, k)} :: |s.removed| <= k < |s.inserted| ==> Unread(s, k)
  }

  ghost predicate Good(s: State) {
    MutexOk(s) && SlotsOk(s) && ItemsOk(s) && IndicesOk(s) && ContentsOk(s)
  }

  ghost predicate Moves(s: State, t: nat, r: State, g: Group)
    requires t < |s.threads| == |r.threads|
  {
    Count(r.threads, g) == Count(s.threads, g) - One(s.threads[t], g) + One(r.threads[t], g)
  }

  lemma CountsMove(s: State, t: nat, r: State)
    requires Step(s, t, r)
    ensures t < |s.threads| == |r.threads| && r.threads == s.threads[t := r.threads[t]] && |r.buf| == |s.buf|
    ensures forall g {:trigger Moves(s, t, r, g)} :: Moves(s, t, r, g)
  {
    assert r.threads == s.threads[t := r.threads[t]];
    forall g
      ensures Moves(s, t, r, g)
    {
      CountUpdate(s.threads, t, r.threads[t], g);
    }
  }

  lemma CountersStep(s: State, t: nat, r: State)
    requires Step(s, t, r) && MutexOk(s) && SlotsOk(s) && ItemsOk(s) && IndicesOk(s)
    ensures MutexOk(r) && SlotsOk(r) && ItemsOk(r) && IndicesOk(r)
  {
    hide Count;
    CountsMove(s, t, r);
    assert Moves(s, t, r, Locked) && Moves(s, t, r, HasSlot) && Moves(s, t, r, Freed);
    assert Moves(s, t, r, Claimed) && Moves(s, t, r, Unposted) && Moves(s, t, r, Writing) && Moves(s, t, r, Reading);
  }

  lemma ModDistinct(a: nat, b: nat, n: nat)
    requires a < b < a + n
    ensures a % n != b % n
  {
    var q := b / n - a / n;
    assert a % n == b % n ==> b - a == n * q;
    assert (q <= 0 ==> n * q <= 0) && (q > 0 ==> n * q >= n);
  }

  lemma CountIn(ts: seq<Thread>, t: nat, g: Group)
    requires t < |ts| && In(ts[t], g)
    ensures Count(ts, g) >= 1
  {
    CountUpdate(ts, t, Idle, g);
  }

  /** The slot of item `k` is not the one that `rear` points to. */
  ghost predicate SlotFree(s: State, k: nat)
    requires |s.buf| > 0
  {
    (k + 1) % |s.buf| != s.rear % |s.buf|
  }

  /** A write goes to a slot that holds no unread item. */
  lemma WriteSlot(s: State, t: nat)
    requires Good(s) && t < |s.threads| && s.threads[t].InsertWrite?
    ensures s.rear == |s.inserted| + 1
    ensures forall k {:trigger SlotFree(s, k)} :: |s.removed| <= k < |s.inserted| ==> SlotFree(s, k)
  {
    hide Count;
    CountIn(s.threads, t, HasSlot);
    CountIn(s.threads, t, Writing);
    CountLocked(s.threads);
    forall k: nat | |s.removed| <= k < |s.inserted|
      ensures SlotFree(s, k)
    {
      ModDistinct(k + 1, s.rear, |s.buf|);
    }
  }

  lemma WriteStep(s: State, t: nat, r: State)
    requires Good(s) && Step(s, t, r) && s.threads[t].InsertWrite?
    ensures ContentsOk(r)
  {
    hide Count, MutexOk, SlotsOk, ItemsOk, IndicesOk;
    WriteSlot(s, t);
    assert r.inserted[..|r.removed|] == s.inserted[..|s.removed|];
    forall k: nat | |r.removed| <= k < |r.inserted|
      ensures Unread(r, k)
    {
      if k < |s.inserted| { assert Unread(s, k) && SlotFree(s, k); }
    }
  }

  /** A read takes the oldest item not yet read. */
  lemma ReadStep(s: State, t: nat, r: State)
    requires Good(s) && Step(s, t, r) && s.threads[t].RemoveRead?
    ensures ContentsOk(r) && |s.removed| < |s.inserted| && r.removed == s.removed + [s.inserted[|s.removed|]]
  {
    hide Count;
    CountIn(s.threads, t, Claimed);
    CountIn(s.threads, t, Reading);
    CountLocked(s.threads);
    assert Unread(s, |s.removed|);
    assert s.inserted[..|s.removed| + 1] == s.inserted[..|s.removed|] + [s.inserted[|s.removed|]];
    forall k: nat | |r.removed| <= k < |r.inserted|
      ensures Unread(r, k)
    {
      assert Unread(s, k);
    }
  }

  lemma StepKeeps(s: State, t: nat, r: State)
    requires Good(s) && Step(s, t, r)
    ensures Good(r)
  {
    hide Count, MutexOk, SlotsOk, ItemsOk, IndicesOk;
    CountersStep(s, t, r);
    if s.threads[t].InsertWrite? {
      WriteStep(s, t, r);
    } else if s.threads[t].RemoveRead? {
      ReadStep(s, t, r);
    } else {
      forall k: nat | |r.removed| <= k < |r.inserted|
        ensures Unread(r, k)
      {
        assert Unread(s, k);
      }
    }
  }

  // ---------------------------------------------------------------------------------------------
  // Whole runs
  // ---------------------------------------------------------------------------------------------

  ghost predicate SomeStep(s: State, r: State) {
    exists t: nat :: Step(s, t, r)
  }

  ghost predicate IsRun(run: seq<State>) {
    && run != [] && Initial(run[0])
    && forall k {:trigger run[k]} :: 0 < k < |run| ==> SomeStep(run[k - 1], run[k])
  }

  lemma InitialGood(s: State)
    requires Initial(s)
    ensures Good(s)
  {
    forall g
      ensures Count(s.threads, g) == 0
    {
      CountNone(s.threads, g);
    }
  }

  lemma {:induction false} RunGood(run: seq<State>)
    requires IsRun(run)
    ensures Good(run[|run| - 1])
  {
    hide Step, Good, Initial;
    var k := |run| - 1;
    if k == 0 {
      InitialGood(run[0]);
    } else {
      assert SomeStep(run[k - 1], run[k]);
      assert forall j :: 0 <= j < k ==> run[..k][j] == run[j];
      RunGood(run[..k]);
      var t: nat :| Step(run[k - 1], t, run[k]);
      StepKeeps(run[k - 1], t, run[k]);
    }
  }

  /** In every interleaving: items come out in the order in which they went in, none lost or repeated, and at
      most as many are outstanding as the buffer has slots. */
  lemma FirstInFirstOut(run: seq<State>)
    requires IsRun(run)
    ensures var s := run[|run| - 1];
            s.removed <= s.inserted && |s.inserted| - |s.removed| <= |s.buf|
  {
    RunGood(run);
  }

  /** No write ever falls on an item that has not been read. */
  lemma NoOverwrite(run: seq<State>, t: nat, k: nat)
    requires IsRun(run) && t < |run[|run| - 1].threads| && run[|run| - 1].threads[t].InsertWrite?
    requires |run[|run| - 1].removed| <= k < |run[|run| - 1].inserted|
    ensures var s := run[|run| - 1]; |s.buf| > 0 && s.rear % |s.buf| != (k + 1) % |s.buf|
  {
    var s := run[|run| - 1];
    RunGood(run);
    WriteSlot(s, t);
    assert SlotFree(s, k);
  }

  // ---------------------------------------------------------------------------------------------
  // What each call did
  // ---------------------------------------------------------------------------------------------

  predicate HasInserted(p: Thread) { p.InsertUnlock? || p.InsertPost? || p.InsertReturned? }

  predicate HasRemoved(p: Thread) { p.RemoveUnlock? || p.RemovePost? || p.RemoveReturned? }

  /** Thread `p` is in a call of sbuf_insert with this item. */
  predicate Inserts(p: Thread, item: int) { Inserting(p) && p.item == item }

  /** From state `k` of the run on, thread `t` has been in one call of sbuf_insert with `item`. */
  ghost predicate InsertsSince(run: seq<State>, t: nat, k: nat, item: int) {
    && k < |run|
    && forall j {:trigger run[j]} :: k <= j < |run| ==> t < |run[j].threads| && Inserts(run[j].threads[t], item)
  }

  /** From state `k` of the run on, thread `t` has carried one item and its place out of the buffer. */
  ghost predicate CarriesSince(run: seq<State>, t: nat, k: nat, item: int, at: nat) {
    && k < |run|
    && forall j {:trigger run[j]} :: k <= j < |run| ==>
         t < |run[j].threads| && HasRemoved(run[j].threads[t]) && run[j].threads[t].item == item
         && run[j].threads[t].at == at
  }

  /** The last step of a run that is past its start. */
  lemma LastStep(run: seq<State>) returns (u: nat)
    requires IsRun(run) && |run| > 1
    ensures var n := |run| - 1;
            IsRun(run[..n]) && run[..n][n - 1] == run[n - 1] && Step(run[n - 1], u, run[n])
  {
    hide Step, Initial;
    var n := |run| - 1;
    assert SomeStep(run[n - 1], run[n]) && forall j :: 0 <= j < n ==> run[..n][j] == run[j];
    u :| Step(run[n - 1], u, run[n]);
  }

  lemma InsertsLonger(run: seq<State>, t: nat, k: nat, item: int)
    requires run != [] && InsertsSince(run[..|run| - 1], t, k, item)
    requires t < |run[|run| - 1].threads| && Inserts(run[|run| - 1].threads[t], item)
    ensures InsertsSince(run, t, k, item)
  {
    assert forall j :: k <= j < |run| - 1 ==> run[..|run| - 1][j] == run[j];
  }

  lemma CarriesLonger(run: seq<State>, t: nat, k: nat, item: int, at: nat)
    requires run != [] && CarriesSince(run[..|run| - 1], t, k, item, at)
    requires t < |run[|run| - 1].threads| && HasRemoved(run[|run| - 1].threads[t])
    requires run[|run| - 1].threads[t].item == item && run[|run| - 1].threads[t].at == at
    ensures CarriesSince(run, t, k, item, at)
  {
    assert forall j :: k <= j < |run| - 1 ==> run[..|run| - 1][j] == run[j];
  }

  /** What a step means to the thread `t` of an insertion: it starts it, or carries its item on. */
  lemma InsertStep(s: State, u: nat, r: State, t: nat)
    requires Step(s, u, r) && t < |r.threads| && Inserting(r.threads[t])
    ensures t < |s.threads|
    ensures if s.threads[t] == Idle then r.threads[t].InsertWait? else Inserts(s.threads[t], r.threads[t].item)
    ensures HasInserted(r.threads[t]) && HasInserted(s.threads[t]) ==> s.threads[t].at == r.threads[t].at
    ensures HasInserted(r.threads[t]) && !HasInserted(s.threads[t]) ==>
      r.inserted == s.inserted + [r.threads[t].item] && r.threads[t].at == |s.inserted|
  {
  }

  /** Every insertion in progress began with its item, which it keeps throughout. */
  lemma {:induction false} InsertsItem(run: seq<State>, t: nat) returns (k: nat)
    requires IsRun(run) && t < |run[|run| - 1].threads| && Inserting(run[|run| - 1].threads[t])
    ensures InsertsSince(run, t, k, run[|run| - 1].threads[t].item) && run[k].threads[t].InsertWait?
  {
    hide Step, Inserts, Initial;
    var n := |run| - 1;
    if n == 0 { NoneAtStart(run[n], t); }
    var u := LastStep(run);
    InsertStep(run[n - 1], u, run[n], t);
    InsertsOwn(run[n].threads[t]);
    if run[n - 1].threads[t] == Idle {
      k := n;
    } else {
      InsertsSame(run[n - 1].threads[t], run[n].threads[t].item);
      k := InsertsItem(run[..n], t);
      InsertsLonger(run, t, k, run[n].threads[t].item);
      assert run[..n][k] == run[k];
    }
  }

  lemma NoneAtStart(s: State, t: nat)
    requires Initial(s) && t < |s.threads|
    ensures s.threads[t] == Idle
  {
  }

  lemma InsertsOwn(p: Thread)
    requires Inserting(p)
    ensures Inserts(p, p.item)
  {
  }

  lemma InsertsSame(p: Thread, item: int)
    requires Inserts(p, item)
    ensures Inserting(p) && p.item == item
  {
  }

  /** A call that has inserted its item has put exactly that item, once, at its place in the record. */
  lemma {:induction false} InsertedOwn(run: seq<State>, t: nat) returns (k: nat)
    requires IsRun(run) && t < |run[|run| - 1].threads| && HasInserted(run[|run| - 1].threads[t])
    ensures var p := run[|run| - 1].threads[t];
            && k + 1 < |run| && t < |run[k].threads| && run[k].threads[t] == InsertWrite(p.item)
            && p.at == |run[k].inserted| && run[k + 1].inserted == run[k].inserted + [p.item]
            && InsertsSince(run, t, k, p.item)
  {
    hide Step, Inserts, Initial;
    var n := |run| - 1;
    if n == 0 { NoneAtStart(run[n], t); }
    var u := LastStep(run);
    InsertStep(run[n - 1], u, run[n], t);
    InsertsOwn(run[n].threads[t]);
    var item := run[n].threads[t].item;
    if HasInserted(run[n - 1].threads[t]) {
      InsertsSame(run[n - 1].threads[t], item);
      k := InsertedOwn(run[..n], t);
      InsertsLonger(run, t, k, item);
      assert run[..n][k] == run[k] && run[..n][k + 1] == run[k + 1];
    } else {
      k := n - 1;
      InsertsSame(run[n - 1].threads[t], item);
      WroteNow(run[n - 1], u, run[n], t);
    }
  }

  lemma WroteNow(s: State, u: nat, r: State, t: nat)
    requires Step(s, u, r) && t < |r.threads| && HasInserted(r.threads[t])
    requires t < |s.threads| && !HasInserted(s.threads[t])
    ensures s.threads[t] == InsertWrite(r.threads[t].item)
  {
  }

  lemma RemoveStep(s: State, u: nat, r: State, t: nat)
    requires Step(s, u, r) && t < |r.threads| && HasRemoved(r.threads[t])
    ensures t < |s.threads|
    ensures HasRemoved(s.threads[t]) ==> s.threads[t].item == r.threads[t].item && s.threads[t].at == r.threads[t].at
    ensures !HasRemoved(s.threads[t]) ==>
      s.threads[t].RemoveRead? && r.removed == s.removed + [r.threads[t].item] && r.threads[t].at == |s.removed|
  {
  }

  /** The item that a call hands its caller is the one that its own step took out of the buffer. */
  lemma {:induction false} RemovedOwn(run: seq<State>, t: nat) returns (k: nat)
    requires IsRun(run) && t < |run[|run| - 1].threads| && HasRemoved(run[|run| - 1].threads[t])
    ensures var p := run[|run| - 1].threads[t];
            && k + 1 < |run| && t < |run[k].threads| && run[k].threads[t].RemoveRead?
            && p.at == |run[k].removed| && run[k + 1].removed == run[k].removed + [p.item]
            && CarriesSince(run, t, k + 1, p.item, p.at)
  {
    hide Step, Initial;
    var n := |run| - 1;
    if n == 0 { NoneAtStart(run[n], t); }
    var u := LastStep(run);
    RemoveStep(run[n - 1], u, run[n], t);
    var item, at := run[n].threads[t].item, run[n].threads[t].at;
    if HasRemoved(run[n - 1].threads[t]) {
      k := RemovedOwn(run[..n], t);
      CarriesLonger(run, t, k + 1, item, at);
      assert run[..n][k] == run[k] && run[..n][k + 1] == run[k + 1];
    } else {
      k := n - 1;
    }
  }

  ghost predicate SomeoneBusy(s: State) {
    exists u :: 0 <= u < |s.threads| && s.threads[u] != Idle
  }

  /** In every state of every interleaving with some call unfinished: nobody can step exactly when all of
      them wait to insert into a full buffer, or all of them wait to remove from an empty one. */
  lemma StuckExactlyWhen(run: seq<State>)
    requires IsRun(run) && SomeoneBusy(run[|run| - 1])
    ensures var s := run[|run| - 1];
            (forall t: nat :: !CanStep(s, t)) <==> (AllWaitFull(s) || AllWaitEmpty(s))
  {
    hide Good, AllWaitFull, AllWaitEmpty, SomeoneBusy, Initial, SomeStep;
    RunGood(run);
    StuckState(run[|run| - 1]);
  }

  lemma StuckState(s: State)
    requires Good(s) && SomeoneBusy(s)
    ensures (forall t: nat :: !CanStep(s, t)) <==> (AllWaitFull(s) || AllWaitEmpty(s))
  {
    if forall t: nat :: !CanStep(s, t) { NobodyMidCall(s); }
    if AllWaitFull(s) || AllWaitEmpty(s) { WaitersStuck(s); }
  }

  lemma WaitersStuck(s: State)
    requires Good(s) && (AllWaitFull(s) || AllWaitEmpty(s))
    ensures forall t: nat :: !CanStep(s, t)
  {
    hide Count;
  }

  ghost predicate AllWaitFull(s: State) {
    && Outstanding(s) == |s.buf|
    && forall t :: 0 <= t < |s.threads| ==> s.threads[t] == Idle || s.threads[t].InsertWait?
  }

  ghost predicate AllWaitEmpty(s: State) {
    && Outstanding(s) == 0
    && forall t :: 0 <= t < |s.threads| ==> s.threads[t] == Idle || s.threads[t].RemoveWait?
  }

  /** If nobody can step, everybody in a call is at its first semaphore. */
  lemma NobodyMidCall(s: State)
    requires Good(s) && forall t: nat :: !CanStep(s, t)
    ensures forall t :: 0 <= t < |s.threads| ==>
      s.threads[t] == Idle || (s.threads[t].InsertWait? && s.slots == 0) || (s.threads[t].RemoveWait? && s.items == 0)
    ensures s.slots + s.items == |s.buf| && s.items == Outstanding(s)
  {
    if s.mutex == 0 {
      var h := CountSome(s.threads, Locked);
      assert CanStep(s, h);
    }
    forall t | 0 <= t < |s.threads|
      ensures s.threads[t] == Idle || (s.threads[t].InsertWait?
        && s.slots == 0) || (s.threads[t].RemoveWait? && s.items == 0)
    {
      assert !CanStep(s, t);
    }
    CountNone(s.threads, HasSlot);
    CountNone(s.threads, Freed);
    CountNone(s.threads, Claimed);
    CountNone(s.threads, Unposted);
  }

  predicate Inserting(p: Thread) {
    p.InsertWait? || p.InsertLock? || p.InsertBump? || p.InsertWrite? || p.InsertUnlock? || p.InsertPost?
    || p.InsertReturned?
  }

  predicate Removing(p: Thread) { p != Idle && !Inserting(p) }

  /** No deadlock: while one thread is inserting and another removing, some thread can step. */
  lemma SomeThreadCanStep(run: seq<State>, producer: nat, consumer: nat) returns (t: nat)
    requires IsRun(run) && producer < |run[|run| - 1].threads| && consumer < |run[|run| - 1].threads|
    requires Inserting(run[|run| - 1].threads[producer]) && Removing(run[|run| - 1].threads[consumer])
    ensures CanStep(run[|run| - 1], t)
  {
    var s := run[|run| - 1];
    RunGood(run);
    NotStuck(s, producer, consumer);
    t :| CanStep(s, t);
  }

  lemma NotStuck(s: State, producer: nat, consumer: nat)
    requires Good(s) && producer < |s.threads| && consumer < |s.threads|
    requires Inserting(s.threads[producer]) && Removing(s.threads[consumer])
    ensures exists u: nat :: CanStep(s, u)
  {
    if forall u: nat :: !CanStep(s, u) { NobodyMidCall(s); }
  }
}
