/** The proxy's object cache (`cache.c`) on values: which accepted additions are still held, newest first,
    and in which order they would be evicted. An addition is named by its position in the history. */
module ProxyModel {
  import opened Words
  import opened Lists

  type Bytes = seq<Byte>

  datatype Added = Added(key: string, data: Bytes)

  datatype Store = Store(history: seq<Added>, items: seq<nat>, lru: seq<nat>)

  const MAX_OBJECT_SIZE: nat := 102400
  const MAX_CACHE_SIZE: nat := 1049000

  // ---------------------------------------------------------------------------------------------
  // Sequences without duplicates
  // ---------------------------------------------------------------------------------------------

  ghost predicate Descending(s: seq<nat>) {
    forall i, j {:trigger s[i], s[j]} :: 0 <= i < j < |s| ==> s[i] > s[j]
  }

  lemma RemoveDescends(s: seq<nat>, x: nat)
    requires Distinct(s) && Descending(s)
    ensures Descending(Remove(s, x))
  {
    hide Distinct, Remove;
    if x in s {
      var k :| 0 <= k < |s| && s[k] == x;
      RemoveAt(s, k);
      var r := s[..k] + s[k + 1..];
      assert forall i :: 0 <= i < |r| ==> r[i] == s[if i < k then i else i + 1];
    } else {
      RemoveAbsent(s, x);
    }
  }

  /** Bytes held by the items of `ids`. */
  function Total(history: seq<Added>, ids: seq<nat>): nat
    requires Known(history, ids)
  {
    if ids == [] then 0 else |history[ids[0]].data| + Total(history, ids[1..])
  }

  predicate Known(history: seq<Added>, ids: seq<nat>) {
    forall k :: 0 <= k < |ids| ==> ids[k] < |history|
  }

  lemma {:induction false} TotalWithout(history: seq<Added>, ids: seq<nat>, x: nat)
    requires Known(history, ids) && x in ids
    ensures Known(history, Remove(ids, x))
    ensures Total(history, Remove(ids, x)) == Total(history, ids) - |history[x].data|
  {
    if ids[0] != x {
      TotalWithout(history, ids[1..], x);
      var w := Remove(ids[1..], x);
      assert ([ids[0]] + w)[1..] == w;
    }
  }

  lemma SomeIn(t: seq<nat>)
    requires t != []
    ensures exists x :: x in t
  {
    assert t[0] in t;
  }

  /** The bytes held do not depend on the order in which the items are counted. */
  lemma {:induction false} TotalSame(history: seq<Added>, s: seq<nat>, t: seq<nat>)
    requires Known(history, s) && Known(history, t) && Distinct(s) && Distinct(t)
    requires forall x :: x in s <==> x in t
    ensures Total(history, s) == Total(history, t)
    decreases |s|
  {
    if s == [] {
      if t != [] { SomeIn(t); }
    } else {
      var x := s[0];
      TotalWithout(history, t, x);
      RemoveKeeps(t, x);
      RemoveKeeps(s, x);
      TotalSame(history, s[1..], Remove(t, x));
    }
  }

  lemma {:induction false} TotalGrown(history: seq<Added>, ids: seq<nat>, a: Added)
    requires Known(history, ids)
    ensures Known(history + [a], ids) && Total(history + [a], ids) == Total(history, ids)
  {
    if ids != [] {
      assert forall y :: y in ids[1..] ==> y in ids;
      TotalGrown(history, ids[1..], a);
    }
  }

  // ---------------------------------------------------------------------------------------------
  // The invariant
  // ---------------------------------------------------------------------------------------------

  ghost predicate SameItems(s: Store) {
    Descending(s.items) && Distinct(s.lru) && forall i :: i in s.items <==> i in s.lru
  }

  /** Of two entries with one key, the newer is evicted later. */
  ghost predicate OlderFirst(s: Store)
    requires Known(s.history, s.lru)
  {
    forall a, b {:trigger s.lru[a], s.lru[b]} :: 0 <= a < b < |s.lru| ==>
      s.history[s.lru[a]].key == s.history[s.lru[b]].key ==> s.lru[a] < s.lru[b]
  }

  /** An entry is held only while every later addition of its key is. */
  ghost predicate NewerStay(s: Store)
    requires Known(s.history, s.items)
  {
    forall i, j {:trigger i in s.items, s.history[j]} :: i in s.items && i < j < |s.history| ==>
      s.history[j].key == s.history[i].key ==> j in s.items
  }

  ghost predicate Inv(s: Store) {
    && Known(s.history, s.items) && Known(s.history, s.lru)
    && SameItems(s) && OlderFirst(s) && NewerStay(s)
    && Total(s.history, s.items) <= MAX_CACHE_SIZE
  }

  const EMPTY := Store([], [], [])

  // ---------------------------------------------------------------------------------------------
  // Lookup
  // ---------------------------------------------------------------------------------------------

  /** The first item with a key, scanning from the head of the item list. */
  function Lookup(history: seq<Added>, items: seq<nat>, key: string): Option<nat>
    requires Known(history, items)
  {
    if items == [] then None
    else if history[items[0]].key == key then Some(items[0])
    else Lookup(history, items[1..], key)
  }

  /** The most recent accepted addition of a key. */
  function LastAdded(history: seq<Added>, key: string): Option<nat> {
    if history == [] then None
    else if history[|history| - 1].key == key then Some(|history| - 1)
    else LastAdded(history[..|history| - 1], key)
  }

  lemma {:induction false} LastAddedIs(history: seq<Added>, key: string)
    ensures match LastAdded(history, key)
            case None => forall j :: 0 <= j < |history| ==> history[j].key != key
            case Some(n) => n < |history| && history[n].key == key
                            && forall j :: n < j < |history| ==> history[j].key != key
  {
    if history != [] { LastAddedIs(history[..|history| - 1], key); }
  }

  lemma {:induction false} LookupIs(history: seq<Added>, items: seq<nat>, key: string)
    requires Known(history, items) && Descending(items)
    ensures match Lookup(history, items, key)
            case None => forall i :: i in items ==> history[i].key != key
            case Some(n) => n in items && history[n].key == key
                            && forall i :: i in items && history[i].key == key ==> i <= n
  {
    if items != [] {
      assert forall i :: i in items[1..] ==> i in items;
      LookupIs(history, items[1..], key);
      assert forall i :: i in items ==> i == items[0] || i in items[1..];
    }
  }

  /** Duplicates do no harm: a scan finds the most recent addition of the key, or nothing. */
  lemma LookupIsLatest(s: Store, key: string)
    requires Inv(s)
    ensures var latest := LastAdded(s.history, key);
            Lookup(s.history, s.items, key) == if latest.Some? && latest.value in s.items then latest else None
  {
    LastAddedIs(s.history, key);
    LookupIs(s.history, s.items, key);
  }

  // ---------------------------------------------------------------------------------------------
  // Operations
  // ---------------------------------------------------------------------------------------------

  function Evict(s: Store): Store
    requires s.lru != []
  {
    s.(items := Remove(s.items, s.lru[0]), lru := s.lru[1..])
  }

  lemma EvictSame(s: Store)
    requires SameItems(s) && s.lru != []
    ensures SameItems(Evict(s)) && |Evict(s).items| == |s.items| - 1
    ensures forall i :: i in Evict(s).items <==> i in s.items && i != s.lru[0]
  {
    RemoveKeeps(s.items, s.lru[0]);
    RemoveDescends(s.items, s.lru[0]);
    var e := Evict(s);
    forall i
      ensures i in e.items <==> i in e.lru
    {
      if i in e.items {
        var j :| 0 <= j < |s.lru| && s.lru[j] == i;
        assert e.lru[j - 1] == i;
      }
    }
  }

  lemma EvictKeeps(s: Store)
    requires Inv(s) && s.lru != []
    ensures Inv(Evict(s)) && |Evict(s).items| == |s.items| - 1
    ensures Total(s.history, Evict(s).items) == Total(s.history, s.items) - |s.history[s.lru[0]].data|
  {
    EvictSame(s);
    TotalWithout(s.history, s.items, s.lru[0]);
    var e := Evict(s);
    forall i, j | i in e.items && i < j < |s.history| && s.history[j].key == s.history[i].key
      ensures j in e.items
    {
      var b :| 0 <= b < |s.lru| && s.lru[b] == i;
      assert s.lru[0] in s.lru;
    }
  }

  /** The eviction loop: it never meets an empty list, and it ends. */
  function MakeRoom(s: Store, length: nat): (r: Store)
    requires Inv(s) && length <= MAX_OBJECT_SIZE
    ensures Inv(r) && r.history == s.history
    ensures Total(r.history, r.items) + length <= MAX_CACHE_SIZE
    decreases |s.items|
  {
    if Total(s.history, s.items) + length > MAX_CACHE_SIZE then
      assert s.items[0] in s.lru;
      EvictKeeps(s);
      MakeRoom(Evict(s), length)
    else s
  }

  function Insert(s: Store, key: string, data: Bytes): Store {
    var n := |s.history|;
    Store(s.history + [Added(key, data)], [n] + s.items, s.lru + [n])
  }

  function Add(s: Store, key: string, data: Bytes): Store
    requires Inv(s)
  {
    if |data| > MAX_OBJECT_SIZE then s else Insert(MakeRoom(s, |data|), key, data)
  }

  /** Make `n` the most recently used. */
  function Touch(s: Store, n: nat): Store { s.(lru := Remove(s.lru, n) + [n]) }

  function Get(s: Store, key: string): (r: (Store, Option<Bytes>))
    requires Inv(s)
  {
    match Lookup(s.history, s.items, key)
    case None => (s, None)
    case Some(n) =>
      LookupIs(s.history, s.items, key);
      (Touch(s, n), Some(s.history[n].data))
  }

  lemma InsertKeeps(s: Store, key: string, data: Bytes)
    requires Inv(s) && Total(s.history, s.items) + |data| <= MAX_CACHE_SIZE
    ensures Inv(Insert(s, key, data))
    ensures Total(Insert(s, key, data).history, Insert(s, key, data).items) == Total(s.history, s.items) + |data|
  {
    hide SameItems, OlderFirst, NewerStay, Total;
    InsertTotal(s, key, data);
    InsertSame(s, key, data);
    InsertOlderFirst(s, key, data);
    InsertNewerStay(s, key, data);
  }

  lemma InsertTotal(s: Store, key: string, data: Bytes)
    requires Known(s.history, s.items)
    ensures var r := Insert(s, key, data);
            Known(r.history, r.items) && Total(r.history, r.items) == Total(s.history, s.items) + |data|
  {
    var r := Insert(s, key, data);
    TotalGrown(s.history, s.items, Added(key, data));
    assert r.items[1..] == s.items;
  }

  lemma InsertSame(s: Store, key: string, data: Bytes)
    requires SameItems(s) && Known(s.history, s.items) && Known(s.history, s.lru)
    ensures SameItems(Insert(s, key, data))
  {
    var r, n := Insert(s, key, data), |s.history|;
    assert forall i :: i in r.items <==> i == n || i in s.items;
    assert forall i :: i in r.lru <==> i == n || i in s.lru;
  }

  lemma InsertNewerStay(s: Store, key: string, data: Bytes)
    requires Known(s.history, s.items) && NewerStay(s)
    ensures Known(Insert(s, key, data).history, Insert(s, key, data).items) && NewerStay(Insert(s, key, data))
  {
    var r, n := Insert(s, key, data), |s.history|;
    assert forall i :: i in r.items <==> i == n || i in s.items;
    forall i, j | i in r.items && i < j < |r.history| && r.history[j].key == r.history[i].key
      ensures j in r.items
    {
      if j != n { assert i in s.items && s.history[j] == r.history[j] && s.history[i] == r.history[i]; }
    }
  }

  lemma InsertOlderFirst(s: Store, key: string, data: Bytes)
    requires Known(s.history, s.lru) && OlderFirst(s)
    ensures Known(Insert(s, key, data).history, Insert(s, key, data).lru) && OlderFirst(Insert(s, key, data))
  {
    var r := Insert(s, key, data);
    forall i | i in r.lru
      ensures i < |r.history|
    {
      if i != |s.history| { assert i in s.lru; }
    }
    forall a, b | 0 <= a < b < |r.lru| && r.history[r.lru[a]].key == r.history[r.lru[b]].key
      ensures r.lru[a] < r.lru[b]
    {
      assert r.lru[a] == s.lru[a];
      if b < |s.lru| { assert r.lru[b] == s.lru[b]; }
    }
  }

  /** Touching an entry moves the others up by one from its place on. */
  lemma TouchAt(s: Store, n: nat) returns (k: nat)
    requires Distinct(s.lru) && n in s.lru
    ensures k < |s.lru| && s.lru[k] == n && |Touch(s, n).lru| == |s.lru| && Touch(s, n).lru[|s.lru| - 1] == n
    ensures forall a :: 0 <= a < |s.lru| - 1 ==> Touch(s, n).lru[a] == s.lru[if a < k then a else a + 1]
  {
    hide Distinct, Remove;
    k :| 0 <= k < |s.lru| && s.lru[k] == n;
    RemoveAt(s.lru, k);
    assert Touch(s, n).lru == s.lru[..k] + s.lru[k + 1..] + [n];
  }

  lemma TouchSame(s: Store, n: nat)
    requires SameItems(s) && n in s.items && Known(s.history, s.lru)
    ensures SameItems(Touch(s, n)) && Known(s.history, Touch(s, n).lru)
  {
    RemoveKeeps(s.lru, n);
    var r, w := Touch(s, n), Remove(s.lru, n);
    assert forall i :: i in r.lru <==> i == n || i in w;
    forall a | 0 <= a < |r.lru|
      ensures r.lru[a] < |s.history|
    {
      assert r.lru[a] in s.lru by { assert r.lru[a] in r.lru; }
    }
  }

  lemma TouchOlderFirst(s: Store, n: nat)
    requires Known(s.history, s.lru) && Known(s.history, Touch(s, n).lru) && Distinct(s.lru) && n in s.lru
      && OlderFirst(s)
    requires forall i :: i in s.lru && s.history[i].key == s.history[n].key ==> i <= n
    ensures OlderFirst(Touch(s, n))
  {
    hide Touch;
    var k := TouchAt(s, n);
    var r := Touch(s, n);
    assert r.history == s.history by { TouchHistory(s, n); }
    forall a, b | 0 <= a < b < |r.lru| && r.history[r.lru[a]].key == r.history[r.lru[b]].key
      ensures r.lru[a] < r.lru[b]
    {
      var i := if a < k then a else a + 1;
      assert r.lru[a] == s.lru[i] && s.lru[i] in s.lru && s.lru[i] != n;
    }
  }

  lemma TouchHistory(s: Store, n: nat)
    ensures Touch(s, n).history == s.history && Touch(s, n).items == s.items
  {
  }

  /** Touching the newest entry of its key keeps the eviction order of duplicates. */
  lemma TouchKeeps(s: Store, n: nat)
    requires Inv(s) && n in s.items
    requires forall i :: i in s.items && s.history[i].key == s.history[n].key ==> i <= n
    ensures Inv(Touch(s, n))
  {
    TouchSame(s, n);
    TouchOlderFirst(s, n);
  }

  lemma AddKeeps(s: Store, key: string, data: Bytes)
    requires Inv(s)
    ensures Inv(Add(s, key, data))
    ensures Add(s, key, data).history == if |data| <= MAX_OBJECT_SIZE then s.history + [Added(key, data)] else s.history
  {
    if |data| <= MAX_OBJECT_SIZE { InsertKeeps(MakeRoom(s, |data|), key, data); }
  }

  lemma GetKeeps(s: Store, key: string)
    requires Inv(s)
    ensures Inv(Get(s, key).0)
  {
    LookupIs(s.history, s.items, key);
    match Lookup(s.history, s.items, key) {
      case None =>
      case Some(n) => TouchKeeps(s, n);
    }
  }

  // ---------------------------------------------------------------------------------------------
  // What is evicted
  // ---------------------------------------------------------------------------------------------

  /** The bytes of the entries from place `k` of the eviction order on. */
  ghost function Held(s: Store, k: nat): nat
    requires Known(s.history, s.lru) && k <= |s.lru|
  {
    assert Known(s.history, s.lru[k..]);
    Total(s.history, s.lru[k..])
  }

  lemma {:induction false} TotalSuffix(history: seq<Added>, ids: seq<nat>, k: nat)
    requires Known(history, ids) && k <= |ids|
    ensures Known(history, ids[k..]) && Total(history, ids[k..]) <= Total(history, ids)
  {
    assert Known(history, ids[k..]);
    if k > 0 {
      assert Known(history, ids[1..]);
      TotalSuffix(history, ids[1..], k - 1);
      assert ids[1..][k - 1..] == ids[k..];
    } else {
      assert ids[0..] == ids;
    }
  }

  lemma HeldAll(s: Store, k: nat)
    requires Inv(s) && k <= |s.lru|
    ensures Held(s, 0) == Total(s.history, s.items) && Held(s, k) <= Held(s, 0)
  {
    TotalSame(s.history, s.items, s.lru);
    TotalSuffix(s.history, s.lru, k);
    assert s.lru[0..] == s.lru;
  }

  lemma HeldEvicted(s: Store, k: nat)
    requires Inv(s) && 0 < k <= |s.lru|
    ensures Known(Evict(s).history, Evict(s).lru) && Held(Evict(s), k - 1) == Held(s, k)
  {
    EvictKeeps(s);
    assert s.lru[1..][k - 1..] == s.lru[k..];
  }

  /** Eviction keeps exactly the longest recently used part that leaves room: `evicted` entries go, and a
      recently used part of the list fits beside the new object if and only if it is no longer than what stays. */
  lemma {:induction false} MakeRoomKeepsMost(s: Store, length: nat) returns (evicted: nat)
    requires Inv(s) && length <= MAX_OBJECT_SIZE
    ensures evicted <= |s.lru| && MakeRoom(s, length).lru == s.lru[evicted..]
    ensures Known(s.history, s.lru)
    ensures forall k {:trigger Held(s, k)} :: 0 <= k <= |s.lru| ==>
      (Held(s, k) + length <= MAX_CACHE_SIZE <==> k >= evicted)
    decreases |s.items|
  {
    hide Inv, Total, Held;
    LruKnown(s);
    if Total(s.history, s.items) + length > MAX_CACHE_SIZE {
      NotEmpty(s, length);
      EvictKeeps(s);
      var rest := MakeRoomKeepsMost(Evict(s), length);
      evicted := rest + 1;
      assert s.lru[1..][rest..] == s.lru[evicted..];
      forall k | 0 <= k <= |s.lru|
        ensures Held(s, k) + length <= MAX_CACHE_SIZE <==> k >= evicted
      {
        if k > 0 { HeldEvicted(s, k); } else { HeldAll(s, 0); }
      }
    } else {
      evicted := 0;
      assert s.lru[0..] == s.lru;
      forall k | 0 <= k <= |s.lru|
        ensures Held(s, k) + length <= MAX_CACHE_SIZE
      {
        HeldAll(s, k);
      }
    }
  }

  lemma LruKnown(s: Store)
    requires Inv(s)
    ensures Known(s.history, s.lru) && Known(s.history, s.items)
  {
  }

  lemma NotEmpty(s: Store, length: nat)
    requires Inv(s) && length <= MAX_OBJECT_SIZE && Total(s.history, s.items) + length > MAX_CACHE_SIZE
    ensures s.lru != []
  {
    assert s.items[0] in s.lru;
  }

  // ---------------------------------------------------------------------------------------------
  // Whole runs
  // ---------------------------------------------------------------------------------------------

  datatype Call = AddCall(key: string, data: Bytes) | GetCall(key: string)

  /** The cache after a sequence of calls. */
  function AfterCalls(calls: seq<Call>): (s: Store)
    ensures Inv(s)
  {
    if calls == [] then EMPTY
    else
      var s := AfterCalls(calls[..|calls| - 1]);
      match calls[|calls| - 1]
      case AddCall(key, data) => AddKeeps(s, key, data); Add(s, key, data)
      case GetCall(key) => GetKeeps(s, key); Get(s, key).0
  }

  /** The value most recently added under a key and not refused for its size, by the calls alone. */
  function Current(calls: seq<Call>, key: string): Option<Bytes> {
    if calls == [] then None
    else
      var last := calls[|calls| - 1];
      if last.AddCall? && last.key == key && |last.data| <= MAX_OBJECT_SIZE then Some(last.data)
      else Current(calls[..|calls| - 1], key)
  }

  lemma {:induction false} HistoryIsCurrent(calls: seq<Call>, key: string)
    ensures var s := AfterCalls(calls);
            var latest := LastAdded(s.history, key);
            Current(calls, key) == match latest case None => None
              case Some(n) => (LastAddedIs(s.history, key); Some(s.history[n].data))
  {
    if calls != [] {
      var before, last := calls[..|calls| - 1], calls[|calls| - 1];
      var s := AfterCalls(before);
      HistoryIsCurrent(before, key);
      match last {
        case AddCall(k, data) =>
          AddKeeps(s, k, data);
          assert (s.history + [Added(k, data)])[..|s.history|] == s.history;
          LastAddedIs(s.history, key);
        case GetCall(k) =>
          GetKeeps(s, k);
      }
    }
  }

  /** A lookup answers the newest addition of its key exactly if that is still held, and misses if not. */
  lemma GetAnswers(s: Store, key: string)
    requires Inv(s)
    ensures Get(s, key).1 ==
      match LastAdded(s.history, key)
      case None => None
      case Some(n) => (LastAddedIs(s.history, key); if n in s.items then Some(s.history[n].data) else None)
  {
    LookupIsLatest(s, key);
    LastAddedIs(s.history, key);
  }

  /** The cache agrees with a simple map over whole runs: a lookup misses, or returns the current value. */
  lemma GetIsCurrent(calls: seq<Call>, key: string)
    ensures var answer := Get(AfterCalls(calls), key).1; answer == None || answer == Current(calls, key)
  {
    LookupIsLatest(AfterCalls(calls), key);
    HistoryIsCurrent(calls, key);
  }

  /** An accepted value can be read back at once. */
  lemma AddThenGet(s: Store, key: string, data: Bytes)
    requires Inv(s) && |data| <= MAX_OBJECT_SIZE
    ensures Inv(Add(s, key, data)) && Get(Add(s, key, data), key).1 == Some(data)
  {
    AddKeeps(s, key, data);
    var r := Add(s, key, data);
    assert r.items[0] == |s.history|;
  }
}
