/** The object cache of `cache.c`, called by one thread at a time: two doubly linked lists over the same
    entries, in item order and in eviction order. `ProxyThreads` treats the locking. */
module ProxyCache {
  import opened Lists
  import opened ProxyModel
  import opened ProxyRuns
  import opened Words

  class CacheNode {
    const key: string
    const size: nat
    const data: Bytes
    ghost const serial: nat
    var lru: LruNode?
    var next: CacheNode?
    var prev: CacheNode?

    constructor (key: string, data: Bytes, ghost serial: nat)
      ensures this.key == key && this.data == data && size == |data| && this.serial == serial
    {
      this.key, size, this.data, this.serial := key, |data|, data, serial;
      lru, next, prev := null, null, null;
    }
  }

  class LruNode {
    const item: CacheNode
    var prev: LruNode?
    var next: LruNode?

    constructor (item: CacheNode)
      ensures this.item == item
    {
      this.item, prev, next := item, null, null;
    }
  }

  ghost predicate NoDup<T>(ns: seq<T>) {
    forall i, j {:trigger ns[i], ns[j]} :: 0 <= i < j < |ns| ==> ns[i] != ns[j]
  }

  ghost predicate ItemAt(ns: seq<CacheNode>, i: nat)
    requires i < |ns|
    reads ns
  {
    && ns[i].next == (if i + 1 < |ns| then ns[i + 1] else null)
    && ns[i].prev == (if i > 0 then ns[i - 1] else null)
  }

  ghost predicate LruAt(ns: seq<LruNode>, i: nat)
    requires i < |ns|
    reads ns
  {
    && ns[i].next == (if i + 1 < |ns| then ns[i + 1] else null)
    && ns[i].prev == (if i > 0 then ns[i - 1] else null)
  }

  /** `ns` without position `k`. */
  ghost function Cut<T>(ns: seq<T>, k: nat): (r: seq<T>)
    requires k < |ns|
    ensures |r| == |ns| - 1
    ensures forall i :: 0 <= i < |r| ==> r[i] == ns[if i < k then i else i + 1]
  {
    ns[..k] + ns[k + 1..]
  }

  lemma CutKeeps<T>(ns: seq<T>, k: nat)
    requires NoDup(ns) && k < |ns|
    ensures NoDup(Cut(ns, k))
    ensures forall x :: x in Cut(ns, k) <==> x in ns && x != ns[k]
  {
    var r := Cut(ns, k);
    forall x | x in ns && x != ns[k]
      ensures x in r
    {
      var j :| 0 <= j < |ns| && ns[j] == x;
      assert x == if j < k then r[j] else r[j - 1];
    }
  }

  ghost function Serials(ns: seq<CacheNode>): (s: seq<nat>)
    ensures |s| == |ns|
  {
    seq(|ns|, i requires 0 <= i < |ns| => ns[i].serial)
  }

  ghost function LruSerials(ns: seq<LruNode>): (s: seq<nat>)
    ensures |s| == |ns|
  {
    seq(|ns|, i requires 0 <= i < |ns| => ns[i].item.serial)
  }

  class Cache {
    var totalSize: nat
    var head: CacheNode?
    var lruHead: LruNode?
    var lruTail: LruNode?
    ghost var history: seq<Added>
    ghost var items: seq<CacheNode>
    ghost var lrus: seq<LruNode>

    ghost predicate ItemsLinked()
      reads this, items
    {
      && NoDup(items) && head == (if items == [] then null else items[0])
      && forall i {:trigger ItemAt(items, i)} :: 0 <= i < |items| ==> ItemAt(items, i)
    }

    ghost predicate LrusLinked()
      reads this, lrus
    {
      && NoDup(lrus) && lruHead == (if lrus == [] then null else lrus[0])
      && lruTail == (if lrus == [] then null else lrus[|lrus| - 1])
      && forall i {:trigger LruAt(lrus, i)} :: 0 <= i < |lrus| ==> LruAt(lrus, i)
    }

    /** Both lists hold the same entries, each pointing to the other half. */
    ghost predicate Paired()
      reads this, items
    {
      && (forall n :: n in items ==> n.lru != null && n.lru in lrus && n.lru.item == n)
      && forall l :: l in lrus ==> l.item in items && l.item.lru == l
    }

    ghost predicate Recorded(n: CacheNode)
      reads this
    {
      n.serial < |history| && history[n.serial] == Added(n.key, n.data) && n.size == |n.data|
    }

    ghost function Model(): Store
      reads this
    {
      Store(history, Serials(items), LruSerials(lrus))
    }

    ghost predicate Valid()
      reads this, items, lrus
    {
      && ItemsLinked() && LrusLinked() && Paired()
      && (forall n :: n in items ==> Recorded(n))
      && Inv(Model()) && totalSize == Total(history, Serials(items))
    }

    /** cache_init, on the zeroed global it is called with. */
    constructor ()
      ensures Valid() && Model() == EMPTY
    {
      totalSize, head, lruHead, lruTail := 0, null, null, null;
      history, items, lrus := [], [], [];
    }

    method AppendLru(node: LruNode)
      requires LrusLinked() && node !in lrus
      modifies this`lruHead, this`lruTail, this`lrus, lrus, node
      ensures LrusLinked() && lrus == old(lrus) + [node]
    {
      hide NoDup;
      ghost var before := lrus;
      assert before != [] ==> LruAt(before, |before| - 1);
      NoDupSnoc(before, node);
      node.next := null;
      node.prev := lruTail;
      if lruTail != null {
        LastDistinct(before);
        lruTail.next := node;
      } else {
        lruHead := node;
      }
      lruTail := node;
      lrus := before + [node];
      forall i | 0 <= i < |lrus|
        ensures LruAt(lrus, i)
      {
        if i < |before| { assert before[i] in before && old(LruAt(before, i)); }
      }
    }

    method RemoveLru(node: LruNode, ghost k: nat)
      requires LrusLinked() && k < |lrus| && lrus[k] == node
      modifies this`lruHead, this`lruTail, this`lrus, lrus
      ensures LrusLinked() && lrus == Cut(old(lrus), k)
    {
      hide NoDup;
      ghost var before := lrus;
      assert LruAt(before, k);
      CutKeeps(before, k);
      NeighboursDistinct(before, k);
      var prev, next := node.prev, node.next;
      if prev != null {
        prev.next := next;
      } else {
        lruHead := next;
      }
      if next != null {
        next.prev := prev;
      } else {
        lruTail := prev;
      }
      lrus := Cut(before, k);
      forall i | 0 <= i < |lrus|
        ensures LruAt(lrus, i)
      {
        assert old(LruAt(before, if i < k then i else i + 1));
      }
    }

    method PrependItem(item: CacheNode)
      requires ItemsLinked() && item !in items
      modifies this`head, this`items, this`totalSize, items, item
      ensures ItemsLinked() && items == [item] + old(items) && totalSize == old(totalSize) + item.size
      ensures forall n :: n in items ==> n.lru == old(n.lru)
    {
      hide NoDup;
      ghost var before := items;
      assert before != [] ==> ItemAt(before, 0);
      NoDupCons(before, item);
      item.prev := null;
      item.next := head;
      if head != null {
        FirstDistinct(before);
        head.prev := item;
      }
      head := item;
      totalSize := totalSize + item.size;
      items := [item] + before;
      forall i | 0 <= i < |items|
        ensures ItemAt(items, i)
      {
        if i > 0 { assert before[i - 1] in before && old(ItemAt(before, i - 1)); }
      }
    }

    method RemoveItem(item: CacheNode, ghost k: nat)
      requires ItemsLinked() && k < |items| && items[k] == item
      modifies this`head, this`items, items
      ensures ItemsLinked() && items == Cut(old(items), k)
      ensures forall n :: n in old(items) ==> n.lru == old(n.lru)
    {
      hide NoDup;
      ghost var before := items;
      assert ItemAt(before, k);
      CutKeeps(before, k);
      NeighboursDistinct(before, k);
      var next, prev := item.next, item.prev;
      if prev != null {
        prev.next := next;
      } else {
        head := next;
      }
      if next != null {
        next.prev := prev;
      }
      items := Cut(before, k);
      forall i | 0 <= i < |items|
        ensures ItemAt(items, i)
      {
        assert old(ItemAt(before, if i < k then i else i + 1));
      }
    }

    /** One round of the eviction loop. */
    method EvictOldest()
      requires Valid() && lrus != []
      modifies this`totalSize, this`head, this`items, this`lruHead, this`lruTail, this`lrus, items, lrus
      ensures Valid() && |items| == |old(items)| - 1 && Model() == Evict(old(Model()))
      ensures forall i :: 0 <= i < |items| ==> items[i] in old(items)
      ensures forall j :: 0 <= j < |lrus| ==> lrus[j] in old(lrus)
    {
      hide NoDup, Inv, Total, Remove, Evict, Serials, LruSerials, Cut, ItemAt, LruAt;
      ghost var was, wasItems, wasLrus := Model(), items, lrus;
      assert lrus[0] in lrus;
      var toEvict := lruHead.item;
      ghost var k := IndexOf(items, toEvict);
      EvictModel(was, items, lrus, k);
      assert Recorded(toEvict);
      totalSize := totalSize - toEvict.size;
      RemoveItem(toEvict, k);
      RemoveLru(toEvict.lru, 0);
      CutKeeps(wasItems, k);
      CutKeeps(wasLrus, 0);
    }

    method CacheAdd(key: string, buf: Bytes) returns (status: int)
      requires Valid()
      modifies this, items, lrus
      ensures Valid() && Model() == Add(old(Model()), key, buf) && status == 0
      ensures forall i :: 0 <= i < |items| ==> items[i] in old(items) || fresh(items[i])
      ensures forall j :: 0 <= j < |lrus| ==> lrus[j] in old(lrus) || fresh(lrus[j])
    {
      hide NoDup, Inv, Total, Remove, Evict, Serials, LruSerials, Cut, ItemAt, LruAt, Insert;
      if |buf| > MAX_OBJECT_SIZE {
        return 0;
      }
      while totalSize + |buf| > MAX_CACHE_SIZE
        invariant Valid() && MakeRoom(Model(), |buf|) == MakeRoom(old(Model()), |buf|)
        invariant forall i :: 0 <= i < |items| ==> items[i] in old(items)
        invariant forall j :: 0 <= j < |lrus| ==> lrus[j] in old(lrus)
        decreases |items|
      {
        RoomNeeded(Model(), |buf|);
        EvictOldest();
      }
      InsertNew(key, buf);
      return 0;
    }

    /** Updating both linked lists for a new entry. */
    method LinkNew(item: CacheNode, lru: LruNode)
      requires ItemsLinked() && LrusLinked() && Paired()
      requires item !in items && lru !in lrus && item.lru == lru && lru.item == item
      modifies this`totalSize, this`head, this`items, this`lruHead, this`lruTail, this`lrus, items, lrus, item, lru
      ensures ItemsLinked() && LrusLinked() && Paired()
      ensures items == [item] + old(items) && lrus == old(lrus) + [lru]
      ensures totalSize == old(totalSize) + item.size
    {
      hide NoDup, ItemAt, LruAt;
      ghost var wasItems, wasLrus := items, lrus;
      PrependItem(item);
      AppendLru(lru);
      assert forall n :: n in items <==> n == item || n in wasItems;
      assert forall l :: l in lrus <==> l == lru || l in wasLrus;
    }

    /** Link a new entry in and record the addition. */
    method Adopt(item: CacheNode, lru: LruNode)
      requires Valid() && item !in items && lru !in lrus && item.lru == lru && lru.item == item
      requires item.serial == |history| && item.size == |item.data| && totalSize + item.size <= MAX_CACHE_SIZE
      modifies this, items, lrus, item, lru
      ensures Valid() && Model() == Insert(old(Model()), item.key, item.data)
      ensures items == [item] + old(items) && lrus == old(lrus) + [lru]
    {
      hide NoDup, Inv, Total, Insert, Serials, LruSerials, ItemAt, LruAt;
      ghost var wasItems := items;
      InsertModel(Model(), items, lrus, item, lru);
      LinkNew(item, lru);
      history := history + [Added(item.key, item.data)];
      assert forall n :: n in items <==> n == item || n in wasItems;
    }

    method InsertNew(key: string, buf: Bytes)
      requires Valid() && totalSize + |buf| <= MAX_CACHE_SIZE
      modifies this, items, lrus
      ensures Valid() && Model() == Insert(old(Model()), key, buf)
      ensures forall i :: 0 <= i < |items| ==> items[i] in old(items) || fresh(items[i])
      ensures forall j :: 0 <= j < |lrus| ==> lrus[j] in old(lrus) || fresh(lrus[j])
    {
      hide Valid, Insert, Serials, LruSerials;
      var newItem := new CacheNode(key, buf, |history|);
      var newLru := new LruNode(newItem);
      newItem.lru := newLru;
      Adopt(newItem, newLru);
    }

    /** The relinking done on a hit, under the readers lock. */
    method MoveToEnd(current: CacheNode, ghost k: nat)
      requires Valid() && k < |items| && items[k] == current
      requires forall i :: i in Model().items && history[i].key == current.key ==> i <= current.serial
      modifies this`lruHead, this`lruTail, this`lrus, lrus
      ensures Valid() && Model() == Touch(old(Model()), current.serial)
      ensures forall j :: 0 <= j < |lrus| ==> lrus[j] in old(lrus)
    {
      hide NoDup, Inv, Total, Remove, Touch, Serials, LruSerials, Cut, ItemAt, LruAt;
      ghost var was, wasLrus := Model(), lrus;
      assert current in items && Recorded(current);
      var node := current.lru;
      ghost var j := IndexOf(lrus, node);
      TouchModel(was, items, lrus, k, j);
      CutKeeps(lrus, j);
      RemoveLru(node, j);
      assert node !in lrus;
      ghost var cut := lrus;
      AppendLru(node);
      assert forall l :: l in lrus <==> l in cut || l == node;
    }

    /** Look a key up; a hit becomes the most recently used entry. */
    method CacheGet(key: string) returns (item: Option<Bytes>)
      requires Valid()
      modifies this`lruHead, this`lruTail, this`lrus, lrus
      ensures Valid() && (Model(), item) == Get(old(Model()), key)
      ensures forall j :: 0 <= j < |lrus| ==> lrus[j] in old(lrus)
    {
      hide NoDup, Inv, Total, Remove, Touch, LruSerials, Cut, LruAt;
      ghost var was := Model();
      ghost var i := 0;
      var current := head;
      assert was.items[0..] == was.items;
      LookupFacts(was, key);
      while current != null
        invariant 0 <= i <= |items| && current == if i < |items| then items[i] else null
        invariant Known(was.history, was.items) && Known(was.history, was.items[i..])
        invariant Lookup(was.history, was.items[i..], key) == Lookup(was.history, was.items, key)
        decreases |items| - i
      {
        assert items[i] in items && Recorded(current) && ItemAt(items, i);
        assert was.items[i..][0] == current.serial && was.items[i..][1..] == was.items[i + 1..];
        if current.key == key {
          MoveToEnd(current, i);
          return Some(current.data);
        }
        current := current.next;
        i := i + 1;
      }
      return None;
    }
  }

  /** `answer` is the model's answer to the lookup `calls[i]` after the calls before it. */
  ghost predicate Answers(calls: seq<Call>, i: nat, answer: Option<Bytes>)
    requires i < |calls| && calls[i].GetCall?
  {
    answer == Get(AfterCalls(calls[..i]), calls[i].key).1
  }

  /** Any sequence of calls: every lookup answers as the model does, which is the value most recently added
      and not refused if it was kept, and a miss if it was not. */
  method Serve(calls: seq<Call>) returns (answers: seq<Option<Bytes>>)
    ensures |answers| == |calls|
    ensures forall i :: 0 <= i < |calls| && calls[i].GetCall? ==> Answers(calls, i, answers[i])
    ensures forall i :: 0 <= i < |calls| && calls[i].GetCall? ==>
      answers[i] == if Kept(calls[..i], calls[i].key) then Current(calls[..i], calls[i].key) else None
  {
    hide Current, NoDup, Inv, Total, Add, Get, Cache.Valid, Kept;
    var cache := new Cache();
    answers := [];
    while |answers| < |calls|
      invariant |answers| <= |calls| && fresh(cache) && fresh(cache.items) && fresh(cache.lrus)
      invariant cache.Valid() && cache.Model() == AfterCalls(calls[..|answers|])
      invariant forall i :: 0 <= i < |answers| && calls[i].GetCall? ==> Answers(calls, i, answers[i])
    {
      var i := |answers|;
      assert calls[..i + 1][..i] == calls[..i];
      match calls[i] {
        case AddCall(key, data) =>
          var status := cache.CacheAdd(key, data);
          answers := answers + [None];
        case GetCall(key) =>
          var item := cache.CacheGet(key);
          answers := answers + [item];
      }
    }
    forall i | 0 <= i < |calls| && calls[i].GetCall?
      ensures answers[i] == if Kept(calls[..i], calls[i].key) then Current(calls[..i], calls[i].key) else None
    {
      assert Answers(calls, i, answers[i]);
      AnswersIff(calls[..i], calls[i].key);
    }
  }

  lemma IndexOf<T>(ns: seq<T>, x: T) returns (k: nat)
    requires x in ns
    ensures k < |ns| && ns[k] == x
  {
    k :| 0 <= k < |ns| && ns[k] == x;
  }

  lemma SerialsCut(items: seq<CacheNode>, k: nat)
    requires k < |items| && Distinct(Serials(items))
    ensures Serials(Cut(items, k)) == Remove(Serials(items), items[k].serial)
  {
    RemoveAt(Serials(items), k);
  }

  lemma LruSerialsCut(lrus: seq<LruNode>, k: nat)
    requires k < |lrus| && Distinct(LruSerials(lrus))
    ensures LruSerials(Cut(lrus, k)) == Remove(LruSerials(lrus), lrus[k].item.serial)
  {
    RemoveAt(LruSerials(lrus), k);
  }

  lemma EvictModel(s: Store, items: seq<CacheNode>, lrus: seq<LruNode>, k: nat)
    requires Inv(s) && s.items == Serials(items) && s.lru == LruSerials(lrus)
    requires lrus != [] && k < |items| && items[k] == lrus[0].item
    ensures Inv(Evict(s)) && Evict(s) == Store(s.history, Serials(Cut(items, k)), LruSerials(Cut(lrus, 0)))
    ensures items[k].serial < |s.history|
    ensures Total(s.history, Evict(s).items) == Total(s.history, s.items) - |s.history[items[k].serial].data|
  {
    EvictKeeps(s);
    SerialsCut(items, k);
    LruSerialsCut(lrus, 0);
  }

  /** When there is too little room, the lists are not empty. */
  lemma RoomNeeded(s: Store, length: nat)
    requires Inv(s) && length <= MAX_OBJECT_SIZE && Total(s.history, s.items) + length > MAX_CACHE_SIZE
    ensures s.items != [] && s.lru != [] && Inv(Evict(s)) && MakeRoom(s, length) == MakeRoom(Evict(s), length)
  {
    assert s.items[0] in s.lru;
    EvictKeeps(s);
  }

  lemma SerialsAround(items: seq<CacheNode>, lrus: seq<LruNode>, item: CacheNode, lru: LruNode)
    ensures Serials([item] + items) == [item.serial] + Serials(items)
    ensures LruSerials(lrus + [lru]) == LruSerials(lrus) + [lru.item.serial]
  {
  }

  lemma InsertModel(s: Store, items: seq<CacheNode>, lrus: seq<LruNode>, item: CacheNode, lru: LruNode)
    requires Inv(s) && s.items == Serials(items) && s.lru == LruSerials(lrus)
    requires lru.item == item && item.serial == |s.history| && Total(s.history, s.items) + |item.data| <= MAX_CACHE_SIZE
    ensures var r := Insert(s, item.key, item.data);
            && r == Store(s.history + [Added(item.key, item.data)], Serials([item] + items), LruSerials(lrus + [lru]))
            && Inv(r) && Total(r.history, r.items) == Total(s.history, s.items) + |item.data|
  {
    InsertKeeps(s, item.key, item.data);
    SerialsAround(items, lrus, item, lru);
  }

  lemma TouchModel(s: Store, items: seq<CacheNode>, lrus: seq<LruNode>, k: nat, j: nat)
    requires Inv(s) && s.items == Serials(items) && s.lru == LruSerials(lrus)
    requires k < |items| && j < |lrus| && lrus[j].item == items[k] && items[k].serial < |s.history|
    requires forall i :: i in s.items && s.history[i].key == s.history[items[k].serial].key ==> i <= items[k].serial
    ensures Inv(Touch(s, items[k].serial))
    ensures Touch(s, items[k].serial) == s.(lru := LruSerials(Cut(lrus, j) + [lrus[j]]))
  {
    assert s.items[k] in s.items;
    LruSerialsCut(lrus, j);
    SerialsAround(items, Cut(lrus, j), items[k], lrus[j]);
    TouchKeeps(s, items[k].serial);
  }

  lemma LookupFacts(s: Store, key: string)
    requires Inv(s)
    ensures Known(s.history, s.items)
    ensures match Lookup(s.history, s.items, key)
            case None => true
            case Some(n) => n in s.items && forall i :: i in s.items && s.history[i].key == key ==> i <= n
  {
    LookupIs(s.history, s.items, key);
  }

  lemma NoDupSnoc<T>(s: seq<T>, x: T)
    requires NoDup(s) && x !in s
    ensures NoDup(s + [x])
  {
  }

  lemma NoDupCons<T>(s: seq<T>, x: T)
    requires NoDup(s) && x !in s
    ensures NoDup([x] + s)
  {
  }

  lemma LastDistinct<T>(s: seq<T>)
    requires NoDup(s) && s != []
    ensures forall j {:trigger s[j]} :: 0 <= j < |s| - 1 ==> s[j] != s[|s| - 1]
  {
  }

  lemma FirstDistinct<T>(s: seq<T>)
    requires NoDup(s) && s != []
    ensures forall j {:trigger s[j]} :: 0 < j < |s| ==> s[j] != s[0]
  {
  }

  lemma NeighboursDistinct<T>(s: seq<T>, k: nat)
    requires NoDup(s) && k < |s|
    ensures forall j {:trigger s[j]} :: 0 <= j < |s| ==>
      && (j != k ==> s[j] != s[k])
      && (k > 0 && j != k - 1 ==> s[j] != s[k - 1])
      && (k + 1 < |s| && j != k + 1 ==> s[j] != s[k + 1])
  {
  }
}
