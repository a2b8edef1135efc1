/** Which entries the proxy's cache still holds after any sequence of calls. */
module ProxyRuns {
  import opened Lists
  import opened ProxyModel

  /** The entry that call `i` adds or finds. */
  function UsedBy(calls: seq<Call>, i: nat): Option<nat>
    requires i < |calls|
  {
    var s := AfterCalls(calls[..i]);
    match calls[i]
    case AddCall(_, data) => if |data| <= MAX_OBJECT_SIZE then Some(|s.history|) else None
    case GetCall(key) => Lookup(s.history, s.items, key)
  }

  /** The last call that used entry `n`, or -1. */
  function LastUse(calls: seq<Call>, n: nat): int {
    if calls == [] then -1
    else if UsedBy(calls, |calls| - 1) == Some(n) then |calls| - 1
    else LastUse(calls[..|calls| - 1], n)
  }

  lemma {:induction false} LastUseBound(calls: seq<Call>, n: nat)
    ensures -1 <= LastUse(calls, n) < |calls|
  {
    hide UsedBy;
    if calls != [] { LastUseBound(calls[..|calls| - 1], n); }
  }

  /** The eviction order `lru` is the order of last use. */
  ghost predicate ByUse(calls: seq<Call>, lru: seq<nat>) {
    && (forall a {:trigger lru[a]} :: 0 <= a < |lru| ==> LastUse(calls, lru[a]) >= 0)
    && forall a, b {:trigger lru[a], lru[b]} :: 0 <= a < b < |lru| ==> LastUse(calls, lru[a]) < LastUse(calls, lru[b])
  }

  /** One more call, which uses the entry it puts last, if any. */
  lemma ByUseSnoc(before: seq<Call>, last: Call, lru: seq<nat>, lru': seq<nat>)
    requires ByUse(before, lru')
    requires var u := UsedBy(before + [last], |before|);
             match u
             case None => lru == lru'
             case Some(n) => lru == lru' + [n] && n !in lru'
    ensures ByUse(before + [last], lru)
  {
    hide UsedBy;
    var calls := before + [last];
    assert calls[..|calls| - 1] == before;
    forall x | x in lru'
      ensures LastUse(calls, x) == LastUse(before, x) < |before|
    {
      LastUseBound(before, x);
    }
  }

  lemma ByUsePart(calls: seq<Call>, lru: seq<nat>, part: seq<nat>, skip: int)
    requires ByUse(calls, lru) && 0 <= skip <= |lru| && part == lru[skip..]
    ensures ByUse(calls, part)
  {
    hide LastUse;
    assert forall a :: 0 <= a < |part| ==> part[a] == lru[a + skip];
  }

  lemma ByUseWithout(calls: seq<Call>, lru: seq<nat>, k: nat)
    requires ByUse(calls, lru) && k < |lru|
    ensures ByUse(calls, lru[..k] + lru[k + 1..])
  {
    hide LastUse;
    var part := lru[..k] + lru[k + 1..];
    assert forall a :: 0 <= a < |part| ==> part[a] == lru[if a < k then a else a + 1];
  }

  /** The eviction list is always in order of last use. */
  lemma {:induction false} LruByUse(calls: seq<Call>)
    ensures ByUse(calls, AfterCalls(calls).lru)
  {
    hide Inv, ByUse, Lookup, MakeRoom, Remove;
    if calls == [] {
      NoneUsed();
    } else {
      var before, last := calls[..|calls| - 1], calls[|calls| - 1];
      LruByUse(before);
      assert calls == before + [last];
      assert calls[..|before|] == before;
      var s := AfterCalls(before);
      LruKnown(s);
      match last {
        case AddCall(key, data) => AddByUse(before, last);
        case GetCall(key) => GetByUse(before, last);
      }
    }
  }

  lemma NoneUsed()
    ensures ByUse([], [])
  {
  }

  lemma AddByUse(before: seq<Call>, last: Call)
    requires ByUse(before, AfterCalls(before).lru) && last.AddCall?
    ensures ByUse(before + [last], Add(AfterCalls(before), last.key, last.data).lru)
  {
    hide Inv, ByUse, Lookup, MakeRoom;
    var s := AfterCalls(before);
    var calls := before + [last];
    assert calls[..|before|] == before;
    LruKnown(s);
    var kept := s.lru;
    if |last.data| <= MAX_OBJECT_SIZE {
      var evicted := MakeRoomKeepsMost(s, |last.data|);
      kept := s.lru[evicted..];
      ByUsePart(before, s.lru, kept, evicted);
      assert forall x :: x in kept ==> x < |s.history|;
    }
    ByUseSnoc(before, last, Add(s, last.key, last.data).lru, kept);
  }

  lemma GetByUse(before: seq<Call>, last: Call)
    requires ByUse(before, AfterCalls(before).lru) && last.GetCall?
    ensures ByUse(before + [last], Get(AfterCalls(before), last.key).0.lru)
  {
    hide Inv, ByUse, Lookup, Remove;
    var s := AfterCalls(before);
    var calls := before + [last];
    assert calls[..|before|] == before;
    LruKnown(s);
    match Lookup(s.history, s.items, last.key) {
      case None =>
        ByUseSnoc(before, last, s.lru, s.lru);
      case Some(n) =>
        var k := PlaceOf(s, last.key);
        ByUseWithout(before, s.lru, k);
        RemoveKeeps(s.lru, n);
        ByUseSnoc(before, last, Touch(s, n).lru, Remove(s.lru, n));
    }
  }

  lemma PlaceOf(s: Store, key: string) returns (k: nat)
    requires Inv(s) && Lookup(s.history, s.items, key).Some?
    ensures Distinct(s.lru) && k < |s.lru| && s.lru[k] == Lookup(s.history, s.items, key).value
    ensures Remove(s.lru, s.lru[k]) == s.lru[..k] + s.lru[k + 1..]
  {
    LookupIs(s.history, s.items, key);
    k :| 0 <= k < |s.lru| && s.lru[k] == Lookup(s.history, s.items, key).value;
    RemoveAt(s.lru, k);
  }

  // ---------------------------------------------------------------------------------------------
  // What is still held
  // ---------------------------------------------------------------------------------------------

  /** Those of `ids` whose last use is no earlier than call `since`. */
  function UsedSince(calls: seq<Call>, ids: seq<nat>, since: int): seq<nat> {
    if ids == [] then []
    else (if LastUse(calls, ids[0]) >= since then [ids[0]] else []) + UsedSince(calls, ids[1..], since)
  }

  lemma {:induction false} UsedSinceIs(calls: seq<Call>, ids: seq<nat>, since: int, n: nat)
    ensures n in UsedSince(calls, ids, since) <==> n in ids && LastUse(calls, n) >= since
  {
    hide LastUse;
    if ids != [] { UsedSinceIs(calls, ids[1..], since, n); }
  }

  lemma {:induction false} UsedSinceDescends(calls: seq<Call>, ids: seq<nat>, since: int)
    requires Descending(ids)
    ensures Descending(UsedSince(calls, ids, since))
  {
    hide LastUse;
    if ids != [] {
      UsedSinceDescends(calls, ids[1..], since);
      var rest := UsedSince(calls, ids[1..], since);
      forall x | x in rest
        ensures x < ids[0]
      {
        UsedSinceIs(calls, ids[1..], since, x);
      }
      var r := UsedSince(calls, ids, since);
      assert forall j :: 0 <= j < |rest| ==> rest[j] in rest;
      assert r == [ids[0]] + rest || r == rest;
    }
  }

  /** The bytes of entry `n` and of every held entry used since. */
  ghost function BytesSince(calls: seq<Call>, n: nat): nat {
    var s := AfterCalls(calls);
    var ids := UsedSince(calls, s.items, LastUse(calls, n));
    UsedSinceKnown(calls, n);
    Total(s.history, ids)
  }

  lemma UsedSinceKnown(calls: seq<Call>, n: nat)
    ensures var s := AfterCalls(calls);
            Known(s.history, UsedSince(calls, s.items, LastUse(calls, n)))
  {
    hide LastUse, UsedSince, AfterCalls;
    var s := AfterCalls(calls);
    LruKnown(s);
    var ids := UsedSince(calls, s.items, LastUse(calls, n));
    forall a | 0 <= a < |ids|
      ensures ids[a] < |s.history|
    {
      UsedSinceIs(calls, s.items, LastUse(calls, n), ids[a]);
    }
  }

  /** Behind a held entry in the eviction list stand exactly the entries used since. */
  lemma BytesBehind(calls: seq<Call>, k: nat)
    requires k < |AfterCalls(calls).lru|
    ensures var s := AfterCalls(calls);
            Known(s.history, s.lru) && Held(s, k) == BytesSince(calls, s.lru[k])
  {
    hide LastUse, UsedSince, AfterCalls, Total, NewerStay, OlderFirst;
    var s := AfterCalls(calls);
    var n, behind := s.lru[k], s.lru[k..];
    var ids := UsedSince(calls, s.items, LastUse(calls, n));
    LruByUse(calls);
    UsedSinceKnown(calls, n);
    UsedSinceDescends(calls, s.items, LastUse(calls, n));
    assert Distinct(behind) by { assert forall a :: 0 <= a < |behind| ==> behind[a] == s.lru[a + k]; }
    forall x
      ensures x in ids <==> x in behind
    {
      UsedSinceIs(calls, s.items, LastUse(calls, n), x);
      BehindIs(calls, s.lru, k, x);
    }
    TotalSame(s.history, ids, behind);
  }

  lemma BehindIs(calls: seq<Call>, lru: seq<nat>, k: nat, x: nat)
    requires ByUse(calls, lru) && k < |lru|
    ensures x in lru[k..] <==> x in lru && LastUse(calls, x) >= LastUse(calls, lru[k])
  {
    hide LastUse;
    if x in lru {
      var a :| 0 <= a < |lru| && lru[a] == x;
      assert a >= k ==> lru[k..][a - k] == x;
    }
    if x in lru[k..] {
      var a :| 0 <= a < |lru[k..]| && lru[k..][a] == x;
      assert lru[k + a] == x;
    }
  }

  predicate Accepted(c: Call) { c.AddCall? && |c.data| <= MAX_OBJECT_SIZE }

  /** If call `j` is an addition, its object fits beside entry `n` and everything used since. */
  ghost predicate LeavesRoom(calls: seq<Call>, j: nat, n: nat)
    requires j < |calls|
  {
    Accepted(calls[j]) && n < |AfterCalls(calls[..j]).history| ==>
      BytesSince(calls[..j], n) + |calls[j].data| <= MAX_CACHE_SIZE
  }

  /** Over every sequence of calls: an accepted value is still held exactly when every later accepted object
      fitted beside it and everything that had been used since its own last use. */
  lemma {:induction false} HeldIff(calls: seq<Call>, n: nat)
    ensures n in AfterCalls(calls).items <==>
            && n < |AfterCalls(calls).history|
            && forall j {:trigger LeavesRoom(calls, j, n)} :: 0 <= j < |calls| ==> LeavesRoom(calls, j, n)
  {
    hide AfterCalls, Inv, Add, Get, LeavesRoom;
    LruKnown(AfterCalls(calls));
    if calls == [] {
      NothingYet();
    } else {
      var before := calls[..|calls| - 1];
      HeldIff(before, n);
      LruKnown(AfterCalls(before));
      forall j | 0 <= j < |before|
        ensures LeavesRoom(calls, j, n) <==> LeavesRoom(before, j, n)
      {
        SameRoom(calls, before, j, n);
      }
      HeldStep(calls, n);
      forall j | 0 <= j < |before| && n >= |AfterCalls(before).history|
        ensures LeavesRoom(calls, j, n)
      {
        NotYetAdded(calls, before, j, n);
      }
    }
  }

  lemma {:induction false} HistoryGrows(calls: seq<Call>, j: nat)
    requires j <= |calls|
    ensures |AfterCalls(calls[..j]).history| <= |AfterCalls(calls).history|
  {
    if j == |calls| {
      assert calls[..j] == calls;
    } else {
      var before, last := calls[..|calls| - 1], calls[|calls| - 1];
      HistoryGrows(before, j);
      assert before[..j] == calls[..j];
      if last.AddCall? { AddKeeps(AfterCalls(before), last.key, last.data); }
    }
  }

  lemma NotYetAdded(calls: seq<Call>, before: seq<Call>, j: nat, n: nat)
    requires j < |before| < |calls| && before == calls[..|before|] && n >= |AfterCalls(before).history|
    ensures LeavesRoom(calls, j, n)
  {
    hide AfterCalls;
    HistoryGrows(before, j);
    assert before[..j] == calls[..j];
  }

  lemma NothingYet()
    ensures AfterCalls([]) == EMPTY
  {
  }

  lemma SameRoom(calls: seq<Call>, before: seq<Call>, j: nat, n: nat)
    requires j < |before| < |calls| && before == calls[..|before|]
    ensures LeavesRoom(calls, j, n) <==> LeavesRoom(before, j, n)
  {
    hide AfterCalls;
    assert before[..j] == calls[..j];
  }

  lemma HeldStep(calls: seq<Call>, n: nat)
    requires calls != []
    ensures var s, s' := AfterCalls(calls[..|calls| - 1]), AfterCalls(calls);
            && (n < |s.history| ==> n < |s'.history|)
            && (n in s'.items <==> if n < |s.history| then n in s.items && LeavesRoom(calls, |calls| - 1, n)
                                   else n < |s'.history|)
    ensures n >= |AfterCalls(calls[..|calls| - 1]).history| ==> LeavesRoom(calls, |calls| - 1, n)
  {
    hide Inv, LastUse, BytesSince, Lookup, MakeRoom;
    var s, last := AfterCalls(calls[..|calls| - 1]), calls[|calls| - 1];
    LruKnown(s);
    LruKnown(AfterCalls(calls));
    match last {
      case GetCall(key) =>
      case AddCall(key, data) =>
        AddKeeps(s, key, data);
        if |data| <= MAX_OBJECT_SIZE { AddHolds(calls[..|calls| - 1], key, data, n); }
    }
  }

  lemma AddHolds(before: seq<Call>, key: string, data: Bytes, n: nat)
    requires |data| <= MAX_OBJECT_SIZE
    ensures var s := AfterCalls(before);
            && (n < |s.history| ==> (n in Add(s, key, data).items <==>
                                     n in s.items && BytesSince(before, n) + |data| <= MAX_CACHE_SIZE))
            && (n == |s.history| ==> n in Add(s, key, data).items)
  {
    hide AfterCalls, BytesSince, MakeRoom, Held, Total;
    var s := AfterCalls(before);
    var evicted := MakeRoomKeepsMost(s, |data|);
    var r := MakeRoom(s, |data|);
    if n in s.items {
      var k :| 0 <= k < |s.lru| && s.lru[k] == n;
      BytesBehind(before, k);
      InPart(s.lru, evicted, k);
    }
    if n in r.items {
      assert n in r.lru;
      assert n in s.lru by { var a :| 0 <= a < |r.lru| && r.lru[a] == n; assert s.lru[evicted + a] == n; }
    }
  }

  lemma InPart(s: seq<nat>, from: nat, k: nat)
    requires Distinct(s) && k < |s| && from <= |s|
    ensures s[k] in s[from..] <==> k >= from
  {
    if k >= from { assert s[from..][k - from] == s[k]; }
    if s[k] in s[from..] {
      var a :| 0 <= a < |s[from..]| && s[from..][a] == s[k];
      assert s[from + a] == s[k];
    }
  }

  /** The newest accepted value of the key has had room beside it at every addition since. */
  ghost predicate Kept(calls: seq<Call>, key: string) {
    var latest := LastAdded(AfterCalls(calls).history, key);
    latest.Some? && forall j {:trigger LeavesRoom(calls, j, latest.value)} :: 0 <= j < |calls| ==>
      LeavesRoom(calls, j, latest.value)
  }

  /** Over every sequence of calls a lookup answers the newest accepted value exactly if that was kept, and
      misses exactly if it was not. */
  lemma AnswersIff(calls: seq<Call>, key: string)
    ensures Get(AfterCalls(calls), key).1 == if Kept(calls, key) then Current(calls, key) else None
    ensures Kept(calls, key) ==> Current(calls, key).Some?
  {
    hide Inv, LeavesRoom, Get, Current, AfterCalls;
    var s := AfterCalls(calls);
    GetAnswers(s, key);
    HistoryIsCurrent(calls, key);
    LastAddedIs(s.history, key);
    if LastAdded(s.history, key).Some? { HeldIff(calls, LastAdded(s.history, key).value); }
  }
}
