/** Least-recently-used replacement for one cache set, as a function of the sequence of tags accessed. */
module Lru {

  import opened Lists

  /** Least recently used first. */
  type Lines = seq<int>

  /** One access to a set with `e` lines. */
  function Access(lines: Lines, tag: int, e: nat): Lines {
    if tag in lines then Remove(lines, tag) + [tag]
    else (if |lines| == e && e > 0 then lines[1..] else lines) + [tag]
  }

  /** What a set with `e` lines holds after the accesses of `trace`. */
  function After(trace: seq<int>, e: nat): Lines {
    if trace == [] then [] else Access(After(trace[..|trace| - 1], e), trace[|trace| - 1], e)
  }

  function Hits(trace: seq<int>, e: nat): nat {
    if trace == [] then 0
    else
      var before := trace[..|trace| - 1];
      Hits(before, e) + (if trace[|trace| - 1] in After(before, e) then 1 else 0)
  }

  function Misses(trace: seq<int>, e: nat): nat {
    if trace == [] then 0
    else
      var before := trace[..|trace| - 1];
      Misses(before, e) + (if trace[|trace| - 1] in After(before, e) then 0 else 1)
  }

  function Evictions(trace: seq<int>, e: nat): nat {
    if trace == [] then 0
    else
      var before := trace[..|trace| - 1];
      var lines := After(before, e);
      Evictions(before, e) + (if trace[|trace| - 1] !in lines && |lines| == e then 1 else 0)
  }

  // ---------------------------------------------------------------------------------------------
  // The abstract definition: distinct tags by time of last access
  // ---------------------------------------------------------------------------------------------

  /** The distinct tags of a trace, ordered by their last access. */
  function Recency(trace: seq<int>): Lines {
    if trace == [] then []
    else Remove(Recency(trace[..|trace| - 1]), trace[|trace| - 1]) + [trace[|trace| - 1]]
  }

  /** The last `n` elements, or all of them. */
  function Last(s: Lines, n: nat): Lines { if |s| <= n then s else s[|s| - n..] }

  lemma {:induction false} RecencyDistinct(trace: seq<int>)
    ensures Distinct(Recency(trace))
    ensures forall x :: x in Recency(trace) <==> x in trace
  {
    if trace != [] {
      var before, tag := trace[..|trace| - 1], trace[|trace| - 1];
      RecencyDistinct(before);
      RemoveKeeps(Recency(before), tag);
      assert trace == before + [tag];
    }
  }

  /** A tag among the last `n` of `s`: where it is. */
  lemma LastIndex(s: Lines, n: nat, k: nat)
    requires Distinct(s) && k < |s|
    ensures s[k] in Last(s, n) <==> k >= |s| - n
  {
    var l := Last(s, n);
    if k >= |s| - n {
      assert l[if |s| <= n then k else k - (|s| - n)] == s[k];
    }
  }

  /** One access keeps "the last `e` of the recency order". */
  lemma AccessLast(s: Lines, tag: int, e: nat)
    requires Distinct(s) && e >= 1
    ensures Access(Last(s, e), tag, e) == Last(Remove(s, tag) + [tag], e)
  {
    hide Access, Last, Remove, Distinct;
    if tag in s {
      var k :| 0 <= k < |s| && s[k] == tag;
      if k >= |s| - e { AccessHeld(s, k, e); } else { AccessLost(s, k, e); }
    } else {
      AccessNew(s, tag, e);
    }
  }

  lemma AccessHeld(s: Lines, k: nat, e: nat)
    requires Distinct(s) && e >= 1 && k < |s| && k >= |s| - e
    ensures Access(Last(s, e), s[k], e) == Last(Remove(s, s[k]) + [s[k]], e)
  {
    hide Remove, Distinct;
    RemoveAt(s, k);
    LastIndex(s, e, k);
    LastDistinct(s, e);
    var d := if |s| <= e then 0 else |s| - e;
    var l := s[d..];
    assert Last(s, e) == l && l[k - d] == s[k];
    RemoveAt(l, k - d);
    CutShifted(s, d, k);
  }

  lemma CutShifted(s: Lines, d: nat, k: nat)
    requires d <= k < |s|
    ensures s[d..][..k - d] + s[d..][k - d + 1..] + [s[k]] == (s[..k] + s[k + 1..] + [s[k]])[d..]
  {
  }

  lemma AccessLost(s: Lines, k: nat, e: nat)
    requires Distinct(s) && e >= 1 && k < |s| - e
    ensures Access(Last(s, e), s[k], e) == Last(Remove(s, s[k]) + [s[k]], e)
  {
    hide Remove, Distinct;
    RemoveAt(s, k);
    LastIndex(s, e, k);
    LastCut(s, k, e);
  }

  /** Cutting out an element that was too far back to be seen, and putting it last. */
  lemma LastCut(s: Lines, k: nat, e: nat)
    requires e >= 1 && k < |s| - e
    ensures Last(s, e)[1..] + [s[k]] == Last(s[..k] + s[k + 1..] + [s[k]], e)
  {
    var d := |s| - e;
    var t := s[..k] + s[k + 1..] + [s[k]];
    var u := s[k + 1..];
    assert t == s[..k] + (u + [s[k]]);
    assert t[d..] == (u + [s[k]])[d - k..] == u[d - k..] + [s[k]];
    assert u[d - k..] == s[d + 1..];
    assert s[d..][1..] == s[d + 1..];
  }

  lemma AccessNew(s: Lines, tag: int, e: nat)
    requires Distinct(s) && e >= 1 && tag !in s
    ensures Access(Last(s, e), tag, e) == Last(Remove(s, tag) + [tag], e)
  {
    hide Remove;
    RemoveAbsent(s, tag);
    var l := Last(s, e);
    assert forall j :: 0 <= j < |l| ==> l[j] in s;
    assert (if |l| == e then l[1..] else l) + [tag] == Last(s + [tag], e);
  }

  lemma LastDistinct(s: Lines, n: nat)
    requires Distinct(s)
    ensures Distinct(Last(s, n))
  {
  }

  /** A set with `e` lines always holds the `e` most recently used distinct tags, in recency order. */
  lemma {:induction false} HoldsMostRecent(trace: seq<int>, e: nat)
    requires e >= 1
    ensures After(trace, e) == Last(Recency(trace), e)
  {
    if trace != [] {
      var before := trace[..|trace| - 1];
      HoldsMostRecent(before, e);
      RecencyDistinct(before);
      AccessLast(Recency(before), trace[|trace| - 1], e);
    }
  }

  // ---------------------------------------------------------------------------------------------
  // Exactness, inclusion, accounting
  // ---------------------------------------------------------------------------------------------

  /** The distinct tags accessed after position `i`. */
  function Since(trace: seq<int>, i: nat): set<int>
    requires i < |trace|
  {
    set j | i < j < |trace| :: trace[j]
  }

  /** Position `i` is the last access to `tag`. */
  predicate LastAccess(trace: seq<int>, i: nat, tag: int) {
    i < |trace| && trace[i] == tag && forall j :: i < j < |trace| ==> trace[j] != tag
  }

  function Behind(s: Lines, k: nat): Lines
    requires k < |s|
  {
    s[k + 1..]
  }

  /** Behind a tag in the recency order stand exactly the tags accessed since. */
  lemma {:induction false} RecencyBehind(trace: seq<int>, i: nat, tag: int) returns (k: nat)
    requires LastAccess(trace, i, tag)
    ensures k < |Recency(trace)| && Recency(trace)[k] == tag
    ensures forall x :: x in Behind(Recency(trace), k) <==> x in Since(trace, i)
  {
    var n := |trace| - 1;
    var before := trace[..n];
    var s := Recency(before);
    RecencyDistinct(before);
    if i == n {
      RemoveKeeps(s, tag);
      k := |Remove(s, tag)|;
    } else {
      var k0 := RecencyBehind(before, i, tag);
      k := BehindStep(s, k0, trace[n]);
      forall x
        ensures x in Behind(Recency(trace), k) <==> x in Since(trace, i)
      {
        SinceSnoc(trace, i, x);
      }
    }
  }

  lemma SinceSnoc(trace: seq<int>, i: nat, x: int)
    requires i + 1 < |trace|
    ensures x in Since(trace, i) <==> x in Since(trace[..|trace| - 1], i) || x == trace[|trace| - 1]
  {
    var n := |trace| - 1;
    var before := trace[..n];
    if x in Since(before, i) {
      var j :| i < j < n && before[j] == x;
      assert trace[j] == x;
    }
    if x in Since(trace, i) && x != trace[n] {
      var j :| i < j < |trace| && trace[j] == x;
      assert before[j] == x;
    }
    assert trace[n] in Since(trace, i);
  }

  /** The element at place `k` of `s` is at place `k'` of `s'`, where also `tag` is behind it. */
  ghost predicate OneMoreBehind(s: Lines, k: nat, s': Lines, k': nat, tag: int) {
    && k < |s| && k' < |s'| && s'[k'] == s[k]
    && forall x :: x in Behind(s', k') <==> x in Behind(s, k) || x == tag
  }

  /** Accessing another tag moves it behind. */
  lemma BehindStep(s: Lines, k: nat, tag: int) returns (k': nat)
    requires Distinct(s) && k < |s| && s[k] != tag
    ensures OneMoreBehind(s, k, Remove(s, tag) + [tag], k', tag)
  {
    hide Remove, Distinct, OneMoreBehind;
    if tag in s {
      var p :| 0 <= p < |s| && s[p] == tag;
      RemoveAt(s, p);
      k' := if p < k then k - 1 else k;
      BehindMoved(s, k, p);
    } else {
      RemoveAbsent(s, tag);
      k' := k;
      BehindNew(s, k, tag);
    }
  }

  lemma BehindNew(s: Lines, k: nat, tag: int)
    requires k < |s|
    ensures OneMoreBehind(s, k, s + [tag], k, tag)
  {
    assert (s + [tag])[k + 1..] == s[k + 1..] + [tag];
  }

  lemma BehindMoved(s: Lines, k: nat, p: nat)
    requires k < |s| && p < |s| && p != k
    ensures OneMoreBehind(s, k, s[..p] + s[p + 1..] + [s[p]], if p < k then k - 1 else k, s[p])
  {
    var s' := s[..p] + s[p + 1..] + [s[p]];
    if p < k {
      assert s'[k..] == s[k + 1..] + [s[p]];
    } else {
      assert s'[k + 1..] == s[k + 1..p] + s[p + 1..] + [s[p]];
      assert s[k + 1..] == s[k + 1..p] + [s[p]] + s[p + 1..];
    }
  }

  function Elements(s: Lines): set<int> { set x | x in s }

  lemma {:induction false} DistinctCount(s: Lines)
    requires Distinct(s)
    ensures |Elements(s)| == |s|
  {
    if s != [] {
      var rest := s[1..];
      DistinctCount(rest);
      assert s == [s[0]] + rest;
      assert Elements(s) == Elements(rest) + {s[0]};
      assert s[0] !in rest by { assert forall j :: 0 <= j < |rest| ==> rest[j] == s[j + 1]; }
    }
  }

  /** `tag` was accessed before, with fewer than `e` distinct other tags since the last time. */
  ghost predicate Reused(trace: seq<int>, tag: int, e: nat) {
    exists i :: LastAccess(trace, i, tag) && |Since(trace, i)| < e
  }

  /** An access hits exactly when its tag was accessed before and fewer than `e` distinct other tags
      have been accessed since. */
  lemma HitIff(trace: seq<int>, tag: int, e: nat)
    requires e >= 1
    ensures tag in After(trace, e) <==> Reused(trace, tag, e)
  {
    HoldsMostRecent(trace, e);
    RecencyDistinct(trace);
    var s := Recency(trace);
    if tag in trace {
      var i := FindLast(trace, tag);
      var k := RecencyBehind(trace, i, tag);
      DistinctCount(Behind(s, k));
      assert Elements(Behind(s, k)) == Since(trace, i);
      LastIndex(s, e, k);
      assert forall i' :: LastAccess(trace, i', tag) ==> i' == i;
    } else {
      assert forall j :: 0 <= j < |Last(s, e)| ==> Last(s, e)[j] in s;
    }
  }

  lemma {:induction false} FindLast(trace: seq<int>, tag: int) returns (i: nat)
    requires tag in trace
    ensures LastAccess(trace, i, tag)
  {
    var n := |trace| - 1;
    if trace[n] == tag {
      i := n;
    } else {
      assert trace == trace[..n] + [trace[n]];
      i := FindLast(trace[..n], tag);
    }
  }

  /** The lines held with `e` ways are the most recent of those held with `e + 1`. */
  lemma Inclusion(trace: seq<int>, e: nat)
    requires e >= 1
    ensures After(trace, e) == Last(After(trace, e + 1), e)
    ensures forall tag :: tag in After(trace, e) ==> tag in After(trace, e + 1)
  {
    hide After, Recency, Distinct;
    HoldsMostRecent(trace, e);
    HoldsMostRecent(trace, e + 1);
    LastOfLast(Recency(trace), e);
  }

  /** The last `e` elements are the last of the last `e + 1`. */
  lemma LastOfLast(s: Lines, e: nat)
    ensures Last(s, e) == Last(Last(s, e + 1), e)
    ensures forall x :: x in Last(s, e) ==> x in Last(s, e + 1)
  {
    var l, t := Last(s, e), Last(s, e + 1);
    assert forall j :: 0 <= j < |l| ==> l[j] == t[|t| - |l| + j];
  }

  /** More ways never mean fewer hits. */
  lemma {:induction false} HitsMonotone(trace: seq<int>, e: nat)
    requires e >= 1
    ensures Hits(trace, e) <= Hits(trace, e + 1)
  {
    if trace != [] {
      var before := trace[..|trace| - 1];
      HitsMonotone(before, e);
      Inclusion(before, e);
    }
  }

  /** Every access is a hit or a miss, and the misses that were not evicted again are the lines held. */
  lemma {:induction false} Accounting(trace: seq<int>, e: nat)
    requires e >= 1
    ensures Hits(trace, e) + Misses(trace, e) == |trace|
    ensures Misses(trace, e) - Evictions(trace, e) == |After(trace, e)| <= e
    ensures Distinct(After(trace, e))
  {
    HoldsMostRecent(trace, e);
    RecencyDistinct(trace);
    LastDistinct(Recency(trace), e);
    if trace != [] {
      var before := trace[..|trace| - 1];
      Accounting(before, e);
      RemoveKeeps(After(before, e), trace[|trace| - 1]);
    }
  }
}
