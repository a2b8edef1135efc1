/** The whole simulator of `csim.c`: address decomposition, one LRU list per set, and the three counters. */
module DCache {
  import opened Lists
  import opened Bits
  import opened Lru
  import opened Words
  import opened CacheSim

  /** One access, as the simulator decomposes it. */
  datatype Ref = Ref(index: nat, tag: nat)

  /** The tags accessed in one set, in order. */
  function Projection(trace: seq<Ref>, index: nat): seq<int> {
    if trace == [] then []
    else
      var before, last := Projection(trace[..|trace| - 1], index), trace[|trace| - 1];
      if last.index == index then before + [last.tag] else before
  }

  predicate IsHit(trace: seq<Ref>, r: Ref, e: nat) {
    r.tag in After(Projection(trace, r.index), e)
  }

  predicate IsEviction(trace: seq<Ref>, r: Ref, e: nat) {
    !IsHit(trace, r, e) && |After(Projection(trace, r.index), e)| == e
  }

  datatype Counts = Counts(hits: nat, misses: nat, evictions: nat)

  function Count(trace: seq<Ref>, e: nat): Counts {
    if trace == [] then Counts(0, 0, 0)
    else
      var before, last := trace[..|trace| - 1], trace[|trace| - 1];
      var c := Count(before, e);
      Counts(c.hits + (if IsHit(before, last, e) then 1 else 0),
             c.misses + (if IsHit(before, last, e) then 0 else 1),
             c.evictions + (if IsEviction(before, last, e) then 1 else 0))
  }

  lemma ProjectionSnoc(trace: seq<Ref>, r: Ref, index: nat)
    ensures Projection(trace + [r], index) == Projection(trace, index) + (if r.index == index then [r.tag] else [])
  {
    assert (trace + [r])[..|trace|] == trace;
    assert Projection(trace, index) + [] == Projection(trace, index);
  }

  lemma CountSnoc(trace: seq<Ref>, r: Ref, e: nat)
    ensures var c := Count(trace, e);
            Count(trace + [r], e) == Counts(
              c.hits + (if IsHit(trace, r, e) then 1 else 0),
              c.misses + (if IsHit(trace, r, e) then 0 else 1),
              c.evictions + (if IsEviction(trace, r, e) then 1 else 0))
  {
    assert (trace + [r])[..|trace|] == trace;
  }

  /** Where an address goes: block offset off, then the set bits, then the tag. */
  function Locate(address: nat, setBits: nat, blockBits: nat): Ref {
    var cut := ShiftRight(address, blockBits);
    Ref(LowBits(cut, setBits), ShiftRight(cut, setBits))
  }

  /** In integers: which block an address lies in, which set that goes to, and what tells the blocks of one set
      apart. */
  lemma LocateIs(address: nat, setBits: nat, blockBits: nat)
    ensures Locate(address, setBits, blockBits).index == address / Pow2(blockBits) % Pow2(setBits)
    ensures Locate(address, setBits, blockBits).tag == address / Pow2(blockBits + setBits)
    ensures Locate(address, setBits, blockBits).tag == address / Pow2(blockBits) / Pow2(setBits)
  {
    hide Pow2, ShiftRight, LowBits;
    ShiftIsDiv(address, blockBits);
    ShiftIsDiv(ShiftRight(address, blockBits), setBits);
    ShiftAdd(address, blockBits, setBits);
    ShiftIsDiv(address, blockBits + setBits);
  }

  /** Two addresses are treated alike exactly when they lie in the same block. */
  lemma SameRefIffSameBlock(a: nat, b: nat, setBits: nat, blockBits: nat)
    ensures Locate(a, setBits, blockBits) == Locate(b, setBits, blockBits)
       <==> ShiftRight(a, blockBits) == ShiftRight(b, blockBits)
  {
    SplitBits(ShiftRight(a, blockBits), setBits);
    SplitBits(ShiftRight(b, blockBits), setBits);
  }

  /** Hits and misses over all sets: every access counts once, and no more ways means no more misses. */
  lemma {:induction false} MoreWaysMoreHits(trace: seq<Ref>, e: nat)
    requires e >= 1
    ensures Count(trace, e).hits <= Count(trace, e + 1).hits
    ensures Count(trace, e).hits + Count(trace, e).misses == |trace|
  {
    if trace != [] {
      var before, last := trace[..|trace| - 1], trace[|trace| - 1];
      MoreWaysMoreHits(before, e);
      Inclusion(Projection(before, last.index), e);
    }
  }

  /** An access hits exactly when its block's set has seen the tag, with fewer than `e` distinct other
      tags of that set since. */
  lemma HitIffReused(trace: seq<Ref>, r: Ref, e: nat)
    requires e >= 1
    ensures IsHit(trace, r, e) <==> Reused(Projection(trace, r.index), r.tag, e)
  {
    HitIff(Projection(trace, r.index), r.tag, e);
  }

  function Resident(trace: seq<Ref>, sets: nat, e: nat): nat {
    if sets == 0 then 0 else Resident(trace, sets - 1, e) + |After(Projection(trace, sets - 1), e)|
  }

  lemma {:induction false} ResidentSnoc(trace: seq<Ref>, r: Ref, sets: nat, e: nat)
    ensures Resident(trace + [r], sets, e) == Resident(trace, sets, e)
      + (if r.index < sets then |After(Projection(trace + [r], r.index), e)| - |After(Projection(trace,
        r.index), e)| else 0)
  {
    if sets > 0 {
      ResidentSnoc(trace, r, sets - 1, e);
      ProjectionSnoc(trace, r, sets - 1);
    }
  }

  /** Over all sets, misses minus evictions is the number of lines resident. */
  lemma {:induction false} ResidentLines(trace: seq<Ref>, sets: nat, e: nat)
    requires e >= 1 && forall r :: r in trace ==> r.index < sets
    ensures Count(trace, e).misses - Count(trace, e).evictions == Resident(trace, sets, e)
  {
    if trace == [] {
      NoneResident(sets, e);
    } else {
      var before, last := trace[..|trace| - 1], trace[|trace| - 1];
      ResidentLines(before, sets, e);
      assert trace == before + [last];
      ResidentSnoc(before, last, sets, e);
      ProjectionSnoc(before, last, last.index);
      var p := Projection(before, last.index);
      Accounting(p, e);
      RemoveKeeps(After(p, e), last.tag);
      assert (p + [last.tag])[..|p|] == p;
    }
  }

  lemma {:induction false} NoneResident(sets: nat, e: nat)
    ensures Resident([], sets, e) == 0
  {
    if sets > 0 { NoneResident(sets - 1, e); }
  }

  class Simulator {
    var hits: nat
    var misses: nat
    var evictions: nat
    const setBits: nat
    const blockBits: nat
    const associativity: nat
    const blockOffsetMask: nat
    const setNumberMask: nat
    var sets: seq<CacheSet>
    ghost var trace: seq<Ref>
    ghost var nodes: set<LineNode>

    ghost predicate Separate()
      reads this, sets
    {
      && (forall i, n {:trigger n in sets[i].nodes} :: 0 <= i < |sets| && n in sets[i].nodes ==> n in nodes)
      && forall i, j {:trigger sets[i], sets[j]} :: 0 <= i < j < |sets| ==>
           sets[i] != sets[j] && forall n :: n in sets[i].nodes ==> n !in sets[j].nodes
    }

    ghost predicate SetOk(i: nat)
      requires i < |sets| && forall n :: n in sets[i].nodes ==> n in nodes
      reads this, sets, nodes
    {
      && sets[i].Valid() && sets[i].maxSize == associativity
      && sets[i].Tags() == After(Projection(trace, i), associativity)
    }

    /** Every set holds what the trace leaves in it. */
    ghost predicate SetsOk()
      reads this, sets, nodes
    {
      && associativity >= 1 && |sets| == Pow2(setBits)
      && Separate() && forall i {:trigger SetOk(i)} :: 0 <= i < |sets| ==> SetOk(i)
    }

    ghost predicate Valid()
      reads this, sets, nodes
    {
      && SetsOk() && setNumberMask == Pow2(setBits) - 1 && blockOffsetMask == Pow2(blockBits) - 1
      && Counts(hits, misses, evictions) == Count(trace, associativity)
    }

    constructor (setBits: nat, associativity: nat, blockBits: nat)
      requires associativity >= 1
      ensures Valid() && trace == [] && nodes == {} && fresh(sets)
      ensures this.setBits == setBits && this.associativity == associativity && this.blockBits == blockBits
    {
      hits, misses, evictions := 0, 0, 0;
      this.setBits, this.associativity, this.blockBits := setBits, associativity, blockBits;
      var setMask := CreateRightBitMask(setBits);
      var blockMask := CreateRightBitMask(blockBits);
      setNumberMask, blockOffsetMask := setMask, blockMask;
      var built: seq<CacheSet> := [];
      var i := 0;
      while i < Pow2(setBits)
        invariant 0 <= i == |built| <= Pow2(setBits) && fresh(built)
        invariant forall j {:trigger built[j]} :: 0 <= j < i ==>
          built[j].Valid() && built[j].maxSize == associativity && built[j].nodes == []
        invariant forall j, k {:trigger built[j], built[k]} :: 0 <= j < k < i ==> built[j] != built[k]
      {
        var s := new CacheSet(associativity);
        built := built + [s];
        i := i + 1;
      }
      sets, trace, nodes := built, [], {};
    }

    method ParseAddress(address: nat) returns (setNumber: nat, tag: nat, blockOffset: nat)
      requires setNumberMask == Pow2(setBits) - 1 && blockOffsetMask == Pow2(blockBits) - 1
      ensures Ref(setNumber, tag) == Locate(address, setBits, blockBits)
      ensures setNumber < Pow2(setBits)
      ensures setNumber == address / Pow2(blockBits) % Pow2(setBits)
      ensures tag == address / Pow2(blockBits + setBits) && blockOffset == address % Pow2(blockBits)
    {
      LocateIs(address, setBits, blockBits);
      ShiftIsDiv(address, blockBits);
      AndMask(address, blockBits);
      SplitBits(address, blockBits);
      blockOffset := BitAnd(address, blockOffsetMask);
      var cutOffset := ShiftRight(address, blockBits);
      AndMask(cutOffset, setBits);
      SplitBits(cutOffset, setBits);
      setNumber := BitAnd(cutOffset, setNumberMask);
      tag := ShiftRight(cutOffset, setBits);
    }

    /** dCacheOperate on one set leaves the other sets alone. */
    method OperateSet(setNumber: nat, tag: nat) returns (hit: bool, evicted: bool)
      requires setNumber < |sets| && Separate() && (forall i {:trigger sets[i]} :: 0 <= i < |sets| ==> sets[i].Valid())
      modifies this`nodes, sets[setNumber], sets[setNumber].nodes
      ensures fresh(nodes - old(nodes)) && Separate()
      ensures forall i {:trigger sets[i]} :: 0 <= i < |sets| ==> sets[i].Valid()
      ensures forall i {:trigger sets[i]} :: 0 <= i < |sets| && i != setNumber ==> sets[i].Tags() == old(sets[i].Tags())
      ensures var before := old(sets[setNumber].Tags());
              && sets[setNumber].Tags() == Access(before, tag, sets[setNumber].maxSize)
              && hit == (tag in before) && evicted == (!hit && |before| == sets[setNumber].maxSize)
    {
      hide Access, TagsOf;
      ghost var mine := sets[setNumber].nodes;
      forall i | 0 <= i < |sets| && i != setNumber
        ensures sets[i] != sets[setNumber] && forall n :: n in sets[i].nodes ==> n !in mine
      {
      }
      hit, evicted := sets[setNumber].DCacheOperate(tag);
      forall i | 0 <= i < |sets| && i != setNumber
        ensures sets[i].Valid() && sets[i].nodes == old(sets[i].nodes)
      {
        ghost var s := sets[i];
        assert old(s.Valid()) && s.nodes == old(s.nodes);
        assert forall n :: n in s.nodes ==> n !in mine && n.next == old(n.next);
        assert forall k {:trigger LinkAt(s.nodes, k)} :: 0 <= k < |s.nodes| ==> old(LinkAt(s.nodes, k));
      }
      nodes := nodes + set n | n in sets[setNumber].nodes;
    }

    /** dCacheOperate on the right set, recorded in the trace. */
    method AccessSet(setNumber: nat, tag: nat) returns (hit: bool, evicted: bool)
      requires SetsOk() && setNumber < |sets|
      modifies this`trace, this`nodes, sets, nodes
      ensures SetsOk() && trace == old(trace) + [Ref(setNumber, tag)] && fresh(nodes - old(nodes))
      ensures hit == IsHit(old(trace), Ref(setNumber, tag), associativity)
      ensures evicted == IsEviction(old(trace), Ref(setNumber, tag), associativity)
    {
      hide After, Projection, Access, Chain, TagsOf, CacheSet.Valid, Pow2;
      ghost var r := Ref(setNumber, tag);
      assert forall i {:trigger sets[i]} :: 0 <= i < |sets| ==> SetOk(i) && sets[i] in sets;
      assert forall n :: n in sets[setNumber].nodes ==> n in nodes;
      hit, evicted := OperateSet(setNumber, tag);
      trace := trace + [r];
      forall i | 0 <= i < |sets|
        ensures SetOk(i)
      {
        AfterSnoc(old(trace), r, i, associativity);
      }
    }

    /** dCacheOperate with the counters. */
    method Operate(setNumber: nat, tag: nat)
      requires Valid() && setNumber < |sets|
      modifies this`hits, this`misses, this`evictions, this`trace, this`nodes, sets, nodes
      ensures Valid() && trace == old(trace) + [Ref(setNumber, tag)]
      ensures fresh(nodes - old(nodes))
    {
      hide IsHit, IsEviction, Count, SetsOk, Pow2;
      CountSnoc(trace, Ref(setNumber, tag), associativity);
      var hit, evicted := AccessSet(setNumber, tag);
      Tally(hit, evicted);
    }

    /** The counters; the sets and their trace stay. */
    method Tally(hit: bool, evicted: bool)
      requires SetsOk()
      modifies this`hits, this`misses, this`evictions
      ensures SetsOk()
      ensures hits == old(hits) + (if hit then 1 else 0) && misses == old(misses) + (if hit then 0 else 1)
      ensures evictions == old(evictions) + (if evicted then 1 else 0)
    {
      hide After, Projection, TagsOf, CacheSet.Valid, Pow2;
      if hit {
        hits := hits + 1;
      } else {
        misses := misses + 1;
      }
      if evicted {
        evictions := evictions + 1;
      }
      forall i | 0 <= i < |sets|
        ensures SetOk(i)
      {
        assert old(SetOk(i));
      }
    }

    /** One line of the trace file: loads and stores access once, modifies twice. */
    method DCacheSimulate(command: char, address: nat) returns (status: int)
      requires Valid()
      modifies this`hits, this`misses, this`evictions, this`trace, this`nodes, sets, nodes
      ensures Valid() && fresh(nodes - old(nodes))
      ensures var r := Locate(address, setBits, blockBits);
              trace == old(trace) + (if command in {'S', 'L'} then [r] else if command == 'M' then [r, r] else [])
      ensures status == if command in {'S', 'L', 'M'} then 0 else -1
    {
      hide Separate, SetOk, Count, Locate, Pow2;
      var setNumber, tag, offset := ParseAddress(address);
      if command == 'S' || command == 'L' {
        Operate(setNumber, tag);
      } else if command == 'M' {
        Operate(setNumber, tag);
        Operate(setNumber, tag);
      } else {
        return -1;
      }
      return 0;
    }
  }

  /** The accesses that the lines of a trace file stand for. */
  function Accesses(commands: seq<(char, nat)>, setBits: nat, blockBits: nat): seq<Ref> {
    if commands == [] then []
    else
      var before, last := Accesses(commands[..|commands| - 1], setBits, blockBits), commands[|commands| - 1];
      var r := Locate(last.1, setBits, blockBits);
      before + (if last.0 in {'S', 'L'} then [r] else if last.0 == 'M' then [r, r] else [])
  }

  /** The main loop: the totals printed at the end are those of the abstract LRU cache. */
  method Replay(commands: seq<(char, nat)>, setBits: nat, associativity: nat, blockBits: nat) returns (totals: Counts)
    requires associativity >= 1
    ensures totals == Count(Accesses(commands, setBits, blockBits), associativity)
  {
    hide After, Projection, Access, Count, Locate, CacheSet.Valid;
    var cache := new Simulator(setBits, associativity, blockBits);
    var i := 0;
    while i < |commands|
      invariant 0 <= i <= |commands| && cache.Valid() && fresh(cache) && fresh(cache.sets) && fresh(cache.nodes)
      invariant cache.trace == Accesses(commands[..i], setBits, blockBits)
    {
      assert commands[..i + 1][..i] == commands[..i];
      var status := cache.DCacheSimulate(commands[i].0, commands[i].1);
      i := i + 1;
    }
    assert commands[..i] == commands;
    totals := Counts(cache.hits, cache.misses, cache.evictions);
  }

  lemma AfterSnoc(trace: seq<Ref>, r: Ref, index: nat, e: nat)
    ensures After(Projection(trace + [r], index), e)
         == if r.index == index then Access(After(Projection(trace, index), e), r.tag, e)
            else After(Projection(trace, index), e)
  {
    ProjectionSnoc(trace, r, index);
    var p := Projection(trace, index);
    assert (p + [r.tag])[..|p|] == p;
    assert p + [] == p;
  }
}
