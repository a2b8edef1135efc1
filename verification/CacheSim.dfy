/** The cache simulator of `csim.c`: one linked list per set, least recently used line first. */
module CacheSim {
  import opened Lists
  import opened Lru
  import opened Bits
  import opened Words

  class LineNode {
    const tag: int
    var next: LineNode?

    constructor (tag: int)
      ensures this.tag == tag && next == null
    {
      this.tag, next := tag, null;
    }
  }

  ghost function TagsOf(ns: seq<LineNode>): (t: Lines)
    ensures |t| == |ns|
  {
    seq(|ns|, i requires 0 <= i < |ns| => ns[i].tag)
  }

  lemma TagsOfConcat(a: seq<LineNode>, b: seq<LineNode>)
    ensures TagsOf(a + b) == TagsOf(a) + TagsOf(b)
  {
  }

  ghost predicate NoDup(ns: seq<LineNode>) {
    forall i, j {:trigger ns[i], ns[j]} :: 0 <= i < j < |ns| ==> ns[i] != ns[j]
  }

  ghost predicate LinkAt(ns: seq<LineNode>, i: nat)
    requires i < |ns|
    reads ns
  {
    ns[i].next == if i + 1 < |ns| then ns[i + 1] else null
  }

  /** The nodes are linked in this order, each of them once. */
  ghost predicate Chain(ns: seq<LineNode>)
    reads ns
  {
    NoDup(ns) && forall i {:trigger LinkAt(ns, i)} :: 0 <= i < |ns| ==> LinkAt(ns, i)
  }

  lemma ChainTail(ns: seq<LineNode>)
    requires Chain(ns) && ns != []
    ensures Chain(ns[1..])
  {
    var t := ns[1..];
    forall i | 0 <= i < |t|
      ensures LinkAt(t, i)
    {
      assert LinkAt(ns, i + 1);
    }
  }

  ghost function Moved(ns: seq<LineNode>, k: nat): (ms: seq<LineNode>)
    requires k < |ns|
    ensures |ms| == |ns|
  {
    ns[..k] + ns[k + 1..] + [ns[k]]
  }

  lemma MovedNoDup(ns: seq<LineNode>, k: nat)
    requires NoDup(ns) && k < |ns|
    ensures NoDup(Moved(ns, k))
    ensures forall x :: x in Moved(ns, k) <==> x in ns
  {
    assert ns == ns[..k] + [ns[k]] + ns[k + 1..];
  }

  class CacheSet {
    var currentSize: int
    const maxSize: nat
    var head: LineNode?
    var tail: LineNode?
    ghost var nodes: seq<LineNode>

    ghost predicate Valid()
      reads this, nodes
    {
      && 0 <= currentSize == |nodes| <= maxSize && maxSize >= 1
      && head == (if nodes == [] then null else nodes[0])
      && tail == (if nodes == [] then null else nodes[|nodes| - 1])
      && Chain(nodes)
    }

    ghost function Tags(): Lines
      reads this
    {
      TagsOf(nodes)
    }

    constructor (associativity: nat)
      requires associativity >= 1
      ensures Valid() && maxSize == associativity && nodes == []
    {
      currentSize, maxSize, head, tail := 0, associativity, null, null;
      nodes := [];
    }

    method IsFull() returns (full: bool)
      ensures full == (currentSize == maxSize)
    {
      full := currentSize == maxSize;
    }

    method Evict()
      requires Valid() && nodes != []
      modifies this
      ensures Valid() && nodes == old(nodes)[1..]
    {
      assert LinkAt(nodes, 0);
      if head.next == null {
        head := null;
        tail := null;
      } else {
        head := head.next;
      }
      currentSize := currentSize - 1;
      ChainTail(nodes);
      nodes := nodes[1..];
    }

    method Load(tag: int) returns (evicted: bool)
      requires Valid()
      modifies this, nodes
      ensures Valid() && evicted == (|old(nodes)| == maxSize)
      ensures |nodes| > 0 && fresh(nodes[|nodes| - 1]) && nodes[|nodes| - 1].tag == tag
      ensures nodes[..|nodes| - 1] == if evicted then old(nodes)[1..] else old(nodes)
    {
      evicted := IsFull();
      if evicted {
        Evict();
      }
      var newLine := new LineNode(tag);
      label Before:
      if tail == null {
        head := newLine;
        tail := newLine;
      } else {
        tail.next := newLine;
        tail := newLine;
      }
      currentSize := currentSize + 1;
      ghost var kept := nodes;
      nodes := kept + [newLine];
      forall i | 0 <= i < |nodes|
        ensures LinkAt(nodes, i)
      {
        if i < |kept| { assert old@Before(LinkAt(kept, i)); }
      }
    }

    /** Look for a tag; when found, move its line to the most recently used end. */
    method IsCached(tag: int) returns (hit: bool)
      requires Valid()
      modifies this, nodes
      ensures Valid() && hit == (tag in old(Tags()))
      ensures !hit ==> nodes == old(nodes)
      ensures hit ==> exists k: nat ::
        FirstAt(old(Tags()), k, tag) && k < |old(nodes)| && nodes == Moved(old(nodes), k)
    {
      var prev: LineNode?, current := null, head;
      ghost var i := 0;
      hit := false;
      while current != null
        invariant 0 <= i <= |nodes| && Valid() && nodes == old(nodes)
        invariant current == if i < |nodes| then nodes[i] else null
        invariant prev == if i == 0 then null else nodes[i - 1]
        invariant forall j :: 0 <= j < i ==> nodes[j].tag != tag
        decreases |nodes| - i
      {
        if current.tag == tag {
          assert FirstAt(old(Tags()), i, tag);
          MoveToEnd(prev, current, i);
          return true;
        }
        assert LinkAt(nodes, i);
        prev := current;
        current := current.next;
        i := i + 1;
      }
    }

    /** The relinking inside `isCached`. */
    method MoveToEnd(prev: LineNode?, current: LineNode, ghost k: nat)
      requires Valid() && k < |nodes| && current == nodes[k] && prev == if k == 0 then null else nodes[k - 1]
      modifies this, nodes
      ensures Valid() && nodes == Moved(old(nodes), k)
    {
      hide NoDup;
      ghost var ns := nodes;
      ghost var n := |ns|;
      assert LinkAt(ns, k) && LinkAt(ns, n - 1);
      MovedNoDup(ns, k);
      if current.next == null {
        assert Moved(ns, k) == ns;
        return;
      }
      MoveDistinct(ns, k);
      if prev != null {
        prev.next := current.next;
      } else {
        head := current.next;
      }
      tail.next := current;
      tail := current;
      current.next := null;
      nodes := Moved(ns, k);
      forall i | 0 <= i < n
        ensures LinkAt(nodes, i)
      {
        var j := if i < k then i else if i + 1 < n then i + 1 else k;
        assert old(LinkAt(ns, j)) && nodes[i] == ns[j];
        assert i + 1 < n ==> nodes[i + 1] == ns[if i + 1 < k then i + 1 else if i + 2 < n then i + 2 else k];
      }
    }

    /** One access: a hit moves the line to the recent end, a miss loads it. */
    method DCacheOperate(tag: int) returns (hit: bool, evicted: bool)
      requires Valid()
      modifies this, nodes
      ensures Valid() && Tags() == Access(old(Tags()), tag, maxSize)
      ensures hit == (tag in old(Tags())) && evicted == (!hit && |old(Tags())| == maxSize)
      ensures forall n :: n in nodes ==> n in old(nodes) || fresh(n)
    {
      ghost var ns := nodes;
      evicted := false;
      hit := IsCached(tag);
      if hit {
        ghost var k: nat :| FirstAt(TagsOf(ns), k, tag) && k < |ns| && nodes == Moved(ns, k);
        MovedTags(ns, k, tag);
        assert forall n :: n in nodes ==> n in ns;
      } else {
        evicted := Load(tag);
        ghost var last := |nodes| - 1;
        assert nodes == nodes[..last] + [nodes[last]];
        TagsOfConcat(nodes[..last], [nodes[last]]);
        if evicted { assert TagsOf(ns[1..]) == TagsOf(ns)[1..]; }
      }
    }
  }

  lemma MovedTags(ns: seq<LineNode>, k: nat, tag: int)
    requires k < |ns| && FirstAt(TagsOf(ns), k, tag)
    ensures TagsOf(Moved(ns, k)) == Remove(TagsOf(ns), tag) + [tag]
  {
    DropFirst(TagsOf(ns), k, tag);
    TagsOfConcat(ns[..k], ns[k + 1..]);
    TagsOfConcat(ns[..k] + ns[k + 1..], [ns[k]]);
    assert TagsOf(ns[..k]) == TagsOf(ns)[..k] && TagsOf(ns[k + 1..]) == TagsOf(ns)[k + 1..];
  }

  lemma {:induction false} DropFirst(s: Lines, k: nat, tag: int)
    requires FirstAt(s, k, tag)
    ensures Remove(s, tag) == s[..k] + s[k + 1..]
  {
    if k > 0 {
      assert s[0] != tag;
      assert FirstAt(s[1..], k - 1, tag);
      DropFirst(s[1..], k - 1, tag);
      assert s[..k] == [s[0]] + s[1..][..k - 1];
      assert s[1..][k - 1 + 1..] == s[k + 1..];
    } else {
      assert s[..0] + s[1..] == s[1..];
    }
  }

  /** The nodes that the move rewrites are not among the others. */
  lemma MoveDistinct(ns: seq<LineNode>, k: nat)
    requires NoDup(ns) && k + 1 < |ns|
    ensures forall j {:trigger ns[j]} :: 0 <= j < |ns| ==>
      && (j != k ==> ns[j] != ns[k]) && (j != |ns| - 1 ==> ns[j] != ns[|ns| - 1])
      && (k > 0 && j != k - 1 ==> ns[j] != ns[k - 1])
  {
  }

  /** The first occurrence of `tag` is at `k`. */
  ghost predicate FirstAt(s: Lines, k: nat, tag: int) {
    k < |s| && s[k] == tag && forall j :: 0 <= j < k ==> s[j] != tag
  }

  // ---------------------------------------------------------------------------------------------
  // Addresses
  // ---------------------------------------------------------------------------------------------

  /** A mask of the `n` low bits, built from the top bit down by exclusive or. */
  method CreateRightBitMask(n: nat) returns (mask: nat)
    ensures mask == Pow2(n) - 1
  {
    mask := 0;
    var k := n;
    ghost var high: nat := 0;
    while k != 0
      invariant 0 <= k <= n && mask == high * Pow2(k) && mask + Pow2(k) == Pow2(n)
    {
      k := k - 1;
      XorLowBit(high, k);
      mask := BitXor(mask, Pow2(k));
      high := 2 * high + 1;
    }
  }
}
