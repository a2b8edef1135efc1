/** Hits in terms of the addresses of a trace: how many blocks have competed for the set since the block was
    last used. */
module DCacheBlocks {
  import opened Lists
  import opened Bits
  import opened Lru
  import opened DCache

  /** The number of the block that an address lies in. */
  function Block(address: nat, blockBits: nat): nat {
    QuotientIsNat(address, Pow2(blockBits));
    address / Pow2(blockBits)
  }

  lemma QuotientIsNat(a: nat, p: nat)
    requires p > 0
    ensures a / p >= 0
  {
  }

  predicate SameSet(x: nat, y: nat, setBits: nat) { x % Pow2(setBits) == y % Pow2(setBits) }

  /** Position `i` of the trace is the last one in block `x`. */
  predicate LastIn(blocks: seq<nat>, i: nat, x: nat) {
    i < |blocks| && blocks[i] == x && forall j :: i < j < |blocks| ==> blocks[j] != x
  }

  /** The distinct blocks used after position `i` that go to the set of `x`. */
  function Rivals(blocks: seq<nat>, i: nat, x: nat, setBits: nat): set<nat> {
    set j | i < j < |blocks| && SameSet(blocks[j], x, setBits) :: blocks[j]
  }

  function Blocks(addresses: seq<nat>, blockBits: nat): seq<nat> {
    seq(|addresses|, i requires 0 <= i < |addresses| => Block(addresses[i], blockBits))
  }

  function Refs(addresses: seq<nat>, setBits: nat, blockBits: nat): seq<Ref> {
    seq(|addresses|, i requires 0 <= i < |addresses| => Locate(addresses[i], setBits, blockBits))
  }

  // ---------------------------------------------------------------------------------------------
  // The competitors, read from the end of the trace
  // ---------------------------------------------------------------------------------------------

  /** The distinct tags after the last `tag`, if there is one. */
  function TagGap(tags: seq<int>, tag: int): Option<set<int>> {
    if tags == [] then None
    else if tags[|tags| - 1] == tag then Some({})
    else match TagGap(tags[..|tags| - 1], tag) case None => None case Some(g) => Some(g + {tags[|tags| - 1]})
  }

  function BlockGap(blocks: seq<nat>, x: nat, setBits: nat): Option<set<nat>> {
    if blocks == [] then None
    else
      var last := blocks[|blocks| - 1];
      if last == x then Some({})
      else match BlockGap(blocks[..|blocks| - 1], x, setBits)
        case None => None
        case Some(g) => Some(if SameSet(last, x, setBits) then g + {last} else g)
  }

  lemma {:induction false} TagGapIs(tags: seq<int>, tag: int) returns (i: nat)
    ensures TagGap(tags, tag) == None ==> tag !in tags
    ensures TagGap(tags, tag).Some? ==> LastAccess(tags, i, tag) && Since(tags, i) == TagGap(tags, tag).value
  {
    i := 0;
    if tags != [] {
      var n := |tags| - 1;
      if tags[n] == tag {
        i := n;
      } else {
        i := TagGapIs(tags[..n], tag);
        if TagGap(tags[..n], tag).Some? {
          forall x ensures x in Since(tags, i) <==> x in Since(tags[..n], i) || x == tags[n] { SinceSnoc(tags, i, x); }
        } else {
          assert tags == tags[..n] + [tags[n]];
        }
      }
    }
  }

  /** `Reused`, read from the end. */
  lemma ReusedIff(tags: seq<int>, tag: int, e: nat)
    ensures Reused(tags, tag, e) <==> TagGap(tags, tag).Some? && |TagGap(tags, tag).value| < e
  {
    hide TagGap, Since;
    var i := TagGapIs(tags, tag);
    if Reused(tags, tag, e) {
      var j: nat :| LastAccess(tags, j, tag) && |Since(tags, j)| < e;
      assert tags[j] in tags;
      assert i == j;
    }
  }

  lemma {:induction false} BlockGapIs(blocks: seq<nat>, x: nat, setBits: nat) returns (i: nat)
    ensures BlockGap(blocks, x, setBits) == None ==> x !in blocks
    ensures BlockGap(blocks, x, setBits).Some? ==>
      LastIn(blocks, i, x) && Rivals(blocks, i, x, setBits) == BlockGap(blocks, x, setBits).value
  {
    hide SameSet;
    i := 0;
    if blocks != [] {
      var n := |blocks| - 1;
      if blocks[n] == x {
        i := n;
      } else {
        i := BlockGapIs(blocks[..n], x, setBits);
        if BlockGap(blocks[..n], x, setBits).Some? {
          RivalsSnoc(blocks, i, x, setBits);
        } else {
          assert blocks == blocks[..n] + [blocks[n]];
        }
      }
    }
  }

  lemma RivalsSnoc(blocks: seq<nat>, i: nat, x: nat, setBits: nat)
    requires i + 1 < |blocks|
    ensures var before, last := blocks[..|blocks| - 1], blocks[|blocks| - 1];
            Rivals(blocks, i, x, setBits) ==
              Rivals(before, i, x, setBits) + (if SameSet(last, x, setBits) then {last} else {})
  {
    hide SameSet;
    var n := |blocks| - 1;
    var before, last := blocks[..n], blocks[n];
    var rest := Rivals(before, i, x, setBits) + (if SameSet(last, x, setBits) then {last} else {});
    forall y | y in Rivals(blocks, i, x, setBits)
      ensures y in rest
    {
      var j :| i < j < |blocks| && SameSet(blocks[j], x, setBits) && blocks[j] == y;
      if j < n { assert before[j] == y; }
    }
    forall y | y in rest
      ensures y in Rivals(blocks, i, x, setBits)
    {
      if y in Rivals(before, i, x, setBits) {
        var j :| i < j < n && SameSet(before[j], x, setBits) && before[j] == y;
        assert blocks[j] == y;
      } else {
        assert blocks[n] == y;
      }
    }
  }

  // ---------------------------------------------------------------------------------------------
  // Tags of one set and blocks that go to it
  // ---------------------------------------------------------------------------------------------

  function TagsOfBlocks(g: set<nat>, setBits: nat): set<int> { set x | x in g :: x / Pow2(setBits) }

  /** Blocks that go to one set are told apart by their tags. */
  lemma {:induction false} TagsCount(g: set<nat>, x: nat, setBits: nat)
    requires forall y {:trigger y in g} :: y in g ==> SameSet(y, x, setBits)
    ensures |TagsOfBlocks(g, setBits)| == |g|
    decreases |g|
  {
    if g == {} {
      assert TagsOfBlocks(g, setBits) == {};
    } else {
      var y :| y in g;
      var rest := g - {y};
      TagsCount(rest, x, setBits);
      if y / Pow2(setBits) in TagsOfBlocks(rest, setBits) {
        var z :| z in rest && z / Pow2(setBits) == y / Pow2(setBits);
        SameBlock(y, z, setBits);
      }
      TagsAdd(rest, y, setBits);
      assert g == rest + {y};
    }
  }

  lemma TagsAdd(g: set<nat>, y: nat, setBits: nat)
    ensures TagsOfBlocks(g + {y}, setBits) == TagsOfBlocks(g, setBits) + {y / Pow2(setBits)}
  {
    hide Pow2;
    assert y in g + {y};
  }

  lemma TagGapSnoc(tags: seq<int>, t: int, tag: int)
    ensures TagGap(tags + [t], tag) ==
      if t == tag then Some({})
      else match TagGap(tags, tag) case None => None case Some(g) => Some(g + {t})
  {
    assert (tags + [t])[..|tags|] == tags;
  }

  lemma SameBlock(y: nat, z: nat, setBits: nat)
    requires SameSet(y, z, setBits) && y / Pow2(setBits) == z / Pow2(setBits)
    ensures y == z
  {
    var p := Pow2(setBits);
    assert y == p * (y / p) + y % p && z == p * (z / p) + z % p;
  }

  /** The tags of a set's projection compete as the blocks do. */
  lemma {:induction false} GapsAgree(addresses: seq<nat>, a: nat, setBits: nat, blockBits: nat)
    ensures var blocks, x := Blocks(addresses, blockBits), Block(a, blockBits);
            var r := Locate(a, setBits, blockBits);
            var tags := Projection(Refs(addresses, setBits, blockBits), r.index);
            match BlockGap(blocks, x, setBits)
            case None => TagGap(tags, r.tag) == None
            case Some(g) =>
              && TagGap(tags, r.tag) == Some(TagsOfBlocks(g, setBits))
              && forall y {:trigger y in g} :: y in g ==> SameSet(y, x, setBits)
  {
    hide Pow2, Locate, TagGap, TagsOfBlocks;
    if addresses == [] {
      NoGap(Locate(a, setBits, blockBits).tag);
    } else {
      var n := |addresses| - 1;
      var before, last := addresses[..n], addresses[n];
      GapsAgree(before, a, setBits, blockBits);
      assert Blocks(addresses, blockBits)[..n] == Blocks(before, blockBits);
      var refs := Refs(before, setBits, blockBits);
      assert Refs(addresses, setBits, blockBits) == refs + [Locate(last, setBits, blockBits)];
      var r := Locate(a, setBits, blockBits);
      ProjectionSnoc(refs, Locate(last, setBits, blockBits), r.index);
      TagGapSnoc(Projection(refs, r.index), Locate(last, setBits, blockBits).tag, r.tag);
      LocateIs(a, setBits, blockBits);
      LocateIs(last, setBits, blockBits);
      var x, y := Block(a, blockBits), Block(last, blockBits);
      if SameSet(y, x, setBits) && y / Pow2(setBits) == x / Pow2(setBits) { SameBlock(y, x, setBits); }
      NoTags(setBits);
      var g := BlockGap(Blocks(before, blockBits), x, setBits);
      if g.Some? { TagsAdd(g.value, y, setBits); }
    }
  }

  lemma NoGap(tag: int)
    ensures TagGap([], tag) == None
  {
  }

  lemma NoTags(setBits: nat)
    ensures TagsOfBlocks({}, setBits) == {}
  {
  }

  /** An access hits exactly when its block was used before and fewer than `e` other blocks that go to the same
      set have been used since. */
  lemma HitIffFewRivals(addresses: seq<nat>, a: nat, setBits: nat, blockBits: nat, e: nat)
    requires e >= 1
    ensures IsHit(Refs(addresses, setBits, blockBits), Locate(a, setBits, blockBits), e) <==>
            exists i: nat :: LastIn(Blocks(addresses, blockBits), i, Block(a, blockBits))
              && |Rivals(Blocks(addresses, blockBits), i, Block(a, blockBits), setBits)| < e
  {
    hide IsHit, Locate, Block, BlockGap, TagGap, Rivals, Reused;
    var blocks, x, r := Blocks(addresses, blockBits), Block(a, blockBits), Locate(a, setBits, blockBits);
    HitIffReused(Refs(addresses, setBits, blockBits), r, e);
    ReusedIff(Projection(Refs(addresses, setBits, blockBits), r.index), r.tag, e);
    GapsAgree(addresses, a, setBits, blockBits);
    var i := BlockGapIs(blocks, x, setBits);
    if BlockGap(blocks, x, setBits).Some? { TagsCount(BlockGap(blocks, x, setBits).value, x, setBits); }
    if j: nat :| LastIn(blocks, j, x) && |Rivals(blocks, j, x, setBits)| < e {
      assert blocks[j] in blocks;
      assert i == j;
    }
  }

  // ---------------------------------------------------------------------------------------------
  // The totals of a trace file
  // ---------------------------------------------------------------------------------------------

  /** The addresses that the lines of a trace file access, in order: a modification accesses its own twice. */
  function Touched(commands: seq<(char, nat)>): seq<nat> {
    if commands == [] then []
    else
      var before, last := Touched(commands[..|commands| - 1]), commands[|commands| - 1];
      before + (if last.0 in {'S', 'L'} then [last.1] else if last.0 == 'M' then [last.1, last.1] else [])
  }

  lemma {:induction false} AccessesAre(commands: seq<(char, nat)>, setBits: nat, blockBits: nat)
    ensures Accesses(commands, setBits, blockBits) == Refs(Touched(commands), setBits, blockBits)
  {
    hide Locate;
    if commands != [] { AccessesAre(commands[..|commands| - 1], setBits, blockBits); }
  }

  /** At access `p` fewer than `e` other blocks of its set have been used since its block was. */
  ghost predicate FewRivals(addresses: seq<nat>, p: nat, setBits: nat, blockBits: nat, e: nat)
    requires p < |addresses|
  {
    var blocks, x := Blocks(addresses[..p], blockBits), Block(addresses[p], blockBits);
    exists i: nat :: LastIn(blocks, i, x) && |Rivals(blocks, i, x, setBits)| < e
  }

  ghost function Hitting(addresses: seq<nat>, n: nat, setBits: nat, blockBits: nat, e: nat): set<nat>
    requires n <= |addresses|
  {
    set p: nat | p < n && FewRivals(addresses, p, setBits, blockBits, e)
  }

  lemma {:induction false} HitsAre(addresses: seq<nat>, n: nat, setBits: nat, blockBits: nat, e: nat)
    requires e >= 1 && n <= |addresses|
    ensures Count(Refs(addresses[..n], setBits, blockBits), e).hits == |Hitting(addresses, n, setBits, blockBits, e)|
  {
    hide IsHit, IsEviction, FewRivals, Locate, Hitting;
    HittingSnoc(addresses, n, setBits, blockBits, e);
    if n > 0 {
      HitsAre(addresses, n - 1, setBits, blockBits, e);
      var refs, a := Refs(addresses[..n - 1], setBits, blockBits), addresses[n - 1];
      assert Refs(addresses[..n], setBits, blockBits) == refs + [Locate(a, setBits, blockBits)];
      CountSnoc(refs, Locate(a, setBits, blockBits), e);
      HitHere(addresses, n - 1, setBits, blockBits, e);
    }
  }

  lemma HittingSnoc(addresses: seq<nat>, n: nat, setBits: nat, blockBits: nat, e: nat)
    requires n <= |addresses|
    ensures |Hitting(addresses, n, setBits, blockBits, e)| ==
            if n == 0 then 0
            else |Hitting(addresses, n - 1, setBits, blockBits, e)|
                 + (if FewRivals(addresses, n - 1, setBits, blockBits, e) then 1 else 0)
  {
    hide FewRivals;
    if n == 0 {
      assert Hitting(addresses, 0, setBits, blockBits, e) == {};
    } else {
      assert Hitting(addresses, n, setBits, blockBits, e) == Hitting(addresses, n - 1, setBits, blockBits, e)
        + (if FewRivals(addresses, n - 1, setBits, blockBits, e) then {n - 1} else {});
    }
  }

  lemma HitHere(addresses: seq<nat>, p: nat, setBits: nat, blockBits: nat, e: nat)
    requires e >= 1 && p < |addresses|
    ensures IsHit(Refs(addresses[..p], setBits, blockBits), Locate(addresses[p], setBits, blockBits), e) <==>
            FewRivals(addresses, p, setBits, blockBits, e)
  {
    hide IsHit, Locate, Block, Rivals, LastIn;
    HitIffFewRivals(addresses[..p], addresses[p], setBits, blockBits, e);
  }

  /** The hits printed for a trace file are the accesses with few rivals, the misses all others. */
  lemma TotalsAre(commands: seq<(char, nat)>, setBits: nat, blockBits: nat, e: nat)
    requires e >= 1
    ensures var addresses, counts := Touched(commands), Count(Accesses(commands, setBits, blockBits), e);
            && counts.hits == |Hitting(addresses, |addresses|, setBits, blockBits, e)|
            && counts.hits + counts.misses == |addresses|
  {
    hide Hitting, Count, Locate;
    var addresses := Touched(commands);
    AccessesAre(commands, setBits, blockBits);
    HitsAre(addresses, |addresses|, setBits, blockBits, e);
    assert addresses[..|addresses|] == addresses;
    MoreWaysMoreHits(Accesses(commands, setBits, blockBits), e);
  }
}
