// Block headers on the heap, and the two ways they are linked: the chain,
// newest first by pointer, and the free list, head first.
module BlockLists {
  import M = ArenaModel

  // struct arena_block, at its address.
  class Block {
    const addr: nat
    var link: Block?
    var cap: nat
    var used: nat
    var oversize: bool

    constructor (addr: nat, cap: nat, oversize: bool)
      ensures this.addr == addr && link == null
      ensures Value() == M.Block(addr, cap, 0, oversize)
    {
      this.addr, link, this.cap, used, this.oversize := addr, null, cap, 0, oversize;
    }

    function Value(): M.Block
      reads this`cap, this`used, this`oversize
    {
      M.Block(addr, cap, used, oversize)
    }
  }

  ghost function Values(blocks: seq<Block>): (r: seq<M.Block>)
    reads blocks`cap, blocks`used, blocks`oversize
    ensures |r| == |blocks|
  {
    if blocks == [] then [] else [blocks[0].Value()] + Values(blocks[1..])
  }

  ghost predicate AllDistinct(blocks: seq<Block>) {
    forall i, j :: 0 <= i < j < |blocks| ==> blocks[i] != blocks[j]
  }

  function Newest(blocks: seq<Block>): Block? {
    if blocks == [] then null else blocks[|blocks| - 1]
  }

  function HeadOr(blocks: seq<Block>, end: Block?): Block? {
    if blocks == [] then end else blocks[0]
  }

  // ----- values -----

  lemma {:induction false} ValuesAt(blocks: seq<Block>, i: nat)
    requires i < |blocks|
    ensures Values(blocks)[i] == blocks[i].Value()
    decreases |blocks|
  {
    if 0 < i {
      ValuesAt(blocks[1..], i - 1);
    }
  }

  lemma {:induction false} ValuesConcat(xs: seq<Block>, ys: seq<Block>)
    ensures Values(xs + ys) == Values(xs) + Values(ys)
    decreases |xs|
  {
    if xs == [] {
      assert xs + ys == ys;
    } else {
      assert (xs + ys)[1..] == xs[1..] + ys;
      ValuesConcat(xs[1..], ys);
    }
  }

  lemma ValuesSingle(b: Block)
    ensures Values([b]) == [b.Value()]
  {
    assert [b][1..] == [];
  }

  lemma ValuesPush(blocks: seq<Block>, b: Block)
    ensures Values(blocks + [b]) == Values(blocks) + [b.Value()]
    ensures Values([b] + blocks) == [b.Value()] + Values(blocks)
  {
    ValuesConcat(blocks, [b]);
    ValuesConcat([b], blocks);
    ValuesSingle(b);
  }

  lemma ValuesPop(blocks: seq<Block>)
    requires blocks != []
    ensures Values(blocks) == Values(M.Front(blocks)) + [M.Last(blocks).Value()]
  {
    assert blocks == M.Front(blocks) + [M.Last(blocks)];
    ValuesPush(M.Front(blocks), M.Last(blocks));
  }

  lemma Resplit<T>(all: seq<T>, i: nat)
    requires i < |all|
    ensures all == all[..i] + ([all[i]] + all[i + 1..])
  {
  }

  lemma SplitAt<T>(all: seq<T>, before: seq<T>, x: T, after: seq<T>)
    requires all == before + ([x] + after)
    ensures all[..|before|] == before && all[|before|] == x && all[|before| + 1..] == after
  {
  }

  lemma ValuesAround(before: seq<Block>, b: Block, after: seq<Block>)
    ensures var all, i := Values(before + ([b] + after)), |before|;
            all[i] == b.Value() && Values(before + after) == all[..i] + all[i + 1..]
  {
    hide Values;
    ValuesConcat(before, [b] + after);
    ValuesPush(after, b);
    ValuesConcat(before, after);
    SplitAt(Values(before + ([b] + after)), Values(before), b.Value(), Values(after));
  }

  lemma ValuesCut(blocks: seq<Block>, i: nat)
    requires i < |blocks|
    ensures Values(blocks[..i] + blocks[i + 1..]) == Values(blocks)[..i] + Values(blocks)[i + 1..]
    ensures Values(blocks)[i] == blocks[i].Value()
  {
    hide Values;
    var before, after := blocks[..i], blocks[i + 1..];
    Resplit(blocks, i);
    ValuesAround(before, blocks[i], after);
  }

  // ----- distinctness -----

  lemma DistinctAround(xs: seq<Block>, b: Block, ys: seq<Block>)
    ensures AllDistinct(xs + [b] + ys) <==> AllDistinct(xs + ys) && b !in xs && b !in ys
  {
    var all, rest := xs + [b] + ys, xs + ys;
    if AllDistinct(all) {
      assert all[|xs|] == b;
      forall i, j | 0 <= i < j < |rest| ensures rest[i] != rest[j] {
        assert rest[i] == all[if i < |xs| then i else i + 1];
        assert rest[j] == all[if j < |xs| then j else j + 1];
      }
      forall i | 0 <= i < |ys| ensures ys[i] != b {
        assert ys[i] == all[|xs| + 1 + i];
      }
      forall i | 0 <= i < |xs| ensures xs[i] != b {
        assert xs[i] == all[i];
      }
    }
    if AllDistinct(rest) && b !in xs && b !in ys {
      forall i, j | 0 <= i < j < |all| ensures all[i] != all[j] {
        if i != |xs| && j != |xs| {
          assert all[i] == rest[if i < |xs| then i else i - 1];
          assert all[j] == rest[if j < |xs| then j else j - 1];
        }
      }
    }
  }

  // ----- links -----

  // Oldest first: each block links to the one before it.
  ghost predicate Chained(blocks: seq<Block>)
    reads blocks`link
    decreases |blocks|
  {
    blocks == [] || (M.Last(blocks).link == Newest(M.Front(blocks)) && Chained(M.Front(blocks)))
  }

  // Head first: each block links to the one after it, the last to end.
  ghost predicate Linked(blocks: seq<Block>, end: Block?)
    reads blocks`link
    decreases |blocks|
  {
    blocks == [] || (blocks[0].link == HeadOr(blocks[1..], end) && Linked(blocks[1..], end))
  }

  lemma NoBlocks()
    ensures Values([]) == [] && Chained([]) && Linked([], null) && AllDistinct([] + [])
  {
  }

  lemma OneBlock(b: Block)
    requires b.link == null
    ensures Values([b]) == [b.Value()] && Chained([b]) && AllDistinct([b] + [])
  {
    ValuesSingle(b);
    assert M.Front([b]) == [];
  }

  lemma ChainedPush(blocks: seq<Block>, b: Block)
    requires Chained(blocks) && b.link == Newest(blocks)
    ensures Chained(blocks + [b])
  {
    assert M.Front(blocks + [b]) == blocks;
  }

  lemma {:induction false} ChainedAt(blocks: seq<Block>, i: nat)
    requires Chained(blocks) && i < |blocks|
    ensures blocks[i].link == Newest(blocks[..i])
    decreases |blocks|
  {
    if i < |blocks| - 1 {
      ChainedAt(M.Front(blocks), i);
      assert M.Front(blocks)[..i] == blocks[..i];
    }
  }

  lemma {:induction false} LinkedConcat(xs: seq<Block>, ys: seq<Block>, end: Block?)
    ensures Linked(xs + ys, end) <==> Linked(xs, HeadOr(ys, end)) && Linked(ys, end)
    decreases |xs|
  {
    if xs == [] {
      assert xs + ys == ys;
    } else {
      assert (xs + ys)[1..] == xs[1..] + ys;
      LinkedConcat(xs[1..], ys, end);
    }
  }

  lemma LinkedSingle(b: Block, end: Block?)
    ensures Linked([b], end) <==> b.link == end
  {
    assert [b][1..] == [];
  }

  lemma ListTail(blocks: seq<Block>, end: Block?)
    requires Linked(blocks, end) && blocks != []
    ensures Linked(blocks[1..], end) && blocks[0].link == HeadOr(blocks[1..], end)
    ensures Values(blocks) != [] && Values(blocks)[0] == blocks[0].Value() && Values(blocks)[1..] == Values(blocks[1..])
  {
  }

  lemma LinkedAt(blocks: seq<Block>, i: nat, end: Block?)
    requires Linked(blocks, end) && i < |blocks|
    ensures blocks[i].link == HeadOr(blocks[i + 1..], end)
    ensures Linked(blocks[..i], blocks[i]) && Linked(blocks[i + 1..], end)
  {
    var before, after := blocks[..i], blocks[i + 1..];
    Resplit(blocks, i);
    LinkedConcat(before, [blocks[i]] + after, end);
    LinkedConcat([blocks[i]], after, end);
    LinkedSingle(blocks[i], HeadOr(after, end));
  }

  lemma LinkedJoin(before: seq<Block>, b: Block, after: seq<Block>)
    requires Linked(before, b) && b.link == HeadOr(after, null) && Linked(after, null)
    ensures Linked(before + [b] + after, null)
  {
    LinkedSingle(b, HeadOr(after, null));
    LinkedConcat([b], after, null);
    LinkedConcat(before, [b] + after, null);
    assert before + ([b] + after) == before + [b] + after;
  }

  // ----- the chain newest first -----

  lemma {:induction false} ReverseValues(blocks: seq<Block>)
    ensures Values(M.Reverse(blocks)) == M.Reverse(Values(blocks))
    decreases |blocks|
  {
    hide Values;
    if blocks == [] {
      NoBlocks();
    } else {
      ValuesPop(blocks);
      ValuesPush(M.Reverse(M.Front(blocks)), M.Last(blocks));
      ReverseValues(M.Front(blocks));
    }
  }

  lemma {:induction false} ReverseLinked(blocks: seq<Block>)
    requires Chained(blocks)
    ensures Linked(M.Reverse(blocks), null) && HeadOr(M.Reverse(blocks), null) == Newest(blocks)
    decreases |blocks|
  {
    if blocks != [] {
      var rest := M.Reverse(M.Front(blocks));
      ReverseLinked(M.Front(blocks));
      LinkedSingle(M.Last(blocks), HeadOr(rest, null));
      LinkedConcat([M.Last(blocks)], rest, null);
    }
  }

  lemma DistinctPrefix(xs: seq<Block>, ys: seq<Block>)
    requires AllDistinct(xs + ys)
    ensures AllDistinct(xs + [])
  {
    forall i, j | 0 <= i < j < |xs + []| ensures (xs + [])[i] != (xs + [])[j] {
      assert (xs + ys)[i] == xs[i] && (xs + ys)[j] == xs[j];
    }
  }
}
