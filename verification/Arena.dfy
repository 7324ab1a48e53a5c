// The arena as the program holds it: block headers linked by pointers, fields
// updated in place. Every method is proved to do to these objects what the
// functions of ArenaModel do to values.
module ArenaHeap {
  import opened Arithmetic
  import opened Machine
  import opened WordBits
  import opened ArenaSound
  import opened ArenaRuns
  import opened BlockLists
  import M = ArenaModel
  import ArenaAlloc

  // The parent allocator. It may refuse at any time; a range it hands out
  // meets nothing it has outstanding.
  class Parent {
    var outstanding: Ledger
    ghost var log: seq<M.Call>

    constructor ()
      ensures outstanding == multiset{} && log == []
    {
      outstanding, log := multiset{}, [];
    }

    method Acquire(size: nat) returns (reply: nat)
      modifies this
      ensures log == old(log) + [M.Acquire(size, reply)]
      ensures outstanding == SettleAll(old(outstanding), [M.Acquire(size, reply)])
      ensures Honest(old(outstanding), [M.Acquire(size, reply)])
    {
      reply := *;
      if reply == M.NULL || reply + size > MODULUS ||
         exists e :: e in outstanding && e.0 + e.1 > reply && reply + size > e.0 {
        reply := M.NULL;
        OneRefusal(outstanding, size);
      } else {
        OneAcquire(outstanding, size, reply);
        outstanding := outstanding + multiset{(reply, size)};
      }
      log := log + [M.Acquire(size, reply)];
      assert [M.Acquire(size, reply)][1..] == [];
    }

    method Release(addr: nat, size: nat)
      requires (addr, size) in outstanding
      modifies this
      ensures log == old(log) + [M.Release(addr, size)]
      ensures outstanding == SettleAll(old(outstanding), [M.Release(addr, size)])
      ensures Honest(old(outstanding), [M.Release(addr, size)])
    {
      OneRelease(outstanding, addr, size);
      outstanding := outstanding - multiset{(addr, size)};
      log := log + [M.Release(addr, size)];
    }
  }

  // The bytes of the address space.
  class Bytes {
    var cells: Memory

    constructor (cells: Memory) {
      this.cells := cells;
    }

    // The source is read before the target is written: memcpy, where the ranges
    // are apart.
    method Copy(to: nat, from: nat, count: nat)
      modifies this
      ensures cells == Store(old(cells), to, Load(old(cells), from, count))
    {
      cells := Store(cells, to, Load(cells, from, count));
    }

    method Put(to: nat, bytes: seq<Byte>)
      modifies this
      ensures cells == Store(old(cells), to, bytes)
    {
      cells := Store(cells, to, bytes);
    }
  }

  function AddressOf(block: Block?): nat {
    if block == null then M.NULL else block.addr
  }

  // A snapshot as the caller holds it.
  datatype Temp = Temp(block: Block?, blockUsed: nat, used: int, generation: nat, depth: nat) {
    function View(): M.Temp {
      M.Temp(AddressOf(block), blockUsed, used, generation, depth)
    }
  }

  function Zeros(count: nat): seq<Byte> {
    seq(count, _ => 0)
  }

  class Arena {
    const parent: Parent
    const bytes: Bytes
    const redzone: nat
    var current: Block?
    var freeBlocks: Block?
    var minBlock: nat
    var maxBlock: nat
    var nextBlock: nat
    var used: int
    var committed: int
    var highWater: int
    var tempDepth: nat
    var generation: nat
    var fixed: bool
    var status: M.Status
    ghost var chain: seq<Block>
    ghost var free: seq<Block>

    // The value these objects stand for.
    ghost function View(): M.Arena
      reads this`fixed, this`chain, this`free, this`minBlock, this`maxBlock, this`nextBlock, this`used
      reads this`committed, this`highWater, this`tempDepth, this`generation, this`status
      reads chain`cap, chain`used, chain`oversize, free`cap, free`used, free`oversize
    {
      M.Arena(redzone, fixed, Values(chain), Values(free), minBlock, maxBlock, nextBlock,
              used, committed, highWater, tempDepth, generation, status)
    }

    // The lists are well linked and no block is in them twice.
    ghost predicate Lists()
      reads this`chain, this`free, this`freeBlocks, chain`link, free`link
    {
      && Chained(chain) && Linked(free, null) && freeBlocks == HeadOr(free, null)
      && AllDistinct(chain + free)
    }

    ghost predicate Structure()
      reads this`chain, this`free, this`current, this`freeBlocks, chain`link, free`link
    {
      Lists() && current == Newest(chain)
    }

    ghost predicate Valid()
      reads this, parent, chain, free
    {
      Structure() && Sound(View(), parent.outstanding)
    }

    // No block enters the lists except from them or from the heap.
    twostate predicate OwnBlocks()
      reads this
    {
      && (forall i :: 0 <= i < |chain| ==> chain[i] in old(chain) || chain[i] in old(free) || fresh(chain[i]))
      && (forall i :: 0 <= i < |free| ==> free[i] in old(chain) || free[i] in old(free) || fresh(free[i]))
    }

    // The arena and its parent are what the outcome says.
    twostate predicate Follows(o: M.Outcome)
      reads this, parent, chain, free
    {
      && View() == o.arena && OwnBlocks()
      && parent.log == old(parent.log) + o.calls
      && parent.outstanding == SettleAll(old(parent.outstanding), o.calls)
      && Honest(old(parent.outstanding), o.calls)
    }

    constructor (redzone: nat, parent: Parent, bytes: Bytes)
      requires redzone == 0 || redzone == M.ASAN_REDZONE
      requires parent.outstanding == multiset{}
      ensures Valid() && View() == M.Init(redzone)
      ensures this.parent == parent && this.bytes == bytes
    {
      this.redzone, this.parent, this.bytes := redzone, parent, bytes;
      new;
      Initialize();
      InitIsValid(0, 0);
    }

    // arena_init_sized; the status it returns is the one it leaves.
    constructor Sized(redzone: nat, parent: Parent, bytes: Bytes, minBlock: Size, maxBlock: Size)
      requires redzone == 0 || redzone == M.ASAN_REDZONE
      requires parent.outstanding == multiset{}
      ensures Valid() && View() == M.InitSized(redzone, minBlock, maxBlock)
      ensures this.parent == parent && this.bytes == bytes
    {
      this.redzone, this.parent, this.bytes := redzone, parent, bytes;
      new;
      hide Sound, Structure;
      Initialize();
      if minBlock < M.FIXED_OVERHEAD || minBlock > maxBlock || maxBlock > PTRDIFF_MAX {
        Fail(M.ErrArg);
      } else {
        this.minBlock, this.maxBlock, nextBlock := minBlock, maxBlock, minBlock;
      }
      InitIsValid(minBlock, maxBlock);
    }

    // arena_init_fixed, over the caller's bytes [buffer, buffer + size).
    constructor Fixed(redzone: nat, parent: Parent, bytes: Bytes, buffer: nat, size: Size)
      requires redzone == 0 || redzone == M.ASAN_REDZONE
      requires parent.outstanding == multiset{}
      requires buffer + size <= MODULUS
      ensures Valid() && View() == M.InitFixed(redzone, buffer, size)
      ensures this.parent == parent && this.bytes == bytes && (current != null ==> fresh(current))
    {
      this.redzone, this.parent, this.bytes := redzone, parent, bytes;
      new;
      Initialize();
      AdoptBuffer(buffer, size);
      FixedIsValid(buffer, size);
    }

    lemma InitIsValid(minBlock: Size, maxBlock: Size)
      requires redzone == 0 || redzone == M.ASAN_REDZONE
      requires Structure() && parent.outstanding == multiset{}
      requires View() == M.Init(redzone) || View() == M.InitSized(redzone, minBlock, maxBlock)
      ensures Valid()
    {
      hide Sound;
      InitIsSound(redzone, minBlock, maxBlock);
    }

    lemma FixedIsValid(buffer: nat, size: Size)
      requires redzone == 0 || redzone == M.ASAN_REDZONE
      requires Structure() && parent.outstanding == multiset{} && buffer + size <= MODULUS
      requires View() == M.InitFixed(redzone, buffer, size)
      ensures Valid()
    {
      hide Sound;
      InitFixedIsSound(redzone, buffer, size);
    }

    method AdoptBuffer(buffer: nat, size: Size)
      requires View() == M.Init(redzone) && Structure() && chain == [] && free == [] && current == null
      modifies this
      ensures View() == M.InitFixed(redzone, buffer, size) && Structure()
      ensures current != null ==> fresh(current)
    {
      hide Values, Chained, Linked, AllDistinct, Padding, Structure;
      fixed, minBlock, maxBlock, nextBlock := true, 0, 0, 0;
      if buffer == M.NULL || size == 0 {
        status := M.ErrArg;
      } else if size > PTRDIFF_MAX {
        status := M.ErrOverflow;
      } else {
        committed := size;
        var pad := Padding(buffer, M.BLOCK_ALIGN);
        if pad <= size && M.HEADER <= size - pad {
          AdoptBlock(buffer + pad, size - pad - M.HEADER);
        }
      }
    }

    method AdoptBlock(addr: nat, cap: nat)
      requires Structure() && chain == [] && free == []
      modifies this`current, this`chain
      ensures Structure() && fresh(current) && free == []
      ensures View() == old(View()).(chain := [M.Block(addr, cap, 0, false)])
    {
      hide Values, Chained, Linked, AllDistinct;
      var block := new Block(addr, cap, false);
      current, chain := block, [block];
      OneBlock(block);
    }

    method ClearCounters()
      modifies this
      ensures var a := M.Init(redzone); View() == a.(chain := View().chain, free := View().free)
    {
      hide Values;
      minBlock, maxBlock, nextBlock := M.MIN_BLOCK_DEFAULT, M.MAX_BLOCK_DEFAULT, M.MIN_BLOCK_DEFAULT;
      used, committed, highWater, tempDepth, generation := 0, 0, 0, 0, 0;
      fixed, status := false, M.Ok;
    }

    // arena_init
    method Initialize()
      modifies this
      ensures Structure() && current == null && chain == [] && free == []
      ensures View() == M.Init(redzone)
    {
      hide Values, Chained, Linked, AllDistinct;
      ClearCounters();
      current, freeBlocks, chain, free := null, null, [], [];
      NoBlocks();
    }

    method Fail(failure: M.Status)
      modifies this`status
      ensures View() == M.Fail(old(View()), failure).arena
    {
      if status == M.Ok {
        status := failure;
      }
    }

    // A recorded refusal leaves the arena valid.
    method Refuse(failure: M.Status)
      requires Valid()
      modifies this`status
      ensures Valid() && Follows(M.Fail(old(View()), failure))
    {
      hide Values, AllDistinct, Chained, Linked, Sound, SettleAll, Honest;
      NoCalls(parent.outstanding);
      Fail(failure);
      RefusalStaysValid(old(View()), failure);
    }

    lemma RefusalStaysValid(before: M.Arena, failure: M.Status)
      requires Sound(before, parent.outstanding) && Structure() && View() == M.Fail(before, failure).arena
      ensures Valid()
    {
    }

    // ----- allocation -----

    // The newest block is not elsewhere in the lists.
    lemma NewestApart()
      requires AllDistinct(chain + free) && chain != []
      ensures M.Last(chain) !in M.Front(chain) && M.Last(chain) !in free
      ensures AllDistinct(M.Front(chain) + free)
      ensures Values(chain) == Values(M.Front(chain)) + [M.Last(chain).Value()]
    {
      hide AllDistinct, Values;
      assert chain + free == M.Front(chain) + [M.Last(chain)] + free;
      DistinctAround(M.Front(chain), M.Last(chain), free);
      ValuesPop(chain);
    }

    // block->used = to, for the block at the top.
    method SetCursor(to: nat)
      requires Structure() && current != null
      modifies chain`used
      ensures Structure() && View() == M.WithLastUsed(old(View()), to)
      ensures M.Last(old(View()).chain) == old(current.Value())
    {
      hide Values, AllDistinct, Chained, Linked;
      NewestApart();
      current.used := to;
      NewestApart();
    }

    // Count bytes as used, and remember the highest count.
    method Spend(bytes: nat)
      modifies this`used, this`highWater
      ensures used == old(used) + bytes
      ensures View() == old(View()).(used := old(used) + bytes, highWater := Max(old(highWater), old(used) + bytes))
    {
      used := used + bytes;
      if used > highWater {
        highWater := used;
      }
    }

    lemma NewestValue()
      requires Structure()
      ensures current == null <==> View().chain == []
      ensures current != null ==> M.Last(View().chain) == current.Value()
    {
      hide Values;
      if chain != [] {
        ValuesPop(chain);
      }
    }

    method TryBump(size: nat, align: nat) returns (ptr: nat)
      requires Structure() && redzone <= M.ASAN_REDZONE
      requires size <= PTRDIFF_MAX && 0 < align && IsServedAlign(align)
      modifies this`used, this`highWater, chain`used
      ensures Structure()
      ensures var o := M.Bump(old(View()), size, align); View() == o.arena && ptr == o.ptr
    {
      hide Padding, Values, AllDistinct, Chained, Linked, M.WithLastUsed, M.Front;
      var block := current;
      if block == null {
        return M.NULL;
      }
      NewestValue();
      var cursor := block.addr + M.HEADER + block.used;
      var pad := Padding(cursor, align);
      PaddingIsBelow(cursor, align);
      var total: Size := size + redzone;
      var taken: Size := pad + total;
      if taken > block.cap - block.used {
        return M.NULL;
      }
      SetCursor(block.used + taken);
      Spend(taken);
      ptr := cursor + pad;
    }

    lemma FitsFrom(values: seq<M.Block>, i: nat, need: nat)
      requires i < |values|
      ensures M.FirstFit(values[i..], need)
           == if values[i].cap >= need then 0 else 1 + M.FirstFit(values[i + 1..], need)
    {
      assert values[i..][1..] == values[i + 1..];
    }

    lemma NoneFits(values: seq<M.Block>, need: nat)
      ensures M.FirstFit(values[0..], need) == M.FirstFit(values, need)
      ensures M.FirstFit(values[|values|..], need) == 0
    {
      assert values[0..] == values;
    }

    // First fit: the block found, and the one whose link leads to it.
    method FindFit(need: nat) returns (before: Block?, block: Block?, ghost i: nat)
      requires Structure()
      ensures var fit := M.FirstFit(View().free, need);
              i == fit && block == HeadOr(free[fit..], null) && before == Newest(free[..fit])
    {
      hide Values, AllDistinct, Chained, Linked, M.FirstFit;
      before, block, i := null, freeBlocks, 0;
      NoneFits(Values(free), need);
      while block != null
        invariant i <= |free| && block == HeadOr(free[i..], null)
        invariant before == Newest(free[..i])
        invariant M.FirstFit(Values(free), need) == i + M.FirstFit(Values(free)[i..], need)
        decreases |free| - i
      {
        ValuesAt(free, i);
        LinkedAt(free, i, null);
        FitsFrom(Values(free), i, need);
        if block.cap >= need {
          return;
        }
        assert free[i..][0] == block && free[..i + 1] == free[..i] + [block];
        before, block := block, block.link;
        i := i + 1;
      }
    }

    // First fit over the free list; the block leaves the list.
    method TakeFreeBlock(need: nat) returns (block: Block?)
      requires Structure()
      modifies this`freeBlocks, this`free, free`link
      ensures Structure() && chain == old(chain)
      ensures var i := M.FirstFit(old(View()).free, need);
              if i == |old(free)| then block == null && View() == old(View()) && free == old(free)
              else && block == old(free[i]) && free == old(free[..i] + free[i + 1..])
                   && View() == M.WithoutFree(old(View()), i) && AllDistinct(chain + [block] + free)
    {
      hide Values, AllDistinct, Chained, Linked, M.FirstFit;
      var before;
      ghost var i;
      before, block, i := FindFit(need);
      if block != null {
        Unlink(before, block, i);
      }
    }

    // The lists around block i are linked, and without it share no block.
    lemma BlockApart(i: nat)
      requires Structure() && i < |free|
      ensures var before, after := free[..i], free[i + 1..];
              && AllDistinct(chain + (before + after)) && AllDistinct(chain + [free[i]] + (before + after))
              && free[i].link == HeadOr(after, null)
              && Linked(before, free[i]) && Linked(after, null)
    {
      hide AllDistinct, Chained, Linked;
      var before, after := free[..i], free[i + 1..];
      LinkedAt(free, i, null);
      Resplit(free, i);
      assert chain + free == (chain + before) + [free[i]] + after;
      DistinctAround(chain + before, free[i], after);
      assert chain + before + after == chain + (before + after);
      DistinctAround(chain, free[i], before + after);
    }

    // The same for the block before it, which takes over its link.
    lemma PredecessorApart(first: seq<Block>, p: Block, after: seq<Block>)
      requires AllDistinct(chain + (first + [p] + after))
      ensures p !in first && p !in after && p !in chain
    {
      hide AllDistinct;
      assert chain + (first + [p] + after) == (chain + first) + [p] + after;
      DistinctAround(chain + first, p, after);
    }

    // *linkp = block->link
    method Unlink(before: Block?, block: Block, ghost i: nat)
      requires Structure() && i < |free| && before == Newest(free[..i]) && block == free[i]
      modifies this`freeBlocks, this`free, free`link
      ensures Structure() && chain == old(chain) && free == old(free[..i] + free[i + 1..])
      ensures View() == M.WithoutFree(old(View()), i) && AllDistinct(chain + [block] + free)
    {
      hide Values, AllDistinct, Chained, Linked;
      ghost var rest := free[..i] + free[i + 1..];
      ValuesCut(free, i);
      BlockApart(i);
      if before == null {
        freeBlocks := block.link;
        assert rest == free[i + 1..];
      } else {
        ghost var first := free[..i - 1];
        assert free[..i] == first + [before];
        PredecessorApart(first, before, free[i + 1..]);
        LinkedAt(free[..i], i - 1, block);
        assert free[..i][..i - 1] == first;
        before.link := block.link;
        LinkedJoin(first, before, free[i + 1..]);
      }
      free := rest;
    }

    method NewBlock(need: nat) returns (block: Block?, ghost reply: nat)
      requires M.HEADER <= nextBlock <= PTRDIFF_MAX && need <= PTRDIFF_MAX - M.HEADER
      modifies this`status, this`nextBlock, this`committed, parent
      ensures block == null <==> reply == M.NULL
      ensures parent.log == old(parent.log) + [M.Acquire(M.RequestSize(old(View()), need), reply)]
      ensures parent.outstanding
           == SettleAll(old(parent.outstanding), [M.Acquire(M.RequestSize(old(View()), need), reply)])
      ensures Honest(old(parent.outstanding), [M.Acquire(M.RequestSize(old(View()), need), reply)])
      ensures block == null ==> View() == M.Fail(old(View()), M.ErrAlloc).arena
      ensures block != null ==>
                && fresh(block) && block.Value() == M.NewBlock(old(View()), need, reply)
                && View() == M.Acquired(old(View()), block.Value(), M.RequestSize(old(View()), need))
    {
      hide Values, SettleAll, Honest;
      var target := nextBlock;
      var blockSize: Size;
      if M.HEADER + need <= target {
        blockSize := target;
      } else {
        blockSize := M.HEADER + need;
      }
      var place := parent.Acquire(blockSize);
      reply := place;
      if place == M.NULL {
        Fail(M.ErrAlloc);
        block := null;
      } else {
        block := new Block(place, blockSize - M.HEADER, blockSize != target);
        if !block.oversize {
          var doubled: Size := target * 2;
          nextBlock := if doubled > maxBlock then maxBlock else doubled;
        }
        committed := committed + blockSize;
      }
    }

    // The new top of the chain.
    method Enter(block: Block)
      requires Structure() && AllDistinct(chain + [block] + free)
      modifies this`current, this`chain, block`link
      ensures Structure() && chain == old(chain) + [block] && free == old(free)
      ensures View() == M.Enter(old(View()), old(block.Value()))
    {
      hide Values, AllDistinct, Chained, Linked;
      DistinctAround(chain, block, free);
      ValuesPush(chain, block);
      block.link := current;
      ChainedPush(chain, block);
      current := block;
      chain := chain + [block];
    }

    lemma GrowingBlockSize()
      requires Valid()
      ensures redzone <= M.ASAN_REDZONE && (!fixed ==> M.HEADER <= nextBlock <= PTRDIFF_MAX)
    {
    }

    lemma BumpAsksNothing(a: M.Arena, size: nat, align: nat)
      requires 0 < align
      ensures M.Bump(a, size, align).calls == []
    {
    }

    // A block of at least need bytes, from the free list or from the parent.
    method Capacity(need: nat) returns (block: Block?, ghost reply: nat, ghost calls: seq<M.Call>)
      requires Structure() && M.HEADER <= nextBlock <= PTRDIFF_MAX && need <= PTRDIFF_MAX - M.HEADER
      modifies this, parent, free`link
      ensures Structure() && chain == old(chain)
      ensures forall i :: 0 <= i < |free| ==> free[i] in old(free)
      ensures parent.log == old(parent.log) + calls
      ensures parent.outstanding == SettleAll(old(parent.outstanding), calls)
      ensures Honest(old(parent.outstanding), calls)
      ensures var a := old(View()); var i, request := M.FirstFit(a.free, need), M.RequestSize(a, need);
              if i < |a.free| then
                && block != null && block in old(free) && calls == [] && block.Value() == a.free[i]
                && View() == M.WithoutFree(a, i)
              else
                && calls == [M.Acquire(request, reply)] && (block == null <==> reply == M.NULL)
                && if block == null then View() == M.Fail(a, M.ErrAlloc).arena
                   else && fresh(block) && block.Value() == M.NewBlock(a, need, reply)
                        && View() == M.Acquired(a, block.Value(), request)
      ensures block != null ==> AllDistinct(chain + [block] + free)
    {
      hide Values, AllDistinct, Chained, Linked, SettleAll, Honest, M.FirstFit;
      reply, calls := 0, [];
      NoCalls(parent.outstanding);
      ValuesOfFree();
      block := TakeFreeBlock(need);
      if block == null {
        block, reply := NewBlock(need);
        calls := [M.Acquire(M.RequestSize(old(View()), need), reply)];
        if block != null {
          DistinctAround(chain, block, free);
        }
      }
    }

    lemma ValuesOfFree()
      ensures forall i :: 0 <= i < |free| ==> Values(free)[i] == free[i].Value()
    {
      forall i | 0 <= i < |free| ensures Values(free)[i] == free[i].Value() {
        ValuesAt(free, i);
      }
    }

    lemma GrowthIsRefused(a: M.Arena, size: nat, align: nat)
      requires 0 < align
      ensures a.fixed ==> forall reply :: M.GrowAndBump(a, size, align, reply) == M.Fail(a, M.ErrAlloc)
      ensures !a.fixed && M.WorstCase(a, size, align) > PTRDIFF_MAX - M.HEADER ==>
                forall reply :: M.GrowAndBump(a, size, align, reply) == M.Fail(a, M.ErrOverflow)
    {
    }

    // With a block in hand, growing is entering it and bumping.
    lemma GrowthIsBump(a: M.Arena, size: nat, align: nat, reply: nat)
      requires 0 < align && !a.fixed && M.WorstCase(a, size, align) <= PTRDIFF_MAX - M.HEADER
      ensures var o, need := M.GrowAndBump(a, size, align, reply), M.WorstCase(a, size, align);
              var bumped := M.Bump(ArenaAlloc.Entered(a, size, align, reply), size, align);
              var request := [M.Acquire(M.RequestSize(a, need), reply)];
              if M.FirstFit(a.free, need) < |a.free| then o == bumped && o.calls == []
              else if reply == M.NULL then o == M.Fail(a, M.ErrAlloc).(calls := request)
              else o == bumped.(calls := request)
    {
      hide M.Bump, M.FirstFit;
      BumpAsksNothing(ArenaAlloc.Entered(a, size, align, reply), size, align);
    }

    lemma SecondBumpServes(a: M.Arena, out: Ledger, size: nat, align: nat, reply: nat)
      requires Sound(a, out) && 0 < align && IsServedAlign(align) && 0 < size
      requires Honest(out, M.GrowAndBump(a, size, align, reply).calls)
      requires !a.fixed && M.WorstCase(a, size, align) <= PTRDIFF_MAX - M.HEADER
      requires M.FirstFit(a.free, M.WorstCase(a, size, align)) < |a.free| || reply != M.NULL
      ensures M.GrowAndBump(a, size, align, reply).ptr != M.NULL
    {
      hide Sound, Honest;
      ArenaAlloc.GrowthServes(a, out, size, align, reply);
    }

    // Acquire capacity and serve from it: the second bump cannot fail.
    method GrowAndBump(size: nat, align: nat) returns (ptr: nat, ghost reply: nat)
      requires Valid() && 0 < size <= PTRDIFF_MAX && 0 < align && IsServedAlign(align)
      modifies this, parent, chain, free
      ensures Structure()
      ensures old(chain) <= chain
      ensures var o := M.GrowAndBump(old(View()), size, align, reply); Follows(o) && ptr == o.ptr
    {
      hide Values, AllDistinct, Chained, Linked, SettleAll, Honest, M.Bump, M.FirstFit, Sound, M.GrowAndBump,
        M.RequestSize, M.NewBlock, M.Acquired, M.WithoutFree, M.Enter;
      ghost var before, out := View(), parent.outstanding;
      reply := 0;
      GrowthIsRefused(before, size, align);
      NoCalls(out);
      GrowingBlockSize();
      if fixed {
        Fail(M.ErrAlloc);
        return M.NULL, reply;
      }
      var need: Size := size + (align - 1) + redzone;
      if need > PTRDIFF_MAX - M.HEADER {
        Fail(M.ErrOverflow);
        return M.NULL, reply;
      }
      var block;
      ghost var calls;
      block, reply, calls := Capacity(need);
      GrowthIsBump(before, size, align, reply);
      if block == null {
        return M.NULL, reply;
      }
      Enter(block);
      ptr := TryBump(size, align);
      SecondBumpServes(before, out, size, align, reply);
      assert ptr != M.NULL;
    }

    method AllocCore(size: nat, align: nat) returns (ptr: nat, ghost reply: nat)
      requires Valid() && 0 < size <= PTRDIFF_MAX && 0 < align && IsServedAlign(align)
      modifies this, parent, chain, free
      ensures Structure()
      ensures old(chain) <= chain
      ensures var o := M.AllocCore(old(View()), size, align, reply); Follows(o) && ptr == o.ptr
    {
      hide Values, AllDistinct, Chained, Linked, SettleAll, Honest, Sound;
      reply := 0;
      NoCalls(parent.outstanding);
      GrowingBlockSize();
      ptr := TryBump(size, align);
      if ptr == M.NULL {
        ptr, reply := GrowAndBump(size, align);
      }
    }

    // What a call leaves is valid, because the operation keeps arenas sound.
    lemma AllocNStaysValid(before: M.Arena, out: Ledger, count: Size, size: Size, align: Size, reply: nat)
      requires Sound(before, out) && Structure()
      requires var o := M.AllocN(before, count, size, align, reply);
               && View() == o.arena && parent.outstanding == SettleAll(out, o.calls) && Honest(out, o.calls)
      ensures Valid()
    {
      hide M.AllocN, Sound, Honest, Dutiful, SettleAll, Structure;
      AllocNKeepsSound(before, out, count, size, align, reply);
    }

    method AllocN(count: Size, size: Size, align: Size) returns (ptr: nat, ghost reply: nat)
      requires Valid()
      modifies this, parent, chain, free
      ensures Valid()
      ensures old(chain) <= chain
      ensures var o := M.AllocN(old(View()), count, size, align, reply); Follows(o) && ptr == o.ptr
    {
      ptr, reply := AllocImpl(count, size, align);
      AllocNStaysValid(old(View()), old(parent.outstanding), count, size, align, reply);
    }

    method AllocImpl(count: Size, size: Size, align: Size) returns (ptr: nat, ghost reply: nat)
      requires Valid()
      modifies this, parent, chain, free
      ensures Structure()
      ensures old(chain) <= chain
      ensures var o := M.AllocN(old(View()), count, size, align, reply); Follows(o) && ptr == o.ptr
    {
      hide Values, AllDistinct, Chained, Linked, SettleAll, Honest, Sound, M.AllocCore, AlignValid, ProductGuard;
      ptr, reply := M.NULL, 0;
      NoCalls(parent.outstanding);
      if status != M.Ok {
        return;
      }
      if !AlignValid(align) {
        Fail(M.ErrArg);
        return;
      }
      if count == 0 || size == 0 {
        return;
      }
      CheckedProductMeaning(count, size);
      if ProductGuard(count, size) {
        Fail(M.ErrOverflow);
        return;
      }
      var total := (count * size) % MODULUS;
      if total > PTRDIFF_MAX {
        Fail(M.ErrOverflow);
        return;
      }
      ArenaAlloc.EffectiveAlignIsServed(redzone, align);
      ptr, reply := AllocCore(total, M.EffectiveAlign(redzone, align));
    }

    // arena_alloc: one object of the default alignment, by a shorter path.
    method Alloc(size: Size) returns (ptr: nat, ghost reply: nat)
      requires Valid()
      modifies this, parent, chain, free
      ensures Valid()
      ensures old(chain) <= chain
      ensures var o := M.AllocN(old(View()), 1, size, 0, reply); Follows(o) && ptr == o.ptr
    {
      ptr, reply := AllocDefault(size);
      AllocNStaysValid(old(View()), old(parent.outstanding), 1, size, 0, reply);
    }

    method AllocDefault(size: Size) returns (ptr: nat, ghost reply: nat)
      requires Valid()
      modifies this, parent, chain, free
      ensures Structure()
      ensures old(chain) <= chain
      ensures var o := M.AllocN(old(View()), 1, size, 0, reply); Follows(o) && ptr == o.ptr
    {
      hide Values, AllDistinct, Chained, Linked, SettleAll, Honest, Sound, M.AllocCore, AlignValid, CheckedProduct;
      ptr, reply := M.NULL, 0;
      NoCalls(parent.outstanding);
      AlignValidMeaning(0);
      if status != M.Ok || size == 0 {
        return;
      }
      CheckedProductMeaning(1, size);
      if size > PTRDIFF_MAX {
        Fail(M.ErrOverflow);
        return;
      }
      ArenaAlloc.EffectiveAlignIsServed(redzone, 0);
      ptr, reply := AllocCore(size, M.EffectiveAlign(redzone, 0));
    }

    method AllocNZeroed(count: Size, size: Size, align: Size) returns (ptr: nat, ghost reply: nat)
      requires Valid()
      modifies this, parent, chain, free, bytes
      ensures Valid()
      ensures old(chain) <= chain
      ensures var o := M.AllocN(old(View()), count, size, align, reply); Follows(o) && ptr == o.ptr
      ensures bytes.cells == if ptr == M.NULL then old(bytes.cells)
                             else Store(old(bytes.cells), ptr, Zeros(M.Times(count, size)))
    {
      hide Valid, Follows, M.AllocN;
      ptr, reply := AllocN(count, size, align);
      if ptr != M.NULL {
        bytes.Put(ptr, Zeros(M.Times(count, size)));
      }
    }

    method Memdup(src: nat, size: Size) returns (ptr: nat, ghost reply: nat)
      requires Valid()
      modifies this, parent, chain, free, bytes
      ensures Valid()
      ensures old(chain) <= chain
      ensures var o := if old(status) == M.Ok && src == M.NULL && size != 0 then M.Fail(old(View()), M.ErrArg)
                       else M.AllocN(old(View()), 1, size, 0, reply);
              Follows(o) && ptr == o.ptr
      ensures bytes.cells == if ptr == M.NULL then old(bytes.cells)
                             else Store(old(bytes.cells), ptr, Load(old(bytes.cells), src, size))
    {
      hide Valid, Follows, M.AllocN;
      ptr, reply := M.NULL, 0;
      if status != M.Ok {
        NotServing(View(), 1, size, 0, reply);
        Unmoved();
        return;
      }
      if src == M.NULL && size != 0 {
        Refuse(M.ErrArg);
        return;
      }
      ptr, reply := Alloc(size);
      if ptr != M.NULL {
        bytes.Copy(ptr, src, size);
      }
    }

    lemma NotServing(a: M.Arena, count: Size, size: Size, align: Size, reply: nat)
      requires a.status != M.Ok
      ensures M.AllocN(a, count, size, align, reply) == M.Outcome(a, M.NULL, [])
    {
    }

    twostate lemma Unmoved()
      requires View() == old(View()) && chain == old(chain) && free == old(free)
      requires parent.log == old(parent.log) && parent.outstanding == old(parent.outstanding)
      ensures Follows(M.Outcome(View(), M.NULL, []))
    {
      NoCalls(parent.outstanding);
    }

    // ----- resizing and rollback -----

    method IsLastAlloc(ptr: nat, size: nat) returns (yes: bool, offset: nat)
      requires Structure()
      ensures yes == M.IsLastAlloc(View(), ptr, size)
      ensures yes ==> current != null && offset == ptr - (current.addr + M.HEADER)
    {
      hide Values, AllDistinct, Chained, Linked;
      yes, offset := false, 0;
      NewestValue();
      if current != null {
        var data := current.addr + M.HEADER;
        if size <= current.used && data <= ptr && ptr - data <= current.cap {
          offset := ptr - data;
          yes := offset + size + redzone == current.used;
        }
      }
    }

    method TryResizeLast(ptr: nat, oldSize: nat, newSize: nat) returns (resized: nat)
      requires Structure() && ptr != M.NULL && (current != null ==> current.used <= current.cap)
      modifies this`used, this`highWater, chain`used
      ensures Structure()
      ensures var o := M.ResizeLast(old(View()), ptr, oldSize, newSize); View() == o.arena && resized == o.ptr
    {
      hide Values, AllDistinct, Chained, Linked, M.WithLastUsed, M.Front;
      var last, offset := IsLastAlloc(ptr, oldSize);
      if !last {
        return M.NULL;
      }
      NewestValue();
      if newSize <= oldSize {
        SetCursor(current.used - (oldSize - newSize));
        used := used - (oldSize - newSize);
        return ptr;
      }
      var growth := newSize - oldSize;
      if growth > current.cap - current.used {
        return M.NULL;
      }
      SetCursor(current.used + growth);
      Spend(growth);
      return ptr;
    }

    lemma CursorInBlock()
      requires Valid()
      ensures current != null ==> current.used <= current.cap
    {
      hide Values, AllDistinct, Chained, Linked, PoolOk, Extents, Total;
      if current != null {
        NewestApart();
        LastIsOk(View(), parent.outstanding);
      }
    }

    lemma ResizeLastRefuses(a: M.Arena, ptr: nat, oldSize: nat, newSize: nat)
      requires ptr != M.NULL
      ensures var o := M.ResizeLast(a, ptr, oldSize, newSize);
              o.calls == [] && (o.ptr == ptr || (o.ptr == M.NULL && o.arena == a))
    {
    }

    // Allocate, copy what both sizes hold, abandon the old region.
    method ReallocMove(ptr: nat, oldSize: nat, newSize: Size, align: Size) returns (moved: nat, ghost reply: nat)
      requires Valid()
      modifies this, parent, chain, free, bytes
      ensures Structure()
      ensures old(chain) <= chain
      ensures var o := M.ReallocMove(old(View()), oldSize, newSize, align, reply); Follows(o) && moved == o.ptr
      ensures bytes.cells == if moved == M.NULL then old(bytes.cells)
                             else Store(old(bytes.cells), moved, Load(old(bytes.cells), ptr, Min(oldSize, newSize)))
    {
      hide Values, AllDistinct, Chained, Linked, SettleAll, Honest, Sound, M.AllocN;
      moved, reply := AllocImpl(1, newSize, align);
      if moved != M.NULL {
        bytes.Copy(moved, ptr, if oldSize < newSize then oldSize else newSize);
        used := used - oldSize;
      }
    }

    method ReallocImpl(ptr: nat, oldSize: nat, newSize: Size, align: Size) returns (resized: nat, ghost reply: nat)
      requires Valid() && (ptr == M.NULL ==> oldSize == 0)
      modifies this, parent, chain, free, bytes
      ensures Structure()
      ensures old(chain) <= chain
      ensures var o := M.Realloc(old(View()), ptr, oldSize, newSize, align, reply); Follows(o) && resized == o.ptr
      ensures bytes.cells == if resized == M.NULL || ptr == M.NULL ||
                                M.ResizeLast(old(View()), ptr, oldSize, newSize).ptr != M.NULL
                             then old(bytes.cells)
                             else Store(old(bytes.cells), resized, Load(old(bytes.cells), ptr, Min(oldSize, newSize)))
    {
      hide Values, AllDistinct, Chained, Linked, SettleAll, Honest, Sound, M.AllocN, M.ReallocMove, M.ResizeLast,
        AlignValid;
      resized, reply := M.NULL, 0;
      NoCalls(parent.outstanding);
      CursorInBlock();
      if status != M.Ok {
        return;
      }
      if !AlignValid(align) || newSize == 0 {
        Fail(M.ErrArg);
        return;
      }
      if ptr == M.NULL {
        resized, reply := AllocImpl(1, newSize, align);
        return;
      }
      if newSize > PTRDIFF_MAX {
        Fail(M.ErrOverflow);
        return;
      }
      ResizeLastRefuses(View(), ptr, oldSize, newSize);
      resized := TryResizeLast(ptr, oldSize, newSize);
      if resized == M.NULL {
        resized, reply := ReallocMove(ptr, oldSize, newSize, align);
      }
    }

    method Realloc(ptr: nat, oldSize: nat, newSize: Size, align: Size) returns (resized: nat, ghost reply: nat)
      requires Valid() && (ptr == M.NULL ==> oldSize == 0)
      modifies this, parent, chain, free, bytes
      ensures Valid()
      ensures old(chain) <= chain
      ensures var o := M.Realloc(old(View()), ptr, oldSize, newSize, align, reply); Follows(o) && resized == o.ptr
      ensures bytes.cells == if resized == M.NULL || ptr == M.NULL ||
                                M.ResizeLast(old(View()), ptr, oldSize, newSize).ptr != M.NULL
                             then old(bytes.cells)
                             else Store(old(bytes.cells), resized, Load(old(bytes.cells), ptr, Min(oldSize, newSize)))
    {
      resized, reply := ReallocImpl(ptr, oldSize, newSize, align);
      ReallocStaysValid(old(View()), old(parent.outstanding), ptr, oldSize, newSize, align, reply);
    }

    lemma ReallocStaysValid(before: M.Arena, out: Ledger, ptr: nat, oldSize: nat, newSize: Size, align: Size, reply: nat)
      requires Sound(before, out) && Structure()
      requires var o := M.Realloc(before, ptr, oldSize, newSize, align, reply);
               && View() == o.arena && parent.outstanding == SettleAll(out, o.calls) && Honest(out, o.calls)
      ensures Valid()
    {
      hide M.Realloc, Sound, Honest, Dutiful, SettleAll, Structure;
      ReallocKeepsSound(before, out, ptr, oldSize, newSize, align, reply);
    }

    // The adapter's xfree.
    method Free(ptr: nat, size: nat)
      requires Valid()
      modifies this`used, chain`used
      ensures Valid() && View() == M.AdapterFree(old(View()), ptr, size)
      ensures chain == old(chain) && free == old(free)
    {
      Rollback(ptr, size);
      FreeStaysValid(old(View()), ptr, size);
    }

    method Rollback(ptr: nat, size: nat)
      requires Structure()
      modifies this`used, chain`used
      ensures Structure() && View() == M.AdapterFree(old(View()), ptr, size)
    {
      hide Values, AllDistinct, Chained, Linked, M.WithLastUsed, M.Front;
      if ptr == M.NULL {
        return;
      }
      var last, offset := IsLastAlloc(ptr, size);
      if !last {
        return;
      }
      NewestValue();
      SetCursor(offset);
      used := used - (size + redzone);
    }

    lemma FreeStaysValid(before: M.Arena, ptr: nat, size: nat)
      requires Sound(before, parent.outstanding) && Structure() && View() == M.AdapterFree(before, ptr, size)
      ensures Valid()
    {
      hide M.AdapterFree, Sound, Structure;
      AdapterFreeKeepsSound(before, parent.outstanding, ptr, size);
    }

    // ----- moving blocks off the chain -----

    method ReleaseBlock(block: Block)
      requires (block.addr, block.Value().Bytes()) in parent.outstanding
      modifies this`committed, parent
      ensures View() == M.ReleaseBlock(old(View()), block.Value())
      ensures parent.log == old(parent.log) + [M.Release(block.addr, block.Value().Bytes())]
      ensures parent.outstanding
           == SettleAll(old(parent.outstanding), [M.Release(block.addr, block.Value().Bytes())])
      ensures Honest(old(parent.outstanding), [M.Release(block.addr, block.Value().Bytes())])
    {
      hide Values, SettleAll, Honest;
      var blockSize := M.HEADER + block.cap;
      committed := committed - blockSize;
      parent.Release(block.addr, blockSize);
    }

    method RetireBlock(block: Block)
      requires Lists() && AllDistinct(chain + [block] + free)
      modifies this`freeBlocks, this`free, block
      ensures Lists() && chain == old(chain) && free == [block] + old(free)
      ensures View() == old(View()).(free := [old(block.Value()).Blank()] + old(View()).free)
    {
      hide Values, AllDistinct, Chained, Linked;
      DistinctAround(chain, block, free);
      block.used := 0;
      block.link := freeBlocks;
      freeBlocks := block;
      LinkedSingle(block, HeadOr(free, null));
      LinkedConcat([block], free, null);
      ValuesPush(free, block);
      free := [block] + free;
      assert chain + free == chain + [block] + old(free);
    }

    // Take the newest block off the chain: release it if it is oversize, else
    // retire it. The caller moves current.
    method PopNewest(block: Block)
      requires Lists() && chain != [] && block == M.Last(chain)
      requires (block.addr, block.Value().Bytes()) in parent.outstanding
      modifies this`committed, this`chain, this`freeBlocks, this`free, parent, block
      ensures Lists() && chain == M.Front(old(chain))
      ensures forall i :: 0 <= i < |free| ==> free[i] in old(free) || free[i] == block
      ensures var o := M.PopLast(old(View()));
              && View() == o.arena && parent.log == old(parent.log) + o.calls
              && parent.outstanding == SettleAll(old(parent.outstanding), o.calls)
              && Honest(old(parent.outstanding), o.calls)
    {
      hide Values, AllDistinct, Chained, Linked, SettleAll, Honest;
      NewestApart();
      ChainedTail();
      NoCalls(parent.outstanding);
      chain := M.Front(chain);
      if block.oversize {
        ReleaseBlock(block);
      } else {
        RetireBlock(block);
      }
    }

    lemma ChainedTail()
      requires Chained(chain) && chain != [] && AllDistinct(chain + free)
      ensures Chained(M.Front(chain)) && M.Last(chain).link == Newest(M.Front(chain))
      ensures AllDistinct(M.Front(chain) + [M.Last(chain)] + free)
    {
      assert chain + free == M.Front(chain) + [M.Last(chain)] + free;
    }

    // A sound arena's blocks are known by their addresses, and the parent has
    // each of them outstanding.
    lemma NewestIsOutstanding()
      requires Sound(View(), parent.outstanding) && !fixed && chain != []
      ensures var v := M.Last(chain).Value(); (v.addr, v.Bytes()) in parent.outstanding
    {
      hide Values, PoolOk, Extents, Total;
      ValuesPop(chain);
      ExtentsMember(Values(chain), M.Last(chain).Value());
    }

    lemma AddressNames(i: nat, j: nat)
      requires Sound(View(), parent.outstanding) && i < |chain| && j < |chain|
      ensures 0 < chain[i].addr && (i < j ==> chain[i].addr != chain[j].addr)
    {
      hide Values;
      ValuesAt(chain, i);
      ValuesAt(chain, j);
      assert Values(chain)[i] in Values(chain);
      if i < j {
        assert Apart(Values(chain)[i], Values(chain)[j]);
      }
    }

    // A pop leaves a sound arena sound.
    method PopSound(block: Block) returns (next: Block?)
      requires Lists() && chain != [] && block == M.Last(chain)
      requires !fixed && Sound(View(), parent.outstanding)
      modifies this`committed, this`chain, this`freeBlocks, this`free, parent, block
      ensures Lists() && chain == M.Front(old(chain)) && next == Newest(chain)
      ensures Sound(View(), parent.outstanding)
      ensures forall i :: 0 <= i < |free| ==> free[i] in old(free) || free[i] == block
      ensures var o := M.PopLast(old(View()));
              && View() == o.arena && parent.log == old(parent.log) + o.calls
              && parent.outstanding == SettleAll(old(parent.outstanding), o.calls)
              && Honest(old(parent.outstanding), o.calls)
    {
      hide Values, AllDistinct, Chained, Linked, SettleAll, Honest, Sound, M.PopLast, Dutiful;
      next := block.link;
      ChainedTail();
      NewestIsOutstanding();
      PopLastKeepsSound(View(), parent.outstanding);
      PopNewest(block);
    }

    // What remains of popping from before, after the calls made so far.
    ghost predicate Remains(before: M.Arena, now: M.Arena, stop: nat, calls: seq<M.Call>) {
      var rest := M.PopToBlock(now, stop);
      M.PopToBlock(before, stop) == rest.(calls := calls + rest.calls)
    }

    lemma PopStep(before: M.Arena, now: M.Arena, stop: nat, calls: seq<M.Call>)
      requires Remains(before, now, stop, calls) && now.chain != [] && M.Last(now.chain).addr != stop
      ensures Remains(before, M.PopLast(now).arena, stop, calls + M.PopLast(now).calls)
    {
      hide M.PopLast;
      var popped := M.PopLast(now);
      var rest := M.PopToBlock(popped.arena, stop);
      assert calls + (popped.calls + rest.calls) == (calls + popped.calls) + rest.calls;
    }

    lemma NothingPopped(before: M.Arena, stop: nat)
      ensures Remains(before, before, stop, [])
    {
      var rest := M.PopToBlock(before, stop);
      assert [] + rest.calls == rest.calls;
    }

    lemma PopDone(before: M.Arena, now: M.Arena, stop: nat, calls: seq<M.Call>)
      requires Remains(before, now, stop, calls) && (now.chain == [] || M.Last(now.chain).addr == stop)
      ensures M.PopToBlock(before, stop) == M.Outcome(now, M.NULL, calls)
    {
      assert calls + [] == calls;
    }

    lemma NewestAddress()
      ensures View().chain == [] <==> chain == []
      ensures chain != [] ==> M.Last(View().chain).addr == M.Last(chain).addr
    {
      hide Values;
      if chain != [] {
        ValuesPop(chain);
      }
    }

    method PopToBlock(stop: Block?)
      requires Valid() && (stop != null ==> stop in chain) && (fixed ==> current == stop)
      modifies this, parent, chain, free
      ensures Structure() && current == stop && |chain| <= |old(chain)| && chain == old(chain)[..|chain|]
      ensures forall i :: 0 <= i < |free| ==> free[i] in old(chain) || free[i] in old(free)
      ensures var o := M.PopToBlock(old(View()), AddressOf(stop));
              && View() == o.arena && parent.log == old(parent.log) + o.calls
              && parent.outstanding == SettleAll(old(parent.outstanding), o.calls)
              && Honest(old(parent.outstanding), o.calls)
    {
      hide Values, AllDistinct, Chained, Linked, SettleAll, Honest, Sound, M.PopLast, Dutiful, Remains, M.PopToBlock, View;
      ghost var before, out, target := View(), parent.outstanding, AddressOf(stop);
      ghost var calls := [];
      var block := current;
      NoCalls(out);
      NothingPopped(before, target);
      while block != null && block != stop
        invariant Lists() && block == Newest(chain) && |chain| <= |old(chain)| && chain == old(chain)[..|chain|]
        invariant forall i :: 0 <= i < |free| ==> free[i] in old(chain) || free[i] in old(free)
        invariant stop != null ==> stop in chain
        invariant fixed == old(fixed) && (fixed ==> block == stop)
        invariant Sound(View(), parent.outstanding)
        invariant parent.log == old(parent.log) + calls
        invariant parent.outstanding == SettleAll(out, calls) && Honest(out, calls)
        invariant Remains(before, View(), target, calls)
        decreases |chain|
      {
        NewestAddress();
        NotStop(stop);
        PopStep(before, View(), target, calls);
        ghost var made := M.PopLast(View()).calls;
        block := PopSound(block);
        CallsCompose(out, calls, made);
        calls := calls + made;
      }
      assert block == stop;
      NewestAddress();
      PopDone(before, View(), target, calls);
      current := block;
    }

    lemma NotStop(stop: Block?)
      requires Sound(View(), parent.outstanding) && chain != [] && M.Last(chain) != stop
      requires stop != null ==> stop in chain
      ensures M.Last(View().chain).addr != AddressOf(stop)
      ensures stop != null ==> stop in M.Front(chain)
    {
      hide Sound, Values;
      ValuesPop(chain);
      AddressNames(|chain| - 1, |chain| - 1);
      if stop != null {
        var i :| 0 <= i < |chain| && chain[i] == stop;
        AddressNames(i, |chain| - 1);
        assert M.Front(chain)[i] == stop;
      }
    }

    // ----- scopes -----

    method TempBegin() returns (temp: Temp)
      requires Valid()
      modifies this`tempDepth
      ensures Valid() && (View(), temp.View()) == M.TempBegin(old(View()))
      ensures temp.block == current
    {
      hide Values, AllDistinct, Chained, Linked, Sound, M.TempBegin;
      ghost var before := View();
      tempDepth := (tempDepth + 1) % (UINT_MAX + 1);
      temp := Temp(current, if current != null then current.used else 0, used, generation, tempDepth);
      CountersStayValid(before);
      TempViewIsModel(before, temp);
    }

    // Depth, status and the statistics are not part of soundness.
    lemma CountersStayValid(before: M.Arena)
      requires Sound(before, parent.outstanding) && Structure()
      requires View() == before.(depth := tempDepth, status := status)
      ensures Valid()
    {
    }

    lemma TempViewIsModel(before: M.Arena, temp: Temp)
      requires Structure() && View() == before.(depth := (before.depth + 1) % (UINT_MAX + 1))
      requires temp == Temp(current, if current != null then current.used else 0, used, generation, tempDepth)
      ensures (View(), temp.View()) == M.TempBegin(before)
    {
      hide Values;
      if chain != [] {
        ValuesPop(chain);
      }
    }

    method TempEnd(temp: Temp)
      requires Valid() && (temp.block != null ==> temp.block in chain) && (fixed ==> current == temp.block)
      modifies this, parent, chain, free
      ensures Valid() && Follows(M.TempEnd(old(View()), temp.View()))
      ensures current == temp.block && |chain| <= |old(chain)| && chain == old(chain)[..|chain|]
    {
      EndScope(temp);
      EndStaysValid(old(View()), old(parent.outstanding), temp);
    }

    method EndScope(temp: Temp)
      requires Valid() && (temp.block != null ==> temp.block in chain) && (fixed ==> current == temp.block)
      modifies this, parent, chain, free
      ensures Structure() && Follows(M.TempEnd(old(View()), temp.View()))
      ensures current == temp.block && |chain| <= |old(chain)| && chain == old(chain)[..|chain|]
    {
      hide Values, AllDistinct, Chained, Linked, SettleAll, Honest, Sound, M.PopToBlock, M.WithLastUsed;
      PopToBlock(temp.block);
      Rewind(temp);
    }

    method Rewind(temp: Temp)
      requires Structure()
      modifies this`used, this`tempDepth, chain`used
      ensures Structure()
      ensures var b := old(View());
              var rewound := if b.chain != [] && M.Last(b.chain).used > temp.blockUsed
                             then M.WithLastUsed(b, temp.blockUsed) else b;
              View() == rewound.(used := if b.used > temp.used then temp.used else b.used,
                                 depth := if b.depth > 0 then b.depth - 1 else 0)
    {
      hide Values, AllDistinct, Chained, Linked, M.WithLastUsed, M.Front;
      var block := current;
      NewestValue();
      if block != null && block.used > temp.blockUsed {
        SetCursor(temp.blockUsed);
      }
      if used > temp.used {
        used := temp.used;
      }
      if tempDepth > 0 {
        tempDepth := tempDepth - 1;
      }
    }

    lemma EndStaysValid(before: M.Arena, out: Ledger, temp: Temp)
      requires Sound(before, out) && Structure()
      requires before.fixed ==> before.chain == [] || M.Last(before.chain).addr == AddressOf(temp.block)
      requires var o := M.TempEnd(before, temp.View());
               View() == o.arena && parent.outstanding == SettleAll(out, o.calls)
      ensures Valid()
    {
      hide M.TempEnd, Sound, Honest, Dutiful, SettleAll, Structure;
      TempEndKeepsSound(before, out, temp.View());
    }

    // ----- reset, trim, deinit -----

    lemma NoOldest()
      ensures M.OldestNormal([]) == 0
    {
    }

    lemma OldestFrom(values: seq<M.Block>, k: nat)
      requires k < |values|
      ensures M.OldestNormal(values[k..])
           == if !values[k].oversize then 0 else 1 + M.OldestNormal(values[k + 1..])
    {
      assert values[k..][1..] == values[k + 1..];
    }

    // The oldest block that is not oversize, by walking the whole chain.
    method FindOldestNormal() returns (oldest: Block?)
      requires Structure()
      ensures var keep := M.OldestNormal(View().chain);
              oldest == if keep < |chain| then chain[keep] else null
    {
      hide Values, Chained, Linked, AllDistinct, M.OldestNormal;
      oldest := null;
      var block := current;
      ghost var k: nat := |chain|;
      assert chain[..k] == chain && Values(chain)[k..] == [];
      NoOldest();
      while block != null
        invariant k <= |chain| && block == Newest(chain[..k]) && (k == 0 <==> block == null)
        invariant var i := M.OldestNormal(Values(chain)[k..]);
                  oldest == if i < |chain| - k then chain[k + i] else null
        decreases k
      {
        if !block.oversize {
          oldest := block;
        }
        ValuesAt(chain, k - 1);
        ChainedAt(chain, k - 1);
        OldestFrom(Values(chain), k - 1);
        block := block.link;
        k := k - 1;
      }
      assert Values(chain)[0..] == Values(chain);
    }

    // The arena with blocks under its chain, when a pop leaves one behind.
    ghost function Over(under: seq<M.Block>, a: M.Arena): M.Arena {
      a.(chain := under + a.chain)
    }

    lemma PopOver(under: seq<M.Block>, a: M.Arena, out: Ledger)
      requires a.chain != [] && !a.fixed && Sound(Over(under, a), out)
      ensures Sound(Over(under, M.PopLast(a).arena), SettleAll(out, M.PopLast(a).calls))
      ensures (M.Last(a.chain).addr, M.Last(a.chain).Bytes()) in out
    {
      hide PoolOk, Extents, Total, Honest, Dutiful, SettleAll;
      var whole := Over(under, a);
      PopLastKeepsSound(whole, out);
      assert M.Front(whole.chain) == under + M.Front(a.chain);
      ExtentsMember(whole.chain, M.Last(whole.chain));
    }

    lemma KeepUnder(a: M.Arena, out: Ledger)
      requires a.chain != [] && !a.fixed && Sound(Over([], a), out)
      ensures Sound(Over([M.Last(a.chain).Blank()], a.(chain := M.Front(a.chain))), out)
    {
      hide Sound;
      assert [] + a.chain == a.chain;
      RotateKeepsSound(a, out);
    }

    ghost predicate RemainsBut(before: M.Arena, now: M.Arena, keep: nat, calls: seq<M.Call>) {
      var rest := M.PopAllBut(now, keep);
      M.PopAllBut(before, keep) == rest.(calls := calls + rest.calls)
    }

    lemma PopButStep(before: M.Arena, now: M.Arena, keep: nat, calls: seq<M.Call>)
      requires RemainsBut(before, now, keep, calls) && now.chain != []
      ensures |now.chain| - 1 != keep ==> RemainsBut(before, M.PopLast(now).arena, keep, calls + M.PopLast(now).calls)
      ensures |now.chain| - 1 == keep ==> RemainsBut(before, now.(chain := M.Front(now.chain)), keep, calls)
    {
      hide M.PopLast;
      var popped := M.PopLast(now);
      var rest := M.PopAllBut(popped.arena, keep);
      assert calls + (popped.calls + rest.calls) == (calls + popped.calls) + rest.calls;
    }

    lemma PopButEnds(before: M.Arena, keep: nat, now: M.Arena, calls: seq<M.Call>)
      ensures RemainsBut(before, before, keep, [])
      ensures RemainsBut(before, now, keep, calls) && now.chain == [] ==>
                M.PopAllBut(before, keep) == M.Outcome(now, M.NULL, calls)
    {
      var rest := M.PopAllBut(before, keep);
      assert [] + rest.calls == rest.calls;
      assert calls + [] == calls;
    }

    // One round: the kept block only leaves the chain, any other is popped.
    method PassOrPop(block: Block, kept: Block?, ghost under: seq<M.Block>)
      returns (next: Block?, ghost under': seq<M.Block>, ghost made: seq<M.Call>)
      requires Lists() && chain != [] && block == M.Last(chain) && !fixed
      requires Sound(Over(under, View()), parent.outstanding) && (block == kept ==> under == [])
      modifies this`committed, this`chain, this`freeBlocks, this`free, parent, block
      ensures Lists() && chain == M.Front(old(chain)) && next == Newest(chain)
      ensures block !in chain && block !in old(free)
      ensures forall i :: 0 <= i < |free| ==> free[i] in old(free) || (free[i] == block && block != kept)
      ensures block == kept ==>
                && unchanged(block) && free == old(free) && made == []
                && View() == old(View()).(chain := M.Front(old(View()).chain))
      ensures block != kept ==>
                && under' == under && made == M.PopLast(old(View())).calls
                && View() == M.PopLast(old(View())).arena
      ensures Sound(Over(under', View()), parent.outstanding)
      ensures parent.log == old(parent.log) + made
      ensures parent.outstanding == SettleAll(old(parent.outstanding), made) && Honest(old(parent.outstanding), made)
    {
      hide Values, AllDistinct, Chained, Linked, SettleAll, Honest, Sound, M.PopLast, Over;
      ghost var now, held := View(), parent.outstanding;
      next, under', made := block.link, under, [];
      NoCalls(held);
      NewestApart();
      ChainedTail();
      if block == kept {
        KeepUnder(now, held);
        under' := [M.Last(now.chain).Blank()];
        chain := M.Front(chain);
      } else {
        PopOver(under, now, held);
        made := M.PopLast(now).calls;
        PopNewest(block);
      }
    }

    // The round adds its calls to those made so far.
    method PopRound(block: Block, kept: Block?, ghost keep: nat, ghost under: seq<M.Block>,
                    ghost before: M.Arena, ghost out: Ledger, ghost calls: seq<M.Call>)
      returns (next: Block?, ghost under': seq<M.Block>, ghost made: seq<M.Call>)
      requires Lists() && chain != [] && block == M.Last(chain) && !fixed
      requires Sound(Over(under, View()), parent.outstanding) && (block == kept ==> under == [])
      requires block == kept <==> |chain| == keep + 1
      requires parent.outstanding == SettleAll(out, calls) && Honest(out, calls)
      requires RemainsBut(before, View(), keep, calls)
      modifies this`committed, this`chain, this`freeBlocks, this`free, parent, block
      ensures Lists() && chain == M.Front(old(chain)) && next == Newest(chain)
      ensures block !in chain && block !in old(free)
      ensures forall i :: 0 <= i < |free| ==> free[i] in old(free) || (free[i] == block && block != kept)
      ensures (block == kept ==> unchanged(block)) && (block != kept ==> under' == under)
      ensures Sound(Over(under', View()), parent.outstanding)
      ensures parent.log == old(parent.log) + made
      ensures parent.outstanding == SettleAll(out, calls + made) && Honest(out, calls + made)
      ensures RemainsBut(before, View(), keep, calls + made)
    {
      hide Values, AllDistinct, Chained, Linked, SettleAll, Honest, Sound, M.PopLast, Over, RemainsBut;
      ghost var now := View();
      next, under', made := PassOrPop(block, kept, under);
      assert calls + [] == calls;
      PopButStep(before, now, keep, calls);
      CallsCompose(out, calls, made);
    }

    lemma ChainLength()
      ensures |View().chain| == |chain|
    {
    }

    // Retire or release every block but one, which stays where it is.
    method PopAllBut(kept: Block?, ghost keep: nat)
      requires Valid() && !fixed
      requires kept == if keep < |chain| then chain[keep] else null
      modifies this`committed, this`chain, this`freeBlocks, this`free, parent, chain
      ensures Lists() && chain == []
      ensures forall i :: 0 <= i < |free| ==> free[i] in old(chain) || free[i] in old(free)
      ensures var o := M.PopAllBut(old(View()), keep);
              && View() == o.arena && parent.log == old(parent.log) + o.calls
              && parent.outstanding == SettleAll(old(parent.outstanding), o.calls)
              && Honest(old(parent.outstanding), o.calls)
      ensures kept != null ==> kept !in free && kept.Value() == old(kept.Value())
    {
      hide Values, AllDistinct, Chained, Linked, SettleAll, Honest, Sound, M.PopLast, Over, RemainsBut, M.PopAllBut,
        Dutiful, View;
      ghost var before, out := View(), parent.outstanding;
      ghost var calls, under := [], [];
      var block := current;
      NoCalls(out);
      PopButEnds(before, keep, before, []);
      NothingUnder(before);
      while block != null
        invariant Lists() && block == Newest(chain) && chain <= old(chain)
        invariant forall i :: 0 <= i < |free| ==> free[i] in old(chain) || free[i] in old(free)
        invariant keep < |chain| ==> kept == chain[keep] && under == []
        invariant kept != null && |chain| <= keep ==> kept !in chain && kept !in free
        invariant kept != null ==> kept in old(chain) && kept.Value() == old(kept.Value())
        invariant !fixed && Sound(Over(under, View()), parent.outstanding)
        invariant parent.log == old(parent.log) + calls
        invariant parent.outstanding == SettleAll(out, calls) && Honest(out, calls)
        invariant RemainsBut(before, View(), keep, calls)
        decreases |chain|
      {
        assert keep < |chain| - 1 ==> M.Front(chain)[keep] == kept;
        NewestApart();
        ghost var made;
        block, under, made := PopRound(block, kept, keep, under, before, out, calls);
        calls := calls + made;
      }
      ChainLength();
      PopButEnds(before, keep, View(), calls);
    }

    lemma NothingUnder(a: M.Arena)
      ensures Over([], a) == a
    {
      assert [] + a.chain == a.chain;
    }

    method Reset()
      requires Valid()
      modifies this, parent, chain
      ensures Valid() && Follows(M.Reset(old(View())))
    {
      RewindAll();
      ResetStaysValid(old(View()), old(parent.outstanding));
    }

    method RewindAll()
      requires Valid()
      modifies this, parent, chain
      ensures Structure() && Follows(M.Reset(old(View())))
    {
      hide Values, AllDistinct, Chained, Linked, SettleAll, Honest, Sound, M.PopAllBut, M.OldestNormal, M.Last;
      NoCalls(parent.outstanding);
      if fixed {
        RewindFixed();
      } else {
        RewindGrowing();
      }
      Restart();
    }

    method Restart()
      requires Structure()
      modifies this`used, this`tempDepth, this`generation, this`status
      ensures Structure()
      ensures View() == old(View()).(used := 0, depth := 0, status := M.Ok,
                                     generation := (old(generation) + 1) % (UINT_MAX + 1))
    {
      hide Values, AllDistinct, Chained, Linked;
      used := 0;
      tempDepth := 0;
      generation := (generation + 1) % (UINT_MAX + 1);
      status := M.Ok;
    }

    lemma ResetStaysValid(before: M.Arena, out: Ledger)
      requires Sound(before, out) && Structure()
      requires View() == M.Reset(before).arena && parent.outstanding == SettleAll(out, M.Reset(before).calls)
      ensures Valid()
    {
      hide M.Reset, Sound, Honest, Dutiful, SettleAll, Structure;
      ResetKeepsSound(before, out);
    }

    // A fixed arena has one block at most, and it stays.
    method RewindFixed()
      requires Valid() && fixed
      modifies chain`used
      ensures Structure() && chain == old(chain) && free == old(free)
      ensures View() == old(View()).(chain := if old(View()).chain == [] then []
                                              else [M.Last(old(View()).chain).Blank()])
    {
      hide Values, AllDistinct, Chained, Linked, PoolOk, Extents, Total;
      assert |Values(chain)| <= 1;
      NewestValue();
      if current != null {
        SetCursor(0);
      }
    }

    method RewindGrowing()
      requires Valid() && !fixed
      modifies this`current, this`committed, this`chain, this`freeBlocks, this`free, parent, chain
      ensures Structure() && forall i :: 0 <= i < |chain| ==> chain[i] in old(chain)
      ensures forall i :: 0 <= i < |free| ==> free[i] in old(chain) || free[i] in old(free)
      ensures var a := old(View()); var keep := M.OldestNormal(a.chain); var o := M.PopAllBut(a, keep);
              && View() == o.arena.(chain := if keep < |a.chain| then [a.chain[keep].Blank()] else [])
              && parent.log == old(parent.log) + o.calls
              && parent.outstanding == SettleAll(old(parent.outstanding), o.calls)
              && Honest(old(parent.outstanding), o.calls)
    {
      hide Values, AllDistinct, Chained, Linked, SettleAll, Honest, Sound, M.PopAllBut, M.OldestNormal;
      var oldest := FindOldestNormal();
      ghost var keep := M.OldestNormal(View().chain);
      if oldest != null {
        ValuesAt(chain, keep);
      }
      PopAllBut(oldest, keep);
      if oldest == null {
        current := null;
      } else {
        KeepOnly(oldest);
      }
    }

    method KeepOnly(oldest: Block)
      requires Lists() && chain == [] && oldest !in free
      modifies this`current, this`chain, oldest
      ensures Structure() && chain == [oldest] && free == old(free)
      ensures View() == old(View()).(chain := [old(oldest.Value()).Blank()])
    {
      hide Values, AllDistinct, Chained, Linked;
      oldest.used := 0;
      oldest.link := null;
      current, chain := oldest, [oldest];
      OneBlock(oldest);
      assert [] + [oldest] + free == [oldest] + free && [] + free == free;
      DistinctAround([], oldest, free);
    }

    // One block of a list goes back, after its link is read.
    method ReleaseRound(block: Block, ghost left: seq<Block>, ghost before: M.Arena, ghost all: seq<M.Block>,
                        ghost out: Ledger, ghost calls: seq<M.Call>, ghost others: Ledger)
      returns (next: Block?, ghost made: seq<M.Call>)
      requires left != [] && block == left[0] && Linked(left, null)
      requires parent.outstanding == others + Extents(Values(left))
      requires parent.outstanding == SettleAll(out, calls) && Honest(out, calls)
      requires RemainsToRelease(before, all, View(), Values(left), calls)
      modifies this`committed, parent
      ensures Linked(left[1..], null) && next == HeadOr(left[1..], null)
      ensures parent.log == old(parent.log) + made
      ensures parent.outstanding == others + Extents(Values(left[1..]))
      ensures parent.outstanding == SettleAll(out, calls + made) && Honest(out, calls + made)
      ensures RemainsToRelease(before, all, View(), Values(left[1..]), calls + made)
    {
      hide Values, Linked, SettleAll, Honest, Extents, M.ReleaseAll, M.ReleaseBlock, RemainsToRelease, View;
      ListTail(left, null);
      next := block.link;
      made := [M.Release(block.addr, block.Value().Bytes())];
      ReleaseStep(before, all, View(), Values(left), calls, others);
      CallsCompose(out, calls, made);
      ReleaseBlock(block);
    }

    // Give back each block of a list, reading its link first.
    method ReleaseChain(first: Block?, ghost blocks: seq<Block>)
      requires Linked(blocks, null) && first == HeadOr(blocks, null)
      requires Extents(Values(blocks)) <= parent.outstanding
      modifies this`committed, parent
      ensures var o := M.ReleaseAll(old(View()), old(Values(blocks)));
              && View() == o.arena && parent.log == old(parent.log) + o.calls
              && parent.outstanding == SettleAll(old(parent.outstanding), o.calls)
              && Honest(old(parent.outstanding), o.calls)
    {
      hide Values, Linked, SettleAll, Honest, Extents, M.ReleaseAll, M.ReleaseBlock, RemainsToRelease, View;
      ghost var before, out, all := View(), parent.outstanding, Values(blocks);
      ghost var others := out - Extents(all);
      ghost var calls, left := [], blocks;
      var block := first;
      NoCalls(out);
      ReleaseEnds(before, all, before, all, []);
      while block != null
        invariant Linked(left, null) && block == HeadOr(left, null) && (left == [] <==> block == null)
        invariant parent.outstanding == others + Extents(Values(left))
        invariant parent.log == old(parent.log) + calls
        invariant parent.outstanding == SettleAll(out, calls) && Honest(out, calls)
        invariant RemainsToRelease(before, all, View(), Values(left), calls)
        decreases |left|
      {
        ghost var made;
        block, made := ReleaseRound(block, left, before, all, out, calls, others);
        calls, left := calls + made, left[1..];
      }
      ReleaseEnds(before, all, View(), Values(left), calls);
    }

    ghost predicate RemainsToRelease(before: M.Arena, all: seq<M.Block>,
                                     now: M.Arena, rest: seq<M.Block>, calls: seq<M.Call>) {
      var o := M.ReleaseAll(now, rest);
      M.ReleaseAll(before, all) == o.(calls := calls + o.calls)
    }

    lemma ReleaseStep(before: M.Arena, all: seq<M.Block>, now: M.Arena, rest: seq<M.Block>, calls: seq<M.Call>,
                      others: Ledger)
      requires rest != [] && RemainsToRelease(before, all, now, rest, calls)
      ensures var made, held := M.Release(rest[0].addr, rest[0].Bytes()), others + Extents(rest);
              && (made.addr, made.size) in held
              && SettleAll(held, [made]) == others + Extents(rest[1..])
              && RemainsToRelease(before, all, M.ReleaseBlock(now, rest[0]), rest[1..], calls + [made])
    {
      hide Extents, SettleAll;
      var made := M.Release(rest[0].addr, rest[0].Bytes());
      var o := M.ReleaseAll(M.ReleaseBlock(now, rest[0]), rest[1..]);
      assert calls + ([made] + o.calls) == (calls + [made]) + o.calls;
      assert rest == [rest[0]] + rest[1..];
      Prepended(rest[0], rest[1..]);
      OneRelease(others + Extents(rest), made.addr, made.size);
    }

    lemma ReleaseEnds(before: M.Arena, all: seq<M.Block>, now: M.Arena, rest: seq<M.Block>, calls: seq<M.Call>)
      ensures RemainsToRelease(before, all, before, all, [])
      ensures RemainsToRelease(before, all, now, rest, calls) && rest == [] ==>
                M.ReleaseAll(before, all) == M.Outcome(now, M.NULL, calls)
    {
      var o := M.ReleaseAll(before, all);
      assert [] + o.calls == o.calls;
      assert calls + [] == calls;
    }

    method Trim()
      requires Valid()
      modifies this`committed, this`freeBlocks, this`free, parent
      ensures Valid() && chain == old(chain) && Follows(M.Trim(old(View())))
    {
      ReleaseFree();
      TrimStaysValid(old(View()), old(parent.outstanding));
    }

    method ReleaseFree()
      requires Valid()
      modifies this`committed, this`freeBlocks, this`free, parent
      ensures Structure() && chain == old(chain) && (!fixed ==> free == []) && Follows(M.Trim(old(View())))
    {
      hide Values, AllDistinct, Chained, Linked, SettleAll, Honest, Sound, M.ReleaseAll, Extents;
      NoCalls(parent.outstanding);
      if fixed {
        return;
      }
      HeldByParent();
      DistinctPrefix(chain, free);
      NoBlocks();
      ReleaseChain(freeBlocks, free);
      freeBlocks, free := null, [];
    }

    // Both lists are outstanding, and nothing else is.
    lemma HeldByParent()
      requires Valid()
      ensures !fixed ==> parent.outstanding == Extents(Values(chain)) + Extents(Values(free))
    {
    }

    lemma TrimStaysValid(before: M.Arena, out: Ledger)
      requires Sound(before, out) && Structure()
      requires View() == M.Trim(before).arena && parent.outstanding == SettleAll(out, M.Trim(before).calls)
      ensures Valid()
    {
      hide M.Trim, Sound, Honest, Dutiful, SettleAll, Structure;
      TrimKeepsSound(before, out);
    }

    method ClearError()
      requires Valid()
      modifies this`status
      ensures Valid() && View() == M.ClearError(old(View()))
    {
      hide Values, Sound;
      ghost var before := View();
      status := M.Ok;
      CountersStayValid(before);
    }

    method Deinit()
      requires Valid()
      modifies this, parent
      ensures Valid() && Follows(M.Deinit(old(View())))
    {
      ReleaseEverything();
      DeinitStaysValid(old(View()), old(parent.outstanding));
    }

    // The chain goes back newest first; the free list is what is left.
    method ReleaseNewestFirst()
      requires Valid() && !fixed
      modifies this`committed, parent
      ensures parent.outstanding == Extents(Values(free))
      ensures var a := old(View()); var o := M.ReleaseAll(a, M.Reverse(a.chain));
              && View() == o.arena && parent.log == old(parent.log) + o.calls
              && parent.outstanding == SettleAll(old(parent.outstanding), o.calls)
              && Honest(old(parent.outstanding), o.calls)
    {
      hide Values, AllDistinct, Chained, Linked, SettleAll, Honest, Dutiful, Sound, M.ReleaseAll, Extents, M.Reverse;
      ghost var before, out := View(), parent.outstanding;
      ghost var values := M.Reverse(before.chain);
      HeldByParent();
      ReverseValues(chain);
      ReverseLinked(chain);
      ReverseExtents(before.chain);
      ReleaseAllMeaning(before, values);
      ReleaseCallsSettle(out, values);
      ReleaseChain(current, M.Reverse(chain));
      assert out - Extents(before.chain) == Extents(before.free);
    }

    lemma ReleaseCallsAgree(a: M.Arena, b: M.Arena, blocks: seq<M.Block>)
      ensures M.ReleaseAll(a, blocks).calls == M.ReleaseAll(b, blocks).calls
    {
      ReleaseAllMeaning(a, blocks);
      ReleaseAllMeaning(b, blocks);
    }

    method ReleaseEverything()
      requires Valid()
      modifies this, parent
      ensures Structure() && Follows(M.Deinit(old(View())))
    {
      hide Values, AllDistinct, Chained, Linked, SettleAll, Honest, Dutiful, Sound, M.ReleaseAll, Extents, M.Reverse;
      ghost var before, out := View(), parent.outstanding;
      var next := (generation + 1) % (UINT_MAX + 1);
      NoCalls(out);
      if !fixed {
        ReleaseNewestFirst();
        ReleaseCallsAgree(before, View(), before.free);
        CallsCompose(out, M.ReleaseAll(before, M.Reverse(before.chain)).calls, M.ReleaseAll(before, before.free).calls);
        ReleaseChain(freeBlocks, free);
      }
      Initialize();
      generation := next;
    }

    lemma DeinitStaysValid(before: M.Arena, out: Ledger)
      requires Sound(before, out) && Structure()
      requires View() == M.Deinit(before).arena && parent.outstanding == SettleAll(out, M.Deinit(before).calls)
      ensures Valid()
    {
      hide M.Deinit, Sound, Honest, Dutiful, SettleAll, Structure;
      DeinitSettles(before, out);
    }
  }
}
