// Conservation with the parent: what is true of the blocks of every arena
// state, whatever is allocated in them.
module ArenaSound {
  import opened Machine
  import opened WordBits
  import opened ArenaModel

  // ----- the parent's ledger -----

  // The ranges the parent has handed out and not got back.
  type Ledger = multiset<(nat, nat)>

  function Settle(out: Ledger, call: Call): Ledger {
    match call
    case Acquire(size, reply) => if reply == NULL then out else out + multiset{(reply, size)}
    case Release(addr, size) => out - multiset{(addr, size)}
  }

  function SettleAll(out: Ledger, calls: seq<Call>): Ledger
    decreases |calls|
  {
    if calls == [] then out else SettleAll(Settle(out, calls[0]), calls[1..])
  }

  // The parent's promise: a range it hands out lies in the address space and
  // meets nothing that is outstanding.
  ghost predicate Honest(out: Ledger, calls: seq<Call>)
    decreases |calls|
  {
    calls == [] ||
    (&& (calls[0].Acquire? && calls[0].reply != NULL ==>
           && calls[0].reply + calls[0].size <= MODULUS
           && forall e :: e in out ==> e.0 + e.1 <= calls[0].reply || calls[0].reply + calls[0].size <= e.0)
     && Honest(Settle(out, calls[0]), calls[1..]))
  }

  // The arena's duty: it gives back only what is outstanding, with the exact
  // address and size it got.
  ghost predicate Dutiful(out: Ledger, calls: seq<Call>)
    decreases |calls|
  {
    calls == [] ||
    (&& (calls[0].Release? ==> (calls[0].addr, calls[0].size) in out)
     && Dutiful(Settle(out, calls[0]), calls[1..]))
  }

  lemma {:induction false} CallsCompose(out: Ledger, first: seq<Call>, second: seq<Call>)
    ensures SettleAll(out, first + second) == SettleAll(SettleAll(out, first), second)
    ensures Honest(out, first + second) <==> Honest(out, first) && Honest(SettleAll(out, first), second)
    ensures Dutiful(out, first + second) <==> Dutiful(out, first) && Dutiful(SettleAll(out, first), second)
    decreases |first|
  {
    if first == [] {
      assert first + second == second;
    } else {
      var all := first + second;
      assert all[0] == first[0] && all[1..] == first[1..] + second;
      CallsCompose(Settle(out, first[0]), first[1..], second);
    }
  }

  // ----- sums over blocks -----

  function ExtentList(blocks: seq<Block>): seq<(nat, nat)> {
    seq(|blocks|, i requires 0 <= i < |blocks| => (blocks[i].addr, blocks[i].Bytes()))
  }

  function Extents(blocks: seq<Block>): Ledger {
    multiset(ExtentList(blocks))
  }

  function Total(blocks: seq<Block>): nat {
    if blocks == [] then 0 else Total(Front(blocks)) + Last(blocks).Bytes()
  }

  lemma ExtentsConcat(xs: seq<Block>, ys: seq<Block>)
    ensures Extents(xs + ys) == Extents(xs) + Extents(ys)
  {
    assert ExtentList(xs + ys) == ExtentList(xs) + ExtentList(ys);
  }

  lemma ExtentsSingle(b: Block)
    ensures Extents([b]) == multiset{(b.addr, b.Bytes())}
  {
    assert ExtentList([b]) == [(b.addr, b.Bytes())];
  }

  lemma ExtentsMember(blocks: seq<Block>, b: Block)
    requires b in blocks
    ensures (b.addr, b.Bytes()) in Extents(blocks)
  {
    var i :| 0 <= i < |blocks| && blocks[i] == b;
    assert ExtentList(blocks)[i] == (b.addr, b.Bytes());
  }

  lemma {:induction false} TotalConcat(xs: seq<Block>, ys: seq<Block>)
    ensures Total(xs + ys) == Total(xs) + Total(ys)
    decreases |ys|
  {
    if ys == [] {
      assert xs + ys == xs;
    } else {
      assert Front(xs + ys) == xs + Front(ys);
      TotalConcat(xs, Front(ys));
    }
  }

  lemma TotalSingle(b: Block)
    ensures Total([b]) == b.Bytes()
  {
    assert Front([b]) == [];
  }

  // ----- sound arenas -----

  ghost predicate BlockOk(b: Block) {
    && 0 < b.addr && b.End() <= MODULUS
    && b.used <= b.cap && b.Bytes() <= PTRDIFF_MAX
  }

  ghost predicate Apart(b: Block, c: Block) {
    b.End() <= c.addr || c.End() <= b.addr
  }

  ghost predicate AllApart(blocks: seq<Block>) {
    forall i, j :: 0 <= i < j < |blocks| ==> Apart(blocks[i], blocks[j])
  }

  ghost predicate PoolOk(chain: seq<Block>, free: seq<Block>) {
    && (forall b :: b in chain ==> BlockOk(b))
    && (forall b :: b in free ==> BlockOk(b) && b.used == 0 && !b.oversize)
    && AllApart(chain) && AllApart(free)
    && (forall b, c :: b in chain && c in free ==> Apart(b, c))
  }

  // A growing arena holds exactly what the parent has outstanding; a fixed one
  // holds at most one block of the caller's buffer and nothing of a parent's.
  ghost predicate Sound(a: Arena, out: Ledger) {
    && (a.redzone == 0 || a.redzone == ASAN_REDZONE)
    && PoolOk(a.chain, a.free)
    && (a.fixed ==>
          && |a.chain| <= 1 && a.free == [] && out == multiset{}
          && (a.chain != [] ==> !a.chain[0].oversize) && Total(a.chain) <= a.committed <= PTRDIFF_MAX)
    && (!a.fixed ==>
          && out == Extents(a.chain) + Extents(a.free)
          && a.committed == Total(a.chain) + Total(a.free)
          && FIXED_OVERHEAD <= a.minBlock <= a.nextBlock <= a.maxBlock <= PTRDIFF_MAX)
  }

  // ----- the four ways blocks move -----

  // Extents and totals of a list that ends in one more block.
  lemma Appended(blocks: seq<Block>, b: Block)
    ensures Extents(blocks + [b]) == Extents(blocks) + multiset{(b.addr, b.Bytes())}
    ensures Total(blocks + [b]) == Total(blocks) + b.Bytes()
  {
    ExtentsConcat(blocks, [b]);
    ExtentsSingle(b);
    TotalConcat(blocks, [b]);
    TotalSingle(b);
  }

  // A block that stays where it is may change its cursor.
  lemma ReplacedPool(rest: seq<Block>, block: Block, changed: Block, free: seq<Block>)
    requires PoolOk(rest + [block], free)
    requires changed.addr == block.addr && changed.cap == block.cap && changed.used <= changed.cap
    ensures PoolOk(rest + [changed], free)
  {
    var chain, chain' := rest + [block], rest + [changed];
    assert block in chain;
    forall i, j | 0 <= i < j < |chain'| ensures Apart(chain'[i], chain'[j]) {
      assert Apart(chain[i], chain[j]);
    }
    forall b | b in chain' ensures BlockOk(b) && forall c :: c in free ==> Apart(b, c) {
      assert b in chain || b == changed;
    }
  }

  lemma SetLastUsed(a: Arena, out: Ledger, used: nat)
    requires Sound(a, out) && a.chain != [] && used <= Last(a.chain).cap
    ensures Sound(WithLastUsed(a, used), out)
  {
    hide PoolOk, Extents, Total;
    var rest, block := Front(a.chain), Last(a.chain);
    var changed := block.(used := used);
    assert a.chain == rest + [block];
    assert rest != [] ==> rest[0] == a.chain[0];
    ReplacedPool(rest, block, changed, a.free);
    Appended(rest, block);
    Appended(rest, changed);
  }

  lemma RemovedAt(blocks: seq<Block>, i: nat)
    requires i < |blocks|
    ensures var rest := blocks[..i] + blocks[i + 1..];
            && Extents(blocks) == Extents(rest) + multiset{(blocks[i].addr, blocks[i].Bytes())}
            && Total(blocks) == Total(rest) + blocks[i].Bytes()
  {
    var before, after := blocks[..i], blocks[i + 1..];
    assert blocks == (before + [blocks[i]]) + after;
    Appended(before, blocks[i]);
    ExtentsConcat(before + [blocks[i]], after);
    ExtentsConcat(before, after);
    TotalConcat(before + [blocks[i]], after);
    TotalConcat(before, after);
  }

  lemma EnteredPool(chain: seq<Block>, free: seq<Block>, i: nat)
    requires PoolOk(chain, free) && i < |free|
    ensures PoolOk(chain + [free[i]], free[..i] + free[i + 1..])
  {
    var longer, rest := chain + [free[i]], free[..i] + free[i + 1..];
    forall k | 0 <= k < |rest| ensures rest[k] in free && Apart(free[i], rest[k]) {
      var k' := if k < i then k else k + 1;
      assert rest[k] == free[k'];
      assert Apart(free[i], free[k']) || Apart(free[k'], free[i]);
    }
    forall j, k | 0 <= j < k < |rest| ensures Apart(rest[j], rest[k]) {
      assert Apart(free[if j < i then j else j + 1], free[if k < i then k else k + 1]);
    }
    forall j, k | 0 <= j < k < |longer| ensures Apart(longer[j], longer[k]) {
      assert longer[j] in chain;
      assert k < |chain| ==> Apart(chain[j], chain[k]);
    }
  }

  lemma EnterFromFree(a: Arena, out: Ledger, i: nat)
    requires Sound(a, out) && i < |a.free|
    ensures Sound(Enter(WithoutFree(a, i), a.free[i]), out)
  {
    hide PoolOk, Extents, Total;
    EnteredPool(a.chain, a.free, i);
    RemovedAt(a.free, i);
    Appended(a.chain, a.free[i]);
  }

  lemma AcquiredPool(chain: seq<Block>, free: seq<Block>, block: Block)
    requires PoolOk(chain, free) && BlockOk(block)
    requires forall b :: b in chain || b in free ==> Apart(b, block)
    ensures PoolOk(chain + [block], free)
  {
    var longer := chain + [block];
    forall j, k | 0 <= j < k < |longer| ensures Apart(longer[j], longer[k]) {
      assert longer[j] in chain;
      assert k < |chain| ==> Apart(chain[j], chain[k]);
    }
  }

  lemma EnterAcquired(a: Arena, out: Ledger, block: Block)
    requires Sound(a, out) && !a.fixed && BlockOk(block)
    requires forall e :: e in out ==> e.0 + e.1 <= block.addr || block.End() <= e.0
    ensures PoolOk(a.chain + [block], a.free)
    ensures Extents(a.chain + [block]) + Extents(a.free) == out + multiset{(block.addr, block.Bytes())}
    ensures Total(a.chain + [block]) == Total(a.chain) + block.Bytes()
  {
    Appended(a.chain, block);
    forall b | b in a.chain || b in a.free ensures Apart(b, block) {
      if b in a.chain {
        ExtentsMember(a.chain, b);
      } else {
        ExtentsMember(a.free, b);
      }
      assert (b.addr, b.Bytes()) in out;
    }
    AcquiredPool(a.chain, a.free, block);
  }

  lemma RetiredPool(rest: seq<Block>, block: Block, free: seq<Block>)
    requires PoolOk(rest + [block], free)
    ensures PoolOk(rest, free)
    ensures !block.oversize ==> PoolOk(rest, [block.Blank()] + free)
  {
    var chain, retired := rest + [block], [block.Blank()] + free;
    assert block in chain;
    forall i | 0 <= i < |rest| ensures rest[i] in chain && Apart(rest[i], block.Blank()) {
      assert chain[i] == rest[i] && Apart(chain[i], chain[|rest|]);
    }
    forall i, j | 0 <= i < j < |rest| ensures Apart(rest[i], rest[j]) {
      assert Apart(chain[i], chain[j]);
    }
    forall i, j | 0 <= i < j < |retired| ensures Apart(retired[i], retired[j]) {
      assert retired[j] in free && Apart(block, retired[j]);
      assert 0 < i ==> Apart(free[i - 1], free[j - 1]);
    }
    forall b, c | b in rest && c in retired ensures Apart(b, c) {
      assert c == block.Blank() || c in free;
    }
  }

  lemma Prepended(blank: Block, free: seq<Block>)
    ensures Extents([blank] + free) == Extents(free) + multiset{(blank.addr, blank.Bytes())}
    ensures Total([blank] + free) == Total(free) + blank.Bytes()
  {
    ExtentsConcat([blank], free);
    ExtentsSingle(blank);
    TotalConcat([blank], free);
    TotalSingle(blank);
  }

  lemma OneRelease(out: Ledger, addr: nat, size: nat)
    ensures SettleAll(out, [Release(addr, size)]) == out - multiset{(addr, size)}
    ensures Dutiful(out, [Release(addr, size)]) <==> (addr, size) in out
    ensures Honest(out, [Release(addr, size)])
  {
    assert [Release(addr, size)][1..] == [];
  }

  lemma OneAcquire(out: Ledger, size: nat, reply: nat)
    requires reply != NULL
    ensures SettleAll(out, [Acquire(size, reply)]) == out + multiset{(reply, size)}
    ensures Dutiful(out, [Acquire(size, reply)])
    ensures Honest(out, [Acquire(size, reply)]) ==>
              && reply + size <= MODULUS
              && forall e :: e in out ==> e.0 + e.1 <= reply || reply + size <= e.0
  {
    assert [Acquire(size, reply)][1..] == [];
  }

  lemma NoCalls(out: Ledger)
    ensures SettleAll(out, []) == out && Dutiful(out, []) && Honest(out, [])
  {
  }

  lemma ReleaseLastKeepsSound(a: Arena, out: Ledger)
    requires Sound(a, out) && a.chain != [] && !a.fixed && Last(a.chain).oversize
    ensures var popped := PopLast(a);
            && Dutiful(out, popped.calls) && Honest(out, popped.calls)
            && Sound(popped.arena, SettleAll(out, popped.calls))
  {
    hide PoolOk, Extents, Total, Honest, Dutiful, SettleAll;
    var block, rest := Last(a.chain), Front(a.chain);
    assert a.chain == rest + [block];
    RetiredPool(rest, block, a.free);
    Appended(rest, block);
    OneRelease(out, block.addr, block.Bytes());
    assert out - multiset{(block.addr, block.Bytes())} == Extents(rest) + Extents(a.free);
  }

  // Popping a block is a transfer: to the free list or back to the parent.
  lemma PopLastKeepsSound(a: Arena, out: Ledger)
    requires Sound(a, out) && a.chain != [] && !a.fixed
    ensures var popped := PopLast(a);
            && Dutiful(out, popped.calls) && Honest(out, popped.calls)
            && Sound(popped.arena, SettleAll(out, popped.calls))
  {
    hide PoolOk, Extents, Total, Honest, Dutiful, SettleAll;
    NoCalls(out);
    var block, rest := Last(a.chain), Front(a.chain);
    if block.oversize {
      ReleaseLastKeepsSound(a, out);
    } else {
      assert a.chain == rest + [block];
      RetiredPool(rest, block, a.free);
      Appended(rest, block);
      Prepended(block.Blank(), a.free);
    }
  }

  // ----- every operation -----

  lemma BumpKeepsSound(a: Arena, out: Ledger, size: nat, align: nat)
    requires Sound(a, out) && 0 < align
    ensures Sound(Bump(a, size, align).arena, out)
  {
    hide PoolOk, Extents, Total;
    if Bump(a, size, align).ptr != NULL {
      var block := Last(a.chain);
      SetLastUsed(a, out, block.used + Padding(block.Cursor(), align) + size + a.redzone);
    }
  }

  lemma AcquireKeepsSound(a: Arena, out: Ledger, need: nat, reply: nat)
    requires Sound(a, out) && !a.fixed && reply != NULL && need <= PTRDIFF_MAX - HEADER
    requires Honest(out, [Acquire(RequestSize(a, need), reply)])
    ensures var block, request := NewBlock(a, need, reply), RequestSize(a, need);
            && need <= block.cap && block.used == 0
            && Dutiful(out, [Acquire(request, reply)])
            && Sound(Enter(Acquired(a, block, request), block), SettleAll(out, [Acquire(request, reply)]))
  {
    hide PoolOk, Extents, Total, Honest, Dutiful, SettleAll;
    var block := NewBlock(a, need, reply);
    OneAcquire(out, RequestSize(a, need), reply);
    EnterAcquired(a, out, block);
  }

  lemma AllocCoreKeepsSound(a: Arena, out: Ledger, size: nat, align: nat, reply: nat)
    requires Sound(a, out) && 0 < align
    requires Honest(out, AllocCore(a, size, align, reply).calls)
    ensures var o := AllocCore(a, size, align, reply);
            Dutiful(out, o.calls) && Sound(o.arena, SettleAll(out, o.calls))
  {
    hide PoolOk, Extents, Total, Honest, Dutiful, SettleAll;
    var need := WorstCase(a, size, align);
    var i := FirstFit(a.free, need);
    NoCalls(out);
    BumpKeepsSound(a, out, size, align);
    if Bump(a, size, align).ptr != NULL || a.fixed || need > PTRDIFF_MAX - HEADER {
    } else if i < |a.free| {
      EnterFromFree(a, out, i);
      BumpKeepsSound(Enter(WithoutFree(a, i), a.free[i]), out, size, align);
    } else if reply == NULL {
      OneRefusal(out, RequestSize(a, need));
    } else {
      var block, request := NewBlock(a, need, reply), RequestSize(a, need);
      AcquireKeepsSound(a, out, need, reply);
      BumpKeepsSound(Enter(Acquired(a, block, request), block), SettleAll(out, [Acquire(request, reply)]), size, align);
    }
  }

  lemma OneRefusal(out: Ledger, size: nat)
    ensures SettleAll(out, [Acquire(size, NULL)]) == out && Dutiful(out, [Acquire(size, NULL)])
  {
    assert [Acquire(size, NULL)][1..] == [];
  }

  lemma AllocNKeepsSound(a: Arena, out: Ledger, count: Size, size: Size, align: Size, reply: nat)
    requires Sound(a, out) && Honest(out, AllocN(a, count, size, align, reply).calls)
    ensures var o := AllocN(a, count, size, align, reply);
            Dutiful(out, o.calls) && Sound(o.arena, SettleAll(out, o.calls))
  {
    hide PoolOk, Extents, Total, Honest, Dutiful, SettleAll;
    NoCalls(out);
    if a.status == Ok && AlignValid(align) && count != 0 && size != 0 {
      match CheckedProduct(count, size) {
        case TooBig =>
        case Fits(total) =>
          AllocCoreKeepsSound(a, out, total, EffectiveAlign(a.redzone, align), reply);
      }
    }
  }

  lemma ResizeLastKeepsSound(a: Arena, out: Ledger, ptr: nat, oldSize: nat, newSize: nat)
    requires Sound(a, out)
    ensures Sound(ResizeLast(a, ptr, oldSize, newSize).arena, out)
  {
    hide PoolOk, Extents, Total;
    if IsLastAlloc(a, ptr, oldSize) {
      var block := Last(a.chain);
      var used := block.used + (newSize - oldSize);
      if used <= block.cap {
        SetLastUsed(a, out, used);
      }
    }
  }

  lemma ReallocKeepsSound(a: Arena, out: Ledger, ptr: nat, oldSize: nat, newSize: Size, align: Size, reply: nat)
    requires Sound(a, out) && Honest(out, Realloc(a, ptr, oldSize, newSize, align, reply).calls)
    ensures var o := Realloc(a, ptr, oldSize, newSize, align, reply);
            Dutiful(out, o.calls) && Sound(o.arena, SettleAll(out, o.calls))
  {
    hide PoolOk, Extents, Total, Honest, Dutiful, SettleAll, AllocN;
    NoCalls(out);
    if a.status == Ok && AlignValid(align) && newSize != 0 {
      if ptr == NULL {
        AllocNKeepsSound(a, out, 1, newSize, align, reply);
      } else if newSize <= PTRDIFF_MAX {
        ResizeLastKeepsSound(a, out, ptr, oldSize, newSize);
        if ResizeLast(a, ptr, oldSize, newSize).ptr == NULL {
          AllocNKeepsSound(a, out, 1, newSize, align, reply);
        }
      }
    }
  }

  lemma AdapterFreeKeepsSound(a: Arena, out: Ledger, ptr: nat, size: nat)
    requires Sound(a, out)
    ensures Sound(AdapterFree(a, ptr, size), out)
  {
    hide PoolOk, Extents, Total;
    if ptr != NULL && IsLastAlloc(a, ptr, size) {
      LastIsOk(a, out);
      SetLastUsed(a, out, ptr - Last(a.chain).Data());
    }
  }

  lemma LastIsOk(a: Arena, out: Ledger)
    requires Sound(a, out) && a.chain != []
    ensures BlockOk(Last(a.chain))
  {
    assert Last(a.chain) in a.chain;
  }

  // ----- popping -----

  // Neither popping nor releasing asks the parent for anything.
  lemma {:induction false} PopToBlockKeepsSound(a: Arena, out: Ledger, stop: nat)
    requires Sound(a, out)
    requires a.fixed ==> a.chain == [] || Last(a.chain).addr == stop
    ensures var o := PopToBlock(a, stop);
            Dutiful(out, o.calls) && Honest(out, o.calls) && Sound(o.arena, SettleAll(out, o.calls))
    decreases |a.chain|
  {
    hide PoolOk, Extents, Total, Honest, Dutiful, SettleAll, Sound;
    NoCalls(out);
    if a.chain != [] && Last(a.chain).addr != stop {
      var popped := PopLast(a);
      PopLastKeepsSound(a, out);
      PopLastKeepsKind(a);
      PopToBlockKeepsSound(popped.arena, SettleAll(out, popped.calls), stop);
      CallsCompose(out, popped.calls, PopToBlock(popped.arena, stop).calls);
    }
  }

  lemma PopLastKeepsKind(a: Arena)
    requires a.chain != []
    ensures PopLast(a).arena.fixed == a.fixed && PopLast(a).arena.chain == Front(a.chain)
  {
  }

  lemma TempEndKeepsSound(a: Arena, out: Ledger, temp: Temp)
    requires Sound(a, out)
    requires a.fixed ==> a.chain == [] || Last(a.chain).addr == temp.block
    ensures var o := TempEnd(a, temp);
            Dutiful(out, o.calls) && Honest(out, o.calls) && Sound(o.arena, SettleAll(out, o.calls))
  {
    hide PoolOk, Extents, Total, Honest, Dutiful, SettleAll, PopToBlock;
    PopToBlockKeepsSound(a, out, temp.block);
    var b, out' := PopToBlock(a, temp.block).arena, SettleAll(out, PopToBlock(a, temp.block).calls);
    if b.chain != [] && Last(b.chain).used > temp.blockUsed {
      LastIsOk(b, out');
      SetLastUsed(b, out', temp.blockUsed);
    }
  }

  // Moving an emptied block from the top of the chain to the bottom.
  lemma RotatedPool(rest: seq<Block>, block: Block, free: seq<Block>)
    requires PoolOk(rest + [block], free)
    ensures PoolOk([block.Blank()] + rest, free)
  {
    RetiredPool(rest, block, free);
    var chain, rotated := rest + [block], [block.Blank()] + rest;
    assert block in chain;
    forall i, j | 0 <= i < j < |rotated| ensures Apart(rotated[i], rotated[j]) {
      assert Apart(chain[j - 1], chain[|rest|]);
      assert 0 < i ==> Apart(chain[i - 1], chain[j - 1]);
    }
    forall b | b in rotated ensures BlockOk(b) && forall c :: c in free ==> Apart(b, c) {
      assert b == block.Blank() || b in rest;
    }
  }

  lemma RotateKeepsSound(a: Arena, out: Ledger)
    requires Sound(a, out) && a.chain != [] && !a.fixed
    ensures Sound(a.(chain := [Last(a.chain).Blank()] + Front(a.chain)), out)
  {
    hide PoolOk, Extents, Total;
    var rest, block := Front(a.chain), Last(a.chain);
    assert a.chain == rest + [block];
    RotatedPool(rest, block, a.free);
    Appended(rest, block);
    Prepended(block.Blank(), rest);
  }

  // Popping all blocks above one that stays at the bottom.
  lemma {:induction false} PopAboveKeepsSound(a: Arena, out: Ledger, kept: Block, keep: nat)
    requires !a.fixed && |a.chain| <= keep && Sound(a.(chain := [kept] + a.chain), out)
    ensures var o := PopAllBut(a, keep);
            && Dutiful(out, o.calls) && Honest(out, o.calls)
            && Sound(o.arena.(chain := [kept]), SettleAll(out, o.calls))
    decreases |a.chain|
  {
    hide PoolOk, Extents, Total, Honest, Dutiful, SettleAll, Sound;
    NoCalls(out);
    var whole := a.(chain := [kept] + a.chain);
    if a.chain == [] {
      assert [kept] + a.chain == [kept];
    } else {
      var popped := PopLast(a);
      PopLastKeepsSound(whole, out);
      assert Front(whole.chain) == [kept] + Front(a.chain);
      assert PopLast(whole).arena == popped.arena.(chain := [kept] + popped.arena.chain);
      PopAboveKeepsSound(popped.arena, SettleAll(out, popped.calls), kept, keep);
      CallsCompose(out, popped.calls, PopAllBut(popped.arena, keep).calls);
    }
  }

  lemma {:induction false} PopAllButKeepsSound(a: Arena, out: Ledger, keep: nat)
    requires !a.fixed && Sound(a, out)
    ensures var o := PopAllBut(a, keep);
            && Dutiful(out, o.calls) && Honest(out, o.calls)
            && Sound(o.arena.(chain := if keep < |a.chain| then [a.chain[keep].Blank()] else []),
                     SettleAll(out, o.calls))
    decreases |a.chain|
  {
    hide PoolOk, Extents, Total, Honest, Dutiful, SettleAll, Sound;
    NoCalls(out);
    if a.chain == [] {
      assert a.(chain := []) == a;
    } else if |a.chain| - 1 == keep {
      RotateKeepsSound(a, out);
      PopAboveKeepsSound(a.(chain := Front(a.chain)), out, Last(a.chain).Blank(), keep);
    } else {
      var popped := PopLast(a);
      PopLastKeepsSound(a, out);
      PopAllButKeepsSound(popped.arena, SettleAll(out, popped.calls), keep);
      CallsCompose(out, popped.calls, PopAllBut(popped.arena, keep).calls);
    }
  }

  lemma ResetKeepsSound(a: Arena, out: Ledger)
    requires Sound(a, out)
    ensures var o := Reset(a);
            Dutiful(out, o.calls) && Honest(out, o.calls) && Sound(o.arena, SettleAll(out, o.calls))
  {
    hide PoolOk, Extents, Total, Honest, Dutiful, SettleAll, PopAllBut;
    NoCalls(out);
    if !a.fixed {
      PopAllButKeepsSound(a, out, OldestNormal(a.chain));
    } else if a.chain != [] {
      SetLastUsed(a, out, 0);
      assert WithLastUsed(a, 0).chain == [Last(a.chain).Blank()];
    }
  }

  // ----- releasing lists -----

  function ReleaseCalls(blocks: seq<Block>): seq<Call> {
    if blocks == [] then [] else [Release(blocks[0].addr, blocks[0].Bytes())] + ReleaseCalls(blocks[1..])
  }

  lemma {:induction false} ReleaseAllMeaning(a: Arena, blocks: seq<Block>)
    ensures ReleaseAll(a, blocks) == Outcome(a.(committed := a.committed - Total(blocks)), NULL, ReleaseCalls(blocks))
    decreases |blocks|
  {
    if blocks != [] {
      var rest := blocks[1..];
      ReleaseAllMeaning(ReleaseBlock(a, blocks[0]), rest);
      assert blocks == [blocks[0]] + rest;
      Prepended(blocks[0], rest);
    }
  }

  lemma {:induction false} ReleaseCallsSettle(out: Ledger, blocks: seq<Block>)
    requires Extents(blocks) <= out
    ensures Dutiful(out, ReleaseCalls(blocks)) && Honest(out, ReleaseCalls(blocks))
    ensures SettleAll(out, ReleaseCalls(blocks)) == out - Extents(blocks)
    decreases |blocks|
  {
    hide Extents;
    if blocks == [] {
      NoExtents();
    } else {
      var first, rest := blocks[0], blocks[1..];
      assert blocks == [first] + rest;
      Prepended(first, rest);
      OneRelease(out, first.addr, first.Bytes());
      ReleaseCallsSettle(out - multiset{(first.addr, first.Bytes())}, rest);
      CallsCompose(out, [Release(first.addr, first.Bytes())], ReleaseCalls(rest));
    }
  }

  lemma NoExtents()
    ensures Extents([]) == multiset{} && Total([]) == 0
  {
  }

  lemma EmptyIsSound(a: Arena)
    requires (a.redzone == 0 || a.redzone == ASAN_REDZONE) && !a.fixed
    requires a.chain == [] && a.free == [] && a.committed == 0
    requires FIXED_OVERHEAD <= a.minBlock <= a.nextBlock <= a.maxBlock <= PTRDIFF_MAX
    ensures Sound(a, multiset{})
  {
    hide Extents, Total;
    NoExtents();
  }

  lemma TrimKeepsSound(a: Arena, out: Ledger)
    requires Sound(a, out)
    ensures var o := Trim(a);
            Dutiful(out, o.calls) && Honest(out, o.calls) && Sound(o.arena, SettleAll(out, o.calls))
  {
    hide Extents, Total, Honest, Dutiful, SettleAll, ReleaseAll;
    NoCalls(out);
    NoExtents();
    if !a.fixed {
      ReleaseAllMeaning(a, a.free);
      ReleaseCallsSettle(out, a.free);
    }
  }

  lemma {:induction false} ReverseExtents(blocks: seq<Block>)
    ensures Extents(Reverse(blocks)) == Extents(blocks)
    decreases |blocks|
  {
    hide Extents;
    if blocks != [] {
      var last, rest := Last(blocks), Front(blocks);
      assert blocks == rest + [last];
      ReverseExtents(rest);
      Appended(rest, last);
      Prepended(last, Reverse(rest));
    }
  }

  // Deinit leaves nothing outstanding.
  lemma DeinitSettles(a: Arena, out: Ledger)
    requires Sound(a, out)
    ensures var o := Deinit(a);
            && Dutiful(out, o.calls) && Honest(out, o.calls)
            && SettleAll(out, o.calls) == multiset{} && Sound(o.arena, multiset{})
  {
    hide Honest, Dutiful, SettleAll, ReleaseAll, Extents, Total, PoolOk;
    EmptyIsSound(Deinit(a).arena);
    if a.fixed {
      NoCalls(out);
    } else {
      ChainReleaseSettles(a, out);
    }
  }

  lemma ChainReleaseSettles(a: Arena, out: Ledger)
    requires out == Extents(a.chain) + Extents(a.free)
    ensures var calls := ReleaseAll(a, Reverse(a.chain)).calls + ReleaseAll(a, a.free).calls;
            Dutiful(out, calls) && Honest(out, calls) && SettleAll(out, calls) == multiset{}
  {
    hide Honest, Dutiful, SettleAll, ReleaseAll, Extents, Total;
    var newestFirst := Reverse(a.chain);
    ReverseExtents(a.chain);
    ReleaseAllMeaning(a, newestFirst);
    ReleaseAllMeaning(a, a.free);
    ReleaseCallsSettle(out, newestFirst);
    assert out - Extents(a.chain) == Extents(a.free);
    ReleaseCallsSettle(Extents(a.free), a.free);
    CallsCompose(out, ReleaseCalls(newestFirst), ReleaseCalls(a.free));
  }

  // ----- the start -----

  lemma InitIsSound(redzone: nat, minBlock: Size, maxBlock: Size)
    requires redzone == 0 || redzone == ASAN_REDZONE
    ensures Sound(Init(redzone), multiset{}) && Sound(InitSized(redzone, minBlock, maxBlock), multiset{})
  {
    hide Sound;
    EmptyIsSound(Init(redzone));
    EmptyIsSound(InitSized(redzone, minBlock, maxBlock));
  }

  lemma InitFixedIsSound(redzone: nat, buffer: nat, size: Size)
    requires redzone == 0 || redzone == ASAN_REDZONE
    requires buffer + size <= MODULUS
    ensures Sound(InitFixed(redzone, buffer, size), multiset{})
  {
    var a := InitFixed(redzone, buffer, size);
    if a.chain != [] {
      TotalSingle(a.chain[0]);
      assert a.chain == [a.chain[0]];
    }
  }
}
