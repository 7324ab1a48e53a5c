// A scope's work, ended and repeated, returns the same addresses without
// asking the parent for anything; so does a fresh arena's run after reset.
module ArenaReplay {
  import opened Arithmetic
  import opened Machine
  import opened WordBits
  import opened ArenaModel
  import opened ArenaSound
  import opened ArenaFrames
  import opened ArenaAlloc
  import opened ArenaScopes
  import opened ArenaRuns
  import opened ArenaSafety
  import opened ArenaStatistics

  function Blanks(blocks: seq<Block>): seq<Block> {
    seq(|blocks|, i requires 0 <= i < |blocks| => blocks[i].Blank())
  }

  // The chain kept its blocks, whatever their cursors, and may have more.
  ghost predicate KeptBlocks(chain: seq<Block>, later: seq<Block>) {
    |chain| <= |later| && forall i :: 0 <= i < |chain| ==> chain[i].Blank() == later[i].Blank()
  }

  // ----- one arena operation on two arenas with the same chain -----

  // The same blocks and cursors, hence the same answers while nothing grows.
  ghost predicate SameCursor(a: Arena, b: Arena) {
    && a.chain == b.chain && a.used == b.used && a.redzone == b.redzone && a.fixed == b.fixed
    && a.status == b.status
  }

  lemma BumpIsSame(a: Arena, b: Arena, size: nat, align: nat)
    requires SameCursor(a, b) && 0 < align
    ensures var o, p := Bump(a, size, align), Bump(b, size, align);
            && o.ptr == p.ptr && SameCursor(o.arena, p.arena) && p.arena.free == b.free && p.calls == []
            && KeptBlocks(a.chain, o.arena.chain) && |o.arena.chain| == |a.chain|
            && (a.chain != [] ==> Last(o.arena.chain).Blank() == Last(a.chain).Blank())
            && o.arena.free == a.free
  {
  }

  // If growth made this arena enter a block, the other one finds that block at
  // the head of its free list.
  lemma GrowthIsSame(a: Arena, b: Arena, out: Ledger, size: nat, align: nat, reply: nat)
    requires Sound(a, out) && SameCursor(a, b) && 0 < align && IsServedAlign(align) && 0 < size
    requires Honest(out, GrowAndBump(a, size, align, reply).calls)
    requires GrowAndBump(a, size, align, reply).ptr != NULL
    requires b.free != [] && b.free[0] == Last(Entered(a, size, align, reply).chain)
    ensures var o, p := GrowAndBump(a, size, align, reply), GrowAndBump(b, size, align, NULL);
            && o.ptr == p.ptr && SameCursor(o.arena, p.arena)
            && p.arena.free == b.free[1..] && p.calls == []
            && KeptBlocks(a.chain, o.arena.chain) && |o.arena.chain| == |a.chain| + 1
            && Last(o.arena.chain).Blank() == Last(Entered(a, size, align, reply).chain)
  {
    hide Sound, Honest, Bump, KeptBlocks, ChainOk, BlockOk;
    GrowthServes(a, out, size, align, reply);
    EnteredUpkeep(a, size, align, reply);
    var entered := Entered(a, size, align, reply);
    EnteredBlock(a, out, size, align, reply);
    assert FirstFit(b.free, WorstCase(b, size, align)) == 0;
    var other := Enter(WithoutFree(b, 0), b.free[0]);
    assert b.free[..0] + b.free[1..] == b.free[1..];
    assert entered.chain == Front(entered.chain) + [Last(entered.chain)] == other.chain;
    BumpIsSame(entered, other, size, align);
    KeptGrows(a.chain, entered.chain, GrowAndBump(a, size, align, reply).arena.chain);
  }

  // The entered block is empty and holds the worst case.
  lemma EnteredBlock(a: Arena, out: Ledger, size: nat, align: nat, reply: nat)
    requires Sound(a, out) && 0 < align && IsServedAlign(align) && 0 < size
    requires Honest(out, GrowAndBump(a, size, align, reply).calls)
    requires GrowAndBump(a, size, align, reply).ptr != NULL
    ensures var block := Last(Entered(a, size, align, reply).chain);
            block.Blank() == block && WorstCase(a, size, align) <= block.cap
    ensures Entered(a, size, align, reply).chain != [] && !a.fixed
    ensures WorstCase(a, size, align) <= PTRDIFF_MAX - HEADER
  {
    hide Sound, Honest, Bump, ChainOk;
    GrowthServes(a, out, size, align, reply);
    EnteredIsSound(a, out, size, align, reply);
  }

  lemma KeptGrows(chain: seq<Block>, entered: seq<Block>, later: seq<Block>)
    requires entered != [] && Front(entered) == chain && KeptBlocks(entered, later)
    ensures KeptBlocks(chain, later)
  {
    assert forall i :: 0 <= i < |chain| ==> chain[i] == entered[i];
  }

  lemma KeptTransitive(x: seq<Block>, y: seq<Block>, z: seq<Block>)
    requires KeptBlocks(x, y) && KeptBlocks(y, z)
    ensures KeptBlocks(x, z)
  {
  }

  // What the repetition has to find for this allocation: the block entered,
  // if one was, at the head of its free list.
  ghost predicate Supplied(a: Arena, later: seq<Block>, free: seq<Block>) {
    |a.chain| < |later| ==> free != [] && free[0] == later[|a.chain|].Blank()
  }

  // The outcomes of the same call on both arenas.
  ghost predicate SameOutcome(a: Arena, b: Arena, o: Outcome, p: Outcome) {
    && o.ptr == p.ptr && SameCursor(o.arena, p.arena) && p.calls == []
    && KeptBlocks(a.chain, o.arena.chain) && |o.arena.chain| <= |a.chain| + 1
    && if |a.chain| < |o.arena.chain| then b.free != [] && p.arena.free == b.free[1..]
       else p.arena.free == b.free
  }

  lemma CoreIsSame(a: Arena, b: Arena, out: Ledger, size: nat, align: nat, reply: nat)
    requires Sound(a, out) && SameCursor(a, b) && 0 < align && IsServedAlign(align) && 0 < size
    requires Honest(out, AllocCore(a, size, align, reply).calls)
    requires AllocCore(a, size, align, reply).ptr != NULL
    requires Supplied(a, AllocCore(a, size, align, reply).arena.chain, b.free)
    ensures SameOutcome(a, b, AllocCore(a, size, align, reply), AllocCore(b, size, align, NULL))
  {
    hide Sound, Honest, Bump, KeptBlocks, GrowAndBump, ChainOk, BlockOk;
    BumpIsSame(a, b, size, align);
    if Bump(a, size, align).ptr == NULL {
      EnteredBlock(a, out, size, align, reply);
      GrownBlock(a, out, size, align, reply);
      GrowthIsSame(a, b, out, size, align, reply);
    }
  }

  lemma GrownBlock(a: Arena, out: Ledger, size: nat, align: nat, reply: nat)
    requires Sound(a, out) && 0 < align && IsServedAlign(align) && 0 < size
    requires Honest(out, GrowAndBump(a, size, align, reply).calls)
    requires GrowAndBump(a, size, align, reply).ptr != NULL
    ensures Entered(a, size, align, reply).chain != []
    ensures var chain := GrowAndBump(a, size, align, reply).arena.chain;
            && |chain| == |a.chain| + 1
            && chain[|a.chain|].Blank() == Last(Entered(a, size, align, reply).chain)
  {
    hide Sound, Honest, Bump, KeptBlocks, ChainOk, BlockOk;
    GrowthServes(a, out, size, align, reply);
    var entered := Entered(a, size, align, reply);
    BumpIsSame(entered, entered, size, align);
    EnteredBlock(a, out, size, align, reply);
  }

  lemma AllocNIsSame(a: Arena, b: Arena, out: Ledger, count: Size, size: Size, align: Size, reply: nat)
    requires Sound(a, out) && SameCursor(a, b)
    requires Honest(out, AllocN(a, count, size, align, reply).calls)
    requires AllocN(a, count, size, align, reply).arena.status == Ok
    requires Supplied(a, AllocN(a, count, size, align, reply).arena.chain, b.free)
    ensures SameOutcome(a, b, AllocN(a, count, size, align, reply), AllocN(b, count, size, align, NULL))
  {
    hide Sound, Honest, AllocCore, KeptBlocks, CheckedProduct, AlignValid, Supplied;
    KeptItself(a.chain);
    if a.status == Ok && AlignValid(align) && count != 0 && size != 0 {
      CheckedProductMeaning(count, size);
      PositiveProduct(count, size);
      EffectiveAlignIsServed(a.redzone, align);
      match CheckedProduct(count, size) {
        case TooBig =>
        case Fits(total) =>
          var effective := EffectiveAlign(a.redzone, align);
          ServedWhenOk(a, out, total, effective, reply);
          CoreIsSame(a, b, out, total, effective, reply);
      }
    }
  }

  lemma KeptItself(chain: seq<Block>)
    ensures KeptBlocks(chain, chain)
  {
  }

  // A request that leaves the status good was served.
  lemma ServedWhenOk(a: Arena, out: Ledger, size: nat, align: nat, reply: nat)
    requires Sound(a, out) && 0 < align && IsServedAlign(align) && 0 < size
    requires Honest(out, AllocCore(a, size, align, reply).calls)
    requires a.status == Ok && AllocCore(a, size, align, reply).arena.status == Ok
    ensures AllocCore(a, size, align, reply).ptr != NULL
  {
    hide Sound, Honest, Bump;
    BumpUpkeep(a, size, align);
    if Bump(a, size, align).ptr == NULL {
      GrowthServes(a, out, size, align, reply);
    }
  }

  lemma ResizeLastIsSame(a: Arena, b: Arena, ptr: nat, oldSize: nat, newSize: nat)
    requires SameCursor(a, b)
    ensures var o, p := ResizeLast(a, ptr, oldSize, newSize), ResizeLast(b, ptr, oldSize, newSize);
            SameOutcome(a, b, o, p) && |o.arena.chain| == |a.chain|
  {
  }

  lemma ReallocIsSame(a: Arena, b: Arena, out: Ledger, ptr: nat, oldSize: nat, newSize: Size, align: Size, reply: nat)
    requires Sound(a, out) && SameCursor(a, b) && ptr != NULL
    requires Honest(out, Realloc(a, ptr, oldSize, newSize, align, reply).calls)
    requires Realloc(a, ptr, oldSize, newSize, align, reply).arena.status == Ok
    requires Supplied(a, Realloc(a, ptr, oldSize, newSize, align, reply).arena.chain, b.free)
    ensures SameOutcome(a, b, Realloc(a, ptr, oldSize, newSize, align, reply),
                        Realloc(b, ptr, oldSize, newSize, align, NULL))
    ensures (ResizeLast(a, ptr, oldSize, newSize).ptr != NULL) == (ResizeLast(b, ptr, oldSize, newSize).ptr != NULL)
  {
    hide Sound, Honest, AllocN, ResizeLast, KeptBlocks, AlignValid, Supplied;
    KeptItself(a.chain);
    ResizeLastIsSame(a, b, ptr, oldSize, newSize);
    if a.status == Ok && AlignValid(align) && 0 < newSize <= PTRDIFF_MAX
       && ResizeLast(a, ptr, oldSize, newSize).ptr == NULL {
      AllocNIsSame(a, b, out, 1, newSize, align, reply);
    }
  }

  lemma FreeIsSame(a: Arena, b: Arena, ptr: nat, size: nat)
    requires SameCursor(a, b)
    ensures var o, p := AdapterFree(a, ptr, size), AdapterFree(b, ptr, size);
            && SameCursor(o, p) && p.free == b.free
            && KeptBlocks(a.chain, o.chain) && |o.chain| == |a.chain|
  {
  }

  // ----- steps of two worlds -----

  // Operations that stay in the scope and allocate, resize, free or write.
  predicate IsScopeOp(op: Op) {
    op.Alloc? || op.Resize? || op.Free? || op.Write?
  }

  // The second world is where the first is, with the blocks the first will
  // still enter, up to the chain `last`, waiting at the head of its free list.
  ghost predicate Twin(w: World, v: World, last: seq<Block>, rest: seq<Block>) {
    && SameCursor(w.a, v.a) && w.live == v.live && w.dropped == v.dropped
    && BaseCount(w) == BaseCount(v)
    && KeptBlocks(w.a.chain, last)
    && v.a.free == Blanks(last[|w.a.chain|..]) + rest
  }

  lemma TwinSupplied(w: World, v: World, last: seq<Block>, rest: seq<Block>, chain: seq<Block>)
    requires Twin(w, v, last, rest) && KeptBlocks(chain, last) && |w.a.chain| <= |chain|
    ensures Supplied(w.a, chain, v.a.free)
  {
    if |w.a.chain| < |chain| {
      var tail := last[|w.a.chain|..];
      assert v.a.free[0] == Blanks(tail)[0] == last[|w.a.chain|].Blank();
    }
  }

  lemma TwinAdvances(n: nat, last: seq<Block>, rest: seq<Block>)
    requires n < |last|
    ensures Blanks(last[n..]) + rest != []
    ensures (Blanks(last[n..]) + rest)[1..] == Blanks(last[n + 1..]) + rest
  {
    assert last[n..][1..] == last[n + 1..];
    assert Blanks(last[n..])[1..] == Blanks(last[n + 1..]);
  }

  // The second world after a step with the same outcome on the arenas.
  lemma TwinAfter(w: World, v: World, w': World, v': World, o: Outcome, p: Outcome,
                  last: seq<Block>, rest: seq<Block>)
    requires Twin(w, v, last, rest) && SameOutcome(w.a, v.a, o, p)
    requires w'.a == o.arena && v'.a == p.arena && w'.live == v'.live && w'.dropped == v'.dropped
    requires BaseCount(w') == BaseCount(v') && KeptBlocks(o.arena.chain, last)
    ensures Twin(w', v', last, rest)
  {
    if |w.a.chain| < |o.arena.chain| {
      TwinAdvances(|w.a.chain|, last, rest);
    }
  }

  // One step of the run, repeated where the first left off.
  ghost predicate StepsAlike(w: World, v: World, op: Op, reply: nat, last: seq<Block>, rest: seq<Block>) {
    && Legal(v, op, NULL)
    && Step(v, op, NULL).ptr == Step(w, op, reply).ptr && Step(v, op, NULL).calls == []
    && Twin(Step(w, op, reply).world, Step(v, op, NULL).world, last, rest)
  }

  ghost predicate MayRepeat(w: World, v: World, op: Op, reply: nat, last: seq<Block>, rest: seq<Block>) {
    && Inv(w) && Legal(w, op, reply) && Twin(w, v, last, rest)
    && Step(w, op, reply).world.a.status == Ok
    && KeptBlocks(Step(w, op, reply).world.a.chain, last)
    && |w.a.chain| <= |Step(w, op, reply).world.a.chain|
  }

  lemma AllocAlike(w: World, v: World, count: Size, size: Size, align: Size, fill: Fill, reply: nat,
                   last: seq<Block>, rest: seq<Block>)
    requires MayRepeat(w, v, Alloc(count, size, align, fill), reply, last, rest)
    ensures StepsAlike(w, v, Alloc(count, size, align, fill), reply, last, rest)
  {
    hide FrameOk, Sound, StackOk, Honest, AllocN, KeptBlocks, Twin, SameOutcome, Supplied, SettleAll;
    var op := Alloc(count, size, align, fill);
    var o, p := AllocN(w.a, count, size, align, reply), AllocN(v.a, count, size, align, NULL);
    NoCalls(v.out);
    TwinFacts(w, v, last, rest);
    TwinSupplied(w, v, last, rest, o.arena.chain);
    AllocNIsSame(w.a, v.a, w.out, count, size, align, reply);
    OutcomeFacts(w.a, v.a, o, p);
    TwinAfter(w, v, Step(w, op, reply).world, Step(v, op, NULL).world, o, p, last, rest);
  }

  lemma OutcomeFacts(a: Arena, b: Arena, o: Outcome, p: Outcome)
    requires SameOutcome(a, b, o, p)
    ensures o.ptr == p.ptr && p.calls == [] && o.arena.chain == p.arena.chain
  {
  }

  lemma TwinFacts(w: World, v: World, last: seq<Block>, rest: seq<Block>)
    requires Twin(w, v, last, rest)
    ensures SameCursor(w.a, v.a) && w.live == v.live && w.dropped == v.dropped && BaseCount(w) == BaseCount(v)
  {
  }

  lemma ResizeAlike(w: World, v: World, i: nat, newSize: Size, reply: nat, last: seq<Block>, rest: seq<Block>)
    requires MayRepeat(w, v, Resize(i, newSize), reply, last, rest)
    ensures StepsAlike(w, v, Resize(i, newSize), reply, last, rest)
  {
    hide FrameOk, Sound, StackOk, Honest, Realloc, ResizeLast, KeptBlocks, Twin, SameOutcome, Supplied, SettleAll;
    var op, l := Resize(i, newSize), w.live[i];
    NoCalls(v.out);
    TwinFacts(w, v, last, rest);
    LiveIsNotNull(w.a.redzone, FrameOf(w), i);
    var o := Realloc(w.a, l.ptr, l.size, newSize, l.align, reply);
    var p := Realloc(v.a, l.ptr, l.size, newSize, l.align, NULL);
    TwinSupplied(w, v, last, rest, o.arena.chain);
    ReallocIsSame(w.a, v.a, w.out, l.ptr, l.size, newSize, l.align, reply);
    OutcomeFacts(w.a, v.a, o, p);
    TwinAfter(w, v, Step(w, op, reply).world, Step(v, op, NULL).world, o, p, last, rest);
  }

  lemma FreeAlike(w: World, v: World, i: nat, reply: nat, last: seq<Block>, rest: seq<Block>)
    requires MayRepeat(w, v, Free(i), reply, last, rest)
    ensures StepsAlike(w, v, Free(i), reply, last, rest)
  {
    hide FrameOk, Sound, StackOk, AdapterFree, KeptBlocks, Twin, SettleAll;
    var op, l := Free(i), w.live[i];
    NoCalls(v.out);
    TwinFacts(w, v, last, rest);
    FreeIsSame(w.a, v.a, l.ptr, l.size);
    var o, p := Outcome(AdapterFree(w.a, l.ptr, l.size), NULL, []), Outcome(AdapterFree(v.a, l.ptr, l.size), NULL, []);
    TwinAfter(w, v, Step(w, op, reply).world, Step(v, op, NULL).world, o, p, last, rest);
  }

  lemma WriteAlike(w: World, v: World, i: nat, offset: nat, byte: Byte, reply: nat,
                   last: seq<Block>, rest: seq<Block>)
    requires MayRepeat(w, v, Write(i, offset, byte), reply, last, rest)
    ensures StepsAlike(w, v, Write(i, offset, byte), reply, last, rest)
  {
    hide Inv, KeptBlocks, SettleAll;
    NoCalls(v.out);
  }

  lemma ScopeOpAlike(w: World, v: World, op: Op, reply: nat, last: seq<Block>, rest: seq<Block>)
    requires IsScopeOp(op) && MayRepeat(w, v, op, reply, last, rest)
    ensures StepsAlike(w, v, op, reply, last, rest)
  {
    hide MayRepeat, StepsAlike;
    match op {
      case Alloc(count, size, align, fill) => AllocAlike(w, v, count, size, align, fill, reply, last, rest);
      case Resize(i, newSize) => ResizeAlike(w, v, i, newSize, reply, last, rest);
      case Free(i) => FreeAlike(w, v, i, reply, last, rest);
      case Write(i, offset, byte) => WriteAlike(w, v, i, offset, byte, reply, last, rest);
      case _ =>
    }
  }

  // ----- runs of scope operations -----

  predicate AllScopeOps(ops: seq<Op>) {
    forall i :: 0 <= i < |ops| ==> IsScopeOp(ops[i])
  }

  lemma StatusSticks(w: World, op: Op, reply: nat)
    requires IsScopeOp(op) && w.a.status != Ok
    ensures Step(w, op, reply).world.a.status != Ok
  {
  }

  lemma {:induction false} RunStatusSticks(w: World, ops: seq<Op>, replies: seq<nat>)
    requires |ops| == |replies| && AllScopeOps(ops)
    requires w.a.status != Ok
    ensures Run(w, ops, replies).a.status != Ok
    decreases |ops|
  {
    hide Step;
    if ops != [] {
      assert IsScopeOp(ops[0]);
      StatusSticks(w, ops[0], replies[0]);
      RunStatusSticks(Step(w, ops[0], replies[0]).world, ops[1..], replies[1..]);
    }
  }

  // A free list that supplies whatever block the given chain has next.
  function Supplier(a: Arena, later: seq<Block>): Arena {
    if |a.chain| < |later| then a.(free := [later[|a.chain|].Blank()]) else a
  }

  lemma ScopeOpKeepsBlocks(w: World, op: Op, reply: nat)
    requires Inv(w) && Legal(w, op, reply) && IsScopeOp(op)
    requires Step(w, op, reply).world.a.status == Ok
    ensures KeptBlocks(w.a.chain, Step(w, op, reply).world.a.chain)
  {
    hide FrameOk, Sound, StackOk, Honest, AllocN, Realloc, KeptBlocks, AdapterFree, SettleAll;
    var b := Supplier(w.a, Step(w, op, reply).world.a.chain);
    KeptItself(w.a.chain);
    match op {
      case Alloc(count, size, align, fill) => AllocNIsSame(w.a, b, w.out, count, size, align, reply);
      case Resize(i, newSize) =>
        var l := w.live[i];
        LiveIsNotNull(w.a.redzone, FrameOf(w), i);
        ReallocIsSame(w.a, b, w.out, l.ptr, l.size, newSize, l.align, reply);
      case Free(i) => FreeIsSame(w.a, b, w.live[i].ptr, w.live[i].size);
      case _ =>
    }
  }

  // The first step of a legal run that ends with a good status.
  lemma FirstStep(w: World, ops: seq<Op>, replies: seq<nat>)
    requires |ops| == |replies| && ops != [] && Inv(w) && LegalRun(w, ops, replies) && AllScopeOps(ops)
    requires Run(w, ops, replies).a.status == Ok
    ensures var next := Step(w, ops[0], replies[0]).world;
            && Legal(w, ops[0], replies[0]) && IsScopeOp(ops[0]) && Inv(next) && next.a.status == Ok
            && KeptBlocks(w.a.chain, next.a.chain)
            && LegalRun(next, ops[1..], replies[1..]) && AllScopeOps(ops[1..])
            && Run(next, ops[1..], replies[1..]) == Run(w, ops, replies)
  {
    hide Inv, Legal, Step, KeptBlocks;
    var next := Step(w, ops[0], replies[0]).world;
    assert IsScopeOp(ops[0]);
    assert AllScopeOps(ops[1..]);
    StepKeepsInv(w, ops[0], replies[0]);
    StepInv(w, ops[0], replies[0]);
    if next.a.status != Ok {
      RunStatusSticks(next, ops[1..], replies[1..]);
    }
    ScopeOpKeepsBlocks(w, ops[0], replies[0]);
  }

  lemma {:induction false} RunKeepsBlocks(w: World, ops: seq<Op>, replies: seq<nat>)
    requires |ops| == |replies| && Inv(w) && LegalRun(w, ops, replies) && AllScopeOps(ops)
    requires Run(w, ops, replies).a.status == Ok
    ensures KeptBlocks(w.a.chain, Run(w, ops, replies).a.chain)
    decreases |ops|
  {
    hide Inv, LegalRun, Step, KeptBlocks, AllScopeOps;
    KeptItself(w.a.chain);
    if ops != [] {
      FirstStep(w, ops, replies);
      var next := Step(w, ops[0], replies[0]).world;
      RunKeepsBlocks(next, ops[1..], replies[1..]);
      KeptTransitive(w.a.chain, next.a.chain, Run(w, ops, replies).a.chain);
    }
  }

  // The pointers a run returned, in order.
  function Pointers(w: World, ops: seq<Op>, replies: seq<nat>): seq<nat>
    requires |ops| == |replies|
    decreases |ops|
  {
    if ops == [] then []
    else [Step(w, ops[0], replies[0]).ptr] + Pointers(Step(w, ops[0], replies[0]).world, ops[1..], replies[1..])
  }

  // A parent that refuses everything.
  function Refusals(n: nat): seq<nat> {
    seq(n, _ => NULL)
  }

  // The repetition, with a parent that refuses everything, is legal, returns
  // the same pointers, and never calls it.
  ghost predicate Repeats(w: World, v: World, ops: seq<Op>, replies: seq<nat>)
    requires |ops| == |replies|
  {
    && LegalRun(v, ops, Refusals(|ops|))
    && Pointers(v, ops, Refusals(|ops|)) == Pointers(w, ops, replies)
    && Trace(v, ops, Refusals(|ops|)) == []
  }

  lemma RepeatsCons(w: World, v: World, ops: seq<Op>, replies: seq<nat>)
    requires |ops| == |replies| && ops != []
    requires Legal(v, ops[0], NULL) && Step(v, ops[0], NULL).calls == []
    requires Step(v, ops[0], NULL).ptr == Step(w, ops[0], replies[0]).ptr
    requires Repeats(Step(w, ops[0], replies[0]).world, Step(v, ops[0], NULL).world, ops[1..], replies[1..])
    ensures Repeats(w, v, ops, replies)
    ensures Run(v, ops, Refusals(|ops|)) == Run(Step(v, ops[0], NULL).world, ops[1..], Refusals(|ops| - 1))
  {
    hide Legal, Step;
    assert Refusals(|ops|)[0] == NULL && Refusals(|ops|)[1..] == Refusals(|ops| - 1);
  }

  lemma {:induction false} TwinRuns(w: World, v: World, ops: seq<Op>, replies: seq<nat>, rest: seq<Block>)
    requires |ops| == |replies| && Inv(w) && LegalRun(w, ops, replies) && AllScopeOps(ops)
    requires Run(w, ops, replies).a.status == Ok
    requires Twin(w, v, Run(w, ops, replies).a.chain, rest)
    ensures Repeats(w, v, ops, replies)
    ensures Twin(Run(w, ops, replies), Run(v, ops, Refusals(|ops|)), Run(w, ops, replies).a.chain, rest)
    decreases |ops|
  {
    hide Inv, Legal, Step, KeptBlocks, AllScopeOps, Twin;
    if ops != [] {
      hide LegalRun, Run, Repeats;
      FirstStep(w, ops, replies);
      var next, last := Step(w, ops[0], replies[0]).world, Run(w, ops, replies).a.chain;
      RunKeepsBlocks(next, ops[1..], replies[1..]);
      KeptLength(w.a.chain, next.a.chain);
      ScopeOpAlike(w, v, ops[0], replies[0], last, rest);
      TwinRuns(next, Step(v, ops[0], NULL).world, ops[1..], replies[1..], rest);
      RepeatsCons(w, v, ops, replies);
    }
  }

  lemma KeptLength(chain: seq<Block>, later: seq<Block>)
    requires KeptBlocks(chain, later)
    ensures |chain| <= |later|
  {
  }

  // ----- a scope repeated -----

  lemma ReallocUpkeep(a: Arena, ptr: nat, oldSize: nat, newSize: Size, align: Size, reply: nat)
    ensures SameFixture(a, Realloc(a, ptr, oldSize, newSize, align, reply).arena)
  {
    hide AllocN, AlignValid;
    AllocNUpkeep(a, 1, newSize, align, reply);
  }

  lemma ScopeOpUpkeep(w: World, op: Op, reply: nat)
    requires IsScopeOp(op)
    ensures var next := Step(w, op, reply).world;
            SameFixture(w.a, next.a) && next.stack == w.stack
  {
    hide AllocN, Realloc, ReallocFrame;
    match op {
      case Alloc(count, size, align, fill) => AllocNUpkeep(w.a, count, size, align, reply);
      case Resize(i, newSize) =>
        if i < |w.live| {
          ReallocUpkeep(w.a, w.live[i].ptr, w.live[i].size, newSize, w.live[i].align, reply);
        }
      case _ =>
    }
  }

  lemma {:induction false} ScopeOpsUpkeep(w: World, ops: seq<Op>, replies: seq<nat>, depth: nat)
    requires |ops| == |replies| && AllScopeOps(ops)
    ensures StaysInside(w, ops, replies, depth)
    ensures Run(w, ops, replies).stack == w.stack
    ensures Run(w, ops, replies).a.redzone == w.a.redzone && Run(w, ops, replies).a.fixed == w.a.fixed
    decreases |ops|
  {
    hide Step;
    if ops != [] {
      assert IsScopeOp(ops[0]);
      ScopeOpUpkeep(w, ops[0], replies[0]);
      ScopeOpsUpkeep(Step(w, ops[0], replies[0]).world, ops[1..], replies[1..], depth);
    }
  }

  lemma {:induction false} NormalsAreBlanks(blocks: seq<Block>)
    requires forall b :: b in blocks ==> !b.oversize
    ensures EmptiedNormals(blocks) == Blanks(blocks)
    decreases |blocks|
  {
    if blocks != [] {
      assert Last(blocks) in blocks && forall b :: b in Front(blocks) ==> b in blocks;
      NormalsAreBlanks(Front(blocks));
      assert Blanks(blocks) == Blanks(Front(blocks)) + [Last(blocks).Blank()];
    }
  }

  // ----- what a repetition leaves besides -----

  // Everything but the blocks, the counts of used bytes, and the status.
  ghost predicate SameBooks(a: Arena, b: Arena) {
    b == a.(chain := b.chain, free := b.free, used := b.used, highWater := b.highWater, status := b.status)
  }

  lemma CoreIsQuiet(a: Arena, size: nat, align: nat, reply: nat)
    requires 0 < align && AllocCore(a, size, align, reply).calls == []
    ensures SameBooks(a, AllocCore(a, size, align, reply).arena)
  {
    hide Padding;
  }

  lemma AllocNIsQuiet(a: Arena, count: Size, size: Size, align: Size, reply: nat)
    requires AllocN(a, count, size, align, reply).calls == []
    ensures SameBooks(a, AllocN(a, count, size, align, reply).arena)
  {
    hide AllocCore, AlignValid, CheckedProduct;
    if a.status == Ok && AlignValid(align) && count != 0 && size != 0 {
      match CheckedProduct(count, size) {
        case TooBig =>
        case Fits(total) => CoreIsQuiet(a, total, EffectiveAlign(a.redzone, align), reply);
      }
    }
  }

  lemma ScopeOpIsQuiet(w: World, op: Op, reply: nat)
    requires IsScopeOp(op) && Step(w, op, reply).calls == []
    ensures SameBooks(w.a, Step(w, op, reply).world.a) && Step(w, op, reply).world.out == w.out
  {
    hide AllocN, AlignValid, ReallocFrame;
    NoCalls(w.out);
    match op {
      case Alloc(count, size, align, fill) => AllocNIsQuiet(w.a, count, size, align, reply);
      case Resize(i, newSize) =>
        if i < |w.live| && AllocN(w.a, 1, newSize, w.live[i].align, reply).calls == [] {
          AllocNIsQuiet(w.a, 1, newSize, w.live[i].align, reply);
        }
      case _ =>
    }
  }

  lemma {:induction false} RunIsQuiet(w: World, ops: seq<Op>, replies: seq<nat>)
    requires |ops| == |replies| && AllScopeOps(ops) && Trace(w, ops, replies) == []
    ensures SameBooks(w.a, Run(w, ops, replies).a) && Run(w, ops, replies).out == w.out
    decreases |ops|
  {
    hide Step;
    if ops != [] {
      assert IsScopeOp(ops[0]);
      var done := Step(w, ops[0], replies[0]);
      assert |Trace(w, ops, replies)| == |done.calls| + |Trace(done.world, ops[1..], replies[1..])|;
      ScopeOpIsQuiet(w, ops[0], replies[0]);
      RunIsQuiet(done.world, ops[1..], replies[1..]);
    }
  }

  // Both worlds count the same bytes at every moment.
  lemma ReachedAlike(w: World, v: World, op: Op, reply: nat, last: seq<Block>, rest: seq<Block>)
    requires IsScopeOp(op) && MayRepeat(w, v, op, reply, last, rest)
    ensures Reached(v, op, NULL) == Reached(w, op, reply)
  {
    hide FrameOk, Sound, StackOk, Honest, AllocN, KeptBlocks, Twin, SameOutcome, Supplied, SettleAll, Step;
    ScopeOpAlike(w, v, op, reply, last, rest);
    TwinFacts(w, v, last, rest);
    TwinFacts(Step(w, op, reply).world, Step(v, op, NULL).world, last, rest);
  }

  lemma {:induction false} TwinHighest(h: int, w: World, v: World, ops: seq<Op>, replies: seq<nat>, rest: seq<Block>)
    requires |ops| == |replies| && Inv(w) && LegalRun(w, ops, replies) && AllScopeOps(ops)
    requires Run(w, ops, replies).a.status == Ok
    requires Twin(w, v, Run(w, ops, replies).a.chain, rest)
    ensures Highest(h, v, ops, Refusals(|ops|)) == Highest(h, w, ops, replies)
    decreases |ops|
  {
    hide Inv, Legal, Step, KeptBlocks, AllScopeOps, Twin, Reached;
    if ops != [] {
      hide LegalRun, Run, Repeats;
      FirstStep(w, ops, replies);
      var next, last := Step(w, ops[0], replies[0]).world, Run(w, ops, replies).a.chain;
      RunKeepsBlocks(next, ops[1..], replies[1..]);
      KeptLength(w.a.chain, next.a.chain);
      ScopeOpAlike(w, v, ops[0], replies[0], last, rest);
      ReachedAlike(w, v, ops[0], replies[0], last, rest);
      assert Refusals(|ops|)[0] == NULL && Refusals(|ops|)[1..] == Refusals(|ops| - 1);
      TwinHighest(Max(h, Reached(w, ops[0], replies[0])), next, Step(v, ops[0], NULL).world, ops[1..], replies[1..], rest);
    }
  }

  lemma {:induction false} HighestAbsorbs(h: int, k: int, w: World, ops: seq<Op>, replies: seq<nat>)
    requires |ops| == |replies| && AllScopeOps(ops)
    ensures Highest(Max(h, k), w, ops, replies) == Max(Highest(h, w, ops, replies), k)
    ensures h <= Highest(h, w, ops, replies)
    decreases |ops|
  {
    hide Step, Reached;
    if ops != [] {
      assert IsScopeOp(ops[0]);
      var r := Reached(w, ops[0], replies[0]);
      assert Max(Max(h, k), r) == Max(Max(h, r), k);
      HighestAbsorbs(Max(h, r), k, Step(w, ops[0], replies[0]).world, ops[1..], replies[1..]);
    }
  }

  // Where the repetition ends, given where it starts and that the first run's
  // highest count is already on record.
  lemma EndsAlike(w: World, v: World, ops: seq<Op>, replies: seq<nat>, rest: seq<Block>)
    requires |ops| == |replies| && AllScopeOps(ops)
    requires Inv(w) && LegalRun(w, ops, replies) && Inv(v) && Repeats(w, v, ops, replies)
    requires var last, end := Run(w, ops, replies), Run(v, ops, Refusals(|ops|));
             && v.a.highWater == last.a.highWater && Twin(last, end, last.a.chain, rest)
             && Highest(v.a.highWater, v, ops, Refusals(|ops|)) == Highest(v.a.highWater, w, ops, replies)
    ensures var last, end := Run(w, ops, replies), Run(v, ops, Refusals(|ops|));
            && end.a == v.a.(chain := last.a.chain, free := rest, used := last.a.used, status := last.a.status)
            && end.live == last.live && end.dropped == last.dropped && end.out == v.out
  {
    hide Inv, LegalRun, Run, KeptBlocks, AllScopeOps, Highest;
    var last := Run(w, ops, replies);
    RunIsQuiet(v, ops, Refusals(|ops|));
    RunHighWater(w, ops, replies);
    RunHighWater(v, ops, Refusals(|ops|));
    HighestAbsorbs(w.a.highWater, last.a.highWater, w, ops, replies);
    assert Blanks(last.a.chain[|last.a.chain|..]) + rest == rest;
  }

  lemma {:induction false} NoOversizeBytes(blocks: seq<Block>)
    requires forall b :: b in blocks ==> !b.oversize
    ensures OversizeBytes(blocks) == 0
    decreases |blocks|
  {
    if blocks != [] {
      assert Last(blocks) in blocks && forall b :: b in Front(blocks) ==> b in blocks;
      NoOversizeBytes(Front(blocks));
    }
  }

  // A scope that entered no oversize block, ended and begun again: the entered
  // blocks head the free list, and only they and the counts have changed.
  lemma ReopenedScope(last: World, endReply: nat, againReply: nat)
    requires Inv(last) && last.stack != []
    requires var n := |Last(last.stack).frame.chain|;
             n <= |last.a.chain| && forall i :: n <= i < |last.a.chain| ==> !last.a.chain[i].oversize
    ensures var again := Step(Step(last, End, endReply).world, Begin, againReply).world;
            var saved := Last(last.stack);
            && again.a == last.a.(chain := saved.frame.chain, used := saved.frame.used,
                                  free := Blanks(last.a.chain[|saved.frame.chain|..]) + last.a.free)
            && again.live == saved.frame.live && again.dropped == saved.frame.dropped
            && again.stack != [] && Last(again.stack).frame == FrameOf(Step(last, End, endReply).world)
            && Inv(again)
  {
    hide FrameOk, Sound, StackOk, TempEnd, EmptiedNormals, Honest, SettleAll, Extends, Dutiful;
    var saved := Last(last.stack);
    var entered := last.a.chain[|saved.frame.chain|..];
    TopOfStack(last);
    EndRestores(last.a, last.out, saved.temp, saved.frame);
    NormalsAreBlanks(entered);
    NoOversizeBytes(entered);
    TempEndKeepsSound(last.a, last.out, saved.temp);
    StepKeepsInv(last, End, endReply);
    NoCalls(Step(last, End, endReply).world.out);
    StepKeepsInv(Step(last, End, endReply).world, Begin, againReply);
  }

  // A successful sequence of allocations, reallocations and frees in a scope
  // that entered no oversize block, ended and begun again, returns the same
  // addresses without a call to the parent and leaves the same state.
  lemma ScopeReplays(w: World, ops: seq<Op>, replies: seq<nat>, beginReply: nat, endReply: nat, againReply: nat)
    requires |ops| == |replies| && AllScopeOps(ops)
    requires Inv(w) && Legal(w, Begin, beginReply)
    requires var inside := Step(w, Begin, beginReply).world;
             && LegalRun(inside, ops, replies) && Run(inside, ops, replies).a.status == Ok
             && forall i :: |w.a.chain| <= i < |Run(inside, ops, replies).a.chain| ==>
                  !Run(inside, ops, replies).a.chain[i].oversize
    ensures var inside := Step(w, Begin, beginReply).world;
            var last := Run(inside, ops, replies);
            var again := Step(Step(last, End, endReply).world, Begin, againReply).world;
            var end := Run(again, ops, Refusals(|ops|));
            && Repeats(inside, again, ops, replies)
            && end.a == last.a && end.live == last.live && end.dropped == last.dropped
  {
    hide Inv, LegalRun, Run, KeptBlocks, Repeats, AllScopeOps, Highest;
    var inside := Step(w, Begin, beginReply).world;
    var last := Run(inside, ops, replies);
    var again := Step(Step(last, End, endReply).world, Begin, againReply).world;
    ScopeOpsUpkeep(inside, ops, replies, |w.stack| + 1);
    BeginKeepsInv(w, beginReply);
    StepInv(w, Begin, beginReply);
    RunKeepsInv(inside, ops, replies);
    RunKeepsBlocks(inside, ops, replies);
    KeptLength(inside.a.chain, last.a.chain);
    StatusAtStart(inside, ops, replies);
    ReopenedScope(last, endReply, againReply);
    assert Twin(inside, again, last.a.chain, last.a.free);
    TwinRuns(inside, again, ops, replies, last.a.free);
    TwinHighest(again.a.highWater, inside, again, ops, replies, last.a.free);
    EndsAlike(inside, again, ops, replies, last.a.free);
  }

  lemma StatusAtStart(w: World, ops: seq<Op>, replies: seq<nat>)
    requires |ops| == |replies| && AllScopeOps(ops) && Run(w, ops, replies).a.status == Ok
    ensures w.a.status == Ok
  {
    hide Run, AllScopeOps;
    if w.a.status != Ok {
      RunStatusSticks(w, ops, replies);
    }
  }

  // ----- a fresh arena reset and repeated -----

  // The first allocation enters the block that, kept by the reset, is current.
  lemma FreshAlloc(a: Arena, b: Arena, out: Ledger, count: Size, size: Size, align: Size, reply: nat)
    requires Sound(a, out) && a.chain == [] && a.status == Ok == b.status && a.redzone == b.redzone
    requires a.fixed == b.fixed && a.used == b.used
    requires Honest(out, AllocN(a, count, size, align, reply).calls)
    requires AllocN(a, count, size, align, reply).arena.status == Ok
    requires AllocN(a, count, size, align, reply).arena.chain != []
    requires b.chain == [AllocN(a, count, size, align, reply).arena.chain[0].Blank()]
    ensures var o, p := AllocN(a, count, size, align, reply), AllocN(b, count, size, align, NULL);
            && o.ptr == p.ptr && SameCursor(o.arena, p.arena) && p.calls == [] && p.arena.free == b.free
            && |o.arena.chain| == 1
  {
    hide Sound, Honest, Bump, KeptBlocks, CheckedProduct, AlignValid, GrowAndBump;
    CheckedProductMeaning(count, size);
    PositiveProduct(count, size);
    EffectiveAlignIsServed(a.redzone, align);
    match CheckedProduct(count, size) {
      case TooBig =>
      case Fits(total) =>
        var effective := EffectiveAlign(a.redzone, align);
        NoBlockNoBump(a, total, effective);
        ServedWhenOk(a, out, total, effective, reply);
        EnteredBlock(a, out, total, effective, reply);
        GrownBlock(a, out, total, effective, reply);
        GrewBump(a, out, total, effective, reply);
        var entered := Entered(a, total, effective, reply);
        assert entered.chain == [Last(entered.chain)];
        BumpIsSame(entered, b, total, effective);
    }
  }

  lemma NoBlockNoBump(a: Arena, size: nat, align: nat)
    requires a.chain == [] && 0 < align
    ensures Bump(a, size, align) == Outcome(a, NULL, [])
  {
  }

  lemma GrewBump(a: Arena, out: Ledger, size: nat, align: nat, reply: nat)
    requires Sound(a, out) && 0 < align && IsServedAlign(align) && 0 < size
    requires Honest(out, GrowAndBump(a, size, align, reply).calls)
    requires GrowAndBump(a, size, align, reply).ptr != NULL
    ensures var o, entered := GrowAndBump(a, size, align, reply), Entered(a, size, align, reply);
            && o.arena == Bump(entered, size, align).arena && o.ptr == Bump(entered, size, align).ptr != NULL
            && entered.used == a.used && entered.redzone == a.redzone && entered.fixed == a.fixed
            && entered.status == a.status && entered.chain != [] && Front(entered.chain) == a.chain
  {
    hide Sound, Honest, Bump, ChainOk, BlockOk;
    GrowthServes(a, out, size, align, reply);
    EnteredUpkeep(a, size, align, reply);
  }

  // Before the first block: the second world already has it, empty.
  ghost predicate FreshTwin(w: World, v: World, last: seq<Block>, rest: seq<Block>) {
    && w.a.chain == [] && last != [] && v.a.chain == [last[0].Blank()]
    && w.a.used == v.a.used && w.a.redzone == v.a.redzone && w.a.fixed == v.a.fixed && w.a.status == v.a.status
    && w.live == v.live == [] && w.dropped == v.dropped && BaseCount(w) == BaseCount(v)
    && v.a.free == Blanks(last[1..]) + rest
  }

  lemma FreshStep(w: World, v: World, op: Op, reply: nat, last: seq<Block>, rest: seq<Block>)
    requires Inv(w) && Legal(w, op, reply) && IsScopeOp(op) && FreshTwin(w, v, last, rest)
    requires Step(w, op, reply).world.a.status == Ok == w.a.status
    requires KeptBlocks(Step(w, op, reply).world.a.chain, last)
    ensures var next, other := Step(w, op, reply).world, Step(v, op, NULL).world;
            && Legal(v, op, NULL) && Step(v, op, NULL).ptr == Step(w, op, reply).ptr && Step(v, op, NULL).calls == []
            && if next.a.chain == [] then FreshTwin(next, other, last, rest) else Twin(next, other, last, rest)
  {
    hide FrameOk, Sound, StackOk, Honest, AllocN, SettleAll, AlignValid;
    NoCalls(v.out);
    assert op.Alloc?;
    var count, size, align := op.count, op.size, op.align;
    var o := AllocN(w.a, count, size, align, reply);
    AllocNServes(w.a, w.out, FrameOf(w), FrameOf(w), count, size, align, reply);
    if o.ptr == NULL {
      EmptyRequest(v.a, count, size, align);
    } else {
      assert o.arena.chain[0].Blank() == last[0].Blank();
      FreshAlloc(w.a, v.a, w.out, count, size, align, reply);
    }
  }

  lemma EmptyRequest(a: Arena, count: Size, size: Size, align: Size)
    requires a.status == Ok && AlignValid(align) && (count == 0 || size == 0)
    ensures AllocN(a, count, size, align, NULL) == Outcome(a, NULL, [])
  {
  }

  lemma {:induction false} FreshRuns(w: World, v: World, ops: seq<Op>, replies: seq<nat>, rest: seq<Block>)
    requires |ops| == |replies| && Inv(w) && LegalRun(w, ops, replies) && AllScopeOps(ops)
    requires Run(w, ops, replies).a.status == Ok
    requires FreshTwin(w, v, Run(w, ops, replies).a.chain, rest)
    ensures Repeats(w, v, ops, replies)
    ensures Twin(Run(w, ops, replies), Run(v, ops, Refusals(|ops|)), Run(w, ops, replies).a.chain, rest)
    decreases |ops|
  {
    hide Inv, Legal, Step, KeptBlocks, AllScopeOps, Twin, LegalRun, Repeats;
    if ops != [] {
      hide Run;
      FirstStep(w, ops, replies);
      StatusAtStart(w, ops, replies);
      var next, last := Step(w, ops[0], replies[0]).world, Run(w, ops, replies).a.chain;
      var other := Step(v, ops[0], NULL).world;
      RunKeepsBlocks(next, ops[1..], replies[1..]);
      FreshStep(w, v, ops[0], replies[0], last, rest);
      if next.a.chain == [] {
        FreshRuns(next, other, ops[1..], replies[1..], rest);
      } else {
        TwinRuns(next, other, ops[1..], replies[1..], rest);
      }
      RepeatsCons(w, v, ops, replies);
    }
  }

  lemma {:induction false} FreshHighest(h: int, w: World, v: World, ops: seq<Op>, replies: seq<nat>, rest: seq<Block>)
    requires |ops| == |replies| && Inv(w) && LegalRun(w, ops, replies) && AllScopeOps(ops)
    requires Run(w, ops, replies).a.status == Ok
    requires FreshTwin(w, v, Run(w, ops, replies).a.chain, rest)
    ensures Highest(h, v, ops, Refusals(|ops|)) == Highest(h, w, ops, replies)
    decreases |ops|
  {
    hide Inv, Legal, Step, KeptBlocks, AllScopeOps, Twin, LegalRun;
    if ops != [] {
      hide Run;
      FirstStep(w, ops, replies);
      StatusAtStart(w, ops, replies);
      var next, last := Step(w, ops[0], replies[0]).world, Run(w, ops, replies).a.chain;
      var other := Step(v, ops[0], NULL).world;
      RunKeepsBlocks(next, ops[1..], replies[1..]);
      FreshStep(w, v, ops[0], replies[0], last, rest);
      FreshReached(w, v, ops[0], replies[0], last, rest);
      assert Refusals(|ops|)[0] == NULL && Refusals(|ops|)[1..] == Refusals(|ops| - 1);
      var high := Max(h, Reached(w, ops[0], replies[0]));
      if next.a.chain == [] {
        FreshHighest(high, next, other, ops[1..], replies[1..], rest);
      } else {
        TwinHighest(high, next, other, ops[1..], replies[1..], rest);
      }
    }
  }

  lemma FreshReached(w: World, v: World, op: Op, reply: nat, last: seq<Block>, rest: seq<Block>)
    requires w.live == [] == v.live && Legal(w, op, reply) && IsScopeOp(op)
    requires var next, other := Step(w, op, reply).world, Step(v, op, NULL).world;
             FreshTwin(next, other, last, rest) || Twin(next, other, last, rest)
    ensures Reached(v, op, NULL) == Reached(w, op, reply)
  {
    hide Step;
  }

  // After a reset of an arena without oversize blocks the blocks entered after
  // the first head the free list, in entry order.
  lemma ResetFresh(last: World, reply: nat)
    requires !last.a.fixed
    requires forall i :: 0 <= i < |last.a.chain| ==> !last.a.chain[i].oversize
    ensures var again := Step(last, ResetAll, reply).world;
            && again.a == last.a.(chain := if last.a.chain == [] then [] else [last.a.chain[0].Blank()],
                                  free := if last.a.chain == [] then last.a.free
                                          else Blanks(last.a.chain[1..]) + last.a.free,
                                  used := 0, depth := 0, status := Ok,
                                  generation := (last.a.generation + 1) % (UINT_MAX + 1))
            && again.live == [] && again.dropped == [] && again.stack == []
  {
    hide PopAllBut, EmptiedNormals;
    ResetDrops(last.a);
    NoOversizeBytes(last.a.chain);
    if last.a.chain != [] {
      assert Without(last.a.chain, 0) == last.a.chain[1..];
      NormalsAreBlanks(last.a.chain[1..]);
    } else {
      NormalsAreBlanks([]);
      assert [] + last.a.free == last.a.free;
    }
  }

  // A fresh arena's successful run without oversize blocks, repeated after a
  // reset, returns the same addresses without a call to the parent, and leaves
  // the same state but for the count of resets.
  lemma ResetReplays(w: World, ops: seq<Op>, replies: seq<nat>, resetReply: nat)
    requires |ops| == |replies| && AllScopeOps(ops) && Inv(w) && LegalRun(w, ops, replies)
    requires !w.a.fixed && w.a.chain == [] && w.live == [] && w.dropped == [] && w.stack == []
    requires var last := Run(w, ops, replies);
             last.a.status == Ok && forall i :: 0 <= i < |last.a.chain| ==> !last.a.chain[i].oversize
    ensures var last := Run(w, ops, replies);
            var again := Step(last, ResetAll, resetReply).world;
            var end := Run(again, ops, Refusals(|ops|));
            && Repeats(w, again, ops, replies)
            && end.a == last.a.(generation := (last.a.generation + 1) % (UINT_MAX + 1))
            && end.live == last.live && end.dropped == last.dropped
  {
    hide LegalRun, Run, KeptBlocks, Repeats, AllScopeOps, Step, Sound, FrameOk, StackOk, Highest;
    var last := Run(w, ops, replies);
    var again := Step(last, ResetAll, resetReply).world;
    ScopeOpsUpkeep(w, ops, replies, 0);
    StatusAtStart(w, ops, replies);
    ResetFresh(last, resetReply);
    NothingUsed(w);
    RunKeepsInv(w, ops, replies);
    ResetKeepsInv(last, resetReply);
    StepInv(last, ResetAll, resetReply);
    if last.a.chain == [] {
      KeptItself([]);
      assert Blanks(last.a.chain[0..]) + last.a.free == last.a.free;
      assert Twin(w, again, last.a.chain, last.a.free);
      TwinRuns(w, again, ops, replies, last.a.free);
      TwinHighest(again.a.highWater, w, again, ops, replies, last.a.free);
    } else {
      FreshRuns(w, again, ops, replies, last.a.free);
      FreshHighest(again.a.highWater, w, again, ops, replies, last.a.free);
    }
    EndsAlike(w, again, ops, replies, last.a.free);
  }

  lemma NothingUsed(w: World)
    requires Inv(w) && w.a.chain == [] && w.dropped == []
    ensures w.a.used == 0
  {
  }
}
