// What the arena's counters count over whole runs.
module ArenaStatistics {
  import opened Arithmetic
  import opened Machine
  import opened WordBits
  import opened ArenaModel
  import opened ArenaSound
  import opened ArenaFrames
  import opened ArenaAlloc
  import opened ArenaScopes
  import opened ArenaRuns
  import opened ArenaSafety

  // A served request is one bump, of this arena or of it with one more, empty,
  // block.
  lemma ServedByBump(a: Arena, out: Ledger, count: Size, size: Size, align: Size, reply: nat) returns (b: Arena)
    requires Sound(a, out) && Honest(out, AllocN(a, count, size, align, reply).calls)
    requires AllocN(a, count, size, align, reply).ptr != NULL
    ensures AlignValid(align) && 0 < count * size <= PTRDIFF_MAX
    ensures var o, bumped := AllocN(a, count, size, align, reply),
                             Bump(b, Times(count, size), EffectiveAlign(a.redzone, align));
            && o.arena == bumped.arena && o.ptr == bumped.ptr
            && b.used == a.used && b.redzone == a.redzone && b.highWater == a.highWater && ChainOk(b.chain)
            && b.chain != [] && (b == a || (Front(b.chain) == a.chain && Last(b.chain).used == 0))
  {
    hide Sound, Honest, Bump, CheckedProduct, AlignValid, GrowAndBump, ChainOk, BlockOk;
    CheckedProductMeaning(count, size);
    PositiveProduct(count, size);
    EffectiveAlignIsServed(a.redzone, align);
    SoundChain(a, out);
    match CheckedProduct(count, size) {
      case TooBig =>
        b := a;
      case Fits(total) =>
        var effective := EffectiveAlign(a.redzone, align);
        b := a;
        if Bump(a, total, effective).ptr == NULL {
          GrowthServes(a, out, total, effective, reply);
          b := Entered(a, total, effective, reply);
        } else {
          NoBlockServesNothing(a, total, effective);
        }
    }
  }

  lemma NoBlockServesNothing(a: Arena, size: nat, align: nat)
    requires 0 < align && Bump(a, size, align).ptr != NULL
    ensures a.chain != []
  {
  }

  // ----- the highest count -----

  // The most bytes counted at any moment of the step: a moving reallocation
  // counts both regions before it abandons the old one.
  function Reached(w: World, op: Op, reply: nat): int {
    var next := Step(w, op, reply).world.a.used;
    if op.Resize? && op.index < |w.live| && Step(w, op, reply).ptr != NULL
       && Step(w, op, reply).ptr != w.live[op.index].ptr
    then next + w.live[op.index].size
    else next
  }

  // The most bytes counted since init, deinit starting anew; high is the most
  // before the run.
  function Highest(high: int, w: World, ops: seq<Op>, replies: seq<nat>): int
    requires |ops| == |replies|
    decreases |ops|
  {
    if ops == [] then high
    else Highest(if ops[0].Shutdown? then 0 else Max(high, Reached(w, ops[0], replies[0])),
                 Step(w, ops[0], replies[0]).world, ops[1..], replies[1..])
  }

  lemma AllocNHighWater(a: Arena, out: Ledger, count: Size, size: Size, align: Size, reply: nat)
    requires Sound(a, out) && a.used <= a.highWater
    requires Honest(out, AllocN(a, count, size, align, reply).calls)
    ensures var o := AllocN(a, count, size, align, reply);
            && o.arena.highWater == Max(a.highWater, o.arena.used) && a.used <= o.arena.used
            && (o.ptr == NULL ==> o.arena.used == a.used && o.arena.highWater == a.highWater)
  {
    hide Sound, Honest, AllocN, AlignValid;
    var o := AllocN(a, count, size, align, reply);
    if o.ptr == NULL {
      RefusedKeepsCounts(a, out, count, size, align, reply);
    } else {
      var b := ServedByBump(a, out, count, size, align, reply);
      BumpHighWater(b, Times(count, size), EffectiveAlign(a.redzone, align));
    }
  }

  lemma RefusedKeepsCounts(a: Arena, out: Ledger, count: Size, size: Size, align: Size, reply: nat)
    requires Sound(a, out) && Honest(out, AllocN(a, count, size, align, reply).calls)
    requires AllocN(a, count, size, align, reply).ptr == NULL
    ensures var o := AllocN(a, count, size, align, reply); o.arena == Fail(a, o.arena.status).arena
  {
    hide Sound, Honest, Bump, GrowAndBump, AlignValid, CheckedProduct;
    if a.status == Ok && AlignValid(align) && count != 0 && size != 0 {
      CheckedProductMeaning(count, size);
      PositiveProduct(count, size);
      EffectiveAlignIsServed(a.redzone, align);
      match CheckedProduct(count, size) {
        case TooBig =>
        case Fits(total) => GrowthServes(a, out, total, EffectiveAlign(a.redzone, align), reply);
      }
    }
  }

  lemma BumpHighWater(b: Arena, size: nat, align: nat)
    requires 0 < align && Bump(b, size, align).ptr != NULL && b.used <= b.highWater
    ensures var o := Bump(b, size, align).arena; o.highWater == Max(b.highWater, o.used) && b.used <= o.used
  {
  }

  lemma ResizeHighWater(w: World, i: nat, newSize: Size, reply: nat)
    requires Inv(w) && Legal(w, Resize(i, newSize), reply)
    ensures var next := Step(w, Resize(i, newSize), reply).world.a;
            next.highWater == Max(w.a.highWater, Reached(w, Resize(i, newSize), reply))
  {
    hide FrameOk, Sound, StackOk, Honest, AllocN, AlignValid;
    var l := w.live[i];
    LiveIsNotNull(w.a.redzone, FrameOf(w), i);
    if w.a.status == Ok && AlignValid(l.align) && 0 < newSize <= PTRDIFF_MAX
       && ResizeLast(w.a, l.ptr, l.size, newSize).ptr == NULL {
      AllocNHighWater(w.a, w.out, 1, newSize, l.align, reply);
      if AllocN(w.a, 1, newSize, l.align, reply).ptr != NULL {
        MoveIsApart(w, i, newSize, reply);
      }
    }
  }

  lemma OtherHighWater(w: World, op: Op, reply: nat)
    requires Inv(w) && Legal(w, op, reply) && !op.Alloc? && !op.Resize?
    ensures var next := Step(w, op, reply).world.a;
            if op.Shutdown? then next.highWater == 0
            else next.highWater == w.a.highWater && next.used <= w.a.highWater
  {
    hide FrameOk, Sound, StackOk, Honest, ReleaseAll, PopToBlock, PopAllBut;
    match op {
      case End => PopKeepsCounts(w.a, Last(w.stack).temp.block);
      case ResetAll => PopsKeepHighWater(w.a, OldestNormal(w.a.chain)); HighWaterIsNatural(w);
      case TrimFree => ReleaseAllMeaning(w.a, w.a.free);
      case _ =>
    }
  }

  lemma {:induction false} PopKeepsCounts(a: Arena, stop: nat)
    ensures PopToBlock(a, stop).arena.used == a.used && PopToBlock(a, stop).arena.highWater == a.highWater
    decreases |a.chain|
  {
    if a.chain != [] && Last(a.chain).addr != stop {
      PopKeepsCounts(PopLast(a).arena, stop);
    }
  }

  lemma StepHighWater(w: World, op: Op, reply: nat)
    requires Inv(w) && Legal(w, op, reply)
    ensures Step(w, op, reply).world.a.highWater
         == if op.Shutdown? then 0 else Max(w.a.highWater, Reached(w, op, reply))
  {
    hide Inv, Legal, AllocN, Realloc, Honest;
    match op {
      case Alloc(count, size, align, fill) => AllocHighWater(w, op, reply);
      case Resize(i, newSize) => ResizeHighWater(w, i, newSize, reply);
      case _ => OtherHighWater(w, op, reply);
    }
  }

  lemma AllocHighWater(w: World, op: Op, reply: nat)
    requires Inv(w) && Legal(w, op, reply) && op.Alloc?
    ensures Step(w, op, reply).world.a.highWater == Max(w.a.highWater, Reached(w, op, reply))
  {
    hide FrameOk, Sound, StackOk, Honest, AllocN;
    AllocNHighWater(w.a, w.out, op.count, op.size, op.align, reply);
  }

  // high_water is the most bytes ever counted since init: reset keeps it,
  // deinit does not.
  lemma {:induction false} RunHighWater(w: World, ops: seq<Op>, replies: seq<nat>)
    requires |ops| == |replies| && Inv(w) && LegalRun(w, ops, replies)
    ensures Run(w, ops, replies).a.highWater == Highest(w.a.highWater, w, ops, replies)
    decreases |ops|
  {
    hide Inv, Legal, Step, Reached;
    if ops != [] {
      StepHighWater(w, ops[0], replies[0]);
      StepKeepsInv(w, ops[0], replies[0]);
      StepInv(w, ops[0], replies[0]);
      RunHighWater(Step(w, ops[0], replies[0]).world, ops[1..], replies[1..]);
    }
  }

  // ----- an allocation freed at once -----

  // The cursor the allocation was carved from.
  function CursorBefore(a: Arena, served: Arena): nat
    requires served.chain != []
  {
    if |served.chain| == |a.chain| then Last(a.chain).Cursor() else Last(served.chain).Data()
  }

  lemma BumpPair(b: Arena, size: nat, align: nat)
    requires 0 < align && IsServedAlign(align) && ChainOk(b.chain) && Bump(b, size, align).ptr != NULL
    ensures b.chain != [] && var o := Bump(b, size, align);
            var pad := o.ptr - Last(b.chain).Cursor();
            && 0 <= pad < align
            && AdapterFree(o.arena, o.ptr, size)
            == WithLastUsed(b, Last(b.chain).used + pad).(used := b.used + pad, highWater := o.arena.highWater)
  {
    PaddingIsBelow(Last(b.chain).Cursor(), align);
    assert Last(b.chain) in b.chain;
  }

  // A LIFO pair costs its alignment padding, and, when the request needed a
  // block, leaves that block as the current one.
  lemma PairCostsPadding(w: World, count: Size, size: Size, align: Size, fill: Fill, reply: nat)
    requires var op := Alloc(count, size, align, fill);
             Inv(w) && Legal(w, op, reply) && Step(w, op, reply).ptr != NULL
    ensures var done := Step(w, Alloc(count, size, align, fill), reply);
            && CallerOk(done.world, Free(|w.live|))
            && var freed := Step(done.world, Free(|w.live|), 0).world;
            && done.world.a.chain != [] && freed.a.chain != []
            && var pad := done.ptr - CursorBefore(w.a, done.world.a);
            && 0 <= pad < EffectiveAlign(w.a.redzone, align)
            && freed.live == w.live && freed.a.used == w.a.used + pad
            && Last(freed.a.chain).Cursor() == CursorBefore(w.a, done.world.a) + pad
            && Front(freed.a.chain) == Front(done.world.a.chain)
  {
    hide FrameOk, Sound, StackOk, Honest, AllocN, Extends, AlignValid, ChainOk, BlockOk, SettleAll;
    var op := Alloc(count, size, align, fill);
    var b := ServedByBump(w.a, w.out, count, size, align, reply);
    EffectiveAlignIsServed(w.a.redzone, align);
    BumpPair(b, Times(count, size), EffectiveAlign(w.a.redzone, align));
    ServedAllocGrows(w, count, size, align, fill, reply);
    BumpKeepsLength(b, Times(count, size), EffectiveAlign(w.a.redzone, align));
    BaseIsBelow(w);
    RemovedLast(w.live, Step(w, op, reply).world.live);
  }

  lemma BaseIsBelow(w: World)
    requires Inv(w)
    ensures BaseCount(w) <= |w.live|
  {
    hide FrameOk, Sound;
  }

  lemma BumpKeepsLength(b: Arena, size: nat, align: nat)
    requires 0 < align && b.chain != []
    ensures var chain := Bump(b, size, align).arena.chain;
            && |chain| == |b.chain| && Front(chain) == Front(b.chain) && Last(chain).addr == Last(b.chain).addr
  {
  }

  lemma RemovedLast(live: seq<Live>, longer: seq<Live>)
    requires |longer| == |live| + 1 && longer[..|live|] == live
    ensures Removed(longer, |live|) == live
  {
  }
}
