// How the parent's blocks grow: over any run of a growing arena the sizes it
// asks for follow from the calls it made before.
module ArenaGrowth {
  import opened Machine
  import opened WordBits
  import opened ArenaModel
  import opened ArenaSound
  import opened ArenaFrames
  import opened ArenaAlloc
  import opened ArenaScopes
  import opened ArenaRuns
  import opened ArenaService

  // The first and the largest block size, and how many blocks of the size in
  // force the parent has given since init or deinit.
  datatype Growth = Growth(first: nat, largest: nat, given: nat) {
    // The size in force: doubled with every such block, up to the largest.
    function Target(): nat {
      Min(largest, first * Pow2(given))
    }

    // A request not of that size, or refused, does not count.
    function After(calls: seq<Call>): Growth
      decreases |calls|
    {
      if calls == [] then this
      else
        var call := calls[0];
        var counts := call.Acquire? && call.reply != NULL && call.size == Target();
        var next := if counts then this.(given := given + 1) else this;
        next.After(calls[1..])
    }
  }

  // Deinit goes back to the default sizes.
  function StepGrowth(g: Growth, w: World, op: Op, reply: nat): Growth {
    if op.Shutdown? then Growth(4096, 65536, 0) else g.After(Step(w, op, reply).calls)
  }

  function RunGrowth(g: Growth, w: World, ops: seq<Op>, replies: seq<nat>): Growth
    requires |ops| == |replies|
    decreases |ops|
  {
    if ops == [] then g
    else RunGrowth(StepGrowth(g, w, ops[0], replies[0]), Step(w, ops[0], replies[0]).world, ops[1..], replies[1..])
  }

  // The arena's own bookkeeping agrees with the count.
  ghost predicate Agrees(a: Arena, g: Growth) {
    !a.fixed ==> a.minBlock == g.first && a.maxBlock == g.largest && a.nextBlock == g.Target()
  }

  lemma DoubledTarget(g: Growth)
    ensures g.(given := g.given + 1).Target() == if g.Target() * 2 > g.largest then g.largest else g.Target() * 2
  {
    assert g.first * Pow2(g.given + 1) == 2 * (g.first * Pow2(g.given));
  }

  // ----- one step -----

  // A call list that asks for nothing.
  ghost predicate AsksNothing(calls: seq<Call>) {
    forall c :: c in calls ==> c.Release?
  }

  lemma {:induction false} AfterNothing(g: Growth, calls: seq<Call>)
    requires AsksNothing(calls)
    ensures g.After(calls) == g
    decreases |calls|
  {
    if calls != [] {
      assert calls[0] in calls;
      assert forall c :: c in calls[1..] ==> c in calls;
      AfterNothing(g, calls[1..]);
    }
  }

  lemma {:induction false} OversizeReleasesAskNothing(blocks: seq<Block>)
    ensures AsksNothing(OversizeReleases(blocks))
  {
    if blocks != [] {
      OversizeReleasesAskNothing(Front(blocks));
    }
  }

  lemma {:induction false} ReleaseCallsAskNothing(blocks: seq<Block>)
    ensures AsksNothing(ReleaseCalls(blocks))
  {
    if blocks != [] {
      ReleaseCallsAskNothing(blocks[1..]);
    }
  }

  // Sizes and the size in force, which only a new block changes.
  ghost predicate SameSizes(a: Arena, b: Arena) {
    a.fixed == b.fixed && a.minBlock == b.minBlock && a.maxBlock == b.maxBlock && a.nextBlock == b.nextBlock
  }

  // The one request a step may make, and the block it got.
  ghost predicate Requested(g: Growth, need: nat, call: Call, a: Arena) {
    && call.Acquire? && call.size == (if g.Target() < HEADER + need then HEADER + need else g.Target())
    && (call.reply != NULL ==>
          && a.chain != [] && Last(a.chain).addr == call.reply && Last(a.chain).Bytes() == call.size
          && (Last(a.chain).oversize <==> call.size != g.Target()))
  }

  lemma BumpKeepsSizes(a: Arena, size: nat, align: nat)
    requires 0 < align
    ensures var o := Bump(a, size, align);
            && SameSizes(a, o.arena) && o.calls == [] && |o.arena.chain| == |a.chain|
            && (a.chain != [] ==> Last(o.arena.chain) == Last(a.chain).(used := Last(o.arena.chain).used))
  {
  }

  // What an allocation path with these calls leaves of the sizes.
  ghost predicate Grows(g: Growth, need: nat, reply: nat, a: Arena, o: Outcome) {
    if o.calls == [] then SameSizes(a, o.arena)
    else && !a.fixed && |o.calls| == 1 && o.calls[0].Acquire? && o.calls[0].reply == reply
         && Requested(g, need, o.calls[0], o.arena) && !o.arena.fixed && Agrees(o.arena, g.After(o.calls))
  }

  lemma AfterOne(g: Growth, call: Call)
    ensures g.After([call])
         == if call.Acquire? && call.reply != NULL && call.size == g.Target() then g.(given := g.given + 1) else g
  {
    assert [call][1..] == [];
  }

  lemma GrowthGrows(a: Arena, g: Growth, size: nat, align: nat, reply: nat)
    requires 0 < align && Agrees(a, g)
    ensures Grows(g, WorstCase(a, size, align), reply, a, GrowAndBump(a, size, align, reply))
  {
    hide Bump, Pow2;
    var need := WorstCase(a, size, align);
    var i := FirstFit(a.free, need);
    if i < |a.free| {
      BumpKeepsSizes(Enter(WithoutFree(a, i), a.free[i]), size, align);
    }
    var block, request := NewBlock(a, need, reply), RequestSize(a, need);
    BumpKeepsSizes(Enter(Acquired(a, block, request), block), size, align);
    AfterOne(g, Acquire(request, reply));
    DoubledTarget(g);
  }

  lemma AllocNGrows(a: Arena, g: Growth, count: Size, size: Size, align: Size, reply: nat)
    requires Agrees(a, g)
    ensures Grows(g, Need(a, count * size, align), reply, a, AllocN(a, count, size, align, reply))
  {
    hide Bump, GrowAndBump, AlignValid, CheckedProduct, EffectiveAlign, Requested, Agrees;
    if a.status == Ok && AlignValid(align) && count != 0 && size != 0 {
      CheckedProductMeaning(count, size);
      match CheckedProduct(count, size) {
        case TooBig =>
        case Fits(total) =>
          var effective := EffectiveAlign(a.redzone, align);
          BumpKeepsSizes(a, total, effective);
          GrowthGrows(a, g, total, effective, reply);
      }
    }
  }

  lemma ReallocGrows(a: Arena, g: Growth, ptr: nat, oldSize: nat, newSize: Size, align: Size, reply: nat)
    requires Agrees(a, g)
    ensures Grows(g, Need(a, newSize, align), reply, a, Realloc(a, ptr, oldSize, newSize, align, reply))
  {
    hide AllocN, AlignValid, EffectiveAlign, Pow2;
    AllocNGrows(a, g, 1, newSize, align, reply);
  }

  // ----- runs -----

  lemma EndKeepsSizes(w: World, reply: nat)
    requires Inv(w) && Legal(w, End, reply)
    ensures var done := Step(w, End, reply); SameSizes(w.a, done.world.a) && AsksNothing(done.calls)
  {
    hide FrameOk, Extends, Sound, SnapshotOf, Honest, TempEnd, StackOk, OversizeReleases, AsksNothing;
    var saved := Last(w.stack);
    TopOfStack(w);
    EndRestores(w.a, w.out, saved.temp, saved.frame);
    OversizeReleasesAskNothing(w.a.chain[|saved.frame.chain|..]);
  }

  lemma ResetKeepsSizes(a: Arena)
    ensures SameSizes(a, Reset(a).arena) && AsksNothing(Reset(a).calls)
  {
    hide OversizeReleases, EmptiedNormals, OversizeBytes, PopAllBut;
    OversizeReleasesAskNothing(a.chain);
    if !a.fixed {
      ResetDrops(a);
    }
  }

  lemma TrimKeepsSizes(a: Arena)
    ensures SameSizes(a, Trim(a).arena) && AsksNothing(Trim(a).calls)
  {
    hide ReleaseCalls, Total, ReleaseAll;
    ReleaseCallsAskNothing(a.free);
    TrimDrops(a);
  }

  lemma QuietKeeps(g: Growth, a: Arena, b: Arena, calls: seq<Call>)
    requires Agrees(a, g) && SameSizes(a, b) && AsksNothing(calls)
    ensures Agrees(b, g.After(calls))
  {
    AfterNothing(g, calls);
  }

  // Every operation that is not a request keeps the sizes; deinit restarts them.
  lemma OthersKeepSizes(w: World, op: Op, reply: nat)
    requires Inv(w) && Legal(w, op, reply) && !op.Alloc? && !op.Resize? && !op.Shutdown?
    ensures var done := Step(w, op, reply); SameSizes(w.a, done.world.a) && AsksNothing(done.calls)
  {
    hide Inv, Honest, Reset, Trim, TempEnd;
    match op {
      case End => EndKeepsSizes(w, reply);
      case ResetAll => ResetKeepsSizes(w.a);
      case TrimFree => TrimKeepsSizes(w.a);
      case _ =>
    }
  }

  // The bytes a request may need of an empty block.
  function NeedOf(w: World, op: Op): nat {
    match op
    case Alloc(count, size, align, fill) => Need(w.a, count * size, align)
    case Resize(i, newSize) => if i < |w.live| then Need(w.a, newSize, w.live[i].align) else 0
    case _ => 0
  }

  lemma RequestGrows(w: World, g: Growth, op: Op, reply: nat)
    requires Inv(w) && Legal(w, op, reply) && Agrees(w.a, g) && (op.Alloc? || op.Resize?)
    ensures var done := Step(w, op, reply);
            Grows(g, NeedOf(w, op), reply, w.a, Outcome(done.world.a, done.ptr, done.calls))
  {
    hide Inv, Honest, AllocN, Realloc, ReallocFrame, Agrees, Need, Grows;
    match op {
      case Alloc(count, size, align, fill) =>
        AllocNGrows(w.a, g, count, size, align, reply);
        var o := AllocN(w.a, count, size, align, reply);
        assert o == Outcome(o.arena, o.ptr, o.calls);
      case Resize(i, newSize) =>
        var l := w.live[i];
        ReallocGrows(w.a, g, l.ptr, l.size, newSize, l.align, reply);
        var o := Realloc(w.a, l.ptr, l.size, newSize, l.align, reply);
        assert o == Outcome(o.arena, o.ptr, o.calls);
    }
  }

  lemma StepAgrees(w: World, g: Growth, op: Op, reply: nat)
    requires Inv(w) && Legal(w, op, reply) && Agrees(w.a, g)
    ensures Agrees(Step(w, op, reply).world.a, StepGrowth(g, w, op, reply))
  {
    hide Inv, Legal, Requested, AsksNothing;
    var done := Step(w, op, reply);
    if op.Shutdown? {
      hide ReleaseAll;
      assert Pow2(0) == 1;
    } else {
      hide Step;
      if op.Alloc? || op.Resize? {
        RequestGrows(w, g, op, reply);
      } else {
        OthersKeepSizes(w, op, reply);
        QuietKeeps(g, w.a, done.world.a, done.calls);
      }
    }
  }

  lemma {:induction false} RunAgrees(w: World, g: Growth, ops: seq<Op>, replies: seq<nat>)
    requires |ops| == |replies| && Inv(w) && LegalRun(w, ops, replies) && Agrees(w.a, g)
    ensures Agrees(Run(w, ops, replies).a, RunGrowth(g, w, ops, replies))
    decreases |ops|
  {
    hide Inv, Legal, Step, Agrees, StepGrowth;
    if ops != [] {
      StepAgrees(w, g, ops[0], replies[0]);
      StepKeepsInv(w, ops[0], replies[0]);
      StepInv(w, ops[0], replies[0]);
      RunAgrees(Step(w, ops[0], replies[0]).world, StepGrowth(g, w, ops[0], replies[0]), ops[1..], replies[1..]);
    }
  }

  // Arenas start unfailed with the sizes asked for, init with the defaults.
  lemma StartAgrees(redzone: nat, first: Size, largest: Size)
    requires 64 <= first <= largest <= PTRDIFF_MAX
    ensures InitSized(redzone, first, largest).status == Ok && !InitSized(redzone, first, largest).fixed
    ensures Agrees(InitSized(redzone, first, largest), Growth(first, largest, 0))
    ensures Init(redzone) == InitSized(redzone, 4096, 65536)
  {
    assert Pow2(0) == 1;
  }

  lemma BothAskNothing(first: seq<Call>, second: seq<Call>)
    requires AsksNothing(first) && AsksNothing(second)
    ensures AsksNothing([]) && AsksNothing(first + second)
  {
  }

  lemma ShutdownAsksNothing(w: World, reply: nat)
    ensures AsksNothing(Step(w, Shutdown, reply).calls)
  {
    hide ReleaseCalls, Deinit, Reverse, AsksNothing;
    DeinitDrops(w.a);
    ReleaseCallsAskNothing(Reverse(w.a.chain));
    ReleaseCallsAskNothing(w.a.free);
    BothAskNothing(ReleaseCalls(Reverse(w.a.chain)), ReleaseCalls(w.a.free));
  }

  // The size in force decides the request and the kind of block it gets: that
  // size, or, where it is too small, exactly the header and the bytes needed.
  ghost predicate Geometric(w: World, g: Growth, op: Op, reply: nat, call: Call) {
    var done, target := Step(w, op, reply), Min(g.largest, g.first * Pow2(g.given));
    && (op.Alloc? || op.Resize?) && done.calls == [call] && call == Acquire(call.size, reply)
    && call.size == (if HEADER + NeedOf(w, op) <= target then target else HEADER + NeedOf(w, op))
    && (reply != NULL ==>
          && done.world.a.chain != [] && var block := Last(done.world.a.chain);
          && block.addr == reply && block.Bytes() == call.size
          && (block.oversize <==> call.size != target))
  }

  lemma RequestIsGeometric(w: World, g: Growth, op: Op, reply: nat, call: Call)
    requires Inv(w) && Legal(w, op, reply) && Agrees(w.a, g)
    requires call in Step(w, op, reply).calls && call.Acquire?
    ensures Geometric(w, g, op, reply, call)
  {
    hide Inv, Legal, Step, Agrees, NeedOf;
    if op.Shutdown? {
      ShutdownAsksNothing(w, reply);
    } else if !op.Alloc? && !op.Resize? {
      OthersKeepSizes(w, op, reply);
    } else {
      RequestGrows(w, g, op, reply);
    }
  }

  // Over any legal run of a growing arena the requests double.
  lemma RequestsDouble(redzone: nat, first: Size, largest: Size, memory: Memory, ops: seq<Op>, replies: seq<nat>,
                       op: Op, reply: nat, call: Call)
    requires (redzone == 0 || redzone == ASAN_REDZONE) && 64 <= first <= largest <= PTRDIFF_MAX
    requires var start := Start(InitSized(redzone, first, largest), memory);
             && |ops| == |replies| && LegalRun(start, ops, replies)
             && Legal(Run(start, ops, replies), op, reply)
             && call in Step(Run(start, ops, replies), op, reply).calls && call.Acquire?
    ensures var start := Start(InitSized(redzone, first, largest), memory);
            var g := RunGrowth(Growth(first, largest, 0), start, ops, replies);
            Geometric(Run(start, ops, replies), g, op, reply, call)
  {
    hide Inv, Legal, LegalRun, Run, RunGrowth, Step, Agrees, Geometric;
    var start := Start(InitSized(redzone, first, largest), memory);
    StartKeepsInv(redzone, first, largest, 0, 0, memory);
    StartAgrees(redzone, first, largest);
    RunAgrees(start, Growth(first, largest, 0), ops, replies);
    RunKeepsInv(start, ops, replies);
    var g := RunGrowth(Growth(first, largest, 0), start, ops, replies);
    RequestIsGeometric(Run(start, ops, replies), g, op, reply, call);
  }
}
