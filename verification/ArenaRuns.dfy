// Runs of an arena: every legal sequence of operations, with the parent's
// replies, the caller's live allocations, open temp scopes and the memory.
module ArenaRuns {
  import opened Machine
  import opened WordBits
  import opened ArenaModel
  import opened ArenaSound
  import opened ArenaFrames
  import opened ArenaAlloc
  import opened ArenaScopes

  // What an allocation call writes into the new bytes: nothing, or given
  // bytes (zeros for the zeroed variants, the source's for memdup).
  datatype Fill = Raw | With(bytes: seq<Byte>)

  datatype Op =
    | Alloc(count: Size, size: Size, align: Size, fill: Fill)
    | Resize(index: nat, newSize: Size)  // arena_realloc of a live allocation
    | Free(index: nat)                   // the adapter's xfree
    | Write(index: nat, offset: nat, byte: Byte)  // the owner writes a byte
    | Begin | End | ResetAll | TrimFree | Clear | Shutdown

  // An open scope: the snapshot the caller holds, and, for the proofs, what
  // the arena and the live allocations were when it was taken.
  datatype Saved = Saved(temp: Temp, frame: Frame)

  type Memory = nat -> Byte

  datatype World = World(a: Arena, live: seq<Live>, dropped: seq<nat>, stack: seq<Saved>,
                         out: Ledger, memory: Memory)

  // A step: the world after it, the pointer returned, the parent calls made.
  datatype Done = Done(world: World, ptr: nat, calls: seq<Call>)

  function Store(memory: Memory, at: nat, bytes: seq<Byte>): Memory {
    (x: nat) => if at <= x < at + |bytes| then bytes[x - at] else memory(x)
  }

  function Load(memory: Memory, at: nat, len: nat): seq<Byte> {
    seq(len, i requires 0 <= i < len => memory(at + i))
  }

  function FrameOf(w: World): Frame {
    Frame(w.a.chain, w.a.used, w.live, w.dropped)
  }

  // Allocations below this index belong to enclosing scopes.
  function BaseCount(w: World): nat {
    if w.stack == [] then 0 else |Last(w.stack).frame.live|
  }

  function WithArena(w: World, o: Outcome): World {
    w.(a := o.arena, out := SettleAll(w.out, o.calls))
  }

  function StepAlloc(w: World, count: Size, size: Size, align: Size, fill: Fill, reply: nat): Done {
    var o := AllocN(w.a, count, size, align, reply);
    var next := WithArena(w, o);
    if o.ptr == NULL || o.arena.chain == [] then Done(next, o.ptr, o.calls)
    else Done(next.(live := w.live + [Live(o.ptr, Times(count, size), align, |o.arena.chain| - 1)],
                    memory := if fill.With? then Store(w.memory, o.ptr, fill.bytes) else w.memory),
              o.ptr, o.calls)
  }

  function Min(a: nat, b: nat): nat { if a < b then a else b }

  function StepResize(w: World, i: nat, newSize: Size, reply: nat): Done
    requires i < |w.live|
  {
    var l := w.live[i];
    var o := Realloc(w.a, l.ptr, l.size, newSize, l.align, reply);
    var next := WithArena(w, o);
    if o.ptr == NULL || o.arena.chain == [] then Done(next, o.ptr, o.calls)
    else
      var f := ReallocFrame(w.a, FrameOf(w), i, newSize, o);
      var copied := Load(w.memory, l.ptr, Min(l.size, newSize));
      Done(next.(live := f.live, dropped := f.dropped,
                 memory := if o.ptr == l.ptr then w.memory else Store(w.memory, o.ptr, copied)),
           o.ptr, o.calls)
  }

  function StepEnd(w: World): Done
    requires w.stack != []
  {
    var saved := Last(w.stack);
    var o := TempEnd(w.a, saved.temp);
    Done(WithArena(w, o).(live := saved.frame.live, dropped := saved.frame.dropped, stack := Front(w.stack)),
         NULL, o.calls)
  }

  function Emptied(w: World, o: Outcome): Done {
    Done(WithArena(w, o).(live := [], dropped := [], stack := []), NULL, o.calls)
  }

  function Step(w: World, op: Op, reply: nat): Done {
    match op
    case Alloc(count, size, align, fill) => StepAlloc(w, count, size, align, fill, reply)
    case Resize(i, newSize) => if i < |w.live| then StepResize(w, i, newSize, reply) else Done(w, NULL, [])
    case Free(i) =>
      if i < |w.live| then
        Done(w.(a := AdapterFree(w.a, w.live[i].ptr, w.live[i].size), live := Removed(w.live, i)), NULL, [])
      else Done(w, NULL, [])
    case Write(i, offset, byte) =>
      if i < |w.live| then Done(w.(memory := Store(w.memory, w.live[i].ptr + offset, [byte])), NULL, [])
      else Done(w, NULL, [])
    case Begin =>
      var (a, temp) := TempBegin(w.a);
      Done(w.(a := a, stack := w.stack + [Saved(temp, FrameOf(w))]), NULL, [])
    case End => if w.stack != [] then StepEnd(w) else Done(w, NULL, [])
    case ResetAll => Emptied(w, Reset(w.a))
    case TrimFree => var o := Trim(w.a); Done(WithArena(w, o), NULL, o.calls)
    case Clear => Done(w.(a := ClearError(w.a)), NULL, [])
    case Shutdown => Emptied(w, Deinit(w.a))
  }

  // ----- legal runs -----

  // What the header asks of callers: handles are live, resizing and freeing
  // stay inside the current scope, scopes end innermost first.
  ghost predicate CallerOk(w: World, op: Op) {
    match op
    case Alloc(count, size, align, fill) => fill.With? ==> |fill.bytes| == count * size
    case Resize(i, newSize) => BaseCount(w) <= i < |w.live|
    case Free(i) => BaseCount(w) <= i < |w.live|
    case Write(i, offset, byte) => i < |w.live| && offset < w.live[i].size
    case Begin => |w.stack| < UINT_MAX
    case End => w.stack != []
    case _ => true
  }

  ghost predicate Legal(w: World, op: Op, reply: nat) {
    CallerOk(w, op) && Honest(w.out, Step(w, op, reply).calls)
  }

  ghost predicate LegalRun(w: World, ops: seq<Op>, replies: seq<nat>)
    requires |ops| == |replies|
    decreases |ops|
  {
    ops == [] ||
    (Legal(w, ops[0], replies[0]) && LegalRun(Step(w, ops[0], replies[0]).world, ops[1..], replies[1..]))
  }

  function Run(w: World, ops: seq<Op>, replies: seq<nat>): World
    requires |ops| == |replies|
    decreases |ops|
  {
    if ops == [] then w else Run(Step(w, ops[0], replies[0]).world, ops[1..], replies[1..])
  }

  // ----- the invariant -----

  // Scopes nest: each snapshot's frame is sound, and grew into the next.
  ghost predicate StackOk(a: Arena, top: Frame, stack: seq<Saved>)
    decreases |stack|
  {
    stack == [] ||
    (&& FrameOk(a.redzone, Last(stack).frame)
     && Extends(a.redzone, Last(stack).frame, top)
     && SnapshotOf(Last(stack).temp, Last(stack).frame)
     && Last(stack).temp.depth == |stack| && Last(stack).temp.generation == a.generation
     && (a.fixed ==> |Last(stack).frame.chain| == |top.chain|)
     && StackOk(a, Last(stack).frame, Front(stack)))
  }

  ghost predicate Inv(w: World) {
    && Sound(w.a, w.out)
    && FrameOk(w.a.redzone, FrameOf(w))
    && w.a.used <= w.a.highWater
    && w.a.depth == |w.stack| <= UINT_MAX
    && StackOk(w.a, FrameOf(w), w.stack)
  }

  // The scope below the top, or the top itself when there is none.
  function Base(w: World): Frame {
    if w.stack == [] then FrameOf(w) else Last(w.stack).frame
  }

  // A step that keeps what every snapshot can see keeps the stack.
  lemma StackKept(a: Arena, a': Arena, top: Frame, top': Frame, stack: seq<Saved>)
    requires StackOk(a, top, stack) && SameFixture(a, a')
    requires a.fixed ==> |top'.chain| == |top.chain|
    requires stack != [] ==> Extends(a.redzone, Last(stack).frame, top')
    ensures StackOk(a', top', stack)
  {
    hide FrameOk, Extends, SnapshotOf;
    if stack != [] {
      StackSameFixture(a, a', Last(stack).frame, Front(stack));
    }
  }

  lemma {:induction false} StackSameFixture(a: Arena, a': Arena, top: Frame, stack: seq<Saved>)
    requires StackOk(a, top, stack) && SameFixture(a, a')
    ensures StackOk(a', top, stack)
    decreases |stack|
  {
    hide FrameOk, Extends, SnapshotOf;
    if stack != [] {
      StackSameFixture(a, a', Last(stack).frame, Front(stack));
    }
  }

  lemma BaseExtends(w: World)
    requires Inv(w)
    ensures Extends(w.a.redzone, Base(w), FrameOf(w))
    ensures |Base(w).live| == if w.stack == [] then |w.live| else BaseCount(w)
  {
    hide FrameOk, Extends, Sound;
    ExtendsItself(w.a.redzone, FrameOf(w));
  }

  // ----- every step keeps the invariant -----

  // The invariant holds after the step, and the arena has given back to the
  // parent only what it held, as it held it.
  ghost predicate KeepsInv(w: World, op: Op, reply: nat) {
    var done := Step(w, op, reply);
    && Inv(done.world)
    && Dutiful(w.out, done.calls) && done.world.out == SettleAll(w.out, done.calls)
  }

  lemma FailKeepsInv(w: World, status: Status, out: Ledger)
    requires Inv(w) && Sound(Fail(w.a, status).arena, out)
    ensures Inv(w.(a := Fail(w.a, status).arena, out := out))
  {
    hide FrameOk, Extends, Sound, SnapshotOf;
    StackKept(w.a, Fail(w.a, status).arena, FrameOf(w), FrameOf(w), w.stack);
  }

  lemma AllocKeepsInv(w: World, count: Size, size: Size, align: Size, fill: Fill, reply: nat)
    requires Inv(w) && Legal(w, Alloc(count, size, align, fill), reply)
    ensures KeepsInv(w, Alloc(count, size, align, fill), reply)
  {
    hide FrameOk, Extends, Sound, SnapshotOf, Honest, Dutiful, SettleAll, AllocN, StackOk;
    var o := AllocN(w.a, count, size, align, reply);
    assert Step(w, Alloc(count, size, align, fill), reply).calls == o.calls;
    BaseExtends(w);
    AllocNKeepsSound(w.a, w.out, count, size, align, reply);
    AllocNUpkeep(w.a, count, size, align, reply);
    AllocNServes(w.a, w.out, FrameOf(w), Base(w), count, size, align, reply);
    if o.ptr == NULL {
      FailKeepsInv(w, o.arena.status, SettleAll(w.out, o.calls));
    } else {
      var next := Step(w, Alloc(count, size, align, fill), reply).world;
      StackKept(w.a, o.arena, FrameOf(w), FrameOf(next), w.stack);
    }
  }

  lemma ResizeKeepsInv(w: World, i: nat, newSize: Size, reply: nat)
    requires Inv(w) && Legal(w, Resize(i, newSize), reply)
    ensures KeepsInv(w, Resize(i, newSize), reply)
  {
    hide FrameOk, Extends, Sound, SnapshotOf, Honest, Dutiful, SettleAll, Realloc, StackOk, ReallocFrame;
    var l := w.live[i];
    var o := Realloc(w.a, l.ptr, l.size, newSize, l.align, reply);
    assert Step(w, Resize(i, newSize), reply).calls == o.calls;
    BaseExtends(w);
    LiveIsNotNull(w.a.redzone, FrameOf(w), i);
    ReallocKeepsSound(w.a, w.out, l.ptr, l.size, newSize, l.align, reply);
    if w.stack == [] {
      // Nothing to extend: any frame with no live allocations serves as base.
      ReallocServes(w.a, w.out, FrameOf(w), Frame([], 0, [], []), i, newSize, reply);
    } else {
      ReallocServes(w.a, w.out, FrameOf(w), Base(w), i, newSize, reply);
    }
    if o.ptr == NULL {
      FailKeepsInv(w, o.arena.status, SettleAll(w.out, o.calls));
    } else {
      var next := Step(w, Resize(i, newSize), reply).world;
      ReallocFrameShape(w.a, FrameOf(w), i, newSize, o);
      StackKept(w.a, o.arena, FrameOf(w), FrameOf(next), w.stack);
    }
  }

  lemma ReallocFrameShape(a: Arena, f: Frame, i: nat, newSize: nat, o: Outcome)
    requires i < |f.live| && o.arena.chain != []
    ensures var f' := ReallocFrame(a, f, i, newSize, o); f'.chain == o.arena.chain && f'.used == o.arena.used
  {
  }

  lemma FreeKeepsInv(w: World, i: nat, reply: nat)
    requires Inv(w) && Legal(w, Free(i), reply)
    ensures KeepsInv(w, Free(i), reply)
  {
    hide FrameOk, Extends, Sound, SnapshotOf, Honest, Dutiful, SettleAll, AdapterFree, StackOk;
    NoCalls(w.out);
    AdapterFreeKeepsSound(w.a, w.out, w.live[i].ptr, w.live[i].size);
    var base := if w.stack == [] then Frame([], 0, [], []) else Base(w);
    BaseExtends(w);
    FreeFrameOf(w.a, w.out, FrameOf(w), base, i);
    var next := Step(w, Free(i), reply).world;
    StackKept(w.a, next.a, FrameOf(w), FrameOf(next), w.stack);
  }

  lemma BeginKeepsInv(w: World, reply: nat)
    requires Inv(w) && Legal(w, Begin, reply)
    ensures KeepsInv(w, Begin, reply)
  {
    hide FrameOk, Extends, Sound, Honest, Dutiful, SettleAll, StackOk;
    NoCalls(w.out);
    var next := Step(w, Begin, reply).world;
    ExtendsItself(w.a.redzone, FrameOf(w));
    BeginStack(w, next);
    BeginSound(w.a, w.out);
  }

  lemma BeginSound(a: Arena, out: Ledger)
    requires Sound(a, out)
    ensures Sound(TempBegin(a).0, out)
  {
    hide PoolOk, Extents, Total;
  }

  lemma BeginStack(w: World, next: World)
    requires Inv(w) && |w.stack| < UINT_MAX && next == Step(w, Begin, 0).world
    requires Extends(w.a.redzone, FrameOf(w), FrameOf(w))
    ensures StackOk(next.a, FrameOf(next), next.stack)
  {
    hide FrameOk, Extends, Sound, SnapshotOf;
    assert Front(next.stack) == w.stack;
    SnapshotTaken(w.a, FrameOf(w));
    StackSameFixtureButDepth(w.a, next.a, FrameOf(w), w.stack);
  }

  lemma SnapshotTaken(a: Arena, f: Frame)
    requires Matches(a, f)
    ensures SnapshotOf(TempBegin(a).1, f)
  {
  }

  // A stack does not look at the arena's depth.
  lemma {:induction false} StackSameFixtureButDepth(a: Arena, a': Arena, top: Frame, stack: seq<Saved>)
    requires StackOk(a, top, stack)
    requires a'.redzone == a.redzone && a'.fixed == a.fixed && a'.generation == a.generation
    ensures StackOk(a', top, stack)
    decreases |stack|
  {
    hide FrameOk, Extends, SnapshotOf;
    if stack != [] {
      StackSameFixtureButDepth(a, a', Last(stack).frame, Front(stack));
    }
  }

  // What the top of a sound stack says about its snapshot.
  lemma TopOfStack(w: World)
    requires Inv(w) && w.stack != []
    ensures var saved := Last(w.stack);
            && ChainGrew(saved.frame.chain, w.a.chain) && saved.frame.used <= w.a.used
            && SnapshotOf(saved.temp, saved.frame) && FrameOk(w.a.redzone, saved.frame)
            && (w.a.fixed ==> w.a.chain == [] || Last(w.a.chain).addr == saved.temp.block)
            && StackOk(w.a, saved.frame, Front(w.stack))
            && saved.temp.depth == w.a.depth && saved.temp.generation == w.a.generation
  {
    hide FrameOk, Sound;
  }

  lemma EndKeepsInv(w: World, reply: nat)
    requires Inv(w) && Legal(w, End, reply)
    ensures KeepsInv(w, End, reply)
  {
    hide FrameOk, Extends, Sound, SnapshotOf, Honest, Dutiful, SettleAll, TempEnd, ChainGrew;
    var saved, o := Last(w.stack), TempEnd(w.a, Last(w.stack).temp);
    var next := Step(w, End, reply).world;
    TopOfStack(w);
    TempEndKeepsSound(w.a, w.out, saved.temp);
    EndRestores(w.a, w.out, saved.temp, saved.frame);
    StackSameFixtureButDepth(w.a, next.a, saved.frame, Front(w.stack));
  }

  lemma EmptyFrame(redzone: nat, chain: seq<Block>)
    requires |chain| <= 1 && (chain != [] ==> chain[0].used == 0)
    ensures FrameOk(redzone, Frame(chain, 0, [], []))
  {
    if chain != [] {
      assert Front(chain) == [];
    }
  }

  lemma HighWaterIsNatural(w: World)
    requires Inv(w)
    ensures 0 <= w.a.used <= w.a.highWater
  {
  }

  lemma {:induction false} PopsKeepHighWater(a: Arena, keep: nat)
    ensures PopAllBut(a, keep).arena.highWater == a.highWater
    decreases |a.chain|
  {
    if a.chain != [] {
      if |a.chain| - 1 == keep {
        PopsKeepHighWater(a.(chain := Front(a.chain)), keep);
      } else {
        PopsKeepHighWater(PopLast(a).arena, keep);
      }
    }
  }

  lemma ResetKeepsInv(w: World, reply: nat)
    requires Inv(w)
    ensures KeepsInv(w, ResetAll, reply)
  {
    hide FrameOk, Extends, Sound, SnapshotOf, Honest, Dutiful, SettleAll, PopAllBut;
    ResetKeepsSound(w.a, w.out);
    HighWaterIsNatural(w);
    PopsKeepHighWater(w.a, OldestNormal(w.a.chain));
    EmptyFrame(w.a.redzone, Reset(w.a).arena.chain);
    var next := Step(w, ResetAll, reply).world;
    EmptyFrame(next.a.redzone, next.a.chain);
  }

  lemma TrimKeepsInv(w: World, reply: nat)
    requires Inv(w)
    ensures KeepsInv(w, TrimFree, reply)
  {
    hide FrameOk, Extends, Sound, SnapshotOf, Honest, Dutiful, SettleAll, ReleaseAll, StackOk;
    TrimKeepsSound(w.a, w.out);
    ReleaseAllMeaning(w.a, w.a.free);
    var next := Step(w, TrimFree, reply).world;
    StackSameFixtureButDepth(w.a, next.a, FrameOf(w), w.stack);
  }

  lemma ClearKeepsInv(w: World, reply: nat)
    requires Inv(w)
    ensures KeepsInv(w, Clear, reply)
  {
    hide FrameOk, Extends, SnapshotOf, Honest, Dutiful, SettleAll, StackOk, PoolOk, Extents, Total;
    NoCalls(w.out);
    StackSameFixtureButDepth(w.a, ClearError(w.a), FrameOf(w), w.stack);
  }

  lemma ShutdownKeepsInv(w: World, reply: nat)
    requires Inv(w)
    ensures KeepsInv(w, Shutdown, reply)
    ensures Step(w, Shutdown, reply).world.out == multiset{}
  {
    hide FrameOk, Extends, Sound, SnapshotOf, Honest, Dutiful, SettleAll, ReleaseAll;
    DeinitSettles(w.a, w.out);
    EmptyFrame(w.a.redzone, []);
  }

  lemma StepKeepsInv(w: World, op: Op, reply: nat)
    requires Inv(w) && Legal(w, op, reply)
    ensures KeepsInv(w, op, reply)
  {
    hide Inv, KeepsInv, Legal;
    match op {
      case Alloc(count, size, align, fill) => AllocKeepsInv(w, count, size, align, fill, reply);
      case Resize(i, newSize) => ResizeKeepsInv(w, i, newSize, reply);
      case Free(i) => FreeKeepsInv(w, i, reply);
      case Write(i, offset, byte) => WriteKeepsInv(w, i, offset, byte, reply);
      case Begin => BeginKeepsInv(w, reply);
      case End => EndKeepsInv(w, reply);
      case ResetAll => ResetKeepsInv(w, reply);
      case TrimFree => TrimKeepsInv(w, reply);
      case Clear => ClearKeepsInv(w, reply);
      case Shutdown => ShutdownKeepsInv(w, reply);
    }
  }

  lemma WriteKeepsInv(w: World, i: nat, offset: nat, byte: Byte, reply: nat)
    requires Inv(w) && Legal(w, Write(i, offset, byte), reply)
    ensures KeepsInv(w, Write(i, offset, byte), reply)
  {
    hide FrameOk, Extends, Sound, SnapshotOf, StackOk, Honest, Dutiful, SettleAll;
    NoCalls(w.out);
  }

  // Every state of every legal run satisfies the invariant.
  lemma {:induction false} RunKeepsInv(w: World, ops: seq<Op>, replies: seq<nat>)
    requires |ops| == |replies| && Inv(w) && LegalRun(w, ops, replies)
    ensures Inv(Run(w, ops, replies))
    decreases |ops|
  {
    hide Inv, Legal, Step;
    if ops != [] {
      StepKeepsInv(w, ops[0], replies[0]);
      StepInv(w, ops[0], replies[0]);
      RunKeepsInv(Step(w, ops[0], replies[0]).world, ops[1..], replies[1..]);
    }
  }

  lemma StepInv(w: World, op: Op, reply: nat)
    requires KeepsInv(w, op, reply)
    ensures Inv(Step(w, op, reply).world)
  {
  }

  // Where runs start.
  function Start(a: Arena, memory: Memory): World {
    World(a, [], [], [], multiset{}, memory)
  }

  lemma StartKeepsInv(redzone: nat, minBlock: Size, maxBlock: Size, buffer: nat, size: Size, memory: Memory)
    requires redzone == 0 || redzone == ASAN_REDZONE
    requires buffer + size <= MODULUS
    ensures Inv(Start(Init(redzone), memory)) && Inv(Start(InitSized(redzone, minBlock, maxBlock), memory))
    ensures Inv(Start(InitFixed(redzone, buffer, size), memory))
  {
    hide FrameOk, Extends, Sound, SnapshotOf;
    InitIsSound(redzone, minBlock, maxBlock);
    InitFixedIsSound(redzone, buffer, size);
    EmptyFrame(redzone, []);
    EmptyFrame(redzone, InitFixed(redzone, buffer, size).chain);
  }
}
