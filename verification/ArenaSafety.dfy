// What the invariant means to a caller, over every legal run.
module ArenaSafety {
  import opened Machine
  import opened WordBits
  import opened ArenaModel
  import opened ArenaSound
  import opened ArenaFrames
  import opened ArenaAlloc
  import opened ArenaScopes
  import opened ArenaRuns

  // ----- live allocations -----

  predicate RangesApart(at: nat, len: nat, from: nat, count: nat) {
    at + len <= from || from + count <= at
  }

  // A live allocation is aligned as requested, lies in the used part of a
  // chained block, and meets no block header, no retained block, and no other
  // live allocation.
  ghost predicate LiveIsSafe(w: World, i: nat)
    requires i < |w.live|
  {
    var l := w.live[i];
    && l.ptr != NULL && l.ptr + l.size <= MODULUS
    && (l.align != 0 ==> l.ptr % l.align == 0) && (l.align == 0 ==> l.ptr % 16 == 0)
    && (w.a.redzone > 0 ==> l.ptr % 8 == 0)
    && l.home < |w.a.chain|
    && w.a.chain[l.home].Data() <= l.ptr && l.ptr + l.size <= w.a.chain[l.home].Cursor()
    && (forall b :: b in w.a.chain ==> RangesApart(l.ptr, l.size, b.addr, HEADER))
    && (forall b :: b in w.a.free ==> RangesApart(l.ptr, l.size, b.addr, b.Bytes()))
    && (forall j :: 0 <= j < |w.live| && j != i ==>
          RangesApart(l.ptr, l.size, w.live[j].ptr, w.live[j].size))
  }

  lemma InvIsSafe(w: World, i: nat)
    requires Inv(w) && i < |w.live|
    ensures LiveIsSafe(w, i)
  {
    hide Extends, StackOk, SnapshotOf;
    var l, chain := w.live[i], w.a.chain;
    assert LiveOk(w.a.redzone, chain, l);
    var home := chain[l.home];
    assert home in chain;
    forall b | b in chain ensures RangesApart(l.ptr, l.size, b.addr, HEADER) {
      var j :| 0 <= j < |chain| && chain[j] == b;
      if j < l.home {
        assert Apart(chain[j], chain[l.home]);
      } else if l.home < j {
        assert Apart(chain[l.home], chain[j]);
      }
    }
    forall b | b in w.a.free ensures RangesApart(l.ptr, l.size, b.addr, b.Bytes()) {
      assert Apart(home, b);
    }
    forall j | 0 <= j < |w.live| && j != i
      ensures RangesApart(l.ptr, l.size, w.live[j].ptr, w.live[j].size)
    {
      if i < j {
        assert LiveApart(w.a.redzone, w.live[i], w.live[j]);
      } else {
        assert LiveApart(w.a.redzone, w.live[j], w.live[i]);
      }
    }
  }

  lemma RunIsSafe(w: World, ops: seq<Op>, replies: seq<nat>, i: nat)
    requires |ops| == |replies| && Inv(w) && LegalRun(w, ops, replies)
    requires i < |Run(w, ops, replies).live|
    ensures LiveIsSafe(Run(w, ops, replies), i)
  {
    hide Inv, LiveIsSafe, LegalRun, Run;
    RunKeepsInv(w, ops, replies);
    InvIsSafe(Run(w, ops, replies), i);
  }

  // ----- bytes -----

  // The operation writes to, or resizes, the allocation itself.
  predicate Targets(op: Op, i: nat) {
    match op
    case Write(j, _, _) => i == j
    case Resize(j, _) => i == j
    case _ => false
  }

  lemma OthersApartFromServed(w: World, i: nat, j: nat)
    requires Inv(w) && i < |w.live| && j < |w.live| && i != j
    ensures RangesApart(w.live[i].ptr, w.live[i].size, w.live[j].ptr, w.live[j].size)
  {
    hide Inv;
    InvIsSafe(w, i);
  }

  // Every operation that does not target an allocation leaves its bytes alone.
  lemma BytesKept(w: World, op: Op, reply: nat, i: nat, x: nat)
    requires Inv(w) && Legal(w, op, reply)
    requires i < |w.live| && !Targets(op, i)
    requires w.live[i].ptr <= x < w.live[i].ptr + w.live[i].size
    ensures Step(w, op, reply).world.memory(x) == w.memory(x)
  {
    hide Inv, Honest, AllocN, Realloc, Reset, Deinit, Trim, TempEnd, TempBegin, AdapterFree;
    var next := Step(w, op, reply).world;
    StepKeepsInv(w, op, reply);
    match op {
      case Alloc(count, size, align, fill) =>
        if next.live != w.live {
          assert next.live[i] == w.live[i];
          OthersApartFromServed(next, i, |w.live|);
        }
      case Resize(j, newSize) =>
        if Step(w, op, reply).ptr != NULL && next.a.chain != [] {
          LiveHasPointer(w, j);
          ResizedLiveShape(w, j, newSize, reply);
          OthersApartFromServed(next, i, j);
        }
      case Write(j, offset, byte) => OthersApartFromServed(w, i, j);
      case _ =>
    }
  }

  lemma LiveHasPointer(w: World, i: nat)
    requires Inv(w) && i < |w.live|
    ensures w.live[i].ptr != NULL && 0 < w.live[i].size
  {
    LiveIsNotNull(w.a.redzone, FrameOf(w), i);
  }

  // A resized allocation keeps its place in the list; the others are untouched.
  lemma ResizedLiveShape(w: World, j: nat, newSize: Size, reply: nat)
    requires j < |w.live| && w.live[j].ptr != NULL
    requires Step(w, Resize(j, newSize), reply).ptr != NULL
    requires Step(w, Resize(j, newSize), reply).world.a.chain != []
    ensures var done := Step(w, Resize(j, newSize), reply);
            && |done.world.live| == |w.live|
            && (forall i :: 0 <= i < |w.live| && i != j ==> done.world.live[i] == w.live[i])
            && done.world.live[j].size == newSize && done.world.live[j].ptr == done.ptr
  {
    hide AllocN, AlignValid;
    var l := w.live[j];
    ResizeNullUpkeep(w.a, l.ptr, l.size, newSize);
  }

  // A reallocation that serves keeps the first min(old, new) bytes, wherever
  // the allocation now is.
  lemma ResizeKeepsPrefix(w: World, i: nat, newSize: Size, reply: nat, k: nat)
    requires Inv(w) && Legal(w, Resize(i, newSize), reply)
    requires Step(w, Resize(i, newSize), reply).ptr != NULL
    requires k < w.live[i].size && k < newSize
    ensures var done := Step(w, Resize(i, newSize), reply);
            && i < |done.world.live| && done.world.live[i].ptr == done.ptr && done.world.live[i].size == newSize
            && done.world.memory(done.ptr + k) == w.memory(w.live[i].ptr + k)
  {
    hide Inv, Legal, Realloc;
    var done := Step(w, Resize(i, newSize), reply);
    LiveHasPointer(w, i);
    ServedHasChain(w, i, newSize, reply);
    ResizedLiveShape(w, i, newSize, reply);
  }

  // A moved allocation lands clear of where it was, so its bytes may be copied
  // in any order.
  lemma MoveIsApart(w: World, i: nat, newSize: Size, reply: nat)
    requires Inv(w) && Legal(w, Resize(i, newSize), reply)
    requires var l := w.live[i]; l.ptr != NULL && ResizeLast(w.a, l.ptr, l.size, newSize).ptr == NULL
    requires Step(w, Resize(i, newSize), reply).ptr != NULL
    ensures var l := w.live[i];
            0 < l.size && 0 < newSize && RangesApart(Step(w, Resize(i, newSize), reply).ptr, newSize, l.ptr, l.size)
  {
    hide Inv, AllocN, Honest, SettleAll, AlignValid, ResizeLast;
    var align := w.live[i].align;
    var beside := Step(w, Alloc(1, newSize, align, Raw), reply);
    LiveHasPointer(w, i);
    StepKeepsInv(w, Alloc(1, newSize, align, Raw), reply);
    ServedAllocGrows(w, 1, newSize, align, Raw, reply);
    OthersApartFromServed(beside.world, |w.live|, i);
    LiveHasPointer(beside.world, |w.live|);
  }

  // A served request adds one live allocation at the end of the list.
  lemma ServedAllocGrows(w: World, count: Size, size: Size, align: Size, fill: Fill, reply: nat)
    requires var op := Alloc(count, size, align, fill); Inv(w) && Legal(w, op, reply) && Step(w, op, reply).ptr != NULL
    ensures var done := Step(w, Alloc(count, size, align, fill), reply);
            && done.world.live[..|w.live|] == w.live && |done.world.live| == |w.live| + 1
            && Last(done.world.live).ptr == done.ptr && Last(done.world.live).size == Times(count, size)
            && Last(done.world.live).align == align && done.world.stack == w.stack
            && done.world.a.chain != []
  {
    hide FrameOk, Extends, Sound, SnapshotOf, StackOk, Honest, AllocN;
    AllocNServes(w.a, w.out, FrameOf(w), FrameOf(w), count, size, align, reply);
  }

  lemma ServedHasChain(w: World, i: nat, newSize: Size, reply: nat)
    requires Inv(w) && Legal(w, Resize(i, newSize), reply)
    requires Step(w, Resize(i, newSize), reply).ptr != NULL
    ensures i < |w.live| && Step(w, Resize(i, newSize), reply).world.a.chain != []
  {
    hide FrameOk, Extends, Sound, SnapshotOf, StackOk, Honest, Realloc;
    LiveIsNotNull(w.a.redzone, FrameOf(w), i);
    ReallocServes(w.a, w.out, FrameOf(w), Frame([], 0, [], []), i, newSize, reply);
  }

  // A new allocation holds what it was filled with.
  lemma FilledAsAsked(w: World, count: Size, size: Size, align: Size, bytes: seq<Byte>, reply: nat, k: nat)
    requires Inv(w) && Legal(w, Alloc(count, size, align, With(bytes)), reply)
    requires Step(w, Alloc(count, size, align, With(bytes)), reply).ptr != NULL && k < |bytes|
    ensures var done := Step(w, Alloc(count, size, align, With(bytes)), reply);
            && |done.world.live| == |w.live| + 1
            && Last(done.world.live).ptr == done.ptr && Last(done.world.live).size == |bytes|
            && done.world.memory(done.ptr + k) == bytes[k]
  {
    hide FrameOk, Extends, Sound, SnapshotOf, StackOk, Honest, AllocN;
    AllocNServes(w.a, w.out, FrameOf(w), FrameOf(w), count, size, align, reply);
  }

  // ----- failures -----

  // A request that returns NULL changes nothing but the status, and a NULL
  // with a good status means an empty request.
  lemma FailureIsClean(w: World, op: Op, reply: nat)
    requires Inv(w) && Legal(w, op, reply) && (op.Alloc? || op.Resize?)
    requires Step(w, op, reply).ptr == NULL
    ensures var next := Step(w, op, reply).world;
            && next == w.(a := w.a.(status := next.a.status))
            && (w.a.status != Ok ==> next == w)
            && (w.a.status == Ok && next.a.status == Ok ==>
                  op.Alloc? && (op.count == 0 || op.size == 0) && AlignValid(op.align))
  {
    hide FrameOk, Extends, Sound, SnapshotOf, StackOk, Honest, AllocN, Realloc, SettleAll, AlignValid;
    NoCalls(w.out);
    match op {
      case Alloc(count, size, align, fill) =>
        AllocNServes(w.a, w.out, FrameOf(w), FrameOf(w), count, size, align, reply);
        FailedAllocAsks(w.a, w.out, count, size, align, reply);
      case Resize(i, newSize) =>
        LiveIsNotNull(w.a.redzone, FrameOf(w), i);
        ReallocServes(w.a, w.out, FrameOf(w), Frame([], 0, [], []), i, newSize, reply);
        FailedReallocAsks(w.a, w.out, w.live[i].ptr, w.live[i].size, newSize, w.live[i].align, reply);
    }
  }

  // A refused request leaves nothing outstanding at the parent.
  lemma FailedAllocAsks(a: Arena, out: Ledger, count: Size, size: Size, align: Size, reply: nat)
    requires Sound(a, out) && Honest(out, AllocN(a, count, size, align, reply).calls)
    requires AllocN(a, count, size, align, reply).ptr == NULL
    ensures SettleAll(out, AllocN(a, count, size, align, reply).calls) == out
  {
    hide Sound, Honest, SettleAll, Bump, AlignValid, CheckedProduct;
    NoCalls(out);
    if a.status == Ok && AlignValid(align) && count != 0 && size != 0 {
      CheckedProductMeaning(count, size);
      PositiveProduct(count, size);
      match CheckedProduct(count, size) {
        case TooBig =>
        case Fits(total) =>
          var effective := EffectiveAlign(a.redzone, align);
          EffectiveAlignIsServed(a.redzone, align);
          BumpUpkeep(a, total, effective);
          if Bump(a, total, effective).ptr == NULL {
            GrowthServes(a, out, total, effective, reply);
            OneRefusal(out, RequestSize(a, WorstCase(a, total, effective)));
          }
      }
    }
  }

  lemma FailedReallocAsks(a: Arena, out: Ledger, ptr: nat, oldSize: nat, newSize: Size, align: Size, reply: nat)
    requires Sound(a, out) && Honest(out, Realloc(a, ptr, oldSize, newSize, align, reply).calls)
    requires ptr != NULL && Realloc(a, ptr, oldSize, newSize, align, reply).ptr == NULL
    ensures SettleAll(out, Realloc(a, ptr, oldSize, newSize, align, reply).calls) == out
  {
    hide Sound, Honest, SettleAll, AllocN, ResizeLast, AlignValid;
    NoCalls(out);
    ResizeNullUpkeep(a, ptr, oldSize, newSize);
    if a.status == Ok && AlignValid(align) && 0 < newSize <= PTRDIFF_MAX
       && ResizeLast(a, ptr, oldSize, newSize).ptr == NULL {
      FailedAllocAsks(a, out, 1, newSize, align, reply);
    }
  }

  // ----- statistics -----

  lemma {:induction false} ConsumedFits(chain: seq<Block>)
    requires forall b :: b in chain ==> BlockOk(b)
    ensures Consumed(chain) + HEADER * |chain| <= Total(chain)
  {
    if chain != [] {
      assert Last(chain) in chain && forall b :: b in Front(chain) ==> b in chain;
      ConsumedFits(Front(chain));
    }
  }

  // `used` is what the chained blocks consumed less the abandoned sources; it
  // never underflows and never exceeds the high-water mark or what is held.
  lemma StatisticsAgree(w: World)
    requires Inv(w)
    ensures w.a.used + Sum(w.dropped) == Consumed(w.a.chain)
    ensures 0 <= Claim(w.a.redzone, w.live) <= w.a.used <= w.a.highWater
    ensures w.a.used <= w.a.committed
    ensures !w.a.fixed ==> w.a.committed == Total(w.a.chain) + Total(w.a.free)
  {
    hide Extends, StackOk, AllLive, AllLiveApart;
    ConsumedFits(w.a.chain);
  }

  // ----- conservation with the parent -----

  // All calls of a run, in order.
  function Trace(w: World, ops: seq<Op>, replies: seq<nat>): seq<Call>
    requires |ops| == |replies|
    decreases |ops|
  {
    if ops == [] then []
    else Step(w, ops[0], replies[0]).calls + Trace(Step(w, ops[0], replies[0]).world, ops[1..], replies[1..])
  }

  // Over a whole run every release returns a range that is outstanding then,
  // with its exact size, and the ledger is what the arena holds.
  lemma {:induction false} RunConserves(w: World, ops: seq<Op>, replies: seq<nat>)
    requires |ops| == |replies| && Inv(w) && LegalRun(w, ops, replies)
    ensures var calls, end := Trace(w, ops, replies), Run(w, ops, replies);
            && Dutiful(w.out, calls) && end.out == SettleAll(w.out, calls)
            && (!end.a.fixed ==> end.out == Extents(end.a.chain) + Extents(end.a.free))
    decreases |ops|
  {
    hide Legal, Step, Dutiful, SettleAll, Extents, FrameOk, StackOk, PoolOk, Total;
    NoCalls(w.out);
    if ops != [] {
      var done := Step(w, ops[0], replies[0]);
      StepKeepsInv(w, ops[0], replies[0]);
      RunConserves(done.world, ops[1..], replies[1..]);
      CallsCompose(w.out, done.calls, Trace(done.world, ops[1..], replies[1..]));
    }
  }

  // A run that ends in deinit leaves nothing outstanding.
  lemma ShutdownReturnsAll(w: World, ops: seq<Op>, replies: seq<nat>, reply: nat)
    requires |ops| == |replies| && Inv(w) && LegalRun(w, ops, replies)
    ensures Step(Run(w, ops, replies), Shutdown, reply).world.out == multiset{}
    ensures Dutiful(Run(w, ops, replies).out, Step(Run(w, ops, replies), Shutdown, reply).calls)
  {
    hide Inv, LegalRun, Run, Step, Dutiful;
    RunKeepsInv(w, ops, replies);
    ShutdownKeepsInv(Run(w, ops, replies), reply);
  }

  // ----- no sum wraps -----

  function Interval(lo: int, hi: int): (r: set<int>)
    ensures forall x :: x in r <==> lo <= x < hi
    decreases hi - lo
  {
    if hi <= lo then {} else Interval(lo, hi - 1) + {hi - 1}
  }

  lemma {:induction false} IntervalSize(lo: int, hi: int)
    requires lo <= hi
    ensures |Interval(lo, hi)| == hi - lo
    decreases hi - lo
  {
    if lo == hi {
      assert Interval(lo, hi) == {};
    } else {
      IntervalSize(lo, hi - 1);
      assert Interval(lo, hi) == Interval(lo, hi - 1) + {hi - 1};
    }
  }

  // All addresses a list of blocks covers.
  function Covered(blocks: seq<Block>): set<int> {
    if blocks == [] then {} else Covered(Front(blocks)) + Interval(Last(blocks).addr, Last(blocks).End())
  }

  ghost predicate InSomeBlock(x: int, blocks: seq<Block>) {
    exists b :: b in blocks && b.addr <= x < b.End()
  }

  lemma {:induction false} CoveredMember(blocks: seq<Block>, x: int)
    requires x in Covered(blocks)
    ensures InSomeBlock(x, blocks)
  {
    if x in Covered(Front(blocks)) {
      CoveredMember(Front(blocks), x);
      var b :| b in Front(blocks) && b.addr <= x < b.End();
      assert b in blocks;
    } else {
      assert Last(blocks) in blocks;
    }
  }

  lemma CoveredInSpace(blocks: seq<Block>)
    requires forall b :: b in blocks ==> BlockOk(b)
    ensures Covered(blocks) <= Interval(1, MODULUS)
  {
    forall x | x in Covered(blocks) ensures x in Interval(1, MODULUS) {
      CoveredMember(blocks, x);
    }
  }

  lemma LastIsApart(blocks: seq<Block>)
    requires blocks != [] && AllApart(blocks) && forall b :: b in blocks ==> BlockOk(b)
    ensures Covered(Front(blocks)) * Interval(Last(blocks).addr, Last(blocks).End()) == {}
    ensures AllApart(Front(blocks))
  {
    var rest, last := Front(blocks), Last(blocks);
    forall x | x in Covered(rest) ensures x !in Interval(last.addr, last.End()) {
      CoveredMember(rest, x);
      var b :| b in rest && b.addr <= x < b.End();
      var i :| 0 <= i < |rest| && rest[i] == b;
      assert Apart(blocks[i], blocks[|rest|]);
    }
    forall i, j | 0 <= i < j < |rest| ensures Apart(rest[i], rest[j]) {
      assert Apart(blocks[i], blocks[j]);
    }
  }

  lemma {:induction false} CoveredIsTotal(blocks: seq<Block>)
    requires AllApart(blocks) && forall b :: b in blocks ==> BlockOk(b)
    ensures |Covered(blocks)| == Total(blocks)
  {
    hide AllApart, BlockOk;
    if blocks != [] {
      var rest, last := Front(blocks), Last(blocks);
      LastIsApart(blocks);
      assert forall b :: b in rest ==> b in blocks;
      CoveredIsTotal(rest);
      IntervalSize(last.addr, last.End());
    }
  }

  lemma SubsetIsSmaller(a: set<int>, b: set<int>)
    requires a <= b
    ensures |a| <= |b|
  {
    assert b == a + (b - a);
  }

  // What an arena holds fits the address space, so `committed` never wraps;
  // by StatisticsAgree neither does `used`.
  lemma CommittedIsRepresentable(w: World)
    requires Inv(w)
    ensures 0 <= w.a.committed <= SIZE_MAX
  {
    hide FrameOk, Extends, StackOk, Covered;
    if !w.a.fixed {
      var pool := w.a.chain + w.a.free;
      forall i, j | 0 <= i < j < |pool| ensures Apart(pool[i], pool[j]) {
        assert j < |w.a.chain| ==> Apart(w.a.chain[i], w.a.chain[j]);
        assert |w.a.chain| <= i ==> Apart(w.a.free[i - |w.a.chain|], w.a.free[j - |w.a.chain|]);
      }
      TotalConcat(w.a.chain, w.a.free);
      CoveredIsTotal(pool);
      CoveredInSpace(pool);
      SubsetIsSmaller(Covered(pool), Interval(1, MODULUS));
      IntervalSize(1, MODULUS);
    }
  }

  // ----- scopes rewind exactly -----

  // The run stays inside the scope at the given depth: it neither ends it nor
  // resets or deinitializes the arena.
  ghost predicate StaysInside(w: World, ops: seq<Op>, replies: seq<nat>, depth: nat)
    requires |ops| == |replies|
    decreases |ops|
  {
    ops == [] ||
    (&& (ops[0].End? ==> depth < |w.stack|) && !ops[0].ResetAll? && !ops[0].Shutdown?
     && StaysInside(Step(w, ops[0], replies[0]).world, ops[1..], replies[1..], depth))
  }

  lemma StepStack(w: World, op: Op, reply: nat)
    requires !op.ResetAll? && !op.Shutdown?
    ensures var stack := Step(w, op, reply).world.stack;
            if op.Begin? then |stack| == |w.stack| + 1 && Front(stack) == w.stack
            else if op.End? && w.stack != [] then stack == Front(w.stack)
            else stack == w.stack
  {
    hide AllocN, Realloc, TempEnd, AdapterFree, Trim, ReallocFrame;
  }

  // The snapshots up to that depth are the same at the end of the run.
  lemma {:induction false} OuterScopesKept(w: World, ops: seq<Op>, replies: seq<nat>, depth: nat)
    requires |ops| == |replies| && depth <= |w.stack| && StaysInside(w, ops, replies, depth)
    ensures depth <= |Run(w, ops, replies).stack| && Run(w, ops, replies).stack[..depth] == w.stack[..depth]
    decreases |ops|
  {
    hide Step;
    if ops != [] {
      var next := Step(w, ops[0], replies[0]).world;
      StepStack(w, ops[0], replies[0]);
      assert next.stack[..depth] == w.stack[..depth];
      OuterScopesKept(next, ops[1..], replies[1..], depth);
    }
  }

  // Begin a scope, run anything legal inside it, with nested scopes and failed
  // calls, and end it: the block chain, the cursor, `used` and the live
  // allocations are what they were. Normal blocks entered since are free,
  // oversize ones returned, and the status stays as the run left it.
  lemma ScopeRewinds(w: World, ops: seq<Op>, replies: seq<nat>, beginReply: nat, endReply: nat)
    requires |ops| == |replies| && Inv(w) && Legal(w, Begin, beginReply)
    requires var inside := Step(w, Begin, beginReply).world;
             && LegalRun(inside, ops, replies) && StaysInside(inside, ops, replies, |w.stack| + 1)
             && |Run(inside, ops, replies).stack| == |w.stack| + 1
    ensures var last := Run(Step(w, Begin, beginReply).world, ops, replies);
            var done := Step(last, End, endReply);
            && FrameOf(done.world) == FrameOf(w) && done.world.stack == w.stack
            && |w.a.chain| <= |last.a.chain|
            && done.world.a.free == EmptiedNormals(last.a.chain[|w.a.chain|..]) + last.a.free
            && done.calls == OversizeReleases(last.a.chain[|w.a.chain|..])
            && done.world.a.status == last.a.status && done.world.a.depth == w.a.depth
            && done.world.memory == last.memory
  {
    hide FrameOk, Extends, Sound, SnapshotOf, Honest, TempEnd, ChainGrew, LegalRun, Run, StaysInside,
      EmptiedNormals, OversizeReleases;
    var inside := Step(w, Begin, beginReply).world;
    var last := Run(inside, ops, replies);
    BeginKeepsInv(w, beginReply);
    StepInv(w, Begin, beginReply);
    RunKeepsInv(inside, ops, replies);
    OuterScopesKept(inside, ops, replies, |inside.stack|);
    assert last.stack == last.stack[..|inside.stack|] == inside.stack[..|inside.stack|] == inside.stack;
    TopOfStack(last);
    GrewIsLonger(w.a.chain, last.a.chain);
    EndRestores(last.a, last.out, Last(last.stack).temp, FrameOf(w));
  }

  lemma GrewIsLonger(base: seq<Block>, chain: seq<Block>)
    requires ChainGrew(base, chain)
    ensures |base| <= |chain|
  {
  }

  // The checks the debug build makes when a scope ends hold in every legal run.
  lemma DebugChecksHold(w: World)
    requires Inv(w) && w.stack != []
    ensures var temp := Last(w.stack).temp;
            && temp.generation == w.a.generation && temp.depth == w.a.depth && temp.used <= w.a.used
            && var popped := PopToBlock(w.a, temp.block).arena;
            && (if temp.block == NULL then popped.chain == []
                else popped.chain != [] && Last(popped.chain).addr == temp.block
                     && temp.blockUsed <= Last(popped.chain).used)
  {
    hide FrameOk, Extends, Sound, StackOk, PopToBlock, EmptiedNormals, OversizeReleases, OversizeBytes;
    var saved := Last(w.stack);
    TopOfStack(w);
    EndPops(w.a, w.out, saved.temp, saved.frame);
    if saved.frame.chain != [] {
      RewoundChain(saved.frame.chain, w.a.chain);
      SnapshotBlockIsNotNull(w.a, w.out, saved.frame);
    }
  }

  lemma SnapshotBlockIsNotNull(a: Arena, out: Ledger, base: Frame)
    requires Sound(a, out) && ChainGrew(base.chain, a.chain) && base.chain != []
    ensures Last(base.chain).addr != NULL && Last(a.chain[..|base.chain|]).addr == Last(base.chain).addr
  {
    assert a.chain[|base.chain| - 1] in a.chain;
  }
}
