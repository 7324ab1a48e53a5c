// What one allocation or reallocation does to the live allocations, and that
// a failed one does nothing.
module ArenaAlloc {
  import opened Arithmetic
  import opened Machine
  import opened WordBits
  import opened ArenaModel
  import opened ArenaSound
  import opened ArenaFrames

  ghost predicate Matches(a: Arena, f: Frame) {
    a.chain == f.chain && a.used == f.used
  }

  // The frame of an arena with the same bookkeeping of live allocations.
  function Rebase(f: Frame, a: Arena): Frame {
    f.(chain := a.chain, used := a.used)
  }

  lemma EffectiveAlignIsServed(redzone: nat, align: Size)
    requires AlignValid(align)
    ensures EffectiveAlign(redzone, align) <= MAX_ALIGN && IsServedAlign(EffectiveAlign(redzone, align))
  {
    AlignValidMeaning(align);
    assert DEFAULT_ALIGN == Pow2(4) && ASAN_ALIGN_FLOOR == Pow2(3);
  }

  lemma EightDivides(align: nat)
    requires IsPow2(align)
    ensures if align < 8 then align == 1 || align == 2 || align == 4 else align % 8 == 0
  {
    var k: nat :| align == Pow2(k);
    assert Pow2(3) == 8;
    if 3 <= k {
      Pow2Monotone(3, k);
      Pow2Adds(3, k - 3);
    }
  }

  lemma MultipleOfMultiple(addr: nat, align: nat, d: nat)
    requires 0 < d && 0 < align && align % d == 0 && addr % align == 0
    ensures addr % d == 0
  {
    var q, m := addr / align, align / d;
    assert addr == q * align && align == m * d;
    assert q * (m * d) == (q * m) * d;
    DivisionIsUnique(addr, d, q * m, 0);
  }

  // The multiples of the effective alignment are exactly the addresses that
  // suit the request.
  lemma EffectiveAlignMeaning(redzone: nat, align: Size, addr: nat)
    requires IsServedAlign(align)
    ensures IsAligned(addr, EffectiveAlign(redzone, align)) <==> AlignedFor(redzone, align, addr)
  {
    if align != 0 {
      EightDivides(align);
      if 8 <= align && addr % align == 0 {
        MultipleOfMultiple(addr, align, 8);
      }
    }
  }

  lemma SoundChain(a: Arena, out: Ledger)
    requires Sound(a, out)
    ensures ChainOk(a.chain)
    ensures forall b :: b in a.chain || b in a.free ==> BlockOk(b)
    ensures forall b :: b in a.free ==> b.used == 0 && !b.oversize
  {
  }

  // ----- one bump -----

  // A served bump carves an aligned range out past the cursor.
  lemma BumpCarves(a: Arena, size: nat, align: Size)
    requires AlignValid(align) && ChainOk(a.chain) && 0 < size
    requires Bump(a, size, EffectiveAlign(a.redzone, align)).ptr != NULL
    ensures var o := Bump(a, size, EffectiveAlign(a.redzone, align));
            var total := o.arena.used - a.used;
            && 0 <= total && a.chain != [] && o.calls == []
            && o.arena == a.(chain := BumpedChain(a.chain, total), used := a.used + total,
                             highWater := Max(a.highWater, a.used + total))
            && Carved(a.redzone, a.chain, total, Live(o.ptr, size, align, |a.chain| - 1))
  {
    hide AlignValid, AllApart, EffectiveAlign, IsServedAlign, AlignedFor;
    var effective := EffectiveAlign(a.redzone, align);
    EffectiveAlignIsServed(a.redzone, align);
    AlignValidMeaning(align);
    assert Last(a.chain) in a.chain;
    PaddingIsLeast(Last(a.chain).Cursor(), effective);
    EffectiveAlignMeaning(a.redzone, align, Bump(a, size, effective).ptr);
  }

  lemma BumpFrameOf(a: Arena, f: Frame, base: Frame, size: nat, align: Size)
    requires AlignValid(align) && ChainOk(a.chain) && 0 < size
    requires FrameOk(a.redzone, f) && Matches(a, f)
    requires Bump(a, size, EffectiveAlign(a.redzone, align)).ptr != NULL
    ensures var o := Bump(a, size, EffectiveAlign(a.redzone, align));
            var f' := Rebase(f, o.arena).(live := f.live + [Live(o.ptr, size, align, |o.arena.chain| - 1)]);
            && FrameOk(a.redzone, f')
            && (Extends(a.redzone, base, f) ==> Extends(a.redzone, base, f'))
            && o.arena.used <= o.arena.highWater && o.arena.chain != []
  {
    hide FrameOk, Extends, ChainOk, Carved, AlignValid, Bump;
    var o := Bump(a, size, EffectiveAlign(a.redzone, align));
    BumpCarves(a, size, align);
    var total, l := o.arena.used - a.used, Live(o.ptr, size, align, |a.chain| - 1);
    BumpKeepsFrame(a.redzone, f, total, l);
    if Extends(a.redzone, base, f) {
      BumpKeepsExtends(a.redzone, base, f, total, l);
    }
  }

  // An empty block with room for the worst case serves whatever its address.
  lemma EmptyBlockServes(a: Arena, size: nat, align: nat)
    requires a.chain != [] && BlockOk(Last(a.chain)) && Last(a.chain).used == 0
    requires 0 < align && IsServedAlign(align) && 0 < size
    requires WorstCase(a, size, align) <= Last(a.chain).cap
    ensures Bump(a, size, align).ptr != NULL
  {
    PaddingIsLeast(Last(a.chain).Cursor(), align);
  }

  lemma {:induction false} FirstFitFits(free: seq<Block>, need: nat)
    ensures FirstFit(free, need) < |free| ==> free[FirstFit(free, need)].cap >= need
    ensures forall j :: 0 <= j < FirstFit(free, need) ==> free[j].cap < need
  {
    if free != [] && free[0].cap < need {
      FirstFitFits(free[1..], need);
      forall j | 0 <= j < FirstFit(free, need) ensures free[j].cap < need {
        assert 0 < j ==> free[j] == free[1..][j - 1];
      }
    }
  }

  // ----- growing -----

  // Growth entered a block, and then the second bump served.
  ghost predicate Grew(a: Arena, size: nat, align: nat, o: Outcome, entered: Arena)
    requires 0 < align
  {
    && entered.chain != [] && Front(entered.chain) == a.chain
    && Last(entered.chain).used == 0 && BlockOk(Last(entered.chain))
    && entered.used == a.used && entered.redzone == a.redzone && entered.highWater == a.highWater
    && Bump(entered, size, align).ptr != NULL
    && o.arena == Bump(entered, size, align).arena && o.ptr == Bump(entered, size, align).ptr
    && ChainOk(entered.chain)
  }

  ghost function Entered(a: Arena, size: nat, align: nat, reply: nat): Arena
    requires 0 < align
  {
    var need := WorstCase(a, size, align);
    var i := FirstFit(a.free, need);
    if i < |a.free| then Enter(WithoutFree(a, i), a.free[i])
    else Enter(Acquired(a, NewBlock(a, need, reply), RequestSize(a, need)), NewBlock(a, need, reply))
  }

  lemma EnteredIsSound(a: Arena, out: Ledger, size: nat, align: nat, reply: nat)
    requires Sound(a, out) && 0 < align && 0 < size && !a.fixed
    requires Honest(out, GrowAndBump(a, size, align, reply).calls)
    requires WorstCase(a, size, align) <= PTRDIFF_MAX - HEADER
    requires FirstFit(a.free, WorstCase(a, size, align)) < |a.free| || reply != NULL
    ensures var entered := Entered(a, size, align, reply);
            && entered.chain != [] && Front(entered.chain) == a.chain
            && Last(entered.chain).used == 0 && BlockOk(Last(entered.chain))
            && WorstCase(a, size, align) <= Last(entered.chain).cap
            && ChainOk(entered.chain)
  {
    hide PoolOk, Extents, Total, Honest, Dutiful, SettleAll, Bump;
    var need := WorstCase(a, size, align);
    var i := FirstFit(a.free, need);
    var entered := Entered(a, size, align, reply);
    SoundChain(a, out);
    FirstFitFits(a.free, need);
    if i < |a.free| {
      assert a.free[i] in a.free;
      EnterFromFree(a, out, i);
      SoundChain(entered, out);
    } else {
      var calls := [Acquire(RequestSize(a, need), reply)];
      AcquireKeepsSound(a, out, need, reply);
      SoundChain(entered, SettleAll(out, calls));
    }
    assert Last(entered.chain) in entered.chain;
  }

  // After capacity is acquired the second bump cannot fail.
  lemma GrowthServes(a: Arena, out: Ledger, size: nat, align: nat, reply: nat)
    requires Sound(a, out) && 0 < align && IsServedAlign(align) && 0 < size
    requires Honest(out, GrowAndBump(a, size, align, reply).calls)
    ensures var o := GrowAndBump(a, size, align, reply);
            if a.fixed || WorstCase(a, size, align) > PTRDIFF_MAX - HEADER
               || (FirstFit(a.free, WorstCase(a, size, align)) == |a.free| && reply == NULL)
            then o.arena == Fail(a, if a.fixed || WorstCase(a, size, align) <= PTRDIFF_MAX - HEADER
                                    then ErrAlloc else ErrOverflow).arena && o.ptr == NULL
            else Grew(a, size, align, o, Entered(a, size, align, reply)) && o.ptr != NULL
  {
    hide Sound, Honest, Bump, ChainOk, BlockOk;
    if !a.fixed && WorstCase(a, size, align) <= PTRDIFF_MAX - HEADER
       && (FirstFit(a.free, WorstCase(a, size, align)) < |a.free| || reply != NULL) {
      EnteredIsSound(a, out, size, align, reply);
      EmptyBlockServes(Entered(a, size, align, reply), size, align);
    }
  }

  // ----- one allocation -----

  // A pointer was served: the new allocation joins the frame, and whatever
  // snapshot the old frame extended, the new one extends too.
  ghost predicate Served(a: Arena, f: Frame, base: Frame, size: nat, align: Size, o: Outcome) {
    && o.arena.chain != []
    && var f' := Rebase(f, o.arena).(live := f.live + [Live(o.ptr, size, align, |o.arena.chain| - 1)]);
    && FrameOk(a.redzone, f')
    && (Extends(a.redzone, base, f) ==> Extends(a.redzone, base, f'))
    && o.arena.status == a.status
    && o.arena.used <= o.arena.highWater && a.highWater <= o.arena.highWater
  }

  lemma AllocCoreServes(a: Arena, out: Ledger, f: Frame, base: Frame, size: nat, align: Size, reply: nat)
    requires AlignValid(align) && Sound(a, out) && 0 < size
    requires FrameOk(a.redzone, f) && Matches(a, f)
    requires Honest(out, AllocCore(a, size, EffectiveAlign(a.redzone, align), reply).calls)
    ensures var o := AllocCore(a, size, EffectiveAlign(a.redzone, align), reply);
            if o.ptr == NULL then o.arena == Fail(a, o.arena.status).arena && (a.status == Ok ==> o.arena.status != Ok)
            else Served(a, f, base, size, align, o)
  {
    hide FrameOk, Extends, Sound, Honest, ChainOk, AlignValid, Bump, Entered;
    var effective := EffectiveAlign(a.redzone, align);
    EffectiveAlignIsServed(a.redzone, align);
    SoundChain(a, out);
    BumpUpkeep(a, size, effective);
    if Bump(a, size, effective).ptr != NULL {
      BumpFrameOf(a, f, base, size, align);
    } else {
      GrowthServes(a, out, size, effective, reply);
      var entered := Entered(a, size, effective, reply);
      if GrowAndBump(a, size, effective, reply).ptr != NULL {
        var block := Last(entered.chain);
        assert entered.chain == f.chain + [block];
        EnterKeepsFrame(a.redzone, f, block);
        if Extends(a.redzone, base, f) {
          EnterKeepsExtends(a.redzone, base, f, block);
        }
        EnteredUpkeep(a, size, effective, reply);
        BumpUpkeep(entered, size, effective);
        BumpFrameOf(entered, f.(chain := f.chain + [block]), base, size, align);
      }
    }
  }

  // Fields no bump touches.
  lemma BumpUpkeep(a: Arena, size: nat, align: nat)
    requires 0 < align
    ensures var o := Bump(a, size, align);
            && o.arena.status == a.status && o.arena.redzone == a.redzone && o.arena.fixed == a.fixed
            && o.arena.depth == a.depth && o.arena.generation == a.generation
            && a.highWater <= o.arena.highWater
            && (o.ptr == NULL ==> o.arena == a) && |o.arena.chain| == |a.chain|
  {
  }

  lemma EnteredUpkeep(a: Arena, size: nat, align: nat, reply: nat)
    requires 0 < align
    ensures var entered := Entered(a, size, align, reply);
            && entered.status == a.status && entered.redzone == a.redzone && entered.fixed == a.fixed
            && entered.depth == a.depth && entered.generation == a.generation
            && entered.highWater == a.highWater
  {
  }

  // The whole allocation path. A refused request changes nothing but the
  // status, and the status tells a refusal from an empty request.
  lemma AllocNServes(a: Arena, out: Ledger, f: Frame, base: Frame,
                     count: Size, size: Size, align: Size, reply: nat)
    requires Sound(a, out) && FrameOk(a.redzone, f) && Matches(a, f)
    requires Honest(out, AllocN(a, count, size, align, reply).calls)
    ensures var o := AllocN(a, count, size, align, reply);
            if o.ptr == NULL
            then o.arena == Fail(a, o.arena.status).arena
                 && (a.status == Ok ==>
                       (o.arena.status == Ok <==> AlignValid(align) && (count == 0 || size == 0)))
            else && a.status == Ok && AlignValid(align) && 0 < count * size <= PTRDIFF_MAX
                 && Served(a, f, base, count * size, align, o)
  {
    hide FrameOk, Extends, Sound, Honest, AlignValid, CheckedProduct, AllocCore, Served;
    if a.status == Ok && AlignValid(align) && count != 0 && size != 0 {
      CheckedProductMeaning(count, size);
      PositiveProduct(count, size);
      match CheckedProduct(count, size) {
        case TooBig =>
        case Fits(total) =>
          AllocCoreServes(a, out, f, base, total, align, reply);
          assert AllocCore(a, total, EffectiveAlign(a.redzone, align), reply).ptr != NULL ==>
              Served(a, f, base, total, align, AllocCore(a, total, EffectiveAlign(a.redzone, align), reply));
      }
    }
  }

  lemma PositiveProduct(a: nat, b: nat)
    requires 0 < a && 0 < b
    ensures 0 < a * b
  {
  }

  lemma {:induction false} CoreUpkeep(a: Arena, size: nat, align: nat, reply: nat)
    requires 0 < align
    ensures var o := AllocCore(a, size, align, reply);
            && o.arena.redzone == a.redzone && o.arena.fixed == a.fixed
            && o.arena.depth == a.depth && o.arena.generation == a.generation
            && (a.fixed ==> |o.arena.chain| == |a.chain|)
  {
    hide Bump;
    BumpUpkeep(a, size, align);
    var need := WorstCase(a, size, align);
    var i := FirstFit(a.free, need);
    if i < |a.free| {
      BumpUpkeep(Enter(WithoutFree(a, i), a.free[i]), size, align);
    }
    var block := NewBlock(a, need, reply);
    BumpUpkeep(Enter(Acquired(a, block, RequestSize(a, need)), block), size, align);
  }

  // Allocation leaves the scope depth and the generation alone, and a fixed
  // arena never changes blocks.
  ghost predicate SameFixture(a: Arena, b: Arena) {
    && b.redzone == a.redzone && b.fixed == a.fixed
    && b.depth == a.depth && b.generation == a.generation
    && (a.fixed ==> |b.chain| == |a.chain|)
  }

  lemma AllocNUpkeep(a: Arena, count: Size, size: Size, align: Size, reply: nat)
    ensures SameFixture(a, AllocN(a, count, size, align, reply).arena)
  {
    hide AllocCore, CheckedProduct, AlignValid;
    if count != 0 && size != 0 {
      match CheckedProduct(count, size) {
        case TooBig =>
        case Fits(total) => CoreUpkeep(a, total, EffectiveAlign(a.redzone, align), reply);
      }
    }
  }

  // ----- reallocation -----

  // The frame after a successful reallocation of the live entry i: resized
  // where it is, or copied to ptr and its source abandoned.
  function ReallocFrame(a: Arena, f: Frame, i: nat, newSize: nat, o: Outcome): Frame
    requires i < |f.live| && o.arena.chain != []
  {
    var l := f.live[i];
    var g := Rebase(f, o.arena);
    if ResizeLast(a, l.ptr, l.size, newSize).ptr != NULL then g.(live := f.live[i := l.(size := newSize)])
    else g.(live := f.live[i := Live(o.ptr, newSize, l.align, |o.arena.chain| - 1)],
            dropped := f.dropped + [l.size])
  }

  lemma ResizeLastFrame(a: Arena, out: Ledger, f: Frame, base: Frame, i: nat, newSize: nat)
    requires Sound(a, out) && FrameOk(a.redzone, f) && Matches(a, f)
    requires i < |f.live| && |base.live| <= i && 0 < newSize
    requires ResizeLast(a, f.live[i].ptr, f.live[i].size, newSize).ptr != NULL
    ensures var o := ResizeLast(a, f.live[i].ptr, f.live[i].size, newSize);
            var f' := Rebase(f, o.arena).(live := f.live[i := f.live[i].(size := newSize)]);
            && FrameOk(a.redzone, f') && (Extends(a.redzone, base, f) ==> Extends(a.redzone, base, f'))
            && o.ptr == f.live[i].ptr && o.arena.status == a.status && SameFixture(a, o.arena)
            && o.arena.chain != []
            && (a.used <= a.highWater ==> o.arena.used <= o.arena.highWater) && a.highWater <= o.arena.highWater
  {
    hide FrameOk, Extends, Sound, ChainOk;
    SoundChain(a, out);
    LastAllocIsNewest(a.redzone, f, i);
    NewestFits(a.redzone, f, i);
    ResizeKeepsFrame(a.redzone, f, i, newSize);
    if Extends(a.redzone, base, f) {
      ResizeKeepsExtends(a.redzone, base, f, i, newSize);
    }
    assert ResizeFrame(f, i, newSize) ==
        Rebase(f, ResizeLast(a, f.live[i].ptr, f.live[i].size, newSize).arena)
          .(live := f.live[i := f.live[i].(size := newSize)]);
  }

  lemma MoveFrame(a: Arena, out: Ledger, f: Frame, base: Frame, i: nat, newSize: Size, reply: nat)
    requires Sound(a, out) && FrameOk(a.redzone, f) && Matches(a, f)
    requires i < |f.live| && |base.live| <= i
    requires Honest(out, AllocN(a, 1, newSize, f.live[i].align, reply).calls)
    requires ReallocMove(a, f.live[i].size, newSize, f.live[i].align, reply).ptr != NULL
    ensures ReallocMove(a, f.live[i].size, newSize, f.live[i].align, reply).arena.chain != []
    ensures var l := f.live[i];
            var o := ReallocMove(a, l.size, newSize, l.align, reply);
            var f' := Rebase(f, o.arena).(live := f.live[i := Live(o.ptr, newSize, l.align, |o.arena.chain| - 1)],
                                          dropped := f.dropped + [l.size]);
            && FrameOk(a.redzone, f') && (Extends(a.redzone, base, f) ==> Extends(a.redzone, base, f'))
            && o.arena.status == a.status && SameFixture(a, o.arena)
            && o.arena.used <= o.arena.highWater && a.highWater <= o.arena.highWater
  {
    hide FrameOk, Extends, Sound, Honest, AllocN, AlignValid;
    var l := f.live[i];
    var moved := AllocN(a, 1, newSize, l.align, reply);
    AllocNServes(a, out, f, base, 1, newSize, l.align, reply);
    AllocNUpkeep(a, 1, newSize, l.align, reply);
    var f1 := Rebase(f, moved.arena).(live := f.live + [Live(moved.ptr, newSize, l.align, |moved.arena.chain| - 1)]);
    assert Front(f1.live) == f.live;
    AbandonKeepsFrame(a.redzone, f1, i);
    if Extends(a.redzone, base, f) {
      AbandonKeepsExtends(a.redzone, base, f1, i);
    }
  }

  lemma ReallocServes(a: Arena, out: Ledger, f: Frame, base: Frame, i: nat, newSize: Size, reply: nat)
    requires Sound(a, out) && FrameOk(a.redzone, f) && Matches(a, f) && a.used <= a.highWater
    requires i < |f.live| && |base.live| <= i && f.live[i].ptr != NULL
    requires Honest(out, Realloc(a, f.live[i].ptr, f.live[i].size, newSize, f.live[i].align, reply).calls)
    ensures var o := Realloc(a, f.live[i].ptr, f.live[i].size, newSize, f.live[i].align, reply);
            && SameFixture(a, o.arena)
            && if o.ptr == NULL then o.arena == Fail(a, o.arena.status).arena && (a.status == Ok ==> o.arena.status != Ok)
               else && o.arena.chain != []
                    && var f' := ReallocFrame(a, f, i, newSize, o);
                    && FrameOk(a.redzone, f') && Matches(o.arena, f')
                    && (Extends(a.redzone, base, f) ==> Extends(a.redzone, base, f'))
                    && o.arena.status == Ok == a.status
                    && o.arena.used <= o.arena.highWater && a.highWater <= o.arena.highWater
  {
    hide FrameOk, Extends, Sound, Honest, AllocN, AlignValid, ResizeLast;
    var l := f.live[i];
    if a.status == Ok && AlignValid(l.align) && 0 < newSize <= PTRDIFF_MAX {
      if ResizeLast(a, l.ptr, l.size, newSize).ptr != NULL {
        ResizeLastFrame(a, out, f, base, i, newSize);
      } else {
        ResizeNullUpkeep(a, l.ptr, l.size, newSize);
        AllocNServes(a, out, f, base, 1, newSize, l.align, reply);
        AllocNUpkeep(a, 1, newSize, l.align, reply);
        if ReallocMove(a, l.size, newSize, l.align, reply).ptr != NULL {
          MoveFrame(a, out, f, base, i, newSize, reply);
        }
      }
    }
  }

  lemma ResizeNullUpkeep(a: Arena, ptr: nat, oldSize: nat, newSize: nat)
    requires ptr != NULL
    ensures ResizeLast(a, ptr, oldSize, newSize).ptr == NULL ==>
              ResizeLast(a, ptr, oldSize, newSize) == Outcome(a, NULL, [])
    ensures ResizeLast(a, ptr, oldSize, newSize).calls == []
  {
  }
}
