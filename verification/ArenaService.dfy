// Which requests are served, where and from what: laws of a step that speak
// of addresses, cursors and capacities only.
module ArenaService {
  import opened Arithmetic
  import opened Machine
  import opened WordBits
  import opened ArenaModel
  import opened ArenaSound
  import opened ArenaFrames
  import opened ArenaAlloc
  import opened ArenaScopes
  import opened ArenaRuns
  import opened ArenaSafety

  // ----- the newest block -----

  // The newest block can hold n bytes and their redzone at p.
  ghost predicate HasRoom(a: Arena, n: nat, align: nat, p: nat) {
    && a.chain != [] && Last(a.chain).Cursor() <= p && AlignedFor(a.redzone, align, p)
    && p + n + a.redzone <= Last(a.chain).End()
  }

  ghost predicate NoRoom(a: Arena, n: nat, align: nat) {
    forall p: nat :: !HasRoom(a, n, align, p)
  }

  // No suitable address lies between from and p.
  ghost predicate FirstSuitable(redzone: nat, align: nat, from: nat, p: nat) {
    && from <= p && AlignedFor(redzone, align, p)
    && forall q: nat :: from <= q && AlignedFor(redzone, align, q) ==> p <= q
  }

  // The newest block used up to the end of n bytes at p and their redzone.
  function Placed(a: Arena, n: nat, p: nat): Arena
    requires a.chain != [] && Last(a.chain).Data() <= p
  {
    var newest := Last(a.chain);
    var used := a.used + (p + n + a.redzone - newest.Cursor());
    a.(chain := WithNewestUsed(a.chain, p + n + a.redzone - newest.Data()),
       used := used, highWater := Max(a.highWater, used))
  }

  lemma BumpPlaces(a: Arena, n: nat, align: Size)
    requires IsServedAlign(align) && 0 < n && a.chain != [] && BlockOk(Last(a.chain))
    ensures var o := Bump(a, n, EffectiveAlign(a.redzone, align));
            if o.ptr == NULL then NoRoom(a, n, align) && o == Outcome(a, NULL, [])
            else && HasRoom(a, n, align, o.ptr)
                 && FirstSuitable(a.redzone, align, Last(a.chain).Cursor(), o.ptr)
                 && o == Outcome(Placed(a, n, o.ptr), o.ptr, [])
  {
    hide IsServedAlign, AlignedFor, EffectiveAlign, IsAligned;
    var effective, cursor := EffectiveAlign(a.redzone, align), Last(a.chain).Cursor();
    AlignValidMeaning(align);
    EffectiveAlignIsServed(a.redzone, align);
    if cursor < MODULUS {
      PaddingIsLeast(cursor, effective);
      forall q: nat ensures IsAligned(q, effective) <==> AlignedFor(a.redzone, align, q) {
        EffectiveAlignMeaning(a.redzone, align, q);
      }
    }
  }

  // Neither empty nor too large, with an alignment the arena serves, asked of
  // an arena that has not failed.
  ghost predicate GoodRequest(w: World, count: Size, size: Size, align: Size) {
    w.a.status == Ok && IsServedAlign(align) && 0 < count * size <= PTRDIFF_MAX
  }

  lemma AllocNIsCore(a: Arena, count: Size, size: Size, align: Size, reply: nat)
    requires a.status == Ok && IsServedAlign(align) && 0 < count * size <= PTRDIFF_MAX
    ensures AllocN(a, count, size, align, reply)
         == AllocCore(a, Times(count, size), EffectiveAlign(a.redzone, align), reply)
  {
    hide IsServedAlign, AlignValid, CheckedProduct, AllocCore, EffectiveAlign;
    AlignValidMeaning(align);
    CheckedProductMeaning(count, size);
  }

  lemma NewestIsOk(w: World)
    requires Inv(w) && w.a.chain != []
    ensures BlockOk(Last(w.a.chain))
  {
    hide FrameOk, StackOk;
    assert Last(w.a.chain) in w.a.chain;
  }

  // A request that fits the newest block gets the least suitable address from
  // its cursor on; no block is added and the parent is not asked.
  lemma RoomIsUsed(w: World, count: Size, size: Size, align: Size, fill: Fill, reply: nat, p: nat)
    requires Inv(w) && GoodRequest(w, count, size, align)
    requires HasRoom(w.a, count * size, align, p)
    ensures var done := Step(w, Alloc(count, size, align, fill), reply);
            && NULL < done.ptr <= p && done.calls == [] && |done.world.a.chain| == |w.a.chain|
            && FirstSuitable(w.a.redzone, align, Last(w.a.chain).Cursor(), done.ptr)
            && done.world.a == Placed(w.a, count * size, done.ptr)
            && done.world.live == w.live + [Live(done.ptr, count * size, align, |w.a.chain| - 1)]
  {
    hide FrameOk, Sound, StackOk, IsServedAlign, AlignedFor, EffectiveAlign, Bump, AllocN;
    var n := Times(count, size);
    NewestIsOk(w);
    AllocNIsCore(w.a, count, size, align, reply);
    BumpPlaces(w.a, n, align);
    NoCalls(w.out);
  }

  // Every other request returns NULL at once: a failed arena stays as it is, a
  // bad alignment is reported even for nothing, nothing is no error, and a
  // product above PTRDIFF_MAX overflows.
  lemma OthersReturnNull(w: World, count: Size, size: Size, align: Size, fill: Fill, reply: nat)
    requires !GoodRequest(w, count, size, align)
    ensures var status := if w.a.status != Ok then w.a.status
                          else if !IsServedAlign(align) then ErrArg
                          else if count * size == 0 then Ok else ErrOverflow;
            Step(w, Alloc(count, size, align, fill), reply) == Done(w.(a := w.a.(status := status)), NULL, [])
  {
    hide IsServedAlign, AlignValid, CheckedProduct, AllocCore, EffectiveAlign;
    NoCalls(w.out);
    AlignValidMeaning(align);
    if 0 < count && 0 < size {
      CheckedProductMeaning(count, size);
      PositiveProduct(count, size);
    }
  }

  // ----- without room -----

  // The most n bytes can take of an empty block: with their redzone, and the
  // widest gap before an address that suits.
  function Need(a: Arena, n: nat, align: nat): nat {
    n + a.redzone + (EffectiveAlign(a.redzone, align) - 1)
  }

  ghost predicate NoneFits(free: seq<Block>, need: nat) {
    forall i :: 0 <= i < |free| ==> free[i].cap < need
  }

  lemma FirstFitIs(free: seq<Block>, need: nat, i: nat)
    requires i <= |free| && NoneFits(free[..i], need) && (i < |free| ==> need <= free[i].cap)
    ensures FirstFit(free, need) == i
  {
    FirstFitFits(free, need);
    assert forall j :: 0 <= j < i ==> free[j] == free[..i][j];
  }

  lemma FirstFitSkips(free: seq<Block>, need: nat)
    ensures var i := FirstFit(free, need);
            NoneFits(free[..i], need) && if i < |free| then need <= free[i].cap else NoneFits(free, need)
  {
    FirstFitFits(free, need);
  }

  // Growth as a function of the newest block's room.
  lemma NoRoomGrows(w: World, count: Size, size: Size, align: Size, fill: Fill, reply: nat)
    requires Inv(w) && GoodRequest(w, count, size, align) && NoRoom(w.a, count * size, align)
    ensures AllocN(w.a, count, size, align, reply)
         == GrowAndBump(w.a, Times(count, size), EffectiveAlign(w.a.redzone, align), reply)
    ensures WorstCase(w.a, Times(count, size), EffectiveAlign(w.a.redzone, align)) == Need(w.a, count * size, align)
  {
    hide FrameOk, Sound, StackOk, IsServedAlign, HasRoom, EffectiveAlign, AllocN, GrowAndBump;
    AllocNIsCore(w.a, count, size, align, reply);
    if w.a.chain != [] {
      NewestIsOk(w);
      BumpPlaces(w.a, Times(count, size), align);
    }
  }

  // A fixed arena has nowhere else to look.
  lemma FixedRefuses(w: World, count: Size, size: Size, align: Size, fill: Fill, reply: nat)
    requires Inv(w) && GoodRequest(w, count, size, align) && NoRoom(w.a, count * size, align)
    requires w.a.fixed
    ensures Step(w, Alloc(count, size, align, fill), reply) == Done(w.(a := w.a.(status := ErrAlloc)), NULL, [])
  {
    hide Inv, IsServedAlign, NoRoom, AllocN;
    NoRoomGrows(w, count, size, align, fill, reply);
    NoCalls(w.out);
  }

  // No block may be so large.
  lemma TooLargeOverflows(w: World, count: Size, size: Size, align: Size, fill: Fill, reply: nat)
    requires Inv(w) && GoodRequest(w, count, size, align) && NoRoom(w.a, count * size, align)
    requires !w.a.fixed && PTRDIFF_MAX < HEADER + Need(w.a, count * size, align)
    ensures Step(w, Alloc(count, size, align, fill), reply) == Done(w.(a := w.a.(status := ErrOverflow)), NULL, [])
  {
    hide Inv, IsServedAlign, NoRoom, AllocN, Need;
    NoRoomGrows(w, count, size, align, fill, reply);
    NoCalls(w.out);
  }

  // The retained block that was retired last and can hold the request for
  // certain becomes the newest; the parent is not asked.
  lemma RetainedServes(w: World, count: Size, size: Size, align: Size, fill: Fill, reply: nat, i: nat)
    requires Inv(w) && GoodRequest(w, count, size, align) && NoRoom(w.a, count * size, align)
    requires !w.a.fixed && HEADER + Need(w.a, count * size, align) <= PTRDIFF_MAX
    requires i < |w.a.free| && Need(w.a, count * size, align) <= w.a.free[i].cap
    requires NoneFits(w.a.free[..i], Need(w.a, count * size, align))
    ensures var done, block := Step(w, Alloc(count, size, align, fill), reply), w.a.free[i];
            && done.ptr != NULL && done.calls == []
            && FirstSuitable(w.a.redzone, align, block.Data(), done.ptr)
            && done.ptr + count * size + w.a.redzone <= block.End()
            && done.world.a == Placed(w.a.(chain := w.a.chain + [block],
                                           free := w.a.free[..i] + w.a.free[i + 1..]), count * size, done.ptr)
  {
    hide FrameOk, StackOk, Sound, Honest, IsServedAlign, NoRoom, AllocN, NoneFits, FirstFit, Bump, EffectiveAlign,
      AlignedFor, Padding, SettleAll, ChainOk, BlockOk;
    var n, effective := Times(count, size), EffectiveAlign(w.a.redzone, align);
    NoRoomGrows(w, count, size, align, fill, reply);
    FirstFitIs(w.a.free, Need(w.a, count * size, align), i);
    var entered := Enter(WithoutFree(w.a, i), w.a.free[i]);
    NoCalls(w.out);
    SoundChain(w.a, w.out);
    assert w.a.free[i] in w.a.free;
    BumpPlaces(entered, n, align);
    EffectiveIsServed(w.a.redzone, align);
    GrowthServes(w.a, w.out, n, effective, reply);
  }

  lemma EffectiveIsServed(redzone: nat, align: Size)
    requires IsServedAlign(align)
    ensures IsServedAlign(EffectiveAlign(redzone, align))
  {
    AlignValidMeaning(align);
    EffectiveAlignIsServed(redzone, align);
  }

  // The block the parent gave, under the name the trace has for it.
  ghost predicate FromParent(a: Arena, n: nat, align: nat, call: Call, ptr: nat, b: Arena)
    requires call.Acquire?
  {
    && b.chain != [] && Front(b.chain) == a.chain && b.free == a.free
    && Last(b.chain).addr == call.reply && Last(b.chain).Bytes() == call.size
    && FirstSuitable(a.redzone, align, call.reply + HEADER, ptr)
    && Last(b.chain).Cursor() == ptr + n + a.redzone <= Last(b.chain).End()
    && b.used == a.used + (ptr + n + a.redzone - (call.reply + HEADER))
    && b.committed == a.committed + call.size && b.status == Ok
  }

  // Only when nothing it holds will do does the arena ask the parent, once, and
  // only a refusal there fails the request.
  lemma ParentServes(w: World, count: Size, size: Size, align: Size, fill: Fill, reply: nat)
    requires Inv(w) && Legal(w, Alloc(count, size, align, fill), reply)
    requires GoodRequest(w, count, size, align) && NoRoom(w.a, count * size, align)
    requires !w.a.fixed && HEADER + Need(w.a, count * size, align) <= PTRDIFF_MAX
    requires NoneFits(w.a.free, Need(w.a, count * size, align))
    ensures var done := Step(w, Alloc(count, size, align, fill), reply);
            && |done.calls| == 1 && done.calls[0].Acquire? && done.calls[0].reply == reply
            && HEADER + Need(w.a, count * size, align) <= done.calls[0].size
            && if reply == NULL then done.ptr == NULL && done.world == w.(a := w.a.(status := ErrAlloc))
               else done.ptr != NULL && FromParent(w.a, count * size, align, done.calls[0], done.ptr, done.world.a)
  {
    hide FrameOk, StackOk, Sound, Honest, IsServedAlign, NoRoom, AllocN, NoneFits, FirstFit, Bump, EffectiveAlign,
      AlignedFor, Padding, SettleAll, ChainOk, BlockOk;
    var n, effective := Times(count, size), EffectiveAlign(w.a.redzone, align);
    var need := Need(w.a, count * size, align);
    NoRoomGrows(w, count, size, align, fill, reply);
    assert w.a.free[..|w.a.free|] == w.a.free;
    FirstFitIs(w.a.free, need, |w.a.free|);
    OneRefusal(w.out, RequestSize(w.a, need));
    EffectiveIsServed(w.a.redzone, align);
    assert Step(w, Alloc(count, size, align, fill), reply).calls == AllocN(w.a, count, size, align, reply).calls;
    GrowthServes(w.a, w.out, n, effective, reply);
    if reply != NULL {
      var block := NewBlock(w.a, need, reply);
      BumpPlaces(Enter(Acquired(w.a, block, RequestSize(w.a, need)), block), n, align);
    }
  }

  // A refusal has one of three causes, and the status says which: a fixed
  // arena is full, the request exceeds every block, or the parent refused.
  lemma RefusedForCause(w: World, count: Size, size: Size, align: Size, fill: Fill, reply: nat)
    requires Inv(w) && Legal(w, Alloc(count, size, align, fill), reply) && GoodRequest(w, count, size, align)
    requires Step(w, Alloc(count, size, align, fill), reply).ptr == NULL
    ensures NoRoom(w.a, count * size, align)
    ensures var next := Step(w, Alloc(count, size, align, fill), reply).world;
            && next == w.(a := w.a.(status := next.a.status))
            && if w.a.fixed then next.a.status == ErrAlloc
               else if PTRDIFF_MAX < HEADER + Need(w.a, count * size, align) then next.a.status == ErrOverflow
               else next.a.status == ErrAlloc && reply == NULL && NoneFits(w.a.free, Need(w.a, count * size, align))
  {
    hide Inv, Legal, IsServedAlign, AlignedFor, FirstSuitable, HasRoom, NoneFits, Step, Need;
    var n := count * size;
    if p: nat :| HasRoom(w.a, n, align, p) {
      RoomIsUsed(w, count, size, align, fill, reply, p);
    } else if w.a.fixed {
      FixedRefuses(w, count, size, align, fill, reply);
    } else if PTRDIFF_MAX < HEADER + Need(w.a, n, align) {
      TooLargeOverflows(w, count, size, align, fill, reply);
    } else {
      var i := FirstFit(w.a.free, Need(w.a, n, align));
      FirstFitSkips(w.a.free, Need(w.a, n, align));
      if i < |w.a.free| {
        RetainedServes(w, count, size, align, fill, reply, i);
      } else {
        ParentServes(w, count, size, align, fill, reply);
      }
    }
  }

  // ----- reallocation -----

  // The live allocation at index i, redzone included, ends at the cursor.
  ghost predicate EndsAtCursor(w: World, i: nat)
    requires i < |w.live|
  {
    && w.a.chain != [] && w.live[i].home == |w.a.chain| - 1
    && w.live[i].ptr + w.live[i].size + w.a.redzone == Last(w.a.chain).Cursor()
  }

  // The newest block ends no sooner than the allocation resized in place.
  ghost predicate CanStay(w: World, i: nat, newSize: nat)
    requires i < |w.live|
  {
    && EndsAtCursor(w, i)
    && (newSize <= w.live[i].size || newSize - w.live[i].size <= Last(w.a.chain).End() - Last(w.a.chain).Cursor())
  }

  lemma EndsAtCursorIsLast(w: World, i: nat)
    requires Inv(w) && i < |w.live|
    ensures IsLastAlloc(w.a, w.live[i].ptr, w.live[i].size) <==> EndsAtCursor(w, i)
    ensures EndsAtCursor(w, i) ==> Last(w.a.chain).Data() <= w.live[i].ptr
    ensures AlignValid(w.live[i].align) && w.live[i].ptr != NULL && 0 < w.live[i].size
  {
    hide Extends, StackOk, AlignValid, IsServedAlign, AlignedFor, EffectiveAlign;
    var l := w.live[i];
    assert LiveOk(w.a.redzone, w.a.chain, l);
    AlignValidMeaning(l.align);
    SoundChain(w.a, w.out);
    if IsLastAlloc(w.a, l.ptr, l.size) {
      LastAllocIsNewest(w.a.redzone, FrameOf(w), i);
    }
    if EndsAtCursor(w, i) {
      NewestFits(w.a.redzone, FrameOf(w), i);
      assert Last(w.a.chain) in w.a.chain;
    }
  }

  lemma StaysResized(w: World, i: nat, newSize: nat)
    requires Inv(w) && i < |w.live| && CanStay(w, i, newSize)
    ensures var change := newSize - w.live[i].size;
            && 0 <= Last(w.a.chain).used + change
            && ResizeLast(w.a, w.live[i].ptr, w.live[i].size, newSize) ==
               Outcome(w.a.(chain := WithNewestUsed(w.a.chain, Last(w.a.chain).used + change),
                            used := w.a.used + change, highWater := Max(w.a.highWater, w.a.used + change)),
                       w.live[i].ptr, [])
  {
    hide FrameOk, Sound, StackOk;
    NewestIsOk(w);
    EndsAtCursorIsLast(w, i);
  }

  // The allocation at the cursor is resized where it is whenever the block has
  // the room, so shrinking it never fails; the cursor and `used` move with its
  // end, and nothing else does.
  lemma NewestStays(w: World, i: nat, newSize: Size, reply: nat)
    requires Inv(w) && w.a.status == Ok && i < |w.live| && 0 < newSize <= PTRDIFF_MAX
    requires CanStay(w, i, newSize)
    ensures var change := newSize - w.live[i].size;
            0 <= Last(w.a.chain).used + change && Step(w, Resize(i, newSize), reply) ==
            Done(w.(a := w.a.(chain := WithNewestUsed(w.a.chain, Last(w.a.chain).used + change),
                              used := w.a.used + change, highWater := Max(w.a.highWater, w.a.used + change)),
                    live := w.live[i := w.live[i].(size := newSize)]),
                 w.live[i].ptr, [])
  {
    hide FrameOk, Sound, StackOk, AlignValid;
    EndsAtCursorIsLast(w, i);
    NoCalls(w.out);
    StaysResized(w, i, newSize);
    assert Realloc(w.a, w.live[i].ptr, w.live[i].size, newSize, w.live[i].align, reply)
        == ResizeLast(w.a, w.live[i].ptr, w.live[i].size, newSize);
  }

  lemma CannotStay(w: World, i: nat, newSize: nat)
    requires Inv(w) && i < |w.live| && !CanStay(w, i, newSize)
    ensures ResizeLast(w.a, w.live[i].ptr, w.live[i].size, newSize) == Outcome(w.a, NULL, [])
  {
    hide Inv;
    EndsAtCursorIsLast(w, i);
  }

  // Any other reallocation is an allocation of the new size that also leaves
  // the old bytes behind: it is served when that is, and then lands clear of
  // where it was.
  lemma OthersMove(w: World, i: nat, newSize: Size, reply: nat)
    requires Inv(w) && Legal(w, Resize(i, newSize), reply) && w.a.status == Ok && 0 < newSize <= PTRDIFF_MAX
    requires !CanStay(w, i, newSize)
    ensures var l := w.live[i];
            var done, beside := Step(w, Resize(i, newSize), reply), Step(w, Alloc(1, newSize, l.align, Raw), reply);
            && done.ptr == beside.ptr && done.calls == beside.calls
            && if done.ptr == NULL then done.world == beside.world
               else && RangesApart(done.ptr, newSize, l.ptr, l.size) && done.ptr != l.ptr
                    && done.world.a == beside.world.a.(used := beside.world.a.used - l.size)
                    && done.world.live == w.live[i := Last(beside.world.live)]
                    && done.world.dropped == w.dropped + [l.size] && done.world.stack == w.stack
  {
    hide FrameOk, Sound, StackOk, AlignValid, AllocN, Honest, SettleAll;
    var l := w.live[i];
    EndsAtCursorIsLast(w, i);
    CannotStay(w, i, newSize);
    if Step(w, Resize(i, newSize), reply).ptr != NULL {
      MoveIsApart(w, i, newSize, reply);
      ServedAllocGrows(w, 1, newSize, l.align, Raw, reply);
    }
  }

  // A new size of 0 or above PTRDIFF_MAX is refused, and the allocation stays.
  lemma BadSizesAreRefused(w: World, i: nat, newSize: Size, reply: nat)
    requires Inv(w) && i < |w.live| && (w.a.status != Ok || newSize == 0 || PTRDIFF_MAX < newSize)
    ensures var status := if w.a.status != Ok then w.a.status else if newSize == 0 then ErrArg else ErrOverflow;
            Step(w, Resize(i, newSize), reply) == Done(w.(a := w.a.(status := status)), NULL, [])
  {
    hide Inv, AllocN, AlignValid;
    EndsAtCursorIsLast(w, i);
    NoCalls(w.out);
  }

  // Freeing the allocation at the cursor moves the cursor back to its start;
  // freeing any other one only forgets it.
  lemma FreeRollsBack(w: World, i: nat, reply: nat)
    requires Inv(w) && i < |w.live|
    ensures var l, done := w.live[i], Step(w, Free(i), reply);
            && done.world.live == Removed(w.live, i) && done.calls == []
            && if EndsAtCursor(w, i)
               then && Last(w.a.chain).Data() <= l.ptr
                    && done.world.a == w.a.(chain := WithNewestUsed(w.a.chain, l.ptr - Last(w.a.chain).Data()),
                                            used := w.a.used - (l.size + w.a.redzone))
               else done.world.a == w.a
  {
    hide Inv;
    EndsAtCursorIsLast(w, i);
  }

  // A reallocation of NULL is an allocation.
  lemma ReallocOfNull(w: World, oldSize: nat, newSize: Size, align: Size, reply: nat)
    requires 0 < newSize
    ensures var o := Realloc(w.a, NULL, oldSize, newSize, align, reply);
            var done := Step(w, Alloc(1, newSize, align, Raw), reply);
            done.world.a == o.arena && done.ptr == o.ptr && done.calls == o.calls
  {
    hide AllocN, AlignValid;
    AllocNGuards(w.a, 1, newSize, align, reply);
  }

  lemma AllocNGuards(a: Arena, count: Size, size: Size, align: Size, reply: nat)
    ensures a.status != Ok ==> AllocN(a, count, size, align, reply) == Outcome(a, NULL, [])
    ensures a.status == Ok && !AlignValid(align) ==> AllocN(a, count, size, align, reply) == Fail(a, ErrArg)
  {
    hide AllocCore, AlignValid;
  }

  // ----- a cleared status -----

  // After a failure is cleared a request that fits is served again.
  lemma ClearServes(w: World, count: Size, size: Size, align: Size, fill: Fill, reply: nat, p: nat)
    requires Inv(w) && IsServedAlign(align) && 0 < count * size <= PTRDIFF_MAX
    requires HasRoom(w.a, count * size, align, p)
    ensures var clear := Step(w, Clear, reply).world;
            && clear == w.(a := w.a.(status := Ok)) && Inv(clear)
            && var done := Step(clear, Alloc(count, size, align, fill), reply);
            && NULL < done.ptr <= p && FirstSuitable(w.a.redzone, align, Last(w.a.chain).Cursor(), done.ptr)
  {
    hide Inv, IsServedAlign, AlignedFor, AllocN;
    ClearKeepsInv(w, reply);
    StepInv(w, Clear, reply);
    RoomIsUsed(Step(w, Clear, reply).world, count, size, align, fill, reply, p);
  }

  // ----- fixed arenas -----

  // The header goes to the least suitable address of the buffer, and the block
  // runs to the buffer's end; a buffer too small for a header holds no block.
  // Bookkeeping takes at most 64 bytes.
  lemma FixedCoversBuffer(redzone: nat, buffer: nat, size: Size)
    requires NULL < buffer && 0 < size <= PTRDIFF_MAX && buffer + size <= MODULUS
    ensures var a := InitFixed(redzone, buffer, size);
            && a.fixed && a.status == Ok && a.committed == size && a.free == [] && a.redzone == redzone
            && |a.chain| <= 1
            && (forall h: nat :: buffer <= h && h % 8 == 0 && h + HEADER <= buffer + size ==>
                  a.chain != [] && a.chain[0].addr <= h)
            && (a.chain != [] ==>
                  && buffer <= a.chain[0].addr && a.chain[0].addr % 8 == 0
                  && a.chain[0].End() == buffer + size && a.chain[0].used == 0 && !a.chain[0].oversize)
            && (64 <= size ==> a.chain != [] && size <= a.chain[0].cap + 64)
  {
    hide Padding;
    assert BLOCK_ALIGN == Pow2(3);
    PaddingIsLeast(buffer, BLOCK_ALIGN);
    forall h: nat | h % 8 == 0 ensures IsAligned(h, BLOCK_ALIGN) {
    }
  }

  ghost predicate SameSpan(b: Block, c: Block) {
    b.addr == c.addr && b.cap == c.cap && b.oversize == c.oversize
  }

  // The one block of a fixed arena.
  ghost predicate HoldsBuffer(a: Arena, block: Block) {
    a.fixed && |a.chain| == 1 && SameSpan(a.chain[0], block)
  }

  // Resetting a fixed arena rewinds its block.
  lemma FixedResetRewinds(w: World, reply: nat)
    requires Inv(w) && w.a.fixed && w.a.chain != []
    ensures var block := w.a.chain[0];
            Step(w, ResetAll, reply) ==
            Done(w.(a := w.a.(chain := [block.(used := 0)], used := 0, depth := 0, status := Ok,
                              generation := (w.a.generation + 1) % (UINT_MAX + 1)),
                    live := [], dropped := [], stack := []), NULL, [])
  {
    hide FrameOk, StackOk;
    NoCalls(w.out);
  }

  // And every request that fits the empty buffer is then served, at its least
  // suitable address.
  lemma FixedResetServes(w: World, resetReply: nat, count: Size, size: Size, align: Size, fill: Fill, reply: nat,
                         p: nat)
    requires Inv(w) && w.a.fixed && w.a.chain != [] && IsServedAlign(align) && 0 < count * size <= PTRDIFF_MAX
    requires w.a.chain[0].Data() <= p && AlignedFor(w.a.redzone, align, p)
    requires p + count * size + w.a.redzone <= w.a.chain[0].End()
    ensures var reset := Step(w, ResetAll, resetReply).world;
            var done := Step(reset, Alloc(count, size, align, fill), reply);
            && NULL < done.ptr <= p && FirstSuitable(w.a.redzone, align, w.a.chain[0].Data(), done.ptr)
            && HoldsBuffer(done.world.a, w.a.chain[0])
  {
    hide Inv, IsServedAlign, AlignedFor, AllocN, Reset;
    var reset := Step(w, ResetAll, resetReply).world;
    FixedResetRewinds(w, resetReply);
    ResetKeepsInv(w, resetReply);
    StepInv(w, ResetAll, resetReply);
    RoomIsUsed(reset, count, size, align, fill, reply, p);
  }

  lemma AllocKeepsBuffer(a: Arena, count: Size, size: Size, align: Size, reply: nat, block: Block)
    requires HoldsBuffer(a, block)
    ensures var o := AllocN(a, count, size, align, reply); HoldsBuffer(o.arena, block) && o.calls == []
  {
    hide Padding, EffectiveAlign, AlignValid, CheckedProduct;
  }

  lemma ReallocKeepsBuffer(a: Arena, ptr: nat, oldSize: nat, newSize: Size, align: Size, reply: nat, block: Block)
    requires HoldsBuffer(a, block)
    ensures var o := Realloc(a, ptr, oldSize, newSize, align, reply); HoldsBuffer(o.arena, block) && o.calls == []
  {
    hide AllocN, AlignValid;
    AllocKeepsBuffer(a, 1, newSize, align, reply, block);
  }

  lemma StepKeepsBuffer(w: World, op: Op, reply: nat, block: Block)
    requires Inv(w) && Legal(w, op, reply) && !op.Shutdown? && HoldsBuffer(w.a, block)
    ensures var done := Step(w, op, reply); HoldsBuffer(done.world.a, block) && done.calls == []
  {
    hide FrameOk, Sound, StackOk, AllocN, Realloc, ReallocFrame, ChainGrew, SnapshotOf, Honest;
    match op {
      case Alloc(count, size, align, fill) => AllocKeepsBuffer(w.a, count, size, align, reply, block);
      case Resize(i, newSize) =>
        var l := w.live[i];
        ReallocKeepsBuffer(w.a, l.ptr, l.size, newSize, l.align, reply, block);
      case End => TopOfStack(w);
      case _ =>
    }
  }

  // A fixed arena keeps its whole buffer, and asks nobody for more, until it is
  // deinitialized.
  lemma {:induction false} RunKeepsBuffer(w: World, ops: seq<Op>, replies: seq<nat>, block: Block)
    requires |ops| == |replies| && Inv(w) && LegalRun(w, ops, replies) && HoldsBuffer(w.a, block)
    requires forall op :: op in ops ==> !op.Shutdown?
    ensures HoldsBuffer(Run(w, ops, replies).a, block) && Trace(w, ops, replies) == []
    decreases |ops|
  {
    hide Inv, Legal, Step, HoldsBuffer;
    if ops != [] {
      StepKeepsBuffer(w, ops[0], replies[0], block);
      StepKeepsInv(w, ops[0], replies[0]);
      StepInv(w, ops[0], replies[0]);
      assert forall op :: op in ops[1..] ==> op in ops;
      RunKeepsBuffer(Step(w, ops[0], replies[0]).world, ops[1..], replies[1..], block);
    }
  }
}
