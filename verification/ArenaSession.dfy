// A client of the arena that holds pointers and scope snapshots and makes only
// the calls the header allows. What it does to the objects is a legal run.
module ArenaSessions {
  import opened Machine
  import opened ArenaSound
  import opened ArenaRuns
  import opened ArenaSafety
  import opened BlockLists
  import M = ArenaModel
  import WordBits
  import Heap = ArenaHeap
  import opened ArenaFrames
  import Scopes = ArenaScopes
  import Replay = ArenaReplay

  // What a caller keeps of a live allocation.
  datatype Handle = Handle(ptr: nat, size: nat, align: Size)

  ghost function HandlesOf(live: seq<Live>): seq<Handle> {
    seq(|live|, i requires 0 <= i < |live| => Handle(live[i].ptr, live[i].size, live[i].align))
  }

  // How many allocations each open scope started from.
  ghost function BasesOf(stack: seq<Saved>): seq<nat> {
    seq(|stack|, k requires 0 <= k < |stack| => |stack[k].frame.live|)
  }

  // Each snapshot points at the block that was newest when it was taken, and
  // the scopes nest.
  ghost predicate TempsMatch(temps: seq<Heap.Temp>, chain: seq<Block>, stack: seq<Saved>)
    decreases |stack|
  {
    |temps| == |stack| &&
    (stack == [] ||
     var n := |M.Last(stack).frame.chain|;
     && n <= |chain| && M.Last(temps).block == Newest(chain[..n])
     && M.Last(temps).View() == M.Last(stack).temp
     && TempsMatch(M.Front(temps), chain[..n], M.Front(stack)))
  }

  lemma TempsKept(temps: seq<Heap.Temp>, chain: seq<Block>, longer: seq<Block>, stack: seq<Saved>)
    requires TempsMatch(temps, chain, stack) && chain <= longer
    ensures TempsMatch(temps, longer, stack)
  {
    if stack != [] {
      var n := |M.Last(stack).frame.chain|;
      assert longer[..n] == chain[..n];
    }
  }

  lemma TempsPush(temps: seq<Heap.Temp>, chain: seq<Block>, stack: seq<Saved>, temp: Heap.Temp, saved: Saved)
    requires TempsMatch(temps, chain, stack)
    requires |saved.frame.chain| == |chain| && temp.block == Newest(chain) && temp.View() == saved.temp
    ensures TempsMatch(temps + [temp], chain, stack + [saved])
    ensures BasesOf(stack + [saved]) == BasesOf(stack) + [|saved.frame.live|]
  {
    assert chain[..|chain|] == chain;
    assert M.Front(stack + [saved]) == stack && M.Front(temps + [temp]) == temps;
  }

  // The allocation calls, with the bytes they or the caller put there.
  method AllocFilled(arena: Heap.Arena, count: Size, size: Size, align: Size, fill: Fill)
    returns (ptr: nat, ghost reply: nat)
    requires arena.Valid() && (fill.With? ==> |fill.bytes| == count * size)
    modifies arena, arena.parent, arena.bytes, arena.chain, arena.free
    ensures arena.Valid() && old(arena.chain) <= arena.chain
    ensures var o := M.AllocN(old(arena.View()), count, size, align, reply); arena.Follows(o) && ptr == o.ptr
    ensures arena.bytes.cells == if ptr != M.NULL && fill.With? then Store(old(arena.bytes.cells), ptr, fill.bytes)
                                 else old(arena.bytes.cells)
  {
    hide Heap.Arena.Valid, Heap.Arena.View, Heap.Arena.Follows, M.AllocN, Store;
    ptr, reply := arena.AllocN(count, size, align);
    if ptr != M.NULL && fill.With? {
      arena.bytes.Put(ptr, fill.bytes);
    }
  }

  class Session {
    const arena: Heap.Arena
    var handles: seq<Handle>
    var temps: seq<Heap.Temp>
    var bases: seq<nat>
    ghost var world: World

    ghost predicate Mirrors()
      reads this, arena, arena.parent, arena.bytes, arena.chain, arena.free
    {
      && arena.Valid() && arena.View() == world.a
      && arena.parent.outstanding == world.out && arena.bytes.cells == world.memory
    }

    ghost predicate Books()
      reads this, arena`chain
    {
      && handles == HandlesOf(world.live) && bases == BasesOf(world.stack)
      && TempsMatch(temps, arena.chain, world.stack)
    }

    ghost predicate Valid()
      reads this, arena, arena.parent, arena.bytes, arena.chain, arena.free
    {
      Mirrors() && Books() && Inv(world)
    }

    // The objects took the run's step, with this reply of the parent.
    twostate predicate Took(op: Op, ptr: nat, reply: nat)
      reads this, arena, arena.parent
    {
      && Legal(old(world), op, reply)
      && world == Step(old(world), op, reply).world && ptr == Step(old(world), op, reply).ptr
      && arena.parent.log == old(arena.parent.log) + Step(old(world), op, reply).calls
      && arena.OwnBlocks()
    }

    constructor (arena: Heap.Arena)
      requires arena.Valid() && arena.parent.outstanding == multiset{}
      requires Inv(Start(arena.View(), arena.bytes.cells))
      ensures Valid() && this.arena == arena && world == Start(arena.View(), arena.bytes.cells)
    {
      hide Inv;
      this.arena, handles, temps, bases := arena, [], [], [];
      world := Start(arena.View(), arena.bytes.cells);
    }

    // The header's rules, checked on what the caller keeps.
    predicate Allowed(op: Op)
      reads this
    {
      var base := if bases == [] then 0 else bases[|bases| - 1];
      match op
      case Alloc(count, size, align, fill) => fill.With? ==> |fill.bytes| == count * size
      case Resize(i, newSize) => base <= i < |handles|
      case Free(i) => base <= i < |handles|
      case Write(i, offset, byte) => i < |handles| && offset < handles[i].size
      case Begin => |temps| < UINT_MAX
      case End => temps != []
      case _ => true
    }

    lemma AllowedIsCallerOk(op: Op)
      requires Valid()
      ensures Allowed(op) <==> CallerOk(world, op)
    {
      hide Inv, Heap.Arena.Valid;
    }

    method Alloc(count: Size, size: Size, align: Size, fill: Fill) returns (ptr: nat, ghost reply: nat)
      requires Valid() && CallerOk(world, Op.Alloc(count, size, align, fill))
      modifies this, arena, arena.parent, arena.bytes, arena.chain, arena.free
      ensures Valid() && Took(Op.Alloc(count, size, align, fill), ptr, reply)
    {
      hide Inv, Legal, Step, Heap.Arena.Valid, Heap.Arena.View, M.AllocN, Honest, SettleAll, TempsMatch, HandlesOf, BasesOf, Store;
      ghost var before, op := world, Op.Alloc(count, size, align, fill);
      ptr, reply := AllocFilled(arena, count, size, align, fill);
      AllocTakes(before, count, size, align, fill, reply);
      TempsKept(temps, old(arena.chain), arena.chain, before.stack);
      if ptr != M.NULL {
        handles := handles + [Handle(ptr, M.Times(count, size), align)];
      }
      world := Step(before, op, reply).world;
    }

    method Resize(i: nat, newSize: Size) returns (ptr: nat, ghost reply: nat)
      requires Valid() && CallerOk(world, Op.Resize(i, newSize))
      modifies this, arena, arena.parent, arena.bytes, arena.chain, arena.free
      ensures Valid() && Took(Op.Resize(i, newSize), ptr, reply)
    {
      hide Inv, Legal, Step, Heap.Arena.Valid, Heap.Arena.View, M.Realloc, M.ResizeLast, Honest, SettleAll, TempsMatch, BasesOf, Store, Load;
      ghost var before, op := world, Op.Resize(i, newSize);
      LiveHasPointer(before, i);
      var h := handles[i];
      hide HandlesOf;
      ptr, reply := arena.Realloc(h.ptr, h.size, newSize, h.align);
      ResizeTakes(before, i, newSize, reply);
      TempsKept(temps, old(arena.chain), arena.chain, before.stack);
      if ptr != M.NULL {
        handles := handles[i := Handle(ptr, newSize, h.align)];
      }
      world := Step(before, op, reply).world;
    }

    method Free(i: nat) returns (ptr: nat, ghost reply: nat)
      requires Valid() && CallerOk(world, Op.Free(i))
      modifies this, arena, arena.chain
      ensures Valid() && Took(Op.Free(i), ptr, reply)
    {
      hide Inv, Legal, Step, Heap.Arena.Valid, Heap.Arena.View, M.AdapterFree, Honest, SettleAll, TempsMatch, BasesOf;
      ghost var before := world;
      ptr, reply := M.NULL, 0;
      FreeTakes(before, i);
      NoCalls(before.out);
      arena.Free(handles[i].ptr, handles[i].size);
      handles := handles[..i] + handles[i + 1..];
      world := Step(before, Op.Free(i), 0).world;
    }

    method Write(i: nat, offset: nat, byte: Byte) returns (ptr: nat, ghost reply: nat)
      requires Valid() && CallerOk(world, Op.Write(i, offset, byte))
      modifies this, arena.bytes
      ensures Valid() && Took(Op.Write(i, offset, byte), ptr, reply)
    {
      hide Inv, Legal, Step, Heap.Arena.Valid, Heap.Arena.View, Honest, SettleAll, TempsMatch, BasesOf, Store;
      ghost var before := world;
      ptr, reply := M.NULL, 0;
      WriteTakes(before, i, offset, byte);
      NoCalls(before.out);
      arena.bytes.Put(handles[i].ptr + offset, [byte]);
      world := Step(before, Op.Write(i, offset, byte), 0).world;
    }

    lemma NewestIsCurrent()
      requires Mirrors()
      ensures arena.current == Newest(arena.chain) && |arena.chain| == |world.a.chain|
    {
      hide Sound;
    }

    method Begin() returns (ptr: nat, ghost reply: nat)
      requires Valid() && CallerOk(world, Op.Begin)
      modifies this, arena
      ensures Valid() && Took(Op.Begin, ptr, reply)
    {
      hide Inv, Legal, Step, Heap.Arena.Valid, Heap.Arena.View, Honest, SettleAll, M.TempBegin,
        TempsMatch;
      ghost var before := world;
      ptr, reply := M.NULL, 0;
      BeginTakes(before);
      NoCalls(before.out);
      NewestIsCurrent();
      var temp := arena.TempBegin();
      TempsPush(temps, arena.chain, before.stack, temp, Saved(M.TempBegin(before.a).1, FrameOf(before)));
      temps, bases := temps + [temp], bases + [|handles|];
      world := Step(before, Op.Begin, 0).world;
    }

    // The rules give temp_end what it demands of its snapshot.
    lemma SnapshotIsInChain()
      requires Valid() && world.stack != []
      ensures var block := M.Last(temps).block;
              (block != null ==> block in arena.chain) && (arena.fixed ==> arena.current == block)
    {
      hide FrameOk, Sound, M.TempEnd, Honest, SettleAll;
      ScopeIsPrefix(world);
      var n := |M.Last(world.stack).frame.chain|;
      if n == |arena.chain| {
        assert arena.chain[..n] == arena.chain;
      }
    }

    method End() returns (ptr: nat, ghost reply: nat)
      requires Valid() && CallerOk(world, Op.End)
      modifies this, arena, arena.parent, arena.chain, arena.free
      ensures Valid() && Took(Op.End, ptr, reply)
    {
      hide Inv, Legal, Step, Heap.Arena.Valid, Heap.Arena.View, Honest, SettleAll, M.TempEnd;
      ghost var before := world;
      ptr, reply := M.NULL, 0;
      EndTakes(before);
      SnapshotIsInChain();
      var last := |temps| - 1;
      arena.TempEnd(temps[last]);
      arena.ChainLength();
      handles := handles[..bases[last]];
      temps, bases := temps[..last], bases[..last];
      world := Step(before, Op.End, 0).world;
    }

    method Reset() returns (ptr: nat, ghost reply: nat)
      requires Valid()
      modifies this, arena, arena.parent, arena.chain
      ensures Valid() && Took(Op.ResetAll, ptr, reply)
    {
      hide Inv, Legal, Step, Heap.Arena.Valid, Heap.Arena.View, Honest, SettleAll, M.Reset;
      ghost var before := world;
      ptr, reply := M.NULL, 0;
      ResetTakes(before);
      arena.Reset();
      handles, temps, bases := [], [], [];
      world := Step(before, Op.ResetAll, 0).world;
    }

    method Shutdown() returns (ptr: nat, ghost reply: nat)
      requires Valid()
      modifies this, arena, arena.parent
      ensures Valid() && Took(Op.Shutdown, ptr, reply)
    {
      hide Inv, Legal, Step, Heap.Arena.Valid, Heap.Arena.View, Honest, SettleAll, M.Deinit;
      ghost var before := world;
      ptr, reply := M.NULL, 0;
      ShutdownTakes(before);
      arena.Deinit();
      handles, temps, bases := [], [], [];
      world := Step(before, Op.Shutdown, 0).world;
    }

    method Trim() returns (ptr: nat, ghost reply: nat)
      requires Valid()
      modifies this, arena, arena.parent
      ensures Valid() && Took(Op.TrimFree, ptr, reply)
    {
      hide Inv, Legal, Step, Heap.Arena.Valid, Heap.Arena.View, Honest, SettleAll, M.Trim, TempsMatch, HandlesOf, BasesOf;
      ghost var before := world;
      ptr, reply := M.NULL, 0;
      TrimTakes(before);
      arena.Trim();
      world := Step(before, Op.TrimFree, 0).world;
    }

    method Clear() returns (ptr: nat, ghost reply: nat)
      requires Valid()
      modifies this, arena
      ensures Valid() && Took(Op.Clear, ptr, reply)
    {
      hide Inv, Legal, Step, Heap.Arena.Valid, Heap.Arena.View, Honest, SettleAll, M.ClearError, TempsMatch, HandlesOf, BasesOf;
      ghost var before := world;
      ptr, reply := M.NULL, 0;
      ClearTakes(before);
      NoCalls(before.out);
      arena.ClearError();
      world := Step(before, Op.Clear, 0).world;
    }

    lemma WorldIsReal()
      requires Valid()
      ensures arena.View() == world.a && arena.bytes.cells == world.memory
    {
    }

    // One call of the client.
    method Perform(op: Op) returns (ptr: nat, ghost reply: nat)
      requires Valid() && CallerOk(world, op)
      modifies this, arena, arena.parent, arena.bytes, arena.chain, arena.free
      ensures Valid() && Took(op, ptr, reply)
    {
      hide Valid, CallerOk, Took;
      match op
      case Alloc(count, size, align, fill) => ptr, reply := Alloc(count, size, align, fill);
      case Resize(i, newSize) => ptr, reply := Resize(i, newSize);
      case Free(i) => ptr, reply := Free(i);
      case Write(i, offset, byte) => ptr, reply := Write(i, offset, byte);
      case Begin => ptr, reply := Begin();
      case End => ptr, reply := End();
      case ResetAll => ptr, reply := Reset();
      case TrimFree => ptr, reply := Trim();
      case Clear => ptr, reply := Clear();
      case Shutdown => ptr, reply := Shutdown();
    }

    // Calls made one after another, up to the first that the rules forbid.
    method Execute(ops: seq<Op>) returns (done: nat, ptrs: seq<nat>, ghost replies: seq<nat>)
      requires Valid()
      modifies this, arena, arena.parent, arena.bytes, arena.chain, arena.free
      ensures Valid() && done == |replies| <= |ops| && (done < |ops| ==> !CallerOk(world, ops[done]))
      ensures LegalRun(old(world), ops[..done], replies)
      ensures world == Run(old(world), ops[..done], replies)
      ensures arena.View() == Run(old(world), ops[..done], replies).a
      ensures arena.bytes.cells == Run(old(world), ops[..done], replies).memory
      ensures ptrs == Replay.Pointers(old(world), ops[..done], replies)
      ensures arena.parent.log == old(arena.parent.log) + Trace(old(world), ops[..done], replies)
    {
      hide Valid, CallerOk, Step, Legal;
      done, ptrs, replies := 0, [], [];
      RunStarts(world, ops);
      while done < |ops|
        invariant Valid() && done == |replies| <= |ops|
        invariant LegalRun(old(world), ops[..done], replies) && world == Run(old(world), ops[..done], replies)
        invariant ptrs == Replay.Pointers(old(world), ops[..done], replies)
        invariant arena.parent.log == old(arena.parent.log) + Trace(old(world), ops[..done], replies)
        invariant arena.OwnBlocks()
        decreases |ops| - done
      {
        var allowed := Allowed(ops[done]);
        assert allowed <==> CallerOk(world, ops[done]) by { AllowedIsCallerOk(ops[done]); }
        if !allowed {
          break;
        }
        var ptr;
        ghost var reply;
        ptr, reply := Perform(ops[done]);
        RunExtends(old(world), ops[..done], replies, ops[done], reply);
        assert ops[..done + 1] == ops[..done] + [ops[done]];
        done, ptrs, replies := done + 1, ptrs + [ptr], replies + [reply];
      }
      WorldIsReal();
    }
  }

  // A client of a new growing arena, and one of an arena in its own buffer.
  method OpenSized(redzone: nat, parent: Heap.Parent, bytes: Heap.Bytes, minBlock: Size, maxBlock: Size)
    returns (session: Session)
    requires redzone == 0 || redzone == M.ASAN_REDZONE
    requires parent.outstanding == multiset{}
    ensures session.Valid() && session.world == Start(M.InitSized(redzone, minBlock, maxBlock), bytes.cells)
  {
    hide Inv, Heap.Arena.Valid, M.InitSized;
    var arena := new Heap.Arena.Sized(redzone, parent, bytes, minBlock, maxBlock);
    StartKeepsInv(redzone, minBlock, maxBlock, 0, 0, bytes.cells);
    session := new Session(arena);
  }

  method OpenFixed(redzone: nat, parent: Heap.Parent, bytes: Heap.Bytes, buffer: nat, size: Size)
    returns (session: Session)
    requires redzone == 0 || redzone == M.ASAN_REDZONE
    requires parent.outstanding == multiset{} && buffer + size <= WordBits.MODULUS
    ensures session.Valid() && session.world == Start(M.InitFixed(redzone, buffer, size), bytes.cells)
  {
    hide Inv, Heap.Arena.Valid, M.InitFixed;
    var arena := new Heap.Arena.Fixed(redzone, parent, bytes, buffer, size);
    StartKeepsInv(redzone, 0, 0, buffer, size, bytes.cells);
    session := new Session(arena);
  }

  // ----- what each step does, in the terms of the session -----

  // The step is legal, and leaves this arena, ledger and invariant.
  ghost predicate Leads(w: World, op: Op, reply: nat, a: M.Arena, ptr: nat, calls: seq<M.Call>) {
    var done := Step(w, op, reply);
    && Legal(w, op, reply) && Inv(done.world)
    && done.world.a == a && done.world.out == SettleAll(w.out, calls)
    && done.ptr == ptr && done.calls == calls
  }

  lemma StepIsSound(w: World, op: Op, reply: nat)
    requires Inv(w) && CallerOk(w, op) && Honest(w.out, Step(w, op, reply).calls)
    ensures Legal(w, op, reply) && Inv(Step(w, op, reply).world)
  {
    hide Inv, Step;
    StepKeepsInv(w, op, reply);
    StepInv(w, op, reply);
  }

  lemma AllocTakes(w: World, count: Size, size: Size, align: Size, fill: Fill, reply: nat)
    requires var op := Alloc(count, size, align, fill); Inv(w) && CallerOk(w, op)
    requires Honest(w.out, M.AllocN(w.a, count, size, align, reply).calls)
    ensures var op, o := Alloc(count, size, align, fill), M.AllocN(w.a, count, size, align, reply);
            && Leads(w, op, reply, o.arena, o.ptr, o.calls)
            && var next := Step(w, op, reply).world;
            && next.stack == w.stack
            && HandlesOf(next.live) == HandlesOf(w.live) + (if o.ptr == M.NULL then []
                                                            else [Handle(o.ptr, M.Times(count, size), align)])
            && next.memory == if o.ptr != M.NULL && fill.With? then Store(w.memory, o.ptr, fill.bytes) else w.memory
  {
    hide Inv, Legal, M.AllocN, Honest, SettleAll, HandlesOf, M.Times;
    var op := Alloc(count, size, align, fill);
    StepIsSound(w, op, reply);
    assert w.live + [] == w.live && HandlesOf(w.live) + [] == HandlesOf(w.live);
    if Step(w, op, reply).ptr != M.NULL {
      ServedAllocGrows(w, count, size, align, fill, reply);
      HandlesGrow(w.live, Step(w, op, reply).world.live);
    }
  }

  lemma HandlesGrow(live: seq<Live>, longer: seq<Live>)
    requires |longer| == |live| + 1 && longer[..|live|] == live
    ensures var l := M.Last(longer); HandlesOf(longer) == HandlesOf(live) + [Handle(l.ptr, l.size, l.align)]
  {
    forall i | 0 <= i < |live| ensures longer[i] == live[i] {
      assert longer[..|live|][i] == live[i];
    }
  }

  lemma ResizeTakes(w: World, i: nat, newSize: Size, reply: nat)
    requires Inv(w) && CallerOk(w, Resize(i, newSize))
    requires var l := w.live[i]; Honest(w.out, M.Realloc(w.a, l.ptr, l.size, newSize, l.align, reply).calls)
    ensures var op, l := Resize(i, newSize), w.live[i];
            var o, next := M.Realloc(w.a, l.ptr, l.size, newSize, l.align, reply), Step(w, op, reply).world;
            && Leads(w, op, reply, o.arena, o.ptr, o.calls) && next.stack == w.stack
            && HandlesOf(next.live) == (if o.ptr == M.NULL then HandlesOf(w.live)
                                        else HandlesOf(w.live)[i := Handle(o.ptr, newSize, l.align)])
            && next.memory == if o.ptr == M.NULL || M.ResizeLast(w.a, l.ptr, l.size, newSize).ptr != M.NULL then w.memory
                              else Store(w.memory, o.ptr, Load(w.memory, l.ptr, Min(l.size, newSize)))
  {
    hide Inv, Legal, M.Realloc, M.ResizeLast, Honest, SettleAll, Store, Load;
    var op := Resize(i, newSize);
    StepIsSound(w, op, reply);
    LiveHasPointer(w, i);
    if Step(w, op, reply).ptr != M.NULL {
      ServedHasChain(w, i, newSize, reply);
      ResizedLiveShape(w, i, newSize, reply);
      if M.ResizeLast(w.a, w.live[i].ptr, w.live[i].size, newSize).ptr == M.NULL {
        MoveIsApart(w, i, newSize, reply);
      } else {
        InPlaceStays(w, i, newSize, reply);
      }
    } else {
      FailureIsClean(w, op, reply);
    }
  }

  lemma InPlaceStays(w: World, i: nat, newSize: Size, reply: nat)
    requires i < |w.live|
    requires var l := w.live[i]; l.ptr != M.NULL && M.ResizeLast(w.a, l.ptr, l.size, newSize).ptr != M.NULL
    requires Step(w, Resize(i, newSize), reply).ptr != M.NULL
    ensures Step(w, Resize(i, newSize), reply).ptr == w.live[i].ptr
  {
    hide WordBits.AlignValid;
  }

  lemma FreeTakes(w: World, i: nat)
    requires Inv(w) && CallerOk(w, Free(i))
    ensures var next, l := Step(w, Free(i), 0).world, w.live[i];
            && Leads(w, Free(i), 0, M.AdapterFree(w.a, l.ptr, l.size), M.NULL, [])
            && next.stack == w.stack && next.memory == w.memory
            && HandlesOf(next.live) == HandlesOf(w.live)[..i] + HandlesOf(w.live)[i + 1..]
  {
    hide Inv, M.AdapterFree, Honest;
    NoCalls(w.out);
    StepIsSound(w, Free(i), 0);
  }

  lemma WriteTakes(w: World, i: nat, offset: nat, byte: Byte)
    requires Inv(w) && CallerOk(w, Write(i, offset, byte))
    ensures var next := Step(w, Write(i, offset, byte), 0).world;
            && Leads(w, Write(i, offset, byte), 0, w.a, M.NULL, [])
            && next.stack == w.stack && next.live == w.live
            && next.memory == Store(w.memory, w.live[i].ptr + offset, [byte])
  {
    hide Inv, Honest, Store;
    NoCalls(w.out);
    StepIsSound(w, Write(i, offset, byte), 0);
  }

  lemma BeginTakes(w: World)
    requires Inv(w) && CallerOk(w, Begin)
    ensures var next := Step(w, Begin, 0).world;
            && Leads(w, Begin, 0, M.TempBegin(w.a).0, M.NULL, [])
            && next.stack == w.stack + [Saved(M.TempBegin(w.a).1, FrameOf(w))]
            && next.live == w.live && next.memory == w.memory
  {
    hide Inv, Honest, M.TempBegin;
    NoCalls(w.out);
    StepIsSound(w, Begin, 0);
  }

  lemma EndTakes(w: World)
    requires Inv(w) && CallerOk(w, End)
    ensures var next, saved := Step(w, End, 0).world, M.Last(w.stack);
            && Leads(w, End, 0, M.TempEnd(w.a, saved.temp).arena, M.NULL, M.TempEnd(w.a, saved.temp).calls)
            && next.stack == M.Front(w.stack) && next.memory == w.memory
            && saved.frame.live <= w.live && next.live == saved.frame.live
            && next.a.chain == saved.frame.chain
            && (w.a.fixed ==> |saved.frame.chain| == |w.a.chain|)
  {
    hide FrameOk, Sound, Extends, Honest, SettleAll, M.TempEnd, Scopes.SnapshotOf;
    var saved := M.Last(w.stack);
    TopOfStack(w);
    ScopeIsPrefix(w);
    TempEndKeepsSound(w.a, w.out, saved.temp);
    Scopes.EndRestores(w.a, w.out, saved.temp, saved.frame);
    StepIsSound(w, End, 0);
  }

  lemma ScopeIsPrefix(w: World)
    requires Inv(w) && w.stack != []
    ensures M.Last(w.stack).frame.live <= w.live
    ensures w.a.fixed ==> |M.Last(w.stack).frame.chain| == |w.a.chain|
  {
    hide FrameOk, Sound;
  }

  lemma SoundWorld(w: World)
    requires Inv(w)
    ensures Sound(w.a, w.out)
  {
  }

  lemma ResetTakes(w: World)
    requires Inv(w)
    ensures var next := Step(w, ResetAll, 0).world;
            Leads(w, ResetAll, 0, M.Reset(w.a).arena, M.NULL, M.Reset(w.a).calls) && next.stack == [] && next.live == [] && next.memory == w.memory
  {
    hide Inv, Sound, Honest, SettleAll, M.Reset;
    SoundWorld(w);
    ResetKeepsSound(w.a, w.out);
    StepIsSound(w, ResetAll, 0);
  }

  lemma ShutdownTakes(w: World)
    requires Inv(w)
    ensures var next := Step(w, Shutdown, 0).world;
            Leads(w, Shutdown, 0, M.Deinit(w.a).arena, M.NULL, M.Deinit(w.a).calls) && next.stack == [] && next.live == [] && next.memory == w.memory
  {
    hide Inv, Sound, Honest, SettleAll, M.Deinit;
    SoundWorld(w);
    DeinitSettles(w.a, w.out);
    StepIsSound(w, Shutdown, 0);
  }

  lemma TrimTakes(w: World)
    requires Inv(w)
    ensures var next := Step(w, TrimFree, 0).world;
            && Leads(w, TrimFree, 0, M.Trim(w.a).arena, M.NULL, M.Trim(w.a).calls)
            && next.stack == w.stack && next.live == w.live && next.memory == w.memory
  {
    hide Inv, Sound, Honest, SettleAll, M.Trim;
    SoundWorld(w);
    TrimKeepsSound(w.a, w.out);
    StepIsSound(w, TrimFree, 0);
  }

  lemma ClearTakes(w: World)
    requires Inv(w)
    ensures var next := Step(w, Clear, 0).world;
            && Leads(w, Clear, 0, M.ClearError(w.a), M.NULL, [])
            && next.stack == w.stack && next.live == w.live && next.memory == w.memory
  {
    hide Inv, Honest, M.ClearError;
    NoCalls(w.out);
    StepIsSound(w, Clear, 0);
  }

  // ----- runs, one call at a time -----

  lemma RunStarts(w: World, ops: seq<Op>)
    ensures LegalRun(w, ops[..0], []) && Run(w, ops[..0], []) == w
    ensures Replay.Pointers(w, ops[..0], []) == [] && Trace(w, ops[..0], []) == []
  {
  }

  lemma Associates<T>(a: seq<T>, b: seq<T>, c: seq<T>)
    ensures a + (b + c) == (a + b) + c
  {
  }

  ghost predicate RunExtended(w: World, ops: seq<Op>, replies: seq<nat>, op: Op, reply: nat)
    requires |ops| == |replies|
  {
    var end, longer, more := Run(w, ops, replies), ops + [op], replies + [reply];
    && Run(w, longer, more) == Step(end, op, reply).world
    && (LegalRun(w, longer, more) <==> LegalRun(w, ops, replies) && Legal(end, op, reply))
    && Replay.Pointers(w, longer, more) == Replay.Pointers(w, ops, replies) + [Step(end, op, reply).ptr]
    && Trace(w, longer, more) == Trace(w, ops, replies) + Step(end, op, reply).calls
  }

  lemma {:induction false} RunExtends(w: World, ops: seq<Op>, replies: seq<nat>, op: Op, reply: nat)
    requires |ops| == |replies|
    ensures RunExtended(w, ops, replies, op, reply)
    decreases |ops|
  {
    hide Step, Legal;
    var longer, more := ops + [op], replies + [reply];
    assert longer[0] == (if ops == [] then op else ops[0]) && more[0] == (if ops == [] then reply else replies[0]);
    if ops == [] {
      var done := Step(w, op, reply);
      assert longer[1..] == [] && more[1..] == [];
      RunStarts(w, ops);
      RunStarts(done.world, []);
      assert Run(w, longer, more) == done.world;
      assert LegalRun(w, longer, more) <==> Legal(w, op, reply);
      assert Replay.Pointers(w, longer, more) == [done.ptr];
      assert Trace(w, longer, more) == done.calls;
      assert done.calls + [] == [] + done.calls && [done.ptr] + [] == [] + [done.ptr];
    } else {
      assert longer[1..] == ops[1..] + [op] && more[1..] == replies[1..] + [reply];
      var done := Step(w, ops[0], replies[0]);
      RunExtends(done.world, ops[1..], replies[1..], op, reply);
      Associates(done.calls, Trace(done.world, ops[1..], replies[1..]),
                 Step(Run(w, ops, replies), op, reply).calls);
      Associates([done.ptr], Replay.Pointers(done.world, ops[1..], replies[1..]),
                 [Step(Run(w, ops, replies), op, reply).ptr]);
    }
  }
}
