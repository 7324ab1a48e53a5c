// Ending a temp scope, and the adapter's free.
module ArenaScopes {
  import opened Machine
  import opened ArenaModel
  import opened ArenaSound
  import opened ArenaFrames
  import opened ArenaAlloc

  // The normal blocks of a list, emptied, in their order.
  function EmptiedNormals(blocks: seq<Block>): seq<Block> {
    if blocks == [] then []
    else EmptiedNormals(Front(blocks)) + if Last(blocks).oversize then [] else [Last(blocks).Blank()]
  }

  // The releases of a list's oversize blocks, newest first.
  function OversizeReleases(blocks: seq<Block>): seq<Call> {
    if blocks == [] then []
    else if Last(blocks).oversize then
      [Release(Last(blocks).addr, Last(blocks).Bytes())] + OversizeReleases(Front(blocks))
    else OversizeReleases(Front(blocks))
  }

  function OversizeBytes(blocks: seq<Block>): nat {
    if blocks == [] then 0
    else OversizeBytes(Front(blocks)) + if Last(blocks).oversize then Last(blocks).Bytes() else 0
  }

  // The state after popping down to the first k blocks.
  function PoppedTo(a: Arena, k: nat): Outcome
    requires k <= |a.chain|
  {
    Outcome(a.(chain := a.chain[..k], free := EmptiedNormals(a.chain[k..]) + a.free,
               committed := a.committed - OversizeBytes(a.chain[k..])),
            NULL, OversizeReleases(a.chain[k..]))
  }

  lemma PopOneMore(a: Arena, k: nat)
    requires k < |a.chain|
    ensures var popped := PopLast(a); var rest := PoppedTo(popped.arena, k);
            PoppedTo(a, k) == rest.(calls := popped.calls + rest.calls)
  {
    var entered, popped := a.chain[k..], PopLast(a);
    assert Front(entered) == Front(a.chain)[k..] && Last(entered) == Last(a.chain);
    assert Front(a.chain)[..k] == a.chain[..k];
    var blank := if Last(entered).oversize then [] else [Last(entered).Blank()];
    assert EmptiedNormals(Front(entered)) + (blank + a.free) == EmptiedNormals(entered) + a.free;
  }

  lemma PopNone(a: Arena)
    ensures PoppedTo(a, |a.chain|) == Outcome(a, NULL, [])
  {
    assert a.chain[..|a.chain|] == a.chain && a.chain[|a.chain|..] == [];
  }

  // Everything above the k-th block pops, whatever the loop stops on there.
  lemma {:induction false} PopToBlockPops(a: Arena, stop: nat, k: nat)
    requires k <= |a.chain|
    requires 0 < k ==> a.chain[k - 1].addr == stop
    requires forall i :: k <= i < |a.chain| ==> a.chain[i].addr != stop
    ensures PopToBlock(a, stop) == PoppedTo(a, k)
    decreases |a.chain|
  {
    hide PoppedTo;
    if |a.chain| == k {
      PopNone(a);
    } else {
      PopOneMore(a, k);
      PopToBlockPops(PopLast(a).arena, stop, k);
    }
  }

  // ----- reset and trim -----

  // A chain with one block taken out, if it is there.
  function Without(chain: seq<Block>, keep: nat): seq<Block> {
    if keep < |chain| then chain[..keep] + chain[keep + 1..] else chain
  }

  function PoppedAllBut(a: Arena, keep: nat): Outcome {
    Outcome(a.(chain := [], free := EmptiedNormals(Without(a.chain, keep)) + a.free,
               committed := a.committed - OversizeBytes(a.chain)),
            NULL, OversizeReleases(a.chain))
  }

  lemma PassOne(a: Arena, keep: nat)
    requires |a.chain| == keep + 1 && !Last(a.chain).oversize
    ensures PoppedAllBut(a, keep) == PoppedAllBut(a.(chain := Front(a.chain)), keep)
  {
    assert Without(a.chain, keep) == Front(a.chain);
  }

  lemma WithoutFront(chain: seq<Block>, keep: nat)
    requires chain != [] && |chain| != keep + 1
    ensures Without(chain, keep) != [] && Last(Without(chain, keep)) == Last(chain)
    ensures Front(Without(chain, keep)) == Without(Front(chain), keep)
  {
  }

  lemma EmptiedOnto(blocks: seq<Block>, free: seq<Block>)
    requires blocks != []
    ensures EmptiedNormals(blocks) + free
         == EmptiedNormals(Front(blocks)) + if Last(blocks).oversize then free else [Last(blocks).Blank()] + free
  {
    var blank := if Last(blocks).oversize then [] else [Last(blocks).Blank()];
    assert (EmptiedNormals(Front(blocks)) + blank) + free == EmptiedNormals(Front(blocks)) + (blank + free);
    assert Last(blocks).oversize ==> blank + free == free;
  }

  lemma PopOne(a: Arena, keep: nat)
    requires a.chain != [] && |a.chain| != keep + 1
    ensures var popped := PopLast(a); var rest := PoppedAllBut(popped.arena, keep);
            PoppedAllBut(a, keep) == rest.(calls := popped.calls + rest.calls)
  {
    WithoutFront(a.chain, keep);
    EmptiedOnto(Without(a.chain, keep), a.free);
    hide EmptiedNormals, Without;
  }

  // Popping all blocks but one normal block releases exactly the oversize ones.
  lemma {:induction false} PopAllButPops(a: Arena, keep: nat)
    requires keep < |a.chain| ==> !a.chain[keep].oversize
    ensures PopAllBut(a, keep) == PoppedAllBut(a, keep)
    decreases |a.chain|
  {
    if a.chain == [] {
      assert [] + a.free == a.free;
    } else {
      hide PoppedAllBut, PopLast;
      if |a.chain| == keep + 1 {
        PassOne(a, keep);
        PopAllButPops(a.(chain := Front(a.chain)), keep);
      } else {
        PopKeepsRest(a);
        PopOne(a, keep);
        PopAllButPops(PopLast(a).arena, keep);
      }
    }
  }

  lemma PopKeepsRest(a: Arena)
    requires a.chain != []
    ensures PopLast(a).arena.chain == Front(a.chain)
  {
  }

  lemma {:induction false} OldestNormalIsFirst(chain: seq<Block>)
    ensures forall j :: 0 <= j < OldestNormal(chain) ==> chain[j].oversize
  {
    if chain != [] && chain[0].oversize {
      OldestNormalIsFirst(chain[1..]);
      forall j | 0 <= j < OldestNormal(chain) ensures chain[j].oversize {
        assert 0 < j ==> chain[j] == chain[1..][j - 1];
      }
    }
  }

  // Reset releases exactly the oversize blocks, keeps the oldest normal one,
  // and retires the other normal ones in the order they were entered.
  lemma ResetDrops(a: Arena)
    requires !a.fixed
    ensures var o, keep := Reset(a), OldestNormal(a.chain);
            && o.calls == OversizeReleases(a.chain)
            && (forall j :: 0 <= j < keep ==> a.chain[j].oversize)
            && o.arena == a.(chain := if keep < |a.chain| then [a.chain[keep].Blank()] else [],
                             free := EmptiedNormals(Without(a.chain, keep)) + a.free,
                             committed := a.committed - OversizeBytes(a.chain),
                             used := 0, depth := 0, status := Ok,
                             generation := (a.generation + 1) % (UINT_MAX + 1))
  {
    PopAllButPops(a, OldestNormal(a.chain));
    OldestNormalIsFirst(a.chain);
  }

  // Trim gives back exactly the retained blocks, in list order.
  lemma TrimDrops(a: Arena)
    ensures Trim(a)
         == if a.fixed then Outcome(a, NULL, [])
            else Outcome(a.(free := [], committed := a.committed - Total(a.free)), NULL, ReleaseCalls(a.free))
  {
    ReleaseAllMeaning(a, a.free);
  }

  // Deinit gives back the chain, newest first, and then the retained blocks,
  // and leaves an empty growing arena of the default sizes.
  lemma DeinitDrops(a: Arena)
    ensures Deinit(a).calls == if a.fixed then [] else ReleaseCalls(Reverse(a.chain)) + ReleaseCalls(a.free)
    ensures Deinit(a).arena
         == Arena(a.redzone, false, [], [], 4096, 65536, 4096, 0, 0, 0, 0, (a.generation + 1) % (UINT_MAX + 1), Ok)
  {
    ReleaseAllMeaning(a, Reverse(a.chain));
    ReleaseAllMeaning(a, a.free);
  }

  lemma DistinctAddresses(chain: seq<Block>, i: nat, j: nat)
    requires ChainOk(chain) && i < j < |chain|
    ensures chain[i].addr != chain[j].addr && 0 < chain[j].addr
  {
    assert chain[i] in chain && chain[j] in chain;
    assert Apart(chain[i], chain[j]);
  }

  // The snapshot records where the scope began.
  ghost predicate SnapshotOf(temp: Temp, base: Frame) {
    && temp.used == base.used
    && temp.block == (if base.chain == [] then NULL else Last(base.chain).addr)
    && temp.blockUsed == (if base.chain == [] then 0 else Last(base.chain).used)
  }

  lemma EndPops(a: Arena, out: Ledger, temp: Temp, base: Frame)
    requires Sound(a, out) && SnapshotOf(temp, base) && ChainGrew(base.chain, a.chain)
    ensures |base.chain| <= |a.chain| && PopToBlock(a, temp.block) == PoppedTo(a, |base.chain|)
  {
    var k := |base.chain|;
    SoundChain(a, out);
    forall i | k <= i < |a.chain| ensures a.chain[i].addr != temp.block {
      assert a.chain[i] in a.chain;
      if 0 < k {
        DistinctAddresses(a.chain, k - 1, i);
      }
    }
    PopToBlockPops(a, temp.block, k);
  }

  lemma RewoundChain(base: seq<Block>, chain: seq<Block>)
    requires ChainGrew(base, chain) && base != []
    ensures var popped := chain[..|base|];
            && Last(base).used <= Last(popped).used
            && WithNewestUsed(popped, Last(base).used) == base
            && (Last(popped).used == Last(base).used ==> popped == base)
  {
    var popped := chain[..|base|];
    assert Front(popped) == chain[..|base| - 1] == Front(base);
    assert base == Front(base) + [Last(base)];
    assert popped == Front(popped) + [Last(popped)];
  }

  // Ending a scope restores the chain, the cursor and `used` exactly. Normal
  // blocks entered since go to the head of the free list in entry order,
  // oversize ones back to the parent; the status stays.
  lemma EndRestores(a: Arena, out: Ledger, temp: Temp, base: Frame)
    requires Sound(a, out) && SnapshotOf(temp, base)
    requires ChainGrew(base.chain, a.chain) && base.used <= a.used
    ensures var o, entered := TempEnd(a, temp), a.chain[|base.chain|..];
            && o.arena.chain == base.chain && o.arena.used == base.used
            && o.arena.free == EmptiedNormals(entered) + a.free
            && o.calls == OversizeReleases(entered)
            && o.arena.committed == a.committed - OversizeBytes(entered)
            && o.arena.depth == (if a.depth > 0 then a.depth - 1 else 0)
            && o.arena == a.(chain := o.arena.chain, free := o.arena.free, used := o.arena.used,
                             committed := o.arena.committed, depth := o.arena.depth)
  {
    hide Sound, PopToBlock, ChainGrew, EmptiedNormals, OversizeReleases, OversizeBytes;
    EndPops(a, out, temp, base);
    if base.chain != [] {
      RewoundChain(base.chain, a.chain);
    } else {
      assert a.chain[..0] == [];
    }
  }

  // ----- the adapter's free -----

  lemma FreeFrameOf(a: Arena, out: Ledger, f: Frame, base: Frame, i: nat)
    requires Sound(a, out) && FrameOk(a.redzone, f) && Matches(a, f) && a.used <= a.highWater
    requires i < |f.live| && |base.live| <= i
    ensures var b := AdapterFree(a, f.live[i].ptr, f.live[i].size);
            var f' := Rebase(f, b).(live := Removed(f.live, i));
            && FrameOk(a.redzone, f') && (Extends(a.redzone, base, f) ==> Extends(a.redzone, base, f'))
            && SameFixture(a, b) && b == a.(chain := b.chain, used := b.used)
            && b.used <= b.highWater
  {
    hide FrameOk, Extends, Sound, ChainOk;
    var l := f.live[i];
    SoundChain(a, out);
    LiveIsNotNull(a.redzone, f, i);
    var isLast := IsLastAlloc(a, l.ptr, l.size);
    if isLast {
      LastAllocIsNewest(a.redzone, f, i);
    }
    FreeKeepsFrame(a.redzone, f, i, isLast);
    if Extends(a.redzone, base, f) {
      FreeKeepsExtends(a.redzone, base, f, i, isLast);
    }
    assert FreeFrame(a.redzone, f, i, isLast) ==
        Rebase(f, AdapterFree(a, l.ptr, l.size)).(live := Removed(f.live, i));
  }

  lemma LiveIsNotNull(redzone: nat, f: Frame, i: nat)
    requires FrameOk(redzone, f) && i < |f.live|
    ensures f.live[i].ptr != NULL && 0 < f.live[i].size
  {
    assert LiveOk(redzone, f.chain, f.live[i]);
  }
}
