// Live allocations inside a block chain, and what a temp scope's snapshot has
// to do with the state at its end.
module ArenaFrames {
  import opened Machine
  import opened WordBits
  import opened ArenaModel
  import opened ArenaSound

  // A live allocation: its pointer, size and requested alignment, and the
  // position of its block in the chain, oldest first.
  datatype Live = Live(ptr: nat, size: nat, align: Size, home: nat)

  // The part of an arena a temp scope rewinds, with the allocations alive in
  // it and the sizes of the realloc sources abandoned in it.
  datatype Frame = Frame(chain: seq<Block>, used: int, live: seq<Live>, dropped: seq<nat>)

  function Consumed(chain: seq<Block>): nat {
    if chain == [] then 0 else Consumed(Front(chain)) + Last(chain).used
  }

  function Sum(sizes: seq<nat>): nat {
    if sizes == [] then 0 else Sum(Front(sizes)) + Last(sizes)
  }

  // The bytes live allocations hold, redzones included.
  function Claim(redzone: nat, live: seq<Live>): nat {
    if live == [] then 0 else Claim(redzone, Front(live)) + Last(live).size + redzone
  }

  lemma {:induction false} ClaimConcat(redzone: nat, xs: seq<Live>, ys: seq<Live>)
    ensures Claim(redzone, xs + ys) == Claim(redzone, xs) + Claim(redzone, ys)
    decreases |ys|
  {
    if ys == [] {
      assert xs + ys == xs;
    } else {
      assert Front(xs + ys) == xs + Front(ys);
      ClaimConcat(redzone, xs, Front(ys));
    }
  }

  lemma ClaimSingle(redzone: nat, l: Live)
    ensures Claim(redzone, [l]) == l.size + redzone
  {
    assert Front([l]) == [];
  }

  lemma ClaimAround(redzone: nat, live: seq<Live>, i: nat)
    requires i < |live|
    ensures Claim(redzone, live) == Claim(redzone, live[..i]) + live[i].size + redzone + Claim(redzone, live[i + 1..])
  {
    assert live == live[..i] + [live[i]] + live[i + 1..];
    ClaimConcat(redzone, live[..i] + [live[i]], live[i + 1..]);
    ClaimConcat(redzone, live[..i], [live[i]]);
    ClaimSingle(redzone, live[i]);
  }

  function Removed(live: seq<Live>, i: nat): seq<Live>
    requires i < |live|
  {
    live[..i] + live[i + 1..]
  }

  lemma ClaimRemoved(redzone: nat, live: seq<Live>, i: nat)
    requires i < |live|
    ensures Claim(redzone, Removed(live, i)) + live[i].size + redzone == Claim(redzone, live)
  {
    ClaimAround(redzone, live, i);
    ClaimConcat(redzone, live[..i], live[i + 1..]);
  }

  lemma ClaimUpdated(redzone: nat, live: seq<Live>, i: nat, l: Live)
    requires i < |live|
    ensures Claim(redzone, live[i := l]) + live[i].size == Claim(redzone, live) + l.size
  {
    ClaimAround(redzone, live, i);
    ClaimAround(redzone, live[i := l], i);
    assert live[i := l][..i] == live[..i] && live[i := l][i + 1..] == live[i + 1..];
  }

  lemma ConsumedAppended(chain: seq<Block>, b: Block)
    ensures Consumed(chain + [b]) == Consumed(chain) + b.used
  {
    assert Front(chain + [b]) == chain;
  }

  lemma SumAppended(sizes: seq<nat>, n: nat)
    ensures Sum(sizes + [n]) == Sum(sizes) + n
  {
    assert Front(sizes + [n]) == sizes;
  }

  // ----- frames -----

  // What a request asks of its address: a multiple of its alignment, of 16 when
  // it names none, and of 8 where redzones are kept.
  predicate AlignedFor(redzone: nat, align: nat, addr: nat) {
    && (align != 0 ==> addr % align == 0)
    && (align == 0 ==> addr % 16 == 0)
    && (redzone > 0 ==> addr % 8 == 0)
  }

  ghost predicate LiveOk(redzone: nat, chain: seq<Block>, l: Live) {
    && l.home < |chain| && 0 < l.size
    && chain[l.home].Data() <= l.ptr
    && l.ptr + l.size + redzone <= chain[l.home].Cursor()
    && IsServedAlign(l.align) && AlignedFor(redzone, l.align, l.ptr)
  }

  ghost predicate LiveApart(redzone: nat, k: Live, l: Live) {
    k.ptr + k.size + redzone <= l.ptr || l.ptr + l.size + redzone <= k.ptr
  }

  ghost predicate AllLive(redzone: nat, chain: seq<Block>, live: seq<Live>) {
    forall i :: 0 <= i < |live| ==> LiveOk(redzone, chain, live[i])
  }

  ghost predicate AllLiveApart(redzone: nat, live: seq<Live>) {
    forall i, j :: 0 <= i < j < |live| ==> LiveApart(redzone, live[i], live[j])
  }

  // What the chained blocks consumed is what `used` counts plus the bytes of
  // abandoned sources; and `used` covers every live allocation.
  ghost predicate FrameOk(redzone: nat, f: Frame) {
    && AllLive(redzone, f.chain, f.live) && AllLiveApart(redzone, f.live)
    && Consumed(f.chain) == f.used + Sum(f.dropped)
    && Claim(redzone, f.live) <= f.used
  }

  // Allocated since the chain was base: in a later block, or past base's cursor.
  ghost predicate Above(base: seq<Block>, l: Live) {
    |base| <= l.home || (|base| == l.home + 1 && base[l.home].Cursor() <= l.ptr)
  }

  ghost predicate AllAbove(base: seq<Block>, live: seq<Live>, from: nat) {
    forall i :: from <= i < |live| ==> Above(base, live[i])
  }

  // The chain grew from base: same blocks, and only the newest block of base
  // may have been used further.
  ghost predicate ChainGrew(base: seq<Block>, chain: seq<Block>) {
    && |base| <= |chain|
    && (base != [] ==>
          && Front(base) == chain[..|base| - 1]
          && chain[|base| - 1].(used := Last(base).used) == Last(base)
          && Last(base).used <= chain[|base| - 1].used)
  }

  // base is a snapshot of what f grew from by operations on newer allocations.
  ghost predicate Extends(redzone: nat, base: Frame, f: Frame) {
    && ChainGrew(base.chain, f.chain)
    && base.live <= f.live && base.dropped <= f.dropped
    && AllAbove(base.chain, f.live, |base.live|)
    && base.used + Claim(redzone, f.live[|base.live|..]) <= f.used
  }

  // ----- allocation in the newest block -----

  function WithNewestUsed(chain: seq<Block>, used: nat): seq<Block>
    requires chain != []
  {
    Front(chain) + [Last(chain).(used := used)]
  }

  function BumpedChain(chain: seq<Block>, total: nat): seq<Block>
    requires chain != []
  {
    WithNewestUsed(chain, Last(chain).used + total)
  }

  function BumpFrame(f: Frame, total: nat, l: Live): Frame
    requires f.chain != []
  {
    Frame(BumpedChain(f.chain, total), f.used + total, f.live + [l], f.dropped)
  }

  // l was carved out between the cursor and the cursor moved by total.
  ghost predicate Carved(redzone: nat, chain: seq<Block>, total: nat, l: Live) {
    && chain != [] && Last(chain).used + total <= Last(chain).cap
    && l.home == |chain| - 1 && 0 < l.size
    && Last(chain).Cursor() <= l.ptr && l.ptr + l.size + redzone == Last(chain).Cursor() + total
    && IsServedAlign(l.align) && AlignedFor(redzone, l.align, l.ptr)
  }

  ghost predicate ChainOk(chain: seq<Block>) {
    AllApart(chain) && forall b :: b in chain ==> BlockOk(b)
  }

  // A live range lies in its block, and ranges of different blocks are apart.
  lemma OtherBlocksApart(redzone: nat, chain: seq<Block>, k: Live, l: Live)
    requires ChainOk(chain) && LiveOk(redzone, chain, k) && LiveOk(redzone, chain, l)
    requires k.home != l.home
    ensures LiveApart(redzone, k, l)
  {
    assert chain[k.home] in chain && chain[l.home] in chain;
    if k.home < l.home {
      assert Apart(chain[k.home], chain[l.home]);
    } else {
      assert Apart(chain[l.home], chain[k.home]);
    }
  }

  lemma BumpedLive(redzone: nat, chain: seq<Block>, total: nat, live: seq<Live>)
    requires chain != [] && AllLive(redzone, chain, live)
    ensures AllLive(redzone, BumpedChain(chain, total), live)
  {
    forall i | 0 <= i < |live| ensures LiveOk(redzone, BumpedChain(chain, total), live[i]) {
      assert LiveOk(redzone, chain, live[i]);
    }
  }

  lemma NewestUsedChainOk(chain: seq<Block>, used: nat)
    requires ChainOk(chain) && chain != [] && used <= Last(chain).cap
    ensures ChainOk(WithNewestUsed(chain, used))
  {
    var changed := WithNewestUsed(chain, used);
    assert Last(chain) in chain;
    forall i, j | 0 <= i < j < |changed| ensures Apart(changed[i], changed[j]) {
      assert Apart(chain[i], chain[j]);
    }
    forall b | b in changed ensures BlockOk(b) {
      assert b == Last(changed) || b in chain;
    }
  }

  // Below the cursor of its block, so below anything carved past the cursor.
  lemma CarvedApart(redzone: nat, chain: seq<Block>, total: nat, live: seq<Live>, l: Live, i: nat)
    requires ChainOk(chain) && Carved(redzone, chain, total, l)
    requires i < |live| && AllLive(redzone, chain, live)
    ensures LiveApart(redzone, live[i], l)
  {
    assert LiveOk(redzone, chain, live[i]);
    if live[i].home != l.home {
      var bumped := BumpedChain(chain, total);
      NewestUsedChainOk(chain, Last(chain).used + total);
      BumpedLive(redzone, chain, total, [live[i]]);
      assert LiveOk(redzone, bumped, [live[i]][0]);
      OtherBlocksApart(redzone, bumped, live[i], l);
    }
  }

  lemma BumpKeepsFrame(redzone: nat, f: Frame, total: nat, l: Live)
    requires FrameOk(redzone, f) && ChainOk(f.chain) && Carved(redzone, f.chain, total, l)
    ensures FrameOk(redzone, BumpFrame(f, total, l))
  {
    hide BlockOk, Apart, AllApart;
    var f', live := BumpFrame(f, total, l), f.live + [l];
    BumpedLive(redzone, f.chain, total, f.live);
    forall i | 0 <= i < |live| ensures LiveOk(redzone, f'.chain, live[i]) {
      assert i < |f.live| ==> LiveOk(redzone, f'.chain, f.live[i]);
    }
    forall i, j | 0 <= i < j < |live| ensures LiveApart(redzone, live[i], live[j]) {
      if j < |f.live| {
        assert LiveApart(redzone, f.live[i], f.live[j]);
      } else {
        CarvedApart(redzone, f.chain, total, f.live, l, i);
      }
    }
    assert f.chain == Front(f.chain) + [Last(f.chain)];
    ConsumedAppended(Front(f.chain), Last(f.chain));
    ConsumedAppended(Front(f.chain), Last(f'.chain));
    ClaimConcat(redzone, f.live, [l]);
    ClaimSingle(redzone, l);
  }

  lemma BumpKeepsGrew(base: seq<Block>, chain: seq<Block>, total: nat)
    requires ChainGrew(base, chain) && chain != []
    ensures ChainGrew(base, BumpedChain(chain, total))
  {
    var bumped := BumpedChain(chain, total);
    assert bumped[..|chain| - 1] == chain[..|chain| - 1];
    if base != [] {
      assert bumped[..|base| - 1] == chain[..|base| - 1];
    }
  }

  lemma BumpKeepsExtends(redzone: nat, base: Frame, f: Frame, total: nat, l: Live)
    requires Extends(redzone, base, f) && Carved(redzone, f.chain, total, l)
    ensures Extends(redzone, base, BumpFrame(f, total, l))
  {
    hide ChainGrew, Carved, Above, BumpedChain, Claim;
    NewestIsAbove(redzone, base.chain, f.chain, total, l);
    BumpKeepsGrew(base.chain, f.chain, total);
    var f', n := BumpFrame(f, total, l), |base.live|;
    assert f'.live[n..] == f.live[n..] + [l];
    ClaimConcat(redzone, f.live[n..], [l]);
    ClaimSingle(redzone, l);
    forall i | n <= i < |f'.live| ensures Above(base.chain, f'.live[i]) {
      assert i < |f.live| ==> Above(base.chain, f.live[i]);
    }
  }

  lemma NewestIsAbove(redzone: nat, base: seq<Block>, chain: seq<Block>, total: nat, l: Live)
    requires ChainGrew(base, chain) && Carved(redzone, chain, total, l)
    ensures Above(base, l) && l.size + redzone <= total && chain != []
  {
  }

  // ----- entering a block -----

  lemma EnterKeepsFrame(redzone: nat, f: Frame, block: Block)
    requires FrameOk(redzone, f) && block.used == 0
    ensures FrameOk(redzone, f.(chain := f.chain + [block]))
  {
    ConsumedAppended(f.chain, block);
    forall i | 0 <= i < |f.live| ensures LiveOk(redzone, f.chain + [block], f.live[i]) {
      assert LiveOk(redzone, f.chain, f.live[i]);
    }
  }

  lemma EnterKeepsExtends(redzone: nat, base: Frame, f: Frame, block: Block)
    requires Extends(redzone, base, f)
    ensures Extends(redzone, base, f.(chain := f.chain + [block]))
  {
    if base.chain != [] {
      assert (f.chain + [block])[..|base.chain| - 1] == f.chain[..|base.chain| - 1];
    }
  }

  // ----- the most recent allocation -----

  // The allocation at index i ends at the cursor of the newest block.
  ghost predicate IsNewest(redzone: nat, f: Frame, i: nat) {
    && i < |f.live| && f.chain != []
    && f.live[i].home == |f.chain| - 1
    && f.live[i].ptr + f.live[i].size + redzone == Last(f.chain).Cursor()
  }

  // Only one allocation can end there, and every other one in that block ends
  // at or before it begins.
  lemma OthersEndBefore(redzone: nat, f: Frame, i: nat, j: nat)
    requires FrameOk(redzone, f) && IsNewest(redzone, f, i) && j < |f.live| && j != i
    requires f.live[j].home == f.live[i].home
    ensures f.live[j].ptr + f.live[j].size + redzone <= f.live[i].ptr
  {
    assert LiveOk(redzone, f.chain, f.live[j]) && LiveOk(redzone, f.chain, f.live[i]);
    if i < j {
      assert LiveApart(redzone, f.live[i], f.live[j]);
    } else {
      assert LiveApart(redzone, f.live[j], f.live[i]);
    }
  }

  lemma OthersSurvive(redzone: nat, f: Frame, i: nat, j: nat, used: nat)
    requires FrameOk(redzone, f) && IsNewest(redzone, f, i) && j < |f.live| && j != i
    requires f.live[i].ptr <= Last(f.chain).Data() + used
    ensures LiveOk(redzone, WithNewestUsed(f.chain, used), f.live[j])
  {
    assert LiveOk(redzone, f.chain, f.live[j]);
    if f.live[j].home == f.live[i].home {
      OthersEndBefore(redzone, f, i, j);
    }
  }

  // Its pointer lies in that block only.
  lemma LastAllocIsNewest(redzone: nat, f: Frame, i: nat)
    requires FrameOk(redzone, f) && ChainOk(f.chain) && i < |f.live| && f.chain != []
    requires Last(f.chain).Data() <= f.live[i].ptr
    requires f.live[i].ptr + f.live[i].size + redzone == Last(f.chain).Cursor()
    ensures IsNewest(redzone, f, i)
  {
    var l, newest := f.live[i], |f.chain| - 1;
    assert LiveOk(redzone, f.chain, l);
    if l.home != newest {
      OtherBlocksApart(redzone, f.chain, l, l.(home := newest));
    }
  }

  // Resized in place: the cursor follows the end of the allocation.
  function ResizeFrame(f: Frame, i: nat, newSize: nat): Frame
    requires i < |f.live| && f.chain != [] && 0 <= Last(f.chain).used + newSize - f.live[i].size
  {
    var change := newSize - f.live[i].size;
    Frame(WithNewestUsed(f.chain, Last(f.chain).used + change), f.used + change,
          f.live[i := f.live[i].(size := newSize)], f.dropped)
  }

  lemma ConsumedChanged(chain: seq<Block>, used: nat)
    requires chain != []
    ensures Consumed(WithNewestUsed(chain, used)) == Consumed(chain) - Last(chain).used + used
  {
    assert chain == Front(chain) + [Last(chain)];
    ConsumedAppended(Front(chain), Last(chain));
    ConsumedAppended(Front(chain), Last(chain).(used := used));
  }

  lemma NewestFits(redzone: nat, f: Frame, i: nat)
    requires FrameOk(redzone, f) && IsNewest(redzone, f, i)
    ensures f.live[i].size + redzone <= Last(f.chain).used && Last(f.chain).Data() <= f.live[i].ptr
  {
    assert LiveOk(redzone, f.chain, f.live[i]);
  }

  ghost predicate CanResize(redzone: nat, f: Frame, i: nat, newSize: nat) {
    && IsNewest(redzone, f, i) && 0 < newSize
    && 0 <= Last(f.chain).used + newSize - f.live[i].size <= Last(f.chain).cap
  }

  lemma ResizedLive(redzone: nat, f: Frame, i: nat, newSize: nat)
    requires FrameOk(redzone, f) && CanResize(redzone, f, i, newSize)
    ensures var f' := ResizeFrame(f, i, newSize); AllLive(redzone, f'.chain, f'.live)
  {
    NewestFits(redzone, f, i);
    var f', used := ResizeFrame(f, i, newSize), Last(f.chain).used + newSize - f.live[i].size;
    forall j | 0 <= j < |f'.live| ensures LiveOk(redzone, f'.chain, f'.live[j]) {
      if j == i {
        assert LiveOk(redzone, f.chain, f.live[i]);
      } else {
        OthersSurvive(redzone, f, i, j, used);
      }
    }
  }

  lemma ResizedApart(redzone: nat, f: Frame, i: nat, newSize: nat, j: nat)
    requires FrameOk(redzone, f) && ChainOk(f.chain) && CanResize(redzone, f, i, newSize)
    requires j < |f.live| && j != i
    ensures var l := f.live[i].(size := newSize);
            LiveApart(redzone, f.live[j], l) && LiveApart(redzone, l, f.live[j])
  {
    var f' := ResizeFrame(f, i, newSize);
    if f.live[j].home == f.live[i].home {
      OthersEndBefore(redzone, f, i, j);
    } else {
      ResizedLive(redzone, f, i, newSize);
      NewestUsedChainOk(f.chain, Last(f'.chain).used);
      assert LiveOk(redzone, f'.chain, f'.live[i]) && LiveOk(redzone, f'.chain, f'.live[j]);
      OtherBlocksApart(redzone, f'.chain, f'.live[i], f'.live[j]);
    }
  }

  lemma ResizeKeepsFrame(redzone: nat, f: Frame, i: nat, newSize: nat)
    requires FrameOk(redzone, f) && ChainOk(f.chain) && CanResize(redzone, f, i, newSize)
    ensures FrameOk(redzone, ResizeFrame(f, i, newSize))
  {
    hide ChainOk;
    var f' := ResizeFrame(f, i, newSize);
    ResizedLive(redzone, f, i, newSize);
    forall j, k | 0 <= j < k < |f'.live| ensures LiveApart(redzone, f'.live[j], f'.live[k]) {
      if j == i {
        ResizedApart(redzone, f, i, newSize, k);
      } else if k == i {
        ResizedApart(redzone, f, i, newSize, j);
      } else {
        assert LiveApart(redzone, f.live[j], f.live[k]);
      }
    }
    ConsumedChanged(f.chain, Last(f.chain).used + newSize - f.live[i].size);
    ClaimUpdated(redzone, f.live, i, f.live[i].(size := newSize));
  }

  // The newest block of a chain may change its cursor as long as it stays at
  // or above the snapshot's.
  lemma NewestUsedKeepsGrew(base: seq<Block>, chain: seq<Block>, used: nat)
    requires ChainGrew(base, chain) && chain != []
    requires |base| == |chain| ==> Last(base).used <= used
    ensures ChainGrew(base, WithNewestUsed(chain, used))
  {
    var changed := WithNewestUsed(chain, used);
    if base != [] {
      assert changed[..|base| - 1] == chain[..|base| - 1];
    }
  }

  // The newest allocation, made above the snapshot, starts above its cursor.
  lemma NewestAboveSnapshot(redzone: nat, base: Frame, f: Frame, i: nat)
    requires FrameOk(redzone, f) && Extends(redzone, base, f)
    requires IsNewest(redzone, f, i) && |base.live| <= i
    ensures |base.chain| == |f.chain| ==>
              Last(base.chain).used <= f.live[i].ptr - Last(f.chain).Data()
  {
    assert Above(base.chain, f.live[i]);
  }

  lemma ClaimFromUpdated(redzone: nat, live: seq<Live>, n: nat, i: nat, l: Live)
    requires n <= i < |live|
    ensures Claim(redzone, live[i := l][n..]) + live[i].size == Claim(redzone, live[n..]) + l.size
  {
    assert live[i := l][n..] == live[n..][i - n := l];
    ClaimUpdated(redzone, live[n..], i - n, l);
  }

  lemma ResizeKeepsExtends(redzone: nat, base: Frame, f: Frame, i: nat, newSize: nat)
    requires FrameOk(redzone, f) && Extends(redzone, base, f)
    requires CanResize(redzone, f, i, newSize) && |base.live| <= i
    ensures Extends(redzone, base, ResizeFrame(f, i, newSize))
  {
    hide ChainGrew;
    var f', l := ResizeFrame(f, i, newSize), f.live[i].(size := newSize);
    NewestFits(redzone, f, i);
    NewestAboveSnapshot(redzone, base, f, i);
    NewestUsedKeepsGrew(base.chain, f.chain, Last(f'.chain).used);
    ClaimFromUpdated(redzone, f.live, |base.live|, i, l);
    forall j | |base.live| <= j < |f'.live| ensures Above(base.chain, f'.live[j]) {
      assert Above(base.chain, f.live[j]);
    }
  }

  // ----- freeing -----

  // Rolled back when it is the newest, otherwise only forgotten.
  function FreeFrame(redzone: nat, f: Frame, i: nat, isLast: bool): Frame
    requires i < |f.live| && (isLast ==> f.chain != [] && Last(f.chain).Data() <= f.live[i].ptr)
  {
    var live := Removed(f.live, i);
    if isLast then
      Frame(WithNewestUsed(f.chain, f.live[i].ptr - Last(f.chain).Data()),
            f.used - (f.live[i].size + redzone), live, f.dropped)
    else f.(live := live)
  }

  lemma RemovedAll(redzone: nat, chain: seq<Block>, chain': seq<Block>, live: seq<Live>, i: nat)
    requires i < |live| && AllLiveApart(redzone, live)
    requires forall j :: 0 <= j < |live| && j != i ==> LiveOk(redzone, chain', live[j])
    ensures AllLive(redzone, chain', Removed(live, i)) && AllLiveApart(redzone, Removed(live, i))
  {
    var rest := Removed(live, i);
    forall j, k | 0 <= j < k < |rest| ensures LiveApart(redzone, rest[j], rest[k]) {
      var j', k' := if j < i then j else j + 1, if k < i then k else k + 1;
      assert LiveApart(redzone, live[j'], live[k']);
    }
    forall j | 0 <= j < |rest| ensures LiveOk(redzone, chain', rest[j]) {
      assert rest[j] == live[if j < i then j else j + 1];
    }
  }

  lemma FreeKeepsFrame(redzone: nat, f: Frame, i: nat, isLast: bool)
    requires FrameOk(redzone, f) && i < |f.live| && (isLast ==> IsNewest(redzone, f, i))
    ensures isLast ==> Last(f.chain).Data() <= f.live[i].ptr
    ensures FrameOk(redzone, FreeFrame(redzone, f, i, isLast))
  {
    ClaimRemoved(redzone, f.live, i);
    if isLast {
      NewestFits(redzone, f, i);
      var used := f.live[i].ptr - Last(f.chain).Data();
      forall j | 0 <= j < |f.live| && j != i ensures LiveOk(redzone, WithNewestUsed(f.chain, used), f.live[j]) {
        OthersSurvive(redzone, f, i, j, used);
      }
      RemovedAll(redzone, f.chain, WithNewestUsed(f.chain, used), f.live, i);
      ConsumedChanged(f.chain, used);
    } else {
      RemovedAll(redzone, f.chain, f.chain, f.live, i);
    }
  }

  lemma ClaimFromRemoved(redzone: nat, live: seq<Live>, n: nat, i: nat)
    requires n <= i < |live|
    ensures Claim(redzone, Removed(live, i)[n..]) + live[i].size + redzone == Claim(redzone, live[n..])
  {
    assert Removed(live, i)[n..] == Removed(live[n..], i - n);
    ClaimRemoved(redzone, live[n..], i - n);
  }

  lemma FreeKeepsExtends(redzone: nat, base: Frame, f: Frame, i: nat, isLast: bool)
    requires FrameOk(redzone, f) && Extends(redzone, base, f)
    requires |base.live| <= i < |f.live|
    requires isLast ==> IsNewest(redzone, f, i) && Last(f.chain).Data() <= f.live[i].ptr
    ensures Extends(redzone, base, FreeFrame(redzone, f, i, isLast))
  {
    hide ChainGrew, Above, FrameOk, Claim;
    var live := Removed(f.live, i);
    ClaimFromRemoved(redzone, f.live, |base.live|, i);
    forall j | |base.live| <= j < |live| ensures Above(base.chain, live[j]) {
      assert live[j] == f.live[if j < i then j else j + 1];
    }
    if isLast {
      NewestAboveSnapshot(redzone, base, f, i);
      NewestUsedKeepsGrew(base.chain, f.chain, f.live[i].ptr - Last(f.chain).Data());
    }
  }

  // ----- abandoning a moved source -----

  // The last live entry is the copy of the one at index i; it takes its place.
  function AbandonFrame(f: Frame, i: nat): Frame
    requires i < |f.live| - 1
  {
    Frame(f.chain, f.used - f.live[i].size, Front(f.live)[i := Last(f.live)], f.dropped + [f.live[i].size])
  }

  lemma AbandonKeepsFrame(redzone: nat, f: Frame, i: nat)
    requires FrameOk(redzone, f) && i < |f.live| - 1
    ensures FrameOk(redzone, AbandonFrame(f, i))
  {
    var live, rest, copy := AbandonFrame(f, i).live, Front(f.live), Last(f.live);
    assert f.live == rest + [copy];
    ClaimConcat(redzone, rest, [copy]);
    ClaimSingle(redzone, copy);
    ClaimUpdated(redzone, rest, i, copy);
    SumAppended(f.dropped, f.live[i].size);
    forall j | 0 <= j < |live| ensures LiveOk(redzone, f.chain, live[j]) {
      assert LiveOk(redzone, f.chain, f.live[if j == i then |live| else j]);
    }
    forall j, k | 0 <= j < k < |live| ensures LiveApart(redzone, live[j], live[k]) {
      assert LiveApart(redzone, f.live[j], f.live[k]);
      assert LiveApart(redzone, f.live[j], f.live[|live|]) && LiveApart(redzone, f.live[k], f.live[|live|]);
    }
  }

  lemma AbandonKeepsExtends(redzone: nat, base: Frame, f: Frame, i: nat)
    requires Extends(redzone, base, f) && |base.live| <= i < |f.live| - 1
    ensures Extends(redzone, base, AbandonFrame(f, i))
  {
    var live, rest, copy, n := AbandonFrame(f, i).live, Front(f.live), Last(f.live), |base.live|;
    assert f.live[n..] == rest[n..] + [copy];
    ClaimConcat(redzone, rest[n..], [copy]);
    ClaimSingle(redzone, copy);
    ClaimFromUpdated(redzone, rest, n, i, copy);
    forall j | n <= j < |live| ensures Above(base.chain, live[j]) {
      assert Above(base.chain, f.live[if j == i then |live| else j]);
    }
  }

  // ----- scopes -----

  lemma ExtendsItself(redzone: nat, f: Frame)
    ensures Extends(redzone, f, f)
  {
    assert f.live[|f.live|..] == [];
  }
}
