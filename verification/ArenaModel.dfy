// The arena as a value, and each operation as a function on it. Block chains
// are listed oldest first; the link of a block is its predecessor. Addresses
// are numbers and 0 is NULL.
module ArenaModel {
  import opened Arithmetic
  import opened Machine
  import opened WordBits

  const NULL: nat := 0
  const HEADER: nat := 32          // ARENA_BLOCK_HDR on an LP64 target
  const FIXED_OVERHEAD: nat := 64
  const DEFAULT_ALIGN: nat := 16   // alignof(max_align_t)
  const ASAN_REDZONE: nat := 16
  const ASAN_ALIGN_FLOOR: nat := 8
  const BLOCK_ALIGN: nat := 8      // alignof(struct arena_block)
  const MIN_BLOCK_DEFAULT: nat := 4096
  const MAX_BLOCK_DEFAULT: nat := 65536

  datatype Status = Ok | ErrArg | ErrAlloc | ErrOverflow

  datatype Block = Block(addr: nat, cap: nat, used: nat, oversize: bool) {
    function Data(): nat { addr + HEADER }
    function Cursor(): nat { addr + HEADER + used }
    function Bytes(): nat { HEADER + cap }
    function End(): nat { addr + HEADER + cap }
    function Blank(): Block { this.(used := 0) }
  }

  // One call to the parent allocator; a reply of NULL is a refusal.
  datatype Call = Acquire(size: nat, reply: nat) | Release(addr: nat, size: nat)

  datatype Arena = Arena(
    redzone: nat,
    fixed: bool,
    chain: seq<Block>,
    free: seq<Block>,
    minBlock: nat, maxBlock: nat, nextBlock: nat,
    used: int, committed: int, highWater: int,
    depth: nat, generation: nat,
    status: Status)

  // What an operation leaves: the arena, the pointer it returned, and its
  // calls to the parent in order.
  datatype Outcome = Outcome(arena: Arena, ptr: nat, calls: seq<Call>)

  function Last<T>(s: seq<T>): T
    requires s != []
  {
    s[|s| - 1]
  }

  function Front<T>(s: seq<T>): seq<T>
    requires s != []
  {
    s[..|s| - 1]
  }

  function Times(a: nat, b: nat): nat { a * b }

  // The first failure sticks.
  function Fail(a: Arena, status: Status): Outcome {
    Outcome(if a.status == Ok then a.(status := status) else a, NULL, [])
  }

  // ----- allocation -----

  function EffectiveAlign(redzone: nat, align: nat): (r: nat)
    ensures 0 < r
  {
    var wanted := if align == 0 then DEFAULT_ALIGN else align;
    if redzone > 0 && wanted < ASAN_ALIGN_FLOOR then ASAN_ALIGN_FLOOR else wanted
  }

  function WithLastUsed(a: Arena, used: nat): Arena
    requires a.chain != []
  {
    a.(chain := Front(a.chain) + [Last(a.chain).(used := used)])
  }

  // Serve from the current block, or NULL without effect.
  function Bump(a: Arena, size: nat, align: nat): Outcome
    requires 0 < align
  {
    if a.chain == [] then Outcome(a, NULL, [])
    else
      var block := Last(a.chain);
      var pad := Padding(block.Cursor(), align);
      var total := pad + size + a.redzone;
      if total > block.cap - block.used then Outcome(a, NULL, [])
      else
        var bumped := WithLastUsed(a, block.used + total);
        Outcome(bumped.(used := a.used + total, highWater := Max(a.highWater, a.used + total)),
                block.Cursor() + pad, [])
  }

  // Index of the first block that fits, or the length of the list.
  function FirstFit(free: seq<Block>, need: nat): (i: nat)
    ensures i <= |free|
  {
    if free == [] || free[0].cap >= need then 0 else 1 + FirstFit(free[1..], need)
  }

  function Enter(a: Arena, block: Block): Arena {
    a.(chain := a.chain + [block])
  }

  function WithoutFree(a: Arena, i: nat): Arena
    requires i < |a.free|
  {
    a.(free := a.free[..i] + a.free[i + 1..])
  }

  function RequestSize(a: Arena, need: nat): nat {
    if HEADER + need <= a.nextBlock then a.nextBlock else HEADER + need
  }

  function NewBlock(a: Arena, need: nat, reply: nat): Block {
    var size := RequestSize(a, need);
    Block(reply, if HEADER <= size then size - HEADER else 0, 0, size != a.nextBlock)
  }

  // Account for a block just acquired; a normal one doubles the next size.
  function Acquired(a: Arena, block: Block, size: nat): Arena {
    a.(committed := a.committed + size,
       nextBlock := if block.oversize then a.nextBlock
                    else if a.nextBlock * 2 > a.maxBlock then a.maxBlock else a.nextBlock * 2)
  }

  function WorstCase(a: Arena, size: nat, align: nat): nat
    requires 0 < align
  {
    size + (align - 1) + a.redzone
  }

  // Acquire capacity, from the free list or the parent, and bump.
  function GrowAndBump(a: Arena, size: nat, align: nat, reply: nat): Outcome
    requires 0 < align
  {
    var need := WorstCase(a, size, align);
    var i := FirstFit(a.free, need);
    if a.fixed then Fail(a, ErrAlloc)
    else if need > PTRDIFF_MAX - HEADER then Fail(a, ErrOverflow)
    else if i < |a.free| then Bump(Enter(WithoutFree(a, i), a.free[i]), size, align)
    else
      var request := RequestSize(a, need);
      if reply == NULL then Fail(a, ErrAlloc).(calls := [Acquire(request, NULL)])
      else
        var block := NewBlock(a, need, reply);
        Bump(Enter(Acquired(a, block, request), block), size, align).(calls := [Acquire(request, reply)])
  }

  function AllocCore(a: Arena, size: nat, align: nat, reply: nat): Outcome
    requires 0 < align
  {
    var served := Bump(a, size, align);
    if served.ptr != NULL then served else GrowAndBump(a, size, align, reply)
  }

  // arena_alloc_n; arena_alloc(size) is the case count 1, align 0.
  function AllocN(a: Arena, count: Size, size: Size, align: Size, reply: nat): Outcome {
    if a.status != Ok then Outcome(a, NULL, [])
    else if !AlignValid(align) then Fail(a, ErrArg)
    else if count == 0 || size == 0 then Outcome(a, NULL, [])
    else match CheckedProduct(count, size)
      case TooBig => Fail(a, ErrOverflow)
      case Fits(total) => AllocCore(a, total, EffectiveAlign(a.redzone, align), reply)
  }

  // ----- resizing and rollback -----

  // ptr is the most recent allocation: it ends, redzone included, at the cursor.
  predicate IsLastAlloc(a: Arena, ptr: nat, size: nat) {
    && a.chain != []
    && var block := Last(a.chain);
    && size <= block.used
    && block.Data() <= ptr <= block.Data() + block.cap
    && ptr - block.Data() + size + a.redzone == block.used
  }

  // In place, or NULL without effect when the move path must run.
  function ResizeLast(a: Arena, ptr: nat, oldSize: nat, newSize: nat): Outcome {
    if !IsLastAlloc(a, ptr, oldSize) then Outcome(a, NULL, [])
    else
      var block := Last(a.chain);
      var change := newSize - oldSize;
      if change > block.cap - block.used then Outcome(a, NULL, [])
      else Outcome(WithLastUsed(a, block.used + change).(
                     used := a.used + change,
                     highWater := if 0 < change then Max(a.highWater, a.used + change) else a.highWater),
                   ptr, [])
  }

  function ReallocMove(a: Arena, oldSize: nat, newSize: Size, align: Size, reply: nat): Outcome {
    var moved := AllocN(a, 1, newSize, align, reply);
    if moved.ptr == NULL then moved
    else moved.(arena := moved.arena.(used := moved.arena.used - oldSize))
  }

  function Realloc(a: Arena, ptr: nat, oldSize: nat, newSize: Size, align: Size, reply: nat): Outcome {
    if a.status != Ok then Outcome(a, NULL, [])
    else if !AlignValid(align) then Fail(a, ErrArg)
    else if newSize == 0 then Fail(a, ErrArg)
    else if ptr == NULL then AllocN(a, 1, newSize, align, reply)
    else if newSize > PTRDIFF_MAX then Fail(a, ErrOverflow)
    else
      var resized := ResizeLast(a, ptr, oldSize, newSize);
      if resized.ptr != NULL then resized else ReallocMove(a, oldSize, newSize, align, reply)
  }

  // The adapter's free: roll back the most recent allocation, else nothing.
  function AdapterFree(a: Arena, ptr: nat, size: nat): Arena {
    if ptr == NULL || !IsLastAlloc(a, ptr, size) then a
    else WithLastUsed(a, ptr - Last(a.chain).Data()).(used := a.used - (size + a.redzone))
  }

  // ----- scopes, reset, trim, deinit -----

  // A snapshot: the current block's address, its cursor, and the counters.
  datatype Temp = Temp(block: nat, blockUsed: nat, used: int, generation: nat, depth: nat)

  function TempBegin(a: Arena): (Arena, Temp) {
    var entered := a.(depth := (a.depth + 1) % (UINT_MAX + 1));
    if a.chain == [] then (entered, Temp(NULL, 0, a.used, a.generation, entered.depth))
    else (entered, Temp(Last(a.chain).addr, Last(a.chain).used, a.used, a.generation, entered.depth))
  }

  function ReleaseBlock(a: Arena, block: Block): Arena {
    a.(committed := a.committed - block.Bytes())
  }

  // Take the newest block off the chain: an oversize one goes back to the
  // parent, a normal one is emptied and heads the free list.
  function PopLast(a: Arena): Outcome
    requires a.chain != []
  {
    var block := Last(a.chain);
    var popped := a.(chain := Front(a.chain));
    if block.oversize then Outcome(ReleaseBlock(popped, block), NULL, [Release(block.addr, block.Bytes())])
    else Outcome(popped.(free := [block.Blank()] + a.free), NULL, [])
  }

  function PopToBlock(a: Arena, stop: nat): Outcome
    decreases |a.chain|
  {
    if a.chain == [] || Last(a.chain).addr == stop then Outcome(a, NULL, [])
    else
      var popped := PopLast(a);
      var rest := PopToBlock(popped.arena, stop);
      rest.(calls := popped.calls + rest.calls)
  }

  function TempEnd(a: Arena, temp: Temp): Outcome {
    var popped := PopToBlock(a, temp.block);
    var b := popped.arena;
    var rewound := if b.chain != [] && Last(b.chain).used > temp.blockUsed
                   then WithLastUsed(b, temp.blockUsed) else b;
    popped.(arena := rewound.(used := if b.used > temp.used then temp.used else b.used,
                              depth := if b.depth > 0 then b.depth - 1 else 0))
  }

  // Position of the oldest normal block, or the length of the chain.
  function OldestNormal(chain: seq<Block>): (i: nat)
    ensures i <= |chain|
    ensures i < |chain| ==> !chain[i].oversize
  {
    if chain == [] || !chain[0].oversize then 0 else 1 + OldestNormal(chain[1..])
  }

  // Pop every block but the one at position keep, newest first.
  function PopAllBut(a: Arena, keep: nat): Outcome
    decreases |a.chain|
  {
    if a.chain == [] then Outcome(a, NULL, [])
    else if |a.chain| - 1 == keep then PopAllBut(a.(chain := Front(a.chain)), keep)
    else
      var popped := PopLast(a);
      var rest := PopAllBut(popped.arena, keep);
      rest.(calls := popped.calls + rest.calls)
  }

  function Reset(a: Arena): Outcome {
    var keep := OldestNormal(a.chain);
    var popped := if a.fixed then Outcome(a, NULL, []) else PopAllBut(a, keep);
    var kept := if a.fixed then if a.chain == [] then [] else [Last(a.chain).Blank()]
                else if keep < |a.chain| then [a.chain[keep].Blank()] else [];
    popped.(arena := popped.arena.(chain := kept, used := 0, depth := 0,
                                   generation := (a.generation + 1) % (UINT_MAX + 1), status := Ok))
  }

  // Give every block of a list back, in order.
  function ReleaseAll(a: Arena, blocks: seq<Block>): Outcome
    decreases |blocks|
  {
    if blocks == [] then Outcome(a, NULL, [])
    else
      var rest := ReleaseAll(ReleaseBlock(a, blocks[0]), blocks[1..]);
      rest.(calls := [Release(blocks[0].addr, blocks[0].Bytes())] + rest.calls)
  }

  function Trim(a: Arena): Outcome {
    if a.fixed then Outcome(a, NULL, [])
    else
      var released := ReleaseAll(a, a.free);
      released.(arena := released.arena.(free := []))
  }

  function ClearError(a: Arena): Arena {
    a.(status := Ok)
  }

  function Reverse<T>(s: seq<T>): (r: seq<T>)
    ensures |r| == |s|
  {
    if s == [] then [] else [Last(s)] + Reverse(Front(s))
  }

  function Init(redzone: nat): Arena {
    Arena(redzone, false, [], [], MIN_BLOCK_DEFAULT, MAX_BLOCK_DEFAULT, MIN_BLOCK_DEFAULT, 0, 0, 0, 0, 0, Ok)
  }

  function Deinit(a: Arena): Outcome {
    var calls := if a.fixed then []
                 else ReleaseAll(a, Reverse(a.chain)).calls + ReleaseAll(a, a.free).calls;
    Outcome(Init(a.redzone).(generation := (a.generation + 1) % (UINT_MAX + 1)), NULL, calls)
  }

  function InitSized(redzone: nat, minBlock: Size, maxBlock: Size): Arena {
    if minBlock < FIXED_OVERHEAD || minBlock > maxBlock || maxBlock > PTRDIFF_MAX
    then Init(redzone).(status := ErrArg)
    else Init(redzone).(minBlock := minBlock, maxBlock := maxBlock, nextBlock := minBlock)
  }

  // buffer is the caller's storage [buffer, buffer + size).
  function InitFixed(redzone: nat, buffer: nat, size: Size): Arena {
    var empty := Init(redzone).(fixed := true, minBlock := 0, maxBlock := 0, nextBlock := 0);
    if buffer == NULL || size == 0 then empty.(status := ErrArg)
    else if size > PTRDIFF_MAX then empty.(status := ErrOverflow)
    else
      var pad := Padding(buffer, BLOCK_ALIGN);
      if size < pad || size - pad < HEADER then empty.(committed := size)
      else empty.(committed := size, chain := [Block(buffer + pad, size - pad - HEADER, 0, false)])
  }
}
