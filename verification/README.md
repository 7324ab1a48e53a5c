# Verification model of agenc-str and agenc-arena

A Dafny 4.11 model of the two C libraries whose hard properties no finite set
of examples settles: the owned byte string with its linear-time substring
search (`agenc-str`), and the region allocator (`agenc-arena`). `dafny verify
dfyconfig.toml` checks all of it.

## What is modelled

**Substring search** (`Words`, `SuffixWalk`, `TwoWay`). The Crochemore-Perrin
Two-Way search as the code runs it: a walk under each byte order finds the
greatest suffix, the later cut becomes the critical factor, and a scan shifts
by mismatch or by period with a remembered prefix. `SuffixWalk` and
`SearchState` are classes whose fields the steps update. The search is proved
equal to the tests' naive scan for every haystack and needle. The critical
factorization theorem is proved here from first principles, for the cut the
code takes. Comparison counters are ghost.

**The string** (`StrBuffer`, `Capacity`, `Split`). `Str` is a class over a byte
array with length, capacity and sticky status. A source is an array and an
offset, so it may be the string's own buffer. Each public mutator is proved to
splice the old content with the bytes the source held before the call, or to
record an exactly stated error and leave buffer, length and capacity alone.
Sizes are `size_t` values; a computation stored in one is proved not to wrap.

**The arena, as a value** (`ArenaModel` and the files named below). `ArenaModel`
gives every operation as a function from a state and the parent's reply to a
state, a pointer and the parent calls made. `ArenaSound` proves conservation
with the parent. `ArenaFrames`, `ArenaAlloc` and `ArenaScopes` carry live
allocations and snapshots. `ArenaRuns` quantifies over every legal run: any
operations in any order, any replies, nested scopes, errors, reset and deinit.
`ArenaProgress` shows that legal runs never get stuck. `ArenaService` says which
requests are served, where and from what, and `ArenaGrowth` what the parent is
asked for; both speak of addresses, capacities and calls only. `ArenaSafety`,
`ArenaStatistics`, `ArenaReplay` and `ArenaShadow` say what runs guarantee. The
parent is an adversary: it may refuse any request, and promises only that a range
it hands out lies in the address space and meets nothing outstanding.

**The arena, in place** (`BlockLists`, `Arena`, `ArenaSession`). The same
operations on block objects linked through `link`, with the loops and field
updates of the code. Each method is proved to make the abstract value of the objects exactly what
the function of `ArenaModel` says, and to log exactly its parent calls. A ghost
out-parameter `reply` names what the parent answered. Valid arenas have acyclic,
disjoint lists. `ArenaSession` is a client holding pointers and scope snapshots;
it shows that any calls the header allows, made on these objects, are a legal
run, so the theorems about runs are theorems about the objects.

Constants are those of an LP64 target: 32-byte block headers, 16-byte default
alignment, 64-bit `size_t`, 32-bit `unsigned`. `ARENA_REDZONE` is a parameter,
0 or 16. Addresses are numbers and 0 is NULL. Runs that break the header's
contract (stale scopes, resizing or freeing an older allocation inside a scope,
a wrong old size) are excluded by `CallerOk` or by preconditions.

Growth by doubling has an exact boundary. Counting a relocation for every
enlargement, n single-byte appends move fewer than 2n bytes up to half the
address space. Past it the growth loop falls back to the exact need, and every
further byte would move the whole string; `Capacity.AppendsAreLinearUpToHalf`
gives the condition, and `StrBuffer.AppendEach` carries it to the string.

## Model

| member | source | states |
|---|---|---|
| `Words.CriticalFactorization` | agenc-str/src/str.c:2430-2442 | the critical factorization theorem at the larger of the two maximal-suffix cuts: every local repetition there is a period of the whole needle and longer than the cut |
| `Words.CriticalCut` | agenc-str/src/str.c:2430-2442 | the smallest local repetition at that cut equals the needle's smallest period, in both directions, and the cut is below the period |
| `Words.PeriodTestMeaning` | agenc-str/src/str.c:2444-2466 | the periodicity test holds exactly when the factor's period is the smallest period of the needle; when it fails, every period exceeds both sides of the cut, so the fallback shift is below the smallest period |
| `Words.LocalRepetitionOverflowsLeft` | agenc-str/src/str.c:2430-2442 | at a maximal-suffix cut no local repetition fits left of the cut |
| `Words.SquareOverLeft` | agenc-str/src/str.c:2430-2442 | a local repetition that overflows the left side at the larger cut is a period: the step that needs both byte orders |
| `SuffixWalks.NextKeepsInvariant` | agenc-str/src/str.c:2360-2383 | one comparison of the walk keeps its invariant: every start left of the challenger has lost, the stretch read so far is periodic, and no shorter shift is a period of it |
| `SuffixWalks.ChallengerLoses` | agenc-str/src/str.c:2360-2383 | when the challenger's byte ranks below, all starts in the stretch just read lose to the cut at once |
| `SuffixWalks.ChallengerWins` | agenc-str/src/str.c:2360-2383 | when the challenger's byte ranks above, every earlier start is beaten by the challenger |
| `SuffixWalks.FinishedWalk` | agenc-str/src/str.c:2407-2428 | a walk that has read the whole needle stands at its greatest suffix and at that suffix's smallest period |
| `SuffixWalks.SuffixWalk.Step` | agenc-str/src/str.c:2360-2383 | the in-place update of offset, candidate and factor is the position's transition, and costs one comparison |
| `SuffixWalks.SuffixWalk.RunPass` | agenc-str/src/str.c:2385-2405 | one pass of |needle| steps either completes or advances the walk by at least |needle| |
| `SuffixWalks.FindMaximalSuffix` | agenc-str/src/str.c:2407-2428 | returns the start of the greatest suffix under the chosen byte order and its smallest period, in fewer than 2|needle| comparisons; two passes always complete |
| `TwoWay.NaiveSearchMeaning` | agenc-str/tests/test_str.c:109-126 | the reference scan returns the first or last occurrence, or none exactly when there is none |
| `TwoWay.CriticalFactorIsCritical` | agenc-str/src/str.c:2430-2442 | the chosen factor is critical, and its cut is below the needle's smallest period |
| `TwoWay.FindCriticalFactor` | agenc-str/src/str.c:2430-2442 | runs both walks, takes the later cut, and returns that cut with its suffix's smallest period in fewer than 4|needle| comparisons |
| `TwoWay.MismatchShiftIsSafe` | agenc-str/src/str.c:2578-2589 | a mismatch in the right part lets the scan shift past it without skipping an occurrence |
| `TwoWay.FullShiftIsSafe` | agenc-str/src/str.c:2591-2607 | after a matched right part no occurrence lies within the next full shift |
| `TwoWay.RememberedPrefix` | agenc-str/src/str.c:2591-2607 | after a periodic shift the first n - period bytes already match, even when the left check failed, because the cut is below the period |
| `TwoWay.SkipAfterRightMatch` | agenc-str/src/str.c:2591-2607 | what remains of the naive scan is unchanged by the jump after a matched right part |
| `TwoWay.SearchState.ScanRight` | agenc-str/src/str.c:2468-2485 | finds the first mismatch of the right part, never reading a haystack position of the right part twice |
| `TwoWay.SearchState.HasLeftMatch` | agenc-str/src/str.c:2487-2505 | decides the left part beyond the remembered prefix |
| `TwoWay.SearchState.Advance` | agenc-str/src/str.c:2507-2517 | moves the candidate, or reports the end of the scan, without wrapping |
| `TwoWay.SearchState.Step` | agenc-str/src/str.c:2609-2621 | one round keeps the scan invariant and what remains of the naive scan |
| `TwoWay.SearchState.OnMismatch` | agenc-str/src/str.c:2578-2589 | the mismatch branch skips no occurrence and forgets the prefix |
| `TwoWay.SearchState.AfterRightMatch` | agenc-str/src/str.c:2591-2607 | the right-match branch records an occurrence exactly when there is one, and pays for its left check with its shift |
| `TwoWay.BuildSearchContext` | agenc-str/src/str.c:2555-2576 | the context holds a critical factor, the right shift and the right last index |
| `TwoWay.SearchTwoWay` | agenc-str/src/str.c:2535-2553 | equals the naive scan for every haystack and needle, in at most 2|haystack| + 5|needle| comparisons; the loop bound never cuts the scan short |
| `TwoWay.FindByte` | agenc-str/src/str.c:2623-2634 | the one-byte fast path equals the naive first scan, in at most |haystack| comparisons |
| `TwoWay.RfindByte` | agenc-str/src/str.c:2636-2649 | the backward one-byte path equals the naive last scan, in at most |haystack| comparisons |
| `TwoWay.SearchView` | agenc-str/src/str.c:2519-2533 | the dispatch by length equals the naive scan |
| `TwoWay.FindViewMatch` | agenc-str/src/str.c:2315-2336 | reports the naive answer, the argument error for an invalid view, or the overflow error in its one case, leaving the output alone on error |
| `WordBits.AlignValidMeaning` | agenc-arena/src/arena.c:696-702 | for every machine word the fused mask accepts exactly 0 and the powers of two up to 2^16 |
| `WordBits.PaddingIsLeast` | agenc-arena/src/arena.c:766-767 | negate-and-mask gives the least padding to an aligned address |
| `WordBits.CheckedProductMeaning` | agenc-arena/src/arena.c:891-904 | the division-free guard accepts exactly the products at most PTRDIFF_MAX, and then the wrapped product is the true one |
| `Capacity.GrowCapacity` | agenc-str/src/str.c:1636-1655 | the doubling loop returns within its step bound from any positive capacity, so its trailing overflow error is unreachable |
| `Capacity.ChosenCapacityBounds` | agenc-str/src/str.c:1657-1670 | a grown capacity covers the need and is 16 or below twice the need |
| `Capacity.ChooseCapacity` | agenc-str/src/str.c:1657-1670 | never fails, and returns the chosen capacity |
| `Capacity.AppendsMoveLinearly` | agenc-str/src/str.c:1901-1922 | growth that relocates on every enlargement, over n single-byte appends from empty, moves cap - 16 bytes and fewer than 2n while doubling is possible |
| `Capacity.ThenEveryAppendMovesAll` | agenc-str/src/str.c:1636-1655 | past half the address space the exact-need fallback enlarges on every append, so growth that relocates moves the whole string each time |
| `Capacity.AppendsAreLinearUpToHalf` | agenc-str/src/str.c:1901-1922 | with growth that relocates on every enlargement, n appends move fewer than 2n bytes if and only if n is at most half the address space; in-place growth can only move fewer |
| `StrBuffer.MoveBytes` | agenc-str/src/str.c:1595-1605 | memmove: the target receives the source's old bytes however the two overlap |
| `StrBuffer.Str.GrowHeap` | agenc-str/src/str.c:1672-1689 | growth refuses and changes nothing, or relocates and keeps the old bytes |
| `StrBuffer.Str.EnsureCapacity` | agenc-str/src/str.c:1691-1704 | covers the need or leaves the string untouched |
| `StrBuffer.Str.BeginMutation` | agenc-str/src/str.c:1373-1382 | a sticky status or a bad source is refused before anything changes |
| `StrBuffer.Str.PrepareWrite` | agenc-str/src/str.c:1813-1844 | after growth the returned source still reads the bytes it read before, even when it pointed into the moved buffer |
| `StrBuffer.Str.SetN` | agenc-str/src/str.c:679-687 | the content becomes the old source bytes, or the verdict's error is recorded and nothing else changes |
| `StrBuffer.Str.SetValidSpan` | agenc-str/src/str.c:1862-1880 | set after validation, self-sources included |
| `StrBuffer.Str.AppendN` | agenc-str/src/str.c:705-713 | the content becomes old content followed by old source bytes |
| `StrBuffer.Str.AppendValidSpan` | agenc-str/src/str.c:1882-1899 | append after validation, self-sources included |
| `StrBuffer.Str.AppendChar` | agenc-str/src/str.c:720-729 | appends one byte and grows exactly as the cost model says |
| `StrBuffer.AppendEach` | agenc-str/src/str.c:720-729 | bytes appended one by one to an empty string, up to a first failure, arrive in order, and what growth moved is the cost model: fewer than two bytes per byte appended exactly up to half the address space |
| `StrBuffer.Str.InsertN` | agenc-str/src/str.c:841-864 | the content becomes old[..idx] + old source bytes + old[idx..], for sources outside, inside, across the insertion point or including the terminator; the error cases are exact |
| `StrBuffer.Str.PrepareInsert` | agenc-str/src/str.c:1778-1811 | capacity is acquired before bytes move, and an inner source is rebased onto the moved buffer |
| `StrBuffer.Str.CommitInsert` | agenc-str/src/str.c:1976-1989 | opens the gap, then copies the source from where it is after the tail has moved |
| `StrBuffer.GapKeepsSource` | agenc-str/src/str.c:1956-1989 | when the tail has moved, a source that starts at or left of the gap still reads its old bytes in place, and one that starts past it reads them count further on |
| `StrBuffer.FilledGap` | agenc-str/src/str.c:2101-2119 | moving the tail and then filling the gap is a splice |
| `StrBuffer.Str.ReplaceView` | agenc-str/src/str.c:890-910 | the content becomes the splice of the old one, replacement bytes read before any write |
| `StrBuffer.Str.ReplaceEqualSpan` | agenc-str/src/str.c:2121-2139 | an equal-length replacement is done in place and needs no room |
| `StrBuffer.Str.ReplaceResizedSpan` | agenc-str/src/str.c:2149-2174 | a resizing replacement stages an overlapping source first |
| `StrBuffer.Str.StageReplacement` | agenc-str/src/str.c:2061-2091 | the staged copy holds the old replacement bytes, or allocation failed and nothing changed |
| `StrBuffer.Str.CommitReplacement` | agenc-str/src/str.c:2101-2119 | tail move and copy-in make the splice |
| `StrBuffer.Str.Remove` | agenc-str/src/str.c:871-888 | removes exactly the span, or reports a range error and changes nothing |
| `StrBuffer.Str.CloseGap` | agenc-str/src/str.c:1991-2002 | slides the tail and its terminator down |
| `StrBuffer.Str.Resize` | agenc-str/src/str.c:819-839 | truncates, or extends with the fill byte |
| `StrBuffer.Str.Reserve` | agenc-str/src/str.c:769-790 | the capacity covers the length asked for and the content stays |
| `StrBuffer.Str.Clear` | agenc-str/src/str.c:579-586 | empties the content, keeps the capacity and clears the status |
| `Split.JoinRebuilds` | agenc-str/src/str.c:2732-2768 | joining the parts with the separator rebuilds the source |
| `Split.PartsHaveNoSeparator` | agenc-str/src/str.c:2732-2768 | no part contains the separator |
| `Split.PartCount` | agenc-str/src/str.c:2732-2768 | there is one part more than separators |
| `Split.SplitOfJoin` | agenc-str/src/str.c:2732-2768 | splitting a join of separator-free parts gives those parts back, so the decomposition is unique |
| `Split.CountOverflow` | agenc-str/src/str.c:2732-2768 | the part count is unrepresentable exactly for SIZE_MAX bytes that are all separators |
| `Split.SplitOut.SplitView` | agenc-str/src/str.c:1130-1134 | stores a prefix of the parts list as far as the output has room, each part at its place in the source, reports the full count, and overflows exactly when the count is unrepresentable |
| `Split.SplitOut.WriteParts` | agenc-str/src/str.c:2732-2768 | the loop stores part after part, truncating but still counting |
| `Split.SplitOut.StoreClosedParts` | agenc-str/src/str.c:2732-2768 | after the loop every part before the last separator is stored, at its place in the source, or counted |
| `Split.SplitOut.Store` | agenc-str/src/str.c:2704-2717 | the part goes to its slot when there is one, and starts where the parts before it end |
| `Split.FindSeparator` | agenc-str/src/str.c:2719-2730 | finds the next separator, or the end |
| `ArenaSound.CallsCompose` | agenc-arena/src/arena.c:796-822 | the ledger, the parent's promise and the arena's duty compose over call sequences |
| `ArenaSound.AllocCoreKeepsSound` | agenc-arena/src/arena.c:824-862 | allocation keeps blocks disjoint, the ledger equal to the blocks held, and committed equal to header plus capacity over both lists |
| `ArenaSound.ReallocKeepsSound` | agenc-arena/src/arena.c:478-507 | reallocation keeps the arena sound on every path |
| `ArenaSound.PopToBlockKeepsSound` | agenc-arena/src/arena.c:935-950 | popping releases only what is outstanding, with its exact size |
| `ArenaSound.ResetKeepsSound` | agenc-arena/src/arena.c:374-414 | reset keeps the arena sound, and gives back only what is outstanding |
| `ArenaSound.TrimKeepsSound` | agenc-arena/src/arena.c:416-423 | trim keeps the arena sound, and gives back only what is outstanding |
| `ArenaSound.DeinitSettles` | agenc-arena/src/arena.c:353-372 | deinit returns everything, each block once and with its exact size, and leaves nothing outstanding |
| `ArenaAlloc.EffectiveAlignMeaning` | agenc-arena/src/arena.c:704-714 | the multiples of the effective alignment are exactly the addresses that suit the request: multiples of align, of 16 when it is 0, and of 8 under redzones |
| `ArenaAlloc.FirstFitFits` | agenc-arena/src/arena.c:784-794 | first fit takes the first block large enough |
| `ArenaAlloc.GrowthServes` | agenc-arena/src/arena.c:824-852 | once capacity is acquired the second bump cannot fail |
| `ArenaAlloc.AllocNServes` | agenc-arena/src/arena.c:879-906 | a served request is at a multiple of its alignment (16 when it names none, 8 under redzones), inside the used part of the newest block and clear of every live allocation |
| `ArenaAlloc.ReallocServes` | agenc-arena/src/arena.c:478-507 | a served reallocation, in place or moved, keeps every other live allocation where it was |
| `ArenaScopes.PopToBlockPops` | agenc-arena/src/arena.c:935-950 | popping to a block empties the normal blocks above it onto the free list in entry order and releases the oversize ones |
| `ArenaScopes.EndRestores` | agenc-arena/src/arena.c:531-562 | ending a scope restores the chain, the cursor and used to the snapshot |
| `ArenaScopes.ResetDrops` | agenc-arena/src/arena.c:374-414 | reset releases exactly the oversize blocks and drops exactly their bytes from committed, keeps the oldest normal block, and retires the others in entry order before the blocks already retained |
| `ArenaScopes.TrimDrops` | agenc-arena/src/arena.c:416-423 | trim releases exactly the retained blocks, in list order, and drops their bytes; on a fixed arena it does nothing |
| `ArenaScopes.DeinitDrops` | agenc-arena/src/arena.c:353-372 | deinit releases the chain, newest first, and then the retained blocks, and leaves an empty growing arena of the default sizes |
| `ArenaRuns.StepKeepsInv` | agenc-arena/include/arena.h:258-281 | every legal operation, in any state and whatever the parent answers, keeps the run invariant |
| `ArenaRuns.RunKeepsInv` | agenc-arena/include/arena.h:258-281 | so does every legal run |
| `ArenaRuns.StartKeepsInv` | agenc-arena/src/arena.c:272-351 | a freshly initialised arena, growing, sized or fixed, satisfies the invariant |
| `ArenaProgress.OfferIsLegal` | agenc-arena/include/arena.h:258-281 | in every reachable state each allowed call makes a legal step, whether the parent refuses or offers a place where the bytes asked for meet nothing outstanding, so legal runs never get stuck |
| `ArenaSafety.InvIsSafe` | agenc-arena/src/arena.c:757-782 | each live allocation is at a multiple of its alignment, of 16 when it named none, and of 8 under redzones; it lies in the used part of a chained block, and is disjoint from headers, retained blocks and the other allocations |
| `ArenaSafety.RunIsSafe` | agenc-arena/src/arena.c:757-782 | that holds after every legal run |
| `ArenaSafety.BytesKept` | agenc-arena/src/arena.c:854-906 | an operation that does not target an allocation leaves its bytes alone |
| `ArenaSafety.ResizeKeepsPrefix` | agenc-arena/src/arena.c:974-1025 | a reallocation keeps the first min(old, new) bytes, in place or moved |
| `ArenaSafety.MoveIsApart` | agenc-arena/src/arena.c:1009-1025 | a moved reallocation lands clear of its source, so memcpy is the right copy |
| `ArenaSafety.FilledAsAsked` | agenc-arena/src/arena.c:452-476 | zeroed and duplicated allocations hold what they were filled with |
| `ArenaSafety.FailureIsClean` | agenc-arena/src/arena.c:824-906 | a failing request changes nothing but the status, and NULL with a good status means an empty request |
| `ArenaSafety.StatisticsAgree` | agenc-arena/src/arena.c:775-779 | used plus the abandoned bytes is the chained consumption; used never goes below the live claim nor above high water or committed |
| `ArenaStatistics.RunHighWater` | agenc-arena/include/arena.h:313-321 | over any legal run high_water is the most bytes counted at any moment since init, kept by reset and not by deinit |
| `ArenaStatistics.PairCostsPadding` | agenc-arena/include/arena.h:283-289 | an allocation freed at once costs exactly its alignment padding, below the alignment, wherever it was served |
| `ArenaSafety.CommittedIsRepresentable` | agenc-arena/src/arena.c:796-822 | the committed sum never wraps, because the blocks are disjoint ranges of one address space |
| `ArenaSafety.RunConserves` | agenc-arena/src/arena.c:796-822 | over a whole run every release returns an outstanding range with its exact size, and the ledger is what the arena holds |
| `ArenaSafety.ShutdownReturnsAll` | agenc-arena/src/arena.c:353-372 | a run that ends in deinit leaves nothing outstanding |
| `ArenaSafety.ScopeRewinds` | agenc-arena/src/arena.c:509-562 | any legal in-scope run, inner scopes and failures included, is rewound exactly by temp_end; entered normal blocks go to the free list, oversize ones to the parent, the status stays |
| `ArenaSafety.DebugChecksHold` | agenc-arena/src/arena.c:531-562 | in legal runs every assertion in temp_end holds |
| `ArenaReplay.ScopeReplays` | agenc-arena/src/arena.c:509-562 | a successful scope without oversize blocks, ended and repeated, returns the same addresses with no parent call and ends in the very same arena state and live allocations |
| `ArenaReplay.ResetReplays` | agenc-arena/src/arena.c:374-414 | the same for a fresh arena's run repeated after reset, but for the generation, which counts the reset |
| `ArenaReplay.TwinRuns` | agenc-arena/src/arena.c:784-852 | two arenas that agree on the current block and whose free list supplies the other's later blocks serve the same run alike |
| `ArenaShadow.StepAgrees` | agenc-arena/tests/fuzz_arena.c:83-97 | a caller's account of its bytes, kept from calls and success alone, stays true over each operation |
| `ArenaShadow.RunAgrees` | agenc-arena/tests/fuzz_arena.c:152-172 | after every legal run each byte the caller accounts for is in memory where its allocation now is |
| `ArenaService.RoomIsUsed` | agenc-arena/src/arena.c:757-782 | in any state, a request that fits the newest block at some suitable address is served at the least such address past the cursor, with no parent call and no new block; the cursor moves to its end |
| `ArenaService.OthersReturnNull` | agenc-arena/src/arena.c:879-904 | a failed arena serves nothing and stays as it is; a bad alignment is reported even for an empty request; an empty request is NULL without an error; a product above PTRDIFF_MAX overflows; nothing else changes and the parent is not asked |
| `ArenaService.RefusedForCause` | agenc-arena/src/arena.c:824-852 | a valid request is refused only when no suitable place is left in the newest block, and moreover the arena is fixed, or the worst case exceeds every block, or no retained block holds it and the parent refused; the status says which |
| `ArenaService.FixedRefuses` | agenc-arena/src/arena.c:824-829 | a fixed arena without a suitable place refuses with the allocation status and changes nothing else |
| `ArenaService.TooLargeOverflows` | agenc-arena/src/arena.c:830-836 | a request whose worst case exceeds every block overflows and changes nothing else |
| `ArenaService.RetainedServes` | agenc-arena/src/arena.c:837-851 | otherwise the first retained block that holds the worst case becomes the newest one and serves the request at its least suitable address, without a parent call |
| `ArenaService.ParentServes` | agenc-arena/src/arena.c:837-851 | only when no retained block holds it is the parent asked, once, for at least the header and the worst case, and only a refusal there fails the request |
| `ArenaService.NewestStays` | agenc-arena/src/arena.c:974-1007 | the allocation that ends at the cursor is resized where it is whenever it shrinks or the block has the room, with no parent call; cursor, used and high water move by the change and nothing else does, so such a shrink never fails |
| `ArenaService.OthersMove` | agenc-arena/src/arena.c:1009-1025 | every other reallocation is served exactly when a request for the new size is, lands where that would, clear of the old place, and abandons the old bytes |
| `ArenaService.BadSizesAreRefused` | agenc-arena/src/arena.c:478-500 | a failed arena resizes nothing; a new size of 0 is an argument error and one above PTRDIFF_MAX overflows; the allocation stays and the parent is not asked |
| `ArenaService.FreeRollsBack` | agenc-arena/src/arena.c:1038-1054 | freeing the allocation that ends at the cursor moves the cursor back to its start; freeing any other leaves the arena alone |
| `ArenaService.ReallocOfNull` | agenc-arena/src/arena.c:494-496 | a reallocation of NULL is an allocation |
| `ArenaService.ClearServes` | agenc-arena/src/arena.c:425-430 | after a failure is cleared the arena is as it was but for the status, and a request that fits is served |
| `ArenaService.FixedCoversBuffer` | agenc-arena/src/arena.c:309-351 | the header of a fixed arena is at the least multiple of 8 in the buffer where it fits, the block ends where the buffer ends, and bookkeeping takes at most 64 bytes |
| `ArenaService.FixedResetRewinds` | agenc-arena/src/arena.c:374-383 | resetting a fixed arena keeps its block with the cursor at 0, restarts counters and status and asks the parent nothing |
| `ArenaService.FixedResetServes` | agenc-arena/src/arena.c:374-383 | after that every request that fits the empty buffer is served, at the least suitable address |
| `ArenaService.RunKeepsBuffer` | agenc-arena/include/arena.h:159-170 | over any legal run without deinit a fixed arena keeps its whole buffer and makes no parent call |
| `ArenaGrowth.RequestsDouble` | agenc-arena/src/arena.c:796-822 | after any legal run of a growing arena, with k counting the blocks of the size in force that the parent gave since init or deinit, the next request is the larger of T = min(largest, first * 2^k) and header plus worst case, and its block is oversize exactly when that is not T |
| `ArenaGrowth.RunAgrees` | agenc-arena/src/arena.c:811-815 | in every state of such a run the next block size is that T, whatever was refused, released, reset or trimmed |
| `ArenaGrowth.StartAgrees` | agenc-arena/src/arena.c:292-307 | valid sizes are taken without an error, and init is the case of the defaults 4096 and 65536 |
| `BlockLists.LinkedJoin` | agenc-arena/src/arena.c:784-794 | unlinking a block by giving its predecessor its link leaves a well-linked list |
| `BlockLists.ReverseLinked` | agenc-arena/src/arena.c:925-933 | the chain read through its links is the entry order reversed |
| `ArenaHeap.Parent.Acquire` | agenc-arena/src/arena.c:806-810 | the parent may refuse, and else hands out a range clear of everything outstanding |
| `ArenaHeap.Parent.Release` | agenc-arena/src/arena.c:915-923 | only an outstanding range with its exact size may go back |
| `ArenaHeap.Arena.constructor` | agenc-arena/src/arena.c:272-290 | an empty growing arena that is valid |
| `ArenaHeap.Arena.Sized` | agenc-arena/src/arena.c:292-307 | sizes are taken, or refused with the argument status |
| `ArenaHeap.Arena.Fixed` | agenc-arena/src/arena.c:309-351 | one block in the caller's buffer when a header fits after padding; the two refusals |
| `ArenaHeap.Arena.TryBump` | agenc-arena/src/arena.c:757-782 | the in-place bump is the bump function, and no sum wraps size_t |
| `ArenaHeap.Arena.FindFit` | agenc-arena/src/arena.c:784-794 | the list walk stops at the first block that fits, with the block whose link leads to it |
| `ArenaHeap.Arena.Unlink` | agenc-arena/src/arena.c:784-794 | the block leaves the linked list and the rest stays linked in order |
| `ArenaHeap.Arena.TakeFreeBlock` | agenc-arena/src/arena.c:784-794 | takes exactly the first-fit block off the free list |
| `ArenaHeap.Arena.NewBlock` | agenc-arena/src/arena.c:796-822 | asks the parent once, accounts for the block and doubles the next size for a normal one |
| `ArenaHeap.Arena.GrowAndBump` | agenc-arena/src/arena.c:824-852 | fixed, overflow, retained, acquired and refused cases; the assertion that the second bump serves is proved, and the chain only grows at its new end |
| `ArenaHeap.Arena.AllocImpl` | agenc-arena/src/arena.c:879-906 | the guards in order, then allocation; the chain only grows at its new end |
| `ArenaHeap.Arena.AllocN` | agenc-arena/src/arena.c:447-450 | the whole new state is the allocation function's, for the parent's reply; the arena is valid and its chain only grows at its new end, so open snapshots stay good |
| `ArenaHeap.Arena.Alloc` | agenc-arena/src/arena.c:432-435 | the default path equals a one-object request of default alignment; the chain only grows at its new end |
| `ArenaHeap.Arena.AllocNZeroed` | agenc-arena/src/arena.c:452-460 | a served request is zero-filled and no other byte changes; the chain only grows at its new end |
| `ArenaHeap.Arena.Memdup` | agenc-arena/src/arena.c:462-476 | a NULL source is refused; a served copy holds the source's bytes; the chain only grows at its new end |
| `ArenaHeap.Arena.IsLastAlloc` | agenc-arena/src/arena.c:952-972 | decides whether the allocation ends at the cursor |
| `ArenaHeap.Arena.TryResizeLast` | agenc-arena/src/arena.c:974-1007 | shrinks or grows at the cursor, or changes nothing |
| `ArenaHeap.Arena.ReallocMove` | agenc-arena/src/arena.c:1009-1025 | copies min(old, new) bytes to the new place and abandons the old region; the chain only grows at its new end |
| `ArenaHeap.Arena.Realloc` | agenc-arena/src/arena.c:478-507 | all paths of reallocation: new state, pointer, parent calls and bytes; the chain only grows at its new end |
| `ArenaHeap.Arena.Free` | agenc-arena/src/arena.c:1038-1054 | rolls back the most recent allocation and is otherwise a no-op |
| `ArenaHeap.Arena.RetireBlock` | agenc-arena/src/arena.c:908-913 | an emptied block heads the free list |
| `ArenaHeap.Arena.ReleaseBlock` | agenc-arena/src/arena.c:915-923 | gives the block back with its exact size and uncounts it |
| `ArenaHeap.Arena.ReleaseChain` | agenc-arena/src/arena.c:925-933 | walks a linked list giving back each block once, in order |
| `ArenaHeap.Arena.PopToBlock` | agenc-arena/src/arena.c:935-950 | the relinking loop is the recursive pop, and ends at the block asked for |
| `ArenaHeap.Arena.TempBegin` | agenc-arena/src/arena.c:509-529 | the snapshot is the current block, cursor and counters |
| `ArenaHeap.Arena.TempEnd` | agenc-arena/src/arena.c:531-562 | pop, rewind and counters are the scope-ending function; the arena stays valid, the snapshot's block is current again, and the blocks below it are the ones that were there |
| `ArenaHeap.Arena.FindOldestNormal` | agenc-arena/src/arena.c:386-392 | the walk finds the oldest block that is not oversize |
| `ArenaHeap.Arena.PopAllBut` | agenc-arena/src/arena.c:393-403 | every other block is retired or released, and the kept one is untouched |
| `ArenaHeap.Arena.Reset` | agenc-arena/src/arena.c:374-414 | the state after reset, fixed and growing |
| `ArenaHeap.Arena.Trim` | agenc-arena/src/arena.c:416-423 | the free list goes back and only it |
| `ArenaHeap.Arena.Deinit` | agenc-arena/src/arena.c:353-372 | chain newest first, then free list, then a fresh arena with the next generation |
| `ArenaHeap.Arena.ClearError` | agenc-arena/src/arena.c:425-430 | clears the status and nothing else |
| `ArenaSessions.Session.Perform` | agenc-arena/include/arena.h:258-281 | each call the header allows, made on the objects with the pointers and snapshots a caller holds, is the step of the run: same pointer, same parent calls, same bytes |
| `ArenaSessions.Session.Execute` | agenc-arena/tests/fuzz_arena.c:219-387 | any sequence of calls, made on the objects up to the first the header forbids, is a legal run: the arena ends as the run does, with equal pointers, parent calls and memory |
| `ArenaSessions.Session.End` | agenc-arena/src/arena.c:531-562 | the header's scope rules give temp_end what it demands of the snapshot, after any allocations, reallocations and inner scopes |

## Left out

- Formatted append (`str_append_fmt`, `str_append_vfmt`): its meaning is the C library's.
- The C-string entry points, `str_copy`, `str_move`, `str_detach`, `str_shrink_to_fit`, comparison, prefix, suffix and trim functions, and one-line observers: easy members beside the ones modelled.
- NULL string, arena and output pointers: only NULL sources, buffers and view pointers are modelled.
- The libc and null backends and test-only failure injection: `GrowHeap`, `StageReplacement` and `Parent.Acquire` may refuse at any time instead.
- `realloc` growing in place: `GrowHeap` always relocates, which is the harder case for inner sources and an upper bound for bytes moved.
- Fill patterns, sanitizer and Valgrind hooks, `ARENA_STRICT_ISO` and compiler attributes: instrumentation without effect on the state.
- A fixed arena keeps its null backend after deinit; the model lets its parent answer, which covers more behaviours.
- Runs hold at most `UINT_MAX` open scopes at once, since the depth counter would wrap; the generation counter does wrap in the model.
- One parent serves one arena: the ledger is the part of the parent's outstanding ranges that this arena asked for.
- Block headers are objects beside the byte memory, so a caller that writes outside its allocation is not modelled; that no allocation meets a header is proved.
- `arena_alloc_zeroed` is the count-one case of `AllocNZeroed`, and the adapter's `xalloc` and `xrealloc` are the count-one allocation and `Realloc`.
- ArenaHeap.Parent.Release: says nothing of the released memory, which later calls could reach in C; that no list keeps a released block follows from `Sound`.
