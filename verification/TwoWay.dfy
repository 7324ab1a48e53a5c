// Two-Way substring search and the naive scan it refines.
module TwoWay {
  import opened Arithmetic
  import opened Machine
  import opened Words
  import opened StrStatus
  import opened SuffixWalks

  const NPOS: Size := SIZE_MAX

  datatype Mode = First | Last

  // A borrowed byte span: readable bytes, or a null pointer with a length.
  datatype View = Bytes(bytes: Word) | Null(length: Size) {
    predicate Valid() { Null? ==> length == 0 }
    ghost predicate Representable() { Bytes? ==> |bytes| <= SIZE_MAX }
    function Content(): Word { if Bytes? then bytes else [] }
  }

  // ----- the reference -----

  predicate Occurs(haystack: Word, needle: Word, idx: nat) {
    idx + |needle| <= |haystack| && haystack[idx..idx + |needle|] == needle
  }

  // Try every candidate from idx on; found is the answer among earlier ones.
  function NaiveScan(haystack: Word, needle: Word, mode: Mode, idx: nat, found: nat): nat
    decreases |haystack| - idx
  {
    if idx + |needle| > |haystack| then found
    else if !Occurs(haystack, needle, idx) then NaiveScan(haystack, needle, mode, idx + 1, found)
    else if mode == First then idx
    else NaiveScan(haystack, needle, mode, idx + 1, idx)
  }

  function NaiveSearch(haystack: Word, needle: Word, mode: Mode): nat {
    NaiveScan(haystack, needle, mode, 0, NPOS)
  }

  // The naive search returns the first or last occurrence, or NPOS.
  ghost predicate IsAnswer(haystack: Word, needle: Word, mode: Mode, r: nat) {
    || (&& Occurs(haystack, needle, r)
        && (mode == First ==> forall i: nat :: Occurs(haystack, needle, i) ==> r <= i)
        && (mode == Last ==> forall i: nat :: Occurs(haystack, needle, i) ==> i <= r))
    || (r == NPOS && forall i: nat :: !Occurs(haystack, needle, i))
  }

  lemma {:induction false} NaiveScanMeaning(haystack: Word, needle: Word, mode: Mode, idx: nat, found: nat)
    requires forall i: nat :: i < idx && Occurs(haystack, needle, i) ==> mode == Last && i <= found
    requires || (Occurs(haystack, needle, found) && found < idx)
             || (found == NPOS && forall i: nat :: i < idx ==> !Occurs(haystack, needle, i))
    ensures IsAnswer(haystack, needle, mode, NaiveScan(haystack, needle, mode, idx, found))
    decreases |haystack| - idx
  {
    if idx + |needle| > |haystack| {
    } else if !Occurs(haystack, needle, idx) {
      NaiveScanMeaning(haystack, needle, mode, idx + 1, found);
    } else if mode == Last {
      NaiveScanMeaning(haystack, needle, mode, idx + 1, idx);
    }
  }

  lemma NaiveSearchMeaning(haystack: Word, needle: Word, mode: Mode)
    ensures IsAnswer(haystack, needle, mode, NaiveSearch(haystack, needle, mode))
  {
    NaiveScanMeaning(haystack, needle, mode, 0, NPOS);
  }

  lemma EmptyNeedleEverywhere(haystack: Word, mode: Mode)
    ensures NaiveSearch(haystack, [], mode) == if mode == First then 0 else |haystack|
  {
    assert forall i: nat :: i <= |haystack| ==> Occurs(haystack, [], i);
    NaiveSearchMeaning(haystack, [], mode);
    assert Occurs(haystack, [], 0) && Occurs(haystack, [], |haystack|);
  }

  // Candidates that cannot match may be skipped.
  lemma {:induction false} SkipCandidates(haystack: Word, needle: Word, mode: Mode, idx: nat, next: nat, found: nat)
    requires idx <= next
    requires forall i: nat :: idx <= i < next ==> !Occurs(haystack, needle, i)
    ensures NaiveScan(haystack, needle, mode, idx, found) == NaiveScan(haystack, needle, mode, next, found)
    decreases next - idx
  {
    if idx < next {
      if idx + |needle| > |haystack| {
        assert next + |needle| > |haystack|;
      } else {
        SkipCandidates(haystack, needle, mode, idx + 1, next, found);
      }
    }
  }

  // ----- the factorization -----

  // cut and other start the maximal suffixes of the two orders; cut is later.
  ghost predicate IsLaterCut(x: Word, cut: nat, other: nat, reversed: bool) {
    IsMaximalSuffix(x, cut, reversed) && IsMaximalSuffix(x, other, !reversed) && other <= cut
  }

  ghost predicate IsCriticalFactor(x: Word, factor: Factor) {
    && (exists other: nat, reversed: bool :: IsLaterCut(x, factor.cut, other, reversed))
    && IsSmallestPeriod(x[factor.cut..], factor.period)
  }

  // Every local repetition at the cut is a period of the whole word.
  ghost predicate IsCritical(x: Word, cut: nat) {
    cut < |x| && forall d: nat :: IsLocalRepetition(x, cut, d) ==> cut < d && IsPeriod(x, d)
  }

  lemma CriticalFactorIsCritical(x: Word, factor: Factor)
    requires IsCriticalFactor(x, factor)
    ensures IsCritical(x, factor.cut)
    ensures forall d: nat :: IsSmallestLocalRepetition(x, factor.cut, d) <==> IsSmallestPeriod(x, d)
    ensures forall d: nat :: IsSmallestPeriod(x, d) ==> factor.cut < d
    ensures PeriodTest(x, factor.cut, factor.period) <==> IsSmallestPeriod(x, factor.period)
    ensures !PeriodTest(x, factor.cut, factor.period) ==>
              forall s: nat :: IsPeriod(x, s) ==> factor.cut < s && |x| - factor.cut < s
    ensures factor.period <= |x| - factor.cut
  {
    var other: nat, reversed: bool :| IsLaterCut(x, factor.cut, other, reversed);
    forall d: nat | IsLocalRepetition(x, factor.cut, d) ensures factor.cut < d && IsPeriod(x, d) {
      CriticalFactorization(x, factor.cut, other, d, reversed);
    }
    forall d: nat
      ensures IsSmallestLocalRepetition(x, factor.cut, d) <==> IsSmallestPeriod(x, d)
      ensures IsSmallestPeriod(x, d) ==> factor.cut < d
    {
      CriticalCut(x, factor.cut, other, d, reversed);
    }
    PeriodTestMeaning(x, factor.cut, other, factor.period, reversed);
    assert IsPeriod(x[factor.cut..], |x| - factor.cut);
  }

  method FindCriticalFactor(needle: Word) returns (factor: Factor, ghost comparisons: nat)
    requires 0 < |needle| <= SIZE_MAX
    ensures IsCriticalFactor(needle, factor)
    ensures comparisons < 4 * |needle|
  {
    var forward, forwardCost := FindMaximalSuffix(needle, false);
    var reverse, reverseCost := FindMaximalSuffix(needle, true);
    comparisons := forwardCost + reverseCost;
    if reverse.cut > forward.cut {
      assert IsLaterCut(needle, reverse.cut, forward.cut, true);
      return reverse, comparisons;
    }
    assert IsLaterCut(needle, forward.cut, reverse.cut, false);
    return forward, comparisons;
  }

  // ----- the scan -----

  // Views are valid, the needle fits the haystack, shifts are positive.
  datatype SearchContext = SearchContext(
    haystack: Word, needle: Word, factor: Factor,
    fullShift: Size, savedMemory: Size, lastIdx: Size, mode: Mode)
  {
    ghost predicate Valid() {
      && 1 < |needle| <= |haystack| <= SIZE_MAX
      && lastIdx == |haystack| - |needle|
      && IsCritical(needle, factor.cut)
      && savedMemory < |needle|
      && 0 < fullShift && factor.cut <= fullShift
      && (savedMemory > 0 ==> IsPeriod(needle, fullShift) && savedMemory + fullShift == |needle|)
      && (forall s: nat :: IsPeriod(needle, s) ==> fullShift <= s)
      && Max(factor.cut, savedMemory) + fullShift >= |needle|
    }

    // The answer of the naive search, were it to resume at idx.
    ghost function Remaining(idx: nat, found: nat): nat {
      NaiveScan(haystack, needle, mode, idx, found)
    }

    ghost predicate HasNoMatchIn(from: nat, to: nat) {
      forall i: nat :: from <= i < to ==> !Occurs(haystack, needle, i)
    }
  }

  // Needle bytes lo..hi match the haystack at candidate idx.
  ghost predicate Matched(c: SearchContext, idx: nat, lo: nat, hi: nat) {
    && lo <= hi <= |c.needle| && idx + hi <= |c.haystack|
    && forall i: nat, j: nat :: lo <= i < hi && j == idx + i ==> c.needle[i] == c.haystack[j]
  }

  lemma OccurrenceMatches(c: SearchContext, idx: nat)
    requires Occurs(c.haystack, c.needle, idx)
    ensures Matched(c, idx, 0, |c.needle|)
  {
    forall i: nat, j: nat | i < |c.needle| && j == idx + i ensures c.needle[i] == c.haystack[j] {
      assert c.haystack[idx..idx + |c.needle|][i] == c.haystack[j];
    }
  }

  // Two overlapping copies whose overlap covers the cut make the distance
  // between them a period of the needle.
  lemma OverlapIsPeriod(c: SearchContext, idx: nat, m: nat, s: nat)
    requires c.Valid() && Matched(c, idx, c.factor.cut, m)
    requires 0 < s && (c.factor.cut + s <= m || m == |c.needle|)
    requires Occurs(c.haystack, c.needle, idx + s)
    ensures IsPeriod(c.needle, s)
  {
    OccurrenceMatches(c, idx + s);
    forall i: nat, j: nat | j == i + s && i < c.factor.cut <= j < |c.needle|
      ensures c.needle[i] == c.needle[j]
    {
      assert c.needle[i] == c.haystack[idx + s + i];
      assert c.needle[j] == c.haystack[idx + j];
    }
    assert IsLocalRepetition(c.needle, c.factor.cut, s);
  }

  // So a copy that starts early enough forces the next byte to match as well.
  lemma OverlapForcesMatch(c: SearchContext, idx: nat, m: nat, s: nat)
    requires c.Valid() && Matched(c, idx, c.factor.cut, m) && idx <= c.lastIdx
    requires 0 < s && c.factor.cut + s <= m < |c.needle|
    requires Occurs(c.haystack, c.needle, idx + s)
    ensures c.needle[m] == c.haystack[idx + m]
  {
    OverlapIsPeriod(c, idx, m, s);
    OccurrenceMatches(c, idx + s);
    assert c.needle[m - s] == c.needle[m];
  }

  // A mismatch at m rules out every candidate up to the one that puts the cut
  // just past the mismatch.
  lemma MismatchShiftIsSafe(c: SearchContext, idx: nat, m: nat)
    requires c.Valid() && idx <= c.lastIdx
    requires c.factor.cut <= m < |c.needle| && Matched(c, idx, c.factor.cut, m)
    requires c.needle[m] != c.haystack[idx + m]
    ensures c.HasNoMatchIn(idx, idx + (m - c.factor.cut + 1))
  {
    forall k: nat | idx <= k < idx + (m - c.factor.cut + 1)
      ensures !Occurs(c.haystack, c.needle, k)
    {
      if Occurs(c.haystack, c.needle, k) {
        OccurrenceMatches(c, k);
        if idx < k {
          OverlapForcesMatch(c, idx, m, k - idx);
        }
      }
    }
  }

  // After the right part matched, nothing occurs strictly between this
  // candidate and the next.
  lemma FullShiftIsSafe(c: SearchContext, idx: nat)
    requires c.Valid() && Matched(c, idx, c.factor.cut, |c.needle|)
    ensures c.HasNoMatchIn(idx + 1, idx + c.fullShift)
  {
    forall k: nat | idx + 1 <= k < idx + c.fullShift ensures !Occurs(c.haystack, c.needle, k) {
      if Occurs(c.haystack, c.needle, k) {
        OverlapIsPeriod(c, idx, |c.needle|, k - idx);
      }
    }
  }

  // The remembered prefix is sound whether or not the left part matched: the
  // next candidate's prefix lies over this candidate's right part.
  lemma RememberedPrefix(c: SearchContext, idx: nat)
    requires c.Valid() && Matched(c, idx, c.factor.cut, |c.needle|)
    requires idx + c.fullShift <= c.lastIdx
    ensures Matched(c, idx + c.fullShift, 0, c.savedMemory)
  {
    forall i: nat, j: nat | i < c.savedMemory && j == idx + c.fullShift + i
      ensures c.needle[i] == c.haystack[j]
    {
      assert c.needle[i] == c.needle[i + c.fullShift];
    }
  }

  // idx is the current candidate, memory the length of its known matching
  // prefix. The ghost counters record byte comparisons.
  class SearchState {
    var idx: Size
    var memory: Size
    ghost var right: nat
    ghost var left: nat

    constructor ()
      ensures idx == 0 && memory == 0 && right == 0 && left == 0
    {
      idx, memory, right, left := 0, 0, 0, 0;
    }

    // Right-part comparisons never revisit a haystack position; left-part
    // comparisons are paid for by the shift that follows them.
    ghost predicate At(c: SearchContext)
      reads this`idx, this`memory
    {
      c.Valid() && idx <= c.lastIdx && memory < |c.needle| && Matched(c, idx, 0, memory)
    }

    ghost predicate Valid(c: SearchContext)
      reads this
    {
      && At(c)
      && right + c.factor.cut <= idx + Max(c.factor.cut, memory)
      && left <= idx
    }

    method ScanRight(c: SearchContext) returns (scan: Size)
      requires Valid(c)
      modifies this`right
      ensures Max(c.factor.cut, memory) <= scan <= |c.needle|
      ensures Matched(c, idx, c.factor.cut, scan)
      ensures scan < |c.needle| ==> c.needle[scan] != c.haystack[idx + scan]
      ensures right + c.factor.cut <= idx + scan + if scan < |c.needle| then 1 else 0
    {
      scan := c.factor.cut;
      if memory > scan {
        scan := memory;
      }
      while scan < |c.needle| && c.needle[scan] == c.haystack[idx + scan]
        invariant Max(c.factor.cut, memory) <= scan <= |c.needle|
        invariant Matched(c, idx, c.factor.cut, scan)
        invariant right + c.factor.cut <= idx + scan
      {
        right := right + 1;
        scan := scan + 1;
      }
      if scan < |c.needle| {
        right := right + 1;
      }
    }

    method HasLeftMatch(c: SearchContext) returns (matches: bool)
      requires At(c) && Matched(c, idx, c.factor.cut, |c.needle|)
      modifies this`left
      ensures matches <==> Occurs(c.haystack, c.needle, idx)
      ensures left <= old(left) + c.factor.cut
    {
      var scan: Size := c.factor.cut;
      while scan > memory
        invariant scan <= c.factor.cut
        invariant Matched(c, idx, scan, |c.needle|)
        invariant left + scan <= old(left) + c.factor.cut
      {
        var i := scan - 1;
        left := left + 1;
        if c.needle[i] != c.haystack[idx + i] {
          assert c.haystack[idx..idx + |c.needle|][i] == c.haystack[idx + i];
          return false;
        }
        scan := scan - 1;
      }
      assert c.haystack[idx..idx + |c.needle|] == c.needle;
      return true;
    }

    method Advance(lastIdx: Size, shift: Size) returns (hasNext: bool)
      requires idx <= lastIdx && 0 < shift
      modifies this`idx
      ensures hasNext == (old(idx) + shift <= lastIdx)
      ensures idx == if hasNext then old(idx) + shift else old(idx)
    {
      if shift > lastIdx - idx {
        return false;
      }
      idx := idx + shift;
      return true;
    }

    // One candidate. The naive answer from here on is unchanged by the step,
    // or is the returned one when there is no next candidate.
    method Step(c: SearchContext, found: Size) returns (hasNext: bool, newFound: Size)
      requires Valid(c)
      modifies this
      ensures hasNext ==> Valid(c) && idx > old(idx)
      ensures c.Remaining(old(idx), found) == if hasNext then c.Remaining(idx, newFound) else newFound
      ensures right + left <= 2 * |c.haystack|
    {
      var mismatch := ScanRight(c);
      if mismatch < |c.needle| {
        hasNext := OnMismatch(c, mismatch, found);
        newFound := found;
      } else {
        hasNext, newFound := AfterRightMatch(c, found);
      }
    }

    method OnMismatch(c: SearchContext, mismatch: Size, ghost found: Size) returns (hasNext: bool)
      requires At(c) && left <= idx
      requires c.factor.cut <= mismatch < |c.needle| && Matched(c, idx, c.factor.cut, mismatch)
      requires c.needle[mismatch] != c.haystack[idx + mismatch]
      requires right + c.factor.cut <= idx + mismatch + 1
      modifies this
      ensures hasNext ==> Valid(c) && idx > old(idx)
      ensures c.Remaining(old(idx), found) == if hasNext then c.Remaining(idx, found) else found
      ensures right + left <= 2 * |c.haystack|
    {
      var shift := mismatch - c.factor.cut + 1;
      MismatchShiftIsSafe(c, idx, mismatch);
      SkipCandidates(c.haystack, c.needle, c.mode, idx, idx + shift, found);
      hasNext := Advance(c.lastIdx, shift);
      memory := 0;
    }

    method AfterRightMatch(c: SearchContext, found: Size) returns (hasNext: bool, newFound: Size)
      requires At(c) && Matched(c, idx, c.factor.cut, |c.needle|) && left <= idx
      requires right + c.factor.cut <= idx + |c.needle|
      modifies this
      ensures hasNext ==> Valid(c) && idx > old(idx)
      ensures c.Remaining(old(idx), found) == if hasNext then c.Remaining(idx, newFound) else newFound
      ensures right + left <= 2 * |c.haystack|
    {
      newFound := found;
      var matches := HasLeftMatch(c);
      if matches {
        newFound := idx;
        if c.mode == First {
          return false, newFound;
        }
      }
      SkipAfterRightMatch(c, idx, found);
      hasNext := Advance(c.lastIdx, c.fullShift);
      memory := c.savedMemory;
    }
  }

  // What the naive scan does across one full shift.
  lemma SkipAfterRightMatch(c: SearchContext, idx: nat, found: nat)
    requires c.Valid() && Matched(c, idx, c.factor.cut, |c.needle|)
    requires Occurs(c.haystack, c.needle, idx) ==> c.mode == Last
    ensures var newFound := if Occurs(c.haystack, c.needle, idx) then idx else found;
            && c.Remaining(idx, found) == c.Remaining(idx + c.fullShift, newFound)
            && (c.lastIdx < idx + c.fullShift ==> c.Remaining(idx, found) == newFound)
    ensures idx + c.fullShift <= c.lastIdx ==> Matched(c, idx + c.fullShift, 0, c.savedMemory)
  {
    var newFound := if Occurs(c.haystack, c.needle, idx) then idx else found;
    FullShiftIsSafe(c, idx);
    SkipCandidates(c.haystack, c.needle, c.mode, idx + 1, idx + c.fullShift, newFound);
    if idx + c.fullShift <= c.lastIdx {
      RememberedPrefix(c, idx);
    }
  }

  // ----- the search -----

  function NonperiodicShift(needle: Word, factor: Factor): (shift: Size)
    requires 0 < factor.cut < |needle| <= SIZE_MAX
  {
    var leftShift := factor.cut;
    var rightShift := |needle| - factor.cut + 1;
    if leftShift > rightShift then leftShift else rightShift
  }

  method BuildSearchContext(haystack: Word, needle: Word, mode: Mode)
    returns (c: SearchContext, ghost comparisons: nat)
    requires 1 < |needle| <= |haystack| <= SIZE_MAX
    ensures c.Valid() && c.haystack == haystack && c.needle == needle && c.mode == mode
    ensures comparisons < 5 * |needle|
  {
    var factor, cost := FindCriticalFactor(needle);
    CriticalFactorIsCritical(needle, factor);
    var isPeriodic := PeriodTest(needle, factor.cut, factor.period);
    comparisons := cost + factor.cut;
    var fullShift, savedMemory := factor.period, |needle| - factor.period;
    if !isPeriodic {
      fullShift, savedMemory := NonperiodicShift(needle, factor), 0;
    }
    c := SearchContext(haystack, needle, factor, fullShift, savedMemory, |haystack| - |needle|, mode);
  }

  // The bound on the number of steps never cuts the scan short.
  method SearchTwoWay(haystack: Word, needle: Word, mode: Mode) returns (found: Size, ghost comparisons: nat)
    requires 1 < |needle| <= |haystack| <= SIZE_MAX
    ensures found == NaiveSearch(haystack, needle, mode)
    ensures comparisons <= 2 * |haystack| + 5 * |needle|
  {
    var c, cost := BuildSearchContext(haystack, needle, mode);
    var state := new SearchState();
    found := NPOS;
    var step := 0;
    while step <= c.lastIdx
      invariant fresh(state) && step <= state.idx
      invariant step <= c.lastIdx ==> state.Valid(c)
      invariant c.Remaining(state.idx, found) == NaiveSearch(haystack, needle, mode)
      invariant state.right + state.left <= 2 * |haystack|
    {
      var hasNext;
      hasNext, found := state.Step(c, found);
      comparisons := cost + state.right + state.left;
      if !hasNext {
        return;
      }
      step := step + 1;
    }
    comparisons := cost + state.right + state.left;
  }

  method FindByte(haystack: Word, byte: Byte) returns (found: Size, ghost comparisons: nat)
    requires 0 < |haystack| <= SIZE_MAX
    ensures found == NaiveSearch(haystack, [byte], First)
    ensures comparisons <= |haystack|
  {
    var idx := 0;
    comparisons := 0;
    while idx < |haystack|
      invariant idx == comparisons <= |haystack|
      invariant NaiveScan(haystack, [byte], First, idx, NPOS) == NaiveSearch(haystack, [byte], First)
    {
      assert Occurs(haystack, [byte], idx) <==> haystack[idx] == byte;
      comparisons := comparisons + 1;
      if haystack[idx] == byte {
        return idx, comparisons;
      }
      idx := idx + 1;
    }
    return NPOS, comparisons;
  }

  method RfindByte(haystack: Word, byte: Byte) returns (found: Size, ghost comparisons: nat)
    requires 0 < |haystack| <= SIZE_MAX
    ensures found == NaiveSearch(haystack, [byte], Last)
    ensures comparisons <= |haystack|
  {
    NaiveSearchMeaning(haystack, [byte], Last);
    assert forall i: nat :: Occurs(haystack, [byte], i) ==> i < |haystack| && haystack[i] == byte;
    var idx := |haystack|;
    comparisons := 0;
    while idx > 0
      invariant 0 <= idx <= |haystack| && comparisons == |haystack| - idx
      invariant forall i: nat :: idx <= i < |haystack| ==> haystack[i] != byte
    {
      idx := idx - 1;
      comparisons := comparisons + 1;
      if haystack[idx] == byte {
        assert Occurs(haystack, [byte], idx);
        return idx, comparisons;
      }
    }
    return NPOS, comparisons;
  }

  method SearchView(haystack: View, needle: Word, mode: Mode) returns (found: Size, ghost comparisons: nat)
    requires haystack.Valid() && haystack.Representable()
    requires 0 < |needle| <= SIZE_MAX
    ensures found == NaiveSearch(haystack.Content(), needle, mode)
    ensures comparisons <= 2 * |haystack.Content()| + 5 * |needle|
  {
    comparisons := 0;
    if haystack.Null? || |haystack.bytes| < |needle| {
      return NPOS, 0;
    }
    if |needle| == 1 {
      assert needle == [needle[0]];
      if mode == First {
        found, comparisons := FindByte(haystack.bytes, needle[0]);
      } else {
        found, comparisons := RfindByte(haystack.bytes, needle[0]);
      }
      return;
    }
    found, comparisons := SearchTwoWay(haystack.bytes, needle, mode);
  }

  // str_view_find and str_view_rfind: outIdx is left alone on failure.
  method FindViewMatch(outIdx: Size, haystack: View, needle: View, mode: Mode)
    returns (status: Status, newIdx: Size, ghost comparisons: nat)
    requires haystack.Representable() && needle.Representable()
    ensures status == ErrArg <==> !haystack.Valid() || !needle.Valid()
    ensures status == ErrOverflow <==>
              && haystack.Valid() && needle.Valid()
              && mode == Last && needle.Content() == [] && |haystack.Content()| == NPOS
    ensures status == Ok ==> newIdx == NaiveSearch(haystack.Content(), needle.Content(), mode)
    ensures status != Ok ==> newIdx == outIdx
    ensures comparisons <= 2 * |haystack.Content()| + 5 * |needle.Content()|
  {
    newIdx, comparisons := outIdx, 0;
    if !haystack.Valid() || !needle.Valid() {
      return ErrArg, outIdx, 0;
    }
    var text, pattern := haystack.Content(), needle.Content();
    if mode == Last && |pattern| == 0 && |text| == NPOS {
      return ErrOverflow, outIdx, 0;
    }
    status := Ok;
    if |pattern| > 0 {
      newIdx, comparisons := SearchView(haystack, pattern, mode);
    } else {
      EmptyNeedleEverywhere(text, mode);
      newIdx := if mode == First then 0 else |text|;
    }
  }
}
