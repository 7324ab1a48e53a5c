// Capacity growth by doubling, and what it costs.
module Capacity {
  import opened Machine
  import opened StrStatus
  import opened WordBits

  const MIN_CAPACITY: Size := 16
  const MAX_GROWTH_STEPS: nat := 64

  predicate DoublingOverflows(cap: Size) {
    cap > SIZE_MAX / 2
  }

  // Double until large enough; fall back to the exact need where doubling
  // would wrap.
  function GrownCapacity(cap: Size, need: Size): Size
    requires 0 < cap || need == 0
    decreases need - cap
  {
    if cap >= need then cap
    else if DoublingOverflows(cap) then need
    else GrownCapacity(2 * cap, need)
  }

  lemma {:induction false} GrownCapacityBounds(cap: Size, need: Size)
    requires 0 < cap < need
    ensures need <= GrownCapacity(cap, need) < 2 * need
    decreases need - cap
  {
    if !DoublingOverflows(cap) && 2 * cap < need {
      GrownCapacityBounds(2 * cap, need);
    }
  }

  // The step bound is never what stops the loop unless it started from zero.
  method GrowCapacity(start: Size, need: Size) returns (status: Status, newCap: Size)
    ensures status == ErrOverflow <==> start == 0 && 0 < need
    ensures status != ErrOverflow ==> status == Ok && newCap == GrownCapacity(start, need)
  {
    var cap: Size := start;
    var step := 0;
    while step < MAX_GROWTH_STEPS
      invariant step <= MAX_GROWTH_STEPS
      invariant start == 0 ==> cap == 0
      invariant 0 < start ==> Pow2(step) <= cap && GrownCapacity(cap, need) == GrownCapacity(start, need)
    {
      if cap >= need {
        return Ok, cap;
      }
      if DoublingOverflows(cap) {
        return Ok, need;
      }
      cap := 2 * cap;
      step := step + 1;
    }
    Pow2Values();
    if cap >= need {
      return Ok, cap;
    }
    return ErrOverflow, 0;
  }

  function ChosenCapacity(current: Size, need: Size): Size {
    if need <= current then current
    else GrownCapacity(if current < MIN_CAPACITY then MIN_CAPACITY else current, need)
  }

  // Growth reaches the need without overshooting it twofold.
  lemma ChosenCapacityBounds(current: Size, need: Size)
    ensures need <= ChosenCapacity(current, need)
    ensures current < need ==> current < ChosenCapacity(current, need)
    ensures current < need ==>
              ChosenCapacity(current, need) == MIN_CAPACITY || ChosenCapacity(current, need) < 2 * need
  {
    var start := if current < MIN_CAPACITY then MIN_CAPACITY else current;
    if current < need && start < need {
      GrownCapacityBounds(start, need);
    }
  }

  method ChooseCapacity(current: Size, need: Size) returns (status: Status, newCap: Size)
    ensures status == Ok && newCap == ChosenCapacity(current, need)
  {
    if need <= current {
      return Ok, current;
    }
    var cap := current;
    if cap < MIN_CAPACITY {
      cap := MIN_CAPACITY;
    }
    status, newCap := GrowCapacity(cap, need);
  }

  // ----- amortized appends -----

  // Capacity of a buffer and the bytes its growth has moved so far.
  datatype Growth = Growth(cap: Size, moved: nat) {
    function Ensure(need: Size): Growth {
      if need <= cap then this else Growth(ChosenCapacity(cap, need), moved + cap)
    }
  }

  // After n single-byte appends to an empty string.
  function AfterAppends(n: nat): Growth
    requires n < SIZE_MAX
  {
    if n == 0 then Growth(0, 0) else AfterAppends(n - 1).Ensure(n + 1)
  }

  // While doubling is possible, n appends move fewer than 2n bytes in total.
  lemma {:induction false} AppendsMoveLinearly(n: nat)
    requires 0 < n <= SIZE_MAX / 2
    ensures var g := AfterAppends(n);
            && n < g.cap && g.moved + MIN_CAPACITY == g.cap
            && (g.cap == MIN_CAPACITY || g.cap <= 2 * n)
            && g.moved < 2 * n
  {
    if n > 1 {
      AppendsMoveLinearly(n - 1);
      var g := AfterAppends(n - 1);
      if g.cap == n {
        assert ChosenCapacity(g.cap, n + 1) == GrownCapacity(2 * n, n + 1) == 2 * n;
      }
    } else {
      assert AfterAppends(0) == Growth(0, 0);
    }
  }

  // ----- where doubling ends -----

  const HALF: Size := SIZE_MAX / 2

  // One append keeps the capacity, or doubles it when it is exactly full.
  lemma NextCapacity(n: nat)
    requires 1 < n <= HALF
    ensures var cap := AfterAppends(n - 1).cap;
            AfterAppends(n).cap == if cap == n then 2 * cap else cap
  {
    AppendsMoveLinearly(n - 1);
    assert AfterAppends(n) == AfterAppends(n - 1).Ensure(n + 1);
    if AfterAppends(n - 1).cap == n {
      assert ChosenCapacity(n, n + 1) == GrownCapacity(2 * n, n + 1) == 2 * n;
    }
  }

  lemma {:induction false} CapacityIsPow2(n: nat)
    requires 0 < n <= HALF
    ensures IsPow2(AfterAppends(n).cap)
  {
    if n == 1 {
      assert AfterAppends(0) == Growth(0, 0);
      assert AfterAppends(1).cap == MIN_CAPACITY == Pow2(4);
    } else {
      hide AfterAppends;
      CapacityIsPow2(n - 1);
      NextCapacity(n);
      var k: nat :| AfterAppends(n - 1).cap == Pow2(k);
      assert 2 * Pow2(k) == Pow2(k + 1);
    }
  }

  lemma OnlyPow2InRange(k: nat)
    requires HALF < Pow2(k) <= 2 * HALF
    ensures Pow2(k) == HALF + 1
  {
    hide Pow2;
    Pow2Values();
    Pow2Doubles(62);
    Pow2Doubles(63);
    if k <= 62 {
      Pow2Monotone(k, 62);
    } else if 64 <= k {
      Pow2Monotone(64, k);
    }
  }

  lemma Pow2Doubles(k: nat)
    ensures Pow2(k + 1) == 2 * Pow2(k)
  {
  }

  // Doubling ends at half the address space.
  lemma LastDoubling()
    ensures AfterAppends(HALF) == Growth(HALF + 1, HALF + 1 - MIN_CAPACITY)
  {
    hide AfterAppends, Pow2;
    AppendsMoveLinearly(HALF);
    CapacityIsPow2(HALF);
    var k: nat :| AfterAppends(HALF).cap == Pow2(k);
    OnlyPow2InRange(k);
  }

  lemma NoMoreDoubling(n: nat)
    requires HALF < n < SIZE_MAX && AfterAppends(n - 1).cap == n
    ensures AfterAppends(n) == Growth(n + 1, AfterAppends(n - 1).moved + n)
  {
    assert ChosenCapacity(n, n + 1) == n + 1;
  }

  // From there on every append moves the whole string.
  lemma {:induction false} ThenEveryAppendMovesAll(n: nat)
    requires HALF + 1 <= n < SIZE_MAX
    ensures AfterAppends(n).cap == n + 1
    ensures AfterAppends(n).moved == AfterAppends(n - 1).moved + n
    ensures AfterAppends(n).moved < 2 * n <==> n == HALF + 1
    decreases n
  {
    hide AfterAppends;
    LastDoubling();
    if n > HALF + 1 {
      ThenEveryAppendMovesAll(n - 1);
    }
    NoMoreDoubling(n);
  }

  // n appends move fewer than 2n bytes exactly up to half the address space.
  lemma AppendsAreLinearUpToHalf(n: nat)
    requires 0 < n < SIZE_MAX
    ensures AfterAppends(n).moved < 2 * n <==> n <= HALF + 1
  {
    if n <= HALF {
      AppendsMoveLinearly(n);
    } else {
      ThenEveryAppendMovesAll(n);
    }
  }
}
