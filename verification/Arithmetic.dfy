// Small arithmetic, and nonlinear facts the solver needs one at a time.
module Arithmetic {
  function Max(a: int, b: int): int { if a < b then b else a }

  lemma MulMonotone(a: nat, b: nat, p: nat)
    requires a <= b
    ensures a * p <= b * p
  {
  }

  lemma MulCancel(a: nat, b: nat, p: nat)
    requires a * p < b * p
    ensures a < b
  {
  }

  lemma DivisionIsUnique(x: nat, d: nat, q: nat, r: nat)
    requires 0 < d && x == q * d + r && r < d
    ensures x / d == q && x % d == r
  {
    var q', r' := x / d, x % d;
    assert x == q' * d + r';
    assert (q + 1) * d == q * d + d && (q' + 1) * d == q' * d + d;
    MulCancel(q', q + 1, d);
    MulCancel(q, q' + 1, d);
  }

  lemma DivisionBound(a: nat, b: nat, d: nat)
    requires 0 < d
    ensures a <= b / d <==> a * d <= b
  {
    var q := b / d;
    assert q * d <= b < (q + 1) * d by {
      assert b == q * d + b % d;
      assert (q + 1) * d == q * d + d;
    }
    if a <= q {
      MulMonotone(a, q, d);
    } else {
      MulMonotone(q + 1, a, d);
    }
  }
}
