// Combinatorics on words behind the Two-Way search: periods, local
// repetitions, maximal suffixes, and the Critical Factorization Theorem.
module Words {
  import opened Machine

  type Word = seq<Byte>

  // ----- orders -----

  // The byte order of a suffix walk: ascending, or descending when reversed.
  predicate Before(left: Byte, right: Byte, reversed: bool) {
    if reversed then left > right else left < right
  }

  // The words agree on the k bytes before index k.
  ghost predicate AgreeUpTo(u: Word, v: Word, k: nat) {
    k <= |u| && k <= |v| && forall t: nat :: t < k ==> u[t] == v[t]
  }

  // Index k decides u below v: u ends there and v goes on, or u has the
  // smaller byte there.
  ghost predicate DecidedAt(u: Word, v: Word, k: nat, reversed: bool) {
    AgreeUpTo(u, v, k) && k < |v| && (k < |u| ==> Before(u[k], v[k], reversed))
  }

  // Lexicographic order; a proper prefix ranks below its extensions
  // whichever way the bytes are ordered.
  ghost predicate LexBelow(u: Word, v: Word, reversed: bool) {
    exists k: nat :: DecidedAt(u, v, k, reversed)
  }

  // The suffix at cut beats every other nonempty suffix.
  ghost predicate IsMaximalSuffix(x: Word, cut: nat, reversed: bool) {
    cut < |x| && forall i: nat :: i < |x| && i != cut ==> LexBelow(x[i..], x[cut..], reversed)
  }

  lemma LexTransitive(u: Word, v: Word, w: Word, reversed: bool)
    requires LexBelow(u, v, reversed) && LexBelow(v, w, reversed)
    ensures LexBelow(u, w, reversed)
  {
    var i: nat :| DecidedAt(u, v, i, reversed);
    var j: nat :| DecidedAt(v, w, j, reversed);
    assert DecidedAt(u, w, if i < j then i else j, reversed);
  }

  lemma LexAsymmetric(u: Word, v: Word, reversed: bool)
    requires LexBelow(u, v, reversed)
    ensures !LexBelow(v, u, reversed)
  {
    if LexBelow(v, u, reversed) {
      LexTransitive(u, v, u, reversed);
    }
  }

  // A common prefix can be stripped from a comparison.
  lemma LexStripPrefix(p: Word, u: Word, v: Word, reversed: bool)
    requires LexBelow(p + u, p + v, reversed)
    ensures LexBelow(u, v, reversed)
  {
    var k: nat :| DecidedAt(p + u, p + v, k, reversed);
    assert |p| <= k;
    assert forall t: nat :: t < k - |p| ==> u[t] == (p + u)[|p| + t] && v[t] == (p + v)[|p| + t];
    assert DecidedAt(u, v, k - |p|, reversed);
  }

  // A word below another in both byte orders is a proper prefix of it.
  lemma BelowInBothOrdersIsPrefix(u: Word, v: Word, reversed: bool)
    requires LexBelow(u, v, reversed) && LexBelow(u, v, !reversed)
    ensures |u| < |v| && AgreeUpTo(u, v, |u|)
  {
    var i: nat :| DecidedAt(u, v, i, reversed);
    var j: nat :| DecidedAt(u, v, j, !reversed);
    assert i == j;
  }

  // ----- periods -----

  ghost predicate IsPeriod(x: Word, p: nat) {
    0 < p && forall i: nat, j: nat :: j == i + p && j < |x| ==> x[i] == x[j]
  }

  ghost predicate IsSmallestPeriod(x: Word, p: nat) {
    IsPeriod(x, p) && forall q: nat :: IsPeriod(x, q) ==> p <= q
  }

  // A square of root length d centred at c, cut off by the ends of x.
  ghost predicate IsLocalRepetition(x: Word, c: nat, d: nat) {
    0 < d && forall i: nat, j: nat :: j == i + d && i < c <= j < |x| ==> x[i] == x[j]
  }

  ghost predicate IsSmallestLocalRepetition(x: Word, c: nat, d: nat) {
    IsLocalRepetition(x, c, d) && forall e: nat :: IsLocalRepetition(x, c, e) ==> d <= e
  }

  // a is p taken some number of times.
  ghost predicate IsMultiple(a: nat, p: nat)
    requires 0 < p
  {
    a == 0 || (p <= a && IsMultiple(a - p, p))
  }

  lemma {:induction false} MultiplesAreApart(a: nat, b: nat, p: nat)
    requires 0 < p && IsMultiple(a, p) && IsMultiple(b, p)
    ensures a < b ==> a + p <= b
    ensures a <= b ==> IsMultiple(b - a, p)
  {
    if 0 < a && 0 < b {
      MultiplesAreApart(a - p, b - p, p);
    }
  }

  // Division with a remainder: d is whole periods plus less than one.
  lemma {:induction false} SplitByPeriod(d: nat, p: nat) returns (a: nat, t: nat)
    requires 0 < p
    ensures d == a + t && IsMultiple(a, p) && t < p
  {
    if d < p {
      a, t := 0, d;
    } else {
      a, t := SplitByPeriod(d - p, p);
      a := a + p;
    }
  }

  lemma {:induction false} PeriodMultiple(x: Word, p: nat, i: nat, a: nat)
    requires IsPeriod(x, p) && IsMultiple(a, p)
    requires i + a < |x|
    ensures x[i] == x[i + a]
  {
    if a > 0 {
      PeriodMultiple(x, p, i, a - p);
    }
  }

  lemma PeriodOfSuffix(x: Word, cut: nat, p: nat)
    requires cut <= |x| && IsPeriod(x, p)
    ensures IsPeriod(x[cut..], p)
  {
    forall i: nat, j: nat | j == i + p && j < |x| - cut ensures x[cut..][i] == x[cut..][j] {
      assert x[cut + i] == x[cut + j];
    }
  }

  // ----- the Critical Factorization Theorem -----

  // A square that fits on both sides of cut: comparing the suffix one root
  // further left strips that root.
  lemma SquareInside(x: Word, cut: nat, d: nat, reversed: bool)
    requires d <= cut && cut + d <= |x|
    requires IsLocalRepetition(x, cut, d)
    requires LexBelow(x[cut - d..], x[cut..], reversed)
    ensures LexBelow(x[cut..], x[cut + d..], reversed)
  {
    var z := x[cut..cut + d];
    assert x[cut - d..cut] == z;
    assert x[cut - d..] == z + x[cut..];
    assert x[cut..] == z + x[cut + d..];
    LexStripPrefix(z, x[cut..], x[cut + d..], reversed);
  }

  // A square whose right copy runs off the word: the suffix one root further
  // left extends the suffix at cut.
  lemma SquareOverRight(x: Word, cut: nat, d: nat, reversed: bool)
    requires d <= cut < |x| < cut + d
    requires IsLocalRepetition(x, cut, d)
    ensures LexBelow(x[cut..], x[cut - d..], reversed)
  {
    assert x[cut - d..][..|x| - cut] == x[cut..];
    assert DecidedAt(x[cut..], x[cut - d..], |x| - cut, reversed);
  }

  // At the start of a maximal suffix every local repetition reaches past the
  // left end of the word.
  lemma LocalRepetitionOverflowsLeft(x: Word, cut: nat, d: nat, reversed: bool)
    requires IsMaximalSuffix(x, cut, reversed)
    requires IsLocalRepetition(x, cut, d)
    ensures cut < d
  {
    if d <= cut && cut + d <= |x| {
      SquareInside(x, cut, d, reversed);
      LexAsymmetric(x[cut..], x[cut + d..], reversed);
    } else if d <= cut {
      SquareOverRight(x, cut, d, reversed);
      LexAsymmetric(x[cut..], x[cut - d..], reversed);
    }
  }

  // A square over the left end whose right copy fits: seen from another start
  // left of cut, what follows the right copy is still below the suffix at cut.
  lemma SquareOverLeft(x: Word, cut: nat, other: nat, d: nat, reversed: bool)
    requires other <= cut < d && cut + d < |x|
    requires IsLocalRepetition(x, cut, d)
    requires LexBelow(x[other + d..], x[other..], reversed)
    ensures LexBelow(x[cut + d..], x[cut..], reversed)
  {
    var bridge := x[other..cut];
    assert x[other + d..cut + d] == bridge;
    assert x[other..] == bridge + x[cut..];
    assert x[other + d..] == bridge + x[cut + d..];
    LexStripPrefix(bridge, x[cut + d..], x[cut..], reversed);
  }

  // Cut at the later of the two maximal-suffix starts. Every local repetition
  // there, not only the smallest, is a period of the whole word.
  lemma CriticalFactorization(x: Word, cut: nat, other: nat, d: nat, reversed: bool)
    requires IsMaximalSuffix(x, cut, reversed)
    requires IsMaximalSuffix(x, other, !reversed)
    requires other <= cut
    requires IsLocalRepetition(x, cut, d)
    ensures cut < d && IsPeriod(x, d)
  {
    LocalRepetitionOverflowsLeft(x, cut, d, reversed);
    if cut + d < |x| {
      SquareOverLeft(x, cut, other, d, !reversed);
      BelowInBothOrdersIsPrefix(x[cut + d..], x[cut..], reversed);
    }
    forall i: nat, j: nat | j == i + d && j < |x| ensures x[i] == x[j] {
      if cut <= i {
        assert x[i] == x[cut..][i - cut] == x[cut + d..][i - cut];
      }
    }
  }

  // The cut is critical: its smallest local repetition is the smallest period
  // of the word, and the cut lies strictly inside one period.
  lemma CriticalCut(x: Word, cut: nat, other: nat, d: nat, reversed: bool)
    requires IsMaximalSuffix(x, cut, reversed)
    requires IsMaximalSuffix(x, other, !reversed)
    requires other <= cut
    ensures IsSmallestLocalRepetition(x, cut, d) <==> IsSmallestPeriod(x, d)
    ensures IsSmallestPeriod(x, d) ==> cut < d
  {
    forall e: nat ensures IsLocalRepetition(x, cut, e) <==> IsPeriod(x, e) {
      if IsLocalRepetition(x, cut, e) {
        CriticalFactorization(x, cut, other, e, reversed);
      }
    }
    if IsPeriod(x, d) {
      CriticalFactorization(x, cut, other, d, reversed);
    }
  }

  // ----- the period of the factor -----

  // The quick test of the search: the maximal suffix repeats in front of itself.
  predicate PeriodTest(x: Word, cut: nat, q: nat) {
    && cut <= |x|
    && q <= |x| - cut
    && x[..cut] == x[q..q + cut]
  }

  // A period of the word, less some periods q of the maximal suffix, is a
  // local repetition.
  lemma ReducedPeriodIsLocal(x: Word, cut: nat, q: nat, a: nat, r: nat)
    requires cut <= |x| && IsPeriod(x[cut..], q) && IsPeriod(x, a + r)
    requires a + r <= |x| - cut
    requires IsMultiple(a, q) && 0 < r
    ensures IsLocalRepetition(x, cut, r)
  {
    forall i: nat, j: nat | j == i + r && i < cut <= j < |x| ensures x[i] == x[j] {
      PeriodMultiple(x[cut..], q, j - cut, a);
      assert x[j] == x[cut..][j - cut] == x[cut..][j - cut + a] == x[j + a];
      assert x[i] == x[i + (a + r)];
    }
  }

  // If the word has any period no longer than the maximal suffix, then the
  // smallest period of that suffix is already a period of the word.
  lemma ShortPeriodIsFactorPeriod(x: Word, cut: nat, other: nat, q: nat, s: nat, reversed: bool)
    requires IsMaximalSuffix(x, cut, reversed)
    requires IsMaximalSuffix(x, other, !reversed)
    requires other <= cut
    requires IsSmallestPeriod(x[cut..], q)
    requires IsPeriod(x, s) && s <= |x| - cut
    ensures IsPeriod(x, q)
  {
    // s is whole periods q plus r, with 0 < r <= q.
    var a, t := SplitByPeriod(s - 1, q);
    var r := t + 1;
    ReducedPeriodIsLocal(x, cut, q, a, r);
    CriticalFactorization(x, cut, other, r, reversed);
    PeriodOfSuffix(x, cut, r);
  }

  // The quick test succeeds exactly when the factor's period is the smallest
  // period of the word. Otherwise every period exceeds both sides of the cut.
  lemma PeriodTestMeaning(x: Word, cut: nat, other: nat, q: nat, reversed: bool)
    requires IsMaximalSuffix(x, cut, reversed)
    requires IsMaximalSuffix(x, other, !reversed)
    requires other <= cut
    requires IsSmallestPeriod(x[cut..], q)
    ensures PeriodTest(x, cut, q) <==> IsSmallestPeriod(x, q)
    ensures !PeriodTest(x, cut, q) ==> forall s: nat :: IsPeriod(x, s) ==> cut < s && |x| - cut < s
  {
    assert IsPeriod(x[cut..], |x| - cut);
    if PeriodTest(x, cut, q) {
      forall i: nat, j: nat | j == i + q && j < |x| ensures x[i] == x[j] {
        if i < cut {
          assert x[i] == x[..cut][i] == x[q..q + cut][i];
        } else {
          assert x[i] == x[cut..][i - cut] == x[cut..][j - cut];
        }
      }
    }
    if IsPeriod(x, q) {
      forall s: nat | IsPeriod(x, s) ensures q <= s {
        PeriodOfSuffix(x, cut, s);
      }
    }
    forall s: nat | IsPeriod(x, s)
      ensures cut < s && (PeriodTest(x, cut, q) || |x| - cut < s)
    {
      CriticalFactorization(x, cut, other, s, reversed);
      if s <= |x| - cut {
        ShortPeriodIsFactorPeriod(x, cut, other, q, s, reversed);
        assert x[..cut] == x[q..q + cut];
      }
    }
  }
}
