// The maximal-suffix walk of the Two-Way search. The walk keeps the start
// `cut` of the best suffix so far and a challenger that starts one byte after
// `candidate`; `offset - 1` bytes of the two have been matched.
module SuffixWalks {
  import opened Machine
  import opened Words

  // cut partitions the needle; period is always positive.
  datatype Factor = Factor(cut: Size, period: Size)

  // Bytes i+e and j+e are the first to differ and put suffix i below suffix j.
  ghost predicate MismatchAt(x: Word, i: nat, j: nat, e: nat, reversed: bool) {
    && i + e < |x| && j + e < |x|
    && x[i..i + e] == x[j..j + e]
    && Before(x[i + e], x[j + e], reversed)
  }

  // Suffix i loses to suffix j by a mismatch within span bytes of j.
  ghost predicate Loses(x: Word, i: nat, j: nat, span: nat, reversed: bool) {
    exists e: nat :: MismatchAt(x, i, j, e, reversed) && i + e < j + span
  }

  // Suffix i loses to suffix j by a mismatch anywhere.
  ghost predicate Beaten(x: Word, i: nat, j: nat, reversed: bool) {
    exists e: nat :: MismatchAt(x, i, j, e, reversed)
  }

  // The walk's position as plain numbers: start is the challenger's first
  // byte and matched the number of bytes it shares with the suffix at cut.
  datatype Position = Position(cut: nat, period: nat, start: nat, matched: nat) {
    ghost predicate Fits(x: Word) {
      && matched < period
      && cut < start && IsMultiple(start - cut, period)
      && start + matched <= |x|
    }

    ghost function Seen(x: Word): Word requires Fits(x) { x[cut..start + matched] }

    // Grows with every comparison and stays below twice the needle's length.
    function Progress(): nat { cut + start + matched }

    ghost predicate Periodic(x: Word) {
      Fits(x) && IsPeriod(Seen(x), period)
    }

    // What the walk knows: every suffix left of cut is beaten; between cut and
    // the challenger the word is periodic, and inside the first period every
    // later start has already lost.
    ghost predicate Invariant(x: Word, reversed: bool) {
      && Periodic(x)
      && (forall i: nat :: cut < i < cut + period ==> Loses(x, i, cut, period, reversed))
      && (forall i: nat :: i < cut ==> Beaten(x, i, cut, reversed))
    }
  }

  // Moving a start by whole periods changes nothing inside the seen stretch.
  lemma ShiftedAgree(x: Word, w: Position, i: nat, a: nat, len: nat)
    requires w.Periodic(x) && IsMultiple(a, w.period)
    requires w.cut <= i && i + a + len == w.start + w.matched
    ensures x[i + a..i + a + len] == x[i..i + len]
  {
    var far, near := x[i + a..i + a + len], x[i..i + len];
    forall j: nat | j < len ensures far[j] == near[j] {
      PeriodMultiple(w.Seen(x), w.period, i - w.cut + j, a);
    }
  }

  lemma EqualSlices(x: Word, i: nat, j: nat, len: nat, e: nat)
    requires i + len <= |x| && j + len <= |x| && e <= len
    requires x[i..i + len] == x[j..j + len]
    ensures x[i..i + e] == x[j..j + e]
    ensures e < len ==> x[i + e] == x[j + e]
  {
    var u, v := x[i..i + len], x[j..j + len];
    assert x[i..i + e] == u[..e];
    assert x[j..j + e] == v[..e];
    assert e < len ==> x[i + e] == u[e] && x[j + e] == v[e];
  }

  lemma MismatchesCompose(x: Word, i: nat, j: nat, k: nat, d: nat, e: nat, reversed: bool)
    requires MismatchAt(x, i, j, d, reversed) && MismatchAt(x, j, k, e, reversed)
    ensures MismatchAt(x, i, k, if d <= e then d else e, reversed)
  {
    if d <= e {
      EqualSlices(x, j, k, e, d);
    } else {
      EqualSlices(x, i, j, d, e);
    }
  }

  lemma BeatenTransitive(x: Word, i: nat, j: nat, k: nat, reversed: bool)
    requires Beaten(x, i, j, reversed) && Beaten(x, j, k, reversed)
    ensures Beaten(x, i, k, reversed)
  {
    var d: nat :| MismatchAt(x, i, j, d, reversed);
    var e: nat :| MismatchAt(x, j, k, e, reversed);
    MismatchesCompose(x, i, j, k, d, e, reversed);
  }

  // ----- the three steps -----

  // Equal bytes extend the periodic stretch.
  lemma MatchStep(x: Word, w: Position)
    requires w.Periodic(x) && w.start + w.matched < |x|
    requires x[w.start + w.matched] == x[w.cut + w.matched]
    ensures IsPeriod(x[w.cut..w.start + w.matched + 1], w.period)
  {
    var longer := x[w.cut..w.start + w.matched + 1];
    forall i: nat, j: nat | j == i + w.period && j < |longer| ensures longer[i] == longer[j] {
      if j < |longer| - 1 {
        assert w.Seen(x)[i] == w.Seen(x)[j];
      } else {
        PeriodMultiple(w.Seen(x), w.period, w.matched, w.start - w.cut - w.period);
      }
    }
  }

  // The challenger's byte ranks below. A start whole periods after cut loses
  // at the mismatch itself ...
  lemma AlignedStartLoses(x: Word, w: Position, a: nat, len: nat, reversed: bool)
    requires w.Periodic(x) && w.start + w.matched < |x|
    requires Before(x[w.start + w.matched], x[w.cut + w.matched], reversed)
    requires 0 < a && IsMultiple(a, w.period) && w.cut + a + len == w.start + w.matched
    ensures MismatchAt(x, w.cut + a, w.cut, len, reversed)
  {
    ShiftedAgree(x, w, w.cut, a, len);
    MultiplesAreApart(w.start - w.cut, a, w.period);
    MultiplesAreApart(a, w.start - w.cut, w.period);
    PeriodMultiple(w.Seen(x), w.period, w.matched, w.start - w.cut - a);
  }

  // ... any other start loses where its image in the first period lost, if
  // that is early enough ...
  lemma ImageMismatchMoves(x: Word, w: Position, image: nat, a: nat, e: nat, reversed: bool)
    requires w.Periodic(x) && IsMultiple(a, w.period)
    requires w.cut <= image && MismatchAt(x, image, w.cut, e, reversed)
    requires image + a + e < w.start + w.matched
    ensures MismatchAt(x, image + a, w.cut, e, reversed)
  {
    var len := w.start + w.matched - image - a;
    ShiftedAgree(x, w, image, a, len);
    EqualSlices(x, image + a, image, len, e);
  }

  // ... and at the mismatch otherwise.
  lemma UnalignedStartLoses(x: Word, w: Position, image: nat, a: nat, e: nat, len: nat, reversed: bool)
    requires w.Periodic(x) && w.start + w.matched < |x| && IsMultiple(a, w.period)
    requires Before(x[w.start + w.matched], x[w.cut + w.matched], reversed)
    requires image + a + len == w.start + w.matched
    requires w.cut <= image && MismatchAt(x, image, w.cut, e, reversed) && image + e < w.cut + w.period
    requires len <= e
    ensures MismatchAt(x, image + a, w.cut, len, reversed)
  {
    hide IsMultiple;
    ShiftedAgree(x, w, image, a, len);
    MultiplesAreApart(w.start - w.cut, a, w.period);
    MultiplesAreApart(a, w.start - w.cut, w.period);
    EqualSlices(x, image, w.cut, e, len);
  }

  // The first-period image of a start between cut and the mismatch.
  lemma ImageOf(x: Word, w: Position, i: nat, reversed: bool) returns (a: nat, image: nat, e: nat)
    requires w.Invariant(x, reversed)
    requires w.cut < i
    ensures i == image + a && IsMultiple(a, w.period) && w.cut <= image < w.cut + w.period
    ensures image == w.cut || (MismatchAt(x, image, w.cut, e, reversed) && image + e < w.cut + w.period)
  {
    var t;
    a, t := SplitByPeriod(i - w.cut, w.period);
    image, e := w.cut + t, 0;
    if 0 < t {
      assert Loses(x, image, w.cut, w.period, reversed);
      e :| MismatchAt(x, image, w.cut, e, reversed) && image + e < w.cut + w.period;
    }
  }

  // So the whole stretch up to the mismatch becomes one period.
  lemma ChallengerLoses(x: Word, w: Position, i: nat, reversed: bool)
    requires w.Invariant(x, reversed) && w.start + w.matched < |x|
    requires Before(x[w.start + w.matched], x[w.cut + w.matched], reversed)
    requires w.cut < i <= w.start + w.matched
    ensures Loses(x, i, w.cut, w.start + w.matched + 1 - w.cut, reversed)
  {
    hide IsMultiple;
    var a, image, e := ImageOf(x, w, i, reversed);
    var len := w.start + w.matched - i;
    if image == w.cut {
      AlignedStartLoses(x, w, a, len, reversed);
      e := len;
    } else if e < len {
      ImageMismatchMoves(x, w, image, a, e, reversed);
    } else {
      UnalignedStartLoses(x, w, image, a, e, len, reversed);
      e := len;
    }
    assert MismatchAt(x, i, w.cut, e, reversed);
  }

  // The challenger's byte ranks above: every start left of the challenger is
  // beaten, and the challenger becomes the new cut.
  lemma ChallengerWins(x: Word, w: Position, i: nat, reversed: bool)
    requires w.Invariant(x, reversed) && w.start + w.matched < |x|
    requires Before(x[w.cut + w.matched], x[w.start + w.matched], reversed)
    requires i < w.start
    ensures Beaten(x, i, w.start, reversed)
  {
    assert IsMultiple(0, w.period);
    assert w.Periodic(x);
    hide Beaten, IsMultiple, MismatchAt;
    AlignedLosesToChallenger(x, w, w.cut, 0, reversed);
    if i < w.cut {
      EarlierIsBeaten(x, w, i, reversed);
      BeatenTransitive(x, i, w.cut, w.start, reversed);
    } else if w.cut < i {
      var a, image, e := ImageOf(x, w, i, reversed);
      if image == w.cut {
        AlignedLosesToChallenger(x, w, i, a, reversed);
      } else {
        MismatchIsEarly(x, w, image, a, e);
        ImageMismatchMoves(x, w, image, a, e, reversed);
        MismatchBeats(x, i, w.cut, e, reversed);
        BeatenTransitive(x, i, w.cut, w.start, reversed);
      }
    }
  }

  // A mismatch in the first period, moved to a start before the challenger,
  // falls before the challenger too.
  lemma MismatchIsEarly(x: Word, w: Position, image: nat, a: nat, e: nat)
    requires w.Fits(x) && IsMultiple(a, w.period) && w.cut <= image && image + a < w.start
    requires image + e < w.cut + w.period
    ensures image + a + e < w.start
  {
    hide IsMultiple;
    MultiplesAreApart(a, w.start - w.cut, w.period);
  }

  lemma EarlierIsBeaten(x: Word, w: Position, i: nat, reversed: bool)
    requires w.Invariant(x, reversed) && i < w.cut
    ensures Beaten(x, i, w.cut, reversed)
  {
  }

  lemma MismatchBeats(x: Word, i: nat, j: nat, e: nat, reversed: bool)
    requires MismatchAt(x, i, j, e, reversed)
    ensures Beaten(x, i, j, reversed)
  {
  }

  lemma AlignedLosesToChallenger(x: Word, w: Position, i: nat, a: nat, reversed: bool)
    requires w.Periodic(x) && w.start + w.matched < |x|
    requires Before(x[w.cut + w.matched], x[w.start + w.matched], reversed)
    requires IsMultiple(a, w.period) && i == w.cut + a < w.start
    ensures Beaten(x, i, w.start, reversed)
  {
    hide IsMultiple;
    MultiplesAreApart(a, w.start - w.cut, w.period);
    ShiftedAgree(x, w, i, w.start - i, w.matched);
    PeriodMultiple(w.Seen(x), w.period, w.matched, a);
    assert MismatchAt(x, i, w.start, w.matched, reversed);
  }

  lemma FirstPosition(x: Word, reversed: bool)
    requires 0 < |x|
    ensures Position(0, 1, 1, 0).Invariant(x, reversed)
  {
    assert IsMultiple(0, 1);
    assert |Position(0, 1, 1, 0).Seen(x)| == 1;
  }

  // Where one comparison leads, given the challenger's byte and the byte of
  // the best suffix it is compared with.
  function Next(w: Position, challenger: Byte, best: Byte, reversed: bool): Position
    requires w.cut < w.start
  {
    if challenger == best then
      if w.matched + 1 == w.period then w.(start := w.start + w.period, matched := 0)
      else w.(matched := w.matched + 1)
    else if Before(challenger, best, reversed) then
      var end := w.start + w.matched + 1;
      Position(w.cut, end - w.cut, end, 0)
    else
      Position(w.start, 1, w.start + 1, 0)
  }

  lemma AfterLoss(x: Word, w: Position, span: nat, reversed: bool)
    requires w.Invariant(x, reversed) && w.start + w.matched < |x|
    requires Before(x[w.start + w.matched], x[w.cut + w.matched], reversed)
    requires span == w.start + w.matched + 1 - w.cut
    ensures Position(w.cut, span, w.cut + span, 0).Invariant(x, reversed)
  {
    forall i: nat | w.cut < i < w.cut + span ensures Loses(x, i, w.cut, span, reversed) {
      ChallengerLoses(x, w, i, reversed);
    }
    assert IsMultiple(0, span);
  }

  lemma AfterWin(x: Word, w: Position, reversed: bool)
    requires w.Invariant(x, reversed) && w.start + w.matched < |x|
    requires Before(x[w.cut + w.matched], x[w.start + w.matched], reversed)
    ensures Position(w.start, 1, w.start + 1, 0).Invariant(x, reversed)
  {
    forall i: nat | i < w.start ensures Beaten(x, i, w.start, reversed) {
      ChallengerWins(x, w, i, reversed);
    }
    assert IsMultiple(0, 1);
  }

  // Every step keeps the invariant and makes progress.
  lemma NextKeepsInvariant(x: Word, w: Position, reversed: bool)
    requires w.Invariant(x, reversed) && w.start + w.matched < |x|
    ensures var next := Next(w, x[w.start + w.matched], x[w.cut + w.matched], reversed);
            next.Invariant(x, reversed) && next.Progress() > w.Progress()
  {
    var challenger, best := x[w.start + w.matched], x[w.cut + w.matched];
    if challenger == best {
      MatchStep(x, w);
    } else if Before(challenger, best, reversed) {
      AfterLoss(x, w, w.start + w.matched + 1 - w.cut, reversed);
    } else {
      AfterWin(x, w, reversed);
    }
  }

  // ----- the finished walk -----

  lemma BeatenIsBelow(x: Word, i: nat, j: nat, reversed: bool)
    requires Beaten(x, i, j, reversed)
    ensures LexBelow(x[i..], x[j..], reversed)
  {
    var e: nat :| MismatchAt(x, i, j, e, reversed);
    assert x[i..][..e] == x[i..i + e] && x[j..][..e] == x[j..j + e];
    assert forall t: nat :: t < e ==> x[i..][t] == x[i..][..e][t] && x[j..][t] == x[j..][..e][t];
    assert DecidedAt(x[i..], x[j..], e, reversed);
  }

  // With the seen stretch reaching the end of the word, every later start
  // loses to cut or is a prefix of it.
  lemma LaterStartLoses(x: Word, w: Position, i: nat, reversed: bool)
    requires w.Invariant(x, reversed) && w.start + w.matched == |x|
    requires w.cut < i < |x|
    ensures LexBelow(x[i..], x[w.cut..], reversed)
  {
    var a, image, e := ImageOf(x, w, i, reversed);
    var len := |x| - i;
    if image != w.cut && e < len {
      ImageMismatchMoves(x, w, image, a, e, reversed);
      BeatenIsBelow(x, i, w.cut, reversed);
    } else {
      ShiftedAgree(x, w, image, a, len);
      if image != w.cut {
        EqualSlices(x, image, w.cut, e, len);
      }
      PrefixIsBelow(x, i, w.cut, len, reversed);
    }
  }

  lemma PrefixIsBelow(x: Word, i: nat, j: nat, len: nat, reversed: bool)
    requires j < i && i + len == |x| && x[i..i + len] == x[j..j + len]
    ensures LexBelow(x[i..], x[j..], reversed)
  {
    assert x[i..] == x[i..i + len] && x[j..][..len] == x[j..j + len];
    assert forall t: nat :: t < len ==> x[j..][t] == x[j..][..len][t];
    assert DecidedAt(x[i..], x[j..], len, reversed);
  }

  lemma ShiftThatLosesIsNoPeriod(x: Word, cut: nat, q: nat, span: nat, reversed: bool)
    requires cut <= |x| && 0 < q && Loses(x, cut + q, cut, span, reversed)
    ensures !IsPeriod(x[cut..], q)
  {
    var e: nat :| MismatchAt(x, cut + q, cut, e, reversed) && cut + q + e < cut + span;
    assert x[cut..][e] != x[cut..][q + e];
  }

  lemma FinishedWalk(x: Word, w: Position, reversed: bool)
    requires w.Invariant(x, reversed) && w.start + w.matched == |x|
    ensures IsMaximalSuffix(x, w.cut, reversed)
    ensures IsSmallestPeriod(x[w.cut..], w.period) && w.cut + w.period <= |x|
  {
    forall i: nat | i < |x| && i != w.cut ensures LexBelow(x[i..], x[w.cut..], reversed) {
      if w.cut < i {
        LaterStartLoses(x, w, i, reversed);
      } else {
        BeatenIsBelow(x, i, w.cut, reversed);
      }
    }
    assert w.Seen(x) == x[w.cut..];
    forall q: nat | IsPeriod(x[w.cut..], q) ensures w.period <= q {
      if q < w.period {
        ShiftThatLosesIsNoPeriod(x, w.cut, q, w.period, reversed);
      }
    }
  }

  // ----- the walk itself -----

  const WALK_PASSES: nat := 2

  class SuffixWalk {
    var factor: Factor
    var candidate: Size
    var offset: Size
    ghost var comparisons: nat

    ghost function Here(): Position
      requires 0 < offset
      reads this
    {
      Position(factor.cut, factor.period, candidate + 1, offset - 1)
    }

    ghost predicate Valid(x: Word, reversed: bool)
      reads this
    {
      0 < offset && |x| <= SIZE_MAX && Here().Invariant(x, reversed)
    }

    ghost function Progress(): nat
      requires 0 < offset
      reads this
    {
      Here().Progress()
    }

    predicate Complete(length: Size)
      requires candidate <= length
      reads this
    {
      offset >= length - candidate
    }

    constructor ()
      ensures Starts() && comparisons == 0
    {
      factor := Factor(0, 1);
      candidate := 0;
      offset := 1;
      comparisons := 0;
    }

    predicate Starts()
      reads this
    {
      factor == Factor(0, 1) && candidate == 0 && offset == 1
    }

    lemma StartIsValid(x: Word, reversed: bool)
      requires 0 < |x| <= SIZE_MAX && Starts()
      ensures Valid(x, reversed) && Progress() == 1
    {
      FirstPosition(x, reversed);
    }

    // One comparison. The three branches are a match, a losing challenger and
    // a winning challenger.
    method Step(candidateByte: Byte, suffixByte: Byte, reversed: bool)
      requires 0 < offset && factor.cut <= candidate && candidate + offset < SIZE_MAX
      modifies this
      ensures 0 < offset && Here() == Next(old(Here()), candidateByte, suffixByte, reversed)
      ensures comparisons == old(comparisons) + 1
    {
      comparisons := comparisons + 1;
      if candidateByte == suffixByte {
        if offset == factor.period {
          candidate := candidate + factor.period;
          offset := 1;
          return;
        }
        offset := offset + 1;
        return;
      }
      if Before(candidateByte, suffixByte, reversed) {
        candidate := candidate + offset;
        offset := 1;
        factor := factor.(period := candidate - factor.cut + 1);
        return;
      }
      candidate := candidate + 1;
      factor := Factor(candidate, 1);
      offset := 1;
    }

    // At most one comparison per needle byte.
    method RunPass(needle: Word, reversed: bool) returns (complete: bool)
      requires Valid(needle, reversed)
      modifies this
      ensures Valid(needle, reversed) && complete == Complete(|needle|)
      ensures !complete ==> Progress() >= old(Progress()) + |needle|
      ensures old(comparisons) <= comparisons
      ensures Progress() - comparisons >= old(Progress() - comparisons)
    {
      hide Next, Loses, Beaten, IsMultiple, IsPeriod;
      var step := 0;
      while step < |needle|
        invariant Valid(needle, reversed) && step <= |needle|
        invariant Progress() >= old(Progress()) + step
        invariant old(comparisons) <= comparisons
        invariant Progress() - comparisons >= old(Progress() - comparisons)
      {
        if offset >= |needle| - candidate {
          return true;
        }
        var suffixByte := needle[factor.cut + offset - 1];
        var candidateByte := needle[candidate + offset];
        NextKeepsInvariant(needle, Here(), reversed);
        Step(candidateByte, suffixByte, reversed);
        step := step + 1;
      }
      return offset >= |needle| - candidate;
    }
  }

  // Two passes always finish: the start of the greatest suffix in the chosen
  // order, and the smallest period of that suffix, in fewer than two
  // comparisons per byte.
  method FindMaximalSuffix(needle: Word, reversed: bool) returns (factor: Factor, ghost comparisons: nat)
    requires 0 < |needle| <= SIZE_MAX
    ensures IsMaximalSuffix(needle, factor.cut, reversed)
    ensures IsSmallestPeriod(needle[factor.cut..], factor.period)
    ensures comparisons < 2 * |needle|
  {
    var walk := new SuffixWalk();
    walk.StartIsValid(needle, reversed);
    var pass := 0;
    while pass < WALK_PASSES
      invariant pass <= WALK_PASSES
      invariant fresh(walk) && walk.Valid(needle, reversed)
      invariant walk.Progress() > walk.comparisons
      invariant pass == 1 ==> walk.Progress() > |needle|
      invariant pass == WALK_PASSES ==> walk.Complete(|needle|)
    {
      var complete := walk.RunPass(needle, reversed);
      if complete {
        FinishedWalk(needle, walk.Here(), reversed);
        return walk.factor, walk.comparisons;
      }
      pass := pass + 1;
    }
    assert walk.Complete(|needle|);
    FinishedWalk(needle, walk.Here(), reversed);
    return walk.factor, walk.comparisons;
  }
}
