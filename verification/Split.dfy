// Splitting a byte span on a separator into caller-owned storage.
module Split {
  import opened Machine
  import opened StrStatus
  import opened Words
  import opened TwoWay

  // ----- the specification -----

  // Index of the first separator from `from` on, or |s|.
  function NextSeparator(s: Word, separator: Byte, from: nat): (r: nat)
    requires from <= |s|
    ensures from <= r <= |s|
    decreases |s| - from
  {
    if from == |s| || s[from] == separator then from else NextSeparator(s, separator, from + 1)
  }

  lemma {:induction false} NextSeparatorIsFirst(s: Word, separator: Byte, from: nat)
    requires from <= |s|
    ensures var r := NextSeparator(s, separator, from);
            && (forall i: nat :: from <= i < r ==> s[i] != separator)
            && separator !in s[from..r]
            && (r < |s| ==> s[r] == separator)
    decreases |s| - from
  {
    if from < |s| && s[from] != separator {
      NextSeparatorIsFirst(s, separator, from + 1);
    }
  }

  // The parts of s from `from` on.
  function PartsFrom(s: Word, separator: Byte, from: nat): (parts: seq<Word>)
    requires from <= |s|
    ensures 0 < |parts| <= |s| - from + 1
    decreases |s| - from
  {
    var end := NextSeparator(s, separator, from);
    if end == |s| then [s[from..]] else [s[from..end]] + PartsFrom(s, separator, end + 1)
  }

  function Parts(s: Word, separator: Byte): seq<Word> {
    PartsFrom(s, separator, 0)
  }

  function Join(parts: seq<Word>, separator: Byte): Word
    requires 0 < |parts|
  {
    if |parts| == 1 then parts[0] else parts[0] + [separator] + Join(parts[1..], separator)
  }

  function CountSeparators(s: Word, separator: Byte, from: nat): nat
    requires from <= |s|
    decreases |s| - from
  {
    if from == |s| then 0
    else (if s[from] == separator then 1 else 0) + CountSeparators(s, separator, from + 1)
  }

  // No part contains the separator.
  predicate AllFree(parts: seq<Word>, separator: Byte) {
    parts == [] || (separator !in parts[0] && AllFree(parts[1..], separator))
  }

  // ----- its properties -----

  lemma {:induction false} JoinRebuilds(s: Word, separator: Byte, from: nat)
    requires from <= |s|
    ensures Join(PartsFrom(s, separator, from), separator) == s[from..]
    decreases |s| - from
  {
    var end := NextSeparator(s, separator, from);
    if end < |s| {
      NextSeparatorIsFirst(s, separator, from);
      JoinRebuilds(s, separator, end + 1);
      var rest := PartsFrom(s, separator, end + 1);
      assert ([s[from..end]] + rest)[1..] == rest;
      assert s[from..] == s[from..end] + [separator] + s[end + 1..];
    }
  }

  lemma {:induction false} PartsHaveNoSeparator(s: Word, separator: Byte, from: nat)
    requires from <= |s|
    ensures AllFree(PartsFrom(s, separator, from), separator)
    decreases |s| - from
  {
    var end := NextSeparator(s, separator, from);
    var parts := PartsFrom(s, separator, from);
    NextSeparatorIsFirst(s, separator, from);
    if end == |s| {
      assert parts[0] == s[from..end] && parts[1..] == [];
    } else {
      PartsHaveNoSeparator(s, separator, end + 1);
      assert parts[1..] == PartsFrom(s, separator, end + 1);
    }
  }

  lemma {:induction false} CountUpTo(s: Word, separator: Byte, from: nat, end: nat)
    requires from <= end <= |s|
    requires forall i: nat :: from <= i < end ==> s[i] != separator
    ensures CountSeparators(s, separator, from) == CountSeparators(s, separator, end)
    decreases end - from
  {
    if from < end {
      CountUpTo(s, separator, from + 1, end);
    }
  }

  // One part more than there are separators.
  lemma {:induction false} PartCount(s: Word, separator: Byte, from: nat)
    requires from <= |s|
    ensures |PartsFrom(s, separator, from)| == CountSeparators(s, separator, from) + 1
    decreases |s| - from
  {
    var end := NextSeparator(s, separator, from);
    NextSeparatorIsFirst(s, separator, from);
    CountUpTo(s, separator, from, end);
    if end < |s| {
      PartCount(s, separator, end + 1);
    }
  }

  lemma {:induction false} CountBound(s: Word, separator: Byte, from: nat)
    requires from <= |s|
    ensures CountSeparators(s, separator, from) <= |s| - from
    ensures CountSeparators(s, separator, from) == |s| - from <==>
              forall i: nat :: from <= i < |s| ==> s[i] == separator
    decreases |s| - from
  {
    if from < |s| {
      CountBound(s, separator, from + 1);
    }
  }

  // The converse round trip: splitting a join gives the same parts back, so
  // the split is the only separator-free decomposition.
  lemma {:induction false} SplitOfJoin(s: Word, from: nat, parts: seq<Word>, separator: Byte)
    requires 0 < |parts| && AllFree(parts, separator)
    requires from <= |s| && s[from..] == Join(parts, separator)
    ensures PartsFrom(s, separator, from) == parts
    decreases |parts|
  {
    var first := parts[0];
    var end := from + |first|;
    if |parts| == 1 {
      assert s[from..] == first;
      UnfoldParts(s, separator, from, end);
    } else {
      var rest := parts[1..];
      FirstSegment(s, from, first, separator, Join(rest, separator));
      UnfoldParts(s, separator, from, end);
      SplitOfJoin(s, end + 1, rest, separator);
      assert [first] + rest == parts;
    }
  }

  lemma FirstSegment(s: Word, from: nat, part: Word, separator: Byte, rest: Word)
    requires from <= |s| && s[from..] == part + [separator] + rest
    ensures var end := from + |part|;
            && end < |s| && s[from..end] == part && s[end] == separator && s[end + 1..] == rest
  {
    var tail := s[from..];
    assert tail[..|part|] == part && tail[|part|] == separator && tail[|part| + 1..] == rest;
  }

  // The first part ends at the first separator.
  lemma UnfoldParts(s: Word, separator: Byte, from: nat, end: nat)
    requires from <= end <= |s| && separator !in s[from..end]
    requires end < |s| ==> s[end] == separator
    ensures PartsFrom(s, separator, from)
         == if end == |s| then [s[from..end]] else [s[from..end]] + PartsFrom(s, separator, end + 1)
  {
    NextSeparatorIsFirst(s, separator, from);
    assert forall i: nat :: from <= i < end ==> s[i] == s[from..end][i - from];
    assert s[from..|s|] == s[from..];
  }

  // The count is unrepresentable exactly for a source of SIZE_MAX separators.
  lemma CountOverflow(s: Word, separator: Byte)
    requires |s| <= SIZE_MAX
    ensures |Parts(s, separator)| > SIZE_MAX <==>
              |s| == SIZE_MAX && forall i: nat :: i < |s| ==> s[i] == separator
  {
    PartCount(s, separator, 0);
    CountBound(s, separator, 0);
  }

  lemma LastPart(s: Word, separator: Byte)
    ensures PartsFrom(s, separator, |s|) == [s[|s|..]]
  {
  }

  // One round of the splitting loop.
  lemma TakeOnePart(s: Word, separator: Byte, done: seq<Word>, start: nat)
    requires start <= |s| && Parts(s, separator) == done + PartsFrom(s, separator, start)
    ensures var end := NextSeparator(s, separator, start);
            Parts(s, separator) ==
              if end == |s| then done + [s[start..]]
              else (done + [s[start..end]]) + PartsFrom(s, separator, end + 1)
  {
  }

  // ----- the operation -----

  // A stored part: where it starts in the source and its length.
  datatype Part = Part(start: Size, length: Size)

  // Where the k-th of consecutive parts starts: each is followed by one separator.
  function StartOf(parts: seq<Word>, k: nat): nat
    requires k <= |parts|
  {
    if k == 0 then 0 else StartOf(parts, k - 1) + |parts[k - 1]| + 1
  }

  lemma {:induction false} StartKept(parts: seq<Word>, last: Word, k: nat)
    requires k <= |parts|
    ensures StartOf(parts + [last], k) == StartOf(parts, k)
  {
    if 0 < k {
      StartKept(parts, last, k - 1);
    }
  }

  lemma NoStart()
    ensures StartOf([], 0) == 0
  {
  }

  lemma NextStart(parts: seq<Word>, last: Word)
    ensures StartOf(parts + [last], |parts| + 1) == StartOf(parts, |parts|) + |last| + 1
  {
    StartKept(parts, last, |parts|);
  }

  // The part is those bytes of the source, and at that place in it.
  predicate Designates(part: Part, s: Word, at: nat, expected: Word) {
    && part.start == at && part.length == |expected|
    && at + |expected| <= |s| && s[at..at + |expected|] == expected
  }

  // str_split_out_t: the caller's array, its capacity, and the result count.
  class SplitOut {
    var parts: array?<Part>
    var cap: Size
    var count: Size

    constructor (parts: array?<Part>, cap: Size)
      ensures this.parts == parts && this.cap == cap
    {
      this.parts := parts;
      this.cap := cap;
      count := 0;
    }

    // The caller's duty: cap counts writable elements.
    predicate Valid()
      reads this
    {
      parts != null ==> cap <= parts.Length
    }

    twostate predicate Untouched()
      reads this, parts
    {
      count == old(count) && parts == old(parts) && (parts != null ==> parts[..] == old(parts[..]))
    }

    // The array holds the parts found so far, as many as fit.
    ghost predicate Holds(s: Word, done: seq<Word>)
      reads this, parts
    {
      && Valid() && (0 < cap ==> parts != null)
      && forall k: nat :: k < |done| && k < cap ==> Designates(parts[k], s, StartOf(done, k), done[k])
    }

    // Elements from n on, and those past cap, are as they were.
    twostate predicate KeepsFrom(n: nat)
      reads this, parts
    {
      && parts == old(parts) && cap == old(cap)
      && (parts != null ==> forall k: nat :: (n <= k || cap <= k) && k < parts.Length ==> parts[k] == old(parts[k]))
    }

    method Store(index: Size, part: Part, ghost s: Word, ghost done: seq<Word>, ghost found: Word)
      requires Holds(s, done) && index == |done| && Designates(part, s, StartOf(done, index), found)
      modifies parts
      ensures Holds(s, done + [found]) && KeepsFrom(index + 1)
      ensures index < cap ==> parts[index] == part
      ensures parts != null && index < parts.Length ==>
                forall k: nat :: k < index ==> parts[k] == old(parts[k])
    {
      hide StartOf;
      if index < cap {
        parts[index] := part;
      }
      forall k: nat | k <= |done| && k < cap
        ensures Designates(parts[k], s, StartOf(done + [found], k), (done + [found])[k]) {
        StartKept(done, found, k);
      }
    }

    // Stored are the first min(count, cap) parts; the rest of the array is
    // left alone.
    method SplitView(source: View, separator: Byte) returns (status: Status)
      requires Valid() && source.Representable()
      modifies this`count, parts
      ensures Valid()
      ensures status == ErrArg <==> !source.Valid() || (0 < cap && parts == null)
      ensures status == ErrOverflow <==>
                && source.Valid() && (0 < cap ==> parts != null)
                && |Parts(source.Content(), separator)| > SIZE_MAX
      ensures status == ErrArg || status == ErrOverflow || status == Ok
      ensures status != Ok ==> Untouched()
      ensures status == Ok ==>
                && count == |Parts(source.Content(), separator)|
                && Holds(source.Content(), Parts(source.Content(), separator))
                && KeepsFrom(count)
    {
      if (0 < cap && parts == null) || !source.Valid() {
        return ErrArg;
      }
      status := WriteParts(source.Content(), separator);
    }

    method WriteParts(s: Word, separator: Byte) returns (status: Status)
      requires Valid() && |s| <= SIZE_MAX && (0 < cap ==> parts != null)
      modifies this`count, parts
      ensures Valid()
      ensures status == if |Parts(s, separator)| > SIZE_MAX then ErrOverflow else Ok
      ensures status != Ok ==> Untouched()
      ensures status == Ok ==>
                && count == |Parts(s, separator)|
                && Holds(s, Parts(s, separator))
                && KeepsFrom(count)
    {
      CountOverflow(s, separator);
      var overflows := IsAllSeparators(s, separator);
      if overflows {
        return ErrOverflow;
      }
      var found, start;
      ghost var done;
      found, start, done := StoreClosedParts(s, separator);
      Store(found, Part(start, |s| - start), s, done, s[start..]);
      count := found + 1;
      return Ok;
    }

    // All parts but the last, which no separator ends.
    method StoreClosedParts(s: Word, separator: Byte)
      returns (found: Size, start: Size, ghost done: seq<Word>)
      requires |s| <= SIZE_MAX && |Parts(s, separator)| <= SIZE_MAX && Holds(s, [])
      modifies parts
      ensures start <= |s| && found == |done| && Parts(s, separator) == done + [s[start..]]
      ensures start == StartOf(done, found)
      ensures Holds(s, done) && KeepsFrom(found)
    {
      hide StartOf, PartsFrom, NextSeparator;
      NoStart();
      done, start, found := [], 0, 0;
      while start < |s|
        invariant start <= |s| && found == |done| && start == StartOf(done, found)
        invariant Parts(s, separator) == done + PartsFrom(s, separator, start)
        invariant Holds(s, done) && KeepsFrom(found)
        decreases |s| - start
      {
        var end := FindSeparator(s, separator, start);
        TakeOnePart(s, separator, done, start);
        if end == NPOS {
          return;
        }
        Store(found, Part(start, end - start), s, done, s[start..end]);
        NextStart(done, s[start..end]);
        done := done + [s[start..end]];
        found := found + 1;
        start := end + 1;
      }
      LastPart(s, separator);
    }
  }

  // The one source whose part count would not fit: SIZE_MAX separators.
  method IsAllSeparators(s: Word, separator: Byte) returns (overflows: bool)
    requires |s| <= SIZE_MAX
    ensures overflows <==> |s| == SIZE_MAX && forall i: nat :: i < |s| ==> s[i] == separator
  {
    if |s| < SIZE_MAX {
      return false;
    }
    var i := 0;
    while i < |s| && s[i] == separator
      invariant i <= |s| && forall j: nat :: j < i ==> s[j] == separator
    {
      i := i + 1;
    }
    return i == |s|;
  }

  method FindSeparator(s: Word, separator: Byte, from: Size) returns (idx: Size)
    requires from < |s| <= SIZE_MAX
    ensures idx == if NextSeparator(s, separator, from) == |s| then NPOS else NextSeparator(s, separator, from)
  {
    idx := from;
    while idx < |s|
      invariant from <= idx <= |s|
      invariant NextSeparator(s, separator, idx) == NextSeparator(s, separator, from)
    {
      if s[idx] == separator {
        return idx;
      }
      idx := idx + 1;
    }
    return NPOS;
  }
}
