// Overlap-safe mutation of str_t. A source may lie inside the buffer being
// edited, may cross the insertion point, and the buffer may move on growth.
module StrBuffer {
  import opened Machine
  import opened StrStatus
  import opened Capacity

  const NUL: Byte := 0

  // A pointer into an allocation. The allocation is an array of exactly its
  // size, so two pointers alias exactly when their arrays are the same.
  datatype Pointer = Null | At(memory: array<Byte>, offset: nat)

  // The caller's duty: a non-null source is readable for len bytes.
  predicate Readable(source: Pointer, len: nat) {
    source.At? && 0 < len ==> source.offset + len <= source.memory.Length
  }

  function SourceBytes(source: Pointer, len: nat): seq<Byte>
    requires Readable(source, len)
    reads if source.At? then {source.memory} else {}
  {
    if source.At? && 0 < len then source.memory[..][source.offset..source.offset + len] else []
  }

  // Replace `removed` bytes at idx by the inserted ones.
  function Splice(content: seq<Byte>, idx: nat, removed: nat, inserted: seq<Byte>): seq<Byte>
    requires idx + removed <= |content|
  {
    content[..idx] + inserted + content[idx + removed..]
  }

  // The sequence with the given bytes written at an offset.
  function Overwrite(s: seq<Byte>, at: nat, bytes: seq<Byte>): seq<Byte>
    requires at + |bytes| <= |s|
  {
    seq(|s|, k requires 0 <= k < |s| => if at <= k < at + |bytes| then bytes[k - at] else s[k])
  }

  lemma OverwriteTail(s: seq<Byte>, at: nat, bytes: seq<Byte>)
    requires at + |bytes| <= |s|
    ensures Overwrite(s, at, bytes)[..at + |bytes|] == s[..at] + bytes
  {
  }

  lemma SlicesOfEqualPrefix(s: seq<Byte>, t: seq<Byte>, n: nat, from: nat, count: nat)
    requires n <= |s| && n <= |t| && s[..n] == t[..n] && from + count <= n
    ensures s[from..from + count] == t[from..from + count]
  {
    assert s[from..from + count] == s[..n][from..from + count];
    assert t[from..from + count] == t[..n][from..from + count];
  }

  // memmove: what is written is what the source held before the call, however
  // the two ranges overlap.
  method MoveBytes(target: array<Byte>, at: nat, source: array<Byte>, from: nat, len: nat)
    requires at + len <= target.Length && from + len <= source.Length
    modifies target
    ensures target[..] == Overwrite(old(target[..]), at, old(source[..])[from..from + len])
  {
    var staged := source[..][from..from + len];
    forall i | 0 <= i < len {
      target[at + i] := staged[i];
    }
  }

  class Str {
    var buf: array?<Byte>
    var len: Size
    var cap: Size
    var status: Status
    ghost var moved: nat  // bytes copied by reallocation so far

    ghost predicate Valid()
      reads this, buf
    {
      && (cap == 0 ==> buf == null && len == 0)
      && (0 < cap ==> buf != null && buf.Length == cap && len < cap && buf[len] == NUL)
    }

    ghost function Content(): seq<Byte>
      requires Valid()
      reads this, buf
    {
      if cap == 0 then [] else buf[..len]
    }

    // A failed operation keeps bytes, length, capacity and ownership.
    twostate predicate Untouched()
      reads this, buf
    {
      && buf == old(buf) && len == old(len) && cap == old(cap) && moved == old(moved)
      && (buf != null ==> buf[..] == old(buf[..]))
    }

    constructor ()
      ensures Valid() && Content() == [] && cap == 0 && status == Ok && moved == 0
    {
      buf, len, cap, status, moved := null, 0, 0, Ok, 0;
    }

    predicate IsInside(source: Pointer)
      reads this
    {
      source.At? && buf != null && source.memory == buf && source.offset < cap
    }

    // A source inside the buffer may use the content and its terminator, but
    // no spare capacity.
    predicate SpanIsLegal(source: Pointer, count: nat)
      reads this
    {
      IsInside(source) ==> source.offset <= len && count <= len - source.offset + 1
    }

    // ----- growth -----

    // realloc or malloc: refuses, or moves to a fresh allocation. The old
    // allocation's bytes are lost.
    method GrowHeap(newCap: Size) returns (result: Status)
      requires Valid() && cap < newCap
      modifies this, buf
      ensures Valid() && status == old(status)
      ensures result == Ok || (result == ErrAlloc && Untouched())
      ensures result == Ok ==>
                && fresh(buf) && cap == newCap && len == old(len) && moved == old(moved) + old(cap)
                && (old(cap) > 0 ==> buf[..old(cap)] == old(buf[..]))
    {
      var refused: bool := *;
      if refused {
        return ErrAlloc;
      }
      var grown := new Byte[newCap];
      if buf == null {
        grown[0] := NUL;
      } else {
        MoveBytes(grown, 0, buf, 0, cap);
        assert grown[..cap] == buf[..];
        var garbage: seq<Byte> := *;
        forall i | 0 <= i < cap {
          buf[i] := if i < |garbage| then garbage[i] else NUL;
        }
      }
      moved := moved + cap;
      buf := grown;
      cap := newCap;
      return Ok;
    }

    method EnsureCapacity(need: Size) returns (result: Status)
      requires Valid()
      modifies this, buf
      ensures Valid() && status == old(status)
      ensures need <= old(cap) ==> result == Ok && Untouched()
      ensures result == Ok || (result == ErrAlloc && Untouched())
      ensures result == Ok ==> Growth(cap, moved) == Growth(old(cap), old(moved)).Ensure(need)
      ensures result == Ok ==> need <= cap && len == old(len) && Content() == old(Content())
      ensures result == Ok && 0 < need ==> buf != null && buf[..][..len] == old(Content())
      ensures result == Ok && old(cap) < need ==>
                fresh(buf) && (old(cap) > 0 ==> buf[..old(cap)] == old(buf[..]))
    {
      if need <= cap {
        return Ok;
      }
      ChosenCapacityBounds(cap, need);
      ghost var before := if buf == null then [] else buf[..];
      var chosen, newCap := ChooseCapacity(cap, need);
      result := GrowHeap(newCap);
      if result == Ok && 0 < |before| {
        SlicesOfEqualPrefix(buf[..], before, |before|, 0, len);
      }
    }

    method RecordFailure(failure: Status) returns (result: Status)
      requires failure != Ok
      modifies this`status
      ensures result == status == failure
    {
      status := failure;
      result := failure;
    }

    // ----- error conditions -----

    // What a mutator answers before it touches anything, for a write of count
    // source bytes after base content bytes: a sticky status, a null source,
    // an unrepresentable size, or a self-source reaching into spare capacity.
    function WriteVerdict(base: nat, source: Pointer, count: nat): Status
      reads this
    {
      if status != Ok then status
      else if count == 0 then Ok
      else if source.Null? then ErrArg
      else if base + count + 1 > SIZE_MAX then ErrOverflow
      else if !SpanIsLegal(source, count) then ErrArg
      else Ok
    }

    function InsertVerdict(idx: nat, source: Pointer, count: nat): Status
      reads this
    {
      if status == Ok && (count == 0 || source.At?) && len < idx then ErrRange
      else WriteVerdict(len, source, count)
    }

    // An equal-span replacement needs no room; any other is a write after the
    // bytes that stay.
    function ReplaceVerdict(idx: nat, removed: nat, source: Pointer, count: nat): Status
      reads this
    {
      if status != Ok then status
      else if 0 < count && source.Null? then ErrArg
      else if len < idx + removed then ErrRange
      else if 0 < count && removed == count then if SpanIsLegal(source, count) then Ok else ErrArg
      else WriteVerdict(len - removed, source, count)
    }

    method BeginMutation(source: Pointer, count: Size) returns (result: Status)
      modifies this`status
      ensures result == status
      ensures result == if old(status) != Ok then old(status)
                        else if 0 < count && source.Null? then ErrArg else Ok
    {
      if status != Ok {
        return status;
      }
      if 0 < count && source.Null? {
        result := RecordFailure(ErrArg);
        return;
      }
      return Ok;
    }

    // Make room for count bytes after base and return where the source bytes
    // now are.
    method PrepareWrite(source: Pointer, count: Size, base: Size)
      returns (result: Status, ready: Pointer)
      requires Valid() && status == Ok
      requires source.At? && 0 < count && Readable(source, count) && base <= len
      modifies this, buf
      ensures Valid() && status == Ok
      ensures result == old(WriteVerdict(base, source, count))
           || (old(WriteVerdict(base, source, count)) == Ok && result == ErrAlloc && old(cap) < base + count + 1)
      ensures result != Ok ==> Untouched()
      ensures result == Ok ==> Prepared(source, count, base, ready)
    {
      ready := source;
      if base > SIZE_MAX - count || base + count > SIZE_MAX - 1 {
        return ErrOverflow, source;
      }
      var need := base + count + 1;
      var isInside := IsInside(source);
      if isInside && (source.offset > len || count > len - source.offset + 1) {
        return ErrArg, source;
      }
      ghost var before := if buf == null then [] else buf[..];
      result := EnsureCapacity(need);
      if result != Ok {
        return;
      }
      if isInside {
        ready := At(buf, source.offset);
        SlicesOfEqualPrefix(buf[..], before, |before|, source.offset, count);
      }
    }

    // Room was made, content and source bytes are where ready and buf say.
    twostate predicate Prepared(source: Pointer, count: nat, base: nat, new ready: Pointer)
      requires old(Valid()) && Readable(source, count) && base + count + 1 <= SIZE_MAX
      reads this, buf, if ready.At? then {ready.memory} else {}
    {
      && base + count + 1 <= cap && len == old(len)
      && Growth(cap, moved) == Growth(old(cap), old(moved)).Ensure(base + count + 1)
      && buf != null && (buf == old(buf) || fresh(buf))
      && len < buf.Length && buf[..][..len] == old(Content())
      && ready.At? && Readable(ready, count)
      && SourceBytes(ready, count) == old(SourceBytes(source, count))
      && (ready.memory == buf <==> old(IsInside(source)))
      && (old(IsInside(source)) ==> ready.offset == source.offset && source.offset + count <= len + 1)
    }

    // Write the source bytes after the first base content bytes and end there.
    method WriteAt(base: Size, source: Pointer, count: Size)
      requires buf != null && buf.Length == cap && base + count < cap
      requires source.At? && 0 < count && Readable(source, count)
      modifies this`len, buf
      ensures Valid() && Content() == old(buf[..][..base] + SourceBytes(source, count))
      ensures len == base + count
    {
      OverwriteTail(buf[..], base, SourceBytes(source, count));
      MoveBytes(buf, base, source.memory, source.offset, count);
      FinishWrite(base + count, buf[..]);
    }

    // ----- set -----

    method SetN(source: Pointer, count: Size) returns (result: Status)
      requires Valid() && Readable(source, count)
      modifies this, buf
      ensures Valid() && result == status
      ensures result == old(WriteVerdict(0, source, count))
           || (old(WriteVerdict(0, source, count)) == Ok && result == ErrAlloc && old(cap) < count + 1)
      ensures result == Ok ==> Content() == old(SourceBytes(source, count))
      ensures result != Ok ==> Untouched()
    {
      result := BeginMutation(source, count);
      if result == Ok {
        result := SetValidSpan(source, count);
      }
    }

    method SetValidSpan(source: Pointer, count: Size) returns (result: Status)
      requires Valid() && status == Ok && Readable(source, count) && (0 < count ==> source.At?)
      modifies this, buf
      ensures Valid() && result == status
      ensures result == old(WriteVerdict(0, source, count))
           || (old(WriteVerdict(0, source, count)) == Ok && result == ErrAlloc && old(cap) < count + 1)
      ensures result == Ok ==> Content() == old(SourceBytes(source, count))
      ensures result != Ok ==> Untouched()
    {
      if count == 0 {
        len := 0;
        if 0 < cap {
          buf[0] := NUL;
        }
        return Ok;
      }
      var ready;
      result, ready := PrepareWrite(source, count, 0);
      if result != Ok {
        result := RecordFailure(result);
        return;
      }
      WriteAt(0, ready, count);
    }

    // ----- append -----

    method AppendN(source: Pointer, count: Size) returns (result: Status)
      requires Valid() && Readable(source, count)
      modifies this, buf
      ensures Valid() && result == status
      ensures result == old(WriteVerdict(len, source, count))
           || (old(WriteVerdict(len, source, count)) == Ok && result == ErrAlloc && old(cap) < old(len) + count + 1)
      ensures result == Ok ==> Content() == old(Content() + SourceBytes(source, count))
      ensures result == Ok && 0 < count ==>
                Growth(cap, moved) == Growth(old(cap), old(moved)).Ensure(old(len) + count + 1)
      ensures result != Ok ==> Untouched()
    {
      result := BeginMutation(source, count);
      if result == Ok {
        result := AppendValidSpan(source, count);
      }
    }

    method AppendValidSpan(source: Pointer, count: Size) returns (result: Status)
      requires Valid() && status == Ok && Readable(source, count) && (0 < count ==> source.At?)
      modifies this, buf
      ensures Valid() && result == status
      ensures result == old(WriteVerdict(len, source, count))
           || (old(WriteVerdict(len, source, count)) == Ok && result == ErrAlloc && old(cap) < old(len) + count + 1)
      ensures result == Ok ==> Content() == old(Content() + SourceBytes(source, count))
      ensures result == Ok && 0 < count ==>
                Growth(cap, moved) == Growth(old(cap), old(moved)).Ensure(old(len) + count + 1)
      ensures result != Ok ==> Untouched()
    {
      if count == 0 {
        return Ok;
      }
      var ready;
      result, ready := PrepareWrite(source, count, len);
      if result != Ok {
        result := RecordFailure(result);
        return;
      }
      WriteAt(len, ready, count);
    }

    // One byte that cannot alias the buffer.
    method AppendChar(byte: Byte) returns (result: Status)
      requires Valid()
      modifies this, buf
      ensures Valid() && result == status
      ensures old(status) != Ok ==> result == old(status)
      ensures old(status) == Ok && old(len) + 2 > SIZE_MAX ==> result == ErrOverflow
      ensures old(status) == Ok && old(len) + 2 <= SIZE_MAX ==>
                result == Ok || (result == ErrAlloc && old(cap) < old(len) + 2)
      ensures result == Ok ==>
                && Content() == old(Content()) + [byte]
                && Growth(cap, moved) == Growth(old(cap), old(moved)).Ensure(old(len) + 2)
      ensures buf == old(buf) || fresh(buf)
      ensures result != Ok ==> Untouched()
    {
      if status != Ok {
        return status;
      }
      if len > SIZE_MAX - 2 {
        result := RecordFailure(ErrOverflow);
        return;
      }
      result := EnsureCapacity(len + 2);
      if result != Ok {
        result := RecordFailure(result);
        return;
      }
      OverwriteTail(buf[..], len, [byte]);
      ghost var written := Overwrite(buf[..], len, [byte]);
      buf[len] := byte;
      FinishWrite(len + 1, written);
    }

    // ----- insert -----

    method InsertN(idx: Size, source: Pointer, count: Size) returns (result: Status)
      requires Valid() && Readable(source, count)
      modifies this, buf
      ensures Valid() && result == status
      ensures result == old(InsertVerdict(idx, source, count))
           || (old(InsertVerdict(idx, source, count)) == Ok && result == ErrAlloc && old(cap) < old(len) + count + 1)
      ensures result == Ok ==>
                && idx <= old(len)
                && Content() == old(Splice(Content(), idx, 0, SourceBytes(source, count)))
      ensures result != Ok ==> Untouched()
    {
      result := BeginMutation(source, count);
      if result != Ok {
        return;
      }
      if idx > len {
        result := RecordFailure(ErrRange);
        return;
      }
      if count == 0 {
        assert Content() == old(Splice(Content(), idx, 0, SourceBytes(source, count)));
        return;
      }
      var ready;
      result, ready := PrepareInsert(idx, source, count);
      if result != Ok {
        result := RecordFailure(result);
        return;
      }
      CommitInsert(idx, ready, count, old(Content()), old(SourceBytes(source, count)));
    }

    // An inside source from idx on is going to be moved by the gap; it is
    // addressed where it will be once the gap is open.
    function AdjustSourceOffset(idx: nat, offset: nat, count: nat): nat {
      if offset >= idx then offset + count else offset
    }

    method PrepareInsert(idx: Size, source: Pointer, count: Size) returns (result: Status, ready: Pointer)
      requires Valid() && status == Ok
      requires source.At? && 0 < count && Readable(source, count) && idx <= len
      modifies this, buf
      ensures Valid() && status == Ok
      ensures result == old(WriteVerdict(len, source, count))
           || (old(WriteVerdict(len, source, count)) == Ok && result == ErrAlloc && old(cap) < old(len) + count + 1)
      ensures result != Ok ==> Untouched()
      ensures result == Ok ==>
                && SourceSurvivesGap(idx, ready, count, old(SourceBytes(source, count)))
                && buf.Length == cap && buf[..][..len] == old(Content()) && len == old(len)
                && (buf == old(buf) || fresh(buf))
    {
      var isInside := IsInside(source);
      result, ready := PrepareWrite(source, count, len);
      if result == Ok && isInside {
        ready := At(buf, AdjustSourceOffset(idx, source.offset, count));
      }
    }

    // Where the source bytes are before and after the gap is opened.
    ghost predicate SourceSurvivesGap(idx: nat, source: Pointer, count: nat, inserted: seq<Byte>)
      reads this, buf, if source.At? then {source.memory} else {}
    {
      && buf != null && idx <= len && len + count < buf.Length
      && source.At? && |inserted| == count
      && if source.memory != buf then
           Readable(source, count) && inserted == SourceBytes(source, count)
         else if source.offset < idx then
           source.offset + count <= len + 1 && inserted == buf[..][source.offset..source.offset + count]
         else
           && idx + count <= source.offset <= len + 1
           && inserted == buf[..][source.offset - count..source.offset]
    }

    // Move what follows the removed bytes, with the terminator, to its place.
    method ShiftTail(idx: Size, removed: Size, count: Size)
      requires buf != null && idx + removed <= len < buf.Length && len - removed + count < buf.Length
      modifies buf
      ensures buf[..] == OpenGap(old(buf[..]), idx, removed, count, len)
    {
      var from, tail := idx + removed, len - idx - removed + 1;
      MoveBytes(buf, idx + count, buf, from, tail);
    }

    method MoveTail(idx: Size, source: Pointer, count: Size, ghost inserted: seq<Byte>)
      requires 0 < count && SourceSurvivesGap(idx, source, count, inserted)
      modifies buf
      ensures buf[..] == OpenGap(old(buf[..]), idx, 0, count, len)
      ensures Readable(source, count)
      ensures source.memory[..][source.offset..source.offset + count] == inserted
    {
      GapKeepsSource(buf[..], idx, count, len, source.offset);
      ShiftTail(idx, 0, count);
    }

    method CommitInsert(idx: Size, source: Pointer, count: Size,
                        ghost content: seq<Byte>, ghost inserted: seq<Byte>)
      requires 0 < count && SourceSurvivesGap(idx, source, count, inserted)
      requires buf.Length == cap && content == buf[..][..len]
      modifies this`len, buf
      ensures Valid() && len == old(len) + count && Content() == Splice(content, idx, 0, inserted)
    {
      FilledGap(buf[..], idx, 0, len, inserted);
      ghost var gapped := OpenGap(buf[..], idx, 0, count, len);
      MoveTail(idx, source, count, inserted);
      MoveBytes(buf, idx, source.memory, source.offset, count);
      FinishWrite(len + count, Overwrite(gapped, idx, inserted));
    }

    // ----- replace -----

    method ReplaceView(idx: Size, removed: Size, source: Pointer, count: Size) returns (result: Status)
      requires Valid() && Readable(source, count)
      modifies this, buf
      ensures Valid() && result == status
      ensures result == old(ReplaceVerdict(idx, removed, source, count))
           || (&& old(ReplaceVerdict(idx, removed, source, count)) == Ok && result == ErrAlloc && removed != count
               && (old(cap) < old(len) - removed + count + 1 || old(IsInside(source))))
      ensures result == Ok ==>
                && idx + removed <= old(len)
                && Content() == old(Splice(Content(), idx, removed, SourceBytes(source, count)))
      ensures result != Ok ==> Untouched()
    {
      result := BeginMutation(source, count);
      if result != Ok {
        return;
      }
      if idx > len || removed > len - idx {
        result := RecordFailure(ErrRange);
        return;
      }
      if removed == 0 && count == 0 {
        assert Content() == old(Splice(Content(), idx, removed, SourceBytes(source, count)));
        return;
      }
      if removed == count {
        result := ReplaceEqualSpan(idx, source, count);
      } else if count > SIZE_MAX - (len - removed) {
        result := ErrOverflow;
      } else {
        result := ReplaceResizedSpan(idx, removed, source, count);
      }
      if result != Ok {
        result := RecordFailure(result);
      }
    }

    // Same length: overwrite in place, from wherever the source is.
    method ReplaceEqualSpan(idx: Size, source: Pointer, count: Size) returns (result: Status)
      requires Valid() && status == Ok && Readable(source, count)
      requires 0 < count && source.At? && idx + count <= len
      modifies this, buf
      ensures Valid() && status == Ok
      ensures result == if old(SpanIsLegal(source, count)) then Ok else ErrArg
      ensures result == Ok ==>
                len == old(len) && Content() == old(Splice(Content(), idx, count, SourceBytes(source, count)))
      ensures result != Ok ==> Untouched()
    {
      if IsInside(source) && (source.offset > len || count > len - source.offset + 1) {
        return ErrArg;
      }
      EqualSplice(buf[..], idx, SourceBytes(source, count), len);
      MoveBytes(buf, idx, source.memory, source.offset, count);
      return Ok;
    }

    // Different length: an inside source is first copied out, because opening
    // or closing the gap may overwrite it.
    method ReplaceResizedSpan(idx: Size, removed: Size, source: Pointer, count: Size)
      returns (result: Status)
      requires Valid() && status == Ok && Readable(source, count)
      requires (0 < count ==> source.At?) && idx + removed <= len && removed != count
      requires len - removed + count <= SIZE_MAX
      modifies this, buf
      ensures Valid() && status == Ok
      ensures result == old(WriteVerdict(len - removed, source, count))
           || (&& old(WriteVerdict(len - removed, source, count)) == Ok && result == ErrAlloc
               && (old(cap) < old(len) - removed + count + 1 || old(IsInside(source))))
      ensures result == Ok ==> Content() == old(Splice(Content(), idx, removed, SourceBytes(source, count)))
      ensures result != Ok ==> Untouched()
    {
      hide Splice, ChosenCapacity;
      if len - removed + count > SIZE_MAX - 1 {
        return ErrOverflow;
      }
      var staged;
      result, staged := StageReplacement(source, count);
      if result != Ok {
        return;
      }
      result := EnsureCapacity(len - removed + count + 1);
      if result != Ok {
        return;
      }
      CommitReplacement(idx, removed, staged, count);
    }

    method StageReplacement(source: Pointer, count: Size) returns (result: Status, staged: Pointer)
      requires Valid() && status == Ok && Readable(source, count) && (0 < count ==> source.At?)
      ensures result == (if count == 0 || SpanIsLegal(source, count) then Ok else ErrArg)
           || (result == ErrAlloc && 0 < count && SpanIsLegal(source, count) && IsInside(source))
      ensures result == Ok && 0 < count ==> staged.At? && staged.memory != buf
      ensures result == Ok ==> Readable(staged, count) && SourceBytes(staged, count) == SourceBytes(source, count)
      ensures result == Ok && staged.At? ==> staged == source || fresh(staged.memory)
    {
      staged := source;
      if count == 0 {
        return Ok, source;
      }
      if !IsInside(source) {
        return Ok, source;
      }
      if source.offset > len || count > len - source.offset + 1 {
        return ErrArg, source;
      }
      var refused: bool := *;
      if refused {
        return ErrAlloc, source;
      }
      var copy := new Byte[count];
      MoveBytes(copy, 0, source.memory, source.offset, count);
      assert copy[..][0..count] == SourceBytes(source, count);
      return Ok, At(copy, 0);
    }

    method CommitReplacement(idx: Size, removed: Size, source: Pointer, count: Size)
      requires buf != null && buf.Length == cap && idx + removed <= len < cap && len - removed + count < cap
      requires Readable(source, count) && (0 < count ==> source.At? && source.memory != buf)
      modifies this`len, buf
      ensures Valid()
      ensures Content() == old(Splice(buf[..][..len], idx, removed, SourceBytes(source, count)))
    {
      ghost var inserted := SourceBytes(source, count);
      ghost var gapped := OpenGap(buf[..], idx, removed, count, len);
      ghost var spliced := Splice(buf[..][..len], idx, removed, inserted);
      FilledGap(buf[..], idx, removed, len, inserted);
      assert Overwrite(gapped, idx, inserted)[..len - removed + count] == spliced;
      ShiftTail(idx, removed, count);
      assert SourceBytes(source, count) == inserted;
      CopyIn(idx, source, count);
      FinishWrite(len - removed + count, Overwrite(gapped, idx, inserted));
    }

    method CopyIn(idx: Size, source: Pointer, count: Size)
      requires buf != null && idx + count <= buf.Length
      requires Readable(source, count) && (0 < count ==> source.At?)
      modifies buf
      ensures buf[..] == Overwrite(old(buf[..]), idx, old(SourceBytes(source, count)))
    {
      if 0 < count {
        MoveBytes(buf, idx, source.memory, source.offset, count);
      }
    }

    // ----- remove and resize -----

    method CloseGap(idx: Size, removed: Size)
      requires Valid() && 0 < cap && idx + removed <= len
      modifies this`len, buf
      ensures Valid() && Content() == old(Splice(Content(), idx, removed, []))
    {
      FilledGap(buf[..], idx, removed, len, []);
      ghost var gapped := OpenGap(buf[..], idx, removed, 0, len);
      ShiftTail(idx, removed, 0);
      assert buf[..] == Overwrite(gapped, idx, []);
      FinishWrite(len - removed, Overwrite(gapped, idx, []));
    }

    method Remove(idx: Size, removed: Size) returns (result: Status)
      requires Valid()
      modifies this, buf
      ensures Valid() && result == status
      ensures result == if old(status) != Ok then old(status)
                        else if old(len) < idx + removed then ErrRange else Ok
      ensures result == Ok ==> Content() == old(Splice(Content(), idx, removed, []))
      ensures result != Ok ==> Untouched()
    {
      if status != Ok {
        return status;
      }
      if idx > len || removed > len - idx {
        result := RecordFailure(ErrRange);
        return;
      }
      if removed == 0 {
        assert Content() == Splice(Content(), idx, removed, []);
        return Ok;
      }
      CloseGap(idx, removed);
      return Ok;
    }

    method Resize(newLen: Size, fill: Byte) returns (result: Status)
      requires Valid()
      modifies this, buf
      ensures Valid() && result == status
      ensures old(status) != Ok ==> result == old(status)
      ensures old(status) == Ok && newLen == SIZE_MAX ==> result == ErrOverflow
      ensures old(status) == Ok && newLen < SIZE_MAX ==>
                result == Ok || (result == ErrAlloc && old(cap) < newLen + 1)
      ensures result == Ok ==>
                Content() == if newLen <= old(len) then old(Content())[..newLen]
                             else old(Content()) + seq(newLen - old(len), _ => fill)
      ensures result != Ok ==> Untouched()
    {
      if status != Ok {
        return status;
      }
      if newLen == len {
        assert Content() == Content()[..newLen];
        return Ok;
      }
      if newLen < len {
        CloseGap(newLen, len - newLen);
        return Ok;
      }
      result := GrowContent(newLen, fill);
      if result != Ok {
        result := RecordFailure(result);
      }
    }

    method GrowContent(newLen: Size, fill: Byte) returns (result: Status)
      requires Valid() && len < newLen
      modifies this, buf
      ensures Valid() && status == old(status)
      ensures newLen == SIZE_MAX ==> result == ErrOverflow
      ensures newLen < SIZE_MAX ==> result == Ok || (result == ErrAlloc && old(cap) < newLen + 1)
      ensures result == Ok ==> Content() == old(Content()) + seq(newLen - old(len), _ => fill)
      ensures result != Ok ==> Untouched()
    {
      if newLen > SIZE_MAX - 1 {
        return ErrOverflow;
      }
      result := EnsureCapacity(newLen + 1);
      if result != Ok {
        return;
      }
      ghost var fillers := seq(newLen - len, _ => fill);
      OverwriteTail(buf[..], len, fillers);
      ghost var filled := Overwrite(buf[..], len, fillers);
      forall i | len <= i < newLen {
        buf[i] := fill;
      }
      FinishWrite(newLen, filled);
    }

    // ----- capacity without content -----

    method Reserve(count: Size) returns (result: Status)
      requires Valid()
      modifies this, buf
      ensures Valid() && result == status
      ensures old(status) != Ok ==> result == old(status)
      ensures old(status) == Ok && count == SIZE_MAX ==> result == ErrOverflow
      ensures old(status) == Ok && count < SIZE_MAX ==>
                result == Ok || (result == ErrAlloc && old(cap) < count + 1)
      ensures result == Ok ==> Content() == old(Content()) && (0 < count ==> count < cap)
      ensures result != Ok ==> Untouched()
    {
      if status != Ok {
        return status;
      }
      if count == 0 {
        return Ok;
      }
      if count > SIZE_MAX - 1 {
        result := RecordFailure(ErrOverflow);
        return;
      }
      result := EnsureCapacity(count + 1);
      if result != Ok {
        result := RecordFailure(result);
        return;
      }
    }

    method Clear()
      requires Valid()
      modifies this, buf
      ensures Valid() && Content() == [] && status == Ok && cap == old(cap) && buf == old(buf)
    {
      status := Ok;
      len := 0;
      if 0 < cap {
        buf[0] := NUL;
      }
    }

    // Record the new length and terminate.
    method FinishWrite(newLen: Size, ghost bytes: seq<Byte>)
      requires buf != null && buf.Length == cap && newLen < cap && buf[..] == bytes
      modifies this`len, buf
      ensures Valid() && len == newLen && Content() == bytes[..newLen]
    {
      len := newLen;
      buf[len] := NUL;
    }
  }

  // The buffer after the bytes behind a removed stretch, terminator included,
  // moved to where they start count bytes after idx.
  function OpenGap(before: seq<Byte>, idx: nat, removed: nat, count: nat, len: nat): seq<Byte>
    requires idx + removed <= len < |before| && len - removed + count < |before|
  {
    var from, tail := idx + removed, len - idx - removed + 1;
    Overwrite(before, idx + count, before[from..from + tail])
  }

  // Bytes that start left of the gap stay where they were, even across the
  // insertion point; bytes right of it are found count further on.
  lemma GapKeepsSource(before: seq<Byte>, idx: nat, count: nat, len: nat, offset: nat)
    requires idx <= len && len + count < |before|
    ensures offset <= idx ==>
              OpenGap(before, idx, 0, count, len)[offset..offset + count] == before[offset..offset + count]
    ensures idx + count <= offset <= len + 1 ==>
              OpenGap(before, idx, 0, count, len)[offset..offset + count] == before[offset - count..offset]
  {
    var tail := before[idx..len + 1];
    if offset <= idx {
      SliceOverwrite(before, idx + count, tail, offset, offset + count);
    } else if idx + count <= offset <= len + 1 {
      SliceOverwrite(before, idx + count, tail, offset, offset + count);
      SliceOfSlice(before, idx, len + 1, offset - idx - count, offset - idx);
    }
  }

  // Overwriting as many bytes as are removed is a splice, too.
  lemma EqualSplice(before: seq<Byte>, idx: nat, inserted: seq<Byte>, len: nat)
    requires idx + |inserted| <= len < |before|
    ensures Overwrite(before, idx, inserted)[..len] == Splice(before[..len], idx, |inserted|, inserted)
    ensures Overwrite(before, idx, inserted)[len] == before[len]
  {
  }

  // A slice of an overwritten sequence, on one side of the seam.
  lemma SliceOverwrite(s: seq<Byte>, at: nat, bytes: seq<Byte>, lo: nat, hi: nat)
    requires at + |bytes| <= |s| && lo <= hi <= |s|
    ensures hi <= at ==> Overwrite(s, at, bytes)[lo..hi] == s[lo..hi]
    ensures at <= lo && hi <= at + |bytes| ==> Overwrite(s, at, bytes)[lo..hi] == bytes[lo - at..hi - at]
  {
    var r := Overwrite(s, at, bytes);
    forall k: nat | k < hi - lo
      ensures hi <= at ==> r[lo..hi][k] == s[lo..hi][k]
      ensures at <= lo && hi <= at + |bytes| ==> r[lo..hi][k] == bytes[lo - at..hi - at][k]
    {
      assert r[lo..hi][k] == r[lo + k];
    }
  }

  lemma SliceOfSlice(s: seq<Byte>, lo: nat, hi: nat, a: nat, b: nat)
    requires lo <= hi <= |s| && a <= b <= hi - lo
    ensures s[lo..hi][a..b] == s[lo + a..lo + b]
  {
    var inner, outer := s[lo..hi][a..b], s[lo + a..lo + b];
    forall k: nat | k < b - a ensures inner[k] == outer[k] {
      assert inner[k] == s[lo..hi][a + k] == s[lo + (a + k)];
    }
  }

  // Filling the gap is a splice of the content.
  lemma FilledGap(before: seq<Byte>, idx: nat, removed: nat, len: nat, inserted: seq<Byte>)
    requires idx + removed <= len < |before| && len - removed + |inserted| < |before|
    ensures Overwrite(OpenGap(before, idx, removed, |inserted|, len), idx, inserted)[..len - removed + |inserted|]
         == Splice(before[..len], idx, removed, inserted)
  {
    var gapped := OpenGap(before, idx, removed, |inserted|, len);
    var result := Overwrite(gapped, idx, inserted)[..len - removed + |inserted|];
    var expected := Splice(before[..len], idx, removed, inserted);
    assert |result| == |expected|;
    assert result == expected;
  }

  // ----- one byte after another -----

  // Bytes appended singly to an empty string, up to the first failure: the
  // bytes that growth has moved are those of the cost model, fewer than two
  // per byte appended up to half the address space.
  method AppendEach(target: Str, bytes: seq<Byte>) returns (result: Status, appended: nat)
    requires target.Valid() && target.cap == 0 && target.moved == 0 && target.status == Ok
    modifies target
    ensures target.Valid() && appended <= |bytes| && appended < SIZE_MAX
    ensures result == Ok <==> appended == |bytes|
    ensures target.Content() == bytes[..appended]
    ensures Growth(target.cap, target.moved) == AfterAppends(appended)
    ensures 0 < appended ==> (target.moved < 2 * appended <==> appended <= HALF + 1)
  {
    hide ChosenCapacity, GrownCapacity;
    result, appended := Ok, 0;
    while appended < |bytes|
      invariant target.Valid() && (target.buf == null || fresh(target.buf))
      invariant result == Ok && target.status == Ok
      invariant appended <= |bytes| && appended < SIZE_MAX
      invariant target.Content() == bytes[..appended] && target.len == appended
      invariant Growth(target.cap, target.moved) == AfterAppends(appended)
    {
      result := target.AppendChar(bytes[appended]);
      if result != Ok {
        break;
      }
      appended := appended + 1;
    }
    if 0 < appended {
      AppendsAreLinearUpToHalf(appended);
    }
  }
}
