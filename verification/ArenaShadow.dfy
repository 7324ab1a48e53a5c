// The caller's own account of its bytes, kept without looking at the arena:
// every run of the arena agrees with it.
module ArenaShadow {
  import opened Machine
  import opened ArenaModel
  import opened ArenaSound
  import opened ArenaFrames
  import opened ArenaRuns
  import opened ArenaSafety

  // A byte the caller has stored, or one whose value nobody promises.
  datatype Cell = Known(byte: Byte) | Unknown

  // The caller's regions in order, and how many there were at each open scope.
  datatype Shadow = Shadow(regions: seq<seq<Cell>>, marks: seq<nat>)

  function Fresh(size: nat): seq<Cell> {
    seq(size, _ => Unknown)
  }

  function Stored(bytes: seq<Byte>): seq<Cell> {
    seq(|bytes|, k requires 0 <= k < |bytes| => Known(bytes[k]))
  }

  function Resized(region: seq<Cell>, size: nat): seq<Cell> {
    if size <= |region| then region[..size] else region + Fresh(size - |region|)
  }

  // All the caller needs to know of a call is whether it was served.
  function Account(s: Shadow, op: Op, served: bool): Shadow {
    match op
    case Alloc(count, size, align, fill) =>
      if !served then s
      else s.(regions := s.regions + [if fill.With? then Stored(fill.bytes) else Fresh(Times(count, size))])
    case Resize(i, newSize) =>
      if !served || |s.regions| <= i then s else s.(regions := s.regions[i := Resized(s.regions[i], newSize)])
    case Free(i) =>
      if |s.regions| <= i then s else s.(regions := s.regions[..i] + s.regions[i + 1..])
    case Write(i, offset, byte) =>
      if i < |s.regions| && offset < |s.regions[i]|
      then s.(regions := s.regions[i := s.regions[i][offset := Known(byte)]]) else s
    case Begin => s.(marks := s.marks + [|s.regions|])
    case End =>
      if s.marks == [] || |s.regions| < Last(s.marks) then s
      else Shadow(s.regions[..Last(s.marks)], Front(s.marks))
    case ResetAll => Shadow([], [])
    case Shutdown => Shadow([], [])
    case TrimFree => s
    case Clear => s
  }

  ghost predicate Holds(memory: Memory, l: Live, region: seq<Cell>) {
    |region| == l.size && forall k :: 0 <= k < |region| && region[k].Known? ==> memory(l.ptr + k) == region[k].byte
  }

  ghost predicate Agrees(w: World, s: Shadow) {
    && |s.regions| == |w.live| && |s.marks| == |w.stack|
    && (forall i :: 0 <= i < |w.live| ==> Holds(w.memory, w.live[i], s.regions[i]))
    && (forall k :: 0 <= k < |w.stack| ==> s.marks[k] == |w.stack[k].frame.live|)
  }

  // ----- one step -----

  // An allocation an operation does not target keeps its bytes.
  lemma StillHolds(w: World, op: Op, reply: nat, i: nat, region: seq<Cell>)
    requires Inv(w) && Legal(w, op, reply) && i < |w.live| && !Targets(op, i)
    requires Holds(w.memory, w.live[i], region)
    ensures Holds(Step(w, op, reply).world.memory, w.live[i], region)
  {
    hide Inv, Legal, Step;
    forall k | 0 <= k < |region| && region[k].Known?
      ensures Step(w, op, reply).world.memory(w.live[i].ptr + k) == region[k].byte {
      BytesKept(w, op, reply, i, w.live[i].ptr + k);
    }
  }

  lemma AllocAgrees(w: World, s: Shadow, count: Size, size: Size, align: Size, fill: Fill, reply: nat)
    requires var op := Alloc(count, size, align, fill); Inv(w) && Legal(w, op, reply) && Agrees(w, s)
    ensures var op := Alloc(count, size, align, fill); var done := Step(w, op, reply);
            Agrees(done.world, Account(s, op, done.ptr != NULL))
  {
    hide Inv, AllocN, Honest, SettleAll;
    var op := Alloc(count, size, align, fill);
    var done := Step(w, op, reply);
    forall i | 0 <= i < |w.live| ensures Holds(done.world.memory, w.live[i], s.regions[i]) {
      StillHolds(w, op, reply, i, s.regions[i]);
    }
    if done.ptr != NULL {
      ServedAllocGrows(w, count, size, align, fill, reply);
      if fill.With? {
        forall k | 0 <= k < |fill.bytes| ensures done.world.memory(done.ptr + k) == fill.bytes[k] {
          FilledAsAsked(w, count, size, align, fill.bytes, reply, k);
        }
      }
    }
  }

  lemma ResizeAgrees(w: World, s: Shadow, j: nat, newSize: Size, reply: nat)
    requires Inv(w) && Legal(w, Resize(j, newSize), reply) && Agrees(w, s)
    ensures var done := Step(w, Resize(j, newSize), reply);
            Agrees(done.world, Account(s, Resize(j, newSize), done.ptr != NULL))
  {
    hide Inv, Realloc, Honest, SettleAll;
    var op := Resize(j, newSize);
    var done := Step(w, op, reply);
    if done.ptr == NULL {
      FailureIsClean(w, op, reply);
    } else {
      LiveHasPointer(w, j);
      ServedHasChain(w, j, newSize, reply);
      ResizedLiveShape(w, j, newSize, reply);
      var region := Resized(s.regions[j], newSize);
      forall k | 0 <= k < |region| && region[k].Known?
        ensures done.world.memory(done.ptr + k) == region[k].byte {
        assert k < |s.regions[j]| && region[k] == s.regions[j][k];
        ResizeKeepsPrefix(w, j, newSize, reply, k);
      }
      forall i | 0 <= i < |w.live| && i != j
        ensures Holds(done.world.memory, done.world.live[i], s.regions[i]) {
        StillHolds(w, op, reply, i, s.regions[i]);
      }
    }
  }

  lemma WriteAgrees(w: World, s: Shadow, j: nat, offset: nat, byte: Byte, reply: nat)
    requires Inv(w) && Legal(w, Write(j, offset, byte), reply) && Agrees(w, s)
    ensures Agrees(Step(w, Write(j, offset, byte), reply).world, Account(s, Write(j, offset, byte), true))
  {
    hide Inv, Honest, SettleAll;
    var op := Write(j, offset, byte);
    assert Holds(w.memory, w.live[j], s.regions[j]);
    forall i | 0 <= i < |w.live| && i != j
      ensures Holds(Step(w, op, reply).world.memory, w.live[i], s.regions[i]) {
      StillHolds(w, op, reply, i, s.regions[i]);
    }
  }

  // Ending a scope drops exactly what was allocated in it.
  lemma EndAgrees(w: World, s: Shadow, reply: nat)
    requires Inv(w) && Legal(w, End, reply) && Agrees(w, s)
    ensures Agrees(Step(w, End, reply).world, Account(s, End, true))
  {
    hide Sound, FrameOk, StackOk, TempEnd, Honest, SettleAll;
    BaseExtends(w);
  }

  lemma StepAgrees(w: World, s: Shadow, op: Op, reply: nat)
    requires Inv(w) && Legal(w, op, reply) && Agrees(w, s)
    ensures Agrees(Step(w, op, reply).world, Account(s, op, Step(w, op, reply).ptr != NULL))
  {
    hide Inv, Honest, SettleAll, AllocN, Realloc, Reset, Deinit, Trim, TempEnd, AdapterFree;
    match op {
      case Alloc(count, size, align, fill) => AllocAgrees(w, s, count, size, align, fill, reply);
      case Resize(j, newSize) => ResizeAgrees(w, s, j, newSize, reply);
      case Write(j, offset, byte) => WriteAgrees(w, s, j, offset, byte, reply);
      case End => EndAgrees(w, s, reply);
      case _ =>
    }
  }

  // ----- whole runs -----

  // The caller's account after a run.
  function AccountAll(s: Shadow, w: World, ops: seq<Op>, replies: seq<nat>): Shadow
    requires |ops| == |replies|
    decreases |ops|
  {
    if ops == [] then s
    else
      var done := Step(w, ops[0], replies[0]);
      AccountAll(Account(s, ops[0], done.ptr != NULL), done.world, ops[1..], replies[1..])
  }

  // After any legal run every byte the caller accounts for is in memory where
  // the allocation now is, whatever happened to the others in between.
  lemma {:induction false} RunAgrees(w: World, s: Shadow, ops: seq<Op>, replies: seq<nat>)
    requires |ops| == |replies| && Inv(w) && LegalRun(w, ops, replies) && Agrees(w, s)
    ensures Agrees(Run(w, ops, replies), AccountAll(s, w, ops, replies))
    decreases |ops|
  {
    hide Inv, Legal, Step, Agrees, Account;
    if ops != [] {
      var done := Step(w, ops[0], replies[0]);
      StepKeepsInv(w, ops[0], replies[0]);
      StepInv(w, ops[0], replies[0]);
      StepAgrees(w, s, ops[0], replies[0]);
      RunAgrees(done.world, Account(s, ops[0], done.ptr != NULL), ops[1..], replies[1..]);
    }
  }
}
