// Legal runs never run out: whatever the caller may ask, and whether the
// parent refuses or serves, the next step is legal.
module ArenaProgress {
  import opened Machine
  import opened WordBits
  import opened ArenaModel
  import opened ArenaSound
  import opened ArenaRuns

  // The bytes a call asks the parent for, read off what a refusal would log.
  function AskedBy(refused: seq<Call>): nat {
    if |refused| == 1 && refused[0].Acquire? then refused[0].size else 0
  }

  // A reply the parent may give to that request: a refusal, or a place where
  // so many bytes meet nothing outstanding.
  ghost predicate Offers(out: Ledger, size: nat, reply: nat) {
    reply == NULL ||
    (reply + size <= MODULUS && forall e :: e in out ==> e.0 + e.1 <= reply || reply + size <= e.0)
  }

  lemma OfferIsHonest(out: Ledger, size: nat, reply: nat)
    requires Offers(out, size, reply)
    ensures Honest(out, [Acquire(size, reply)])
  {
    assert [Acquire(size, reply)][1..] == [];
  }

  lemma AllocCoreIsHonest(a: Arena, out: Ledger, size: nat, align: nat, reply: nat)
    requires 0 < align && Offers(out, AskedBy(AllocCore(a, size, align, NULL).calls), reply)
    ensures Honest(out, AllocCore(a, size, align, reply).calls)
  {
    hide Honest, Offers, RequestSize;
    NoCalls(out);
    if AllocCore(a, size, align, NULL).calls != [] {
      OfferIsHonest(out, RequestSize(a, WorstCase(a, size, align)), reply);
    }
  }

  lemma AllocNIsHonest(a: Arena, out: Ledger, count: Size, size: Size, align: Size, reply: nat)
    requires Offers(out, AskedBy(AllocN(a, count, size, align, NULL).calls), reply)
    ensures Honest(out, AllocN(a, count, size, align, reply).calls)
  {
    hide Honest, Offers, AllocCore, AlignValid;
    NoCalls(out);
    if a.status == Ok && AlignValid(align) && count != 0 && size != 0 {
      match CheckedProduct(count, size) {
        case TooBig =>
        case Fits(total) => AllocCoreIsHonest(a, out, total, EffectiveAlign(a.redzone, align), reply);
      }
    }
  }

  lemma ReallocIsHonest(a: Arena, out: Ledger, ptr: nat, oldSize: nat, newSize: Size, align: Size, reply: nat)
    requires Offers(out, AskedBy(Realloc(a, ptr, oldSize, newSize, align, NULL).calls), reply)
    ensures Honest(out, Realloc(a, ptr, oldSize, newSize, align, reply).calls)
  {
    hide Honest, Offers, AllocN, AlignValid;
    NoCalls(out);
    if Realloc(a, ptr, oldSize, newSize, align, NULL).calls == AllocN(a, 1, newSize, align, NULL).calls {
      AllocNIsHonest(a, out, 1, newSize, align, reply);
    }
  }

  lemma OfferIsLegal(w: World, op: Op, reply: nat)
    requires Inv(w) && CallerOk(w, op) && Offers(w.out, AskedBy(Step(w, op, NULL).calls), reply)
    ensures Legal(w, op, reply)
  {
    hide Sound, Honest, Offers, StackOk, AllocN, Realloc, Reset, Deinit, Trim, TempEnd, AdapterFree, SettleAll;
    NoCalls(w.out);
    match op {
      case Alloc(count, size, align, fill) => AllocNIsHonest(w.a, w.out, count, size, align, reply);
      case Resize(i, newSize) =>
        var l := w.live[i];
        ReallocIsHonest(w.a, w.out, l.ptr, l.size, newSize, l.align, reply);
      case End =>
        TopOfStack(w);
        TempEndKeepsSound(w.a, w.out, Last(w.stack).temp);
      case ResetAll => ResetKeepsSound(w.a, w.out);
      case TrimFree => TrimKeepsSound(w.a, w.out);
      case Shutdown => DeinitSettles(w.a, w.out);
      case _ =>
    }
  }
}
