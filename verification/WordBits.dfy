// The bit tricks of the arena's guards, on machine words as numbers below 2^64.
module WordBits {
  import opened Machine
  import opened Arithmetic

  const MODULUS: nat := SIZE_MAX + 1

  function Pow2(k: nat): (p: nat)
    ensures 0 < p
  {
    if k == 0 then 1 else 2 * Pow2(k - 1)
  }

  function BitAnd(x: nat, y: nat): nat {
    if x == 0 || y == 0 then 0
    else (if x % 2 == 1 && y % 2 == 1 then 1 else 0) + 2 * BitAnd(x / 2, y / 2)
  }

  function BitOr(x: nat, y: nat): nat {
    if x == 0 then y else if y == 0 then x
    else (if x % 2 == 1 || y % 2 == 1 then 1 else 0) + 2 * BitOr(x / 2, y / 2)
  }

  // ----- masks -----

  lemma Pow2Monotone(a: nat, b: nat)
    requires a <= b
    ensures Pow2(a) <= Pow2(b)
    decreases b
  {
    if a < b {
      Pow2Monotone(a, b - 1);
    }
  }

  lemma Pow2Adds(a: nat, b: nat)
    ensures Pow2(a + b) == Pow2(a) * Pow2(b)
  {
    if b > 0 {
      Pow2Adds(a, b - 1);
      assert Pow2(a) * (2 * Pow2(b - 1)) == 2 * (Pow2(a) * Pow2(b - 1));
    }
  }

  lemma Pow2Values()
    ensures Pow2(17) == 2 * MAX_ALIGN && Pow2(32) == 0x1_0000_0000 && Pow2(64) == MODULUS
  {
    assert Pow2(8) == 256;
    Pow2Adds(8, 8);
    assert Pow2(16) == 65536;
    assert Pow2(17) == 2 * Pow2(16);
    Pow2Adds(16, 16);
    Pow2Adds(32, 32);
  }

  lemma HalveModulo(x: nat, m: nat)
    requires 0 < m
    ensures x % (2 * m) == x % 2 + 2 * ((x / 2) % m)
  {
    var q, r := (x / 2) / m, (x / 2) % m;
    assert x / 2 == q * m + r;
    assert q * (2 * m) == 2 * (q * m);
    DivisionIsUnique(x, 2 * m, q, x % 2 + 2 * r);
  }

  // The low k bits of x.
  function LowBits(x: nat, k: nat): nat {
    if k == 0 then 0 else x % 2 + 2 * LowBits(x / 2, k - 1)
  }

  lemma {:induction false} LowBitsAreRemainder(x: nat, k: nat)
    ensures LowBits(x, k) == x % Pow2(k)
  {
    if k > 0 {
      LowBitsAreRemainder(x / 2, k - 1);
      HalveModulo(x, Pow2(k - 1));
    }
  }

  lemma {:induction false} FewBits(x: nat, k: nat)
    requires x < Pow2(k)
    ensures LowBits(x, k) == x
  {
    if k > 0 {
      FewBits(x / 2, k - 1);
    }
  }

  lemma AndStep(x: nat, y: nat)
    ensures BitAnd(x, y) == (if x % 2 == 1 && y % 2 == 1 then 1 else 0) + 2 * BitAnd(x / 2, y / 2)
  {
  }

  // A low mask keeps exactly the low bits.
  lemma {:induction false} LowMask(x: nat, k: nat)
    ensures BitAnd(x, Pow2(k) - 1) == LowBits(x, k)
  {
    if k > 0 {
      var m := Pow2(k - 1);
      assert (2 * m - 1) % 2 == 1 && (2 * m - 1) / 2 == m - 1;
      AndStep(x, 2 * m - 1);
      LowMask(x / 2, k - 1);
    }
  }

  // A high mask clears exactly the low bits.
  lemma {:induction false} HighMask(x: nat, k: nat, w: nat)
    requires k <= w && x < Pow2(w)
    ensures Pow2(k) <= Pow2(w) && BitAnd(x, Pow2(w) - Pow2(k)) == x - LowBits(x, k)
    decreases w
  {
    Pow2Monotone(k, w);
    if k == 0 {
      LowMask(x, w);
      FewBits(x, w);
    } else {
      var low, high := Pow2(k - 1), Pow2(w - 1);
      HighMask(x / 2, k - 1, w - 1);
      AndStep(x, 2 * (high - low));
    }
  }

  ghost predicate IsPow2(a: nat) {
    exists k: nat :: a == Pow2(k)
  }

  lemma HalfOfPow2(a: nat)
    requires 0 < a && a % 2 == 0
    ensures IsPow2(a) <==> IsPow2(a / 2)
  {
    if IsPow2(a / 2) {
      var k: nat :| a / 2 == Pow2(k);
      assert a == Pow2(k + 1);
    }
    if IsPow2(a) {
      var k: nat :| a == Pow2(k);
      assert a / 2 == Pow2(k - 1);
    }
  }

  lemma OddIsNotPow2(a: nat)
    requires 1 < a && a % 2 == 1
    ensures !IsPow2(a)
  {
    forall k: nat ensures a != Pow2(k) {
      assert k > 0 ==> Pow2(k) % 2 == 0;
    }
  }

  lemma EvenSelfAnd(a: nat)
    requires 0 < a && a % 2 == 0
    ensures BitAnd(a, a - 1) == 0 <==> BitAnd(a / 2, a / 2 - 1) == 0
  {
    assert (a - 1) / 2 == a / 2 - 1 && (a - 1) % 2 == 1;
  }

  // Clearing the lowest set bit leaves nothing exactly for a power of two.
  lemma {:induction false} SingleBit(a: nat)
    requires 0 < a
    ensures BitAnd(a, a - 1) == 0 <==> IsPow2(a)
  {
    if a == 1 {
      assert a == Pow2(0);
    } else if a % 2 == 0 {
      hide BitAnd, IsPow2;
      SingleBit(a / 2);
      EvenSelfAnd(a);
      HalfOfPow2(a);
    } else {
      OddSelfAnd(a);
      OddIsNotPow2(a);
    }
  }

  lemma OddSelfAnd(a: nat)
    requires 1 < a && a % 2 == 1
    ensures BitAnd(a, a - 1) > 0
  {
    assert (a - 1) / 2 == a / 2;
    SelfAnd(a / 2);
  }

  lemma {:induction false} SelfAnd(a: nat)
    ensures BitAnd(a, a) == a
  {
    if a > 0 {
      SelfAnd(a / 2);
    }
  }

  // A bitwise or fits in k bits exactly when both operands do.
  lemma {:induction false} OrFits(x: nat, y: nat, k: nat)
    ensures BitOr(x, y) < Pow2(k) <==> x < Pow2(k) && y < Pow2(k)
  {
    if x > 0 && y > 0 && k > 0 {
      OrFits(x / 2, y / 2, k - 1);
    } else if x > 0 && y > 0 {
      OrFits(x / 2, y / 2, 0);
    }
  }

  // ----- the guards -----

  const MAX_ALIGN: Size := 65536

  // One fused mask: a second set bit fails the first half, a bit above
  // MAX_ALIGN the second.
  predicate AlignValid(align: Size) {
    BitOr(BitAnd(align, (align - 1) % MODULUS), BitAnd(align, SIZE_MAX - (2 * MAX_ALIGN - 1))) == 0
  }

  ghost predicate IsServedAlign(align: nat) {
    align == 0 || (IsPow2(align) && align <= MAX_ALIGN)
  }

  lemma OrIsZero(x: nat, y: nat)
    ensures BitOr(x, y) == 0 <==> x == 0 && y == 0
  {
    OrFits(x, y, 0);
  }

  lemma RangeHalf(align: Size)
    ensures BitAnd(align, SIZE_MAX - (2 * MAX_ALIGN - 1)) == 0 <==> align < 2 * MAX_ALIGN
  {
    Pow2Values();
    HighMask(align, 17, 64);
    LowBitsAreRemainder(align, 17);
  }

  lemma Pow2Gap(align: nat)
    requires IsPow2(align) && align < 2 * MAX_ALIGN
    ensures align <= MAX_ALIGN
  {
    Pow2Values();
    var k: nat :| align == Pow2(k);
    if 17 <= k {
      Pow2Monotone(17, k);
    } else {
      Pow2Monotone(k, 16);
    }
  }

  lemma AlignValidMeaning(align: Size)
    ensures AlignValid(align) <==> IsServedAlign(align)
  {
    hide BitAnd, BitOr;
    OrIsZero(BitAnd(align, (align - 1) % MODULUS), BitAnd(align, SIZE_MAX - (2 * MAX_ALIGN - 1)));
    RangeHalf(align);
    if align > 0 {
      SingleBit(align);
      if IsPow2(align) && align < 2 * MAX_ALIGN {
        Pow2Gap(align);
      }
    } else {
      AndZero((align - 1) % MODULUS);
    }
  }

  lemma AndZero(y: nat)
    ensures BitAnd(0, y) == 0
  {
  }

  // Negate and mask: bytes from a cursor address up to the next aligned one.
  function Padding(cursor: nat, align: nat): nat
    requires 0 < align
  {
    BitAnd((MODULUS - cursor) % MODULUS, align - 1)
  }

  predicate IsAligned(addr: nat, align: nat) {
    0 < align && addr % align == 0
  }

  lemma PaddingIsBelow(cursor: nat, align: nat)
    requires 0 < align && IsServedAlign(align)
    ensures Padding(cursor, align) < align
  {
    var k: nat :| align == Pow2(k);
    var negated := (MODULUS - cursor) % MODULUS;
    LowMask(negated, k);
    LowBitsAreRemainder(negated, k);
  }

  // The padding leads to the least aligned address at or after the cursor.
  lemma PaddingIsLeast(cursor: Size, align: Size)
    requires 0 < align && IsServedAlign(align)
    ensures Padding(cursor, align) < align
    ensures IsAligned(cursor + Padding(cursor, align), align)
    ensures forall addr: nat :: cursor <= addr && IsAligned(addr, align) ==> cursor + Padding(cursor, align) <= addr
  {
    hide BitAnd, Pow2, LowBits;
    var k: nat :| align == Pow2(k);
    var negated := (MODULUS - cursor) % MODULUS;
    LowMask(negated, k);
    LowBitsAreRemainder(negated, k);
    var blocks := WordIsMultiple(align, k);
    var t := if cursor == 0 then 0 else blocks;
    NextMultiple(cursor, negated, align, t);
  }

  lemma WordIsMultiple(align: nat, k: nat) returns (m: nat)
    requires align == Pow2(k) && align <= MAX_ALIGN
    ensures MODULUS == m * align
  {
    Pow2Values();
    if 17 <= k {
      Pow2Monotone(17, k);
    }
    m := Pow2(64 - k);
    Pow2Adds(64 - k, k);
  }

  // If cursor + back is a multiple of align, so is cursor + back % align, and
  // it is the least one from cursor on.
  lemma NextMultiple(cursor: nat, back: nat, align: nat, t: nat)
    requires 0 < align && cursor + back == t * align
    ensures IsAligned(cursor + back % align, align)
    ensures forall addr: nat :: cursor <= addr && IsAligned(addr, align) ==> cursor + back % align <= addr
  {
    var q, pad := back / align, back % align;
    assert back == q * align + pad;
    assert (t + 1) * align == t * align + align;
    MulCancel(q, t + 1, align);
    assert (t - q) * align == t * align - q * align;
    DivisionIsUnique(cursor + pad, align, t - q, 0);
    forall addr: nat | cursor <= addr && IsAligned(addr, align) ensures cursor + pad <= addr {
      var m := addr / align;
      assert addr == m * align;
      assert (m + 1) * align == m * align + align;
      MulCancel(t - q, m + 1, align);
      MulMonotone(t - q, m, align);
    }
  }

  datatype Product = Fits(total: nat) | TooBig

  // The division-free product test: it divides only when an operand has bits
  // in its upper half.
  predicate ProductGuard(count: Size, size: Size)
    requires 0 < size
  {
    BitOr(count, size) / Pow2(32) != 0 && count > PTRDIFF_MAX / size
  }

  function CheckedProduct(count: Size, size: Size): Product
    requires 0 < size
  {
    if ProductGuard(count, size) then TooBig
    else
      var total := (count * size) % MODULUS;
      if total > PTRDIFF_MAX then TooBig else Fits(total)
  }

  lemma ProductGuardMeaning(count: Size, size: Size)
    requires 0 < size
    ensures ProductGuard(count, size) ==> PTRDIFF_MAX < count * size
    ensures !ProductGuard(count, size) ==> count * size < MODULUS
  {
    HalfGuard(count, size);
    DivisionBound(count, PTRDIFF_MAX, size);
    if count < 0x1_0000_0000 && size < 0x1_0000_0000 {
      MulBound(count, size, 0xFFFF_FFFF);
    }
  }

  // The test accepts exactly when the true product is at most PTRDIFF_MAX,
  // and then the wrapped product is the true one.
  lemma CheckedProductMeaning(count: Size, size: Size)
    requires 0 < size
    ensures CheckedProduct(count, size) == if count * size <= PTRDIFF_MAX then Fits(count * size) else TooBig
  {
    ProductGuardMeaning(count, size);
    if !ProductGuard(count, size) {
      FitsModulus(count * size);
    }
  }

  lemma FitsModulus(x: nat)
    requires x < MODULUS
    ensures x % MODULUS == x
  {
  }

  lemma HalfGuard(count: nat, size: nat)
    ensures BitOr(count, size) / Pow2(32) == 0 <==> count < 0x1_0000_0000 && size < 0x1_0000_0000
  {
    OrFits(count, size, 32);
    Pow2Values();
  }

  lemma MulBound(a: nat, b: nat, m: nat)
    requires a <= m && b <= m
    ensures a * b <= m * m
  {
  }
}
