// Machine-level constants shared by the string and arena models (LP64 target).
module Machine {
  const SIZE_MAX: nat := 0xFFFF_FFFF_FFFF_FFFF
  const PTRDIFF_MAX: nat := 0x7FFF_FFFF_FFFF_FFFF
  const UINT_MAX: nat := 0xFFFF_FFFF

  // A size_t value. Storing a result in a Size obliges the verifier to show
  // that the C computation of that result does not wrap.
  type Size = n: nat | n <= SIZE_MAX

  // An unsigned char.
  newtype Byte = b: int | 0 <= b < 256
}
