/** The signed and unsigned 64-bit arithmetic the packer's C types use. */
module Int64 {

  const INT64_MAX: int := 0x7FFF_FFFF_FFFF_FFFF
  const UINT64_MAX: int := 0xFFFF_FFFF_FFFF_FFFF
  const TWO_64: int := 0x1_0000_0000_0000_0000

  predicate IsInt64(x: int) { -INT64_MAX - 1 <= x <= INT64_MAX }

  /** Two's-complement addition: exact when the sum is in range, wrapped otherwise. */
  function Add64(x: int, y: int): (r: int)
    ensures IsInt64(x + y) ==> r == x + y
  {
    (x + y + INT64_MAX + 1) % TWO_64 - INT64_MAX - 1
  }
}
