/** Integer limits of the LP64 platform the driver is compiled for. */
module Limits {

  /** INT_MAX of a 32-bit 'int'. */
  const INT_MAX: int := 0x7fff_ffff

  /** INT_MIN of a 32-bit 'int'. */
  const INT_MIN: int := -0x8000_0000

  /** SIZE_MAX of a 64-bit 'size_t'. */
  const SIZE_MAX: int := 0xffff_ffff_ffff_ffff

  /** True iff x is representable as a 32-bit 'int'. */
  predicate IsInt(x: int) {
    INT_MIN <= x <= INT_MAX
  }

  function Abs(x: int): nat {
    if x < 0 then -x else x
  }
}
