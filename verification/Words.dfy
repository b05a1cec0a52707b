/** The width of the source's integers. */
module Words {
  /** The number of values of a 32-bit word; arithmetic on such words wraps around here. */
  const U32 := 0x1_0000_0000
}
