/** What the kernel's C code takes for granted: bytes, 32-bit words, and division towards zero. */
module CArithmetic {
  type Byte = x: int | 0 <= x < 256

  /** One more than the largest 32-bit value. */
  const WORD := 0x1_0000_0000

  /** C division by a positive number. */
  function Quotient(a: int, b: int): int
    requires b > 0
  {
    if a >= 0 then a / b else -(-a / b)
  }
}
