/** Machine numbers: bytes and 32-bit words. */
module Words {
  const WORD := 0x1_0000_0000

  type byte = x: int | 0 <= x < 256

  type word = v: int | 0 <= v < WORD
}
