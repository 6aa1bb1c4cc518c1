/** Values every part shares: bytes, 32-bit counters and optional results. */
module Machine {

  type byte = x: int | 0 <= x < 256

  const WORD: nat := 0x1_0000_0000

  type U32 = x: nat | x < WORD

  /** A 32-bit increment. */
  function Up(c: U32): U32 {
    if c + 1 == WORD then 0 else c + 1
  }

  datatype Option<+T> = None | Some(value: T)
}
