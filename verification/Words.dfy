/** 32-bit machine words. `Add32` and `Sub32` wrap as the target's unsigned arithmetic does. */
module Words {

  const WORD_SPAN: int := 0x1_0000_0000

  type u32 = x: int | 0 <= x < 0x1_0000_0000

  function Add32(a: u32, b: u32): u32 {
    if a + b < WORD_SPAN then a + b else a + b - WORD_SPAN
  }

  function Sub32(a: u32, b: u32): u32 {
    if a >= b then a - b else a - b + WORD_SPAN
  }
}
