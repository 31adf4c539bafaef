// The millisecond clock: it counts in 32 bits.
module Clock {
  const WORD: nat := 0x1_0000_0000

  type Millis = x: int | 0 <= x < 0x1_0000_0000

  // Time passed, in the clock's own arithmetic.
  function Elapsed(since: Millis, now: Millis): (e: nat)
    ensures e < WORD
  {
    (now - since) % WORD
  }
}
