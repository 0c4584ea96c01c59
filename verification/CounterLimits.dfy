/** The limits on message counters (src/wg_noise.c:27-41) in the 64-bit configuration. */
module CounterLimits {
  // COUNTER_WINDOW_SIZE
  const WINDOW: int := 8192 - 64

  // REJECT_AFTER_MESSAGES
  const REJECT: int := 0xffff_ffff_ffff_ffff - WINDOW - 1
}
