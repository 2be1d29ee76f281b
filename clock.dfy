/**
 * Time as seen by the sketch: `millis()` is an unsigned 32-bit counter that
 * wraps around, and elapsed time is computed with unsigned subtraction.
 */
module Clock {

  const Modulus: int := 0x1_0000_0000

  /** An `unsigned long` on the AVR: 32 bits. */
  type Word32 = x: int | 0 <= x < 0x1_0000_0000

  /** Minimum time between two processed card reads, in milliseconds. */
  const DebounceDelay: Word32 := 1000

  /** `now - since` on unsigned 32-bit values. */
  function Elapsed(now: Word32, since: Word32): (d: Word32)
    ensures (since + d) % Modulus == now
    ensures since <= now ==> d == now - since
    ensures now < since ==> d == Modulus - since + now
  {
    (now - since) % Modulus
  }

  /** The debounce gate of loop: enough time has passed since the last processed read. */
  predicate DebouncePassed(now: Word32, lastRead: Word32)
  {
    Elapsed(now, lastRead) >= DebounceDelay
  }

  /**
   * If `d` milliseconds (less than one wrap period) really pass after
   * `since`, the unsigned difference measures exactly `d`, also when the
   * counter wraps around in between.
   */
  lemma ElapsedAcrossWrap(since: Word32, d: Word32)
    ensures Elapsed((since + d) % Modulus, since) == d
  {
    if since + d >= Modulus {
      assert (since + d) % Modulus == since + d - Modulus;
    }
  }

  /** Hence the debounce gate opens exactly when a full delay has really passed. */
  lemma DebounceAcrossWrap(lastRead: Word32, d: Word32)
    ensures DebouncePassed((lastRead + d) % Modulus, lastRead) <==> d >= DebounceDelay
  {
    ElapsedAcrossWrap(lastRead, d);
  }

  /** Right after a read at `lastRead`, the gate stays shut for the next 999 ms. */
  lemma DebounceShutRightAfterRead(lastRead: Word32, d: Word32)
    requires d < DebounceDelay
    ensures !DebouncePassed((lastRead + d) % Modulus, lastRead)
  {
    DebounceAcrossWrap(lastRead, d);
  }
}
