/** The Arduino millisecond clock: an unsigned 32-bit counter that wraps. */
module Timing {

  const Modulus: int := 0x1_0000_0000

  /** A value of `millis()` or any other `uint32_t` timestamp. */
  type Millis = t: int | 0 <= t < Modulus

  /** `now - since` computed in `uint32_t`: the one 32-bit value that, added
      to `since` modulo 2^32, gives `now`. */
  function Elapsed(now: Millis, since: Millis): (r: Millis)
    ensures (since + r) % Modulus == now
    ensures r == 0 <==> now == since
  {
    if since <= now then now - since else now - since + Modulus
  }

  /** The time gate `now - since > span` of the sketch, safe under wrap-around. */
  predicate Exceeds(now: Millis, since: Millis, span: int): (b: bool)
    ensures b && 0 <= span ==> now != since
    ensures span >= Modulus - 1 ==> !b
  {
    Elapsed(now, since) > span
  }

  /** Wrapping differences chain up like the times they measure, modulo 2^32. */
  lemma ElapsedChain(now: Millis, mid: Millis, since: Millis)
    ensures Elapsed(now, since) == (Elapsed(now, mid) + Elapsed(mid, since)) % Modulus
  {
  }

  /** If `since` was at most `span` before `t0`, and more than `span` has passed
      from `t0` to `now` without a full wrap-around of the clock, then more than
      `span` has passed since `since`. */
  lemma Outlasts(now: Millis, t0: Millis, since: Millis, span: int)
    requires Elapsed(t0, since) <= span < Elapsed(now, t0)
    requires Elapsed(now, t0) + span < Modulus
    ensures Exceeds(now, since, span)
  {
    ElapsedChain(now, t0, since);
  }
}
