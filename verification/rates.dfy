/**
 The rate calculation: a per-second value from two samples of a cumulative
 counter taken `itv` seconds apart. The disk block guards against counters
 that went backwards; the network block does not.
 */
module Rates {

  import opened UInt64

  /** Rate as the disk block computes each of its four counters: the increase
      divided by the interval, or no rate at all when the counter went backwards
      (a reset or a replaced device). */
  function GuardedRate(cur: U64, prev: U64, itv: U64): (r: U64)
    requires itv > 0
    ensures cur >= prev ==> r == (cur - prev) / itv
    ensures cur < prev ==> r == 0
  {
    if cur >= prev then Div(Sub(cur, prev), itv) else 0
  }

  /** Rate as the network block computes it: the uint64 difference divided by
      the interval with no guard, so a counter that went backwards yields the
      wrapped-around difference. Where the counter grew it agrees with the
      guarded rate. */
  function WrappingRate(cur: U64, prev: U64, itv: U64): (r: U64)
    requires itv > 0
    ensures cur >= prev ==> r == GuardedRate(cur, prev, itv)
    ensures cur < prev ==> r == (TWO_64 - (prev - cur)) / itv
  {
    Div(Sub(cur, prev), itv)
  }

  /** An unchanged counter has no rate under either rule. */
  lemma UnchangedCounterHasNoRate(c: U64, itv: U64)
    requires itv > 0
    ensures GuardedRate(c, c, itv) == 0 && WrappingRate(c, c, itv) == 0
  {
  }
}
