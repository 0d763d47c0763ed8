/** The reconnect delay shared by consumer and publisher: doubled on each failure, capped, reset on success. */
module Backoff {
  import opened Common

  function Pow2(k: nat): (p: nat)
    ensures p > 0
  {
    if k == 0 then 1 else 2 * Pow2(k - 1)
  }

  /** The delay after k consecutive failures. The cap is not applied before the first failure. */
  function Delay(initial: int, max: int, k: nat): int {
    if k == 0 then initial else Min(max, initial * Pow2(k))
  }

  lemma NextDelay(initial: int, max: int, k: nat)
    requires 0 <= initial && 0 <= max
    ensures Delay(initial, max, 0) == initial
    ensures Delay(initial, max, k + 1) == Min(max, Delay(initial, max, k) * 2)
    ensures 0 <= Delay(initial, max, k) <= Max(initial, max)
  {
    var p := Pow2(k);
    assert initial * (2 * p) == 2 * (initial * p);
    assert 0 <= initial * p;
  }
}
