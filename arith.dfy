/** Integer facts behind the rate-per-second accounting of both contract
    variants. */
module Arith {

  lemma MulMono(r: nat, a: nat, b: nat)
    requires a <= b
    ensures r * a <= r * b
  {
    var k := b - a;
    assert r * b == r * a + r * k;
  }

  lemma MulStrict(r: nat, a: nat, b: nat)
    requires a < b && 0 < r
    ensures r * a < r * b
  {
    var k := b - a;
    assert r * b == r * a + r * k;
    MulMono(r, 1, k);
  }

  /** With `rate = floor(deposit / duration)`, what `rate` vests in at most
      `duration` seconds never exceeds the deposit, and stays strictly below
      it before the whole duration has passed. */
  lemma FloorRateBound(deposit: nat, duration: nat, elapsed: nat)
    requires 0 < duration && elapsed <= duration
    ensures (deposit / duration) * elapsed <= deposit
    ensures elapsed < duration && 0 < deposit ==> (deposit / duration) * elapsed < deposit
  {
    var rate := deposit / duration;
    assert rate * duration + deposit % duration == deposit;
    MulMono(rate, elapsed, duration);
    if elapsed < duration && 0 < rate {
      MulStrict(rate, elapsed, duration);
    }
  }
}
