/**
 * The primary optimizer's learning rate under repeated
 * `adjust_learning_rate(optimizer, 0.6)` calls.
 */
module LearningRate {

  /** The shrink factor passed to `adjust_learning_rate`. */
  const Factor: real := 0.6

  function Pow(x: real, n: nat): real
  {
    if n == 0 then 1.0 else x * Pow(x, n - 1)
  }

  /**
   * A rate after `k` calls of `adjust_learning_rate(optimizer, 0.6)`: a
   * positive rate stays positive and shrinks with every call.
   */
  function RateAfter(lr: real, k: nat): (r: real)
    ensures lr >= 0.0 ==> 0.0 <= r <= lr
    ensures lr > 0.0 ==> 0.0 < r && (r < lr <==> k > 0)
  {
    if k == 0 then lr else RateAfter(lr, k - 1) * Factor
  }

  /** `k` decays of a rate `lr` give `lr * 0.6^k`. */
  lemma {:induction false} RateAfterIsPower(lr: real, k: nat)
    ensures RateAfter(lr, k) == lr * Pow(Factor, k)
  {
    if k > 0 {
      RateAfterIsPower(lr, k - 1);
      assert lr * Pow(Factor, k) == (lr * Pow(Factor, k - 1)) * Factor;
    }
  }

  /** Decaying `a` times and then `b` times is decaying `a + b` times. */
  lemma {:induction false} RateAfterAdd(lr: real, a: nat, b: nat)
    ensures RateAfter(RateAfter(lr, a), b) == RateAfter(lr, a + b)
  {
    if b > 0 {
      RateAfterAdd(lr, a, b - 1);
    }
  }

}
