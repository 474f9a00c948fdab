/** A little nonlinear arithmetic. */
module Arithmetic {
  lemma Multiple(n: nat, d: int)
    ensures d >= 1 ==> n * d >= n
    ensures d <= 0 ==> n * d <= 0
    ensures d <= -1 ==> n * d <= 0 - n
  {
  }
}
