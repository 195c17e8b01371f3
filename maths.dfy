/**
 * The piecewise activation functions of src/js/maths and the polynomial
 * sigmoid derivative.  The logistic function itself uses Math.exp and is
 * passed around as a parameter wherever the code dispatches to it.
 */
module Maths {

  /** leaky_relu.js: slope for non-positive inputs and the ceiling. */
  const ALPHA: real := 0.1
  const MAX: real := 1.0

  /** relu.js:3 -- Math.max(0, x). */
  function ReLU(x: real): (r: real)
    ensures r >= 0.0 && r >= x
    ensures r == x || r == 0.0
  {
    if x > 0.0 then x else 0.0
  }

  /** relu.js:4 */
  function ReLUDerivative(x: real): (d: real)
    ensures d == 1.0 <==> x > 0.0
    ensures d == 0.0 <==> x <= 0.0
  {
    if x > 0.0 then 1.0 else 0.0
  }

  lemma ReLUIdempotent(x: real)
    ensures ReLU(ReLU(x)) == ReLU(x)
    ensures ReLU(x) == (if x > 0.0 then x else 0.0)
  {
  }

  /** leaky_relu.js:5-7 -- capped at MAX above zero, slope ALPHA below. */
  function LeakyReLU(x: real): (r: real)
    ensures r <= MAX
    ensures x > 0.0 ==> 0.0 < r <= x && (r == x || r == MAX)
    ensures x <= 0.0 ==> r <= 0.0 && r * 10.0 == x
  {
    if x > 0.0 then (if MAX < x then MAX else x) else x * ALPHA
  }

  /** leaky_relu.js:8-10 */
  function LeakyReLUDerivative(x: real): (d: real)
    ensures d == 0.0 <==> x == MAX
    ensures x <= 0.0 ==> d == ALPHA
    ensures x > 0.0 && x != MAX ==> d == 1.0
  {
    if x > 0.0 then (if x == MAX then 0.0 else 1.0) else ALPHA
  }

  /**
   * The engine differentiates at the already activated value; evaluated
   * there, the leaky derivative is 0 exactly on the capped region.
   */
  lemma LeakyReLUDerivativeAtActivated(x: real)
    ensures LeakyReLUDerivative(LeakyReLU(x)) == 0.0 <==> x >= MAX
    ensures x <= 0.0 ==> LeakyReLUDerivative(LeakyReLU(x)) == ALPHA
    ensures 0.0 < x < MAX ==> LeakyReLUDerivative(LeakyReLU(x)) == 1.0
  {
  }

  lemma LeakyReLUScenario()
    ensures LeakyReLU(-10.0) == -1.0
    ensures LeakyReLU(0.5) == 0.5 && LeakyReLU(3.0) == 1.0
  {
  }

  /** sigmoid.js:4 -- derivative expressed in the activated value. */
  function SigmoidDerivative(x: real): (d: real)
    ensures x == 0.0 || x == 1.0 ==> d == 0.0
  {
    x * (1.0 - x)
  }

  lemma SigmoidDerivativeSymmetric(x: real)
    ensures SigmoidDerivative(x) == SigmoidDerivative(1.0 - x)
  {
  }

  /** The derivative peaks at 1/4, reached at the midpoint. */
  lemma SigmoidDerivativeBound(x: real)
    ensures SigmoidDerivative(x) <= 0.25
    ensures SigmoidDerivative(0.5) == 0.25
  {
  }

  lemma SigmoidDerivativePositive(x: real)
    requires 0.0 < x < 1.0
    ensures SigmoidDerivative(x) > 0.0
  {
  }

  /** On the unit interval, where the logistic function lives, it is non-negative. */
  lemma SigmoidDerivativeNonNegative(x: real)
    requires 0.0 <= x <= 1.0
    ensures 0.0 <= SigmoidDerivative(x)
  {
    if 0.0 < x < 1.0 {
      SigmoidDerivativePositive(x);
    }
  }
}
