/**
 * Activation dispatch on a string tag (dynamic/activation.js).  The
 * logistic function needs Math.exp, so callers pass it in as `sigmoid`.
 */
module DynamicActivation {
  import opened Maths

  const NONE: string := "NONE"
  const SIGMOID: string := "SIGMOID"
  const RELU: string := "RELU"

  /** getValue: the switch falls through to the identity for any other tag. */
  function Value(sigmoid: real -> real, tag: string, x: real): (y: real)
    ensures tag == SIGMOID ==> y == sigmoid(x)
    ensures tag == RELU ==> y == ReLU(x)
    ensures tag != SIGMOID && tag != RELU ==> y == x
  {
    if tag == SIGMOID then sigmoid(x)
    else if tag == RELU then ReLU(x)
    else x
  }

  /** getDerivative: any other tag, NONE included, has derivative 0. */
  function Derivative(tag: string, x: real): (d: real)
    ensures tag == SIGMOID ==> d == SigmoidDerivative(x)
    ensures tag == RELU ==> d == ReLUDerivative(x)
    ensures tag != SIGMOID && tag != RELU ==> d == 0.0
  {
    if tag == SIGMOID then SigmoidDerivative(x)
    else if tag == RELU then ReLUDerivative(x)
    else 0.0
  }

  /** A NONE-tagged unit passes its input through and stops the error signal. */
  lemma NoneIsPassThrough(sigmoid: real -> real, x: real, e: real)
    ensures Value(sigmoid, NONE, x) == x
    ensures e * Derivative(NONE, x) == 0.0
  {
  }
}

/**
 * The same dispatch in nn/activation.js, which has no NONE constant: a
 * neuron built without an activation carries `null` (nn/neuron.js:20,
 * `params.activation || null`), modelled as None.
 */
module Activation {
  import opened Maths
  import opened Wrappers
  import DynamicActivation

  const SIGMOID: string := "SIGMOID"
  const RELU: string := "RELU"

  function Value(sigmoid: real -> real, tag: Option<string>, x: real): (y: real)
    ensures tag == Some(SIGMOID) ==> y == sigmoid(x)
    ensures tag == Some(RELU) ==> y == ReLU(x)
    ensures tag != Some(SIGMOID) && tag != Some(RELU) ==> y == x
  {
    match tag
    case Some(t) =>
      if t == SIGMOID then sigmoid(x) else if t == RELU then ReLU(x) else x
    case None => x
  }

  function Derivative(tag: Option<string>, x: real): (d: real)
    ensures tag == Some(SIGMOID) ==> d == SigmoidDerivative(x)
    ensures tag == Some(RELU) ==> d == ReLUDerivative(x)
    ensures tag != Some(SIGMOID) && tag != Some(RELU) ==> d == 0.0
  {
    match tag
    case Some(t) =>
      if t == SIGMOID then SigmoidDerivative(x) else if t == RELU then ReLUDerivative(x) else 0.0
    case None => 0.0
  }

  /** The two copies agree on every defined tag; an undefined one acts like NONE. */
  lemma AgreesWithDynamic(sigmoid: real -> real, tag: Option<string>, x: real)
    ensures tag.Some? ==> Value(sigmoid, tag, x) == DynamicActivation.Value(sigmoid, tag.value, x)
    ensures tag.Some? ==> Derivative(tag, x) == DynamicActivation.Derivative(tag.value, x)
    ensures tag.None? ==> Value(sigmoid, tag, x) == DynamicActivation.Value(sigmoid, DynamicActivation.NONE, x)
    ensures tag.None? ==> Derivative(tag, x) == DynamicActivation.Derivative(DynamicActivation.NONE, x)
  {
  }
}
