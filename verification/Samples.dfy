// Arithmetic of samples, over exact reals.
module Samples {

  // A product of samples, as a term of its own.
  function Times(x: real, y: real): real { x * y }

  lemma TimesZero(x: real)
    ensures Times(0.0, x) == 0.0
  {
  }
}
