/** Floating-point values as the sources test them: a finite real, or NaN or an infinity. */
module Numbers {
  datatype Float = Finite(value: real) | NonFinite

  const UNKNOWN_SCORE: real := 50.0

  function ClampScore(x: real): real {
    if x < 0.0 then 0.0 else if x > 100.0 then 100.0 else x
  }

  // A usable latency or benchmark sample.
  predicate ValidSample(x: Float) {
    x.Finite? && x.value >= 0.0
  }
}
