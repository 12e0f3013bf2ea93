/** Comparing numbers: the tolerance, the tolerant comparison, and the smaller, the larger
    and the absolute value. */
module Numbers {

  const DELTA := 0.000001

  function Abs(a: real): real {
    if a < 0.0 then -a else a
  }

  function Min(a: real, b: real): real {
    if a < b then a else b
  }

  function Max(a: real, b: real): real {
    if a > b then a else b
  }

  /** The tolerant comparison. */
  predicate Eq(x: real, y: real) {
    Abs(x - y) < DELTA
  }

  /** The law of the square root. */
  ghost predicate SquareRoot(sqrt: real -> real) {
    forall r: real | r >= 0.0 :: sqrt(r) >= 0.0 && sqrt(r) * sqrt(r) == r
  }
}
