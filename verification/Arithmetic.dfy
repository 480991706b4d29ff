/** A fact about real numbers that several components share. */
module Arithmetic {

  lemma Product(a: real, b: real)
    requires 0.0 <= a && 0.0 <= b
    ensures 0.0 <= a * b
  {}
}
