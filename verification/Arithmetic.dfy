/** A law of multiplication that the solver needs help with. */
module Arithmetic {

  lemma MulMonotone(a: int, x: int, y: int)
    requires a >= 0 && x <= y
    ensures a * x <= a * y
  {
  }
}
