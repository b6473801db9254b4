/** Facts about multiplication and division by a variable, which the solver does not find
    on its own. */
module Arith {

  lemma MulSucc(a: nat, c: nat)
    ensures (a + 1) * c == a * c + c
  {
  }

  lemma MulMonotone(a: nat, b: nat, c: nat)
    requires a <= b
    ensures a * c <= b * c
  {
  }

  /** A positive factor can be cancelled from a strict inequality. */
  lemma {:induction false} MulCancel(d: nat, x: nat, y: nat)
    requires d * x < d * y
    ensures x < y
    decreases x
  {
    if x > 0 {
      assert y > 0 by {
        assert d * x >= 0;
      }
      assert d * (x - 1) == d * x - d && d * (y - 1) == d * y - d;
      MulCancel(d, x - 1, y - 1);
    }
  }

  /** Division rounds down: the quotient times the divisor is within one divisor of `a`. */
  lemma DivBounds(a: nat, d: nat)
    requires d > 0
    ensures d * (a / d) <= a < d * (a / d) + d
  {
  }
}
