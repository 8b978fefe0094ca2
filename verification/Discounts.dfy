/** Rank discounts and powers. */
module Discounts {
  import opened Arith

  /** `1 / log2(rank + 1)` is one. All that is used of it is that it is positive and decreasing. */
  ghost predicate IsDiscount(d: nat -> real) {
    && (forall r :: d(r) > 0.0)
    && forall r, s | r < s :: d(r) > d(s)
  }

  /** beta^n. */
  function Pow(beta: real, n: nat): real {
    if n == 0 then 1.0 else beta * Pow(beta, n - 1)
  }

  lemma {:induction false} PowDecreases(beta: real, m: nat, n: nat)
    requires 0.0 < beta < 1.0 && m <= n
    ensures 0.0 < Pow(beta, n) <= Pow(beta, m) <= 1.0
    decreases n
  {
    if n > 0 {
      if m < n {
        PowDecreases(beta, m, n - 1);
        var p := Pow(beta, n - 1);
        Positive(beta, p, beta * p);
        StrictMonoOf(beta, 1.0, p, beta * p, p);
      } else {
        PowDecreases(beta, m - 1, n - 1);
        var p := Pow(beta, n - 1);
        Positive(beta, p, beta * p);
        StrictMonoOf(beta, 1.0, p, beta * p, p);
      }
    }
  }
}
