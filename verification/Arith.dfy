/** Small facts about products and quotients, each proved on its own. */
module Arith {

  lemma IntMono(a: int, b: int, c: int)
    requires a <= b && c >= 0
    ensures a * c <= b * c
  {
  }

  lemma IntDistribute(a: int, b: int, c: int)
    ensures a * (b + c) == a * b + a * c
  {
  }

  lemma IntSquare(a: int)
    ensures a * a >= 0
  {
  }

  lemma StrictMono(a: real, b: real, c: real)
    requires a < b && c > 0.0
    ensures a * c < b * c
  {
  }

  // Facts used where products meet further arithmetic take the products themselves as `p` and `q`.

  lemma MonoOf(a: real, b: real, c: real, p: real, q: real)
    requires a <= b && c >= 0.0 && p == a * c && q == b * c
    ensures p <= q
  {
  }

  lemma StrictMonoOf(a: real, b: real, c: real, p: real, q: real)
    requires a < b && c > 0.0 && p == a * c && q == b * c
    ensures p < q
  {
  }

  lemma Positive(a: real, b: real, p: real)
    requires a > 0.0 && b > 0.0 && p == a * b
    ensures p > 0.0
  {
  }

  lemma NonNegative(a: real, b: real, p: real)
    requires a >= 0.0 && b >= 0.0 && p == a * b
    ensures p >= 0.0
  {
  }

  lemma Square(a: real, p: real)
    requires p == a * a
    ensures p >= 0.0
    ensures p == 0.0 <==> a == 0.0
  {
    if a > 0.0 {
      Positive(a, a, p);
    } else if a < 0.0 {
      Positive(-a, -a, p);
    }
  }

  lemma Distribute(a: real, b: real, c: real)
    ensures a * (b + c) == a * b + a * c
    ensures a * (b - c) == a * b - a * c
  {
  }

  lemma Associate(a: real, b: real, c: real)
    ensures (a * b) * c == a * (b * c)
  {
  }

  lemma QuotientTimes(a: real, b: real)
    requires b != 0.0
    ensures (a / b) * b == a
  {
  }

  /** A quotient is determined by its product with the divisor. */
  lemma QuotientIs(q: real, a: real, b: real)
    requires b != 0.0 && q * b == a
    ensures a / b == q
  {
  }

  lemma QuotientLe(a: real, b: real, c: real)
    requires b > 0.0 && a <= c * b
    ensures a / b <= c
  {
    if a / b > c {
      StrictMono(c, a / b, b);
      QuotientTimes(a, b);
    }
  }

  lemma QuotientGe(a: real, b: real, c: real)
    requires b > 0.0 && a >= c * b
    ensures a / b >= c
  {
    if a / b < c {
      StrictMono(a / b, c, b);
      QuotientTimes(a, b);
    }
  }

  lemma QuotientMono(a: real, c: real, b: real)
    requires b > 0.0 && a <= c
    ensures a / b <= c / b
  {
    QuotientTimes(c, b);
    QuotientLe(a, b, c / b);
  }

  lemma Proportion(a: real, b: real)
    requires b > 0.0 && 0.0 <= a <= b
    ensures 0.0 <= a / b <= 1.0
    ensures a / b == 0.0 <==> a == 0.0
    ensures a / b == 1.0 <==> a == b
  {
    QuotientGe(a, b, 0.0);
    QuotientLe(a, b, 1.0);
    QuotientTimes(a, b);
    if a == b {
      QuotientIs(1.0, a, b);
    }
  }

  lemma QuotientAdd(a: real, c: real, b: real)
    requires b != 0.0
    ensures a / b + c / b == (a + c) / b
  {
    QuotientTimes(a, b);
    QuotientTimes(c, b);
    Distribute(b, a / b, c / b);
    QuotientIs(a / b + c / b, a + c, b);
  }

  lemma ProductOfQuotients(a: real, b: real, c: real, d: real, bd: real)
    requires b > 0.0 && d > 0.0 && bd == b * d
    ensures bd > 0.0
    ensures (a / b) * (c / d) == (a * c) / bd
  {
    Positive(b, d, bd);
    QuotientTimes(a, b);
    QuotientTimes(c, d);
    Regroup(a / b, c / d, b, d);
    QuotientIs((a / b) * (c / d), a * c, bd);
  }

  lemma Regroup(x: real, y: real, b: real, d: real)
    ensures (x * y) * (b * d) == (x * b) * (y * d)
  {
    assert (x * y) * (b * d) == x * (y * (b * d));
    assert y * (b * d) == b * (y * d);
    assert x * (b * (y * d)) == (x * b) * (y * d);
  }

  lemma CastProduct(a: int, b: int)
    ensures (a * b) as real == (a as real) * (b as real)
  {
  }
}
