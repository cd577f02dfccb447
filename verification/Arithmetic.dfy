/** Facts about products and quotients that the solver does not find by itself. */
module Arithmetic {

  lemma MulMono(a: nat, b: nat)
    requires a <= b
    ensures a * a <= b * b
  {
    assert b * b == a * a + (b - a) * (b + a);
  }

  lemma MulAtLeast(a: nat, c: nat)
    requires c >= 1
    ensures a * c >= a
  {
    assert a * c == a + a * (c - 1);
  }

  lemma ProductMono(a: nat, b: nat, c: nat, d: nat)
    requires a <= b && c <= d
    ensures a * c <= b * d
  {
    assert b * d == a * c + a * (d - c) + (b - a) * d;
  }

  lemma QuotientSmall(a: nat, b: nat)
    requires b > 0
    ensures a / b <= a
  {
    MulAtLeast(a / b, b);
  }
}
