/** Quotients and remainders by a variable divisor. */
module Arithmetic {

  lemma MultiplesAreApart(d: nat, a: nat, b: nat)
    requires a < b
    ensures d * a + d <= d * b
  {
    var step := b - a - 1;
    assert d * b == d * a + d + d * step;
  }

  /** A quotient and remainder are determined by their sizes. */
  lemma DivModIs(n: nat, d: nat, q: nat, m: nat)
    requires m < d && n == d * q + m
    ensures n / d == q && n % d == m
  {
    var q' := n / d;
    assert n == d * q' + n % d;
    if q < q' {
      MultiplesAreApart(d, q, q');
    } else if q' < q {
      MultiplesAreApart(d, q', q);
    }
  }

  lemma ModuloSteps(n: nat, d: nat)
    requires 0 < d
    ensures (n + 1) % d == (n % d + 1) % d
  {
    var q, m := n / d, n % d;
    if m + 1 < d {
      DivModIs(n + 1, d, q, m + 1);
      DivModIs(m + 1, d, 0, m + 1);
    } else {
      assert d * q + d == d * (q + 1);
      DivModIs(n + 1, d, q + 1, 0);
      DivModIs(m + 1, d, 1, 0);
    }
  }
}
