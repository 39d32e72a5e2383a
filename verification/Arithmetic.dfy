/** Quotients and remainders by a number that is not fixed. */
module Arithmetic {

  lemma MulAtLeast(a: nat, m: nat)
    requires a >= 1
    ensures a * m >= m
  {
    assert (a - 1) * m >= 0;
  }

  lemma SameQuotient(m: nat, q: int, r: nat, q': int, r': nat)
    requires r < m && r' < m && q * m + r == q' * m + r'
    ensures q == q' && r == r'
  {
    if q > q' {
      MulAtLeast(q - q', m);
    } else if q < q' {
      MulAtLeast(q' - q, m);
    }
  }

  lemma DivUnique(n: nat, m: nat, q: nat, r: nat)
    requires m > 0 && r < m && n == q * m + r
    ensures n / m == q
  {
    SameQuotient(m, q, r, n / m, n % m);
  }

  lemma DivNatural(n: nat, m: nat)
    requires m > 0
    ensures n / m >= 0
  {
  }
}
