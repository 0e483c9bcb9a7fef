/** Facts about products, quotients and remainders that the solver needs spelled out. */
module Arithmetic {

  /** Quotient and remainder are determined by the division identity. */
  lemma DivModUnique(x: int, m: int, q: int, r: int)
    requires 0 <= r < m && x == q * m + r
    ensures x / m == q && x % m == r
  {
    var q', r' := x / m, x % m;
    assert x == q' * m + r';
    assert (q - q') * m == r' - r;
    if q > q' {
      MulMonotone(1, q - q', m);
    } else if q < q' {
      MulMonotone(q - q', -1, m);
    }
  }

  lemma MulMonotone(a: int, b: int, m: int)
    requires a <= b && m >= 0
    ensures a * m <= b * m
  {
    assert (b - a) * m >= 0;
  }

  /** Where block r of k numbers starts. */
  function Start(r: nat, k: nat): nat {
    if r == 0 then 0 else Start(r - 1, k) + k
  }

  lemma {:induction false} StartIs(r: nat, k: nat)
    ensures Start(r, k) == r * k
  {
    if r > 0 {
      StartIs(r - 1, k);
      assert r * k == (r - 1) * k + k;
    }
  }

  lemma {:induction false} StartAdd(a: nat, b: nat, k: nat)
    ensures Start(a + b, k) == Start(a, k) + Start(b, k)
  {
    if b > 0 {
      StartAdd(a, b - 1, k);
    }
  }

  lemma {:induction false} StartGrows(a: nat, b: nat, k: nat)
    requires a <= b
    ensures Start(a, k) <= Start(b, k)
  {
    StartAdd(a, b - a, k);
  }

  lemma {:induction false} StartTwice(a: nat, k: nat)
    ensures Start(a, 2 * k) == 2 * Start(a, k)
  {
    if a > 0 { StartTwice(a - 1, k); }
  }
}
