/** The group-cyclic distributions of examples/bspedupack/bspfft.c: n = p np numbers over p processors;
  * with cycle c, each group of c processors holds c np consecutive numbers cyclically. */
module Distributions {
  import opened Arithmetic

  /** The global index of local number t of processor s. */
  function Global(c: int, np: int, s: int, t: int): int
    requires c > 0
  {
    (s / c) * (c * np) + t * c + s % c
  }

  /** The processor that holds global number g. */
  function Owner(c: int, np: int, g: int): int
    requires c > 0 && c * np > 0
  {
    (g / (c * np)) * c + g % c
  }

  /** Where in that processor. */
  function Index(c: int, np: int, g: int): int
    requires c > 0 && c * np > 0
  {
    (g % (c * np)) / c
  }

  lemma Positive(a: int, b: int)
    requires a > 0 && b > 0
    ensures a * b > 0 && a <= a * b && b <= a * b
  {
    MulMonotone(1, b, a);
    MulMonotone(1, a, b);
  }

  /** Numbers of the shape q a + r b + e, with 0 <= r b + e < a. */
  lemma Digits(q: int, c: int, np: int, t: int, e: int, g: int)
    requires c > 0 && np > 0 && 0 <= t < np && 0 <= e < c && g == q * (c * np) + t * c + e
    ensures c * np > 0 && g / (c * np) == q && g % (c * np) == t * c + e
    ensures (g % (c * np)) / c == t && g % c == e
  {
    Positive(c, np);
    MulMonotone(t + 1, np, c);
    assert (t + 1) * c == t * c + c;
    assert np * c == c * np;
    DivModUnique(g, c * np, q, t * c + e);
    DivModUnique(t * c + e, c, t, e);
    assert q * (c * np) == (q * np) * c;
    DivModUnique(g, c, q * np + t, e);
  }

  /** Every local place holds the number its global index names. */
  lemma PlaceOfGlobal(c: int, np: int, s: int, t: int)
    requires c > 0 && np > 0 && 0 <= t < np
    ensures c * np > 0
    ensures Owner(c, np, Global(c, np, s, t)) == s && Index(c, np, Global(c, np, s, t)) == t
  {
    Digits(s / c, c, np, t, s % c, Global(c, np, s, t));
  }

  /** Every number is where the distribution says it is. */
  lemma GlobalOfPlace(c: int, np: int, g: int)
    requires c > 0 && np > 0
    ensures c * np > 0 && 0 <= Index(c, np, g) < np
    ensures Global(c, np, Owner(c, np, g), Index(c, np, g)) == g
  {
    Positive(c, np);
    var q, r := g / (c * np), g % (c * np);
    var t, e := r / c, r % c;
    assert g == q * (c * np) + t * c + e;
    QuotientBelow(r, c, np);
    Digits(q, c, np, t, e, g);
    DivModUnique(Owner(c, np, g), c, q, e);
  }

  /** With cycle 1 every processor holds a block, with cycle p every p-th number. */
  lemma BlockAndCyclic(p: int, np: int, s: int, t: int)
    requires 0 <= s < p && 0 <= t < np
    ensures Global(1, np, s, t) == s * np + t && Global(p, np, s, t) == t * p + s
  {
    DivModUnique(s, p, 0, s);
  }

  lemma QuotientBelow(r: int, c: int, np: int)
    requires c > 0 && np > 0 && 0 <= r < c * np
    ensures 0 <= r / c < np
  {
    var t, e := r / c, r % c;
    assert r == t * c + e;
    if t >= np {
      MulMonotone(np, t, c);
    } else if t < 0 {
      MulMonotone(t, -1, c);
    }
  }

  /** Row q of k rows of b numbers. */
  lemma RowBound(q: int, k: int, b: int, o: int)
    requires 0 <= q < k && 0 <= o < b
    ensures 0 <= q * b + o < k * b
  {
    MulMonotone(0, q, b);
    MulMonotone(q + 1, k, b);
    assert (q + 1) * b == q * b + b;
  }

  lemma MulAssociative(k: int, c: int, np: int)
    ensures k * (c * np) == (k * c) * np
  {
  }

  /** With p = k c, the p processors hold exactly the numbers 0..p np. */
  lemma GlobalInRange(c: int, np: int, k: int, s: int, t: int)
    requires c > 0 && np > 0 && k > 0 && 0 <= s < c * k && 0 <= t < np
    ensures 0 <= Global(c, np, s, t) < (k * c) * np
  {
    var q, e := s / c, s % c;
    QuotientBelow(s, c, k);
    RowBound(t, np, c, e);
    assert np * c == c * np;
    RowBound(q, k, c * np, t * c + e);
    MulAssociative(k, c, np);
  }

  lemma OwnerInRange(c: int, np: int, k: int, g: int)
    requires c > 0 && np > 0 && k > 0 && 0 <= g < (c * np) * k
    ensures c * np > 0 && 0 <= Owner(c, np, g) < k * c
  {
    Positive(c, np);
    QuotientBelow(g, c * np, k);
    RowBound(g / (c * np), k, c, g % c);
  }

  lemma QuotientNat(g: int, m: int)
    requires g >= 0 && m > 0
    ensures g / m >= 0
  {
    if g / m < 0 {
      MulMonotone(g / m, -1, m);
    }
  }
}
