/** The cycles of the parallel transform (k1_init of examples/bspedupack/bspfft.c), for n = 2^(q+l)
  * numbers over p = 2^q processors. */
module Cycles {
  import opened Arithmetic
  import opened FftMath
  import opened FftStages

  /** The number of supersteps with communication. */
  function Rounds(q: nat, l: nat): nat
    requires l > 0
  {
    if q == 0 then 0 else if q <= l then 1 else 1 + Rounds(q - l, l)
  }

  /** log2 of the size of the first transforms. */
  function FirstOrder(q: nat, l: nat): (i: nat)
    requires l > 0
    ensures i <= l
  {
    if q == 0 then l else if q <= l then q else FirstOrder(q - l, l)
  }

  /** After all rounds of l stages, every stage has been done. */
  lemma {:induction false} RoundsComplete(q: nat, l: nat)
    requires l > 0
    ensures FirstOrder(q, l) + Start(Rounds(q, l), l) == q + l
  {
    if q > l {
      RoundsComplete(q - l, l);
    } else {
      assert Start(0, l) == 0 && Start(1, l) == l;
    }
  }

  /** The size of the first transforms: terminates, and is the one of the right order. */
  method K1Init(n: nat, p: nat, ghost q: nat, ghost l: nat) returns (k1: nat)
    requires l > 0 && p == P2(q) && n == P2(q + l)
    ensures k1 == P2(FirstOrder(q, l)) && p > 0 && k1 > 0 && (n / p) % k1 == 0
  {
    P2Quotient(q, l);
    var np := n / p;
    var c := 1;
    ghost var t := 0;
    ghost var total := Rounds(q, l);
    RoundsComplete(q, l);
    while c < p
      invariant t <= total && c == P2(Start(t, l))
      decreases total - t
    {
      NotYetAll(q, l, t);
      P2Mul(Start(t, l), l);
      c := c * np;
      t := t + 1;
    }
    AllOnlyThen(q, l, t);
    ghost var i := FirstOrder(q, l);
    P2Quotient(Start(total, l), i);
    k1 := n / c;
    P2Mul(l - i, i);
    DivModUnique(np, k1, P2(l - i), 0);
  }

  lemma P2Quotient(a: nat, b: nat)
    ensures P2(a + b) / P2(a) == P2(b)
  {
    P2Mul(b, a);
    DivModUnique(P2(a + b), P2(a), P2(b), 0);
  }

  lemma NotYetAll(q: nat, l: nat, t: nat)
    requires l > 0 && t <= Rounds(q, l) && P2(Start(t, l)) < P2(q)
    ensures t < Rounds(q, l)
  {
    P2Less(Start(t, l), q);
    RoundsComplete(q, l);
  }

  /** Before the last round the cycle is below p. */
  lemma {:induction false} CycleBelow(q: nat, l: nat, t: nat)
    requires l > 0 && t < Rounds(q, l)
    ensures Start(t, l) < q
  {
    if q > l && t > 0 {
      CycleBelow(q - l, l, t - 1);
    }
  }

  lemma AllOnlyThen(q: nat, l: nat, t: nat)
    requires l > 0 && t <= Rounds(q, l) && P2(Start(t, l)) >= P2(q)
    ensures t == Rounds(q, l)
  {
    if t < Rounds(q, l) {
      CycleBelow(q, l, t);
      P2Less(Start(t, l), q);
    }
  }

  /** All twiddle tables together fit in 2 n/p + p doubles. */
  lemma TwiddleSpace(q: nat, l: nat, np: nat)
    requires l > 0 && np == P2(l)
    ensures Start(Rounds(q, l), 2 * np) <= 2 * np + P2(q)
  {
    var t := Rounds(q, l);
    if t > 1 {
      CycleBelow(q, l, t - 1);
      PowerBeatsProduct(t - 1, l, np);
      P2Grows(Start(t - 1, l) + 1, q);
      StartTwice(t - 1, np);
    } else {
      assert Start(0, 2 * np) == 0 && Start(1, 2 * np) == 2 * np;
    }
  }

  lemma {:induction false} PowerBeatsProduct(a: nat, l: nat, np: nat)
    requires l > 0 && a > 0 && np == P2(l)
    ensures Start(a, np) <= P2(Start(a, l))
  {
    if a == 1 {
      assert Start(0, np) == 0 && Start(0, l) == 0;
    } else {
      PowerBeatsProduct(a - 1, l, np);
      P2Mul(Start(a - 1, l), l);
      P2Grows(1, l);
      StartGrows(1, a - 1, l);
      assert Start(1, l) == Start(0, l) + l;
      P2Grows(l, Start(a - 1, l));
      MulMonotone(2, np, P2(Start(a - 1, l)));
      assert np * P2(Start(a - 1, l)) == P2(Start(a - 1, l)) * np;
    }
  }
}
