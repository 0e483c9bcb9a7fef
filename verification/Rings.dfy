/** Commutative rings given by their operations, so that proofs use nothing but the laws. */
module Rings {

  datatype Ring<!T> = Ring(zero: T, one: T, add: (T, T) -> T, neg: T -> T, mul: (T, T) -> T)
  {
    function Sub(a: T, b: T): T {
      add(a, neg(b))
    }
  }

  /** The laws at given elements; each is used by naming the elements. */
  predicate AddLaws<T(==)>(R: Ring<T>, a: T, b: T, c: T) {
    && R.add(a, b) == R.add(b, a)
    && R.add(R.add(a, b), c) == R.add(a, R.add(b, c))
    && R.add(R.zero, a) == a
    && R.add(a, R.neg(a)) == R.zero
  }

  predicate MulLaws<T(==)>(R: Ring<T>, a: T, b: T, c: T) {
    && R.mul(a, b) == R.mul(b, a)
    && R.mul(R.mul(a, b), c) == R.mul(a, R.mul(b, c))
    && R.mul(R.one, a) == a
    && R.mul(a, R.add(b, c)) == R.add(R.mul(a, b), R.mul(a, c))
  }

  ghost predicate Lawful<T(!new)>(R: Ring<T>) {
    forall a: T, b: T, c: T :: AddLaws(R, a, b, c) && MulLaws(R, a, b, c)
  }

  lemma AddComm<T(!new)>(R: Ring<T>, a: T, b: T)
    requires Lawful(R)
    ensures R.add(a, b) == R.add(b, a)
  {
    assert AddLaws(R, a, b, a);
  }

  lemma AddAssoc<T(!new)>(R: Ring<T>, a: T, b: T, c: T)
    requires Lawful(R)
    ensures R.add(R.add(a, b), c) == R.add(a, R.add(b, c))
  {
    assert AddLaws(R, a, b, c);
  }

  lemma AddUnit<T(!new)>(R: Ring<T>, a: T)
    requires Lawful(R)
    ensures R.add(R.zero, a) == a == R.add(a, R.zero) && R.add(a, R.neg(a)) == R.zero
  {
    assert AddLaws(R, a, R.zero, a);
  }

  lemma MulComm<T(!new)>(R: Ring<T>, a: T, b: T)
    requires Lawful(R)
    ensures R.mul(a, b) == R.mul(b, a)
  {
    assert MulLaws(R, a, b, a);
  }

  lemma MulAssoc<T(!new)>(R: Ring<T>, a: T, b: T, c: T)
    requires Lawful(R)
    ensures R.mul(R.mul(a, b), c) == R.mul(a, R.mul(b, c))
  {
    assert MulLaws(R, a, b, c);
  }

  lemma MulUnit<T(!new)>(R: Ring<T>, a: T)
    requires Lawful(R)
    ensures R.mul(R.one, a) == a == R.mul(a, R.one)
  {
    assert MulLaws(R, a, R.one, a);
  }

  lemma MulAdd<T(!new)>(R: Ring<T>, a: T, b: T, c: T)
    requires Lawful(R)
    ensures R.mul(a, R.add(b, c)) == R.add(R.mul(a, b), R.mul(a, c))
  {
    assert MulLaws(R, a, b, c);
  }

  /** x + y == y alone makes x the zero. */
  lemma ZeroIs<T(!new)>(R: Ring<T>, x: T, y: T)
    requires Lawful(R) && R.add(x, y) == y
    ensures x == R.zero
  {
    AddAssoc(R, x, y, R.neg(y));
    AddUnit(R, y);
    AddUnit(R, x);
  }

  lemma MulZero<T(!new)>(R: Ring<T>, a: T)
    requires Lawful(R)
    ensures R.mul(a, R.zero) == R.zero == R.mul(R.zero, a)
  {
    AddUnit(R, R.zero);
    MulAdd(R, a, R.zero, R.zero);
    ZeroIs(R, R.mul(a, R.zero), R.mul(a, R.zero));
    MulComm(R, a, R.zero);
  }

  /** The negative is what adds up to zero. */
  lemma NegIs<T(!new)>(R: Ring<T>, a: T, b: T)
    requires Lawful(R) && R.add(a, b) == R.zero
    ensures b == R.neg(a)
  {
    AddAssoc(R, R.neg(a), a, b);
    AddUnit(R, a);
    AddComm(R, a, R.neg(a));
    AddUnit(R, b);
    AddUnit(R, R.neg(a));
  }

  lemma MulNeg<T(!new)>(R: Ring<T>, a: T, b: T)
    requires Lawful(R)
    ensures R.mul(a, R.neg(b)) == R.neg(R.mul(a, b)) == R.mul(R.neg(a), b)
  {
    MulAdd(R, a, b, R.neg(b));
    AddUnit(R, b);
    MulZero(R, a);
    NegIs(R, R.mul(a, b), R.mul(a, R.neg(b)));
    MulComm(R, R.neg(a), b); MulComm(R, a, b);
    MulAdd(R, b, a, R.neg(a));
    AddUnit(R, a);
    MulZero(R, b);
    NegIs(R, R.mul(b, a), R.mul(b, R.neg(a)));
  }

  lemma NegNeg<T(!new)>(R: Ring<T>, a: T, b: T)
    requires Lawful(R)
    ensures R.neg(R.neg(a)) == a && R.mul(R.neg(a), R.neg(b)) == R.mul(a, b)
  {
    AddUnit(R, a);
    AddComm(R, a, R.neg(a));
    NegIs(R, R.neg(a), a);
    AddUnit(R, R.mul(a, b));
    AddComm(R, R.mul(a, b), R.neg(R.mul(a, b)));
    NegIs(R, R.neg(R.mul(a, b)), R.mul(a, b));
    MulNeg(R, a, b);
    MulNeg(R, R.neg(a), b);
  }

  lemma MulSub<T(!new)>(R: Ring<T>, a: T, b: T, c: T)
    requires Lawful(R)
    ensures R.mul(a, R.Sub(b, c)) == R.Sub(R.mul(a, b), R.mul(a, c))
  {
    MulAdd(R, a, b, R.neg(c));
    MulNeg(R, a, c);
  }

  /** (a b)(c d) == (a c)(b d) */
  lemma MulSwap<T(!new)>(R: Ring<T>, a: T, b: T, c: T, d: T)
    requires Lawful(R)
    ensures R.mul(R.mul(a, b), R.mul(c, d)) == R.mul(R.mul(a, c), R.mul(b, d))
  {
    MulAssoc(R, a, b, R.mul(c, d));
    MulAssoc(R, b, c, d);
    MulComm(R, b, c);
    MulAssoc(R, c, b, d);
    MulAssoc(R, a, c, R.mul(b, d));
  }

  // ----- powers -----

  function Pow<T>(R: Ring<T>, z: T, k: nat): T {
    if k == 0 then R.one else R.mul(z, Pow(R, z, k - 1))
  }

  lemma {:induction false} PowAdd<T(!new)>(R: Ring<T>, z: T, a: nat, b: nat)
    requires Lawful(R)
    ensures Pow(R, z, a + b) == R.mul(Pow(R, z, a), Pow(R, z, b))
  {
    if a == 0 {
      MulUnit(R, Pow(R, z, b));
    } else {
      PowAdd(R, z, a - 1, b);
      MulAssoc(R, z, Pow(R, z, a - 1), Pow(R, z, b));
    }
  }

  lemma {:induction false} PowMul<T(!new)>(R: Ring<T>, z: T, a: nat, b: nat)
    requires Lawful(R)
    ensures a * b >= 0 && Pow(R, z, a * b) == Pow(R, Pow(R, z, a), b)
    decreases b
  {
    if b > 0 {
      PowMul(R, z, a, b - 1);
      assert a * b == a + a * (b - 1);
      PowAdd(R, z, a, a * (b - 1));
    }
  }

  lemma {:induction false} PowProduct<T(!new)>(R: Ring<T>, y: T, z: T, k: nat)
    requires Lawful(R)
    ensures Pow(R, R.mul(y, z), k) == R.mul(Pow(R, y, k), Pow(R, z, k))
  {
    if k == 0 {
      MulUnit(R, R.one);
    } else {
      PowProduct(R, y, z, k - 1);
      MulSwap(R, y, z, Pow(R, y, k - 1), Pow(R, z, k - 1));
    }
  }

  lemma PowSquare<T(!new)>(R: Ring<T>, z: T, k: nat)
    requires Lawful(R)
    ensures Pow(R, R.mul(z, z), k) == Pow(R, z, 2 * k) == R.mul(Pow(R, z, k), Pow(R, z, k))
  {
    PowProduct(R, z, z, k);
    PowAdd(R, z, k, k);
  }

  lemma PowTwo<T(!new)>(R: Ring<T>, z: T)
    requires Lawful(R)
    ensures Pow(R, z, 1) == z && Pow(R, z, 2) == R.mul(z, z)
  {
    MulUnit(R, z);
    assert Pow(R, z, 1) == R.mul(z, Pow(R, z, 0));
  }
}
