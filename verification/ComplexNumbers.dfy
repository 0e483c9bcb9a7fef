/** Complex numbers in exact arithmetic, stored the way the kernels store them: (Re, Im). */
module ComplexNumbers {
  import opened Rings

  datatype Complex = Complex(re: real, im: real)

  function Add(a: Complex, b: Complex): Complex {
    Complex(a.re + b.re, a.im + b.im)
  }

  function Neg(a: Complex): Complex {
    Complex(-a.re, -a.im)
  }

  function Mul(a: Complex, b: Complex): Complex {
    Complex(a.re * b.re - a.im * b.im, a.im * b.re + a.re * b.im)
  }

  function Conj(a: Complex): Complex {
    Complex(a.re, -a.im)
  }

  const C := Ring(Complex(0.0, 0.0), Complex(1.0, 0.0), Add, Neg, Mul)

  lemma MulAssociates(a: Complex, b: Complex, c: Complex)
    ensures Mul(Mul(a, b), c) == Mul(a, Mul(b, c))
  {
  }

  lemma MulDistributes(a: Complex, b: Complex, c: Complex)
    ensures Mul(a, Add(b, c)) == Add(Mul(a, b), Mul(a, c))
  {
  }

  lemma MulCommutes(a: Complex, b: Complex)
    ensures Mul(a, b) == Mul(b, a)
  {
    assert a.re * b.re == b.re * a.re && a.im * b.im == b.im * a.im;
    assert a.im * b.re == b.re * a.im && a.re * b.im == b.im * a.re;
  }

  lemma MulOne(a: Complex)
    ensures Mul(Complex(1.0, 0.0), a) == a
  {
    assert 1.0 * a.re == a.re && 0.0 * a.im == 0.0;
    assert 0.0 * a.re == 0.0 && 1.0 * a.im == a.im;
  }

  /** The complex numbers satisfy the laws every statement about transforms uses. */
  lemma ComplexLawful()
    ensures Lawful(C)
  {
    forall a, b, c ensures AddLaws(C, a, b, c) && MulLaws(C, a, b, c) {
      MulCommutes(a, b);
      MulAssociates(a, b, c);
      MulOne(a);
      MulDistributes(a, b, c);
    }
  }

  lemma ConjMul(a: Complex, b: Complex)
    ensures Conj(Mul(a, b)) == Mul(Conj(a), Conj(b))
  {
    assert (-a.im) * (-b.im) == a.im * b.im;
    assert (-a.im) * b.re == -(a.im * b.re) && a.re * (-b.im) == -(a.re * b.im);
  }

  /** R computes with a and b as complex numbers. */
  predicate ComputesWith(R: Ring<Complex>, a: Complex, b: Complex) {
    R.add(a, b) == Add(a, b) && R.mul(a, b) == Mul(a, b) && R.neg(a) == Neg(a)
  }

  /** R is the ring of the complex numbers. Statements about transforms take R as a parameter and
    * compute with it by the ring laws alone. */
  ghost predicate IsComplexRing(R: Ring<Complex>) {
    && R.zero == Complex(0.0, 0.0) && R.one == Complex(1.0, 0.0)
    && Lawful(R)
    && forall a, b {:trigger ComputesWith(R, a, b)} :: ComputesWith(R, a, b)
  }

  lemma ComplexRing()
    ensures IsComplexRing(C)
  {
    ComplexLawful();
  }

  lemma NegOne(R: Ring<Complex>)
    requires IsComplexRing(R)
    ensures R.neg(R.one) == Complex(-1.0, 0.0)
  {
    assert ComputesWith(R, R.one, R.one);
  }

  /** Conjugates of powers are powers of conjugates. */
  lemma {:induction false} ConjPow(R: Ring<Complex>, z: Complex, k: nat)
    requires IsComplexRing(R)
    ensures Conj(Pow(R, z, k)) == Pow(R, Conj(z), k)
  {
    if k > 0 {
      var w := Pow(R, z, k - 1);
      ConjPow(R, z, k - 1);
      ConjMul(z, w);
      assert ComputesWith(R, z, w) && ComputesWith(R, Conj(z), Conj(w));
    }
  }
}
