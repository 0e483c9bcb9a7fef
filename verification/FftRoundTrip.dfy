/** Forward and backward transforms of examples/bspedupack/bspfft.c undo each other. */
module FftRoundTrip {
  import opened Arithmetic
  import opened Rings
  import opened ComplexNumbers
  import opened FftMath
  import opened FftKernels
  import opened FftPhases
  import opened FftInverse
  import opened Cycles
  import opened BspRedistr
  import opened BspFft
  import opened UnorderedFft

  // ----- roots of the exact arithmetic have norm 1 -----

  function Norm(a: Complex): real {
    a.re * a.re + a.im * a.im
  }

  function RealPow(x: real, k: nat): real {
    if k == 0 then 1.0 else x * RealPow(x, k - 1)
  }

  lemma NormMul(a: Complex, b: Complex)
    ensures Norm(Mul(a, b)) == Norm(a) * Norm(b)
  {
  }

  lemma {:induction false} NormPow(R: Ring<Complex>, z: Complex, k: nat)
    requires IsComplexRing(R)
    ensures Norm(Pow(R, z, k)) == RealPow(Norm(z), k)
  {
    if k == 0 {
      assert Norm(Complex(1.0, 0.0)) == 1.0;
    } else {
      var w := Pow(R, z, k - 1);
      NormPow(R, z, k - 1);
      NormMul(z, w);
      assert ComputesWith(R, z, w);
    }
  }

  lemma {:induction false} RealPowBound(x: real, k: nat)
    requires x >= 0.0 && k > 0
    ensures x <= 1.0 ==> 0.0 <= RealPow(x, k) <= x
    ensures x >= 1.0 ==> RealPow(x, k) >= x
  {
    if k == 1 {
      assert RealPow(x, 0) == 1.0;
    } else {
      var y := RealPow(x, k - 1);
      RealPowBound(x, k - 1);
      var t := x * y;
      assert y >= 0.0 && RealPow(x, k) == t;
      TimesBound(x, y);
      assert x <= 1.0 ==> y <= 1.0 && 0.0 <= t <= x;
      assert x >= 1.0 ==> y >= 1.0;
      assert x >= 1.0 ==> t >= x;
    }
  }

  lemma TimesBound(x: real, y: real)
    requires x >= 0.0 && y >= 0.0
    ensures x * y >= 0.0
    ensures y <= 1.0 ==> x * y <= x
    ensures y >= 1.0 ==> x * y >= x
  {
    assert x * (1.0 - y) == x - x * y;
    NonNegative(x, y);
    if y <= 1.0 {
      NonNegative(x, 1.0 - y);
    } else {
      NonNegative(x, y - 1.0);
      assert x * (y - 1.0) == x * y - x;
    }
  }

  lemma NonNegative(a: real, b: real)
    requires a >= 0.0 && b >= 0.0
    ensures a * b >= 0.0
  {
  }

  /** omega times its conjugate is 1. */
  lemma RootsAreUnits(R: Ring<Complex>, m: nat, omega: Complex)
    requires IsComplexRing(R) && m > 0 && IsRoot(R, m, omega)
    ensures R.mul(omega, Conj(omega)) == R.one
  {
    NegOne(R);
    NormPow(R, omega, P2(m - 1));
    assert Norm(Complex(-1.0, 0.0)) == 1.0;
    NormNat(omega);
    RealPowBound(Norm(omega), P2(m - 1));
    assert Norm(omega) == 1.0;
    TimesConj(omega);
    assert ComputesWith(R, omega, Conj(omega));
  }

  lemma NormNat(a: Complex)
    ensures Norm(a) >= 0.0
  {
    Square(a.re);
    Square(a.im);
  }

  lemma Square(x: real)
    ensures x * x >= 0.0
  {
  }

  lemma TimesConj(a: Complex)
    ensures Mul(a, Conj(a)) == Complex(Norm(a), 0.0)
  {
    assert a.re * a.re - a.im * (-a.im) == Norm(a);
    assert a.im * a.re + a.re * (-a.im) == 0.0;
  }

  // ----- backward after forward -----

  lemma {:induction false} MultipleIs(R: Ring<Complex>, n: nat, a: Complex)
    requires IsComplexRing(R)
    ensures Multiple(R, n, a) == Complex(n as real * a.re, n as real * a.im)
  {
    if n > 0 {
      MultipleIs(R, n - 1, a);
      assert ComputesWith(R, Multiple(R, n - 1, a), a);
      assert n as real == (n - 1) as real + 1.0;
    }
  }

  lemma Cancelled(n: nat, a: real, b: real)
    requires n > 0 && n as real * a == n as real * b
    ensures a == b
  {
    assert n as real * (a - b) == 0.0;
  }

  /** What is the n-th part of n times a number is that number. */
  lemma NthOfMultiple(R: Ring<Complex>, n: nat, part: Complex, a: Complex)
    requires IsComplexRing(R) && n > 0 && IsNth(n, part, Multiple(R, n, a))
    ensures part == a
  {
    MultipleIs(R, n, a);
    Cancelled(n, part.re, a.re);
    Cancelled(n, part.im, a.im);
  }

  /** The n-th part of the backward transform of the forward transform of X is X. */
  lemma BackwardOfForward(R: Ring<Complex>, m: nat, X: seq<Complex>, omega: Complex, y: seq<Complex>, Y: seq<Complex>)
    requires IsComplexRing(R) && m > 0 && |X| == |Y| == P2(m) && IsRoot(R, m, omega) && y == Dft(R, X, omega)
    requires forall i :: 0 <= i < |X| ==> IsNth(|X|, Y[i], Dft(R, y, Conj(omega))[i])
    ensures Y == X
  {
    RootsAreUnits(R, m, omega);
    var d := Dft(R, y, Conj(omega));
    forall j: nat | j < |X| ensures Y[j] == X[j] {
      assert IsNth(|X|, Y[j], d[j]);
      Inversion(R, m, X, omega, Conj(omega), j, y);
      NthOfMultiple(R, |X|, Y[j], X[j]);
    }
  }

  /** One iteration of the benchmark: a forward and a backward transform with the same tables leave every
    * processor with the numbers it started with. */
  method ForwardAndBackward(xs: seq<array<real>>, n: nat, p: nat, w0: array<real>, w: array<real>,
                            tws: seq<array<real>>, rhoNp: array<nat>, rhoP: seq<nat>,
                            ghost q: nat, ghost l: nat, ghost omega: Complex, ghost X: seq<Complex>)
    requires l > 0 && p == P2(q) && n == |X| == P2(q + l) && IsRoot(C, q + l, omega)
    requires |xs| == p && Distributed(xs, P2(l)) && Apart(xs, w0, w, tws)
    requires IsReversal(rhoNp[..], l) && IsReversal(rhoP, q) && PlainTables(C, q, l, omega, p, w0, w, tws)
    requires AllParts(xs, X, p, P2(l))
    modifies xs
    ensures AllParts(xs, X, p, P2(l))
  {
    ComplexRing();
    ghost var R := C;
    ghost var y := Bspfft(xs, n, p, 1, w0, w, tws, rhoNp, rhoP, q, l, omega, R, X);
    ghost var x := Bspfft(xs, n, p, -1, w0, w, tws, rhoNp, rhoP, q, l, omega, R, y);
    BackwardOfForward(R, q + l, X, omega, y, x);
  }
}
