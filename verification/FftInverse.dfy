/** The backward transform undoes the forward transform. */
module FftInverse {
  import opened Rings
  import opened FftMath

  /** a added to itself n times. */
  function Multiple<T>(R: Ring<T>, n: nat, a: T): T {
    if n == 0 then R.zero else R.add(Multiple(R, n - 1, a), a)
  }

  lemma {:induction false} MultipleAdd<T(!new)>(R: Ring<T>, n: nat, k: nat, a: T)
    requires Lawful(R)
    ensures Multiple(R, n + k, a) == R.add(Multiple(R, n, a), Multiple(R, k, a))
  {
    if k == 0 {
      AddUnit(R, Multiple(R, n, a));
    } else {
      MultipleAdd(R, n, k - 1, a);
      AddAssoc(R, Multiple(R, n, a), Multiple(R, k - 1, a), a);
    }
  }

  // ----- polynomials entry by entry -----

  /** x[k] + y[k], entry by entry. */
  function Plus<T>(R: Ring<T>, x: seq<T>, y: seq<T>): (r: seq<T>)
    requires |x| == |y|
    ensures |r| == |x|
  {
    seq(|x|, k requires 0 <= k < |x| => R.add(x[k], y[k]))
  }

  function Minus<T>(R: Ring<T>, x: seq<T>, y: seq<T>): (r: seq<T>)
    requires |x| == |y|
    ensures |r| == |x|
  {
    seq(|x|, k requires 0 <= k < |x| => R.Sub(x[k], y[k]))
  }

  /** x[k] times c w^k. */
  function Twisted<T>(R: Ring<T>, x: seq<T>, w: T, c: T): (r: seq<T>)
    ensures |r| == |x|
  {
    seq(|x|, k requires 0 <= k < |x| => R.mul(R.mul(c, Pow(R, w, k)), x[k]))
  }

  lemma {:induction false} EvalConcat<T(!new)>(R: Ring<T>, x: seq<T>, y: seq<T>, z: T)
    requires Lawful(R)
    ensures Eval(R, x + y, z) == R.add(Eval(R, x, z), R.mul(Pow(R, z, |x|), Eval(R, y, z)))
  {
    if x == [] {
      assert x + y == y;
      MulUnit(R, Eval(R, y, z)); AddUnit(R, Eval(R, y, z));
    } else {
      var r, b := x[1..], Eval(R, y, z);
      assert (x + y)[1..] == r + y;
      EvalConcat(R, r, y, z);
      MulAdd(R, z, Eval(R, r, z), R.mul(Pow(R, z, |r|), b));
      MulAssoc(R, z, Pow(R, z, |r|), b);
      AddAssoc(R, x[0], R.mul(z, Eval(R, r, z)), R.mul(Pow(R, z, |x|), b));
    }
  }

  /** (a + b) + (c + d) == (a + c) + (b + d) */
  lemma AddSwap<T(!new)>(R: Ring<T>, a: T, b: T, c: T, d: T)
    requires Lawful(R)
    ensures R.add(R.add(a, b), R.add(c, d)) == R.add(R.add(a, c), R.add(b, d))
  {
    AddAssoc(R, a, b, R.add(c, d));
    AddAssoc(R, b, c, d);
    AddComm(R, b, c);
    AddAssoc(R, c, b, d);
    AddAssoc(R, a, c, R.add(b, d));
  }

  lemma {:induction false} EvalPlus<T(!new)>(R: Ring<T>, x: seq<T>, y: seq<T>, z: T)
    requires Lawful(R) && |x| == |y|
    ensures Eval(R, Plus(R, x, y), z) == R.add(Eval(R, x, z), Eval(R, y, z))
  {
    if x == [] {
      AddUnit(R, R.zero);
    } else {
      var a, b := Eval(R, x[1..], z), Eval(R, y[1..], z);
      EvalPlus(R, x[1..], y[1..], z);
      assert Plus(R, x, y)[1..] == Plus(R, x[1..], y[1..]);
      MulAdd(R, z, a, b);
      AddSwap(R, x[0], y[0], R.mul(z, a), R.mul(z, b));
    }
  }

  lemma NegAdd<T(!new)>(R: Ring<T>, a: T, b: T)
    requires Lawful(R)
    ensures R.neg(R.add(a, b)) == R.add(R.neg(a), R.neg(b))
  {
    AddSwap(R, a, b, R.neg(a), R.neg(b));
    AddUnit(R, a); AddUnit(R, b); AddUnit(R, R.zero);
    NegIs(R, R.add(a, b), R.add(R.neg(a), R.neg(b)));
  }

  lemma {:induction false} EvalMinus<T(!new)>(R: Ring<T>, x: seq<T>, y: seq<T>, z: T)
    requires Lawful(R) && |x| == |y|
    ensures Eval(R, Minus(R, x, y), z) == R.Sub(Eval(R, x, z), Eval(R, y, z))
  {
    if x == [] {
      AddUnit(R, R.zero);
    } else {
      var a, b := Eval(R, x[1..], z), Eval(R, y[1..], z);
      EvalMinus(R, x[1..], y[1..], z);
      assert Minus(R, x, y)[1..] == Minus(R, x[1..], y[1..]);
      MulSub(R, z, a, b);
      NegAdd(R, y[0], R.mul(z, b));
      AddSwap(R, x[0], R.neg(y[0]), R.mul(z, a), R.neg(R.mul(z, b)));
    }
  }

  /** A factor of the argument can be moved into the coefficients. */
  lemma {:induction false} EvalTwisted<T(!new)>(R: Ring<T>, x: seq<T>, w: T, c: T, z: T)
    requires Lawful(R)
    ensures Eval(R, Twisted(R, x, w, c), z) == R.mul(c, Eval(R, x, R.mul(w, z)))
  {
    if x == [] {
      MulZero(R, c);
    } else {
      var r, v := x[1..], Eval(R, x[1..], R.mul(w, z));
      EvalTwisted(R, r, w, R.mul(c, w), z);
      TwistedTail(R, x, w, c);
      MulUnit(R, c);
      MulComm(R, z, R.mul(R.mul(c, w), v));
      MulComm(R, z, R.mul(c, w));
      MulAssoc(R, z, R.mul(c, w), v);
      MulAssoc(R, c, w, z);
      MulAssoc(R, c, R.mul(w, z), v);
      MulAdd(R, c, x[0], R.mul(R.mul(w, z), v));
      assert Pow(R, w, 0) == R.one && Twisted(R, x, w, c)[0] == R.mul(c, x[0]);
    }
  }

  lemma TwistedTail<T(!new)>(R: Ring<T>, x: seq<T>, w: T, c: T)
    requires Lawful(R) && x != []
    ensures Twisted(R, x, w, c)[1..] == Twisted(R, x[1..], w, R.mul(c, w))
  {
    var t, u := Twisted(R, x, w, c), Twisted(R, x[1..], w, R.mul(c, w));
    forall k: nat | k < |x| - 1 ensures t[1..][k] == u[k] {
      MulAssoc(R, c, w, Pow(R, w, k));
      assert t[1..][k] == t[k + 1] && Pow(R, w, k + 1) == R.mul(w, Pow(R, w, k));
    }
  }

  // ----- even and odd entries of a transform -----

  /** A polynomial from the halves of its coefficients, where the power between them is 1 or -1. */
  lemma EvalHalvesPlus<T(!new)>(R: Ring<T>, lo: seq<T>, hi: seq<T>, s: T)
    requires Lawful(R) && |lo| == |hi| && Pow(R, s, |lo|) == R.one
    ensures Eval(R, lo + hi, s) == Eval(R, Plus(R, lo, hi), s)
  {
    EvalConcat(R, lo, hi, s);
    MulUnit(R, Eval(R, hi, s));
    EvalPlus(R, lo, hi, s);
  }

  lemma EvalHalvesMinus<T(!new)>(R: Ring<T>, lo: seq<T>, hi: seq<T>, s: T)
    requires Lawful(R) && |lo| == |hi| && Pow(R, s, |lo|) == R.neg(R.one)
    ensures Eval(R, lo + hi, s) == Eval(R, Minus(R, lo, hi), s)
  {
    EvalConcat(R, lo, hi, s);
    MulNeg(R, R.one, Eval(R, hi, s));
    MulUnit(R, Eval(R, hi, s));
    EvalMinus(R, lo, hi, s);
  }

  /** Even entries come from the sum of the halves, odd ones from the twisted difference. */
  lemma EvenEntry<T(!new)>(R: Ring<T>, lo: seq<T>, hi: seq<T>, eta: T, r: nat)
    requires Lawful(R) && r < |lo| == |hi| && Pow(R, eta, |lo|) == R.neg(R.one)
    ensures Dft(R, lo + hi, eta)[2 * r] == Dft(R, Plus(R, lo, hi), R.mul(eta, eta))[r]
  {
    DftEntry(R, lo + hi, eta, 2 * r);
    DftEntry(R, Plus(R, lo, hi), R.mul(eta, eta), r);
    PowSquare(R, eta, r);
    SignOf(R, eta, |lo|, r);
    EvalHalvesPlus(R, lo, hi, Pow(R, eta, 2 * r));
  }

  lemma OddEntry<T(!new)>(R: Ring<T>, lo: seq<T>, hi: seq<T>, eta: T, r: nat, d: seq<T>)
    requires Lawful(R) && r < |lo| == |hi| && Pow(R, eta, |lo|) == R.neg(R.one) && d == Minus(R, lo, hi)
    ensures Dft(R, lo + hi, eta)[2 * r + 1] == Dft(R, Twisted(R, d, eta, R.one), R.mul(eta, eta))[r]
  {
    var s, t := Pow(R, eta, 2 * r + 1), Pow(R, R.mul(eta, eta), r);
    DftEntry(R, lo + hi, eta, 2 * r + 1);
    DftEntry(R, Twisted(R, d, eta, R.one), R.mul(eta, eta), r);
    assert s == R.mul(eta, t) by { PowSquare(R, eta, r); }
    SignOf(R, eta, |lo|, r);
    EvalHalvesMinus(R, lo, hi, s);
    EvalTwisted(R, d, eta, R.one, t);
    MulUnit(R, Eval(R, d, s));
  }

  /** Half a turn taken an even or an odd number of times. */
  lemma SignOf<T(!new)>(R: Ring<T>, eta: T, h: nat, r: nat)
    requires Lawful(R) && Pow(R, eta, h) == R.neg(R.one)
    ensures Pow(R, Pow(R, eta, 2 * r), h) == R.one
    ensures Pow(R, Pow(R, eta, 2 * r + 1), h) == R.neg(R.one)
  {
    var a := R.neg(R.one);
    NegNeg(R, R.one, R.one);
    MulUnit(R, R.one);
    PowMul(R, eta, 2 * r, h);
    PowMul(R, eta, h, 2 * r);
    assert h * (2 * r) == (2 * r) * h;
    PowSquare(R, a, r);
    PowOne(R, r);
    PowProduct(R, eta, Pow(R, eta, 2 * r), h);
    MulUnit(R, a);
  }

  lemma {:induction false} PowOne<T(!new)>(R: Ring<T>, k: nat)
    requires Lawful(R)
    ensures Pow(R, R.one, k) == R.one
  {
    if k > 0 {
      PowOne(R, k - 1);
      MulUnit(R, R.one);
    }
  }

  // ----- inversion -----

  /** The inverse of a root is a root. */
  lemma InverseRoot<T(!new)>(R: Ring<T>, omega: T, eta: T, h: nat)
    requires Lawful(R) && R.mul(omega, eta) == R.one && Pow(R, omega, h) == R.neg(R.one)
    ensures Pow(R, eta, h) == R.neg(R.one)
  {
    PowProduct(R, omega, eta, h);
    PowOne(R, h);
    var v := Pow(R, eta, h);
    MulNeg(R, R.one, v);
    MulUnit(R, v);
    NegNeg(R, v, v);
  }

  /** The sum and the twisted difference of the halves of a transform are twice the transforms of the even
    * and of the odd entries. */
  lemma SumOfHalves<T(!new)>(R: Ring<T>, a: T, b: T)
    requires Lawful(R)
    ensures R.add(R.add(a, b), R.Sub(a, b)) == R.add(a, a)
    ensures R.Sub(R.add(a, b), R.Sub(a, b)) == R.add(b, b)
  {
    var c := R.neg(b);
    AddSwap(R, a, b, a, c);
    AddUnit(R, b); AddUnit(R, R.add(a, a));
    NegAdd(R, a, c);
    NegNeg(R, b, b);
    AddSwap(R, a, b, R.neg(a), b);
    AddUnit(R, a); AddUnit(R, R.add(b, b));
  }

  lemma Untwist<T(!new)>(R: Ring<T>, omega: T, eta: T, k: nat, b: T)
    requires Lawful(R) && R.mul(omega, eta) == R.one
    ensures R.mul(Pow(R, eta, k), R.add(R.mul(Pow(R, omega, k), b), R.mul(Pow(R, omega, k), b))) == R.add(b, b)
  {
    var p, q := Pow(R, eta, k), Pow(R, omega, k);
    PowProduct(R, omega, eta, k);
    PowOne(R, k);
    MulComm(R, p, q);
    MulAssoc(R, p, q, b);
    MulUnit(R, b);
    MulAdd(R, p, R.mul(q, b), R.mul(q, b));
  }

  lemma HalfEntries<T(!new)>(R: Ring<T>, h: nat, x: seq<T>, omega: T, e: seq<T>, o: seq<T>, y: seq<T>, k: nat)
    requires Lawful(R) && |x| == 2 * h && Pow(R, omega, h) == R.neg(R.one) && k < h
    requires e == Dft(R, Evens(h, x), R.mul(omega, omega)) && o == Dft(R, Odds(h, x), R.mul(omega, omega))
    requires y == Dft(R, x, omega)
    ensures y[k] == R.add(e[k], R.mul(Pow(R, omega, k), o[k]))
    ensures y[h + k] == R.Sub(e[k], R.mul(Pow(R, omega, k), o[k]))
  {
    LowerHalf(R, h, x, omega, k, e[k], o[k]);
    HalfTurn(R, omega, h, k, h + k);
    UpperHalf(R, h, x, omega, k, h + k, e[k], o[k]);
  }

  lemma SumAndDifference<T(!new)>(R: Ring<T>, omega: T, eta: T, k: nat, e: T, o: T, lo: T, hi: T)
    requires Lawful(R) && R.mul(omega, eta) == R.one
    requires lo == R.add(e, R.mul(Pow(R, omega, k), o)) && hi == R.Sub(e, R.mul(Pow(R, omega, k), o))
    ensures R.add(lo, hi) == R.add(e, e)
    ensures R.mul(R.mul(R.one, Pow(R, eta, k)), R.Sub(lo, hi)) == R.add(o, o)
  {
    SumOfHalves(R, e, R.mul(Pow(R, omega, k), o));
    Untwist(R, omega, eta, k, o);
    MulUnit(R, Pow(R, eta, k));
  }

  lemma HalvesOfTransform<T(!new)>(R: Ring<T>, h: nat, x: seq<T>, omega: T, eta: T, e: seq<T>, o: seq<T>, y: seq<T>,
                                   lo: seq<T>, hi: seq<T>)
    requires Lawful(R) && |x| == 2 * h && R.mul(omega, eta) == R.one && Pow(R, omega, h) == R.neg(R.one)
    requires e == Dft(R, Evens(h, x), R.mul(omega, omega)) && o == Dft(R, Odds(h, x), R.mul(omega, omega))
    requires y == Dft(R, x, omega) && lo == y[..h] && hi == y[h..]
    ensures Plus(R, lo, hi) == Plus(R, e, e)
    ensures Twisted(R, Minus(R, lo, hi), eta, R.one) == Plus(R, o, o)
  {
    var s, t := Plus(R, lo, hi), Twisted(R, Minus(R, lo, hi), eta, R.one);
    forall k: nat | k < h ensures s[k] == Plus(R, e, e)[k] && t[k] == Plus(R, o, o)[k] {
      HalfEntries(R, h, x, omega, e, o, y, k);
      assert lo[k] == y[k] && hi[k] == y[h + k];
      SumAndDifference(R, omega, eta, k, e[k], o[k], lo[k], hi[k]);
    }
  }

  lemma {:induction false} DftPlus<T(!new)>(R: Ring<T>, x: seq<T>, z: T, r: nat)
    requires Lawful(R) && r < |x|
    ensures Dft(R, Plus(R, x, x), z)[r] == R.add(Dft(R, x, z)[r], Dft(R, x, z)[r])
  {
    DftEntry(R, Plus(R, x, x), z, r);
    DftEntry(R, x, z, r);
    EvalPlus(R, x, x, Pow(R, z, r));
  }

  /** Even and odd entries of the double transform are twice those of the double transforms of the even and
    * of the odd entries. */
  lemma InversionStep<T(!new)>(R: Ring<T>, h: nat, x: seq<T>, omega: T, eta: T, r: nat,
                               e: seq<T>, o: seq<T>, y: seq<T>, v: T)
    requires Lawful(R) && |x| == 2 * h && R.mul(omega, eta) == R.one && Pow(R, omega, h) == R.neg(R.one) && r < h
    requires e == Dft(R, Evens(h, x), R.mul(omega, omega)) && o == Dft(R, Odds(h, x), R.mul(omega, omega))
    requires y == Dft(R, x, omega) && v == R.mul(eta, eta)
    ensures Dft(R, y, eta)[2 * r] == R.add(Dft(R, e, v)[r], Dft(R, e, v)[r])
    ensures Dft(R, y, eta)[2 * r + 1] == R.add(Dft(R, o, v)[r], Dft(R, o, v)[r])
  {
    var lo, hi := y[..h], y[h..];
    InverseRoot(R, omega, eta, h);
    HalvesOfTransform(R, h, x, omega, eta, e, o, y, lo, hi);
    assert y == lo + hi;
    EvenEntry(R, lo, hi, eta, r);
    DftPlus(R, e, v, r);
    OddEntry(R, lo, hi, eta, r, Minus(R, lo, hi));
    DftPlus(R, o, v, r);
  }

  /** Transforming forward with omega and then with its inverse multiplies every number by n. */
  lemma {:induction false} Inversion<T(!new)>(R: Ring<T>, m: nat, x: seq<T>, omega: T, eta: T, j: nat, y: seq<T>)
    requires Lawful(R) && |x| == P2(m) && IsRoot(R, m, omega) && R.mul(omega, eta) == R.one && j < |x|
    requires y == Dft(R, x, omega)
    ensures Dft(R, y, eta)[j] == Multiple(R, P2(m), x[j])
    decreases m
  {
    if m == 0 {
      DftOfOne(R, x, omega);
      DftOfOne(R, x, eta);
      assert Multiple(R, 0, x[0]) == R.zero;
      AddUnit(R, x[0]);
    } else {
      var h, w, v := P2(m - 1), R.mul(omega, omega), R.mul(eta, eta);
      var odd, r, half := HalfOf(h, x, j);
      RootSquare(R, m, omega);
      InverseSquare(R, omega, eta);
      Inversion(R, m - 1, half, w, v, r, Dft(R, half, w));
      InversionStep(R, h, x, omega, eta, r, Dft(R, Evens(h, x), w), Dft(R, Odds(h, x), w), y, v);
      Doubling(R, h, half[r], x[j], Dft(R, Dft(R, half, w), v)[r]);
    }
  }

  /** The half that number j belongs to. */
  lemma HalfOf<T>(h: nat, x: seq<T>, j: nat) returns (odd: bool, r: nat, half: seq<T>)
    requires |x| == 2 * h && j < |x|
    ensures r < h && j == 2 * r + (if odd then 1 else 0)
    ensures half == (if odd then Odds(h, x) else Evens(h, x)) && half[r] == x[j]
  {
    odd, r := j % 2 == 1, j / 2;
    half := if odd then Odds(h, x) else Evens(h, x);
  }

  lemma Doubling<T(!new)>(R: Ring<T>, h: nat, a: T, b: T, c: T)
    requires Lawful(R) && a == b && c == Multiple(R, h, a)
    ensures R.add(c, c) == Multiple(R, 2 * h, b)
  {
    MultipleAdd(R, h, h, a);
  }

  lemma InverseSquare<T(!new)>(R: Ring<T>, omega: T, eta: T)
    requires Lawful(R) && R.mul(omega, eta) == R.one
    ensures R.mul(R.mul(omega, omega), R.mul(eta, eta)) == R.one
  {
    MulSwap(R, omega, omega, eta, eta);
    MulUnit(R, R.one);
  }
}
