/** The radix-2 decomposition behind ufft (examples/bspedupack/bspfft.c): bit reversal,
  * butterflies, and why together they compute the discrete Fourier transform. */
module FftMath {
  import opened Rings

  function P2(m: nat): (n: nat)
    ensures n >= 1
  {
    if m == 0 then 1 else 2 * P2(m - 1)
  }

  lemma {:induction false} P2Grows(i: nat, m: nat)
    requires i <= m
    ensures P2(i) <= P2(m) && (i < m ==> P2(i) < P2(m))
    decreases m
  {
    if i < m {
      P2Grows(i, m - 1);
    }
  }

  lemma P2Less(j: nat, m: nat)
    ensures P2(j) <= P2(m) <==> j <= m
    ensures P2(j) < P2(m) <==> j < m
  {
    if j <= m { P2Grows(j, m); } else { P2Grows(m, j); }
  }

  // ----- the discrete Fourier transform -----

  /** The sum of omega^(jk) x[j] over the first n numbers of x. */
  function DftSum<T>(R: Ring<T>, x: seq<T>, omega: T, k: nat, n: nat): T
    requires n <= |x|
  {
    if n == 0 then R.zero
    else R.add(DftSum(R, x, omega, k, n - 1), R.mul(Pow(R, omega, (n - 1) * k), x[n - 1]))
  }

  /** y[k] is the sum over j of omega^(jk) x[j]. */
  function Dft<T>(R: Ring<T>, x: seq<T>, omega: T): (y: seq<T>)
    ensures |y| == |x|
  {
    seq(|x|, k requires 0 <= k < |x| => DftSum(R, x, omega, k, |x|))
  }

  /** The value at z of the polynomial with these coefficients. */
  function Eval<T>(R: Ring<T>, x: seq<T>, z: T): T {
    if x == [] then R.zero else R.add(x[0], R.mul(z, Eval(R, x[1..], z)))
  }

  lemma {:induction false} EvalAppend<T(!new)>(R: Ring<T>, x: seq<T>, a: T, z: T)
    requires Lawful(R)
    ensures Eval(R, x + [a], z) == R.add(Eval(R, x, z), R.mul(Pow(R, z, |x|), a))
  {
    if x == [] {
      assert x + [a] == [a] && [a][1..] == [];
      MulZero(R, z); AddUnit(R, a); MulUnit(R, a);
    } else {
      var r, y := x[1..], x + [a];
      assert y[1..] == r + [a];
      EvalAppend(R, r, a, z);
      MulAdd(R, z, Eval(R, r, z), R.mul(Pow(R, z, |r|), a));
      MulAssoc(R, z, Pow(R, z, |r|), a);
      AddAssoc(R, x[0], R.mul(z, Eval(R, r, z)), R.mul(Pow(R, z, |x|), a));
    }
  }

  /** Entry k of the transform is the value of the polynomial at omega^k. */
  lemma {:induction false} DftIsEval<T(!new)>(R: Ring<T>, x: seq<T>, omega: T, k: nat, n: nat)
    requires Lawful(R) && n <= |x|
    ensures DftSum(R, x, omega, k, n) == Eval(R, x[..n], Pow(R, omega, k))
  {
    if n > 0 {
      DftIsEval(R, x, omega, k, n - 1);
      assert x[..n] == x[..n - 1] + [x[n - 1]];
      EvalAppend(R, x[..n - 1], x[n - 1], Pow(R, omega, k));
      PowMul(R, omega, k, n - 1);
      assert k * (n - 1) == (n - 1) * k;
    }
  }

  lemma DftEntry<T(!new)>(R: Ring<T>, x: seq<T>, omega: T, k: nat)
    requires Lawful(R) && k < |x|
    ensures Dft(R, x, omega)[k] == Eval(R, x, Pow(R, omega, k))
  {
    DftIsEval(R, x, omega, k, |x|);
    assert x[..|x|] == x;
  }

  // ----- bit reversal -----

  /** x[0], x[2], x[4], ... */
  function Evens<T>(h: nat, x: seq<T>): (r: seq<T>)
    requires |x| == 2 * h
    ensures |r| == h
  {
    seq(h, i requires 0 <= i < h => x[2 * i])
  }

  /** x[1], x[3], x[5], ... */
  function Odds<T>(h: nat, x: seq<T>): (r: seq<T>)
    requires |x| == 2 * h
    ensures |r| == h
  {
    seq(h, i requires 0 <= i < h => x[2 * i + 1])
  }

  /** The bit-reversal permutation of a sequence of length 2^m. */
  function BitReversed<T>(m: nat, x: seq<T>): (r: seq<T>)
    requires |x| == P2(m)
    ensures |r| == |x|
  {
    if m == 0 then x
    else BitReversed(m - 1, Evens(P2(m - 1), x)) + BitReversed(m - 1, Odds(P2(m - 1), x))
  }

  /** Reversal of the m bits of j, from the highest bit down. */
  function Rev(m: nat, j: nat): (r: nat)
    requires j < P2(m)
    ensures r < P2(m)
  {
    if m == 0 then 0
    else if j < P2(m - 1) then 2 * Rev(m - 1, j) else 2 * Rev(m - 1, j - P2(m - 1)) + 1
  }

  /** The same from the lowest bit up. */
  lemma {:induction false} RevLow(m: nat, q: nat, bit: nat)
    requires q < P2(m) && bit < 2
    ensures Rev(m + 1, 2 * q + bit) == Rev(m, q) + if bit == 1 then P2(m) else 0
  {
    if m == 0 {
      assert Rev(0, 0) == 0 && P2(0) == 1;
    } else {
      RevLow(m - 1, if q < P2(m - 1) then q else q - P2(m - 1), bit);
    }
  }

  /** Bit reversal undoes itself. */
  lemma {:induction false} RevRev(m: nat, j: nat)
    requires j < P2(m)
    ensures Rev(m, Rev(m, j)) == j
  {
    if m > 0 {
      var high := j >= P2(m - 1);
      var i := if high then j - P2(m - 1) else j;
      RevLow(m - 1, Rev(m - 1, i), if high then 1 else 0);
      RevRev(m - 1, i);
    }
  }

  /** The recursive permutation moves entry Rev(j) to place j. */
  lemma {:induction false} BitReversedAt<T>(m: nat, x: seq<T>, j: nat)
    requires |x| == P2(m) && j < |x|
    ensures BitReversed(m, x)[j] == x[Rev(m, j)]
  {
    if m > 0 {
      var h := P2(m - 1);
      if j < h {
        BitReversedAt(m - 1, Evens(h, x), j);
      } else {
        BitReversedAt(m - 1, Odds(h, x), j - h);
      }
    }
  }

  // ----- butterflies -----

  /** Entry t of the butterflies of one block: lo + z^t hi, and lo - z^t hi. */
  function CombineAt<T>(R: Ring<T>, lo: seq<T>, hi: seq<T>, z: T, t: nat): T
    requires |lo| == |hi| && t < 2 * |lo|
  {
    if t < |lo| then R.add(lo[t], R.mul(Pow(R, z, t), hi[t]))
    else R.Sub(lo[t - |lo|], R.mul(Pow(R, z, t - |lo|), hi[t - |lo|]))
  }

  function Combine<T>(R: Ring<T>, lo: seq<T>, hi: seq<T>, z: T): (r: seq<T>)
    requires |lo| == |hi|
    ensures |r| == 2 * |lo|
  {
    seq(2 * |lo|, t requires 0 <= t < 2 * |lo| => CombineAt(R, lo, hi, z, t))
  }

  /** The unordered transform: log2 n stages of butterflies, with z the root of order n. */
  function Unordered<T>(R: Ring<T>, m: nat, b: seq<T>, z: T): (r: seq<T>)
    requires |b| == P2(m)
    ensures |r| == |b|
  {
    if m == 0 then b
    else
      var h := P2(m - 1);
      Combine(R, Unordered(R, m - 1, b[..h], R.mul(z, z)), Unordered(R, m - 1, b[h..], R.mul(z, z)), z)
  }

  /** The polynomial of the even coefficients, and that of the odd ones, without the first coefficient. */
  lemma EvalHalves<T(!new)>(R: Ring<T>, h: nat, x: seq<T>, s: T)
    requires |x| == 2 * h && h > 0
    ensures Eval(R, Evens(h, x), s) == R.add(x[0], R.mul(s, Eval(R, Evens(h - 1, x[2..]), s)))
    ensures Eval(R, Odds(h, x), s) == R.add(x[1], R.mul(s, Eval(R, Odds(h - 1, x[2..]), s)))
  {
    assert Evens(h, x)[1..] == Evens(h - 1, x[2..]);
    assert Odds(h, x)[1..] == Odds(h - 1, x[2..]);
  }

  /** x0 + z (x1 + z (e + z o)) with e and o collected separately. */
  lemma Regroup<T(!new)>(R: Ring<T>, x0: T, x1: T, z: T, e: T, o: T)
    requires Lawful(R)
    ensures R.add(x0, R.mul(z, R.add(x1, R.mul(z, R.add(e, R.mul(z, o))))))
         == R.add(R.add(x0, R.mul(R.mul(z, z), e)), R.mul(z, R.add(x1, R.mul(R.mul(z, z), o))))
  {
    var s := R.mul(z, z);
    var se, so := R.mul(s, e), R.mul(s, o);
    MulAdd(R, z, e, R.mul(z, o));
    MulAssoc(R, z, z, o);
    assert R.mul(z, R.add(e, R.mul(z, o))) == R.add(R.mul(z, e), so);
    AddComm(R, R.mul(z, e), so);
    AddAssoc(R, x1, so, R.mul(z, e));
    MulAdd(R, z, R.add(x1, so), R.mul(z, e));
    MulAssoc(R, z, z, e);
    AddComm(R, R.mul(z, R.add(x1, so)), se);
    AddAssoc(R, x0, se, R.mul(z, R.add(x1, so)));
  }

  /** A polynomial from its even and odd coefficients. */
  lemma {:induction false} EvalSplit<T(!new)>(R: Ring<T>, h: nat, x: seq<T>, z: T)
    requires Lawful(R) && |x| == 2 * h
    ensures Eval(R, x, z)
         == R.add(Eval(R, Evens(h, x), R.mul(z, z)), R.mul(z, Eval(R, Odds(h, x), R.mul(z, z))))
  {
    if h == 0 {
      MulZero(R, z); AddUnit(R, R.zero);
    } else {
      var r, s := x[2..], R.mul(z, z);
      EvalSplit(R, h - 1, r, z);
      EvalHalves(R, h, x, s);
      assert x[1..][1..] == r;
      Regroup(R, x[0], x[1], z, Eval(R, Evens(h - 1, r), s), Eval(R, Odds(h - 1, r), s));
    }
  }

  /** The root of order 2^m has omega^(2^(m-1)) = -1. */
  ghost predicate IsRoot<T(!new)>(R: Ring<T>, m: nat, omega: T) {
    m > 0 ==> Pow(R, omega, P2(m - 1)) == R.neg(R.one)
  }

  lemma RootSquare<T(!new)>(R: Ring<T>, m: nat, omega: T)
    requires Lawful(R) && m > 0 && IsRoot(R, m, omega)
    ensures IsRoot(R, m - 1, R.mul(omega, omega))
  {
    if m > 1 {
      PowSquare(R, omega, P2(m - 2));
    }
  }

  /** Half a turn further, a power changes its sign. */
  lemma HalfTurn<T(!new)>(R: Ring<T>, omega: T, h: nat, k: nat, l: nat)
    requires Lawful(R) && Pow(R, omega, h) == R.neg(R.one) && l == k + h
    ensures Pow(R, omega, l) == R.neg(Pow(R, omega, k))
  {
    PowAdd(R, omega, k, h);
    MulNeg(R, Pow(R, omega, k), R.one);
    MulUnit(R, Pow(R, omega, k));
  }

  /** Entry k of the transform from the transforms of the even and the odd entries. */
  lemma LowerHalf<T(!new)>(R: Ring<T>, h: nat, x: seq<T>, omega: T, k: nat, e: T, o: T)
    requires Lawful(R) && |x| == 2 * h && k < h
    requires e == Dft(R, Evens(h, x), R.mul(omega, omega))[k] && o == Dft(R, Odds(h, x), R.mul(omega, omega))[k]
    ensures Dft(R, x, omega)[k] == R.add(e, R.mul(Pow(R, omega, k), o))
  {
    DftEntry(R, Evens(h, x), R.mul(omega, omega), k);
    DftEntry(R, Odds(h, x), R.mul(omega, omega), k);
    DftEntry(R, x, omega, k);
    EvalSplit(R, h, x, Pow(R, omega, k));
    PowSquare(R, omega, k);
  }

  /** Entry l, at which the power of the root has the opposite sign, from the same two numbers. */
  lemma UpperHalf<T(!new)>(R: Ring<T>, h: nat, x: seq<T>, omega: T, k: nat, l: nat, e: T, o: T)
    requires Lawful(R) && |x| == 2 * h && k < h
    requires l < |x| && Pow(R, omega, l) == R.neg(Pow(R, omega, k))
    requires e == Dft(R, Evens(h, x), R.mul(omega, omega))[k] && o == Dft(R, Odds(h, x), R.mul(omega, omega))[k]
    ensures Dft(R, x, omega)[l] == R.Sub(e, R.mul(Pow(R, omega, k), o))
  {
    var z := Pow(R, omega, k);
    DftEntry(R, Evens(h, x), R.mul(omega, omega), k);
    DftEntry(R, Odds(h, x), R.mul(omega, omega), k);
    DftEntry(R, x, omega, l);
    EvalSplit(R, h, x, R.neg(z));
    NegNeg(R, z, z);
    PowSquare(R, omega, k);
    MulNeg(R, z, o);
  }

  /** One entry of the combination of the transforms of the even and the odd entries. */
  lemma CombineDft<T(!new)>(R: Ring<T>, h: nat, x: seq<T>, omega: T, k: nat,
                               e: seq<T>, o: seq<T>, d: seq<T>)
    requires Lawful(R) && |x| == 2 * h && k < |x|
    requires Pow(R, omega, h) == R.neg(R.one)
    requires e == Dft(R, Evens(h, x), R.mul(omega, omega)) && o == Dft(R, Odds(h, x), R.mul(omega, omega))
    requires d == Dft(R, x, omega)
    ensures CombineAt(R, e, o, omega, k) == d[k]
  {
    if k < h {
      LowerHalf(R, h, x, omega, k, e[k], o[k]);
    } else {
      var t := k - h;
      HalfTurn(R, omega, h, t, k);
      UpperHalf(R, h, x, omega, t, k, e[t], o[t]);
    }
  }

  /** Bit reversal followed by the unordered transform is the Fourier transform. */
  lemma {:induction false} UnorderedIsDft<T(!new)>(R: Ring<T>, m: nat, x: seq<T>, omega: T)
    requires Lawful(R) && |x| == P2(m) && IsRoot(R, m, omega)
    ensures Unordered(R, m, BitReversed(m, x), omega) == Dft(R, x, omega)
  {
    if m == 0 {
      DftOfOne(R, x, omega);
    } else {
      var h, s, b := P2(m - 1), R.mul(omega, omega), BitReversed(m, x);
      RootSquare(R, m, omega);
      UnorderedIsDft(R, m - 1, Evens(h, x), s);
      UnorderedIsDft(R, m - 1, Odds(h, x), s);
      assert b[..h] == BitReversed(m - 1, Evens(h, x)) && b[h..] == BitReversed(m - 1, Odds(h, x));
      var e, o := Dft(R, Evens(h, x), s), Dft(R, Odds(h, x), s);
      var y, d := Combine(R, e, o, omega), Dft(R, x, omega);
      forall k: nat | k < |x| ensures y[k] == d[k] {
        CombineDft(R, h, x, omega, k, e, o, d);
      }
    }
  }

  lemma DftOfOne<T(!new)>(R: Ring<T>, x: seq<T>, omega: T)
    requires Lawful(R) && |x| == 1
    ensures Dft(R, x, omega) == x
  {
    var z := Pow(R, omega, 0);
    DftEntry(R, x, omega, 0);
    assert x[1..] == [];
    assert Eval(R, x[1..], z) == R.zero;
    MulZero(R, z);
    AddUnit(R, x[0]);
  }
}
