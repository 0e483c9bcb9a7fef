/** The local phases of bspfft (examples/bspedupack/bspfft.c) on one processor. */
module FftPhases {
  import opened Arithmetic
  import opened Rings
  import opened ComplexNumbers
  import opened FftMath
  import opened FftStages
  import opened FftColumns
  import opened FftKernels
  import opened FftDistributed
  import opened UnorderedFft

  /** The weights of one twiddle: the powers tau^rho(j), rho being the bit reversal. */
  ghost predicate TwiddleTable(R: Ring<Complex>, w: array<real>, first: nat, l: nat, sign: int, tau: Complex)
    reads w
  {
    && 2 * (first + P2(l)) <= w.Length
    && forall j :: 0 <= j < P2(l) ==> Weight(w, first + j, sign) == Pow(R, tau, Rev(l, j))
  }

  /** One round of the loop of twiddle. */
  method Twiddle1(x: array<real>, w: array<real>, first: nat, sign: int, j: nat, ghost R: Ring<Complex>)
    requires x != w && 2 * j + 1 < x.Length && 2 * (first + j) + 1 < w.Length && IsComplexRing(R)
    modifies x
    ensures At(x, j) == R.mul(Weight(w, first + j, sign), old(At(x, j)))
    ensures forall i :: 0 <= i && 2 * i + 1 < x.Length && i != j ==> At(x, i) == old(At(x, i))
  {
    var j0 := 2 * j;
    var wr := w[2 * first + j0];
    var wi := if sign == 1 then w[2 * first + j0 + 1] else -w[2 * first + j0 + 1];
    var xr, xi := x[j0], x[j0 + 1];
    assert ComputesWith(R, Complex(wr, wi), Complex(xr, xi));
    SetPair(x, j, wr * xr - wi * xi, wi * xr + wr * xi);
  }

  /** twiddle: componentwise multiplication by a table of weights. */
  method Twiddle(x: array<real>, n: nat, sign: int, w: array<real>, first: nat,
                 ghost l: nat, ghost tau: Complex, ghost R: Ring<Complex>)
    requires IsComplexRing(R) && x != w && n == P2(l) && x.Length == 2 * n
    requires TwiddleTable(R, w, first, l, sign, tau)
    modifies x
    ensures View(x, 0, n) == Twiddled(R, l, old(View(x, 0, n)), tau)
  {
    ghost var v := View(x, 0, n);
    ghost var y := Twiddled(R, l, v, tau);
    for j := 0 to n
      invariant forall i :: 0 <= i < n ==> At(x, i) == if i < j then y[i] else v[i]
    {
      assert Weight(w, first + j, sign) == Pow(R, tau, Rev(l, j));
      Twiddle1(x, w, first, sign, j, R);
    }
  }

  /** u with the numbers from base on replaced. */
  ghost predicate Pasted<T>(u: seq<T>, block: seq<T>, base: nat, u': seq<T>) {
    && base + |block| <= |u| == |u'|
    && forall t :: 0 <= t < |u| ==> u'[t] == if base <= t < base + |block| then block[t - base] else u[t]
  }

  /** One call of ufft on the numbers from base on. */
  method SmallTransform(x: array<real>, np: nat, base: nat, k: nat, sign: int, w0: array<real>,
                        ghost i: nat, ghost z: Complex, ghost R: Ring<Complex>)
    requires IsComplexRing(R) && x != w0 && k == P2(i) && base + k <= np && x.Length == 2 * np
    requires i > 0 ==> PowersOf(R, w0, P2(i - 1), sign, z)
    modifies x
    ensures Pasted(old(View(x, 0, np)), Unordered(R, i, old(View(x, 0, np))[base..base + k], z), base, View(x, 0, np))
  {
    ghost var u := View(x, 0, np);
    assert View(x, base, k) == u[base..base + k];
    Ufft(x, base, k, sign, w0, i, z, R);
    ghost var block := View(x, base, k);
    forall t | 0 <= t < np
      ensures View(x, 0, np)[t] == if base <= t < base + k then block[t - base] else u[t]
    {
      assert base <= t < base + k ==> block[t - base] == At(x, t);
    }
  }

  /** The loop over the blocks of k1 numbers: every block transformed in place. */
  method SmallTransforms(x: array<real>, np: nat, k1: nat, sign: int, w0: array<real>,
                         ghost i: nat, ghost l: nat, ghost y: Complex, ghost R: Ring<Complex>)
    requires IsComplexRing(R) && x != w0 && i <= l && np == P2(l) && k1 == P2(i) && x.Length == 2 * np
    requires i > 0 ==> PowersOf(R, w0, P2(i - 1), sign, Pow(R, y, P2(l - i)))
    modifies x
    ensures View(x, 0, np) == Stage(R, i, l, old(View(x, 0, np)), y)
  {
    ghost var v, z := View(x, 0, np), Pow(R, y, P2(l - i));
    ghost var b := Stage(R, i, l, v, y);
    AllRounds(i, l);
    BlockCount(i, l);
    var base := 0;
    for r := 0 to np / k1
      invariant base == Start(r, k1) <= np
      invariant Between(v, b, View(x, 0, np), base)
    {
      RoundFits(i, l, r, base);
      ghost var u := View(x, 0, np);
      SmallTransform(x, np, base, k1, sign, w0, i, z, R);
      SmallBlock(R, i, l, v, y, base, b, k1, z, u, u[base..base + k1], View(x, 0, np));
      base := base + k1;
    }
    assert View(x, 0, np) == b;
  }

  lemma SmallBlock(R: Ring<Complex>, i: nat, l: nat, v: seq<Complex>, y: Complex, base: nat, b: seq<Complex>, k: nat,
                   z: Complex, u: seq<Complex>, block: seq<Complex>, u': seq<Complex>)
    requires Lawful(R) && i <= l && |v| == P2(l) && BlockAt(i, l, base) && base + k <= |v| && k == P2(i)
    requires b == Stage(R, i, l, v, y) && z == Pow(R, y, P2(l - i))
    requires Between(v, b, u, base) && block == u[base..base + k] && Pasted(u, Unordered(R, i, block, z), base, u')
    ensures Between(v, b, u', base + k)
  {
    assert block == v[base..base + k];
    StageOfBlock(R, i, i, l, v, y, base, b, k, z, block, b[base..base + k]);
    PasteAdvances(v, b, u, base, Unordered(R, i, block, z), u');
  }

  lemma PasteAdvances<T>(v: seq<T>, b: seq<T>, u: seq<T>, base: nat, block: seq<T>, u': seq<T>)
    requires Between(v, b, u, base) && Pasted(u, block, base, u') && block == b[base..base + |block|]
    ensures Between(v, b, u', base + |block|)
  {
    forall t | 0 <= t < |u| ensures u'[t] == if t < base + |block| then b[t] else v[t] {
      assert base <= t < base + |block| ==> block[t - base] == b[t];
    }
  }
}
