/** The in-place unordered transform of examples/bspedupack/bspfft.c. */
module UnorderedFft {
  import opened Rings
  import opened ComplexNumbers
  import opened FftMath
  import opened FftStages
  import opened FftKernels
  import opened Arithmetic

  /** Weight t of the table, or its conjugate in the backward transform. */
  ghost function Weight(w: array<real>, t: nat, sign: int): Complex
    requires 2 * t + 1 < w.Length
    reads w
  {
    if sign == 1 then At(w, t) else Conj(At(w, t))
  }

  /** The first `count` weights are the powers of z. */
  ghost predicate PowersOf(R: Ring<Complex>, w: array<real>, count: nat, sign: int, z: Complex)
    reads w
  {
    2 * count <= w.Length && forall t: nat :: t < count ==> Weight(w, t, sign) == Pow(R, z, t)
  }

  /** The numbers u' and v' that a butterfly with weight c makes of u and v. */
  predicate Butterflied<T(==)>(R: Ring<T>, c: T, u: T, v: T, u': T, v': T) {
    u' == R.add(u, R.mul(c, v)) && v' == R.Sub(u, R.mul(c, v))
  }

  /** The pairs outside the n pairs from `first` on are as they were. */
  twostate predicate OthersKept(x: array<real>, first: nat, n: nat)
    reads x
  {
    forall i :: 0 <= i && 2 * i + 1 < x.Length && !(first <= i < first + n) ==> At(x, i) == old(At(x, i))
  }

  /** One butterfly on numbers lo and hi of the n numbers from `first` on. */
  method Butterfly1(x: array<real>, first: nat, lo: nat, hi: nat, wr: real, wi: real,
                    ghost n: nat, ghost R: Ring<Complex>)
    requires lo < hi < n && 2 * (first + n) <= x.Length && IsComplexRing(R)
    modifies x
    ensures Butterflied(R, Complex(wr, wi), old(View(x, first, n))[lo], old(View(x, first, n))[hi],
                        View(x, first, n)[lo], View(x, first, n)[hi])
    ensures forall i :: 0 <= i < n && i != lo && i != hi ==> View(x, first, n)[i] == old(View(x, first, n))[i]
    ensures OthersKept(x, first, n)
  {
    var j0, j2 := 2 * (first + lo), 2 * (first + hi);
    var j1, j3 := j0 + 1, j2 + 1;
    var taur := wr * x[j2] - wi * x[j3];
    var taui := wi * x[j2] + wr * x[j3];
    ghost var u, v := View(x, first, n)[lo], View(x, first, n)[hi];
    ButterflyValues(R, Complex(wr, wi), u, v, Complex(taur, taui));
    x[j2] := x[j0] - taur;
    x[j3] := x[j1] - taui;
    x[j0] := x[j0] + taur;
    x[j1] := x[j1] + taui;
    assert View(x, first, n)[lo] == Complex(u.re + taur, u.im + taui);
    assert View(x, first, n)[hi] == Complex(u.re - taur, u.im - taui);
  }

  lemma ButterflyValues(R: Ring<Complex>, c: Complex, u: Complex, v: Complex, tau: Complex)
    requires IsComplexRing(R) && tau == Mul(c, v)
    ensures Butterflied(R, c, u, v, Complex(u.re + tau.re, u.im + tau.im), Complex(u.re - tau.re, u.im - tau.im))
  {
    assert ComputesWith(R, c, v);
    assert R.add(u, tau) == Add(u, tau) by { assert ComputesWith(R, u, tau); }
    assert R.neg(tau) == Neg(tau) by { assert ComputesWith(R, tau, u); }
    assert R.add(u, Neg(tau)) == Add(u, Neg(tau)) by { assert ComputesWith(R, u, Neg(tau)); }
  }

  /** Number i of the block at base after its first t butterflies. */
  function PartlyAt<T>(R: Ring<T>, a: seq<T>, base: nat, h: nat, w: T, t: nat, i: int): T
    requires base + 2 * h <= |a| && t <= h && 0 <= i < |a|
  {
    if base <= i < base + t || base + h <= i < base + h + t then Butterfly(R, a, base, h, w, i) else a[i]
  }

  ghost predicate Partly<T>(R: Ring<T>, a: seq<T>, base: nat, h: nat, w: T, t: nat, b: seq<T>) {
    && base + 2 * h <= |a| && t <= h && |a| == |b|
    && forall i :: 0 <= i < |a| ==> b[i] == PartlyAt(R, a, base, h, w, t, i)
  }

  /** The next butterfly, on numbers lo and hi. */
  lemma PartlyStep<T>(R: Ring<T>, a: seq<T>, base: nat, h: nat, w: T, t: nat, b: seq<T>,
                      lo: nat, hi: nat, b': seq<T>)
    requires Partly(R, a, base, h, w, t, b) && t < h && |b'| == |b| && lo == base + t && hi == lo + h
    requires Butterflied(R, Pow(R, w, t), b[lo], b[hi], b'[lo], b'[hi])
    requires forall i :: 0 <= i < |b| && i != lo && i != hi ==> b'[i] == b[i]
    ensures Partly(R, a, base, h, w, t + 1, b')
  {
    assert b[lo] == PartlyAt(R, a, base, h, w, t, lo) == a[lo];
    assert b[hi] == PartlyAt(R, a, base, h, w, t, hi) == a[hi];
    forall i | 0 <= i < |a| ensures b'[i] == PartlyAt(R, a, base, h, w, t + 1, i) {
      assert i != lo && i != hi ==> b'[i] == b[i] == PartlyAt(R, a, base, h, w, t, i);
    }
  }

  /** The weight of butterfly t in a block of 2h numbers. */
  method LoadWeight(w: array<real>, j: nat, nk: nat, sign: int, ghost t: nat, ghost h: nat,
                    ghost z: Complex, ghost R: Ring<Complex>) returns (wr: real, wi: real)
    requires IsComplexRing(R) && j == 2 * t && t < h && nk > 0
    requires h * nk >= 0 && PowersOf(R, w, h * nk, sign, z)
    ensures Complex(wr, wi) == Pow(R, Pow(R, z, nk), t)
  {
    assert 0 <= t * nk < h * nk by {
      assert (t + 1) * nk == t * nk + nk;
      MulMonotone(t + 1, h, nk);
    }
    ghost var i := t * nk;
    assert j * nk == 2 * i;
    wr := w[j * nk];
    wi := if sign == 1 then w[j * nk + 1] else -w[j * nk + 1];
    assert Complex(wr, wi) == Weight(w, i, sign);
    assert nk * t == i;
    PowMul(R, z, nk, t);
  }

  /** The innermost loop of ufft: the butterflies of the block of k = 2h numbers at base. */
  method Block(x: array<real>, first: nat, base: nat, k: nat, nk: nat, sign: int, w: array<real>,
               ghost n: nat, ghost h: nat, ghost z: Complex, ghost R: Ring<Complex>)
    requires IsComplexRing(R)
    requires x != w && nk > 0 && k == 2 * h && base + k <= n && 2 * (first + n) <= x.Length
    requires h * nk >= 0 && PowersOf(R, w, h * nk, sign, z)
    modifies x
    ensures BlockCombined(R, old(View(x, first, n)), View(x, first, n), base, h, Pow(R, z, nk))
    ensures forall i :: 0 <= i < n && !(base <= i < base + k) ==> View(x, first, n)[i] == old(View(x, first, n))[i]
    ensures OthersKept(x, first, n)
  {
    ghost var a, y := View(x, first, n), Pow(R, z, nk);
    var j := 0;
    var t := 0;
    while j < k
      invariant t <= h && j == 2 * t
      invariant Partly(R, a, base, h, y, t, View(x, first, n))
      invariant OthersKept(x, first, n)
      decreases k - j
    {
      var wr, wi := LoadWeight(w, j, nk, sign, t, h, z, R);
      var lo := base + t;
      var hi := lo + k / 2;
      ghost var before := View(x, first, n);
      Butterfly1(x, first, lo, hi, wr, wi, n, R);
      PartlyStep(R, a, base, h, y, t, before, lo, hi, View(x, first, n));
      t := t + 1;
      j := j + 2;
    }
  }

  /** u is stage b up to base and stage a from there on. */
  ghost predicate Between<T>(a: seq<T>, b: seq<T>, u: seq<T>, base: nat) {
    && |a| == |b| == |u| && base <= |a|
    && forall i :: 0 <= i < |a| ==> u[i] == if i < base then b[i] else a[i]
  }

  lemma NextBlock<T>(R: Ring<T>, a: seq<T>, b: seq<T>, u: seq<T>, u': seq<T>, base: nat, h: nat, w: T)
    requires Between(a, b, u, base) && BlockCombined(R, a, b, base, h, w) && BlockCombined(R, u, u', base, h, w)
    requires forall i :: 0 <= i < |a| && !(base <= i < base + 2 * h) ==> u'[i] == u[i]
    ensures Between(a, b, u', base + 2 * h)
  {
    forall i | base <= i < base + 2 * h ensures u'[i] == b[i] {
      assert b[i] == Butterfly(R, a, base, h, w, i) && u'[i] == Butterfly(R, u, base, h, w, i);
    }
  }

  lemma RoundFits(j: nat, m: nat, r: nat, base: nat)
    requires j <= m && r < P2(m - j) && base == Start(r, P2(j))
    ensures BlockAt(j, m, base) && base + P2(j) <= P2(m)
  {
    StartIs(r, P2(j));
    MultiplesAreBlocks(j, m, r, base);
    BlockFits(j, m, base);
  }

  lemma AllRounds(j: nat, m: nat)
    requires j <= m
    ensures Start(P2(m - j), P2(j)) == P2(m)
  {
    StartIs(P2(m - j), P2(j));
    P2Mul(m - j, j);
  }

  /** The loop of ufft over the blocks of one stage. */
  method StageLoop(x: array<real>, first: nat, k: nat, nk: nat, sign: int, w: array<real>, ghost n: nat,
                   ghost j: nat, ghost m: nat, ghost v: seq<Complex>, ghost z: Complex, ghost R: Ring<Complex>)
    requires IsComplexRing(R) && 0 < j <= m && |v| == n == P2(m) && k == P2(j) && nk == P2(m - j)
    requires x != w && 2 * (first + n) <= x.Length && PowersOf(R, w, P2(m - 1), sign, z)
    requires View(x, first, n) == Stage(R, j - 1, m, v, z)
    modifies x
    ensures View(x, first, n) == Stage(R, j, m, v, z)
    ensures OthersKept(x, first, n)
  {
    ghost var a, b := Stage(R, j - 1, m, v, z), Stage(R, j, m, v, z);
    ghost var h, y := P2(j - 1), Pow(R, z, nk);
    assert h * nk == P2(m - 1) by { P2Mul(j - 1, m - j); }
    AllRounds(j, m);
    var base := 0;
    for r := 0 to nk
      invariant base == Start(r, k) <= n
      invariant Between(a, b, View(x, first, n), base)
      invariant OthersKept(x, first, n)
    {
      RoundFits(j, m, r, base);
      StageBlock(R, j, m, v, z, base, a, b, h, y);
      ghost var u := View(x, first, n);
      Block(x, first, base, k, nk, sign, w, n, h, z, R);
      NextBlock(R, a, b, u, View(x, first, n), base, h, y);
      base := base + k;
    }
    assert View(x, first, n) == b;
  }

  /** ufft: in place, the unordered transform with the roots in the table. */
  method Ufft(x: array<real>, first: nat, n: nat, sign: int, w: array<real>,
              ghost m: nat, ghost z: Complex, ghost R: Ring<Complex>)
    requires IsComplexRing(R) && n == P2(m) && x != w && 2 * (first + n) <= x.Length
    requires m > 0 ==> PowersOf(R, w, P2(m - 1), sign, z)
    modifies x
    ensures View(x, first, n) == Unordered(R, m, old(View(x, first, n)), z)
    ensures OthersKept(x, first, n)
  {
    ghost var v := View(x, first, n);
    StageZero(R, m, v, z);
    var k := 2;
    ghost var j := 1;
    while k <= n
      invariant 1 <= j <= m + 1 && k == P2(j)
      invariant View(x, first, n) == Stage(R, j - 1, m, v, z)
      invariant OthersKept(x, first, n)
      decreases n - k
    {
      P2Less(j, m);
      var nk := n / k;
      BlockCount(j, m);
      StageLoop(x, first, k, nk, sign, w, n, j, m, v, z, R);
      k := 2 * k;
      j := j + 1;
    }
    if j <= m { P2Grows(j, m); }
  }

  lemma BlockCount(j: nat, m: nat)
    requires j <= m
    ensures P2(m) / P2(j) == P2(m - j)
  {
    P2Mul(m - j, j);
    DivModUnique(P2(m), P2(j), P2(m - j), 0);
  }
}
