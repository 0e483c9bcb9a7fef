/** The sequential kernels of examples/bspedupack/bspfft.c, in place on arrays of reals that hold
  * complex numbers as pairs. */
module FftKernels {
  import opened ComplexNumbers
  import opened FftMath

  /** The complex number stored as pair i. */
  function At(x: array<real>, i: int): Complex
    requires 0 <= i && 2 * i + 1 < x.Length
    reads x
  {
    Complex(x[2 * i], x[2 * i + 1])
  }

  /** The n complex numbers stored from pair `first` on. */
  function View(x: array<real>, first: nat, n: nat): (v: seq<Complex>)
    requires 2 * (first + n) <= x.Length
    reads x
    ensures |v| == n && forall i :: 0 <= i < n ==> v[i] == At(x, first + i)
  {
    seq(n, i requires 0 <= i < n reads x => At(x, first + i))
  }

  /** Stores a complex number as pair i. */
  method SetPair(x: array<real>, i: nat, re: real, im: real)
    requires 2 * i + 1 < x.Length
    modifies x
    ensures At(x, i) == Complex(re, im)
    ensures forall k :: 0 <= k && 2 * k + 1 < x.Length && k != i ==> At(x, k) == old(At(x, k))
  {
    x[2 * i] := re;
    x[2 * i + 1] := im;
  }

  // ----- bit reversal -----

  /** One round of the inner loop of bitrev_init: the lowest bit of rem becomes the lowest bit of val. */
  lemma ShiftBit(m: nat, rem: nat, val: nat)
    requires m > 0 && rem < P2(m)
    ensures rem / 2 < P2(m - 1)
    ensures val * P2(m) + Rev(m, rem) == (2 * val + rem % 2) * P2(m - 1) + Rev(m - 1, rem / 2)
  {
    RevLow(m - 1, rem / 2, rem % 2);
    BitMoves(val, rem % 2, P2(m - 1), Rev(m - 1, rem / 2));
  }

  lemma BitMoves(val: int, bit: int, h: int, r: int)
    requires 0 <= bit < 2
    ensures val * (2 * h) + (r + if bit == 1 then h else 0) == (2 * val + bit) * h + r
  {
    assert (2 * val + bit) * h == val * (2 * h) + bit * h;
  }

  /** The inner loops of bitrev_init. */
  method ReverseBits(n: nat, j: nat, ghost m: nat) returns (val: nat)
    requires n == P2(m) && j < n
    ensures val == Rev(m, j)
  {
    var rem: nat := j;
    val := 0;
    var k := 1;
    ghost var i := 0;
    while k < n
      invariant i <= m && k == P2(i) && rem < P2(m - i)
      invariant val * P2(m - i) + Rev(m - i, rem) == Rev(m, j)
      decreases n - k
    {
      assert i < m;
      ShiftBit(m - i, rem, val);
      var lastbit := rem % 2;
      rem := rem / 2;
      val := 2 * val + lastbit;
      k := 2 * k;
      i := i + 1;
    }
    P2Grows(i, m);
  }

  /** bitrev_init: rho becomes the bit reversal of m-bit numbers, which undoes itself. */
  method BitrevInit(n: nat, rho: array<nat>, ghost m: nat)
    requires n == P2(m) && rho.Length == n
    modifies rho
    ensures IsReversal(rho[..], m)
  {
    if n == 1 {
      rho[0] := 0;
      P2Grows(0, m);
      return;
    }
    for j := 0 to n
      invariant forall i :: 0 <= i < j ==> rho[i] == Rev(m, i)
    {
      rho[j] := ReverseBits(n, j, m);
    }
  }

  ghost predicate IsReversal(rho: seq<nat>, m: nat) {
    |rho| == P2(m) && forall j :: 0 <= j < |rho| ==> rho[j] == Rev(m, j)
  }

  /** A permutation made of disjoint swaps, as permute demands. */
  ghost predicate IsInvolution(sigma: seq<nat>) {
    forall j :: 0 <= j < |sigma| ==> sigma[j] < |sigma| && sigma[sigma[j]] == j
  }

  lemma ReversalIsInvolution(rho: seq<nat>, m: nat)
    requires IsReversal(rho, m)
    ensures IsInvolution(rho)
  {
    forall j | 0 <= j < |rho| ensures rho[j] < |rho| && rho[rho[j]] == j {
      RevRev(m, j);
    }
  }

  /** Exchanges pairs j and k. */
  method Swap(x: array<real>, j: nat, k: nat)
    requires j != k && 2 * j + 1 < x.Length && 2 * k + 1 < x.Length
    modifies x
    ensures At(x, j) == old(At(x, k)) && At(x, k) == old(At(x, j))
    ensures forall i :: 0 <= i && 2 * i + 1 < x.Length && i != j && i != k ==> At(x, i) == old(At(x, i))
  {
    var j0, j2 := 2 * j, 2 * k;
    var j1, j3 := j0 + 1, j2 + 1;
    var tmpr, tmpi := x[j0], x[j1];
    x[j0] := x[j2];
    x[j1] := x[j3];
    x[j2] := tmpr;
    x[j3] := tmpi;
  }

  /** Entry i once the swaps of all numbers below j are done. */
  ghost function PermutedTo<T>(s: seq<nat>, v: seq<T>, j: nat, i: nat): T
    requires |s| == |v| && i < |s| && IsInvolution(s)
  {
    if i < j || s[i] < j then v[s[i]] else v[i]
  }

  /** The place whose entry the swap in round j brings to place i. */
  ghost function Partner(s: seq<nat>, j: nat, i: nat): nat
    requires j < |s|
  {
    if j >= s[j] then i else if i == j then s[j] else if i == s[j] then j else i
  }

  lemma SwapStep<T>(s: seq<nat>, v: seq<T>, j: nat, i: nat)
    requires |s| == |v| && i < |s| && j < |s| && IsInvolution(s)
    ensures PermutedTo(s, v, j + 1, i) == PermutedTo(s, v, j, Partner(s, j, i))
  {
    assert s[s[j]] == j && s[s[i]] == i;
  }

  /** permute: the swaps of an involution, in place, read every entry from its image. */
  method Permute(x: array<real>, n: nat, sigma: array<nat>)
    requires 2 * n == x.Length && sigma.Length == n && IsInvolution(sigma[..])
    modifies x
    ensures forall j :: 0 <= j < n ==> sigma[..][j] < n && View(x, 0, n)[j] == old(View(x, 0, n))[sigma[..][j]]
  {
    ghost var s, v := sigma[..], View(x, 0, n);
    for j := 0 to n
      invariant forall i :: 0 <= i < n ==> At(x, i) == PermutedTo(s, v, j, i)
    {
      assert sigma[j] == s[j] < n;
      forall i | 0 <= i < n ensures PermutedTo(s, v, j + 1, i) == PermutedTo(s, v, j, Partner(s, j, i)) {
        SwapStep(s, v, j, i);
      }
      if j < sigma[j] {
        Swap(x, j, sigma[j]);
      }
    }
  }
}
