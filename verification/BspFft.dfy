/** bspfft of examples/bspedupack/bspfft.c: p = 2^q processors transform n = 2^(q+l) numbers. */
module BspFft {
  import opened Arithmetic
  import opened Rings
  import opened ComplexNumbers
  import opened FftMath
  import opened FftStages
  import opened FftKernels
  import opened FftLocals
  import opened FftPhases
  import opened Cycles
  import opened Redistribute
  import opened BspRedistr
  import opened UnorderedFft

  // ----- the tables -----

  /** The root of order 2^(e+l), of which round with cycle 2^e uses powers. */
  function RoundRoot(R: Ring<Complex>, z: Complex, q: nat, e: nat): Complex
    requires e <= q
  {
    Pow(R, z, P2(q - e))
  }

  /** The weights by which processor s twiddles in round r. */
  ghost predicate RoundTable(R: Ring<Complex>, tw: array<real>, q: nat, l: nat, sign: int, z: Complex, s: nat, r: nat)
    requires l > 0 && r < Rounds(q, l)
    reads tw
  {
    var e := FirstOrder(q, l) + Start(r, l);
    RoundEnds(q, l, r);
    TwiddleTable(R, tw, Start(r, P2(l)), l, sign, Pow(R, RoundRoot(R, z, q, e), s % P2(e)))
  }

  lemma RoundEnds(q: nat, l: nat, r: nat)
    requires l > 0 && r < Rounds(q, l)
    ensures FirstOrder(q, l) + Start(r, l) <= q
  {
    RoundsComplete(q, l);
    StartGrows(r + 1, Rounds(q, l), l);
  }

  /** All tables hold what bspfft_init puts there, for the effective root z. */
  ghost predicate Tables(R: Ring<Complex>, q: nat, l: nat, sign: int, z: Complex, p: nat,
                         w0: array<real>, w: array<real>, tws: seq<array<real>>)
    requires l > 0
    reads w0, w, tws
  {
    && |tws| == p
    && (FirstOrder(q, l) > 0 ==>
      PowersOf(R, w0, P2(FirstOrder(q, l) - 1), sign, Pow(R, z, P2(q + l - FirstOrder(q, l)))))
    && PowersOf(R, w, P2(l - 1), sign, Pow(R, z, P2(q)))
    && forall s, r :: 0 <= s < p && 0 <= r < Rounds(q, l) ==> RoundTable(R, tws[s], q, l, sign, z, s, r)
  }

  /** No table is one of the arrays that are transformed. */
  ghost predicate Apart(xs: seq<array<real>>, w0: array<real>, w: array<real>, tws: seq<array<real>>) {
    forall s :: 0 <= s < |xs| ==> xs[s] != w0 && xs[s] != w && xs[s] !in tws
  }

  // ----- the phases on all processors -----

  /** V is distributed over the processors with cycle c. */
  ghost predicate AllParts(xs: seq<array<real>>, V: seq<Complex>, c: nat, np: nat)
    requires c > 0 && Distributed(xs, np)
    reads xs
  {
    forall s :: 0 <= s < |xs| ==> Holds(View(xs[s], 0, np), V, c, np, s)
  }

  /** The same, over the processors in bit-reversed order if rev. */
  ghost predicate AllHeld(xs: seq<array<real>>, V: seq<Complex>, c: nat, np: nat, rho: seq<nat>, rev: bool)
    requires c > 0 && Distributed(xs, np) && |xs| == |rho|
    reads xs
  {
    forall s :: 0 <= s < |xs| ==> Held(xs, V, c, np, rho, rev, s)
  }

  /** permute and the first transforms, on one processor. */
  method StartOne(x: array<real>, np: nat, k1: nat, sign: int, w0: array<real>, rho: array<nat>,
                  ghost i: nat, ghost l: nat, ghost q: nat, ghost z: Complex, ghost R: Ring<Complex>,
                  ghost X: seq<Complex>, ghost s: nat)
    requires IsComplexRing(R) && x != w0 && i <= l && np == P2(l) && k1 == P2(i) && x.Length == 2 * np
    requires IsReversal(rho[..], l) && |X| == P2(q + l) && s < P2(q)
    requires i > 0 ==> PowersOf(R, w0, P2(i - 1), sign, Pow(R, z, P2(q + l - i)))
    requires Holds(View(x, 0, np), X, P2(q), np, s)
    modifies x
    ensures Holds(View(x, 0, np), Stage(R, i, q + l, BitReversed(q + l, X), z), 1, np, Rev(q, s))
  {
    ghost var u, y := View(x, 0, np), Pow(R, z, P2(q));
    ReversalIsInvolution(rho[..], l);
    Permute(x, np, rho);
    ghost var u' := View(x, 0, np);
    forall j: nat | j < np ensures Permuted(u', u, l, j) {}
    StartsReversed(X, u, u', q, l, s, np, P2(q));
    FirstRoot(R, z, q, l, i);
    SmallTransforms(x, np, k1, sign, w0, i, l, y, R);
    FirstStages(R, i, l, q, BitReversed(q + l, X), z, Rev(q, s), np, y, u', View(x, 0, np));
  }

  lemma FirstRoot(R: Ring<Complex>, z: Complex, q: nat, l: nat, i: nat)
    requires Lawful(R) && i <= l
    ensures Pow(R, Pow(R, z, P2(q)), P2(l - i)) == Pow(R, z, P2(q + l - i))
  {
    P2Mul(q, l - i);
    PowMul(R, z, P2(q), P2(l - i));
  }

  /** twiddle and ufft, on one processor. */
  method RoundOne(x: array<real>, np: nat, sign: int, w: array<real>, tw: array<real>, first: nat, ghost c: nat,
                  ghost e: nat, ghost l: nat, ghost q: nat, ghost z: Complex, ghost R: Ring<Complex>,
                  ghost v: seq<Complex>, ghost s: nat)
    requires IsComplexRing(R) && x != w && x != tw && l > 0 && e <= q && np == P2(l) && c == P2(e) && x.Length == 2 * np
    requires |v| == P2(q + l) && s < P2(q)
    requires PowersOf(R, w, P2(l - 1), sign, Pow(R, z, P2(q)))
    requires TwiddleTable(R, tw, first, l, sign, Pow(R, RoundRoot(R, z, q, e), s % c))
    requires Holds(View(x, 0, np), Stage(R, e, q + l, v, z), c, np, s)
    modifies x
    ensures Holds(View(x, 0, np), Stage(R, e + l, q + l, v, z), c, np, s)
  {
    ghost var u, y := View(x, 0, np), RoundRoot(R, z, q, e);
    ghost var wy := Pow(R, y, c);
    assert wy == Pow(R, z, P2(q)) by {
      P2Mul(q - e, e);
      PowMul(R, z, P2(q - e), c);
    }
    Twiddle(x, np, sign, tw, first, l, Pow(R, y, s % c), R);
    Ufft(x, 0, np, sign, w, l, wy, R);
    LocalStep(R, l, e, q, v, z, s, np, c, y, u, View(x, 0, np));
  }

  /** The first computation superstep, on all processors. */
  method StartAll(xs: seq<array<real>>, np: nat, k1: nat, sign: int, w0: array<real>, rho: array<nat>, rhoP: seq<nat>,
                  ghost i: nat, ghost l: nat, ghost q: nat, ghost z: Complex, ghost R: Ring<Complex>,
                  ghost X: seq<Complex>)
    requires IsComplexRing(R) && i <= l && np == P2(l) && k1 == P2(i)
    requires Distributed(xs, np) && |xs| == P2(q) && |X| == P2(q + l) && (forall s :: 0 <= s < |xs| ==> xs[s] != w0)
    requires IsReversal(rho[..], l) && IsReversal(rhoP, q)
    requires i > 0 ==> PowersOf(R, w0, P2(i - 1), sign, Pow(R, z, P2(q + l - i)))
    requires AllParts(xs, X, P2(q), np)
    modifies xs
    ensures AllHeld(xs, Stage(R, i, q + l, BitReversed(q + l, X), z), 1, np, rhoP, true)
  {
    ghost var V := Stage(R, i, q + l, BitReversed(q + l, X), z);
    for s := 0 to |xs|
      invariant forall t :: 0 <= t < s ==> Holds(View(xs[t], 0, np), V, 1, np, Rev(q, t))
      invariant forall t :: s <= t < |xs| ==> Holds(View(xs[t], 0, np), X, P2(q), np, t)
    {
      StartOne(xs[s], np, k1, sign, w0, rho, i, l, q, z, R, X, s);
    }
    forall s | 0 <= s < |xs| ensures Held(xs, V, 1, np, rhoP, true, s) {
      assert Holds(View(xs[s], 0, np), V, 1, np, Rev(q, s));
    }
  }

  /** The tables of round ntw, whose cycle is c. */
  ghost predicate RoundTables(R: Ring<Complex>, tws: seq<array<real>>, first: nat, l: nat, q: nat, sign: int,
                              z: Complex, c: nat, e: nat)
    requires e <= q && c > 0
    reads tws
  {
    forall s :: 0 <= s < |tws| ==> TwiddleTable(R, tws[s], first, l, sign, Pow(R, RoundRoot(R, z, q, e), s % c))
  }

  /** The computation superstep of one round, on all processors. */
  method RoundAll(xs: seq<array<real>>, np: nat, sign: int, w: array<real>, tws: seq<array<real>>, first: nat,
                  ghost c: nat, ghost e: nat, ghost l: nat, ghost q: nat, ghost z: Complex, ghost R: Ring<Complex>,
                  ghost v: seq<Complex>, ghost V: seq<Complex>, ghost V': seq<Complex>)
    requires IsComplexRing(R) && l > 0 && e <= q && np == P2(l) && c == P2(e)
    requires Distributed(xs, np) && |xs| == |tws| == P2(q) && |v| == P2(q + l)
    requires forall s :: 0 <= s < |xs| ==> xs[s] != w && xs[s] !in tws
    requires PowersOf(R, w, P2(l - 1), sign, Pow(R, z, P2(q)))
    requires RoundTables(R, tws, first, l, q, sign, z, c, e)
    requires V == Stage(R, e, q + l, v, z) && V' == Stage(R, e + l, q + l, v, z)
    requires AllParts(xs, V, c, np)
    modifies xs
    ensures AllParts(xs, V', c, np)
  {
    for s := 0 to |xs|
      invariant forall t :: 0 <= t < s ==> Holds(View(xs[t], 0, np), V', c, np, t)
      invariant forall t :: s <= t < |xs| ==> Holds(View(xs[t], 0, np), V, c, np, t)
    {
      RoundOne(xs[s], np, sign, w, tws[s], first, c, e, l, q, z, R, v, s);
    }
  }

  /** One round: redistribute, twiddle, transform. */
  method Round(xs: seq<array<real>>, np: nat, c0: nat, c: nat, rev: bool, ntw: nat, sign: int,
               w: array<real>, tws: seq<array<real>>, rhoP: seq<nat>,
               ghost e0: nat, ghost e: nat, ghost l: nat, ghost q: nat, ghost z: Complex, ghost R: Ring<Complex>,
               ghost v: seq<Complex>, ghost V: seq<Complex>, ghost V': seq<Complex>)
    requires IsComplexRing(R) && l > 0 && e0 <= e <= q && np == P2(l) && c == P2(e) && c0 == P2(e0)
    requires Distributed(xs, np) && |xs| == |tws| == P2(q) && |v| == P2(q + l) && IsReversal(rhoP, q)
    requires forall s :: 0 <= s < |xs| ==> xs[s] != w && xs[s] !in tws
    requires PowersOf(R, w, P2(l - 1), sign, Pow(R, z, P2(q)))
    requires RoundTables(R, tws, Start(ntw, np), l, q, sign, z, c, e)
    requires V == Stage(R, e, q + l, v, z) && V' == Stage(R, e + l, q + l, v, z)
    requires AllHeld(xs, V, c0, np, rhoP, rev)
    modifies xs
    ensures AllParts(xs, V', c, np)
  {
    ReversalIsInvolution(rhoP, q);
    Bspredistr(xs, np, c0, c, rev, rhoP, V, l, e0, e, q);
    StartIs(ntw, np);
    RoundAll(xs, np, sign, w, tws, ntw * np, c, e, l, q, z, R, v, V, V');
  }

  lemma TablesOfRound(R: Ring<Complex>, tws: seq<array<real>>, q: nat, l: nat, sign: int, z: Complex, r: nat, e: nat)
    requires l > 0 && r < Rounds(q, l) && e == FirstOrder(q, l) + Start(r, l) && e <= q
    requires forall s :: 0 <= s < |tws| ==> RoundTable(R, tws[s], q, l, sign, z, s, r)
    ensures RoundTables(R, tws, Start(r, P2(l)), l, q, sign, z, P2(e), e)
  {
  }

  lemma PartsAreHeld(xs: seq<array<real>>, V: seq<Complex>, c: nat, np: nat, rho: seq<nat>)
    requires c > 0 && Distributed(xs, np) && |xs| == |rho|
    ensures AllHeld(xs, V, c, np, rho, false) <==> AllParts(xs, V, c, np)
  {
    if AllParts(xs, V, c, np) {
      forall s | 0 <= s < |xs| ensures Held(xs, V, c, np, rho, false, s) {
        assert Holds(View(xs[s], 0, np), V, c, np, s);
      }
    }
    if AllHeld(xs, V, c, np, rho, false) {
      forall s | 0 <= s < |xs| ensures Holds(View(xs[s], 0, np), V, c, np, s) {
        assert Held(xs, V, c, np, rho, false, s);
      }
    }
  }

  /** One pass of the main loop. */
  method NextRound(xs: seq<array<real>>, np: nat, c0: nat, c: nat, rev: bool, ntw: nat, sign: int,
                   w: array<real>, tws: seq<array<real>>, rhoP: seq<nat>,
                   ghost e0: nat, ghost e: nat, ghost l: nat, ghost q: nat, ghost z: Complex, ghost R: Ring<Complex>,
                   ghost v: seq<Complex>, ghost V: seq<Complex>, ghost V': seq<Complex>)
    requires IsComplexRing(R) && l > 0 && e0 <= e <= q && np == P2(l) && c == P2(e) && c0 == P2(e0)
    requires ntw < Rounds(q, l) && e == FirstOrder(q, l) + Start(ntw, l)
    requires Distributed(xs, np) && |xs| == |tws| == P2(q) && |v| == P2(q + l) && IsReversal(rhoP, q)
    requires forall s :: 0 <= s < |xs| ==> xs[s] != w && xs[s] !in tws
    requires PowersOf(R, w, P2(l - 1), sign, Pow(R, z, P2(q)))
    requires forall s, r :: 0 <= s < |tws| && 0 <= r < Rounds(q, l) ==> RoundTable(R, tws[s], q, l, sign, z, s, r)
    requires V == Stage(R, e, q + l, v, z) && V' == Stage(R, e + l, q + l, v, z)
    requires AllHeld(xs, V, c0, np, rhoP, rev)
    modifies xs
    ensures AllHeld(xs, V', c, np, rhoP, false)
  {
    TablesOfRound(R, tws, q, l, sign, z, ntw, e);
    Round(xs, np, c0, c, rev, ntw, sign, w, tws, rhoP, e0, e, l, q, z, R, v, V, V');
    PartsAreHeld(xs, V', c, np, rhoP);
  }

  /** The order of the next cycle. */
  lemma NextOrder(q: nat, l: nat, ntw: nat, e: nat, c: nat, np: nat)
    requires l > 0 && ntw <= Rounds(q, l) && e == FirstOrder(q, l) + Start(ntw, l) && c == P2(e) <= P2(q) && np == P2(l)
    ensures ntw < Rounds(q, l) && e <= q && c * np == P2(e + l) && e + l == FirstOrder(q, l) + Start(ntw + 1, l)
  {
    P2Less(e, q);
    RoundsLeft(q, l, ntw, e);
    P2Mul(e, l);
  }

  /** The supersteps with communication. */
  method AllRounds1(xs: seq<array<real>>, np: nat, p: nat, k1: nat, sign: int, w: array<real>, tws: seq<array<real>>,
                 rhoP: seq<nat>, ghost l: nat, ghost q: nat, ghost z: Complex, ghost R: Ring<Complex>,
                 ghost v: seq<Complex>)
    requires IsComplexRing(R) && l > 0 && np == P2(l) && p == P2(q) && k1 == P2(FirstOrder(q, l))
    requires Distributed(xs, np) && |xs| == |tws| == p && |v| == P2(q + l) && IsReversal(rhoP, q)
    requires forall s :: 0 <= s < |xs| ==> xs[s] != w && xs[s] !in tws
    requires PowersOf(R, w, P2(l - 1), sign, Pow(R, z, P2(q)))
    requires forall s, r :: 0 <= s < p && 0 <= r < Rounds(q, l) ==> RoundTable(R, tws[s], q, l, sign, z, s, r)
    requires AllHeld(xs, Stage(R, FirstOrder(q, l), q + l, v, z), 1, np, rhoP, true)
    modifies xs
    ensures AllParts(xs, Unordered(R, q + l, v, z), p, np)
  {
    var rev, c0, c, ntw := true, 1, k1, 0;
    ghost var e: nat, e0: nat := FirstOrder(q, l), 0;
    ghost var V := Stage(R, e, q + l, v, z);
    RoundsComplete(q, l);
    while c <= p
      invariant ntw <= Rounds(q, l) && e == FirstOrder(q, l) + Start(ntw, l) <= q + l && c == P2(e) && c0 == P2(e0)
      invariant rev == (ntw == 0) && e0 == (if ntw == 0 then 0 else e - l)
      invariant V == Stage(R, e, q + l, v, z) && AllHeld(xs, V, c0, np, rhoP, rev)
      decreases Rounds(q, l) - ntw
    {
      NextOrder(q, l, ntw, e, c, np);
      ghost var V' := Stage(R, e + l, q + l, v, z);
      NextRound(xs, np, c0, c, rev, ntw, sign, w, tws, rhoP, e0, e, l, q, z, R, v, V, V');
      rev, c0, c, ntw := false, c, c * np, ntw + 1;
      e0, e, V := e, e + l, V';
    }
    AllRoundsDone(q, l, ntw, e);
    PartsAreHeld(xs, V, c0, np, rhoP);
    if ntw == 0 {
      OneProcessor(xs, V, np, rhoP);
    }
  }

  /** A single processor holds everything, under either numbering. */
  lemma OneProcessor(xs: seq<array<real>>, V: seq<Complex>, np: nat, rho: seq<nat>)
    requires Distributed(xs, np) && |xs| == 1 && IsReversal(rho, 0) && AllHeld(xs, V, 1, np, rho, true)
    ensures AllParts(xs, V, 1, np)
  {
    assert Rev(0, 0) == 0;
    assert Held(xs, V, 1, np, rho, true, 0);
  }

  lemma RoundsLeft(q: nat, l: nat, ntw: nat, e: nat)
    requires l > 0 && ntw <= Rounds(q, l) && e == FirstOrder(q, l) + Start(ntw, l) && e <= q
    ensures ntw < Rounds(q, l)
  {
    RoundsComplete(q, l);
  }

  lemma AllRoundsDone(q: nat, l: nat, ntw: nat, e: nat)
    requires l > 0 && ntw <= Rounds(q, l) && e == FirstOrder(q, l) + Start(ntw, l) && P2(e) > P2(q)
    ensures ntw == Rounds(q, l) && e == q + l && (ntw == 0 ==> q == 0)
  {
    P2Less(e, q);
    RoundsComplete(q, l);
    if ntw < Rounds(q, l) {
      RoundEnds(q, l, ntw);
    }
  }

  // ----- the transform -----

  /** The root that a transform of either sign works with, omega being the root of the weight tables. */
  function Effective(sign: int, omega: Complex): Complex {
    if sign == 1 then omega else Conj(omega)
  }

  /** The weights themselves are the powers of omega. */
  ghost predicate PlainPowers(R: Ring<Complex>, w: array<real>, count: nat, omega: Complex)
    reads w
  {
    2 * count <= w.Length && forall t: nat :: t < count ==> At(w, t) == Pow(R, omega, t)
  }

  /** The same in the order in which twiddle_init stores them. */
  ghost predicate PlainTwiddles(R: Ring<Complex>, w: array<real>, first: nat, l: nat, tau: Complex)
    reads w
  {
    2 * (first + P2(l)) <= w.Length && forall j :: 0 <= j < P2(l) ==> At(w, first + j) == Pow(R, tau, Rev(l, j))
  }

  ghost predicate PlainRound(R: Ring<Complex>, tw: array<real>, q: nat, l: nat, omega: Complex, s: nat, r: nat)
    requires l > 0 && r < Rounds(q, l)
    reads tw
  {
    var e := FirstOrder(q, l) + Start(r, l);
    RoundEnds(q, l, r);
    PlainTwiddles(R, tw, Start(r, P2(l)), l, Pow(R, RoundRoot(R, omega, q, e), s % P2(e)))
  }

  /** The tables of bspfft_init, omega being exp(-2 pi i / n): they serve both directions. */
  ghost predicate PlainTables(R: Ring<Complex>, q: nat, l: nat, omega: Complex, p: nat,
                              w0: array<real>, w: array<real>, tws: seq<array<real>>)
    requires l > 0
    reads w0, w, tws
  {
    && |tws| == p
    && (FirstOrder(q, l) > 0 ==>
      PlainPowers(R, w0, P2(FirstOrder(q, l) - 1), Pow(R, omega, P2(q + l - FirstOrder(q, l)))))
    && PlainPowers(R, w, P2(l - 1), Pow(R, omega, P2(q)))
    && forall s, r :: 0 <= s < p && 0 <= r < Rounds(q, l) ==> PlainRound(R, tws[s], q, l, omega, s, r)
  }

  /** Conjugated weights are the powers of the conjugated root. */
  lemma EffectivePowers(R: Ring<Complex>, w: array<real>, count: nat, sign: int, omega: Complex)
    requires IsComplexRing(R) && PlainPowers(R, w, count, omega)
    ensures PowersOf(R, w, count, sign, Effective(sign, omega))
  {
    forall t: nat | t < count ensures Weight(w, t, sign) == Pow(R, Effective(sign, omega), t) {
      assert At(w, t) == Pow(R, omega, t);
      ConjPow(R, omega, t);
    }
  }

  lemma EffectiveTwiddles(R: Ring<Complex>, w: array<real>, first: nat, l: nat, sign: int, omega: Complex,
                          q: nat, e: nat, s: nat)
    requires IsComplexRing(R) && e <= q
    requires PlainTwiddles(R, w, first, l, Pow(R, RoundRoot(R, omega, q, e), s))
    ensures TwiddleTable(R, w, first, l, sign, Pow(R, RoundRoot(R, Effective(sign, omega), q, e), s))
  {
    var tau := Pow(R, RoundRoot(R, omega, q, e), s);
    ConjPow(R, omega, P2(q - e));
    ConjPow(R, RoundRoot(R, omega, q, e), s);
    forall j | 0 <= j < P2(l)
      ensures Weight(w, first + j, sign) == Pow(R, Pow(R, RoundRoot(R, Effective(sign, omega), q, e), s), Rev(l, j))
    {
      assert At(w, first + j) == Pow(R, tau, Rev(l, j));
      ConjPow(R, tau, Rev(l, j));
    }
  }

  lemma EffectiveRound(R: Ring<Complex>, tw: array<real>, q: nat, l: nat, sign: int, omega: Complex, s: nat, r: nat)
    requires IsComplexRing(R) && l > 0 && r < Rounds(q, l) && PlainRound(R, tw, q, l, omega, s, r)
    ensures RoundTable(R, tw, q, l, sign, Effective(sign, omega), s, r)
  {
    var e := FirstOrder(q, l) + Start(r, l);
    RoundEnds(q, l, r);
    EffectiveTwiddles(R, tw, Start(r, P2(l)), l, sign, omega, q, e, s % P2(e));
  }

  lemma EffectiveTables(R: Ring<Complex>, q: nat, l: nat, sign: int, omega: Complex, p: nat,
                        w0: array<real>, w: array<real>, tws: seq<array<real>>)
    requires IsComplexRing(R) && l > 0 && PlainTables(R, q, l, omega, p, w0, w, tws)
    ensures Tables(R, q, l, sign, Effective(sign, omega), p, w0, w, tws)
  {
    var i, z := FirstOrder(q, l), Effective(sign, omega);
    if i > 0 {
      ConjPow(R, omega, P2(q + l - i));
      EffectivePowers(R, w0, P2(i - 1), sign, Pow(R, omega, P2(q + l - i)));
    }
    ConjPow(R, omega, P2(q));
    EffectivePowers(R, w, P2(l - 1), sign, Pow(R, omega, P2(q)));
    forall s, r | 0 <= s < p && 0 <= r < Rounds(q, l) ensures RoundTable(R, tws[s], q, l, sign, z, s, r) {
      EffectiveRound(R, tws[s], q, l, sign, omega, s, r);
    }
  }

  lemma ConjRoot(R: Ring<Complex>, omega: Complex, k: nat, v: Complex)
    requires IsComplexRing(R) && Pow(R, omega, k) == v && v.im == 0.0
    ensures Pow(R, Conj(omega), k) == v
  {
    ConjPow(R, omega, k);
    assert Conj(v) == v;
  }

  lemma EffectiveRoot(R: Ring<Complex>, m: nat, sign: int, omega: Complex)
    requires IsComplexRing(R) && IsRoot(R, m, omega)
    ensures IsRoot(R, m, Effective(sign, omega))
  {
    if m > 0 {
      NegOne(R);
      ConjRoot(R, omega, P2(m - 1), R.neg(R.one));
    }
  }

  function ScaledBy(a: real, V: seq<Complex>): (r: seq<Complex>)
    ensures |r| == |V|
  {
    seq(|V|, i requires 0 <= i < |V| => Complex(V[i].re * a, V[i].im * a))
  }

  /** The division by n that ends a backward transform, on one processor. */
  method Scale(x: array<real>, np: nat, a: real)
    requires x.Length == 2 * np
    modifies x
    ensures View(x, 0, np) == ScaledBy(a, old(View(x, 0, np)))
  {
    ghost var v := View(x, 0, np);
    for j := 0 to 2 * np
      invariant forall i :: 0 <= i < x.Length ==> x[i] == if i < j then old(x[i]) * a else old(x[i])
    {
      x[j] := x[j] * a;
    }
    forall i | 0 <= i < np ensures View(x, 0, np)[i] == ScaledBy(a, v)[i] {
      assert v[i] == old(At(x, i));
    }
  }

  lemma ScaledPart(u: seq<Complex>, V: seq<Complex>, a: real, c: nat, np: nat, s: nat)
    requires c > 0 && Holds(u, V, c, np, s)
    ensures Holds(ScaledBy(a, u), ScaledBy(a, V), c, np, s)
  {
    forall t | 0 <= t < np ensures HoldsAt(ScaledBy(a, u), ScaledBy(a, V), c, np, s, t) {
      assert HoldsAt(u, V, c, np, s, t);
    }
  }

  method ScaleAll(xs: seq<array<real>>, np: nat, a: real, ghost V: seq<Complex>, ghost c: nat)
    requires c > 0 && Distributed(xs, np) && AllParts(xs, V, c, np)
    modifies xs
    ensures AllParts(xs, ScaledBy(a, V), c, np)
  {
    ghost var V' := ScaledBy(a, V);
    for s := 0 to |xs|
      invariant forall t :: 0 <= t < s ==> Holds(View(xs[t], 0, np), V', c, np, t)
      invariant forall t :: s <= t < |xs| ==> Holds(View(xs[t], 0, np), V, c, np, t)
    {
      ScaledPart(View(xs[s], 0, np), V, a, c, np, s);
      Scale(xs[s], np, a);
    }
  }

  /** The phases of bspfft, with the effective root z. */
  method AllPhases(xs: seq<array<real>>, n: nat, p: nat, sign: int, w0: array<real>, w: array<real>,
                   tws: seq<array<real>>, rhoNp: array<nat>, rhoP: seq<nat>,
                   ghost q: nat, ghost l: nat, ghost z: Complex, ghost R: Ring<Complex>, ghost X: seq<Complex>)
    requires IsComplexRing(R) && l > 0 && p == P2(q) && n == |X| == P2(q + l) && IsRoot(R, q + l, z)
    requires |xs| == p && Distributed(xs, P2(l)) && Apart(xs, w0, w, tws)
    requires IsReversal(rhoNp[..], l) && IsReversal(rhoP, q) && Tables(R, q, l, sign, z, p, w0, w, tws)
    requires AllParts(xs, X, p, P2(l))
    modifies xs
    ensures AllParts(xs, Dft(R, X, z), p, P2(l))
  {
    P2Quotient(q, l);
    var np := n / p;
    var k1 := K1Init(n, p, q, l);
    ghost var v := BitReversed(q + l, X);
    StartAll(xs, np, k1, sign, w0, rhoNp, rhoP, FirstOrder(q, l), l, q, z, R, X);
    AllRounds1(xs, np, p, k1, sign, w, tws, rhoP, l, q, z, R, v);
    UnorderedIsDft(R, q + l, X, z);
  }

  /** n times this number is that one. */
  predicate IsNth(n: nat, part: Complex, whole: Complex) {
    n as real * part.re == whole.re && n as real * part.im == whole.im
  }

  lemma NthOf(n: nat, a: Complex)
    requires n > 0
    ensures IsNth(n, Complex(a.re * (1.0 / n as real), a.im * (1.0 / n as real)), a)
  {
    TimesQuotient(n as real, a.re);
    TimesQuotient(n as real, a.im);
  }

  lemma TimesQuotient(x: real, a: real)
    requires x != 0.0
    ensures x * (a * (1.0 / x)) == a
  {
    assert x * (1.0 / x) == 1.0;
    assert x * (a * (1.0 / x)) == a * (x * (1.0 / x));
  }

  /** "scale": the division of a backward transform. */
  method Divide(xs: seq<array<real>>, n: nat, np: nat, ghost V: seq<Complex>, ghost c: nat)
    returns (ghost Y: seq<Complex>)
    requires n > 0 && c > 0 && Distributed(xs, np) && AllParts(xs, V, c, np)
    modifies xs
    ensures |Y| == |V| && AllParts(xs, Y, c, np) && forall i :: 0 <= i < |V| ==> IsNth(n, Y[i], V[i])
  {
    var ninv := 1.0 / n as real;
    ScaleAll(xs, np, ninv, V, c);
    Y := ScaledBy(ninv, V);
    forall i | 0 <= i < |V| ensures IsNth(n, Y[i], V[i]) {
      NthOf(n, V[i]);
    }
  }

  /** bspfft: the cyclically distributed vector becomes Y, in the same distribution. Forward, Y is the Fourier
    * transform of X with the root omega of the tables; backward, n times Y is that with the conjugate of omega. */
  method Bspfft(xs: seq<array<real>>, n: nat, p: nat, sign: int, w0: array<real>, w: array<real>,
                tws: seq<array<real>>, rhoNp: array<nat>, rhoP: seq<nat>,
                ghost q: nat, ghost l: nat, ghost omega: Complex, ghost R: Ring<Complex>, ghost X: seq<Complex>)
    returns (ghost Y: seq<Complex>)
    requires IsComplexRing(R) && l > 0 && p == P2(q) && n == |X| == P2(q + l) && IsRoot(R, q + l, omega)
    requires |xs| == p && Distributed(xs, P2(l)) && Apart(xs, w0, w, tws)
    requires IsReversal(rhoNp[..], l) && IsReversal(rhoP, q) && PlainTables(R, q, l, omega, p, w0, w, tws)
    requires AllParts(xs, X, p, P2(l))
    modifies xs
    ensures |Y| == n && AllParts(xs, Y, p, P2(l))
    ensures sign == 1 ==> Y == Dft(R, X, omega)
    ensures sign == -1 ==> forall i :: 0 <= i < n ==> IsNth(n, Y[i], Dft(R, X, Conj(omega))[i])
  {
    ghost var z := Effective(sign, omega);
    EffectiveTables(R, q, l, sign, omega, p, w0, w, tws);
    EffectiveRoot(R, q + l, sign, omega);
    AllPhases(xs, n, p, sign, w0, w, tws, rhoNp, rhoP, q, l, z, R, X);
    Y := Dft(R, X, z);
    if sign == -1 {
      P2Quotient(q, l);
      Y := Divide(xs, n, n / p, Y, p);
    }
  }
}
