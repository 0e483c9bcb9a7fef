/** What each processor computes in a superstep of bspfft, and what that makes of the distributed vector. */
module FftLocals {
  import opened Arithmetic
  import opened Rings
  import opened ComplexNumbers
  import opened FftMath
  import opened FftStages
  import opened FftColumns
  import opened Distributions
  import opened FftDistributed
  import opened Redistribute

  /** A processor's part of the cycle-c distribution is a column of its group's block. */
  lemma HoldsIsColumn(u: seq<Complex>, V: seq<Complex>, c: nat, np: nat, s: nat, base: nat, k: nat, e: nat)
    requires c > 0 && |u| == np && base == s / c * (c * np) && k == Start(np, c) && base + k <= |V| && e == s % c
    ensures Holds(u, V, c, np, s) <==> u == Column(V[base..base + k], np, c, e)
  {
    var w := Column(V[base..base + k], np, c, e);
    forall t | 0 <= t < np ensures HoldsAt(w, V, c, np, s, t) {
      StartIs(t, c);
      ColumnFits(t, np, c, e);
      assert w[t] == V[base..base + k][Start(t, c) + e] == V[base + Start(t, c) + e];
    }
    if Holds(u, V, c, np, s) {
      forall t | 0 <= t < np ensures u[t] == w[t] {
        assert HoldsAt(u, V, c, np, s, t) && HoldsAt(w, V, c, np, s, t);
      }
    }
  }

  /** Where the block of processor s starts, with p = 2^q processors of np = 2^l numbers each. */
  lemma GroupBlock(l: nat, i: nat, q: nat, s: nat, c: nat, np: nat, base: int)
    requires i <= q && np == P2(l) && c == P2(i) && s < P2(q) && base == s / c * (c * np)
    ensures base >= 0 && BlockAt(i + l, q + l, base) && base + P2(i + l) <= P2(q + l) && Start(np, c) == P2(i + l)
  {
    var g, r := P2(q - i), s / c;
    P2Mul(i, q - i);
    QuotientBelow(s, c, g);
    P2Mul(i, l);
    MulMonotone(0, r, c * np);
    MultiplesAreBlocks(i + l, q + l, r, base);
    BlockFits(i + l, q + l, base);
    StartP2(l, i);
  }

  /** Twiddle and transform: stage i of the whole vector becomes stage i + l. */
  lemma LocalStep(R: Ring<Complex>, l: nat, i: nat, q: nat, v: seq<Complex>, z: Complex, s: nat,
                  np: nat, c: nat, y: Complex, u: seq<Complex>, u': seq<Complex>)
    requires Lawful(R) && i <= q && |v| == P2(q + l) && np == P2(l) && c == P2(i) && s < P2(q)
    requires y == Pow(R, z, P2(q - i))
    requires Holds(u, Stage(R, i, q + l, v, z), c, np, s)
    requires u' == Unordered(R, l, Twiddled(R, l, u, Pow(R, y, s % c)), Pow(R, y, c))
    ensures Holds(u', Stage(R, i + l, q + l, v, z), c, np, s)
  {
    var base, k := s / c * (c * np), Start(np, c);
    GroupBlock(l, i, q, s, c, np, base);
    var before, after := Stage(R, i, q + l, v, z), Stage(R, i + l, q + l, v, z);
    HoldsIsColumn(u, before, c, np, s, base, k, s % c);
    ColumnStep(R, l, i, q + l, v, z, base, s % c, np, c, y, before, after, k, u, Pow(R, y, c), Pow(R, y, s % c));
    HoldsIsColumn(u', after, c, np, s, base, k, s % c);
  }

  // ----- the start: bit reversal and small transforms -----

  /** Reversing the high and the low bits of a number. */
  lemma {:induction false} RevSplit(q: nat, l: nat, a: nat, t: nat, j: nat, np: nat, r: nat)
    requires a < P2(q) && t < P2(l) && np == P2(l) && j == Start(a, np) + t && r == Rev(l, t)
    ensures j < P2(q + l) && Rev(q + l, j) == Start(r, P2(q)) + Rev(q, a)
    decreases q
  {
    if q == 0 {
      StartIs(r, 1);
    } else {
      var h := P2(q - 1);
      StartTwice(r, h);
      HighBit(q, l, a, j, np, t, h);
      if a < h {
        RevSplit(q - 1, l, a, t, j, np, r);
      } else {
        RevSplit(q - 1, l, a - h, t, j - P2(q - 1 + l), np, r);
      }
    }
  }

  /** The highest bit of a is the highest bit of the number. */
  lemma HighBit(q: nat, l: nat, a: nat, j: nat, np: nat, t: nat, h: nat)
    requires q > 0 && np == P2(l) && t < np && j == Start(a, np) + t && h == P2(q - 1)
    ensures a < h ==> j < P2(q - 1 + l)
    ensures a >= h ==> j >= P2(q - 1 + l) && j - P2(q - 1 + l) == Start(a - h, np) + t
  {
    StartP2(q - 1, l);
    if a < h {
      ColumnFits(a, h, np, t);
    } else {
      StartAdd(h, a - h, np);
    }
  }

  /** Number j comes from the place with the reversed bits. */
  predicate Permuted(u': seq<Complex>, u: seq<Complex>, l: nat, j: nat) {
    j < |u'| && j < P2(l) && Rev(l, j) < |u| && u'[j] == u[Rev(l, j)]
  }

  /** A cyclically distributed vector, permuted locally, is its bit reversal in blocks over the processors
    * in bit-reversed order. */
  lemma StartsReversed(X: seq<Complex>, u: seq<Complex>, u': seq<Complex>, q: nat, l: nat, s: nat, np: nat, p: nat)
    requires |X| == P2(q + l) && s < P2(q) && np == P2(l) && p == P2(q)
    requires Holds(u, X, p, np, s)
    requires |u'| == np && forall j: nat :: j < np ==> Permuted(u', u, l, j)
    ensures Holds(u', BitReversed(q + l, X), 1, np, Rev(q, s))
  {
    var a, y := Rev(q, s), BitReversed(q + l, X);
    forall t | 0 <= t < np ensures HoldsAt(u', y, 1, np, a, t) {
      assert Permuted(u', u, l, t);
      StartsReversedAt(X, u, u', q, l, s, np, p, y, a, t, Rev(l, t));
    }
  }

  lemma StartsReversedAt(X: seq<Complex>, u: seq<Complex>, u': seq<Complex>, q: nat, l: nat, s: nat, np: nat, p: nat,
                         y: seq<Complex>, a: nat, t: nat, r: nat)
    requires |X| == P2(q + l) && s < P2(q) && np == P2(l) && p == P2(q) && a == Rev(q, s) && y == BitReversed(q + l, X)
    requires t < np == |u'| && r == Rev(l, t) && r < np && Holds(u, X, p, np, s) && u'[t] == u[r]
    ensures HoldsAt(u', y, 1, np, a, t)
  {
    var g := NumberOf(u, X, p, np, s, r);
    var j := ReversedPlace(q, l, s, a, t, np, p, r, g);
    PlaceInBlock(np, a, t, j - t);
    BitReversedAt(q + l, X, j);
  }

  /** Where number r of processor s comes from. */
  lemma NumberOf(u: seq<Complex>, X: seq<Complex>, p: nat, np: nat, s: nat, r: nat) returns (g: nat)
    requires s < p && r < np && Holds(u, X, p, np, s)
    ensures g == Start(r, p) + s < |X| && u[r] == X[g]
  {
    assert HoldsAt(u, X, p, np, s, r);
    PlaceInCycle(p, np, s, r, Start(r, p));
    g := Start(r, p) + s;
  }

  /** Where it goes to. */
  lemma ReversedPlace(q: nat, l: nat, s: nat, a: nat, t: nat, np: nat, p: nat, r: nat, g: nat) returns (j: nat)
    requires s < P2(q) && a == Rev(q, s) && t < P2(l) && np == P2(l) && p == P2(q) && r == Rev(l, t)
      && g == Start(r, p) + s
    ensures j == Start(a, np) + t && j < P2(q + l) && Rev(q + l, j) == g
  {
    RevRev(q, s);
    j := Start(a, np) + t;
    RevSplit(q, l, a, t, j, np, r);
  }

  /** Where a processor's numbers are, if all processors are one cycle. */
  lemma PlaceInCycle(p: nat, np: nat, s: nat, r: nat, high: nat)
    requires s < p && high == Start(r, p)
    ensures Global(p, np, s, r) == high + s
  {
    StartIs(r, p);
    DivModUnique(s, p, 0, s);
  }

  /** Where they are, if each processor is a cycle of its own. */
  lemma PlaceInBlock(np: nat, a: nat, t: nat, base: nat)
    requires base == Start(a, np)
    ensures Global(1, np, a, t) == base + t
  {
    StartIs(a, np);
  }

  /** The first stages, on every processor's own numbers. */
  lemma FirstStages(R: Ring<Complex>, i: nat, l: nat, q: nat, v: seq<Complex>, z: Complex, a: nat, np: nat, y: Complex,
                    u: seq<Complex>, u': seq<Complex>)
    requires Lawful(R) && i <= l && |v| == P2(q + l) && np == P2(l) && a < P2(q) && y == Pow(R, z, P2(q))
    requires Holds(u, v, 1, np, a) && u' == Stage(R, i, l, u, y)
    ensures Holds(u', Stage(R, i, q + l, v, z), 1, np, a)
  {
    var base, after := Start(a, np), Stage(R, i, q + l, v, z);
    FirstBlock(l, q, a, np, base);
    HoldsIsBlock(u, v, np, a, base);
    HoldsIsBlock(u', after, np, a, base);
    StageOfBlock(R, i, l, q + l, v, z, base, after, np, y, u, after[base..base + np]);
  }

  lemma FirstBlock(l: nat, q: nat, a: nat, np: nat, base: nat)
    requires np == P2(l) && a < P2(q) && base == Start(a, np)
    ensures BlockAt(l, q + l, base) && base + np <= P2(q + l)
  {
    StartIs(a, np);
    assert P2(0) == 1;
    GroupBlock(l, 0, q, a, 1, np, base);
  }

  /** With cycle 1 a processor holds a block. */
  lemma HoldsIsBlock(u: seq<Complex>, V: seq<Complex>, np: nat, a: nat, base: nat)
    requires |u| == np && base == Start(a, np) && base + np <= |V|
    ensures Holds(u, V, 1, np, a) <==> u == V[base..base + np]
  {
    StartIs(a, np);
    UnitColumn(V[base..base + np], np);
    HoldsIsColumn(u, V, 1, np, a, base, np, 0);
  }

  lemma UnitColumn(b: seq<Complex>, np: nat)
    requires |b| == np
    ensures Start(np, 1) == np && Column(b, np, 1, 0) == b
  {
    forall t: nat ensures Start(t, 1) == t {
      StartIs(t, 1);
    }
  }
}
