/** The cyclic distribution of an n by n matrix over M by N processors (examples/bspedupack/bsplu.c):
  * processor P(s,t), numbered s + t M, holds the entries (i M + s, j N + t). */
module LuGrid {
  import opened Arithmetic
  import opened Distributions
  import opened LuMath

  datatype Grid = Grid(M: nat, N: nat, n: nat)

  predicate Proper(g: Grid) {
    g.M > 0 && g.N > 0
  }

  /** The number of components of processor s of a vector of length n over p processors. */
  function Nloc(p: nat, s: nat, n: nat): (c: nat)
    requires s < p
  {
    QuotientNat(n + p - s - 1, p);
    (n + p - s - 1) / p
  }

  /** A processor holds component i exactly if its global index is below n. */
  lemma LocalIndex(p: nat, s: nat, n: nat, i: nat)
    requires s < p
    ensures i < Nloc(p, s, n) <==> i * p + s < n
  {
    var c, x := Nloc(p, s, n), n + p - s - 1;
    var r := x % p;
    assert x == c * p + r;
    if i < c {
      MulMonotone(i + 1, c, p);
      assert (i + 1) * p == i * p + p;
    } else {
      MulMonotone(c, i, p);
    }
  }

  /** Global index x belongs to processor x % p as component x / p. */
  lemma OwnerOf(p: nat, n: nat, x: nat)
    requires p > 0 && x < n
    ensures 0 <= x % p < p && 0 <= x / p < Nloc(p, x % p, n) && x / p * p + x % p == x
  {
    QuotientNat(x, p);
    LocalIndex(p, x % p, n, x / p);
  }

  lemma IndexIs(p: nat, s: nat, i: nat, x: int)
    requires s < p && x == i * p + s
    ensures x % p == s && x / p == i && x >= 0
  {
    MulMonotone(0, i, p);
    DivModUnique(x, p, i, s);
  }

  /** On the processor of column k, the first local column at or after k is k's own. */
  lemma FirstFrom(p: nat, k: nat)
    requires p > 0
    ensures k % p < p && Nloc(p, k % p, k) == k / p && Nloc(p, k % p, k + 1) == k / p + 1
  {
    var q, s := k / p, k % p;
    QuotientNat(k, p);
    assert k == q * p + s;
    DivModUnique(k + p - s - 1, p, q, p - 1);
    assert k + 1 + p - s - 1 == (q + 1) * p by { assert (q + 1) * p == q * p + p; }
    DivModUnique(k + 1 + p - s - 1, p, q + 1, 0);
  }

  // ----- processor numbers -----

  function Number(g: Grid, s: int, t: int): int {
    s + t * g.M
  }

  lemma NumberIs(g: Grid, s: nat, t: nat)
    requires Proper(g) && s < g.M && t < g.N
    ensures 0 <= Number(g, s, t) < g.M * g.N && Number(g, s, t) % g.M == s && Number(g, s, t) / g.M == t
  {
    RowBound(t, g.N, g.M, s);
    DivModUnique(Number(g, s, t), g.M, t, s);
  }

  lemma Coordinates(g: Grid, d: nat)
    requires Proper(g) && d < g.M * g.N
    ensures 0 <= d % g.M < g.M && 0 <= d / g.M < g.N && Number(g, d % g.M, d / g.M) == d
  {
    QuotientBelow(d, g.M, g.N);
  }

  // ----- the local parts of a matrix -----

  function LocalRow(W: Matrix, g: Grid, t: nat, x: int): (r: seq<real>)
    requires t < g.N
    ensures |r| == Nloc(g.N, t, g.n)
  {
    seq(Nloc(g.N, t, g.n), j requires 0 <= j < Nloc(g.N, t, g.n) => W(x, j * g.N + t))
  }

  function LocalMatrix(W: Matrix, g: Grid, s: nat, t: nat): (v: seq<seq<real>>)
    requires s < g.M && t < g.N
    ensures |v| == Nloc(g.M, s, g.n)
  {
    seq(Nloc(g.M, s, g.n), i requires 0 <= i < Nloc(g.M, s, g.n) => LocalRow(W, g, t, i * g.M + s))
  }

  function Part(W: Matrix, g: Grid, d: nat): (v: seq<seq<real>>)
    requires Proper(g) && d < g.M * g.N
  {
    Coordinates(g, d);
    LocalMatrix(W, g, d % g.M, d / g.M)
  }

  /** The matrix distributed over all processors. */
  function Parts(W: Matrix, g: Grid): (vs: seq<seq<seq<real>>>)
    requires Proper(g)
    ensures |vs| == g.M * g.N
  {
    seq(g.M * g.N, d requires 0 <= d < g.M * g.N => Part(W, g, d))
  }
}
