/** What the stages on the whole matrix are on each processor's part of it. */
module LuParts {
  import opened LuMath
  import opened LuGrid
  import opened LuLocal

  /** Local column j of processor column t is column k only if it is the first one at or after k. */
  lemma ColumnIs(g: Grid, t: nat, k: nat, j: nat)
    requires t < g.N
    ensures j < Nloc(g.N, t, k) <==> j * g.N + t < k
    ensures t == k % g.N ==> (j == Nloc(g.N, t, k) <==> j * g.N + t == k)
    ensures t != k % g.N ==> j * g.N + t != k
  {
    LocalIndex(g.N, t, k, j);
    IndexIs(g.N, t, j, j * g.N + t);
    if t == k % g.N {
      FirstFrom(g.N, k);
      assert k == k / g.N * g.N + t;
    }
  }

  /** The division of the column, seen in row i of P(s,t). */
  lemma ScaledPart(W: Matrix, g: Grid, s: nat, t: nat, k: nat, r: nat, pivot: real, i: nat,
                   kr: nat, kc: nat, keep: int)
    requires s < g.M && t < g.N && k <= r < g.n && pivot == W(r, k) != 0.0 && i < Nloc(g.M, s, g.n)
    requires kr == Nloc(g.M, s, k) && kc == Nloc(g.N, t, k) && keep == (if r % g.M == s then r / g.M else -1)
    ensures t != k % g.N ==>
      LocalRow(Scaled(W, k, r, pivot), g, t, i * g.M + s) == LocalRow(W, g, t, i * g.M + s)
    ensures t == k % g.N ==> kc < Nloc(g.N, t, g.n)
    ensures t == k % g.N ==>
      LocalRow(Scaled(W, k, r, pivot), g, t, i * g.M + s)
      == ScaledRow(LocalRow(W, g, t, i * g.M + s), i, kr, kc, keep, pivot)
  {
    var x := i * g.M + s;
    var S := Scaled(W, k, r, pivot);
    LocalIndex(g.M, s, k, i);
    IndexIs(g.M, s, i, x);
    assert x == r <==> i == keep by { OwnerOf(g.M, g.n, r); }
    forall j: nat | j < Nloc(g.N, t, g.n)
      ensures LocalRow(S, g, t, x)[j] == if j * g.N + t == k && i >= kr && i != keep then W(x, k) / pivot
                                         else W(x, j * g.N + t)
    {
      assert S(x, j * g.N + t) == LocalRow(S, g, t, x)[j];
    }
    if t == k % g.N {
      FirstFrom(g.N, k);
      OwnerOf(g.N, g.n, k);
      forall j: nat | j < Nloc(g.N, t, g.n)
        ensures LocalRow(S, g, t, x)[j] == ScaledRow(LocalRow(W, g, t, x), i, kr, kc, keep, pivot)[j]
      {
        ColumnIs(g, t, k, j);
        ColumnIs(g, t, k, kc);
      }
    } else {
      forall j: nat | j < Nloc(g.N, t, g.n) ensures LocalRow(S, g, t, x)[j] == LocalRow(W, g, t, x)[j] {
        ColumnIs(g, t, k, j);
      }
    }
  }

  /** Rows of the swapped matrix are rows of the matrix. */
  lemma SwappedPart(W: Matrix, g: Grid, t: nat, k: nat, r: nat, x: int)
    requires t < g.N
    ensures LocalRow(Swapped(W, k, r), g, t, x) == LocalRow(W, g, t, Other(k, r, x))
  {
    var a, b := LocalRow(Swapped(W, k, r), g, t, x), LocalRow(W, g, t, Other(k, r, x));
    forall j: nat | j < |a| ensures a[j] == b[j] {
      assert Swapped(W, k, r)(x, j * g.N + t) == W(Other(k, r, x), j * g.N + t);
    }
  }

  /** The part of row k after column k that processor column t holds. */
  function RowAfter(W: Matrix, g: Grid, t: nat, k: nat): (u: seq<real>)
    requires t < g.N && k < g.n
    ensures Nloc(g.N, t, k + 1) + |u| == Nloc(g.N, t, g.n)
  {
    MoreIndices(g.N, t, k + 1, g.n);
    LocalRow(W, g, t, k)[Nloc(g.N, t, k + 1)..]
  }

  lemma MoreIndices(p: nat, s: nat, k: nat, n: nat)
    requires s < p && k <= n
    ensures Nloc(p, s, k) <= Nloc(p, s, n)
  {
    var c := Nloc(p, s, k);
    if c > 0 {
      LocalIndex(p, s, k, c - 1);
      LocalIndex(p, s, n, c - 1);
    }
  }

  lemma RowAfterAt(W: Matrix, g: Grid, t: nat, k: nat, j: nat, kc1: nat)
    requires t < g.N && k < g.n && kc1 == Nloc(g.N, t, k + 1) && j < Nloc(g.N, t, g.n)
    ensures j < kc1 <==> j * g.N + t <= k
    ensures kc1 <= j ==> RowAfter(W, g, t, k)[j - kc1] == W(k, j * g.N + t)
  {
    LocalIndex(g.N, t, k + 1, j);
  }

  lemma UpdatedEntry(W: Matrix, g: Grid, t: nat, k: nat, x: nat, kc1: nat, j: nat, l: real, a: real, b: real)
    requires t < g.N && k < g.n && kc1 == Nloc(g.N, t, k + 1) && j < Nloc(g.N, t, g.n)
    requires l == W(x, k) && a == W(x, j * g.N + t) && (kc1 <= j ==> b == RowAfter(W, g, t, k)[j - kc1])
    ensures LocalRow(Eliminated(W, k), g, t, x)[j] == if x <= k || j < kc1 then a else a - l * b
  {
    RowAfterAt(W, g, t, k, j, kc1);
    var y := j * g.N + t;
    assert LocalRow(Eliminated(W, k), g, t, x)[j] == Eliminated(W, k)(x, y);
  }

  lemma UpdatedRowEntry(W: Matrix, g: Grid, t: nat, k: nat, x: nat, kc1: nat, j: nat, l: real, row: seq<real>,
                        u: seq<real>, e: real)
    requires t < g.N && k < g.n && kc1 == Nloc(g.N, t, k + 1) && j < Nloc(g.N, t, g.n)
    requires l == W(x, k) && row == LocalRow(W, g, t, x) && u == RowAfter(W, g, t, k)
    requires e == LocalRow(Eliminated(W, k), g, t, x)[j]
    ensures x <= k ==> e == row[j]
    ensures x > k ==> e == UpdatedRow(row, l, u, kc1)[j]
  {
    var b := if kc1 <= j then u[j - kc1] else 0.0;
    UpdatedEntry(W, g, t, k, x, kc1, j, l, row[j], b);
  }

  /** The update, seen in global row x of processor column t. */
  lemma UpdatedPart(W: Matrix, g: Grid, t: nat, k: nat, x: nat, kc1: nat, l: real, row: seq<real>, u: seq<real>,
                    E: seq<real>)
    requires t < g.N && k < g.n && kc1 == Nloc(g.N, t, k + 1)
    requires l == W(x, k) && row == LocalRow(W, g, t, x) && u == RowAfter(W, g, t, k)
    requires E == LocalRow(Eliminated(W, k), g, t, x)
    ensures E == if x <= k then row else UpdatedRow(row, l, u, kc1)
  {
    var v := if x <= k then row else UpdatedRow(row, l, u, kc1);
    forall j: nat | j < |E| ensures E[j] == v[j] {
      UpdatedRowEntry(W, g, t, k, x, kc1, j, l, row, u, E[j]);
    }
  }
}
