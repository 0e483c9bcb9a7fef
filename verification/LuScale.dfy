/** The division of column k in superstep 1 of examples/bspedupack/bsplu.c, on all processors. */
module LuScale {
  import opened LuMath
  import opened LuGrid
  import opened LuLocal
  import opened LuParts
  import opened LuPivot

  /** Distinct arrays, one per processor. */
  ghost predicate Separate<T>(xs: seq<array<T>>) {
    forall d, d' :: 0 <= d < d' < |xs| ==> xs[d] != xs[d']
  }

  /** The local part of P(s,t), divided, is its part of the divided matrix. */
  lemma ScaledLocal(W: Matrix, g: Grid, s: nat, t: nat, k: nat, r: nat, pivot: real, keep: int,
                    v: seq<seq<real>>, v': seq<seq<real>>, kr: nat, kc: nat)
    requires s < g.M && t < g.N && t == k % g.N && k <= r < g.n && pivot == W(r, k) != 0.0
    requires keep == (if r % g.M == s then r / g.M else -1) && kr == Nloc(g.M, s, k) && kc == Nloc(g.N, t, k)
    requires v == LocalMatrix(W, g, s, t) && |v'| == |v| && HasColumn(v, kc)
    requires forall i :: 0 <= i < |v| ==> v'[i] == ScaledRow(v[i], i, kr, kc, keep, pivot)
    ensures v' == LocalMatrix(Scaled(W, k, r, pivot), g, s, t)
  {
    var u := LocalMatrix(Scaled(W, k, r, pivot), g, s, t);
    forall i: nat | i < |v| ensures v'[i] == u[i] {
      ScaledPart(W, g, s, t, k, r, pivot, i, kr, kc, keep);
    }
  }

  /** The parts in the other processor columns do not change. */
  lemma ScaledElsewhere(W: Matrix, g: Grid, s: nat, t: nat, k: nat, r: nat, pivot: real)
    requires s < g.M && t < g.N && t != k % g.N && k <= r < g.n && pivot == W(r, k) != 0.0
    ensures LocalMatrix(Scaled(W, k, r, pivot), g, s, t) == LocalMatrix(W, g, s, t)
  {
    var u, v := LocalMatrix(Scaled(W, k, r, pivot), g, s, t), LocalMatrix(W, g, s, t);
    forall i: nat | i < |v| ensures u[i] == v[i] {
      ScaledPart(W, g, s, t, k, r, pivot, i, Nloc(g.M, s, k), Nloc(g.N, t, k),
                 if r % g.M == s then r / g.M else -1);
    }
  }

  /** The division on P(s, k % N). */
  method ScaleOne(a: array<seq<real>>, g: Grid, s: nat, t: nat, k: nat, pivot: real, keep: int,
                  ghost W: Matrix, ghost r: nat)
    requires s < g.M && t < g.N && t == k % g.N && k <= r < g.n && pivot == W(r, k) != 0.0
    requires keep == if r % g.M == s then r / g.M else -1
    requires a[..] == LocalMatrix(W, g, s, t)
    modifies a
    ensures a[..] == LocalMatrix(Scaled(W, k, r, pivot), g, s, t)
  {
    ColumnExists(W, g, s, k);
    var kr, kc := Nloc(g.M, s, k), Nloc(g.N, t, k);
    ghost var v := a[..];
    if keep != -1 {
      OwnerOf(g.M, g.n, r);
      LocalIndex(g.M, s, k, r / g.M);
    }
    ScaleColumn(a, kr, kc, pivot, keep);
    ScaledLocal(W, g, s, t, k, r, pivot, keep, v, a[..], kr, kc);
  }

  /** The part of processor d when the first s processors of column t have moved from W to W2. */
  ghost function Moving(W: Matrix, W2: Matrix, g: Grid, t: nat, s: nat, d: nat): seq<seq<real>>
    requires Proper(g) && d < g.M * g.N
  {
    if d / g.M == t && d % g.M < s then Part(W2, g, d) else Part(W, g, d)
  }

  lemma MovingStep(W: Matrix, W2: Matrix, g: Grid, t: nat, s: nat, d: nat, next: nat)
    requires Proper(g) && d < g.M * g.N && s < g.M && t < g.N && next == Number(g, s, t) < g.M * g.N
    ensures Moving(W, W2, g, t, s + 1, d) == if d == next then Part(W2, g, d) else Moving(W, W2, g, t, s, d)
    ensures Moving(W, W2, g, t, s, next) == Part(W, g, next)
  {
    NumberIs(g, s, t);
    Coordinates(g, d);
  }

  /** The division on all processors of the column. */
  method ScaleAll(rows: seq<array<seq<real>>>, g: Grid, k: nat, r: nat, pivot: real, smax: int, ix: seq<int>,
                  ghost W: Matrix)
    requires HoldsMatrix(rows, W, g) && Separate(rows) && k <= r < g.n && pivot == W(r, k) != 0.0
    requires |ix| == g.M && 0 <= smax < g.M && smax == r % g.M && ix[smax] == r / g.M
    modifies rows
    ensures HoldsMatrix(rows, Scaled(W, k, r, pivot), g)
  {
    var t := k % g.N;
    ghost var W2 := Scaled(W, k, r, pivot);
    for s := 0 to g.M
      invariant forall d :: 0 <= d < |rows| ==> rows[d][..] == Moving(W, W2, g, t, s, d)
    {
      NumberIs(g, s, t);
      var d := s + t * g.M;
      MovingStep(W, W2, g, t, s, d, d);
      ScaleOne(rows[d], g, s, t, k, pivot, if s == smax then ix[s] else -1, W, r);
      forall d' | 0 <= d' < |rows| ensures rows[d'][..] == Moving(W, W2, g, t, s + 1, d') {
        MovingStep(W, W2, g, t, s, d', d);
      }
    }
    forall d | 0 <= d < |rows| ensures rows[d][..] == Parts(W2, g)[d] {
      Coordinates(g, d);
      if d / g.M != t { ScaledElsewhere(W, g, d % g.M, d / g.M, k, r, pivot); }
    }
  }
}
