/** Supersteps 0 and 1 of a stage of examples/bspedupack/bsplu.c: the pivot search and the division. */
module LuPivot {
  import opened LuMath
  import opened LuGrid
  import opened LuLocal
  import opened Puts

  /** What P(s, k % N) finds: local row i, or -1, and its number m in column k. */
  ghost predicate Candidate(W: Matrix, g: Grid, k: nat, s: nat, i: int, m: real)
    requires s < g.M
  {
    && (i == -1 ==> m == 0.0)
    && (i != -1 ==> Nloc(g.M, s, k) <= i < Nloc(g.M, s, g.n) && m == W(i * g.M + s, k))
    && forall l :: Nloc(g.M, s, k) <= l < Nloc(g.M, s, g.n) ==> Below(W, g, k, s, l, m)
  }

  predicate Below(W: Matrix, g: Grid, k: nat, s: nat, l: int, m: real) {
    Abs(W(l * g.M + s, k)) <= Abs(m)
  }

  /** The arrays of the rows hold the matrix. */
  ghost predicate HoldsMatrix(rows: seq<array<seq<real>>>, W: Matrix, g: Grid)
    reads rows
  {
    Proper(g) && Contents(rows, Parts(W, g))
  }

  lemma RowsOf(rows: seq<array<seq<real>>>, W: Matrix, g: Grid, s: nat, t: nat)
    requires HoldsMatrix(rows, W, g) && s < g.M && t < g.N
    ensures 0 <= Number(g, s, t) < |rows| == g.M * g.N
    ensures rows[Number(g, s, t)][..] == LocalMatrix(W, g, s, t)
  {
    NumberIs(g, s, t);
    assert rows[Number(g, s, t)][..] == Parts(W, g)[Number(g, s, t)];
  }

  lemma EntryOfPart(v: seq<seq<real>>, W: Matrix, g: Grid, k: int, s: nat, t: nat, l: nat, kc: nat)
    requires s < g.M && t < g.N && v == LocalMatrix(W, g, s, t) && l < |v|
    requires k == kc * g.N + t && kc < |v[l]|
    ensures v[l][kc] == W(l * g.M + s, k)
  {
    assert v[l] == LocalRow(W, g, t, l * g.M + s);
  }

  lemma SearchIsCandidate(v: seq<seq<real>>, W: Matrix, g: Grid, k: nat, s: nat, t: nat, kr: nat, kc: nat, i: int,
                          m: real)
    requires s < g.M && t < g.N && k < g.n && v == LocalMatrix(W, g, s, t)
    requires kr == Nloc(g.M, s, k) && k == kc * g.N + t && HasColumn(v, kc)
    requires (i == -1 ==> m == 0.0) && (i != -1 ==> kr <= i < |v| && m == v[i][kc])
    requires forall l :: kr <= l < |v| ==> Abs(v[l][kc]) <= Abs(m)
    ensures Candidate(W, g, k, s, i, m)
  {
    forall l | kr <= l < |v| ensures Below(W, g, k, s, l, m) {
      EntryOfPart(v, W, g, k, s, t, l, kc);
      assert Abs(v[l][kc]) <= Abs(m);
    }
    if i != -1 { EntryOfPart(v, W, g, k, s, t, i, kc); }
  }

  lemma ColumnExists(W: Matrix, g: Grid, s: nat, k: nat)
    requires s < g.M && g.N > 0 && k < g.n
    ensures k % g.N < g.N && Nloc(g.N, k % g.N, k) == k / g.N >= 0 && k == k / g.N * g.N + k % g.N
    ensures HasColumn(LocalMatrix(W, g, s, k % g.N), k / g.N)
  {
    FirstFrom(g.N, k);
    OwnerOf(g.N, g.n, k);
  }

  /** The search of one processor. */
  method SearchOne(rows: seq<array<seq<real>>>, g: Grid, k: nat, s: nat, ghost W: Matrix) returns (i: int, m: real)
    requires HoldsMatrix(rows, W, g) && k < g.n && s < g.M
    ensures Candidate(W, g, k, s, i, m)
  {
    var t := k % g.N;
    ColumnExists(W, g, s, k);
    RowsOf(rows, W, g, s, t);
    var a := rows[s + t * g.M];
    var kr, kc := Nloc(g.M, s, k), Nloc(g.N, t, k);
    i, m := SearchColumn(a, kr, kc);
    ghost var v := a[..];
    assert forall l :: 0 <= l < a.Length ==> a[l] == v[l];
    SearchIsCandidate(v, W, g, k, s, t, kr, kc, i, m);
  }

  // ----- the choice among the candidates -----

  /** The first of the m greatest absolute values, as each processor of the column determines it. */
  function Best(ms: seq<real>, m: nat): (b: (int, real))
    requires m <= |ms|
  {
    if m == 0 then (-1, 0.0)
    else
      var b := Best(ms, m - 1);
      if Abs(ms[m - 1]) > b.1 then (m - 1, Abs(ms[m - 1])) else b
  }

  lemma {:induction false} BestIs(ms: seq<real>, m: nat)
    requires m <= |ms|
    ensures var b := Best(ms, m);
            (b.0 == -1 ==> b.1 == 0.0) && (b.0 != -1 ==> 0 <= b.0 < m && b.1 == Abs(ms[b.0]))
            && forall s :: 0 <= s < m ==> Abs(ms[s]) <= b.1
  {
    if m > 0 { BestIs(ms, m - 1); }
  }

  /** The redundant search through Max. */
  method PickMax(max: array<real>, m: nat) returns (smax: int, absmax: real)
    requires max.Length == m
    ensures (smax, absmax) == Best(max[..], m)
  {
    absmax := 0.0;
    smax := -1;
    for s1 := 0 to m
      invariant (smax, absmax) == Best(max[..], s1)
    {
      if Abs(max[s1]) > absmax {
        absmax := Abs(max[s1]);
        smax := s1;
      }
    }
  }

  /** The best candidate is the pivot. */
  lemma BestIsPivot(W: Matrix, g: Grid, k: nat, ix: seq<int>, ms: seq<real>, smax: int, absmax: real)
    requires Proper(g) && k < g.n && |ix| == |ms| == g.M && (smax, absmax) == Best(ms, g.M) && absmax > 0.0
    requires forall s :: 0 <= s < g.M ==> Candidate(W, g, k, s, ix[s], ms[s])
    ensures 0 <= smax < g.M && ix[smax] >= 0
    ensures var r := ix[smax] * g.M + smax;
            IsPivot(W, g.n, k, r) && ms[smax] == W(r, k) && Abs(W(r, k)) == absmax
            && r % g.M == smax && r / g.M == ix[smax]
  {
    BestIs(ms, g.M);
    assert Candidate(W, g, k, smax, ix[smax], ms[smax]);
    var r := ix[smax] * g.M + smax;
    LocalIndex(g.M, smax, k, ix[smax]);
    LocalIndex(g.M, smax, g.n, ix[smax]);
    IndexIs(g.M, smax, ix[smax], r);
    forall x: nat | k <= x < g.n ensures Abs(W(x, k)) <= Abs(W(r, k)) {
      var s, l := x % g.M, x / g.M;
      OwnerOf(g.M, g.n, x);
      LocalIndex(g.M, s, k, l);
      assert Candidate(W, g, k, s, ix[s], ms[s]);
      assert Below(W, g, k, s, l, ms[s]);
    }
  }

  /** All candidates below any bound: the whole column is. */
  lemma ColumnBelow(W: Matrix, g: Grid, k: nat, ix: seq<int>, ms: seq<real>, smax: int, absmax: real)
    requires Proper(g) && k < g.n && |ix| == |ms| == g.M && (smax, absmax) == Best(ms, g.M)
    requires forall s :: 0 <= s < g.M ==> Candidate(W, g, k, s, ix[s], ms[s])
    ensures forall x: nat :: k <= x < g.n ==> Abs(W(x, k)) <= absmax
  {
    BestIs(ms, g.M);
    forall x: nat | k <= x < g.n ensures Abs(W(x, k)) <= absmax {
      var s, l := x % g.M, x / g.M;
      OwnerOf(g.M, g.n, x);
      LocalIndex(g.M, s, k, l);
      assert Candidate(W, g, k, s, ix[s], ms[s]);
      assert Below(W, g, k, s, l, ms[s]);
    }
  }

  /** The searches of all processors of the column of k. */
  method SearchAll(rows: seq<array<seq<real>>>, g: Grid, k: nat, ghost W: Matrix) returns (ix: seq<int>, ms: seq<real>)
    requires HoldsMatrix(rows, W, g) && k < g.n
    ensures |ix| == |ms| == g.M
    ensures forall s :: 0 <= s < g.M ==> Candidate(W, g, k, s, ix[s], ms[s])
  {
    ix, ms := [], [];
    for s := 0 to g.M
      invariant |ix| == |ms| == s
      invariant forall s' :: 0 <= s' < s ==> Candidate(W, g, k, s', ix[s'], ms[s'])
    {
      var i, m := SearchOne(rows, g, k, s, W);
      ix, ms := ix + [i], ms + [m];
    }
  }
}
