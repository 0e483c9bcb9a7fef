/** Supersteps 3, 4 and 0 of a stage of examples/bspedupack/bsplu.c on all processors: the broadcasts of column
  * and row k, and the rank-1 update. */
module LuExchange {
  import opened LuMath
  import opened LuGrid
  import opened LuLocal
  import opened LuParts
  import opened LuPivot
  import opened LuScale
  import opened LuBroadcast
  import opened BroadcastRun
  import opened Puts

  /** Room for a column, and a row, on every processor. */
  ghost predicate Buffers(lks: seq<array<real>>, uks: seq<array<real>>, g: Grid) {
    && Proper(g) && |lks| == |uks| == g.M * g.N && Separate(lks) && Separate(uks)
    && (forall d :: 0 <= d < |lks| ==> lks[d].Length == Nloc(g.M, d % g.M, g.n))
    && (forall d :: 0 <= d < |uks| ==> 0 <= d / g.M < g.N && uks[d].Length == Nloc(g.N, d / g.M, g.n))
    && (forall d, d' :: 0 <= d < |lks| && 0 <= d' < |uks| ==> lks[d] != uks[d'])
  }

  /** Column k of the rows from kr1 on is copied to lk. */
  method FillColumn(a: array<seq<real>>, lk: array<real>, kr1: nat, kc: nat)
    requires kr1 <= a.Length <= kr1 + lk.Length && HasColumn(a[..], kc)
    modifies lk
    ensures forall i :: 0 <= i < a.Length - kr1 ==> lk[i] == a[..][kr1 + i][kc]
  {
    assert forall i :: 0 <= i < a.Length ==> a[i] == a[..][i];
    for i := kr1 to a.Length
      invariant forall l :: 0 <= l < i - kr1 ==> lk[l] == a[..][kr1 + l][kc]
    {
      lk[i - kr1] := a[i][kc];
    }
  }

  /** Row k from column kc1 on is copied to uk. */
  method FillRow(row: seq<real>, uk: array<real>, kc1: nat)
    requires kc1 <= |row| <= kc1 + uk.Length
    modifies uk
    ensures uk[..|row| - kc1] == row[kc1..]
  {
    for j := kc1 to |row|
      invariant forall l :: 0 <= l < j - kc1 ==> uk[l] == row[kc1 + l]
    {
      uk[j - kc1] := row[j];
    }
  }

  lemma ColumnCopied(v: seq<seq<real>>, u: seq<real>, W: Matrix, g: Grid, k: nat, s: nat, t: nat, kr1: nat, kc: nat)
    requires s < g.M && t < g.N && k < g.n && v == LocalMatrix(W, g, s, t) && HasColumn(v, kc)
    requires k == kc * g.N + t && kr1 == Nloc(g.M, s, k + 1) && kr1 <= |v| <= kr1 + |u|
    requires forall i :: 0 <= i < |v| - kr1 ==> u[i] == v[kr1 + i][kc]
    ensures StartsWith(u, ColumnAfter(W, g, s, k))
  {
    var w := ColumnAfter(W, g, s, k);
    forall i: nat | i < |w| ensures u[i] == w[i] {
      EntryOfPart(v, W, g, k, s, t, kr1 + i, kc);
    }
  }

  /** The copy on P(s, k % N). */
  method FillColumnOf(a: array<seq<real>>, lk: array<real>, g: Grid, k: nat, s: nat, ghost W: Matrix)
    requires s < g.M && g.N > 0 && k < g.n && k % g.N < g.N && a[..] == LocalMatrix(W, g, s, k % g.N)
    requires lk.Length == Nloc(g.M, s, g.n)
    modifies lk
    ensures StartsWith(lk[..], ColumnAfter(W, g, s, k))
  {
    var t := k % g.N;
    ColumnExists(W, g, s, k);
    var kc, kr1 := Nloc(g.N, t, k), Nloc(g.M, s, k + 1);
    MoreIndices(g.M, s, k + 1, g.n);
    ghost var v := a[..];
    FillColumn(a, lk, kr1, kc);
    ColumnCopied(v, lk[..], W, g, k, s, t, kr1, kc);
  }

  lemma RowOfPart(v: seq<seq<real>>, W: Matrix, g: Grid, s: nat, t: nat, k: nat)
    requires s < g.M && t < g.N && k < g.n && s == k % g.M && v == LocalMatrix(W, g, s, t)
    ensures Nloc(g.M, s, k) < |v| && v[Nloc(g.M, s, k)] == LocalRow(W, g, t, k)
  {
    FirstFrom(g.M, k);
    OwnerOf(g.M, g.n, k);
    var kr := Nloc(g.M, s, k);
    assert v[kr] == LocalRow(W, g, t, kr * g.M + s);
  }

  /** The copy on P(k % M, t). */
  method FillRowOf(a: array<seq<real>>, uk: array<real>, g: Grid, k: nat, t: nat, ghost W: Matrix)
    requires t < g.N && g.M > 0 && k < g.n && k % g.M < g.M && a[..] == LocalMatrix(W, g, k % g.M, t)
    requires uk.Length == Nloc(g.N, t, g.n)
    modifies uk
    ensures StartsWith(uk[..], RowAfter(W, g, t, k))
  {
    var kr, kc1 := Nloc(g.M, k % g.M, k), Nloc(g.N, t, k + 1);
    RowOfPart(a[..], W, g, k % g.M, t, k);
    MoreIndices(g.N, t, k + 1, g.n);
    assert a[kr] == a[..][kr];
    FillRow(a[kr], uk, kc1);
    ghost var n := |RowAfter(W, g, t, k)|;
    assert uk[..][..n] == uk[..n];
  }

  /** The numbers of the processors of column t. */
  ghost predicate ColumnIds(g: Grid, t: nat, ids: seq<nat>) {
    && |ids| == g.M
    && (forall s :: 0 <= s < g.M ==> ids[s] == Number(g, s, t))
    && (forall s :: 0 <= s < g.M ==> ids[s] < g.M * g.N && ids[s] % g.M == s)
    && (forall s, s' :: 0 <= s < s' < g.M ==> ids[s] != ids[s'])
  }

  lemma MakeColumnIds(g: Grid, t: nat) returns (ids: seq<nat>)
    requires Proper(g) && t < g.N
    ensures ColumnIds(g, t, ids)
  {
    forall s: nat | s < g.M ensures 0 <= Number(g, s, t) < g.M * g.N && Number(g, s, t) % g.M == s {
      NumberIs(g, s, t);
    }
    ids := seq(g.M, s requires 0 <= s < g.M => Number(g, s, t));
  }

  /** The numbers of the processors of row s. */
  ghost predicate RowIds(g: Grid, s: nat, ids: seq<nat>) {
    && |ids| == g.N
    && (forall t :: 0 <= t < g.N ==> ids[t] == Number(g, s, t))
    && (forall t :: 0 <= t < g.N ==> ids[t] < g.M * g.N && ids[t] / g.M == t)
    && (forall t, t' :: 0 <= t < t' < g.N ==> ids[t] != ids[t'])
  }

  lemma MakeRowIds(g: Grid, s: nat) returns (ids: seq<nat>)
    requires Proper(g) && s < g.M
    ensures RowIds(g, s, ids)
  {
    forall t: nat | t < g.N ensures 0 <= Number(g, s, t) < g.M * g.N && Number(g, s, t) / g.M == t {
      NumberIs(g, s, t);
    }
    ids := seq(g.N, t requires 0 <= t < g.N => Number(g, s, t));
    forall t, t' | 0 <= t < t' < g.N ensures ids[t] != ids[t'] {
      assert ids[t] / g.M == t && ids[t'] / g.M == t';
    }
  }

  method FillColumns(rows: seq<array<seq<real>>>, lks: seq<array<real>>, uks: seq<array<real>>, g: Grid, k: nat,
                     ghost W: Matrix)
    requires HoldsMatrix(rows, W, g) && Buffers(lks, uks, g) && k < g.n
    modifies lks
    ensures ColumnReady(Values(lks), W, g, k)
  {
    QuotientIsNat(k, g.N);
    var t := k % g.N;
    ghost var ids := MakeColumnIds(g, t);
    for s := 0 to g.M
      invariant forall s' :: 0 <= s' < s ==> StartsWith(lks[ids[s']][..], ColumnAfter(W, g, s', k))
    {
      var d := s + t * g.M;
      assert d == ids[s];
      RowsOf(rows, W, g, s, t);
      FillColumnOf(rows[d], lks[d], g, k, s, W);
    }
    forall s | 0 <= s < g.M ensures ColumnReadyAt(Values(lks), W, g, k, s) {
      assert ids[s] == Number(g, s, t);
    }
  }

  method FillRows(rows: seq<array<seq<real>>>, lks: seq<array<real>>, uks: seq<array<real>>, g: Grid, k: nat,
                  ghost W: Matrix)
    requires HoldsMatrix(rows, W, g) && Buffers(lks, uks, g) && k < g.n
    modifies uks
    ensures RowReady(Values(uks), W, g, k)
  {
    QuotientIsNat(k, g.M);
    var s := k % g.M;
    ghost var ids := MakeRowIds(g, s);
    for t := 0 to g.N
      invariant forall t' :: 0 <= t' < t ==> StartsWith(uks[ids[t']][..], RowAfter(W, g, t', k))
    {
      var d := s + t * g.M;
      assert d == ids[t];
      RowsOf(rows, W, g, s, t);
      FillRowOf(rows[d], uks[d], g, k, t, W);
    }
    forall t | 0 <= t < g.N ensures RowReadyAt(Values(uks), W, g, k, t) {
      assert ids[t] == Number(g, s, t);
    }
  }

  /** The copies, on all processors concerned. */
  method FillAll(rows: seq<array<seq<real>>>, lks: seq<array<real>>, uks: seq<array<real>>, g: Grid, k: nat,
                 ghost W: Matrix)
    requires HoldsMatrix(rows, W, g) && Buffers(lks, uks, g) && k < g.n
    modifies lks, uks
    ensures ColumnReady(Values(lks), W, g, k) && RowReady(Values(uks), W, g, k)
  {
    FillColumns(rows, lks, uks, g, k, W);
    ghost var ls := Values(lks);
    FillRows(rows, lks, uks, g, k, W);
    assert Values(lks) == ls;
  }

  // ----- the broadcasts -----

  /** Every processor holds what it needs of column and row k. */
  ghost predicate Spread(lks: seq<array<real>>, uks: seq<array<real>>, W: Matrix, g: Grid, k: nat)
    requires Proper(g) && k < g.n && |lks| == |uks| == g.M * g.N
    reads lks, uks
  {
    forall d :: 0 <= d < |lks| ==> SpreadAt(lks[d], uks[d], W, g, k, d)
  }

  ghost predicate SpreadAt(lk: array<real>, uk: array<real>, W: Matrix, g: Grid, k: nat, d: nat)
    requires Proper(g) && k < g.n && d < g.M * g.N
    reads lk, uk
  {
    Coordinates(g, d);
    StartsWith(lk[..], ColumnAfter(W, g, d % g.M, k)) && StartsWith(uk[..], RowAfter(W, g, d / g.M, k))
  }

  /** Both two-phase broadcasts, their phases sharing supersteps. */
  method BroadcastBoth(lks: seq<array<real>>, uks: seq<array<real>>, g: Grid, k: nat, ghost W: Matrix)
    requires Buffers(lks, uks, g) && k < g.n
    requires ColumnReady(Values(lks), W, g, k) && RowReady(Values(uks), W, g, k)
    modifies lks, uks
    ensures Spread(lks, uks, W, g, k)
  {
    ghost var ls, us := Values(lks), Values(uks);
    var columns, rows := ColumnGroups(g, k), RowGroups(g, k);
    GroupsFit(g, k, ls, us);
    FirstPhase(lks, columns, ls);
    assert Values(uks) == us;
    FirstPhase(uks, rows, us);
    SecondPhase(lks, columns, ls);
    SecondPhase(uks, rows, us);
    forall d | 0 <= d < |lks| ensures SpreadAt(lks[d], uks[d], W, g, k, d) {
      ColumnArrives(W, g, k, ls, d);
      RowArrives(W, g, k, us, d);
    }
  }

  /** Supersteps 3 and 4. */
  method SpreadAll(rows: seq<array<seq<real>>>, lks: seq<array<real>>, uks: seq<array<real>>, g: Grid, k: nat,
                   ghost W: Matrix)
    requires HoldsMatrix(rows, W, g) && Buffers(lks, uks, g) && k < g.n
    modifies lks, uks
    ensures Spread(lks, uks, W, g, k)
  {
    FillAll(rows, lks, uks, g, k, W);
    BroadcastBoth(lks, uks, g, k, W);
  }
}
