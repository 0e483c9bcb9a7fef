/** Supersteps 3 and 4 of a stage of examples/bspedupack/bsplu.c: column k and row k of the matrix reach all
  * processors that need them, by two-phase broadcasts. */
module LuBroadcast {
  import opened LuMath
  import opened LuGrid
  import opened LuParts
  import opened Broadcast
  import opened BroadcastRun

  /** The part of column k below the diagonal that processor row s holds. */
  function ColumnAfter(W: Matrix, g: Grid, s: nat, k: nat): (l: seq<real>)
    requires s < g.M && k < g.n
    ensures Nloc(g.M, s, k + 1) + |l| == Nloc(g.M, s, g.n)
  {
    MoreIndices(g.M, s, k + 1, g.n);
    var kr1 := Nloc(g.M, s, k + 1);
    seq(Nloc(g.M, s, g.n) - kr1, i requires 0 <= i < Nloc(g.M, s, g.n) - kr1 => W((kr1 + i) * g.M + s, k))
  }

  // ----- the groups -----

  /** The processors P(s,*), with the source in the column of k. */
  function ColumnGroup(g: Grid, k: nat, d: nat): Group
    requires Proper(g) && k < g.n && d < g.M * g.N
  {
    Coordinates(g, d);
    var s := d % g.M;
    MoreIndices(g.M, s, k + 1, g.n);
    QuotientIsNat(k, g.N);
    NumberIs(g, s, k % g.N);
    Group(Nloc(g.M, s, g.n) - Nloc(g.M, s, k + 1), s + k % g.N * g.M, s, g.M, g.N)
  }

  /** The processors P(*,t), with the source in the row of k. */
  function RowGroup(g: Grid, k: nat, d: nat): Group
    requires Proper(g) && k < g.n && d < g.M * g.N
  {
    Coordinates(g, d);
    var t := d / g.M;
    MoreIndices(g.N, t, k + 1, g.n);
    QuotientIsNat(k, g.M);
    NumberIs(g, k % g.M, t);
    NumberIs(g, 0, t);
    Group(Nloc(g.N, t, g.n) - Nloc(g.N, t, k + 1), k % g.M + t * g.M, t * g.M, 1, g.M)
  }

  lemma QuotientIsNat(k: nat, p: nat)
    requires p > 0
    ensures 0 <= k % p < p
  {
  }

  function ColumnGroups(g: Grid, k: nat): (gs: seq<Group>)
    requires Proper(g) && k < g.n
    ensures |gs| == g.M * g.N
  {
    seq(g.M * g.N, d requires 0 <= d < g.M * g.N => ColumnGroup(g, k, d))
  }

  function RowGroups(g: Grid, k: nat): (gs: seq<Group>)
    requires Proper(g) && k < g.n
    ensures |gs| == g.M * g.N
  {
    seq(g.M * g.N, d requires 0 <= d < g.M * g.N => RowGroup(g, k, d))
  }

  ghost predicate ColumnSized(vs: seq<seq<real>>, g: Grid)
  {
    Proper(g) && |vs| == g.M * g.N && forall d :: 0 <= d < |vs| ==> |vs[d]| == Nloc(g.M, d % g.M, g.n)
  }

  ghost predicate RowSized(vs: seq<seq<real>>, g: Grid)
  {
    Proper(g) && |vs| == g.M * g.N
    && forall d :: 0 <= d < |vs| ==> 0 <= d / g.M < g.N && |vs[d]| == Nloc(g.N, d / g.M, g.n)
  }

  /** Each P(s,*) is a group. */
  lemma ColumnGroupFits(g: Grid, k: nat, vs: seq<seq<real>>, d: nat)
    requires ColumnSized(vs, g) && k < g.n && d < g.M * g.N
    ensures WellFormed(ColumnGroups(g, k), vs, d) && InGroup(ColumnGroup(g, k, d), d)
  {
    Coordinates(g, d);
    var s, G := d % g.M, ColumnGroup(g, k, d);
    MembersAreInGroup(G, k % g.N);
    MembersAreInGroup(G, d / g.M);
    forall t | 0 <= t < G.p0 ensures MemberAgrees(ColumnGroups(g, k), vs, G, t) {
      NumberIs(g, s, t);
    }
  }

  lemma RowGroupFits(g: Grid, k: nat, vs: seq<seq<real>>, d: nat)
    requires RowSized(vs, g) && k < g.n && d < g.M * g.N
    ensures WellFormed(RowGroups(g, k), vs, d) && InGroup(RowGroup(g, k, d), d)
  {
    Coordinates(g, d);
    var t, G := d / g.M, RowGroup(g, k, d);
    MembersAreInGroup(G, k % g.M);
    MembersAreInGroup(G, d % g.M);
    forall s | 0 <= s < G.p0 ensures MemberAgrees(RowGroups(g, k), vs, G, s) {
      NumberIs(g, s, t);
    }
  }

  lemma GroupsFit(g: Grid, k: nat, ls: seq<seq<real>>, us: seq<seq<real>>)
    requires ColumnSized(ls, g) && RowSized(us, g) && k < g.n
    ensures Consistent(ColumnGroups(g, k), ls) && Consistent(RowGroups(g, k), us)
  {
    forall d | 0 <= d < g.M * g.N
      ensures WellFormed(ColumnGroups(g, k), ls, d) && WellFormed(RowGroups(g, k), us, d)
    {
      ColumnGroupFits(g, k, ls, d);
      RowGroupFits(g, k, us, d);
    }
  }

  // ----- what the sources send -----

  /** v starts with u. */
  predicate StartsWith(v: seq<real>, u: seq<real>) {
    |u| <= |v| && v[..|u|] == u
  }

  /** The sources hold column k. */
  ghost predicate ColumnReady(ls: seq<seq<real>>, W: Matrix, g: Grid, k: nat)
    requires Proper(g) && k < g.n && |ls| == g.M * g.N
  {
    forall s :: 0 <= s < g.M ==> ColumnReadyAt(ls, W, g, k, s)
  }

  predicate ColumnReadyAt(ls: seq<seq<real>>, W: Matrix, g: Grid, k: nat, s: nat)
    requires Proper(g) && k < g.n && |ls| == g.M * g.N && s < g.M
  {
    NumberIs(g, s, k % g.N);
    StartsWith(ls[s + k % g.N * g.M], ColumnAfter(W, g, s, k))
  }

  ghost predicate RowReady(us: seq<seq<real>>, W: Matrix, g: Grid, k: nat)
    requires Proper(g) && k < g.n && |us| == g.M * g.N
  {
    forall t :: 0 <= t < g.N ==> RowReadyAt(us, W, g, k, t)
  }

  predicate RowReadyAt(us: seq<seq<real>>, W: Matrix, g: Grid, k: nat, t: nat)
    requires Proper(g) && k < g.n && |us| == g.M * g.N && t < g.N
  {
    NumberIs(g, k % g.M, t);
    StartsWith(us[k % g.M + t * g.M], RowAfter(W, g, t, k))
  }

  /** A member of a group ends with what its source holds. */
  lemma GoalStarts(gs: seq<Group>, vs: seq<seq<real>>, d: nat, u: seq<real>)
    requires Consistent(gs, vs) && d < |gs| && InGroup(gs[d], d) && |u| == gs[d].n
    requires gs[d].src < |vs| && StartsWith(vs[gs[d].src], u)
    ensures StartsWith(Goal(gs, vs)[d], u)
  {
    assert Goal(gs, vs)[d] == GoalAt(gs, vs, d);
    assert Sources(gs, vs, d) == u;
  }

  /** After the broadcasts every processor holds the parts of column k and of row k that it needs. */
  lemma ColumnArrives(W: Matrix, g: Grid, k: nat, ls: seq<seq<real>>, d: nat)
    requires ColumnSized(ls, g) && k < g.n && d < g.M * g.N && ColumnReady(ls, W, g, k)
    requires Consistent(ColumnGroups(g, k), ls)
    ensures 0 <= d % g.M < g.M && StartsWith(Goal(ColumnGroups(g, k), ls)[d], ColumnAfter(W, g, d % g.M, k))
  {
    Coordinates(g, d);
    ColumnGroupFits(g, k, ls, d);
    SourceFits(ColumnGroups(g, k), ls, d);
    assert ColumnReadyAt(ls, W, g, k, d % g.M);
    GoalStarts(ColumnGroups(g, k), ls, d, ColumnAfter(W, g, d % g.M, k));
  }

  lemma RowArrives(W: Matrix, g: Grid, k: nat, us: seq<seq<real>>, d: nat)
    requires RowSized(us, g) && k < g.n && d < g.M * g.N && RowReady(us, W, g, k)
    requires Consistent(RowGroups(g, k), us)
    ensures 0 <= d / g.M < g.N && StartsWith(Goal(RowGroups(g, k), us)[d], RowAfter(W, g, d / g.M, k))
  {
    Coordinates(g, d);
    RowGroupFits(g, k, us, d);
    SourceFits(RowGroups(g, k), us, d);
    assert RowReadyAt(us, W, g, k, d / g.M);
    GoalStarts(RowGroups(g, k), us, d, RowAfter(W, g, d / g.M, k));
  }
}
