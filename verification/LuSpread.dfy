/** The puts of single values in supersteps 0 and 1 of examples/bspedupack/bsplu.c: along a column of
  * processors, and along all rows. */
module LuSpread {
  import opened LuGrid
  import opened Puts

  /** Every array of processor column t becomes ms; the others stay. */
  ghost function ColumnGoal<T>(g: Grid, t: nat, ms: seq<T>, vs: seq<seq<T>>): (goal: seq<seq<T>>)
    requires Proper(g)
    ensures |goal| == |vs|
  {
    seq(|vs|, d requires 0 <= d < |vs| => if d / g.M == t then ms else vs[d])
  }

  ghost predicate Sized<T>(xs: seq<array<T>>, g: Grid, size: nat) {
    && |xs| == g.M * g.N
    && (forall d :: 0 <= d < |xs| ==> xs[d].Length == size)
    && (forall d, d' :: 0 <= d < d' < |xs| ==> xs[d] != xs[d'])
  }

  /** The put of value number s to processor P(s1,t). */
  ghost predicate Reaches<T>(puts: seq<Put<T>>, g: Grid, s: int, s1: int, t: int) {
    Sent(puts, Number(g, s1, t), s)
  }

  lemma ReachesMore<T>(puts: seq<Put<T>>, put: Put<T>, g: Grid, s: int, s1: int, t: int)
    requires Reaches(puts, g, s, s1, t) || Covers(put, Number(g, s1, t), s)
    ensures Reaches(puts + [put], g, s, s1, t)
  {
    if Covers(put, Number(g, s1, t), s) {
      assert Covers([put][0], Number(g, s1, t), s);
      assert Sent([put], Number(g, s1, t), s);
    }
    MoreSent(puts, [put], Number(g, s1, t), s);
  }

  /** Processor P(s,t) puts its value to all P(s1,t), as number s. */
  method IssueColumn<T>(g: Grid, t: nat, s: nat, m: T, ghost ms: seq<T>, ghost vs: seq<seq<T>>)
    returns (puts: seq<Put<T>>)
    requires Proper(g) && t < g.N && s < g.M == |ms| && ms[s] == m && |vs| == g.M * g.N
    ensures AllTruthful(puts, ColumnGoal(g, t, ms, vs))
    ensures forall s1 :: 0 <= s1 < g.M ==> Reaches(puts, g, s, s1, t)
  {
    puts := [];
    for s1 := 0 to g.M
      invariant AllTruthful(puts, ColumnGoal(g, t, ms, vs))
      invariant forall s' :: 0 <= s' < s1 ==> Reaches(puts, g, s, s', t)
    {
      NumberIs(g, s1, t);
      var put := Put(s1 + t * g.M, s, [m]);
      forall s' | 0 <= s' < s1 + 1 ensures Reaches(puts + [put], g, s, s', t) {
        ReachesMore(puts, put, g, s, s', t);
      }
      puts := puts + [put];
    }
  }

  method IssueAll<T>(g: Grid, t: nat, ms: seq<T>, ghost vs: seq<seq<T>>) returns (puts: seq<Put<T>>)
    requires Proper(g) && t < g.N && |ms| == g.M && |vs| == g.M * g.N
    ensures AllTruthful(puts, ColumnGoal(g, t, ms, vs))
    ensures forall s, s1 :: 0 <= s < g.M && 0 <= s1 < g.M ==> Reaches(puts, g, s, s1, t)
  {
    puts := [];
    for s := 0 to g.M
      invariant AllTruthful(puts, ColumnGoal(g, t, ms, vs))
      invariant forall s', s1 :: 0 <= s' < s && 0 <= s1 < g.M ==> Reaches(puts, g, s', s1, t)
    {
      var more := IssueColumn(g, t, s, ms[s], ms, vs);
      MoreTruthful(puts, more, ColumnGoal(g, t, ms, vs));
      forall s', s1 | 0 <= s' < s + 1 && 0 <= s1 < g.M ensures Reaches(puts + more, g, s', s1, t) {
        assert Reaches(puts, g, s', s1, t) || Reaches(more, g, s', s1, t);
        MoreSent(puts, more, Number(g, s1, t), s');
      }
      puts := puts + more;
    }
  }

  /** Every processor of column t ends with all M values. */
  method SpreadColumn<T>(xs: seq<array<T>>, g: Grid, t: nat, ms: seq<T>, ghost vs: seq<seq<T>>)
    requires Proper(g) && t < g.N && |ms| == g.M && Sized(xs, g, g.M) && Contents(xs, vs)
    modifies xs
    ensures Contents(xs, ColumnGoal(g, t, ms, vs))
  {
    var puts := IssueAll(g, t, ms, vs);
    ghost var goal := ColumnGoal(g, t, ms, vs);
    forall d, i | 0 <= d < |xs| && 0 <= i < xs[d].Length ensures Right(xs, goal, d, i) || Sent(puts, d, i) {
      Coordinates(g, d);
      if d / g.M == t {
        assert Reaches(puts, g, i, d % g.M, t);
      } else {
        assert xs[d][..][i] == vs[d][i];
      }
    }
    Sync(xs, puts, goal);
  }

  // ----- the index of the pivot row, to everybody -----

  ghost function Everywhere<T>(count: nat, r: T): (goal: seq<seq<T>>)
    ensures |goal| == count && forall d :: 0 <= d < count ==> goal[d] == [r]
  {
    seq(count, d => [r])
  }

  /** Processors P(s,t) put r to P(s,t1) for all t1. */
  method SpreadRows<T>(xs: seq<array<T>>, g: Grid, r: T)
    requires Proper(g) && Sized(xs, g, 1)
    modifies xs
    ensures Contents(xs, Everywhere(|xs|, r))
  {
    var puts: seq<Put<T>> := [];
    ghost var goal := Everywhere(|xs|, r);
    for s := 0 to g.M
      invariant AllTruthful(puts, goal)
      invariant forall s', t1 :: 0 <= s' < s && 0 <= t1 < g.N ==> Reaches(puts, g, 0, s', t1)
    {
      for t1 := 0 to g.N
        invariant AllTruthful(puts, goal)
        invariant forall s', t' :: 0 <= s' <= s && 0 <= t' < g.N && (s' < s || t' < t1) ==> Reaches(puts, g, 0, s', t')
      {
        NumberIs(g, s, t1);
        var put := Put(s + t1 * g.M, 0, [r]);
        forall s', t' | 0 <= s' <= s && 0 <= t' < g.N && (s' < s || t' < t1 + 1)
          ensures Reaches(puts + [put], g, 0, s', t')
        {
          ReachesMore(puts, put, g, 0, s', t');
        }
        puts := puts + [put];
      }
    }
    forall d, i | 0 <= d < |xs| && 0 <= i < xs[d].Length ensures Right(xs, goal, d, i) || Sent(puts, d, i) {
      Coordinates(g, d);
      assert Reaches(puts, g, 0, d % g.M, d / g.M);
    }
    Sync(xs, puts, goal);
  }
}
