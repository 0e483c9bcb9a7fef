/** Puts into registered arrays, one array per processor, and their delivery by the sync. */
module Puts {

  /** What the arrays of all processors hold. */
  ghost function Values<T>(xs: seq<array<T>>): (vs: seq<seq<T>>)
    reads xs
    ensures |vs| == |xs| && forall d :: 0 <= d < |xs| ==> vs[d] == xs[d][..]
  {
    seq(|xs|, d requires 0 <= d < |xs| reads xs => xs[d][..])
  }

  /** A put of slots into the registered array of processor dest. */
  datatype Put<T> = Put(dest: nat, offset: nat, data: seq<T>)

  /** Number i of processor d is what it should become. */
  ghost predicate Right<T>(xs: seq<array<T>>, goal: seq<seq<T>>, d: int, i: int)
    requires Shaped(xs, goal)
    reads xs
  {
    0 <= d < |xs| && 0 <= i < xs[d].Length && xs[d][i] == goal[d][i]
  }

  ghost predicate Shaped<T>(xs: seq<array<T>>, goal: seq<seq<T>>) {
    && |goal| == |xs|
    && (forall d :: 0 <= d < |xs| ==> |goal[d]| == xs[d].Length)
    && (forall d, d' :: 0 <= d < d' < |xs| ==> xs[d] != xs[d'])
  }

  /** The put carries what its destination should become. */
  ghost predicate Truthful<T>(put: Put<T>, goal: seq<seq<T>>) {
    && put.dest < |goal| && put.offset + |put.data| <= |goal[put.dest]|
    && put.data == goal[put.dest][put.offset..put.offset + |put.data|]
  }

  predicate Covers<T>(put: Put<T>, d: int, i: int) {
    put.dest == d && put.offset <= i < put.offset + |put.data|
  }

  ghost predicate Sent<T>(puts: seq<Put<T>>, d: int, i: int) {
    exists k :: 0 <= k < |puts| && Covers(puts[k], d, i)
  }

  ghost predicate AllTruthful<T>(puts: seq<Put<T>>, goal: seq<seq<T>>) {
    forall k :: 0 <= k < |puts| ==> Truthful(puts[k], goal)
  }

  /** What a put makes of the contents of its destination. */
  function Patch<T>(v: seq<T>, put: Put<T>): (r: seq<T>)
    requires put.offset + |put.data| <= |v|
    ensures |r| == |v|
  {
    v[..put.offset] + put.data + v[put.offset + |put.data|..]
  }

  /** The puts to processor d stay within its n slots. */
  ghost predicate Fitting<T>(puts: seq<Put<T>>, d: int, n: int) {
    forall k :: 0 <= k < |puts| && puts[k].dest == d ==> puts[k].offset + |puts[k].data| <= n
  }

  /** The contents of processor d's array behind the puts, in their order. */
  ghost function After<T>(v: seq<T>, puts: seq<Put<T>>, d: int): (r: seq<T>)
    requires Fitting(puts, d, |v|)
    ensures |r| == |v|
  {
    if puts == [] then v
    else
      var put, before := puts[|puts| - 1], After(v, puts[..|puts| - 1], d);
      if put.dest == d then Patch(before, put) else before
  }

  lemma TruthfulFit<T>(puts: seq<Put<T>>, goal: seq<seq<T>>, d: int)
    requires AllTruthful(puts, goal) && 0 <= d < |goal|
    ensures Fitting(puts, d, |goal[d]|)
  {
    forall k | 0 <= k < |puts| && puts[k].dest == d ensures puts[k].offset + |puts[k].data| <= |goal[d]| {
      assert Truthful(puts[k], goal);
    }
  }

  lemma AfterOneMore<T>(v: seq<T>, puts: seq<Put<T>>, k: nat, d: int)
    requires k < |puts| && Fitting(puts, d, |v|)
    ensures Fitting(puts[..k], d, |v|) && Fitting(puts[..k + 1], d, |v|)
    ensures After(v, puts[..k + 1], d)
         == if puts[k].dest == d then Patch(After(v, puts[..k], d), puts[k]) else After(v, puts[..k], d)
  {
    assert puts[..k + 1][..k] == puts[..k];
  }

  /** x held v, and now holds what the puts to processor d make of it. */
  ghost predicate Reaches<T>(x: array<T>, v: seq<T>, puts: seq<Put<T>>, d: int)
    reads x
  {
    Fitting(puts, d, |v|) && x[..] == After(v, puts, d)
  }

  /** Delivers one put. */
  method DeliverOne<T>(x: array<T>, put: Put<T>)
    requires put.offset + |put.data| <= x.Length
    modifies x
    ensures x[..] == Patch(old(x[..]), put)
  {
    for r := 0 to |put.data|
      invariant forall i :: 0 <= i < x.Length ==>
        x[i] == if put.offset <= i < put.offset + r then put.data[i - put.offset] else old(x[i])
    {
      x[put.offset + r] := put.data[r];
    }
  }

  /** What truthful puts reach becomes right, and what was right stays right. */
  lemma {:induction false} AfterIsRight<T>(v: seq<T>, puts: seq<Put<T>>, goal: seq<seq<T>>, d: int, i: int)
    requires AllTruthful(puts, goal) && 0 <= d < |goal| && |v| == |goal[d]| && 0 <= i < |v|
    requires v[i] == goal[d][i] || Sent(puts, d, i)
    ensures Fitting(puts, d, |v|) && After(v, puts, d)[i] == goal[d][i]
  {
    TruthfulFit(puts, goal, d);
    if puts != [] {
      var last := |puts| - 1;
      assert puts[..last + 1] == puts;
      AfterOneMore(v, puts, last, d);
      assert Truthful(puts[last], goal);
      if !Covers(puts[last], d, i) {
        if Sent(puts, d, i) {
          var k :| 0 <= k < |puts| && Covers(puts[k], d, i);
          assert puts[..last][k] == puts[k];
        }
        AfterIsRight(v, puts[..last], goal, d, i);
      }
    }
  }

  lemma SentInside<T>(puts: seq<Put<T>>, goal: seq<seq<T>>, d: int, i: int)
    requires AllTruthful(puts, goal)
    ensures Sent(puts, d, i) ==> 0 <= d < |goal| && 0 <= i < |goal[d]|
  {
    if Sent(puts, d, i) {
      var k :| 0 <= k < |puts| && Covers(puts[k], d, i);
      assert Truthful(puts[k], goal);
    }
  }

  /** bsp_sync: the puts are delivered one by one. What truthful puts reach becomes right, and what was right
    * stays right. */
  method Deliver<T>(xs: seq<array<T>>, puts: seq<Put<T>>, ghost goal: seq<seq<T>>)
    requires Shaped(xs, goal) && AllTruthful(puts, goal)
    modifies xs
    ensures forall d :: 0 <= d < |xs| ==> Reaches(xs[d], old(xs[d][..]), puts, d)
    ensures forall d, i :: old(Right(xs, goal, d, i)) ==> Right(xs, goal, d, i)
    ensures forall d, i :: Sent(puts, d, i) ==> Right(xs, goal, d, i)
  {
    ghost var vs := Values(xs);
    for k := 0 to |puts|
      invariant forall d :: 0 <= d < |xs| ==> Reaches(xs[d], vs[d], puts[..k], d)
    {
      var put := puts[k];
      assert Truthful(put, goal);
      label L:
      DeliverOne(xs[put.dest], put);
      forall d | 0 <= d < |xs| ensures Reaches(xs[d], vs[d], puts[..k + 1], d) {
        assert old@L(Reaches(xs[d], vs[d], puts[..k], d));
        TruthfulFit(puts, goal, d);
        AfterOneMore(vs[d], puts, k, d);
      }
    }
    assert puts[..|puts|] == puts;
    forall d, i | old(Right(xs, goal, d, i)) || Sent(puts, d, i) ensures Right(xs, goal, d, i) {
      SentInside(puts, goal, d, i);
      AfterIsRight(vs[d], puts, goal, d, i);
      assert Reaches(xs[d], vs[d], puts, d);
    }
  }

  lemma MoreTruthful<T>(puts: seq<Put<T>>, more: seq<Put<T>>, goal: seq<seq<T>>)
    requires AllTruthful(puts, goal) && AllTruthful(more, goal)
    ensures AllTruthful(puts + more, goal)
  {
  }

  lemma MoreSent<T>(puts: seq<Put<T>>, more: seq<Put<T>>, d: int, i: int)
    requires Sent(puts, d, i) || Sent(more, d, i)
    ensures Sent(puts + more, d, i)
  {
    if Sent(puts, d, i) {
      var k :| 0 <= k < |puts| && Covers(puts[k], d, i);
      assert (puts + more)[k] == puts[k];
    } else {
      var k :| 0 <= k < |more| && Covers(more[k], d, i);
      assert (puts + more)[|puts| + k] == more[k];
    }
  }

  /** The arrays' contents. */
  ghost predicate Contents<T>(xs: seq<array<T>>, vs: seq<seq<T>>)
    reads xs
  {
    |vs| == |xs| && forall s :: 0 <= s < |xs| ==> xs[s][..] == vs[s]
  }

  /** A superstep whose puts reach everything that is not yet right. */
  method Sync<T>(xs: seq<array<T>>, puts: seq<Put<T>>, ghost goal: seq<seq<T>>)
    requires Shaped(xs, goal) && AllTruthful(puts, goal)
    requires forall d, i :: 0 <= d < |xs| && 0 <= i < xs[d].Length ==> Right(xs, goal, d, i) || Sent(puts, d, i)
    modifies xs
    ensures Contents(xs, goal)
  {
    Deliver(xs, puts, goal);
    forall d | 0 <= d < |xs| ensures xs[d][..] == goal[d] {
      forall i | 0 <= i < xs[d].Length ensures xs[d][..][i] == goal[d][i] {
        assert Right(xs, goal, d, i);
      }
    }
  }
}
