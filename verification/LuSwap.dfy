/** Superstep 2 of a stage of examples/bspedupack/bsplu.c: slots k and r of a vector that is cyclically
  * distributed over the rows of the processor grid change places. The slots are rows of the matrix, or
  * entries of the permutation, which only processor column 0 holds. */
module LuSwap {
  import opened LuMath
  import opened LuGrid
  import opened LuSpread
  import opened Puts

  /** Slot x as processor column t holds it. */
  type Slots<T> = (int, int) -> T

  function LocalSlots<T>(F: Slots<T>, g: Grid, s: nat, t: nat): (v: seq<T>)
    requires s < g.M
    ensures |v| == Nloc(g.M, s, g.n)
  {
    seq(Nloc(g.M, s, g.n), i requires 0 <= i < Nloc(g.M, s, g.n) => F(i * g.M + s, t))
  }

  function SwappedSlots<T>(F: Slots<T>, k: int, r: int): Slots<T> {
    (x, t) => F(Other(k, r, x), t)
  }

  lemma SwappedAt<T>(F: Slots<T>, k: int, r: int, x: int, t: int)
    ensures SwappedSlots(F, k, r)(x, t) == F(Other(k, r, x), t)
    ensures Other(k, r, k) == r && Other(k, r, r) == k
  {
  }

  /** The first `columns` processor columns hold F, the others what they held. */
  ghost function SlotGoal<T>(F: Slots<T>, g: Grid, columns: nat, vs: seq<seq<T>>): (goal: seq<seq<T>>)
    requires Proper(g) && |vs| == g.M * g.N
    ensures |goal| == |vs|
  {
    seq(|vs|, d requires 0 <= d < |vs| => SlotsAt(F, g, columns, vs, d))
  }

  ghost function SlotsAt<T>(F: Slots<T>, g: Grid, columns: nat, vs: seq<seq<T>>, d: nat): seq<T>
    requires Proper(g) && d < |vs| == g.M * g.N
  {
    Coordinates(g, d);
    if d / g.M < columns then LocalSlots(F, g, d % g.M, d / g.M) else vs[d]
  }

  /** The put of slot x of column t to the place of slot y. */
  method PutSlot<T>(a: array<T>, g: Grid, t: nat, x: nat, y: nat,
                    ghost F: Slots<T>, ghost G: Slots<T>, ghost columns: nat, ghost vs: seq<seq<T>>)
    returns (put: Put<T>)
    requires Proper(g) && t < g.N && t < columns && x < g.n && y < g.n && |vs| == g.M * g.N
    requires a[..] == LocalSlots(F, g, x % g.M, t) && G(y, t) == F(x, t)
    ensures Truthful(put, SlotGoal(G, g, columns, vs)) && Covers(put, Number(g, y % g.M, t), y / g.M)
  {
    OwnerOf(g.M, g.n, x);
    OwnerOf(g.M, g.n, y);
    NumberIs(g, y % g.M, t);
    put := Put(y % g.M + t * g.M, y / g.M, [a[x / g.M]]);
    ghost var v := SlotGoal(G, g, columns, vs)[put.dest];
    assert v == LocalSlots(G, g, y % g.M, t);
    assert a[..][x / g.M] == F(x / g.M * g.M + x % g.M, t) == F(x, t);
    assert v[y / g.M] == G(y, t);
  }

  /** The put of slot x, if processor d has it. */
  method PutIfOwner<T>(a: array<T>, g: Grid, d: nat, x: nat, y: nat, columns: nat,
                       ghost F: Slots<T>, ghost G: Slots<T>, ghost vs: seq<seq<T>>) returns (puts: seq<Put<T>>)
    requires Proper(g) && d < g.M * g.N && x < g.n && y < g.n && |vs| == g.M * g.N
    requires a[..] == SlotsAt(F, g, columns, vs, d) && G(y, d / g.M) == F(x, d / g.M)
    ensures AllTruthful(puts, SlotGoal(G, g, columns, vs))
    ensures d / g.M < columns && d % g.M == x % g.M ==> Sent(puts, Number(g, y % g.M, d / g.M), y / g.M)
  {
    Coordinates(g, d);
    puts := [];
    if x % g.M == d % g.M && d / g.M < columns {
      var put := PutSlot(a, g, d / g.M, x, y, F, G, columns, vs);
      puts := [put];
      assert Covers(puts[0], Number(g, y % g.M, d / g.M), y / g.M);
    }
  }

  /** The puts of processor d. */
  method IssueSwap<T>(a: array<T>, g: Grid, d: nat, k: nat, r: nat, columns: nat,
                      ghost F: Slots<T>, ghost vs: seq<seq<T>>) returns (puts: seq<Put<T>>)
    requires Proper(g) && d < g.M * g.N && k < g.n && r < g.n && |vs| == g.M * g.N
    requires a[..] == SlotsAt(F, g, columns, vs, d)
    ensures AllTruthful(puts, SlotGoal(SwappedSlots(F, k, r), g, columns, vs))
    ensures SwapIssued(puts, g, k, r, columns, d)
  {
    ghost var G := SwappedSlots(F, k, r);
    ghost var t := d / g.M;
    SwappedAt(F, k, r, k, t);
    SwappedAt(F, k, r, r, t);
    var there := PutIfOwner(a, g, d, k, r, columns, F, G, vs);
    var back := PutIfOwner(a, g, d, r, k, columns, F, G, vs);
    puts := there + back;
    MoreTruthful(there, back, SlotGoal(G, g, columns, vs));
    if d / g.M < columns && d % g.M == k % g.M { MoreSent(there, back, Number(g, r % g.M, d / g.M), r / g.M); }
    if d / g.M < columns && d % g.M == r % g.M { MoreSent(there, back, Number(g, k % g.M, d / g.M), k / g.M); }
  }

  /** Processor d has put its part of the exchange. */
  ghost predicate SwapIssued<T>(puts: seq<Put<T>>, g: Grid, k: nat, r: nat, columns: nat, d: nat)
    requires Proper(g)
  {
    && (d / g.M < columns && d % g.M == k % g.M ==> Sent(puts, Number(g, r % g.M, d / g.M), r / g.M))
    && (d / g.M < columns && d % g.M == r % g.M ==> Sent(puts, Number(g, k % g.M, d / g.M), k / g.M))
  }

  lemma SwapStillIssued<T>(puts: seq<Put<T>>, more: seq<Put<T>>, g: Grid, k: nat, r: nat, columns: nat, d: nat)
    requires Proper(g) && (SwapIssued(puts, g, k, r, columns, d) || SwapIssued(more, g, k, r, columns, d))
    ensures SwapIssued(puts + more, g, k, r, columns, d)
  {
    if d / g.M < columns && d % g.M == k % g.M {
      MoreSent(puts, more, Number(g, r % g.M, d / g.M), r / g.M);
    }
    if d / g.M < columns && d % g.M == r % g.M {
      MoreSent(puts, more, Number(g, k % g.M, d / g.M), k / g.M);
    }
  }

  method IssueSwaps<T>(xs: seq<array<T>>, g: Grid, k: nat, rs: seq<array<int>>, columns: nat,
                       ghost r: nat, ghost F: Slots<T>, ghost vs: seq<seq<T>>) returns (puts: seq<Put<T>>)
    requires Proper(g) && k < g.n && r < g.n && |xs| == |vs| == |rs| == g.M * g.N
    requires Contents(rs, Everywhere(|rs|, r)) && Contents(xs, SlotGoal(F, g, columns, vs))
    ensures AllTruthful(puts, SlotGoal(SwappedSlots(F, k, r), g, columns, vs))
    ensures forall d :: 0 <= d < |xs| ==> SwapIssued(puts, g, k, r, columns, d)
  {
    puts := [];
    ghost var goal := SlotGoal(SwappedSlots(F, k, r), g, columns, vs);
    for d := 0 to |xs|
      invariant AllTruthful(puts, goal)
      invariant forall d' :: 0 <= d' < d ==> SwapIssued(puts, g, k, r, columns, d')
    {
      assert rs[d][..] == [r];
      assert rs[d][..][0] == rs[d][0] == r;
      assert xs[d][..] == SlotsAt(F, g, columns, vs, d);
      var more := IssueSwap(xs[d], g, d, k, rs[d][0], columns, F, vs);
      MoreTruthful(puts, more, goal);
      assert SwapIssued(more, g, k, r, columns, d);
      forall d' | 0 <= d' < d + 1 ensures SwapIssued(puts + more, g, k, r, columns, d') {
        SwapStillIssued(puts, more, g, k, r, columns, d');
      }
      puts := puts + more;
    }
  }

  /** Every place is reached, or holds already what it should. */
  lemma SwapCovers<T>(xs: seq<array<T>>, g: Grid, k: nat, r: nat, columns: nat, F: Slots<T>, vs: seq<seq<T>>,
                      puts: seq<Put<T>>, d: nat, i: nat, goal: seq<seq<T>>)
    requires Proper(g) && k < g.n && r < g.n && |xs| == |vs| == g.M * g.N && d < |xs| && i < xs[d].Length
    requires Contents(xs, SlotGoal(F, g, columns, vs)) && goal == SlotGoal(SwappedSlots(F, k, r), g, columns, vs)
    requires Shaped(xs, goal)
    requires forall d :: 0 <= d < |xs| ==> SwapIssued(puts, g, k, r, columns, d)
    ensures Right(xs, goal, d, i) || Sent(puts, d, i)
  {
    Coordinates(g, d);
    var s, t := d % g.M, d / g.M;
    var x := i * g.M + s;
    assert xs[d][..] == SlotsAt(F, g, columns, vs, d);
    if t < columns {
      IndexIs(g.M, s, i, x);
      assert xs[d][..][i] == F(x, t);
      assert goal[d][i] == F(Other(k, r, x), t);
      if x == k {
        OwnerOf(g.M, g.n, r);
        NumberIs(g, r % g.M, t);
        assert SwapIssued(puts, g, k, r, columns, Number(g, r % g.M, t));
      } else if x == r {
        OwnerOf(g.M, g.n, k);
        NumberIs(g, k % g.M, t);
        assert SwapIssued(puts, g, k, r, columns, Number(g, k % g.M, t));
      }
    } else {
      assert xs[d][..][i] == vs[d][i];
    }
  }

  /** The exchange of slots k and r, with its sync. */
  method Swap<T>(xs: seq<array<T>>, g: Grid, k: nat, rs: seq<array<int>>, columns: nat,
                 ghost r: nat, ghost F: Slots<T>, ghost vs: seq<seq<T>>)
    requires Proper(g) && k < g.n && r < g.n && |xs| == |vs| == |rs| == g.M * g.N
    requires Contents(rs, Everywhere(|rs|, r)) && Contents(xs, SlotGoal(F, g, columns, vs))
    requires forall d, d' :: 0 <= d < d' < |xs| ==> xs[d] != xs[d']
    requires forall d :: 0 <= d < |xs| ==> |vs[d]| == xs[d].Length
    modifies xs
    ensures Contents(xs, SlotGoal(SwappedSlots(F, k, r), g, columns, vs))
  {
    var puts := IssueSwaps(xs, g, k, rs, columns, r, F, vs);
    ghost var goal := SlotGoal(SwappedSlots(F, k, r), g, columns, vs);
    forall d | 0 <= d < |xs| ensures |goal[d]| == xs[d].Length {
      assert xs[d][..] == SlotsAt(F, g, columns, vs, d);
    }
    forall d, i | 0 <= d < |xs| && 0 <= i < xs[d].Length ensures Right(xs, goal, d, i) || Sent(puts, d, i) {
      SwapCovers(xs, g, k, r, columns, F, vs, puts, d, i, goal);
    }
    Sync(xs, puts, goal);
  }
}
