/** bsplu of examples/bspedupack/bsplu.c, as all M by N processors run it: LU decomposition with partial
  * pivoting of a cyclically distributed matrix. */
module BspLu {
  import opened LuMath
  import opened LuGrid
  import opened LuLocal
  import opened LuParts
  import opened LuPivot
  import opened LuSpread
  import opened LuScale
  import opened LuSwap
  import opened LuBroadcast
  import opened LuExchange
  import opened Puts

  const EPS := 0.000000000000001

  // ----- the update -----

  lemma UpdatedLocal(W: Matrix, g: Grid, s: nat, t: nat, k: nat, v: seq<seq<real>>, v': seq<seq<real>>,
                     lk: seq<real>, uk: seq<real>, kr1: nat, kc1: nat)
    requires s < g.M && t < g.N && k < g.n && kr1 == Nloc(g.M, s, k + 1) && kc1 == Nloc(g.N, t, k + 1)
    requires v == LocalMatrix(W, g, s, t) && |v'| == |v|
    requires StartsWith(lk, ColumnAfter(W, g, s, k)) && uk == RowAfter(W, g, t, k)
    requires forall i :: 0 <= i < |v| ==> |v[i]| == kc1 + |uk|
    requires forall i :: 0 <= i < |v| ==> UpdatedAt(v, v', lk, uk, kr1, kc1, i)
    ensures v' == LocalMatrix(Eliminated(W, k), g, s, t)
  {
    var u, l := LocalMatrix(Eliminated(W, k), g, s, t), ColumnAfter(W, g, s, k);
    forall i: nat | i < |v| ensures v'[i] == u[i] {
      assert UpdatedAt(v, v', lk, uk, kr1, kc1, i);
      var x := i * g.M + s;
      LocalIndex(g.M, s, k + 1, i);
      assert i >= kr1 ==> lk[i - kr1] == l[i - kr1] == W(x, k);
      IndexIs(g.M, s, i, x);
      UpdatedPart(W, g, t, k, x, kc1, W(x, k), v[i], uk, u[i]);
    }
  }

  /** Row i of v' is the updated row i of v. */
  predicate UpdatedAt(v: seq<seq<real>>, v': seq<seq<real>>, lk: seq<real>, uk: seq<real>, kr1: nat, kc1: nat, i: int) {
    && 0 <= i < |v| == |v'| && |v[i]| == kc1 + |uk| && (i >= kr1 ==> i - kr1 < |lk|)
    && v'[i] == if i < kr1 then v[i] else UpdatedRow(v[i], lk[i - kr1], uk, kc1)
  }

  /** The update on one processor. */
  method UpdateOne(a: array<seq<real>>, lk: array<real>, uk: array<real>, g: Grid, k: nat, s: nat, t: nat,
                   ghost W: Matrix)
    requires s < g.M && t < g.N && k < g.n && a[..] == LocalMatrix(W, g, s, t)
    requires StartsWith(lk[..], ColumnAfter(W, g, s, k)) && StartsWith(uk[..], RowAfter(W, g, t, k))
    modifies a
    ensures a[..] == LocalMatrix(Eliminated(W, k), g, s, t)
  {
    var kr1, kc1 := Nloc(g.M, s, k + 1), Nloc(g.N, t, k + 1);
    ghost var nlc := Nloc(g.N, t, g.n);
    MoreIndices(g.M, s, k + 1, g.n);
    MoreIndices(g.N, t, k + 1, g.n);
    ghost var v, u := a[..], RowAfter(W, g, t, k);
    assert forall i :: 0 <= i < a.Length ==> a[i] == v[i];
    Update(a, kr1, kc1, lk, uk, nlc);
    assert uk[..nlc - kc1] == uk[..][..|u|] == u;
    forall i | 0 <= i < |v| ensures UpdatedAt(v, a[..], lk[..], u, kr1, kc1, i) {
      assert a[..][i] == a[i];
    }
    UpdatedLocal(W, g, s, t, k, v, a[..], lk[..], u, kr1, kc1);
  }

  /** The update on processor d. */
  method UpdatePart(a: array<seq<real>>, lk: array<real>, uk: array<real>, g: Grid, k: nat, d: nat, ghost W: Matrix)
    requires Proper(g) && d < g.M * g.N && k < g.n && a[..] == Part(W, g, d) && SpreadAt(lk, uk, W, g, k, d)
    modifies a
    ensures a[..] == Part(Eliminated(W, k), g, d)
  {
    Coordinates(g, d);
    UpdateOne(a, lk, uk, g, k, d % g.M, d / g.M, W);
  }

  /** The part of processor d when the first c processors have moved from W to W2. */
  ghost function Progress(W: Matrix, W2: Matrix, g: Grid, c: nat, d: nat): seq<seq<real>>
    requires Proper(g) && d < g.M * g.N
  {
    if d < c then Part(W2, g, d) else Part(W, g, d)
  }

  /** The update on all processors. */
  method UpdateAll(rows: seq<array<seq<real>>>, lks: seq<array<real>>, uks: seq<array<real>>, g: Grid, k: nat,
                   ghost W: Matrix)
    requires HoldsMatrix(rows, W, g) && Separate(rows) && Buffers(lks, uks, g) && k < g.n
    requires Spread(lks, uks, W, g, k)
    modifies rows
    ensures HoldsMatrix(rows, Eliminated(W, k), g)
  {
    ghost var W2 := Eliminated(W, k);
    for c := 0 to |rows|
      invariant forall d :: 0 <= d < |rows| ==> rows[d][..] == Progress(W, W2, g, c, d)
    {
      assert SpreadAt(lks[c], uks[c], W, g, k, c);
      assert rows[c][..] == Progress(W, W2, g, c, c);
      UpdatePart(rows[c], lks[c], uks[c], g, k, c, W);
      forall d | 0 <= d < |rows| ensures rows[d][..] == Progress(W, W2, g, c + 1, d) {
        assert d != c ==> Progress(W, W2, g, c + 1, d) == Progress(W, W2, g, c, d);
      }
    }
    forall d | 0 <= d < |rows| ensures rows[d][..] == Parts(W2, g)[d] {
    }
  }

  // ----- the permutation -----

  /** Entry x of the permutation, as a slot. */
  ghost function PiSlots(pi: seq<int>): Slots<int> {
    (x, t) => if 0 <= x < |pi| then pi[x] else 0
  }

  /** Rows of the matrix, as slots. */
  ghost function RowSlots(W: Matrix, g: Grid): Slots<seq<real>> {
    (x, t) => if 0 <= t < g.N then LocalRow(W, g, t, x) else []
  }

  lemma RowsAreSlots(W: Matrix, g: Grid, vs: seq<seq<seq<real>>>)
    requires Proper(g) && |vs| == g.M * g.N
    ensures Parts(W, g) == SlotGoal(RowSlots(W, g), g, g.N, vs)
  {
    forall d | 0 <= d < |vs| ensures Part(W, g, d) == SlotsAt(RowSlots(W, g), g, g.N, vs, d) {
      Coordinates(g, d);
      var a, b := LocalMatrix(W, g, d % g.M, d / g.M), LocalSlots(RowSlots(W, g), g, d % g.M, d / g.M);
      forall i: nat | i < |a| ensures a[i] == b[i] {
      }
    }
  }

  lemma SwappedRowsAreSlots(W: Matrix, g: Grid, k: nat, r: nat, vs: seq<seq<seq<real>>>)
    requires Proper(g) && |vs| == g.M * g.N
    ensures Parts(Swapped(W, k, r), g) == SlotGoal(SwappedSlots(RowSlots(W, g), k, r), g, g.N, vs)
  {
    forall d | 0 <= d < |vs|
      ensures Part(Swapped(W, k, r), g, d) == SlotsAt(SwappedSlots(RowSlots(W, g), k, r), g, g.N, vs, d)
    {
      Coordinates(g, d);
      var s, t := d % g.M, d / g.M;
      var a, b := LocalMatrix(Swapped(W, k, r), g, s, t), LocalSlots(SwappedSlots(RowSlots(W, g), k, r), g, s, t);
      forall i: nat | i < |a| ensures a[i] == b[i] {
        SwappedPart(W, g, t, k, r, i * g.M + s);
        SwappedAt(RowSlots(W, g), k, r, i * g.M + s, t);
      }
    }
  }

  /** Processor column 0 holds the permutation. */
  ghost predicate HoldsPi(pis: seq<array<int>>, pi: seq<int>, g: Grid)
    reads pis
  {
    && Proper(g) && |pis| == g.M * g.N && |pi| == g.n
    && forall d :: 0 <= d < |pis| ==> HoldsPiAt(pis[d], pi, g, d)
  }

  ghost predicate HoldsPiAt(a: array<int>, pi: seq<int>, g: Grid, d: nat)
    requires Proper(g) && d < g.M * g.N
    reads a
  {
    Coordinates(g, d);
    d / g.M == 0 ==> a[..] == LocalSlots(PiSlots(pi), g, d % g.M, 0)
  }

  lemma SwappedPi(pi: seq<int>, g: Grid, k: nat, r: nat, s: nat)
    requires k < |pi| && r < |pi| && s < g.M
    ensures LocalSlots(SwappedSlots(PiSlots(pi), k, r), g, s, 0) == LocalSlots(PiSlots(SwappedSeq(pi, k, r)), g, s, 0)
  {
    var a, b := LocalSlots(SwappedSlots(PiSlots(pi), k, r), g, s, 0),
      LocalSlots(PiSlots(SwappedSeq(pi, k, r)), g, s, 0);
    forall i: nat | i < |a| ensures a[i] == b[i] {
      SwappedAt(PiSlots(pi), k, r, i * g.M + s, 0);
    }
  }

  lemma PiIsSlots(pis: seq<array<int>>, pi: seq<int>, g: Grid)
    requires HoldsPi(pis, pi, g)
    ensures Contents(pis, SlotGoal(PiSlots(pi), g, 1, Values(pis)))
  {
    forall d | 0 <= d < |pis| ensures pis[d][..] == SlotsAt(PiSlots(pi), g, 1, Values(pis), d) {
      Coordinates(g, d);
      assert HoldsPiAt(pis[d], pi, g, d);
    }
  }

  lemma SlotsArePi(pis: seq<array<int>>, pi: seq<int>, g: Grid, k: nat, r: nat, vs: seq<seq<int>>)
    requires Proper(g) && |pis| == |vs| == g.M * g.N && |pi| == g.n && k < g.n && r < g.n
    requires Contents(pis, SlotGoal(SwappedSlots(PiSlots(pi), k, r), g, 1, vs))
    ensures HoldsPi(pis, SwappedSeq(pi, k, r), g)
  {
    forall d | 0 <= d < |pis| ensures HoldsPiAt(pis[d], SwappedSeq(pi, k, r), g, d) {
      Coordinates(g, d);
      assert pis[d][..] == SlotsAt(SwappedSlots(PiSlots(pi), k, r), g, 1, vs, d);
      SwappedPi(pi, g, k, r, d % g.M);
    }
  }

  /** Superstep 2: the exchange of rows k and r of the matrix and of the permutation. */
  method SwapAll(rows: seq<array<seq<real>>>, pis: seq<array<int>>, rs: seq<array<int>>, g: Grid, k: nat,
                 ghost r: nat, ghost W: Matrix, ghost pi: seq<int>)
    requires HoldsMatrix(rows, W, g) && Separate(rows) && HoldsPi(pis, pi, g) && Separate(pis)
    requires k < g.n && r < g.n && |rs| == |rows| && Contents(rs, Everywhere(|rs|, r))
    modifies rows, pis
    ensures HoldsMatrix(rows, Swapped(W, k, r), g) && HoldsPi(pis, SwappedSeq(pi, k, r), g)
  {
    ghost var vs := Parts(W, g);
    RowsAreSlots(W, g, vs);
    SwappedRowsAreSlots(W, g, k, r, vs);
    Swap(rows, g, k, rs, g.N, r, RowSlots(W, g), vs);
    ghost var us := Values(pis);
    PiIsSlots(pis, pi, g);
    Swap(pis, g, k, rs, 1, r, PiSlots(pi), us);
    SlotsArePi(pis, pi, g, k, r, us);
  }

  /** Everything the processors store. */
  datatype Memory = Memory(rows: seq<array<seq<real>>>, pis: seq<array<int>>, lks: seq<array<real>>,
                           uks: seq<array<real>>, maxs: seq<array<real>>, imaxs: seq<array<int>>, rs: seq<array<int>>)

  ghost predicate Allocated(mem: Memory, g: Grid) {
    && Proper(g) && Separate(mem.rows) && Separate(mem.pis) && Buffers(mem.lks, mem.uks, g)
    && Sized(mem.maxs, g, g.M) && Sized(mem.imaxs, g, g.M) && Sized(mem.rs, g, 1)
    && (forall d, d' :: 0 <= d < |mem.pis| && 0 <= d' < |mem.imaxs| ==> mem.pis[d] != mem.imaxs[d'])
    && (forall d, d' :: 0 <= d < |mem.pis| && 0 <= d' < |mem.rs| ==> mem.pis[d] != mem.rs[d'])
  }

  /** The state between stages: the matrix W and the permutation pi, distributed. */
  ghost predicate State(mem: Memory, W: Matrix, pi: seq<int>, g: Grid)
    reads mem.rows, mem.pis
  {
    HoldsMatrix(mem.rows, W, g) && HoldsPi(mem.pis, pi, g)
  }

  /** Max and Imax arrive, and every processor of the column picks the same best candidate. */
  method PickAll(maxs: seq<array<real>>, imaxs: seq<array<int>>, g: Grid, t: nat, ghost ix: seq<int>,
                 ghost ms: seq<real>)
    returns (smax: int, absmax: real, imax: int, pivot: real)
    requires Proper(g) && t < g.N && |ms| == |ix| == g.M && |maxs| == |imaxs| == g.M * g.N
    requires forall d :: 0 <= d < |maxs| && d / g.M == t ==> maxs[d][..] == ms
    requires forall d :: 0 <= d < |imaxs| && d / g.M == t ==> imaxs[d][..] == ix
    ensures (smax, absmax) == Best(ms, g.M)
    ensures absmax > 0.0 ==> 0 <= smax < g.M && imax == ix[smax] && pivot == ms[smax]
  {
    smax, absmax, imax, pivot := -1, 0.0, -1, 0.0;
    for s := 0 to g.M
      invariant s > 0 ==> (smax, absmax) == Best(ms, g.M)
      invariant s > 0 && absmax > 0.0 ==> 0 <= smax < g.M && imax == ix[smax] && pivot == ms[smax]
    {
      NumberIs(g, s, t);
      var d := s + t * g.M;
      ghost var max, im := maxs[d][..], imaxs[d][..];
      assert max == ms && im == ix;
      smax, absmax := PickMax(maxs[d], g.M);
      BestIs(ms, g.M);
      if absmax > 0.0 {
        imax, pivot := imaxs[d][smax], maxs[d][smax];
        assert imax == im[smax] && pivot == max[smax];
      }
    }
  }

  /** Superstep 0, and the choice in superstep 1. */
  method Choose(rows: seq<array<seq<real>>>, maxs: seq<array<real>>, imaxs: seq<array<int>>, g: Grid, k: nat,
                ghost W: Matrix)
    returns (smax: int, absmax: real, imax: int, pivot: real, ix: seq<int>, ghost ms: seq<real>)
    requires HoldsMatrix(rows, W, g) && k < g.n && Sized(maxs, g, g.M) && Sized(imaxs, g, g.M)
    modifies maxs, imaxs
    ensures |ix| == |ms| == g.M && (smax, absmax) == Best(ms, g.M)
    ensures forall s :: 0 <= s < g.M ==> Candidate(W, g, k, s, ix[s], ms[s])
    ensures absmax > 0.0 ==> 0 <= smax < g.M && imax == ix[smax] && pivot == ms[smax]
  {
    var found;
    ix, found := SearchAll(rows, g, k, W);
    ms := found;
    QuotientIsNat(k, g.N);
    var t := k % g.N;
    ghost var vs, us := Values(maxs), Values(imaxs);
    SpreadColumn(maxs, g, t, found, vs);
    SpreadColumn(imaxs, g, t, ix, us);
    assert forall d :: 0 <= d < |maxs| && d / g.M == t ==> maxs[d][..] == ColumnGoal(g, t, ms, vs)[d];
    assert forall d :: 0 <= d < |imaxs| && d / g.M == t ==> imaxs[d][..] == ColumnGoal(g, t, ix, us)[d];
    smax, absmax, imax, pivot := PickAll(maxs, imaxs, g, t, ix, ms);
  }

  /** The rest of superstep 1: the division, and the index of the pivot row for everybody. */
  method Divide(rows: seq<array<seq<real>>>, rs: seq<array<int>>, g: Grid, k: nat, row: nat, pivot: real, smax: int,
                ix: seq<int>, ghost W: Matrix)
    requires HoldsMatrix(rows, W, g) && Separate(rows) && Sized(rs, g, 1)
    requires k <= row < g.n && pivot == W(row, k) != 0.0
    requires |ix| == g.M && 0 <= smax < g.M && smax == row % g.M && ix[smax] == row / g.M
    modifies rows, rs
    ensures HoldsMatrix(rows, Scaled(W, k, row, pivot), g) && Contents(rs, Everywhere(|rs|, row))
  {
    ScaleAll(rows, g, k, row, pivot, smax, ix, W);
    SpreadRows(rs, g, row);
  }

  /** Supersteps 0 and 1: the pivot is found, broadcast and divided by, unless there is none. */
  method Pivot(mem: Memory, g: Grid, k: nat, ghost W: Matrix) returns (ok: bool, ghost r: nat)
    requires Allocated(mem, g) && HoldsMatrix(mem.rows, W, g) && k < g.n
    modifies mem.rows, mem.maxs, mem.imaxs, mem.rs
    ensures ok <==> exists x: nat :: k <= x < g.n && Abs(W(x, k)) > 1.0 / 1_000_000_000_000_000.0
    ensures ok ==> IsPivot(W, g.n, k, r) && Abs(W(r, k)) > 1.0 / 1_000_000_000_000_000.0
    ensures ok ==> HoldsMatrix(mem.rows, Scaled(W, k, r, W(r, k)), g) && Contents(mem.rs, Everywhere(|mem.rs|, r))
  {
    var smax, absmax, imax, pivot, ix;
    ghost var ms;
    smax, absmax, imax, pivot, ix, ms := Choose(mem.rows, mem.maxs, mem.imaxs, g, k, W);
    ok := absmax > EPS;
    r := 0;
    if ok {
      BestIsPivot(W, g, k, ix, ms, smax, absmax);
      var row := imax * g.M + smax;
      r := row;
      Divide(mem.rows, mem.rs, g, k, row, pivot, smax, ix, W);
    } else {
      ColumnBelow(W, g, k, ix, ms, smax, absmax);
    }
  }

  /** Supersteps 3, 4 and 0: column and row k are broadcast, and the rest of the matrix is updated. */
  method Eliminate(rows: seq<array<seq<real>>>, lks: seq<array<real>>, uks: seq<array<real>>, g: Grid, k: nat,
                   ghost W: Matrix)
    requires HoldsMatrix(rows, W, g) && Separate(rows) && Buffers(lks, uks, g) && k < g.n
    modifies rows, lks, uks
    ensures HoldsMatrix(rows, Eliminated(W, k), g)
  {
    SpreadAll(rows, lks, uks, g, k, W);
    UpdateAll(rows, lks, uks, g, k, W);
  }

  lemma PiUntouched(pis: seq<array<int>>, pi: seq<int>, g: Grid, vs: seq<seq<int>>)
    requires Proper(g) && |pis| == |vs| == g.M * g.N && |pi| == g.n
    requires forall d :: 0 <= d < |pis| ==> PiValue(vs[d], pi, g, d)
    requires forall d :: 0 <= d < |pis| ==> pis[d][..] == vs[d]
    ensures HoldsPi(pis, pi, g)
  {
    forall d | 0 <= d < |pis| ensures HoldsPiAt(pis[d], pi, g, d) {
      assert PiValue(vs[d], pi, g, d);
    }
  }

  ghost predicate PiValue(v: seq<int>, pi: seq<int>, g: Grid, d: nat)
    requires Proper(g) && d < g.M * g.N
  {
    Coordinates(g, d);
    d / g.M == 0 ==> v == LocalSlots(PiSlots(pi), g, d % g.M, 0)
  }

  /** One stage. */
  method StageOf(mem: Memory, g: Grid, k: nat, ghost W: Matrix, ghost pi: seq<int>) returns (ok: bool, ghost r: nat)
    requires Allocated(mem, g) && State(mem, W, pi, g) && k < g.n
    modifies mem.rows, mem.pis, mem.lks, mem.uks, mem.maxs, mem.imaxs, mem.rs
    ensures ok <==> exists x: nat :: k <= x < g.n && Abs(W(x, k)) > 1.0 / 1_000_000_000_000_000.0
    ensures ok ==> IsPivot(W, g.n, k, r) && Abs(W(r, k)) > 1.0 / 1_000_000_000_000_000.0
    ensures ok ==> State(mem, Stage(W, k, r), SwappedSeq(pi, k, r), g)
  {
    ghost var vs := Values(mem.pis);
    assert forall d :: 0 <= d < |vs| ==> PiValue(vs[d], pi, g, d) by {
      forall d | 0 <= d < |vs| ensures PiValue(vs[d], pi, g, d) {
        assert HoldsPiAt(mem.pis[d], pi, g, d);
      }
    }
    ok, r := Pivot(mem, g, k, W);
    if ok {
      PiUntouched(mem.pis, pi, g, vs);
      ghost var S := Scaled(W, k, r, W(r, k));
      SwapAll(mem.rows, mem.pis, mem.rs, g, k, r, S, pi);
      ghost var T := Swapped(S, k, r);
      EliminateKeeping(mem, g, k, T, SwappedSeq(pi, k, r));
    }
  }

  /** The elimination leaves the permutation alone. */
  method EliminateKeeping(mem: Memory, g: Grid, k: nat, ghost W: Matrix, ghost pi: seq<int>)
    requires Allocated(mem, g) && State(mem, W, pi, g) && k < g.n
    modifies mem.rows, mem.lks, mem.uks
    ensures State(mem, Eliminated(W, k), pi, g)
  {
    Eliminate(mem.rows, mem.lks, mem.uks, g, k, W);
  }

  // ----- the decomposition -----

  /** The numbers 0..n in order. */
  function Identity(n: nat): (pi: seq<int>)
    ensures |pi| == n
  {
    seq(n, x => x)
  }

  /** The initialization of the permutation. */
  method InitPi(pis: seq<array<int>>, g: Grid)
    requires Proper(g) && Separate(pis) && |pis| == g.M * g.N
    requires forall d :: 0 <= d < |pis| ==> 0 <= d % g.M < g.M && pis[d].Length == Nloc(g.M, d % g.M, g.n)
    modifies pis
    ensures HoldsPi(pis, Identity(g.n), g)
  {
    for d := 0 to |pis|
      invariant forall d' :: 0 <= d' < d ==> HoldsPiAt(pis[d'], Identity(g.n), g, d')
    {
      Coordinates(g, d);
      if d / g.M == 0 {
        InitOne(pis[d], g, d % g.M);
      }
    }
  }

  method InitOne(a: array<int>, g: Grid, s: nat)
    requires s < g.M && a.Length == Nloc(g.M, s, g.n)
    modifies a
    ensures a[..] == LocalSlots(PiSlots(Identity(g.n)), g, s, 0)
  {
    for i := 0 to a.Length
      invariant forall l :: 0 <= l < i ==> a[l] == l * g.M + s
    {
      a[i] := i * g.M + s;
    }
    ghost var v := LocalSlots(PiSlots(Identity(g.n)), g, s, 0);
    forall i: nat | i < a.Length ensures a[..][i] == v[i] {
      LocalIndex(g.M, s, g.n, i);
      IndexIs(g.M, s, i, i * g.M + s);
      assert v[i] == PiSlots(Identity(g.n))(i * g.M + s, 0);
    }
  }

  /** What has been reached after k stages. */
  ghost predicate Decomposed(A: Matrix, pi: seq<int>, W: Matrix, n: nat, k: nat) {
    Fits(A, pi, W, n, k) && IsPermutation(pi, n) && SmallMultipliers(W, n, k)
  }

  lemma StageDecomposes(A: Matrix, pi: seq<int>, W: Matrix, n: nat, k: nat, r: nat)
    requires Decomposed(A, pi, W, n, k) && k < n && IsPivot(W, n, k, r) && W(r, k) != 0.0
    ensures Decomposed(A, SwappedSeq(pi, k, r), Stage(W, k, r), n, k + 1)
  {
    StageFits(A, pi, W, n, k, r);
    SwapPermutes(pi, n, k, r);
    StageKeepsSmall(W, n, k, r);
  }

  /** The rows of A, permuted by pi, are the product of a unit lower and an upper triangular matrix, both stored
    * in W, and no multiplier exceeds 1. */
  ghost predicate IsLu(A: Matrix, pi: seq<int>, W: Matrix, n: nat) {
    && IsPermutation(pi, n) && SmallMultipliers(W, n, n)
    && forall i: nat, j: nat :: i < n && j < n ==> A(pi[i], j) == LuSum(W, i, j, n)
  }

  lemma DecomposedIsLu(A: Matrix, pi: seq<int>, W: Matrix, n: nat)
    requires Decomposed(A, pi, W, n, n)
    ensures IsLu(A, pi, W, n)
  {
    forall i: nat, j: nat | i < n && j < n ensures A(pi[i], j) == LuSum(W, i, j, n) {
      FactorsMultiply(A, pi, W, n, i, j);
    }
  }

  /** The first k numbers on the diagonal are large enough to divide by. */
  ghost predicate LargePivots(W: Matrix, k: nat) {
    forall x: nat :: x < k ==> Abs(W(x, x)) > 1.0 / 1_000_000_000_000_000.0
  }

  lemma StagePivots(W: Matrix, n: nat, k: nat, r: nat)
    requires LargePivots(W, k) && IsPivot(W, n, k, r) && Abs(W(r, k)) > 1.0 / 1_000_000_000_000_000.0
    ensures LargePivots(Stage(W, k, r), k + 1)
  {
    forall x: nat | x < k + 1 ensures Abs(Stage(W, k, r)(x, x)) > 1.0 / 1_000_000_000_000_000.0 {
      var S := Scaled(W, k, r, W(r, k));
      assert Stage(W, k, r)(x, x) == Swapped(S, k, r)(x, x) == S(Other(k, r, x), x);
    }
  }

  /** bsplu: if no stage aborts, the distributed matrix becomes the two factors of the matrix whose rows are
    * permuted as the distributed permutation says; a stage aborts only without a number above 1.0e-15 to
    * divide by. */
  method Bsplu(mem: Memory, g: Grid, ghost A: Matrix)
    returns (ok: bool, ghost W: Matrix, ghost pi: seq<int>, ghost stages: nat)
    requires Allocated(mem, g) && HoldsMatrix(mem.rows, A, g)
    requires |mem.pis| == g.M * g.N
    requires forall d :: 0 <= d < |mem.pis| ==> 0 <= d % g.M < g.M && mem.pis[d].Length == Nloc(g.M, d % g.M, g.n)
    modifies mem.rows, mem.pis, mem.lks, mem.uks, mem.maxs, mem.imaxs, mem.rs
    ensures stages <= g.n && Decomposed(A, pi, W, g.n, stages)
    ensures ok ==> stages == g.n && State(mem, W, pi, g) && IsLu(A, pi, W, g.n)
    ensures !ok ==> stages < g.n && forall x: nat :: stages <= x < g.n ==>
      Abs(W(x, stages)) <= 1.0 / 1_000_000_000_000_000.0
    ensures ok ==> forall x: nat :: x < g.n ==> Abs(W(x, x)) > 1.0 / 1_000_000_000_000_000.0
  {
    InitPi(mem.pis, g);
    W, pi, stages := A, Identity(g.n), 0;
    StartsDecomposed(A, g.n);
    ok := true;
    var k := 0;
    while ok && k < g.n
      invariant stages == k <= g.n && Decomposed(A, pi, W, g.n, k)
      invariant ok ==> State(mem, W, pi, g)
      invariant !ok ==> k < g.n && forall x: nat :: k <= x < g.n ==> Abs(W(x, k)) <= 1.0 / 1_000_000_000_000_000.0
      invariant LargePivots(W, k)
      decreases ok, g.n - k
    {
      ghost var r;
      ok, r := StageOf(mem, g, k, W, pi);
      if ok {
        StageDecomposes(A, pi, W, g.n, k, r);
        StagePivots(W, g.n, k, r);
        W, pi := Stage(W, k, r), SwappedSeq(pi, k, r);
        k := k + 1;
        stages := k;
      }
    }
    if ok { DecomposedIsLu(A, pi, W, g.n); }
  }

  lemma StartsDecomposed(A: Matrix, n: nat)
    ensures Decomposed(A, Identity(n), A, n, 0)
  {
    forall i: nat, j: nat | i < n && j < n ensures EntryFits(A, Identity(n)[i], A, 0, i, j) {
      assert Products(A, i, j, 0) == 0.0;
    }
  }
}
