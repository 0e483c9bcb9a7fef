/** The product of a local sparse matrix in incremental compressed rows with a vector
  * (examples/bspedupack/bspmv.c), and why the storage scheme stands for the matrix it was made from. */
module IcrsProduct {
  import opened SparseMath
  import opened CountingSort
  import opened SparseSums
  import opened Icrs

  // ----- the storage scheme and the matrix -----

  lemma {:induction false} SumEqual(a: seq<Triple>, b: seq<Triple>, f: Triple -> real, h: Triple -> real, n: nat)
    requires n <= |a| && n <= |b| && forall k :: 0 <= k < n ==> f(a[k]) == h(b[k])
    ensures Sum(a, f, n) == Sum(b, h, n)
  {
    if n > 0 { SumEqual(a, b, f, h, n - 1); }
  }

  /** A stored nonzero with its global column. */
  function Translated(t: Triple, columns: seq<int>): Triple {
    if 0 <= t.j < |columns| then Triple(t.i, columns[t.j], t.v) else t
  }

  function Through(f: Triple -> real, columns: seq<int>): Triple -> real {
    (t: Triple) => f(Translated(t, columns))
  }

  function Back(f: Triple -> real): Triple -> real {
    (t: Triple) => f(Triple(t.j, t.i, t.v))
  }

  /** Whatever is summed over the nonzeros, the stored ones give the same sum: the matrix is preserved. */
  lemma MatrixPreserved(v: seq<Triple>, n: nat, f: Triple -> real)
    requires InMatrix(v, n)
    ensures Total(ByRow(v, n), Through(f, Columns(v, n))) == Total(v, f)
  {
    var cs, columns := ByColumn(v, n), Columns(v, n);
    var ns, g, h := Numbered(cs), Through(f, columns), Back(f);
    NumberedInRange(v, cs, n);
    SortedTotal(ns, n, g);
    forall k | 0 <= k < |cs| ensures g(ns[k]) == h(cs[k]) {
      LocalIsFound(Indices(cs), k);
      assert Translated(ns[k], columns) == Triple(cs[k].j, cs[k].i, cs[k].v);
    }
    SumEqual(ns, cs, g, h, |cs|);
    FlippedInRange(v, n);
    SortedTotal(Flipped(v), n, h);
    forall k | 0 <= k < |v| ensures h(Flipped(v)[k]) == f(v[k]) {
      assert Triple(Flipped(v)[k].j, Flipped(v)[k].i, Flipped(v)[k].v) == v[k];
    }
    SumEqual(Flipped(v), v, h, f, |v|);
  }

  /** The stored nonzeros lie by row and then by column, and their local columns are in range. */
  lemma StoredInOrder(v: seq<Triple>, n: nat)
    requires InMatrix(v, n)
    ensures |ByRow(v, n)| == |v| && SortedByBoth(ByRow(v, n)) && InRange(ByRow(v, n), n)
    ensures forall k :: 0 <= k < |v| ==> 0 <= ByRow(v, n)[k].j < |Columns(v, n)|
  {
    var cs := ByColumn(v, n);
    var ns, rs := Numbered(cs), ByRow(v, n);
    NumberedInRange(v, cs, n);
    BinsSortedByIndex(Flipped(v), n, cs);
    forall k, l | 0 <= k < l < |ns| ensures ns[k].j <= ns[l].j {
      LocalGrows(Indices(cs), k, l);
    }
    BinsSorted(ns, n, rs);
    SortedPermutes(ns, Index(), n);
    forall k | 0 <= k < |rs| ensures 0 <= rs[k].j < |Columns(v, n)| {
      assert rs[k] in multiset(ns);
      var l :| 0 <= l < |ns| && ns[l] == rs[k];
      LocalIsFound(Indices(cs), l);
    }
  }

  /** rowindex and colindex increase strictly and list exactly the nonempty rows and columns. */
  lemma IndexLists(v: seq<Triple>, n: nat)
    requires InMatrix(v, n)
    ensures StrictlyIncreasing(Rows(v, n)) && StrictlyIncreasing(Columns(v, n))
    ensures forall x :: x in Rows(v, n) <==> exists k :: 0 <= k < |v| && v[k].i == x
    ensures forall x :: x in Columns(v, n) <==> exists k :: 0 <= k < |v| && v[k].j == x
  {
    var cs, rs := ByColumn(v, n), ByRow(v, n);
    NumberedInRange(v, cs, n);
    StoredInOrder(v, n);
    BinsSortedByIndex(Flipped(v), n, cs);
    BinsSortedByIndex(Numbered(cs), n, rs);
    DistinctIncreases(Indices(cs), |cs|);
    DistinctIncreases(Indices(rs), |rs|);
    SortedPermutes(Flipped(v), Index(), n);
    FlippedInRange(v, n);
    SortedPermutes(Numbered(cs), Index(), n);
    forall x ensures x in Columns(v, n) <==> exists k :: 0 <= k < |v| && v[k].j == x {
      ListsIndices(cs, x);
      SameIndices(cs, Flipped(v), x);
      FlippedIndices(v, x);
    }
    forall x ensures x in Rows(v, n) <==> exists k :: 0 <= k < |v| && v[k].i == x {
      ListsIndices(rs, x);
      SameIndices(rs, Numbered(cs), x);
      NumberedIndices(cs, x);
      SameOthers(cs, Flipped(v), x);
      FlippedOthers(v, x);
    }
  }

  ghost predicate HasIndex(ts: seq<Triple>, x: int) {
    exists k :: 0 <= k < |ts| && ts[k].i == x
  }

  ghost predicate HasOther(ts: seq<Triple>, x: int) {
    exists k :: 0 <= k < |ts| && ts[k].j == x
  }

  lemma ListsIndices(ts: seq<Triple>, x: int)
    ensures x in Distinct(Indices(ts), |ts|) <==> HasIndex(ts, x)
  {
    var s := Indices(ts);
    if HasIndex(ts, x) {
      var k :| 0 <= k < |ts| && ts[k].i == x;
      LocalIsFound(s, k);
    }
    if x in Distinct(s, |ts|) {
      var c :| 0 <= c < |Distinct(s, |ts|)| && Distinct(s, |ts|)[c] == x;
      var l := DistinctOccurs(s, |ts|, c);
      assert ts[l].i == x;
    }
  }

  lemma SameIndices(a: seq<Triple>, b: seq<Triple>, x: int)
    requires multiset(a) == multiset(b)
    ensures HasIndex(a, x) <==> HasIndex(b, x)
  {
    if HasIndex(a, x) { var k :| 0 <= k < |a| && a[k].i == x; assert a[k] in multiset(b); }
    if HasIndex(b, x) { var k :| 0 <= k < |b| && b[k].i == x; assert b[k] in multiset(a); }
  }

  lemma SameOthers(a: seq<Triple>, b: seq<Triple>, x: int)
    requires multiset(a) == multiset(b)
    ensures HasOther(a, x) <==> HasOther(b, x)
  {
    if HasOther(a, x) { var k :| 0 <= k < |a| && a[k].j == x; assert a[k] in multiset(b); }
    if HasOther(b, x) { var k :| 0 <= k < |b| && b[k].j == x; assert b[k] in multiset(a); }
  }

  lemma FlippedIndices(v: seq<Triple>, x: int)
    ensures HasIndex(Flipped(v), x) <==> HasOther(v, x)
  {
    if HasOther(v, x) { var k :| 0 <= k < |v| && v[k].j == x; assert Flipped(v)[k].i == x; }
  }

  lemma FlippedOthers(v: seq<Triple>, x: int)
    ensures HasOther(Flipped(v), x) <==> HasIndex(v, x)
  {
    if HasIndex(v, x) { var k :| 0 <= k < |v| && v[k].i == x; assert Flipped(v)[k].j == x; }
  }

  lemma NumberedIndices(cs: seq<Triple>, x: int)
    ensures HasIndex(Numbered(cs), x) <==> HasOther(cs, x)
  {
    if HasOther(cs, x) { var k :| 0 <= k < |cs| && cs[k].j == x; assert Numbered(cs)[k].i == x; }
  }

  // ----- the loop that is driven by the increments -----

  /** A nonzero's contribution to a row of the product with x. */
  function RowTerm(row: int, x: int -> real): Triple -> real {
    (t: Triple) => if t.i == row then t.v * x(t.j) else 0.0
  }

  /** x as the local copy holds it. */
  function Local(vloc: seq<real>): int -> real {
    j => if 0 <= j < |vloc| then vloc[j] else 0.0
  }

  /** The stored nonzeros in blocks, one for each local row: nonzero k is in local row loc[k], whose global row
    * is rows[loc[k]]. */
  ghost predicate Blocks(rs: seq<Triple>, loc: seq<nat>, rows: seq<int>) {
    && |loc| == |rs| && (rs == [] <==> rows == [])
    && (rs != [] ==> loc[0] == 0 && loc[|rs| - 1] + 1 == |rows|)
    && (forall k :: 0 <= k < |rs| ==> loc[k] < |rows| && rs[k].i == rows[loc[k]])
    && (forall k :: 0 < k < |rs| ==> Follows(rs, loc, k))
    && (forall k, l :: 0 <= k <= l < |rs| ==> loc[k] <= loc[l])
    && (forall i, j :: 0 <= i < j < |rows| ==> rows[i] != rows[j])
  }

  predicate Follows(rs: seq<Triple>, loc: seq<nat>, k: nat)
    requires 0 < k < |rs| == |loc|
  {
    loc[k] == loc[k - 1] + if rs[k].i != rs[k - 1].i then 1 else 0
  }

  /** The local rows. */
  ghost predicate AreLocals(loc: seq<nat>, s: seq<int>) {
    |loc| == |s| && forall k :: 0 <= k < |s| ==> loc[k] == LocalOf(s, k)
  }

  lemma LocalsFound(s: seq<int>, loc: seq<nat>, rows: seq<int>, k: nat)
    requires AreLocals(loc, s) && rows == Distinct(s, |s|) && k < |s|
    ensures loc[k] < |rows| && s[k] == rows[loc[k]]
  {
    LocalIsFound(s, k);
  }

  lemma LocalsStep(s: seq<int>, loc: seq<nat>, k: nat)
    requires AreLocals(loc, s) && 0 < k < |s|
    ensures loc[k] == loc[k - 1] + if s[k] != s[k - 1] then 1 else 0
  {
    LocalStep(s, k);
  }

  lemma LocalsGrow(s: seq<int>, loc: seq<nat>, k: nat, l: nat)
    requires AreLocals(loc, s) && k <= l < |s|
    ensures loc[k] <= loc[l]
  {
    LocalGrows(s, k, l);
  }

  lemma LocalsEnds(s: seq<int>, loc: seq<nat>, rows: seq<int>)
    requires AreLocals(loc, s) && rows == Distinct(s, |s|)
    ensures s != [] ==> loc[0] == 0 && loc[|s| - 1] + 1 == |rows|
    ensures s == [] <==> rows == []
  {
    if s != [] {
      LocalFirst(s);
    }
  }

  /** Sorted nonzeros are in blocks. */
  lemma SortedInBlocks(rs: seq<Triple>, s: seq<int>, loc: seq<nat>, rows: seq<int>)
    requires s == Indices(rs) && Increasing(s) && rows == Distinct(s, |s|) && AreLocals(loc, s)
    ensures Blocks(rs, loc, rows)
  {
    DistinctIncreases(s, |s|);
    LocalsEnds(s, loc, rows);
    forall k | 0 <= k < |rs| ensures loc[k] < |rows| && rs[k].i == rows[loc[k]] {
      LocalsFound(s, loc, rows, k);
    }
    forall k | 0 < k < |rs| ensures Follows(rs, loc, k) {
      LocalsStep(s, loc, k);
    }
    forall k, l | 0 <= k <= l < |rs| ensures loc[k] <= loc[l] {
      LocalsGrow(s, loc, k, l);
    }
  }

  /** Where the column pointer stands before nonzero k, in the loop for local row i. */
  function Pointer(rs: seq<Triple>, loc: seq<nat>, ncols: int, k: nat, i: nat): int
    requires k <= |rs| == |loc|
  {
    if k == |rs| then ncols else if loc[k] == i then rs[k].j else rs[k].j + ncols
  }

  /** Columns are in range. */
  ghost predicate InColumns(rs: seq<Triple>, ncols: int) {
    forall k :: 0 <= k < |rs| ==> 0 <= rs[k].j < ncols
  }

  /** Nonzero k, in local row i, is passed: the pointer moves by the next increment. */
  lemma PointerMoves(rs: seq<Triple>, loc: seq<nat>, rows: seq<int>, ncols: int, k: nat, i: nat)
    requires Blocks(rs, loc, rows) && k < |rs| && loc[k] == i
    ensures Pointer(rs, loc, ncols, k, i) + Increment(rs, ncols, k + 1) == Pointer(rs, loc, ncols, k + 1, i)
    ensures k + 1 < |rs| ==> i <= loc[k + 1] <= i + 1
    ensures k + 1 == |rs| ==> i + 1 == |rows|
  {
    if k + 1 < |rs| { assert Follows(rs, loc, k + 1); }
  }

  /** The loop for row i starts at its first nonzero. */
  ghost predicate AtRow(rs: seq<Triple>, loc: seq<nat>, k: nat, i: nat, nrows: nat) {
    && k <= |rs| == |loc| && i <= nrows
    && (k < |rs| ==> loc[k] == i) && (k == |rs| ==> i == nrows) && (k > 0 ==> loc[k - 1] < i)
  }

  lemma {:induction false} NothingYet(rs: seq<Triple>, f: Triple -> real, k: nat)
    requires k <= |rs| && forall l :: 0 <= l < k ==> f(rs[l]) == 0.0
    ensures Sum(rs, f, k) == 0.0
  {
    if k > 0 { NothingYet(rs, f, k - 1); }
  }

  lemma {:induction false} NothingMore(rs: seq<Triple>, f: Triple -> real, k: nat, n: nat)
    requires k <= n <= |rs| && forall l :: k <= l < n ==> f(rs[l]) == 0.0
    ensures Sum(rs, f, n) == Sum(rs, f, k)
  {
    if k < n { NothingMore(rs, f, k, n - 1); }
  }

  /** f adds up row `row` of the product with x. */
  ghost predicate AddsUp(f: Triple -> real, row: int, x: int -> real) {
    forall t: Triple {:trigger AddsUpAt(f, row, x, t)} :: AddsUpAt(f, row, x, t)
  }

  predicate AddsUpAt(f: Triple -> real, row: int, x: int -> real, t: Triple) {
    f(t) == RowTerm(row, x)(t)
  }

  lemma OtherRow(f: Triple -> real, row: int, x: int -> real, t: Triple)
    requires AddsUp(f, row, x) && t.i != row
    ensures f(t) == 0.0
  {
    assert AddsUpAt(f, row, x, t);
  }

  /** Before its first nonzero a row's sum is empty. */
  lemma RowStarts(rs: seq<Triple>, loc: seq<nat>, rows: seq<int>, k: nat, i: nat, x: int -> real, f: Triple -> real)
    requires Blocks(rs, loc, rows) && AtRow(rs, loc, k, i, |rows|) && i < |rows| && AddsUp(f, rows[i], x)
    ensures Sum(rs, f, k) == 0.0
  {
    forall l | 0 <= l < k ensures f(rs[l]) == 0.0 {
      assert loc[l] <= loc[k - 1] < i;
      OtherRow(f, rows[i], x, rs[l]);
    }
    NothingYet(rs, f, k);
  }

  /** After its last nonzero it is complete. */
  lemma RowEnds(rs: seq<Triple>, loc: seq<nat>, rows: seq<int>, k: nat, i: nat, x: int -> real, f: Triple -> real)
    requires Blocks(rs, loc, rows) && k <= |rs| && i < |rows| && AddsUp(f, rows[i], x) && (k < |rs| ==> loc[k] > i)
    ensures Sum(rs, f, k) == Total(rs, f)
  {
    forall l | k <= l < |rs| ensures f(rs[l]) == 0.0 {
      assert loc[k] <= loc[l];
      OtherRow(f, rows[i], x, rs[l]);
    }
    NothingMore(rs, f, k, |rs|);
  }

  lemma TermIs(f: Triple -> real, t: Triple, row: int, vloc: seq<real>, a: real, b: real, term: real)
    requires AddsUp(f, row, Local(vloc))
    requires t.i == row && a == t.v && 0 <= t.j < |vloc| && b == vloc[t.j] && term == a * b
    ensures f(t) == term
  {
    assert AddsUpAt(f, row, Local(vloc), t);
  }

  /** What the arrays of the stored matrix hold. */
  ghost predicate Arrays(rs: seq<Triple>, a: seq<real>, inc: seq<int>, ncols: int) {
    && InColumns(rs, ncols) && |rs| < |a| && |rs| < |inc|
    && (forall l :: 0 <= l < |rs| ==> a[l] == rs[l].v)
    && (forall l :: 0 <= l <= |rs| ==> inc[l] == Increment(rs, ncols, l))
  }

  /** One nonzero of row i: its product, and the next position of the pointers. */
  method NextNonzero(a: array<real>, inc: array<int>, vloc: array<real>, k: nat, p: int, ghost i: nat,
                     ghost rs: seq<Triple>, ghost loc: seq<nat>, ghost rows: seq<int>, ghost f: Triple -> real)
    returns (term: real, p': int)
    requires Blocks(rs, loc, rows) && Arrays(rs, a[..], inc[..], vloc.Length)
    requires k < |rs| && loc[k] == i && i < |rows| && AddsUp(f, rows[i], Local(vloc[..]))
    requires p == Pointer(rs, loc, vloc.Length, k, i)
    ensures term == f(rs[k]) && p' == Pointer(rs, loc, vloc.Length, k + 1, i)
  {
    assert a[..][k] == a[k] && inc[..][k + 1] == inc[k + 1];
    PointerMoves(rs, loc, rows, vloc.Length, k, i);
    term := a[k] * vloc[p];
    TermIs(f, rs[k], rows[i], vloc[..], a[k], vloc[p], term);
    p' := p + inc[k + 1];
  }

  /** The inner loop, for local row i: adds up its nonzeros and stops at the next row. */
  method RowProduct(a: array<real>, inc: array<int>, vloc: array<real>, k: nat, p: int, ghost i: nat,
                    ghost rs: seq<Triple>, ghost loc: seq<nat>, ghost rows: seq<int>, ghost f: Triple -> real)
    returns (sum: real, k': nat, p': int)
    requires Blocks(rs, loc, rows) && Arrays(rs, a[..], inc[..], vloc.Length)
    requires AtRow(rs, loc, k, i, |rows|) && i < |rows| && AddsUp(f, rows[i], Local(vloc[..]))
    requires p == Pointer(rs, loc, vloc.Length, k, i)
    ensures sum == Total(rs, f)
    ensures AtRow(rs, loc, k', i + 1, |rows|) && p' == Pointer(rs, loc, vloc.Length, k', i)
  {
    ghost var x, ncols := Local(vloc[..]), vloc.Length;
    sum, k', p' := 0.0, k, p;
    RowStarts(rs, loc, rows, k, i, x, f);
    while p' < vloc.Length
      invariant k <= k' <= |rs| && p' == Pointer(rs, loc, ncols, k', i) && sum == Sum(rs, f, k')
      invariant k' < |rs| ==> i <= loc[k'] <= i + 1
      invariant k' == |rs| ==> i + 1 == |rows|
      invariant k' > k ==> loc[k' - 1] == i
      decreases |rs| - k'
    {
      PointerMoves(rs, loc, rows, ncols, k', i);
      var term;
      term, p' := NextNonzero(a, inc, vloc, k', p', i, rs, loc, rows, f);
      sum := sum + term;
      k' := k' + 1;
    }
    RowEnds(rs, loc, rows, k', i, x, f);
  }
}
