/** Incremental compressed row storage: triple2icrs of examples/bspedupack/bspmv_test.c. */
module Icrs {
  import opened Arithmetic
  import opened SparseMath
  import opened CountingSort
  import opened FftMath

  // ----- local numbers of the indices that occur -----

  /** Number k of s differs from the one before. */
  predicate Changes(s: seq<int>, k: nat)
    requires k < |s|
  {
    k == 0 || s[k] != s[k - 1]
  }

  /** The different indices among the first k, each where it first occurs. */
  function Distinct(s: seq<int>, k: nat): (d: seq<int>)
    requires k <= |s|
    ensures |d| <= k && (k > 0 ==> d != [])
  {
    if k == 0 then []
    else if Changes(s, k - 1) then Distinct(s, k - 1) + [s[k - 1]]
    else Distinct(s, k - 1)
  }

  /** The local number of index k. */
  function LocalOf(s: seq<int>, k: nat): nat
    requires k < |s|
  {
    |Distinct(s, k + 1)| - 1
  }

  ghost predicate Increasing(s: seq<int>) {
    forall k, l :: 0 <= k < l < |s| ==> s[k] <= s[l]
  }

  ghost predicate StrictlyIncreasing(s: seq<int>) {
    forall k, l :: 0 <= k < l < |s| ==> s[k] < s[l]
  }

  lemma {:induction false} DistinctPrefix(s: seq<int>, k: nat, n: nat)
    requires k <= n <= |s|
    ensures Distinct(s, k) <= Distinct(s, n)
  {
    if k < n { DistinctPrefix(s, k, n - 1); }
  }

  /** The last of the different indices is the last index. */
  lemma {:induction false} DistinctLast(s: seq<int>, k: nat)
    requires 0 < k <= |s|
    ensures Distinct(s, k)[|Distinct(s, k)| - 1] == s[k - 1]
  {
    if !Changes(s, k - 1) { DistinctLast(s, k - 1); }
  }

  /** The list translates local numbers back. */
  lemma LocalIsFound(s: seq<int>, k: nat)
    requires k < |s|
    ensures LocalOf(s, k) < |Distinct(s, |s|)| && Distinct(s, |s|)[LocalOf(s, k)] == s[k]
  {
    DistinctPrefix(s, k + 1, |s|);
    DistinctLast(s, k + 1);
  }

  /** The list of a sorted sequence is strictly increasing. */
  lemma {:induction false} DistinctIncreases(s: seq<int>, k: nat)
    requires k <= |s| && Increasing(s)
    ensures StrictlyIncreasing(Distinct(s, k))
  {
    if k > 0 {
      DistinctIncreases(s, k - 1);
      if k > 1 {
        DistinctLast(s, k - 1);
        assert s[k - 2] <= s[k - 1];
      }
    }
  }

  /** The list holds only indices that occur. */
  lemma {:induction false} DistinctOccurs(s: seq<int>, k: nat, c: nat) returns (l: nat)
    requires k <= |s| && c < |Distinct(s, k)|
    ensures l < k && LocalOf(s, l) == c && s[l] == Distinct(s, k)[c]
  {
    if c == |Distinct(s, k)| - 1 && Changes(s, k - 1) {
      l := k - 1;
    } else {
      l := DistinctOccurs(s, k - 1, c);
    }
  }

  lemma LocalStep(s: seq<int>, k: nat)
    requires 0 < k < |s|
    ensures LocalOf(s, k) == LocalOf(s, k - 1) + if Changes(s, k) then 1 else 0
  {
    assert Distinct(s, k + 1) == if Changes(s, k) then Distinct(s, k) + [s[k]] else Distinct(s, k);
  }

  lemma {:induction false} LocalGrows(s: seq<int>, k: nat, l: nat)
    requires k <= l < |s|
    ensures LocalOf(s, k) <= LocalOf(s, l)
  {
    DistinctPrefix(s, k + 1, l + 1);
  }

  lemma LocalFirst(s: seq<int>)
    requires s != []
    ensures LocalOf(s, 0) == 0
  {
    assert Distinct(s, 0) == [] && Distinct(s, 1) == Distinct(s, 0) + [s[0]];
  }

  // ----- the loops over a sorted array of indices -----

  /** Counts the different indices. */
  method CountDistinct(ja: array<int>, nz: nat) returns (count: nat)
    requires nz <= ja.Length && forall k :: 0 <= k < nz ==> ja[k] >= 0
    ensures count == |Distinct(ja[..nz], nz)|
  {
    count := 0;
    var last := -1;
    ghost var s := ja[..nz];
    for k := 0 to nz
      invariant count == |Distinct(s, k)| && last == if k == 0 then -1 else s[k - 1]
    {
      var index := ja[k];
      assert index == s[k];
      if index != last {
        count := count + 1;
      }
      last := index;
    }
  }

  /** Lists the different indices, and replaces every index by its local number. */
  method NumberColumns(ja: array<int>, nz: nat, ncols: nat) returns (colindex: array<int>)
    requires nz <= ja.Length && (forall k :: 0 <= k < nz ==> ja[k] >= 0) && ncols == |Distinct(ja[..nz], nz)|
    modifies ja
    ensures fresh(colindex) && colindex[..] == Distinct(old(ja[..nz]), nz)
    ensures forall k :: 0 <= k < nz ==> ja[k] == LocalOf(old(ja[..nz]), k)
    ensures ja[nz..] == old(ja[nz..])
  {
    colindex := new int[ncols];
    ghost var s := ja[..nz];
    var j, last := 0, -1;
    for k := 0 to nz
      invariant j == |Distinct(s, k)| <= ncols && colindex[..j] == Distinct(s, k)
      invariant last == if k == 0 then -1 else s[k - 1]
      invariant forall l :: 0 <= l < nz ==> ja[l] == if l < k then LocalOf(s, l) else s[l]
      invariant ja[nz..] == old(ja[nz..])
    {
      var index := ja[k];
      DistinctPrefix(s, k + 1, nz);
      if index != last {
        colindex[j] := index;
        j := j + 1;
      }
      ja[k] := j - 1;
      last := index;
    }
    assert colindex[..ncols] == colindex[..];
  }

  // ----- the storage scheme as a function of the nonzeros -----

  function Indices(ts: seq<Triple>): (s: seq<int>)
    ensures |s| == |ts|
  {
    seq(|ts|, k requires 0 <= k < |ts| => ts[k].i)
  }

  /** Rows and columns exchanged. */
  function Flipped(ts: seq<Triple>): (s: seq<Triple>)
    ensures |s| == |ts|
  {
    seq(|ts|, k requires 0 <= k < |ts| => Triple(ts[k].j, ts[k].i, ts[k].v))
  }

  /** From nonzeros (column, row, value) by increasing column to nonzeros (row, local column, value). */
  function Numbered(cs: seq<Triple>): (s: seq<Triple>)
    ensures |s| == |cs|
  {
    seq(|cs|, k requires 0 <= k < |cs| => Triple(cs[k].j, LocalOf(Indices(cs), k), cs[k].v))
  }

  /** The nonzeros by column. */
  function ByColumn(v: seq<Triple>, n: nat): seq<Triple> {
    Bins(Flipped(v), Index(), n)
  }

  /** The nonzeros (row, local column, value) by row and then by column. */
  function ByRow(v: seq<Triple>, n: nat): seq<Triple> {
    Bins(Numbered(ByColumn(v, n)), Index(), n)
  }

  /** The global numbers of the nonempty columns. */
  function Columns(v: seq<Triple>, n: nat): seq<int> {
    Distinct(Indices(ByColumn(v, n)), |ByColumn(v, n)|)
  }

  /** The global numbers of the nonempty rows. */
  function Rows(v: seq<Triple>, n: nat): seq<int> {
    Distinct(Indices(ByRow(v, n)), |ByRow(v, n)|)
  }

  /** The increment stored with nonzero k, or after the last one. */
  function Increment(rs: seq<Triple>, ncols: int, k: nat): int
    requires k <= |rs|
  {
    if k == |rs| then (if rs == [] then 0 else ncols - rs[k - 1].j)
    else if k == 0 then rs[0].j
    else rs[k].j - rs[k - 1].j + if rs[k].i != rs[k - 1].i then ncols else 0
  }

  /** All row and column indices are in 0..n. */
  ghost predicate InMatrix(v: seq<Triple>, n: int) {
    forall k :: 0 <= k < |v| ==> 0 <= v[k].i < n && 0 <= v[k].j < n
  }

  // ----- the conversion -----

  /** A complete sort by index: by the last digit, then by the first. */
  method SortWhole(n: nat, nz: nat, ia: array<int>, ja: array<int>, a: array<real>, radix: nat)
    requires radix > 0 && n > 0 && ia != ja && nz <= ia.Length && nz <= ja.Length && nz <= a.Length
    requires InRange(View(ia, ja, a, nz), n)
    modifies ia, ja, a
    ensures View(ia, ja, a, nz) == Bins(old(View(ia, ja, a, nz)), Index(), n)
  {
    ghost var v := View(ia, ja, a, nz);
    Sort(n, nz, ia, ja, a, radix, MOD);
    ghost var w := View(ia, ja, a, nz);
    Sort(n, nz, ia, ja, a, radix, DIV);
    ghost var q := BinCount(n, radix, DIV);
    TwoPasses(v, w, radix, q, Bins(w, Div(radix), q), Bins(v, Index(), Start(q, radix)));
    StartIs(q, radix);
    BinsHold(n, radix, q);
    BinsEnough(v, n, Start(q, radix), Bins(v, Index(), Start(q, radix)), Bins(v, Index(), n));
  }

  /** The radix. */
  method FindRadix(n: nat) returns (radix: nat)
    ensures radix > 0 && radix * radix >= n
    ensures exists e: nat :: radix == P2(e) && forall f: nat :: f < e ==> P2(f) * P2(f) < n
  {
    radix := 1;
    ghost var e: nat := 0;
    while radix * radix < n
      invariant radix == P2(e) && forall f: nat :: f < e ==> P2(f) * P2(f) < n
      decreases n - radix
    {
      MulMonotone(1, radix, radix);
      radix, e := 2 * radix, e + 1;
    }
  }

  /** Lists the nonempty rows, and stores the increments in place of the row indices. */
  method NumberRows(ia: array<int>, ja: array<int>, nz: nat, nrows: nat, ncols: int, ghost rs: seq<Triple>)
    returns (rowindex: array<int>)
    requires ia != ja && nz == |rs| < ia.Length && nz < ja.Length && nrows == |Distinct(Indices(rs), nz)|
    requires forall k :: 0 <= k < nz ==> ia[k] == rs[k].i >= 0
    requires forall k :: 0 <= k < nz ==> ja[k] == rs[k].j
    modifies ia
    ensures fresh(rowindex) && rowindex[..] == Distinct(Indices(rs), nz)
    ensures forall k :: 0 <= k < nz ==> ia[k] == Increment(rs, ncols, k)
  {
    rowindex := new int[nrows];
    ghost var s, incs := Indices(rs), Increments(rs, ncols);
    ghost var d: seq<int> := [];
    var i, last := 0, -1;
    for k := 0 to nz
      invariant d == Distinct(s, k) && |d| == i <= nrows && rowindex[..i] == d
      invariant last == if k == 0 then -1 else rs[k - 1].i
      invariant forall l :: k <= l < nz ==> ia[l] == rs[l].i
      invariant forall l :: 0 <= l < k ==> ia[l] == incs[l]
    {
      ghost var inck := if k == 0 then ja[k] else ja[k] - ja[k - 1];
      d := RowStep(rs, s, ncols, k, nz, inck, ia[k], last, d);
      i, last := RowEntry(ia, ja, rowindex, k, i, last, ncols, nz);
    }
    assert rowindex[..nrows] == rowindex[..];
  }

  /** One round of the loop over the rows. */
  method RowEntry(ia: array<int>, ja: array<int>, rowindex: array<int>, k: nat, i: nat, last: int, ncols: int,
                  ghost nz: nat)
    returns (i': nat, index: int)
    requires ia != ja && ia != rowindex && ja != rowindex && k < nz <= ia.Length && nz <= ja.Length
    requires i <= rowindex.Length && (ia[k] != last ==> i < rowindex.Length)
    modifies ia, rowindex
    ensures index == old(ia[k])
    ensures i' == if index != last then i + 1 else i
    ensures rowindex[..i'] == if index != last then old(rowindex[..i]) + [index] else old(rowindex[..i])
    ensures ia[k] == (if k == 0 then ja[k] else ja[k] - ja[k - 1]) + if index != last && k > 0 then ncols else 0
    ensures forall l :: 0 <= l < nz && l != k ==> ia[l] == old(ia[l])
  {
    var inck := if k == 0 then ja[k] else ja[k] - ja[k - 1];
    index := ia[k];
    i' := i;
    if index != last {
      rowindex[i] := index;
      i' := i + 1;
      if k > 0 {
        inck := inck + ncols;
      }
    }
    ia[k] := inck;
  }

  function Increments(rs: seq<Triple>, ncols: int): (s: seq<int>)
    ensures |s| == |rs| && forall k :: 0 <= k < |rs| ==> s[k] == Increment(rs, ncols, k)
  {
    seq(|rs|, k requires 0 <= k < |rs| => Increment(rs, ncols, k))
  }

  /** What one round of the loop over the rows does. */
  lemma RowStep(rs: seq<Triple>, s: seq<int>, ncols: int, k: nat, nz: nat, inck: int, index: int, last: int,
                d: seq<int>)
    returns (d': seq<int>)
    requires k < nz == |rs| && s == Indices(rs) && index == rs[k].i >= 0 && d == Distinct(s, k)
    requires inck == (if k == 0 then rs[k].j else rs[k].j - rs[k - 1].j)
    requires last == if k == 0 then -1 else rs[k - 1].i
    ensures d' == Distinct(s, k + 1) == (if index != last then d + [index] else d)
    ensures |d'| <= |Distinct(s, nz)|
    ensures Increments(rs, ncols)[k] == inck + if index != last && k > 0 then ncols else 0
  {
    d' := Distinct(s, k + 1);
    DistinctPrefix(s, k + 1, nz);
  }

  /** The increment after the last nonzero. */
  method Close(ia: array<int>, ja: array<int>, a: array<real>, nz: nat, ncols: int, ghost rs: seq<Triple>)
    requires ia != ja && nz == |rs| < ia.Length && nz < ja.Length && nz < a.Length
    requires forall k :: 0 <= k < nz ==> ja[k] == rs[k].j
    modifies ia, ja, a
    ensures ia[nz] == Increment(rs, ncols, nz)
    ensures forall k :: 0 <= k < nz ==> ia[k] == old(ia[k]) && a[k] == old(a[k])
  {
    if nz == 0 {
      ia[nz] := 0;
    } else {
      ia[nz] := ncols - ja[nz - 1];
    }
    ja[nz] := 0;
    a[nz] := 0.0;
  }

  lemma FlippedInRange(v: seq<Triple>, n: int)
    requires InMatrix(v, n)
    ensures InRange(Flipped(v), n)
  {
  }

  /** What the column pass leaves. */
  lemma NumberedInRange(v: seq<Triple>, cs: seq<Triple>, n: nat)
    requires InMatrix(v, n) && cs == ByColumn(v, n)
    ensures |cs| == |v| && InRange(cs, n) && InRange(Numbered(cs), n)
    ensures forall k :: 0 <= k < |cs| ==> 0 <= cs[k].j < n
  {
    var f := Flipped(v);
    FlippedInRange(v, n);
    SortedPermutes(f, Index(), n);
    forall k | 0 <= k < |cs| ensures 0 <= cs[k].i < n && 0 <= cs[k].j < n {
      assert cs[k] in multiset(f);
    }
  }

  /** The nonzeros in storage after the columns have been numbered. */
  method ColumnPass(n: nat, nz: nat, ia: array<int>, ja: array<int>, a: array<real>, radix: nat)
    returns (ncols: nat, colindex: array<int>)
    requires radix > 0 && n > 0 && ia != ja && nz <= ia.Length && nz <= ja.Length && nz <= a.Length
    requires InMatrix(View(ia, ja, a, nz), n)
    modifies ia, ja, a
    ensures fresh(colindex) && ncols == |Columns(old(View(ia, ja, a, nz)), n)|
    ensures colindex[..] == Columns(old(View(ia, ja, a, nz)), n)
    ensures View(ia, ja, a, nz) == Numbered(ByColumn(old(View(ia, ja, a, nz)), n))
  {
    ghost var v := View(ia, ja, a, nz);
    assert View(ja, ia, a, nz) == Flipped(v);
    FlippedInRange(v, n);
    SortWhole(n, nz, ja, ia, a, radix);
    ghost var cs := View(ja, ia, a, nz);
    NumberedInRange(v, cs, n);
    assert forall k :: 0 <= k < nz ==> cs[k] == Triple(ja[k], ia[k], a[k]);
    assert ja[..nz] == Indices(cs);
    ncols := CountDistinct(ja, nz);
    colindex := NumberColumns(ja, nz, ncols);
    assert View(ia, ja, a, nz) == Numbered(cs);
  }

  /** triple2icrs: from nonzeros with global indices to incremental compressed rows with local ones. */
  method Triple2Icrs(n: nat, nz: nat, ia: array<int>, ja: array<int>, a: array<real>)
    returns (nrows: nat, ncols: nat, rowindex: array<int>, colindex: array<int>)
    requires n > 0 && ia != ja && nz < ia.Length && nz < ja.Length && nz < a.Length
    requires InMatrix(View(ia, ja, a, nz), n)
    modifies ia, ja, a
    ensures rowindex[..] == Rows(old(View(ia, ja, a, nz)), n) && nrows == rowindex.Length
    ensures colindex[..] == Columns(old(View(ia, ja, a, nz)), n) && ncols == colindex.Length
    ensures |ByRow(old(View(ia, ja, a, nz)), n)| == nz
    ensures forall k :: 0 <= k < nz ==> a[k] == ByRow(old(View(ia, ja, a, nz)), n)[k].v
    ensures forall k :: 0 <= k <= nz ==> ia[k] == Increment(ByRow(old(View(ia, ja, a, nz)), n), ncols, k)
  {
    ghost var v := View(ia, ja, a, nz);
    var radix := FindRadix(n);
    ncols, colindex := ColumnPass(n, nz, ia, ja, a, radix);
    ghost var ns := View(ia, ja, a, nz);
    NumberedInRange(v, ByColumn(v, n), n);
    SortWhole(n, nz, ia, ja, a, radix);
    ghost var rs := View(ia, ja, a, nz);
    SortedPermutes(ns, Index(), n);
    PermutedInRange(ns, rs, n);
    assert forall k :: 0 <= k < nz ==> rs[k] == Triple(ia[k], ja[k], a[k]);
    assert ia[..nz] == Indices(rs);
    nrows := CountDistinct(ia, nz);
    rowindex := NumberRows(ia, ja, nz, nrows, ncols, rs);
    Close(ia, ja, a, nz, ncols, rs);
  }
}
