/** What sorting the nonzeros of a sparse matrix preserves: order within bins, and sums. */
module SparseSums {
  import opened SparseMath
  import opened CountingSort

  // ----- order -----

  /** Nonzeros by increasing index. */
  ghost predicate SortedByIndex(ts: seq<Triple>) {
    forall k, l :: 0 <= k < l < |ts| ==> ts[k].i <= ts[l].i
  }

  /** Nonzeros by increasing other index. */
  ghost predicate SortedByOther(ts: seq<Triple>) {
    forall k, l :: 0 <= k < l < |ts| ==> ts[k].j <= ts[l].j
  }

  predicate Before(s: Triple, t: Triple) {
    s.i < t.i || (s.i == t.i && s.j <= t.j)
  }

  /** Nonzeros by increasing index, those with equal indices by increasing other index. */
  ghost predicate SortedByBoth(ts: seq<Triple>) {
    forall k, l :: 0 <= k < l < |ts| ==> Before(ts[k], ts[l])
  }

  /** Index r only, in the order of ts. */
  lemma {:induction false} BinSorted(ts: seq<Triple>, r: int, n: nat)
    requires n <= |ts| && SortedByOther(ts)
    ensures forall k :: 0 <= k < |BinOf(ts, Index(), r, n)| ==> BinOf(ts, Index(), r, n)[k].i == r
    ensures n > 0 ==> forall k :: 0 <= k < |BinOf(ts, Index(), r, n)| ==> BinOf(ts, Index(), r, n)[k].j <= ts[n - 1].j
    ensures SortedByOther(BinOf(ts, Index(), r, n))
  {
    if n > 0 {
      BinSorted(ts, r, n - 1);
      var b := BinOf(ts, Index(), r, n - 1);
      forall k | 0 <= k < |b| ensures b[k].j <= ts[n - 1].j {
        assert n > 1;
      }
    }
  }

  /** A stable sort by index of nonzeros in the order of the other index sorts by both. */
  lemma {:induction false} BinsSorted(ts: seq<Triple>, m: nat, out: seq<Triple>)
    requires SortedByOther(ts) && out == Bins(ts, Index(), m)
    ensures SortedByBoth(out) && InRange(out, m)
  {
    if m > 0 {
      var a, b := Bins(ts, Index(), m - 1), Bin(ts, Index(), m - 1);
      BinsNext(ts, Index(), m);
      BinsSorted(ts, m - 1, a);
      BinSorted(ts, m - 1, |ts|);
      Appended(a, b, m - 1);
    }
  }

  lemma Appended(a: seq<Triple>, b: seq<Triple>, r: int)
    requires SortedByBoth(a) && InRange(a, r) && SortedByOther(b) && r >= 0
    requires forall k :: 0 <= k < |b| ==> b[k].i == r
    ensures SortedByBoth(a + b) && InRange(a + b, r + 1)
  {
    var c := a + b;
    forall k, l | 0 <= k < l < |c| ensures Before(c[k], c[l]) {
      if l < |a| {
        assert Before(a[k], a[l]);
      }
    }
  }

  lemma {:induction false} BinHasIndex(ts: seq<Triple>, r: int, n: nat)
    requires n <= |ts|
    ensures forall k :: 0 <= k < |BinOf(ts, Index(), r, n)| ==> BinOf(ts, Index(), r, n)[k].i == r
  {
    if n > 0 { BinHasIndex(ts, r, n - 1); }
  }

  /** Any input comes out by increasing index. */
  lemma {:induction false} BinsSortedByIndex(ts: seq<Triple>, m: nat, out: seq<Triple>)
    requires out == Bins(ts, Index(), m)
    ensures SortedByIndex(out) && InRange(out, m)
  {
    if m > 0 {
      var a, b := Bins(ts, Index(), m - 1), Bin(ts, Index(), m - 1);
      BinsNext(ts, Index(), m);
      BinsSortedByIndex(ts, m - 1, a);
      BinHasIndex(ts, m - 1, |ts|);
    }
  }

  // ----- sums -----

  /** The sum of f over the first n nonzeros. */
  function Sum(ts: seq<Triple>, f: Triple -> real, n: nat): real
    requires n <= |ts|
  {
    if n == 0 then 0.0 else Sum(ts, f, n - 1) + f(ts[n - 1])
  }

  function Total(ts: seq<Triple>, f: Triple -> real): real {
    Sum(ts, f, |ts|)
  }

  lemma {:induction false} SumPrefix(a: seq<Triple>, c: seq<Triple>, f: Triple -> real, n: nat)
    requires n <= |a| <= |c| && forall k :: 0 <= k < n ==> c[k] == a[k]
    ensures Sum(c, f, n) == Sum(a, f, n)
  {
    if n > 0 { SumPrefix(a, c, f, n - 1); }
  }

  lemma {:induction false} SumConcat(a: seq<Triple>, b: seq<Triple>, c: seq<Triple>, f: Triple -> real, n: nat)
    requires c == a + b && n <= |b|
    ensures Sum(c, f, |a| + n) == Sum(a, f, |a|) + Sum(b, f, n)
  {
    if n == 0 {
      SumPrefix(a, c, f, |a|);
    } else {
      SumConcat(a, b, c, f, n - 1);
      assert c[|a| + n - 1] == b[n - 1];
    }
  }

  lemma TotalNext(s: seq<Triple>, t: Triple, f: Triple -> real)
    ensures Total(s + [t], f) == Total(s, f) + f(t)
  {
    SumPrefix(s, s + [t], f, |s|);
  }

  /** f(t), if its key x lies in lo..hi. */
  function Weighed(t: Triple, f: Triple -> real, x: int, lo: int, hi: int): real {
    if lo <= x < hi then f(t) else 0.0
  }

  lemma {:induction false} TotalBinsOfMore(s: seq<Triple>, s': seq<Triple>, t: Triple, x: int, key: Key, m: nat,
                                           f: Triple -> real)
    requires s' == s + [t] && x == key(t.i)
    ensures Total(Bins(s', key, m), f) == Total(Bins(s, key, m), f) + Weighed(t, f, x, 0, m)
  {
    if m == 0 {
      assert Bins(s, key, 0) == [] && Bins(s', key, 0) == [];
    } else {
      TotalBinsOfMore(s, s', t, x, key, m - 1, f);
      TotalBins(s, key, m, f);
      TotalBins(s', key, m, f);
      TotalBinOfMore(s, s', t, key, m - 1, f);
    }
  }

  lemma TotalBins(s: seq<Triple>, key: Key, m: nat, f: Triple -> real)
    requires m > 0
    ensures Total(Bins(s, key, m), f) == Total(Bins(s, key, m - 1), f) + Total(Bin(s, key, m - 1), f)
  {
    BinsNext(s, key, m);
    SumConcat(Bins(s, key, m - 1), Bin(s, key, m - 1), Bins(s, key, m), f, |Bin(s, key, m - 1)|);
  }

  lemma TotalBinOfMore(s: seq<Triple>, s': seq<Triple>, t: Triple, key: Key, r: int, f: Triple -> real)
    requires s' == s + [t]
    ensures Total(Bin(s', key, r), f) == Total(Bin(s, key, r), f) + Weighed(t, f, key(t.i), r, r + 1)
  {
    BinNext(s, t, key, r);
    TotalNext(Bin(s, key, r), t, f);
  }

  /** Sorting does not change a sum over all nonzeros. */
  lemma {:induction false} TotalSorted(v: seq<Triple>, key: Key, m: nat, f: Triple -> real, n: nat)
    requires KeysBelow(v, key, m) && n <= |v|
    ensures Total(Bins(v[..n], key, m), f) == Sum(v, f, n)
  {
    if n == 0 {
      NoBins(v[..0], key, m);
    } else {
      TotalSorted(v, key, m, f, n - 1);
      assert v[..n] == v[..n - 1] + [v[n - 1]];
      TotalBinsOfMore(v[..n - 1], v[..n], v[n - 1], key(v[n - 1].i), key, m, f);
    }
  }

  lemma SortedTotal(v: seq<Triple>, n: nat, f: Triple -> real)
    requires InRange(v, n)
    ensures Total(Bins(v, Index(), n), f) == Total(v, f)
  {
    assert v[..|v|] == v;
    TotalSorted(v, Index(), n, f, |v|);
  }
}
