/** The whole sparse computation: every processor converts its nonzeros, bspmv_init works out the owners, and bspmv
  * multiplies. */
module SparseRun {
  import opened SparseMath
  import opened CountingSort
  import opened Icrs
  import opened IcrsProduct
  import opened BspMv

  /** The nonzeros of one processor as they are read: nz triples with global indices. */
  datatype Coordinates = Coordinates(nz: nat, ia: array<int>, ja: array<int>, a: array<real>)

  ghost predicate Given(c: Coordinates, ts: seq<Triple>, n: nat)
    reads c.ia, c.ja, c.a
  {
    && c.ia != c.ja && c.nz < c.ia.Length && c.nz < c.ja.Length && c.nz < c.a.Length
    && View(c.ia, c.ja, c.a, c.nz) == ts && InMatrix(ts, n)
  }

  /** What triple2icrs leaves is what bspmv expects. */
  method Convert(n: nat, c: Coordinates, ghost ts: seq<Triple>) returns (m: Stored)
    requires n > 0 && Given(c, ts, n)
    modifies c.ia, c.ja, c.a
    ensures Stores(m, ts, n) && m.a == c.a && m.inc == c.ia
  {
    var nrows, ncols, rowindex, colindex := Triple2Icrs(n, c.nz, c.ia, c.ja, c.a);
    m := Stored(c.a, c.ia, rowindex[..], colindex[..]);
    StoredInOrder(ts, n);
  }

  /** Processors share no arrays. */
  ghost predicate OwnArrays(cs: seq<Coordinates>) {
    forall s, t :: 0 <= s < |cs| && 0 <= t < |cs| && s != t ==> Unshared(cs[s], cs[t])
  }

  predicate Unshared(c: Coordinates, d: Coordinates) {
    c.ia != d.ia && c.ia != d.ja && c.ja != d.ia && c.ja != d.ja && c.a != d.a
  }

  method ConvertAll(n: nat, cs: seq<Coordinates>, ghost tss: seq<seq<Triple>>) returns (ms: seq<Stored>)
    requires n > 0 && |tss| == |cs| && OwnArrays(cs) && forall s :: 0 <= s < |cs| ==> Given(cs[s], tss[s], n)
    modifies set c | c in cs :: c.ia, set c | c in cs :: c.ja, set c | c in cs :: c.a
    ensures |ms| == |cs|
    ensures forall s :: 0 <= s < |cs| ==> Stores(ms[s], tss[s], n) && ms[s].a == cs[s].a && ms[s].inc == cs[s].ia
  {
    ms := [];
    for s := 0 to |cs|
      invariant |ms| == s
      invariant forall t :: 0 <= t < s ==> Stores(ms[t], tss[t], n) && ms[t].a == cs[t].a && ms[t].inc == cs[t].ia
      invariant forall t :: s <= t < |cs| ==> Given(cs[t], tss[t], n)
    {
      forall t | 0 <= t < |cs| && t != s ensures Unshared(cs[s], cs[t]) {}
      var m := Convert(n, cs[s], tss[s]);
      ms := ms + [m];
    }
  }

  /** Convert, initialise and multiply: component i of every processor's part of u becomes the sum over j of
    * A(i,j) V(j), where A is the sum of the matrices that the processors' triples stand for. */
  method SparseProduct(cs: seq<Coordinates>, vs: seq<seq<real>>, us: seq<array<real>>, p: nat, l: Layout,
                       tmpprocv: seq<array<int>>, tmpindv: seq<array<int>>, tmpprocu: seq<array<int>>,
                       tmpindu: seq<array<int>>, ghost tss: seq<seq<Triple>>, ghost V: int -> real)
    requires Proper(l, p) && HoldsVector(vs, l.vindex, V) && |cs| == |tss| == p && Room(us, l) && l.n > 0
    requires OwnArrays(cs) && forall s :: 0 <= s < p ==> Given(cs[s], tss[s], l.n)
    requires forall s, d :: 0 <= s < p && 0 <= d < p ==> cs[s].a != us[d]
    requires Tables(tmpprocv, p, l.n) && Tables(tmpindv, p, l.n) && Tables(tmpprocu, p, l.n) && Tables(tmpindu, p, l.n)
    requires Disjoint(tmpprocv, tmpindv) && Disjoint(tmpprocu, tmpindu)
    requires Disjoint(tmpprocv, tmpprocu) && Disjoint(tmpprocv, tmpindu) && Disjoint(tmpindv, tmpprocu)
      && Disjoint(tmpindv, tmpindu)
    requires forall s :: 0 <= s < p ==>
      cs[s].ia !in tmpprocv && cs[s].ia !in tmpindv && cs[s].ia !in tmpprocu && cs[s].ia !in tmpindu
    modifies set c | c in cs :: c.ia, set c | c in cs :: c.ja, set c | c in cs :: c.a
    modifies tmpprocv, tmpindv, tmpprocu, tmpindu, us
    ensures forall d, i :: 0 <= d < p && 0 <= i < us[d].Length ==>
      us[d][i] == MatrixTimes(tss, l.uindex[d][i], V, p, l.n)
  {
    var ms := ConvertAll(l.n, cs, tss);
    forall s | 0 <= s < p ensures Lists(ms[s], l.n) {
      assert Stores(ms[s], tss[s], l.n);
      IndicesInRange(tss[s], l.n);
    }
    var plans := BspmvInit(ms, p, l, tmpprocv, tmpindv, tmpprocu, tmpindu);
    Bspmv(ms, plans, vs, us, p, l, tss, V);
  }
}
