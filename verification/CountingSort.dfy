/** The stable counting sort of examples/bspedupack/bspmv_test.c. */
module CountingSort {
  import opened Arithmetic
  import opened Distributions
  import opened SparseMath

  /** The first nz nonzeros stored in the three arrays. */
  function View(ia: array<int>, ja: array<int>, a: array<real>, nz: nat): (v: seq<Triple>)
    requires nz <= ia.Length && nz <= ja.Length && nz <= a.Length
    reads ia, ja, a
    ensures |v| == nz && forall k :: 0 <= k < nz ==> v[k] == Triple(ia[k], ja[k], a[k])
  {
    seq(nz, k requires 0 <= k < nz reads ia, ja, a => Triple(ia[k], ja[k], a[k]))
  }

  // ----- where the bins lie -----

  lemma {:induction false} BinGrows(v: seq<Triple>, key: Key, r: int, k: nat, n: nat)
    requires k <= n <= |v|
    ensures |BinOf(v, key, r, k)| <= |BinOf(v, key, r, n)|
  {
    if k < n { BinGrows(v, key, r, k, n - 1); }
  }

  lemma {:induction false} OffsetsGrow(v: seq<Triple>, key: Key, r: nat, m: nat)
    requires r < m
    ensures |Bins(v, key, r)| + |Bin(v, key, r)| <= |Bins(v, key, m)|
  {
    BinsNext(v, key, m);
    if r < m - 1 { OffsetsGrow(v, key, r, m - 1); }
  }

  /** All keys lie in 0..m. */
  ghost predicate KeysBelow(v: seq<Triple>, key: Key, m: int) {
    forall k :: 0 <= k < |v| ==> 0 <= key(v[k].i) < m
  }

  /** t, if its key x lies in lo..hi. */
  function Counted(t: Triple, x: int, lo: int, hi: int): multiset<Triple> {
    if lo <= x < hi then multiset{t} else multiset{}
  }

  lemma BinOfMore(s: seq<Triple>, s': seq<Triple>, t: Triple, key: Key, r: int)
    requires s' == s + [t]
    ensures multiset(Bin(s', key, r)) == multiset(Bin(s, key, r)) + Counted(t, key(t.i), r, r + 1)
  {
    BinNext(s, t, key, r);
  }

  lemma BinsUnite(s: seq<Triple>, key: Key, m: nat)
    requires m > 0
    ensures multiset(Bins(s, key, m)) == multiset(Bins(s, key, m - 1)) + multiset(Bin(s, key, m - 1))
  {
    BinsNext(s, key, m);
  }

  lemma Rearrange<T>(a: multiset<T>, b: multiset<T>, a': multiset<T>, b': multiset<T>, x: multiset<T>, y: multiset<T>,
                     p: multiset<T>, p': multiset<T>)
    requires a' == a + x && b' == b + y && p == a + b && p' == a' + b'
    ensures p' == p + (x + y)
  {
  }

  lemma CountedSplit(t: Triple, x: int, m: nat)
    requires m > 0
    ensures Counted(t, x, 0, m - 1) + Counted(t, x, m - 1, m) == Counted(t, x, 0, m)
  {
  }

  lemma {:induction false} BinsOfMore(s: seq<Triple>, s': seq<Triple>, t: Triple, x: int, key: Key, m: nat)
    requires s' == s + [t] && x == key(t.i)
    ensures multiset(Bins(s', key, m)) == multiset(Bins(s, key, m)) + Counted(t, x, 0, m)
  {
    if m == 0 {
      assert Bins(s, key, 0) == [] && Bins(s', key, 0) == [];
    } else {
      BinsOfMore(s, s', t, x, key, m - 1);
      BinsOfMoreStep(s, s', t, x, key, m);
    }
  }

  lemma BinsOfMoreStep(s: seq<Triple>, s': seq<Triple>, t: Triple, x: int, key: Key, m: nat)
    requires s' == s + [t] && x == key(t.i) && m > 0
    requires multiset(Bins(s', key, m - 1)) == multiset(Bins(s, key, m - 1)) + Counted(t, x, 0, m - 1)
    ensures multiset(Bins(s', key, m)) == multiset(Bins(s, key, m)) + Counted(t, x, 0, m)
  {
    BinOfMore(s, s', t, key, m - 1);
    BinsUnite(s, key, m);
    BinsUnite(s', key, m);
    CountedSplit(t, x, m);
    Rearrange(multiset(Bins(s, key, m - 1)), multiset(Bin(s, key, m - 1)),
              multiset(Bins(s', key, m - 1)), multiset(Bin(s', key, m - 1)),
              Counted(t, x, 0, m - 1), Counted(t, x, m - 1, m), multiset(Bins(s, key, m)), multiset(Bins(s', key, m)));
  }

  /** The bins together are a permutation. */
  lemma {:induction false} BinsPermute(v: seq<Triple>, key: Key, m: nat, n: nat)
    requires KeysBelow(v, key, m) && n <= |v|
    ensures multiset(Bins(v[..n], key, m)) == multiset(v[..n])
  {
    if n == 0 {
      NoBins(v[..0], key, m);
    } else {
      BinsPermute(v, key, m, n - 1);
      assert v[..n] == v[..n - 1] + [v[n - 1]];
      BinsOfMore(v[..n - 1], v[..n], v[n - 1], key(v[n - 1].i), key, m);
    }
  }

  lemma {:induction false} NoBins(v: seq<Triple>, key: Key, m: nat)
    requires v == []
    ensures Bins(v, key, m) == []
  {
    if m > 0 { NoBins(v, key, m - 1); }
  }

  lemma SortedPermutes(v: seq<Triple>, key: Key, m: nat)
    requires KeysBelow(v, key, m)
    ensures multiset(Bins(v, key, m)) == multiset(v) && |Bins(v, key, m)| == |v|
  {
    BinsPermute(v, key, m, |v|);
    assert v[..|v|] == v;
    assert |multiset(Bins(v, key, m))| == |multiset(v)|;
  }

  /** The first k nonzeros with key r are in their places. */
  predicate BinPlaced(out: seq<Triple>, v: seq<Triple>, key: Key, r: nat, k: nat)
    requires k <= |v|
  {
    var base, b := |Bins(v, key, r)|, BinOf(v, key, r, k);
    base + |b| <= |out| && out[base..base + |b|] == b
  }

  ghost predicate AllPlaced(out: seq<Triple>, v: seq<Triple>, key: Key, m: nat, k: nat)
    requires k <= |v|
  {
    forall r: nat :: r < m ==> BinPlaced(out, v, key, r, k)
  }

  /** Placing nonzero k right after those of its bin. */
  lemma PlaceNext(out: seq<Triple>, out': seq<Triple>, v: seq<Triple>, key: Key, m: nat, k: nat, at: nat, r: nat)
    requires k < |v| == |out| == |out'| && KeysBelow(v, key, m) && r < m
    requires AllPlaced(out, v, key, m, k) && key(v[k].i) == r
    requires at == |Bins(v, key, r)| + |BinOf(v, key, r, k)| < |out|
    requires out' == out[at := v[k]]
    ensures AllPlaced(out', v, key, m, k + 1)
  {
    var n := k + 1;
    forall q: nat | q < m ensures BinPlaced(out', v, key, q, n) {
      PlaceNextBin(out, out', v, key, m, k, at, r, q);
    }
  }

  lemma PlaceNextBin(out: seq<Triple>, out': seq<Triple>, v: seq<Triple>, key: Key, m: nat, k: nat, at: nat,
                     r: nat, q: nat)
    requires k < |v| == |out| == |out'| && r < m && q < m && key(v[k].i) == r
    requires BinPlaced(out, v, key, q, k)
    requires at == |Bins(v, key, r)| + |BinOf(v, key, r, k)| < |out|
    requires out' == out[at := v[k]]
    ensures BinPlaced(out', v, key, q, k + 1)
  {
    var base, b, b' := |Bins(v, key, q)|, BinOf(v, key, q, k), BinOf(v, key, q, k + 1);
    assert out[base..base + |b|] == b;
    if q == r {
      assert b' == b + [v[k]];
      assert out'[base..base + |b'|] == out[base..base + |b|] + [v[k]];
    } else {
      assert b' == b;
      BinGrows(v, key, q, k, |v|);
      BinGrows(v, key, r, k + 1, |v|);
      if q < r { OffsetsGrow(v, key, q, r); } else { OffsetsGrow(v, key, r, q); }
      assert out'[base..base + |b|] == out[base..base + |b|];
    }
  }

  /** Once everything is placed, the output is the bins in order. */
  lemma {:induction false} PlacedIsSorted(out: seq<Triple>, v: seq<Triple>, key: Key, m: nat, r: nat)
    requires AllPlaced(out, v, key, m, |v|) && r <= m
    ensures |Bins(v, key, r)| <= |out| && out[..|Bins(v, key, r)|] == Bins(v, key, r)
  {
    if r > 0 {
      PlacedIsSorted(out, v, key, m, r - 1);
      BinsNext(v, key, r);
      assert BinPlaced(out, v, key, r - 1, |v|);
      var base := |Bins(v, key, r - 1)|;
      assert out[..|Bins(v, key, r)|] == out[..base] + out[base..|Bins(v, key, r)|];
    }
  }

  // ----- the sort -----

  datatype KeyType = DIV | MOD

  /** key is the one the arguments of sort name. */
  ghost predicate Keyed(key: Key, radix: nat, keytype: KeyType)
    requires radix > 0
  {
    forall i {:trigger KeyedAt(key, radix, keytype, i)} :: KeyedAt(key, radix, keytype, i)
  }

  predicate KeyedAt(key: Key, radix: nat, keytype: KeyType, i: int)
    requires radix > 0
  {
    key(i) == SortKey(radix, keytype)(i)
  }

  /** The key of an index. */
  method KeyOf(i: int, radix: nat, keytype: KeyType, ghost key: Key) returns (r: int)
    requires radix > 0 && Keyed(key, radix, keytype)
    ensures r == key(i)
  {
    if keytype == DIV {
      r := i / radix;
    } else {
      r := i % radix;
    }
    assert KeyedAt(key, radix, keytype, i);
  }

  function SortKey(radix: nat, keytype: KeyType): Key
    requires radix > 0
  {
    match keytype
    case DIV => Div(radix)
    case MOD => Mod(radix)
  }

  /** The number of bins. */
  function BinCount(n: nat, radix: nat, keytype: KeyType): (m: nat)
    requires radix > 0
  {
    QuotientNat(n, radix);
    match keytype
    case DIV => if n % radix == 0 then n / radix else n / radix + 1
    case MOD => radix
  }

  /** Every index below n has a bin. */
  lemma EnoughBins(n: nat, radix: nat, keytype: KeyType, i: int)
    requires radix > 0 && 0 <= i < n
    ensures 0 <= SortKey(radix, keytype)(i) < BinCount(n, radix, keytype)
  {
    if keytype == DIV {
      var m := BinCount(n, radix, keytype);
      assert n <= radix * m by { BinsHold(n, radix, m); }
      QuotientBelow(i, radix, m) by { if m <= 0 { MulMonotone(m, 0, radix); } }
    }
  }

  lemma BinsHold(n: nat, radix: nat, m: int)
    requires radix > 0 && m == if n % radix == 0 then n / radix else n / radix + 1
    ensures n <= radix * m
  {
    assert n == n / radix * radix + n % radix;
  }

  /** counts[r] of the first k nonzeros have key r. */
  ghost predicate CountsAre(counts: seq<nat>, v: seq<Triple>, key: Key, k: nat) {
    k <= |v| && forall r: nat :: r < |counts| ==> counts[r] == |BinOf(v, key, r, k)|
  }

  lemma CountsNext(counts: seq<nat>, v: seq<Triple>, key: Key, k: nat, r: nat)
    requires k < |v| && CountsAre(counts, v, key, k) && r < |counts| && key(v[k].i) == r
    ensures CountsAre(counts[r := counts[r] + 1], v, key, k + 1)
  {
  }

  lemma CountsStart(counts: seq<nat>, v: seq<Triple>, key: Key)
    requires forall r :: 0 <= r < |counts| ==> counts[r] == 0
    ensures CountsAre(counts, v, key, 0)
  {
  }

  /** Counts the elements in each bin. */
  method CountBins(ia: array<int>, nz: nat, radix: nat, keytype: KeyType, nbins: nat, ghost v: seq<Triple>,
                   ghost key: Key)
    returns (lengthbin: array<nat>)
    requires radix > 0 && |v| == nz <= ia.Length && (forall k :: 0 <= k < nz ==> v[k].i == ia[k])
    requires Keyed(key, radix, keytype) && KeysBelow(v, key, nbins)
    ensures fresh(lengthbin) && lengthbin.Length == nbins && CountsAre(lengthbin[..], v, key, nz)
  {
    lengthbin := new nat[nbins];
    for r := 0 to nbins
      invariant forall q :: 0 <= q < r ==> lengthbin[q] == 0
    {
      lengthbin[r] := 0;
    }
    CountsStart(lengthbin[..], v, key);
    for k := 0 to nz
      invariant CountsAre(lengthbin[..], v, key, k)
    {
      var r := KeyOf(ia[k], radix, keytype, key);
      assert 0 <= key(v[k].i) < nbins;
      CountsNext(lengthbin[..], v, key, k, r);
      lengthbin[r] := lengthbin[r] + 1;
    }
  }

  /** starts[r] nonzeros belong in earlier bins. */
  ghost predicate StartsAre(starts: seq<nat>, v: seq<Triple>, key: Key) {
    forall r: nat :: r < |starts| ==> starts[r] == |Bins(v, key, r)|
  }

  lemma StartNext(starts: seq<nat>, counts: seq<nat>, v: seq<Triple>, key: Key, r: nat)
    requires StartsAre(starts, v, key) && CountsAre(counts, v, key, |v|) && r < |counts| && r + 1 == |starts|
    ensures StartsAre(starts + [starts[r] + counts[r]], v, key)
  {
    BinsNext(v, key, r + 1);
  }

  /** Computes the starting positions. */
  method StartBins(lengthbin: array<nat>, nbins: nat, ghost v: seq<Triple>, ghost key: Key)
    returns (startbin: array<nat>)
    requires lengthbin.Length == nbins > 0 && CountsAre(lengthbin[..], v, key, |v|)
    ensures fresh(startbin) && startbin.Length == nbins && StartsAre(startbin[..], v, key)
  {
    startbin := new nat[nbins];
    startbin[0] := 0;
    ghost var counts := lengthbin[..];
    assert StartsAre(startbin[..1], v, key) by { assert Bins(v, key, 0) == []; }
    for r := 1 to nbins
      invariant lengthbin[..] == counts && StartsAre(startbin[..r], v, key)
    {
      StartNext(startbin[..r], counts, v, key, r - 1);
      ghost var before := startbin[..r];
      startbin[r] := startbin[r - 1] + lengthbin[r - 1];
      assert startbin[..r + 1] == before + [before[r - 1] + counts[r - 1]];
    }
    assert startbin[..nbins] == startbin[..];
  }

  /** Enters one element into its bin. */
  method Enter(ia: array<int>, ja: array<int>, a: array<real>, k: nat, startbin: array<nat>, r: nat,
               ia1: array<int>, ja1: array<int>, a1: array<real>, ghost nz: nat)
    requires k < ia.Length && k < ja.Length && k < a.Length && r < startbin.Length
    requires startbin[r] < nz == ia1.Length == ja1.Length == a1.Length && ia1 != ja1
    requires ia != ia1 && ia != ja1 && ja != ia1 && ja != ja1 && a != a1
    modifies ia1, ja1, a1, startbin
    ensures View(ia1, ja1, a1, nz)
         == old(View(ia1, ja1, a1, nz))[old(startbin[r]) := Triple(ia[k], ja[k], a[k])]
    ensures startbin[..] == old(startbin[..])[r := old(startbin[r]) + 1]
  {
    var newk := startbin[r];
    ia1[newk] := ia[k];
    ja1[newk] := ja[k];
    a1[newk] := a[k];
    startbin[r] := startbin[r] + 1;
  }

  lemma NothingPlaced(out: seq<Triple>, v: seq<Triple>, key: Key, m: nat)
    requires KeysBelow(v, key, m) && |out| == |v|
    ensures AllPlaced(out, v, key, m, 0)
  {
    SortedPermutes(v, key, m);
    forall r: nat | r < m ensures BinPlaced(out, v, key, r, 0) {
      OffsetsGrow(v, key, r, m);
    }
  }

  /** The next place of every bin. */
  ghost predicate NextAre(next: seq<nat>, starts: seq<nat>, counts: seq<nat>) {
    |next| == |starts| == |counts| && forall r :: 0 <= r < |next| ==> next[r] == starts[r] + counts[r]
  }

  /** The state of the entering: next places and output so far. */
  ghost predicate Filling(next: seq<nat>, out: seq<Triple>, v: seq<Triple>, key: Key, nbins: nat, k: nat,
                          starts: seq<nat>, counts: seq<nat>) {
    && KeysBelow(v, key, nbins) && |starts| == nbins && k <= |v| == |out|
    && StartsAre(starts, v, key) && CountsAre(counts, v, key, k) && NextAre(next, starts, counts)
    && AllPlaced(out, v, key, nbins, k)
  }

  lemma FillingStarts(next: seq<nat>, out: seq<Triple>, v: seq<Triple>, key: Key, nbins: nat, counts: seq<nat>)
    requires KeysBelow(v, key, nbins) && |out| == |v| && |next| == nbins == |counts| && StartsAre(next, v, key)
    requires forall r :: 0 <= r < nbins ==> counts[r] == 0
    ensures Filling(next, out, v, key, nbins, 0, next, counts)
  {
    NothingPlaced(out, v, key, nbins);
    CountsStart(counts, v, key);
  }

  lemma FillingNext(next: seq<nat>, out: seq<Triple>, v: seq<Triple>, key: Key, nbins: nat, k: nat,
                    starts: seq<nat>, counts: seq<nat>, r: int)
    requires Filling(next, out, v, key, nbins, k, starts, counts) && k < |v| && r == key(v[k].i)
    ensures 0 <= r < nbins == |next| == |counts| && next[r] < |out|
    ensures Filling(next[r := next[r] + 1], out[next[r] := v[k]], v, key, nbins, k + 1, starts,
      counts[r := counts[r] + 1])
  {
    PlaceOf(v, key, nbins, k, r, starts, counts, next);
    PlaceNext(out, out[next[r] := v[k]], v, key, nbins, k, next[r], r);
    CountsNext(counts, v, key, k, r);
  }

  /** Enters element k. */
  method EnterOne(ia: array<int>, ja: array<int>, a: array<real>, nz: nat, k: nat, radix: nat, keytype: KeyType,
                  startbin: array<nat>, ia1: array<int>, ja1: array<int>, a1: array<real>,
                  ghost v: seq<Triple>, ghost key: Key, ghost nbins: nat, ghost starts: seq<nat>,
                  ghost counts: seq<nat>)
    returns (ghost counts': seq<nat>)
    requires radix > 0 && k < nz && nz <= ia.Length && nz <= ja.Length && nz <= a.Length && v == View(ia, ja, a, nz)
    requires Keyed(key, radix, keytype) && nz == ia1.Length == ja1.Length == a1.Length && ia1 != ja1
    requires ia != ia1 && ia != ja1 && ja != ia1 && ja != ja1 && a != a1
    requires Filling(startbin[..], View(ia1, ja1, a1, nz), v, key, nbins, k, starts, counts)
    modifies ia1, ja1, a1, startbin
    ensures Filling(startbin[..], View(ia1, ja1, a1, nz), v, key, nbins, k + 1, starts, counts')
  {
    assert v[k] == Triple(ia[k], ja[k], a[k]);
    var r := KeyOf(ia[k], radix, keytype, key);
    ghost var next, out := startbin[..], View(ia1, ja1, a1, nz);
    FillingNext(next, out, v, key, nbins, k, starts, counts, r);
    Enter(ia, ja, a, k, startbin, r, ia1, ja1, a1, nz);
    counts' := counts[r := counts[r] + 1];
  }

  /** Enters the elements into the bins. */
  method FillBins(ia: array<int>, ja: array<int>, a: array<real>, nz: nat, radix: nat, keytype: KeyType,
                  startbin: array<nat>, ghost v: seq<Triple>, ghost key: Key, ghost nbins: nat)
    returns (ia1: array<int>, ja1: array<int>, a1: array<real>)
    requires radix > 0 && nz <= ia.Length && nz <= ja.Length && nz <= a.Length && v == View(ia, ja, a, nz)
    requires Keyed(key, radix, keytype) && nbins == startbin.Length && KeysBelow(v, key, nbins)
    requires StartsAre(startbin[..], v, key)
    modifies startbin
    ensures fresh(ia1) && fresh(ja1) && fresh(a1) && ia1 != ja1 && ia1.Length == ja1.Length == a1.Length == nz
    ensures View(ia1, ja1, a1, nz) == Bins(v, key, nbins)
  {
    ia1, ja1, a1 := new int[nz], new int[nz], new real[nz];
    ghost var starts, counts := startbin[..], seq(nbins, _ => 0);
    FillingStarts(starts, View(ia1, ja1, a1, nz), v, key, nbins, counts);
    for k := 0 to nz
      invariant View(ia, ja, a, nz) == v
      invariant Filling(startbin[..], View(ia1, ja1, a1, nz), v, key, nbins, k, starts, counts)
    {
      counts := EnterOne(ia, ja, a, nz, k, radix, keytype, startbin, ia1, ja1, a1, v, key, nbins, starts, counts);
    }
    FinallySorted(View(ia1, ja1, a1, nz), v, key, nbins);
  }

  lemma FinallySorted(out: seq<Triple>, v: seq<Triple>, key: Key, nbins: nat)
    requires KeysBelow(v, key, nbins) && AllPlaced(out, v, key, nbins, |v|) && |out| == |v|
    ensures out == Bins(v, key, nbins)
  {
    PlacedIsSorted(out, v, key, nbins, nbins);
    SortedPermutes(v, key, nbins);
    assert out[..|v|] == out;
  }

  lemma PlaceOf(v: seq<Triple>, key: Key, m: nat, k: nat, r: nat, starts: seq<nat>, counts: seq<nat>, next: seq<nat>)
    requires KeysBelow(v, key, m) && k < |v| && r < m == |starts| && key(v[k].i) == r
    requires StartsAre(starts, v, key) && CountsAre(counts, v, key, k) && NextAre(next, starts, counts)
    ensures next[r] == |Bins(v, key, r)| + |BinOf(v, key, r, k)| < |v|
  {
    RoomFor(v, key, m, k, r);
  }

  lemma RoomFor(v: seq<Triple>, key: Key, m: nat, k: nat, r: nat)
    requires KeysBelow(v, key, m) && k < |v| && r < m && key(v[k].i) == r
    ensures |Bins(v, key, r)| + |BinOf(v, key, r, k)| < |v|
  {
    BinGrows(v, key, r, k + 1, |v|);
    OffsetsGrow(v, key, r, m);
    SortedPermutes(v, key, m);
  }

  /** sort: the nonzeros by increasing key, keeping the order of those with the same key. */
  method Sort(n: nat, nz: nat, ia: array<int>, ja: array<int>, a: array<real>, radix: nat, keytype: KeyType)
    requires radix > 0 && n > 0 && ia != ja && nz <= ia.Length && nz <= ja.Length && nz <= a.Length
    requires InRange(View(ia, ja, a, nz), n)
    modifies ia, ja, a
    ensures View(ia, ja, a, nz) == Bins(old(View(ia, ja, a, nz)), SortKey(radix, keytype), BinCount(n, radix, keytype))
    ensures InRange(View(ia, ja, a, nz), n) && multiset(View(ia, ja, a, nz)) == multiset(old(View(ia, ja, a, nz)))
  {
    ghost var v, key := View(ia, ja, a, nz), SortKey(radix, keytype);
    var nbins := BinCount(n, radix, keytype);
    forall k | 0 <= k < |v| ensures 0 <= key(v[k].i) < nbins {
      EnoughBins(n, radix, keytype, v[k].i);
    }
    EnoughBins(n, radix, keytype, 0);
    var lengthbin := CountBins(ia, nz, radix, keytype, nbins, v, key);
    var startbin := StartBins(lengthbin, nbins, v, key);
    var ia1, ja1, a1 := FillBins(ia, ja, a, nz, radix, keytype, startbin, v, key, nbins);
    CopyBack(ia, ja, a, nz, ia1, ja1, a1);
    SortedPermutes(v, key, nbins);
    PermutedInRange(v, View(ia, ja, a, nz), n);
  }

  /** Copies the elements back to the original arrays. */
  method CopyBack(ia: array<int>, ja: array<int>, a: array<real>, nz: nat,
                  ia1: array<int>, ja1: array<int>, a1: array<real>)
    requires ia != ja && nz <= ia.Length && nz <= ja.Length && nz <= a.Length
    requires nz == ia1.Length == ja1.Length == a1.Length
    requires ia != ia1 && ia != ja1 && ja != ia1 && ja != ja1 && a != a1
    modifies ia, ja, a
    ensures View(ia, ja, a, nz) == old(View(ia1, ja1, a1, nz))
  {
    for k := 0 to nz
      invariant forall l :: 0 <= l < k ==> ia[l] == ia1[l] && ja[l] == ja1[l] && a[l] == a1[l]
      invariant forall l :: 0 <= l < nz ==> ia1[l] == old(ia1[l]) && ja1[l] == old(ja1[l]) && a1[l] == old(a1[l])
    {
      ia[k] := ia1[k];
      ja[k] := ja1[k];
      a[k] := a1[k];
    }
  }

  lemma PermutedInRange(v: seq<Triple>, out: seq<Triple>, n: int)
    requires InRange(v, n) && multiset(out) == multiset(v)
    ensures InRange(out, n)
  {
    forall k | 0 <= k < |out| ensures 0 <= out[k].i < n {
      assert out[k] in multiset(v);
    }
  }
}
