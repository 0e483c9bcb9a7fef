/** Stable sorting by bins, as examples/bspedupack/bspmv_test.c sorts the nonzeros of a sparse matrix. */
module SparseMath {
  import opened Arithmetic

  /** A nonzero: row or column index to sort by, the other index, and the value. */
  datatype Triple = Triple(i: int, j: int, v: real)

  /** What is taken of an index to choose a bin. */
  type Key = int -> int

  function Index(): Key {
    i => i
  }

  function Mod(radix: nat): Key
    requires radix > 0
  {
    i => i % radix
  }

  function Div(radix: nat): Key
    requires radix > 0
  {
    i => i / radix
  }

  /** The triples with key r among the first n, in order. */
  function BinOf(ts: seq<Triple>, key: Key, r: int, n: nat): (b: seq<Triple>)
    requires n <= |ts|
    ensures |b| <= n
  {
    if n == 0 then []
    else if key(ts[n - 1].i) == r then BinOf(ts, key, r, n - 1) + [ts[n - 1]]
    else BinOf(ts, key, r, n - 1)
  }

  function Bin(ts: seq<Triple>, key: Key, r: int): (b: seq<Triple>)
    ensures |b| <= |ts|
  {
    BinOf(ts, key, r, |ts|)
  }

  /** The first m bins, one after the other. */
  function Bins(ts: seq<Triple>, key: Key, m: nat): seq<Triple>
  {
    if m == 0 then [] else Bins(ts, key, m - 1) + Bin(ts, key, m - 1)
  }

  lemma {:induction false} BinOfPrefix(a: seq<Triple>, c: seq<Triple>, key: Key, r: int, n: nat)
    requires n <= |a| <= |c| && forall k :: 0 <= k < n ==> c[k] == a[k]
    ensures BinOf(c, key, r, n) == BinOf(a, key, r, n)
  {
    if n > 0 { BinOfPrefix(a, c, key, r, n - 1); }
  }

  lemma {:induction false} BinOfConcat(a: seq<Triple>, b: seq<Triple>, c: seq<Triple>, key: Key, r: int, n: nat)
    requires c == a + b && n <= |b|
    ensures BinOf(c, key, r, |a| + n) == BinOf(a, key, r, |a|) + BinOf(b, key, r, n)
  {
    if n == 0 {
      BinOfPrefix(a, c, key, r, |a|);
    } else {
      BinOfConcat(a, b, c, key, r, n - 1);
      assert c[|a| + n - 1] == b[n - 1];
    }
  }

  lemma BinConcat(a: seq<Triple>, b: seq<Triple>, key: Key, r: int)
    ensures Bin(a + b, key, r) == Bin(a, key, r) + Bin(b, key, r)
  {
    BinOfConcat(a, b, a + b, key, r, |b|);
  }

  lemma BinNext(s: seq<Triple>, t: Triple, key: Key, r: int)
    ensures Bin(s + [t], key, r) == if key(t.i) == r then Bin(s, key, r) + [t] else Bin(s, key, r)
  {
    BinOfPrefix(s, s + [t], key, r, |s|);
  }

  /** Selecting by two keys, in either order. */
  lemma {:induction false} BinBin(ts: seq<Triple>, key: Key, r: int, key': Key, r': int, n: nat)
    requires n <= |ts|
    ensures Bin(BinOf(ts, key, r, n), key', r') == Bin(BinOf(ts, key', r', n), key, r)
  {
    if n > 0 {
      BinBin(ts, key, r, key', r', n - 1);
      BinNext(BinOf(ts, key, r, n - 1), ts[n - 1], key', r');
      BinNext(BinOf(ts, key', r', n - 1), ts[n - 1], key, r);
    }
  }

  /** Selecting from the bins of one key is binning what is selected. */
  lemma {:induction false} BinOfBins(ts: seq<Triple>, key: Key, m: nat, key': Key, r': int,
                                     w: seq<Triple>, u: seq<Triple>, c: seq<Triple>)
    requires w == Bins(ts, key, m) && u == Bin(ts, key', r') && c == Bins(u, key, m)
    ensures Bin(w, key', r') == c
  {
    if m > 0 {
      var a, b, c' := Bins(ts, key, m - 1), Bin(ts, key, m - 1), Bins(u, key, m - 1);
      BinOfBins(ts, key, m - 1, key', r', a, u, c');
      BinConcat(a, b, key', r');
      BinBin(ts, key, m - 1, key', r', |ts|);
    }
  }

  lemma BinsNext(ts: seq<Triple>, key: Key, m: nat)
    requires m > 0
    ensures Bins(ts, key, m) == Bins(ts, key, m - 1) + Bin(ts, key, m - 1)
  {
  }

  /** The two digits of an index. */
  lemma {:induction false} TwoDigits(ts: seq<Triple>, radix: nat, q: nat, r: nat, x: nat, n: nat)
    requires radix > 0 && r < radix && x == Start(q, radix) + r && n <= |ts|
    ensures Bin(BinOf(ts, Div(radix), q, n), Mod(radix), r) == BinOf(ts, Index(), x, n)
  {
    if n > 0 {
      TwoDigits(ts, radix, q, r, x, n - 1);
      BinNext(BinOf(ts, Div(radix), q, n - 1), ts[n - 1], Mod(radix), r);
      DigitsOf(ts[n - 1].i, radix, q, r);
    }
  }

  lemma DigitsOf(i: int, radix: nat, q: nat, r: nat)
    requires radix > 0 && r < radix
    ensures i / radix == q && i % radix == r <==> i == Start(q, radix) + r
  {
    StartIs(q, radix);
    if i == q * radix + r {
      DivModUnique(i, radix, q, r);
    }
  }

  /** The bins of the last digit among the triples with first digit q. */
  lemma {:induction false} DigitRow(ts: seq<Triple>, u: seq<Triple>, radix: nat, q: nat, r: nat, base: nat,
                                    a: seq<Triple>, b: seq<Triple>, c: seq<Triple>)
    requires radix > 0 && r <= radix && u == Bin(ts, Div(radix), q) && base == Start(q, radix)
    requires a == Bins(ts, Index(), base) && b == Bins(u, Mod(radix), r) && c == Bins(ts, Index(), base + r)
    ensures a + b == c
  {
    if r > 0 {
      var b', c' := Bins(u, Mod(radix), r - 1), Bins(ts, Index(), base + r - 1);
      DigitRow(ts, u, radix, q, r - 1, base, a, b', c');
      TwoDigits(ts, radix, q, r - 1, base + r - 1, |ts|);
      var d := Bin(ts, Index(), base + r - 1);
      assert b == b' + d && c == c' + d;
    }
  }

  /** Sorting by the last digit and then, stably, by the first sorts by the whole index. */
  lemma {:induction false} TwoPasses(ts: seq<Triple>, s: seq<Triple>, radix: nat, q: nat,
                                     a: seq<Triple>, b: seq<Triple>)
    requires radix > 0 && s == Bins(ts, Mod(radix), radix)
    requires a == Bins(s, Div(radix), q) && b == Bins(ts, Index(), Start(q, radix))
    ensures a == b
  {
    if q > 0 {
      var a', b', u := Bins(s, Div(radix), q - 1), Bins(ts, Index(), Start(q - 1, radix)), Bin(ts, Div(radix), q - 1);
      var c := Bins(u, Mod(radix), radix);
      TwoPasses(ts, s, radix, q - 1, a', b');
      BinOfBins(ts, Mod(radix), radix, Div(radix), q - 1, s, u, c);
      DigitRow(ts, u, radix, q - 1, radix, Start(q - 1, radix), b', c, b);
    }
  }

  /** All indices are in 0..n. */
  ghost predicate InRange(ts: seq<Triple>, n: int) {
    forall k :: 0 <= k < |ts| ==> 0 <= ts[k].i < n
  }

  lemma {:induction false} BinEmpty(ts: seq<Triple>, n: int, r: int, k: nat)
    requires InRange(ts, n) && r >= n && k <= |ts|
    ensures BinOf(ts, Index(), r, k) == []
  {
    if k > 0 { BinEmpty(ts, n, r, k - 1); }
  }

  lemma {:induction false} BinsEnough(ts: seq<Triple>, n: nat, m: nat, a: seq<Triple>, b: seq<Triple>)
    requires InRange(ts, n) && m >= n && a == Bins(ts, Index(), m) && b == Bins(ts, Index(), n)
    ensures a == b
    decreases m
  {
    if m > n {
      BinsEnough(ts, n, m - 1, Bins(ts, Index(), m - 1), b);
      BinEmpty(ts, n, m - 1, |ts|);
    }
  }
}
