/** Sums behind the distributed sparse matrix-vector product of examples/bspedupack/bspmv.c. */
module BspMvMath {
  import opened SparseMath
  import opened SparseSums
  import opened Icrs
  import opened IcrsProduct

  // ----- the matrix that nonzeros stand for -----

  function EntryTerm(i: int, j: int): Triple -> real {
    (t: Triple) => if t.i == i && t.j == j then t.v else 0.0
  }

  /** Entry (i,j) of the matrix with these nonzeros. */
  function Entry(ts: seq<Triple>, i: int, j: int): real {
    Total(ts, EntryTerm(i, j))
  }

  /** The first n terms of entry i of the product of the matrix with x. */
  function RowTimes(ts: seq<Triple>, i: int, x: int -> real, n: nat): real {
    if n == 0 then 0.0 else RowTimes(ts, i, x, n - 1) + Entry(ts, i, n - 1) * x(n - 1)
  }

  /** One more nonzero contributes to one column. */
  lemma {:induction false} OneMoreNonzero(s: seq<Triple>, t: Triple, i: int, x: int -> real, n: nat)
    ensures RowTimes(s + [t], i, x, n)
         == RowTimes(s, i, x, n) + if t.i == i && 0 <= t.j < n then t.v * x(t.j) else 0.0
  {
    if n > 0 {
      OneMoreNonzero(s, t, i, x, n - 1);
      TotalNext(s, t, EntryTerm(i, n - 1));
      var e := EntryTerm(i, n - 1)(t);
      assert e == if t.i == i && t.j == n - 1 then t.v else 0.0;
      Expand(Entry(s, i, n - 1), e, x(n - 1));
      assert t.j != n - 1 || t.i != i ==> e * x(n - 1) == 0.0;
      assert Entry(s + [t], i, n - 1) == Entry(s, i, n - 1) + e;
    }
  }

  lemma Expand(a: real, b: real, c: real)
    ensures (a + b) * c == a * c + b * c
  {
  }

  lemma {:induction false} NoNonzeros(i: int, x: int -> real, n: nat)
    ensures RowTimes([], i, x, n) == 0.0
  {
    if n > 0 {
      NoNonzeros(i, x, n - 1);
      assert Entry([], i, n - 1) == 0.0;
    }
  }

  /** Adding up the nonzeros of row i is multiplying row i with x. */
  lemma {:induction false} RowTermsMultiply(ts: seq<Triple>, i: int, x: int -> real, n: nat, k: nat)
    requires k <= |ts| && InMatrix(ts, n)
    ensures RowTimes(ts[..k], i, x, n) == Sum(ts, RowTerm(i, x), k)
  {
    if k == 0 {
      assert ts[..0] == [];
      NoNonzeros(i, x, n);
    } else {
      RowTermsMultiply(ts, i, x, n, k - 1);
      assert ts[..k] == ts[..k - 1] + [ts[k - 1]];
      OneMoreNonzero(ts[..k - 1], ts[k - 1], i, x, n);
      assert RowTerm(i, x)(ts[k - 1]) == if ts[k - 1].i == i then ts[k - 1].v * x(ts[k - 1].j) else 0.0;
    }
  }

  // ----- partial sums as messages -----

  /** A partial sum for component `tag` of the vector on processor dest. */
  datatype Message = Message(dest: int, tag: int, sum: real)

  function Counts(m: Message, d: int, i: int): real {
    if m.dest == d && m.tag == i then m.sum else 0.0
  }

  /** What the first n messages add to component i on processor d. */
  function Received(ms: seq<Message>, d: int, i: int, n: nat): real
    requires n <= |ms|
  {
    if n == 0 then 0.0 else Received(ms, d, i, n - 1) + Counts(ms[n - 1], d, i)
  }

  lemma {:induction false} ReceivedNothing(ms: seq<Message>, d: int, i: int, n: nat)
    requires n <= |ms| && forall k :: 0 <= k < n ==> ms[k].dest != d || ms[k].tag != i
    ensures Received(ms, d, i, n) == 0.0
  {
    if n > 0 { ReceivedNothing(ms, d, i, n - 1); }
  }

  lemma {:induction false} ReceivedOnce(ms: seq<Message>, d: int, i: int, n: nat, r: nat)
    requires r < n <= |ms| && ms[r].dest == d && ms[r].tag == i
    requires forall k :: 0 <= k < n && k != r ==> ms[k].dest != d || ms[k].tag != i
    ensures Received(ms, d, i, n) == ms[r].sum
  {
    if r == n - 1 {
      ReceivedNothing(ms, d, i, n - 1);
    } else {
      ReceivedOnce(ms, d, i, n - 1, r);
    }
  }

  /** Component x of a distributed vector is component posOf[x] on processor procOf[x]. */
  ghost predicate Distribution(index: seq<seq<int>>, n: nat, procOf: seq<nat>, posOf: seq<nat>) {
    && |procOf| == |posOf| == n
    && (forall x :: 0 <= x < n ==> HeldAt(index, procOf, posOf, x))
    && (forall s, j :: 0 <= s < |index| && 0 <= j < |index[s]| ==> OwnedBy(index, n, procOf, posOf, s, j))
  }

  predicate HeldAt(index: seq<seq<int>>, procOf: seq<nat>, posOf: seq<nat>, x: int)
    requires 0 <= x < |procOf| == |posOf|
  {
    procOf[x] < |index| && posOf[x] < |index[procOf[x]]| && index[procOf[x]][posOf[x]] == x
  }

  predicate OwnedBy(index: seq<seq<int>>, n: nat, procOf: seq<nat>, posOf: seq<nat>, s: int, j: int)
    requires 0 <= s < |index| && 0 <= j < |index[s]| && |procOf| == |posOf| == n
  {
    0 <= index[s][j] < n && procOf[index[s][j]] == s && posOf[index[s][j]] == j
  }

  /** The messages of a processor with these local rows: each row's sum goes to the row's owner. */
  ghost predicate Addressed(ms: seq<Message>, rows: seq<int>, procOf: seq<nat>, posOf: seq<nat>, rs: seq<Triple>,
                            vloc: seq<real>, n: nat)
  {
    && |ms| == |rows| && |procOf| == |posOf| == n
    && forall r :: 0 <= r < |rows| ==> AddressedAt(ms[r], rows[r], procOf, posOf, rs, vloc, n)
  }

  predicate AddressedAt(m: Message, row: int, procOf: seq<nat>, posOf: seq<nat>, rs: seq<Triple>, vloc: seq<real>,
                        n: nat)
    requires |procOf| == |posOf| == n
  {
    && 0 <= row < n && m.dest == procOf[row] && m.tag == posOf[row]
    && m.sum == Total(rs, RowTerm(row, Local(vloc)))
  }

  /** What a processor sends for component x is its part of the product. */
  lemma PartOfProduct(ms: seq<Message>, v: seq<Triple>, n: nat, procOf: seq<nat>, posOf: seq<nat>,
                      index: seq<seq<int>>, vloc: seq<real>, V: int -> real, x: nat)
    requires InMatrix(v, n) && x < n && Distribution(index, n, procOf, posOf)
    requires Addressed(ms, Rows(v, n), procOf, posOf, ByRow(v, n), vloc, n)
    requires |vloc| == |Columns(v, n)| && forall j :: 0 <= j < |vloc| ==> vloc[j] == V(Columns(v, n)[j])
    ensures Received(ms, procOf[x], posOf[x], |ms|) == Total(v, RowTerm(x, V))
  {
    var rows := Rows(v, n);
    IndexLists(v, n);
    assert HeldAt(index, procOf, posOf, x);
    forall r | 0 <= r < |rows| && rows[r] != x ensures ms[r].dest != procOf[x] || ms[r].tag != posOf[x] {
      assert AddressedAt(ms[r], rows[r], procOf, posOf, ByRow(v, n), vloc, n);
      assert HeldAt(index, procOf, posOf, rows[r]);
    }
    if x in rows {
      var r :| 0 <= r < |rows| && rows[r] == x;
      assert AddressedAt(ms[r], rows[r], procOf, posOf, ByRow(v, n), vloc, n);
      ReceivedOnce(ms, procOf[x], posOf[x], |ms|, r);
      LocalSumIsRow(v, n, vloc, V, x);
    } else {
      ReceivedNothing(ms, procOf[x], posOf[x], |ms|);
      forall k | 0 <= k < |v| ensures RowTerm(x, V)(v[k]) == 0.0 {
        assert v[k].i != x;
      }
      NothingYet(v, RowTerm(x, V), |v|);
    }
  }

  /** The sum over the stored nonzeros of a row, with local columns, is the sum over its nonzeros. */
  lemma LocalSumIsRow(v: seq<Triple>, n: nat, vloc: seq<real>, V: int -> real, x: nat)
    requires InMatrix(v, n)
    requires |vloc| == |Columns(v, n)| && forall j :: 0 <= j < |vloc| ==> vloc[j] == V(Columns(v, n)[j])
    ensures Total(ByRow(v, n), RowTerm(x, Local(vloc))) == Total(v, RowTerm(x, V))
  {
    var rs, f, columns := ByRow(v, n), RowTerm(x, V), Columns(v, n);
    StoredInOrder(v, n);
    MatrixPreserved(v, n, f);
    forall k | 0 <= k < |rs| ensures RowTerm(x, Local(vloc))(rs[k]) == Through(f, columns)(rs[k]) {
      SameTerm(rs[k], vloc, V, columns, x);
    }
    SumEqual(rs, rs, RowTerm(x, Local(vloc)), Through(f, columns), |rs|);
  }

  lemma SameTerm(t: Triple, vloc: seq<real>, V: int -> real, columns: seq<int>, x: int)
    requires |vloc| == |columns| && 0 <= t.j < |vloc| && vloc[t.j] == V(columns[t.j])
    ensures RowTerm(x, Local(vloc))(t) == Through(RowTerm(x, V), columns)(t)
  {
    var u := Translated(t, columns);
    assert Through(RowTerm(x, V), columns)(t) == RowTerm(x, V)(u);
    assert Local(vloc)(t.j) == V(u.j);
  }
}
