/** bspmv_init and bspmv of examples/bspedupack/bspmv.c, as all processors run them: a sparse matrix times a
  * vector, for any distribution of the nonzeros and of the vectors. */
module BspMv {
  import opened LuGrid
  import opened SparseMath
  import opened SparseSums
  import opened Icrs
  import opened IcrsProduct
  import opened BspMvMath
  import opened Puts

  // ----- bspmv_init: who holds which component -----

  /** Table entry x of a cyclically distributed table. */
  function TableAt(table: seq<int>, p: nat, d: nat): (v: seq<int>)
    requires d < p
    ensures |v| == Nloc(p, d, |table|)
  {
    seq(Nloc(p, d, |table|), i requires 0 <= i < Nloc(p, d, |table|) => Entry0(table, i * p + d))
  }

  function Entry0(table: seq<int>, x: int): int {
    if 0 <= x < |table| then table[x] else 0
  }

  function Table(table: seq<int>, p: nat): (vs: seq<seq<int>>)
    ensures |vs| == p && forall d :: 0 <= d < p ==> vs[d] == TableAt(table, p, d)
  {
    seq(p, d requires 0 <= d < p => TableAt(table, p, d))
  }

  /** The entry for x has been put. */
  ghost predicate Registered(puts: seq<Put<int>>, p: nat, x: int)
    requires p > 0
  {
    Sent(puts, x % p, x / p)
  }

  /** The put of an entry of the table. */
  method PutEntry(p: nat, x: nat, value: int, ghost table: seq<int>) returns (put: Put<int>)
    requires p > 0 && x < |table| && table[x] == value
    ensures Truthful(put, Table(table, p)) && Covers(put, x % p, x / p)
  {
    OwnerOf(p, |table|, x);
    put := Put(x % p, x / p, [value]);
    ghost var v := TableAt(table, p, x % p);
    var i := x / p;
    assert v[i] == Entry0(table, i * p + x % p) == value;
    assert put.offset == i && v[i..i + 1] == [v[i]];
    assert Table(table, p)[put.dest] == v;
  }

  lemma RegisteredMore(puts: seq<Put<int>>, put: Put<int>, p: nat, x: int)
    requires p > 0 && (Registered(puts, p, x) || Covers(put, x % p, x / p))
    ensures Registered(puts + [put], p, x)
  {
    if Covers(put, x % p, x / p) {
      assert Covers([put][0], x % p, x / p);
      assert Sent([put], x % p, x / p);
    }
    MoreSent(puts, [put], x % p, x / p);
  }

  ghost predicate AllRegistered(puts: seq<Put<int>>, p: nat, index: seq<int>, count: nat)
    requires p > 0
  {
    count <= |index| && forall j :: 0 <= j < count ==> Registered(puts, p, index[j])
  }

  /** The superstep in which processor s registers its components: its number, and the local indices. */
  method RegisterOne(p: nat, s: nat, index: seq<int>, ghost n: nat, ghost all: seq<seq<int>>,
                     ghost procOf: seq<nat>, ghost posOf: seq<nat>)
    returns (procs: seq<Put<int>>, positions: seq<Put<int>>)
    requires p > 0 && Distribution(all, n, procOf, posOf) && s < |all| && all[s] == index
    ensures AllTruthful(procs, Table(procOf, p)) && AllRegistered(procs, p, index, |index|)
    ensures AllTruthful(positions, Table(posOf, p)) && AllRegistered(positions, p, index, |index|)
  {
    procs, positions := [], [];
    for j := 0 to |index|
      invariant AllTruthful(procs, Table(procOf, p)) && AllRegistered(procs, p, index, j)
      invariant AllTruthful(positions, Table(posOf, p)) && AllRegistered(positions, p, index, j)
    {
      var x := index[j];
      assert OwnedBy(all, n, procOf, posOf, s, j);
      var a := PutEntry(p, x, s, procOf);
      var b := PutEntry(p, x, j, posOf);
      forall l | 0 <= l < j + 1
        ensures Registered(procs + [a], p, index[l]) && Registered(positions + [b], p, index[l])
      {
        RegisteredMore(procs, a, p, index[l]);
        RegisteredMore(positions, b, p, index[l]);
      }
      procs, positions := procs + [a], positions + [b];
    }
  }

  lemma StillRegistered(puts: seq<Put<int>>, more: seq<Put<int>>, p: nat, index: seq<int>)
    requires p > 0 && (AllRegistered(puts, p, index, |index|) || AllRegistered(more, p, index, |index|))
    ensures AllRegistered(puts + more, p, index, |index|)
  {
    forall j | 0 <= j < |index| ensures Registered(puts + more, p, index[j]) {
      MoreSent(puts, more, index[j] % p, index[j] / p);
    }
  }

  /** The registration of all components by all processors. */
  method RegisterAll(p: nat, all: seq<seq<int>>, ghost n: nat, ghost procOf: seq<nat>, ghost posOf: seq<nat>)
    returns (procs: seq<Put<int>>, positions: seq<Put<int>>)
    requires p > 0 && Distribution(all, n, procOf, posOf)
    ensures AllTruthful(procs, Table(procOf, p)) && AllTruthful(positions, Table(posOf, p))
    ensures forall s :: 0 <= s < |all| ==> AllRegistered(procs, p, all[s], |all[s]|)
    ensures forall s :: 0 <= s < |all| ==> AllRegistered(positions, p, all[s], |all[s]|)
  {
    procs, positions := [], [];
    for s := 0 to |all|
      invariant AllTruthful(procs, Table(procOf, p)) && AllTruthful(positions, Table(posOf, p))
      invariant forall s' :: 0 <= s' < s ==> AllRegistered(procs, p, all[s'], |all[s']|)
      invariant forall s' :: 0 <= s' < s ==> AllRegistered(positions, p, all[s'], |all[s']|)
    {
      var a, b := RegisterOne(p, s, all[s], n, all, procOf, posOf);
      MoreTruthful(procs, a, Table(procOf, p));
      MoreTruthful(positions, b, Table(posOf, p));
      forall s' | 0 <= s' < s + 1
        ensures AllRegistered(procs + a, p, all[s'], |all[s']|)
        ensures AllRegistered(positions + b, p, all[s'], |all[s']|)
      {
        StillRegistered(procs, a, p, all[s']);
        StillRegistered(positions, b, p, all[s']);
      }
      procs, positions := procs + a, positions + b;
    }
  }

  lemma EverythingRegistered(puts: seq<Put<int>>, p: nat, all: seq<seq<int>>, n: nat, procOf: seq<nat>, posOf: seq<nat>,
                             d: nat, i: nat)
    requires p > 0 && Distribution(all, n, procOf, posOf) && d < p && i < Nloc(p, d, n)
    requires forall s :: 0 <= s < |all| ==> AllRegistered(puts, p, all[s], |all[s]|)
    ensures Sent(puts, d, i)
  {
    var x := i * p + d;
    LocalIndex(p, d, n, i);
    IndexIs(p, d, i, x);
    assert HeldAt(all, procOf, posOf, x);
    assert AllRegistered(puts, p, all[procOf[x]], |all[procOf[x]]|);
    assert Registered(puts, p, all[procOf[x]][posOf[x]]);
  }

  /** The tables, one array per processor. */
  ghost predicate Tables(xs: seq<array<int>>, p: nat, n: nat) {
    && |xs| == p && (forall d :: 0 <= d < p ==> xs[d].Length == Nloc(p, d, n))
    && (forall d, d' :: 0 <= d < d' < p ==> xs[d] != xs[d'])
  }

  /** Supersteps 0 and 1 of bspmv_init: every processor can look up the owner of every component. */
  method Register(tmpproc: seq<array<int>>, tmpind: seq<array<int>>, p: nat, all: seq<seq<int>>,
                  ghost n: nat, ghost procOf: seq<nat>, ghost posOf: seq<nat>)
    requires p > 0 && Distribution(all, n, procOf, posOf) && Tables(tmpproc, p, n) && Tables(tmpind, p, n)
    requires forall d, d' :: 0 <= d < p && 0 <= d' < p ==> tmpproc[d] != tmpind[d']
    modifies tmpproc, tmpind
    ensures Contents(tmpproc, Table(procOf, p)) && Contents(tmpind, Table(posOf, p))
  {
    var procs, positions := RegisterAll(p, all, n, procOf, posOf);
    forall d, i | 0 <= d < |tmpproc| && 0 <= i < tmpproc[d].Length ensures Sent(procs, d, i) {
      EverythingRegistered(procs, p, all, n, procOf, posOf, d, i);
    }
    forall d, i | 0 <= d < |tmpind| && 0 <= i < tmpind[d].Length ensures Sent(positions, d, i) {
      EverythingRegistered(positions, p, all, n, procOf, posOf, d, i);
    }
    Sync(tmpproc, procs, Table(procOf, p));
    Sync(tmpind, positions, Table(posOf, p));
  }

  /** Superstep 2 of bspmv_init, on one processor: the owners of the components it needs. */
  method LookUp(tmpproc: seq<array<int>>, tmpind: seq<array<int>>, p: nat, needed: seq<int>,
                ghost n: nat, ghost procOf: seq<nat>, ghost posOf: seq<nat>)
    returns (proc: seq<int>, ind: seq<int>)
    requires p > 0 && |procOf| == |posOf| == n && |tmpproc| == |tmpind| == p
    requires Contents(tmpproc, Table(procOf, p)) && Contents(tmpind, Table(posOf, p))
    requires forall j :: 0 <= j < |needed| ==> 0 <= needed[j] < n
    ensures |proc| == |ind| == |needed|
    ensures forall j :: 0 <= j < |needed| ==> proc[j] == procOf[needed[j]] && ind[j] == posOf[needed[j]]
  {
    proc, ind := [], [];
    for j := 0 to |needed|
      invariant |proc| == |ind| == j
      invariant forall l :: 0 <= l < j ==> proc[l] == procOf[needed[l]] && ind[l] == posOf[needed[l]]
    {
      var x := needed[j];
      OwnerOf(p, n, x);
      var d, i := x % p, x / p;
      assert tmpproc[d][..] == TableAt(procOf, p, d) && tmpind[d][..] == TableAt(posOf, p, d);
      assert tmpproc[d][..][i] == Entry0(procOf, i * p + d) && tmpind[d][..][i] == Entry0(posOf, i * p + d);
      proc, ind := proc + [tmpproc[d][i]], ind + [tmpind[d][i]];
    }
  }

  // ----- bspmv -----

  /** Every processor holds its components of V. */
  ghost predicate HoldsVector(vs: seq<seq<real>>, index: seq<seq<int>>, V: int -> real) {
    && |vs| == |index|
    && forall s :: 0 <= s < |index| ==> |vs[s]| == |index[s]| && HoldsPart(vs[s], index[s], V)
  }

  ghost predicate HoldsPart(v: seq<real>, index: seq<int>, V: int -> real) {
    |v| == |index| && forall j :: 0 <= j < |index| ==> v[j] == V(index[j])
  }

  /** Superstep 1, the fanout: the components of v for the local columns are fetched. */
  method Fanout(vs: seq<seq<real>>, srcproc: seq<int>, srcind: seq<int>, colindex: seq<int>, ghost n: nat,
                ghost index: seq<seq<int>>, ghost procOf: seq<nat>, ghost posOf: seq<nat>, ghost V: int -> real)
    returns (vloc: array<real>)
    requires HoldsVector(vs, index, V) && Distribution(index, n, procOf, posOf)
    requires |srcproc| == |srcind| == |colindex| && forall j :: 0 <= j < |colindex| ==> 0 <= colindex[j] < n
    requires forall j :: 0 <= j < |colindex| ==> srcproc[j] == procOf[colindex[j]] && srcind[j] == posOf[colindex[j]]
    ensures fresh(vloc) && HoldsPart(vloc[..], colindex, V)
  {
    vloc := new real[|colindex|];
    for j := 0 to |colindex|
      invariant forall l :: 0 <= l < j ==> vloc[l] == V(colindex[l])
    {
      assert HeldAt(index, procOf, posOf, colindex[j]);
      assert HoldsPart(vs[srcproc[j]], index[srcproc[j]], V);
      vloc[j] := vs[srcproc[j]][srcind[j]];
    }
  }

  /** Superstep 2: the local product, one message for every local row. */
  method LocalProduct(nrows: nat, a: array<real>, inc: array<int>, vloc: array<real>, destproc: seq<int>,
                      destind: seq<int>,
                      ghost rs: seq<Triple>, ghost loc: seq<nat>, ghost rows: seq<int>, ghost n: nat,
                      ghost procOf: seq<nat>, ghost posOf: seq<nat>)
    returns (ms: seq<Message>)
    requires Blocks(rs, loc, rows) && Arrays(rs, a[..], inc[..], vloc.Length) && nrows == |rows|
    requires |destproc| == |destind| == nrows && |procOf| == |posOf| == n
    requires forall i :: 0 <= i < nrows ==>
      0 <= rows[i] < n && destproc[i] == procOf[rows[i]] && destind[i] == posOf[rows[i]]
    ensures Addressed(ms, rows, procOf, posOf, rs, vloc[..], n)
  {
    ms := [];
    var k: nat, p: int := 0, inc[0];
    assert inc[..][0] == Increment(rs, vloc.Length, 0);
    for i := 0 to nrows
      invariant |ms| == i && AtRow(rs, loc, k, i, nrows)
      invariant p == if k < |rs| then rs[k].j else 0
      invariant forall r :: 0 <= r < i ==> AddressedAt(ms[r], rows[r], procOf, posOf, rs, vloc[..], n)
    {
      var sum;
      ghost var f := RowTerm(rows[i], Local(vloc[..]));
      assert p == Pointer(rs, loc, vloc.Length, k, i);
      sum, k, p := RowProduct(a, inc, vloc, k, p, i, rs, loc, rows, f);
      ms := ms + [Message(destproc[i], destind[i], sum)];
      p := p - vloc.Length;
    }
  }

  /** The messages addressed to processor d, in order. */
  function Queue(ms: seq<Message>, d: int): seq<Message> {
    if ms == [] then []
    else Queue(ms[..|ms| - 1], d) + if ms[|ms| - 1].dest == d then [ms[|ms| - 1]] else []
  }

  lemma {:induction false} QueueReceives(ms: seq<Message>, d: int, i: int)
    ensures Received(Queue(ms, d), d, i, |Queue(ms, d)|) == Received(ms, d, i, |ms|)
    ensures forall k :: 0 <= k < |Queue(ms, d)| ==> Queue(ms, d)[k].dest == d && Queue(ms, d)[k] in ms
  {
    if ms != [] {
      var s, q := ms[..|ms| - 1], Queue(ms[..|ms| - 1], d);
      QueueReceives(s, d, i);
      SamePrefix(s, ms, d, i, |s|);
      SamePrefix(q, Queue(ms, d), d, i, |q|);
    }
  }

  lemma {:induction false} SamePrefix(a: seq<Message>, c: seq<Message>, d: int, i: int, n: nat)
    requires n <= |a| <= |c| && forall k :: 0 <= k < n ==> c[k] == a[k]
    ensures Received(c, d, i, n) == Received(a, d, i, n)
  {
    if n > 0 { SamePrefix(a, c, d, i, n - 1); }
  }

  /** Superstep 0 on one processor. */
  method Clear(u: array<real>)
    modifies u
    ensures forall i :: 0 <= i < u.Length ==> u[i] == 0.0
  {
    for i := 0 to u.Length
      invariant forall l :: 0 <= l < i ==> u[l] == 0.0
    {
      u[i] := 0.0;
    }
  }

  /** Superstep 3 on one processor: the partial sums in the queue are added up. */
  method AddUp(u: array<real>, queue: seq<Message>, ghost d: int)
    requires forall k :: 0 <= k < |queue| ==> queue[k].dest == d && 0 <= queue[k].tag < u.Length
    requires forall i :: 0 <= i < u.Length ==> u[i] == 0.0
    modifies u
    ensures forall i :: 0 <= i < u.Length ==> u[i] == Received(queue, d, i, |queue|)
  {
    for k := 0 to |queue|
      invariant forall i :: 0 <= i < u.Length ==> u[i] == Received(queue, d, i, k)
    {
      var i, sum := queue[k].tag, queue[k].sum;
      u[i] := u[i] + sum;
    }
  }

  // ----- all processors -----

  /** A local matrix in incremental compressed rows, with its lists of global rows and columns. */
  datatype Stored = Stored(a: array<real>, inc: array<int>, rowindex: seq<int>, colindex: seq<int>)

  /** m stores the nonzeros ts, as triple2icrs leaves them. */
  ghost predicate Stores(m: Stored, ts: seq<Triple>, n: nat)
    reads m.a, m.inc
  {
    && InMatrix(ts, n) && m.rowindex == Rows(ts, n) && m.colindex == Columns(ts, n)
    && Arrays(ByRow(ts, n), m.a[..], m.inc[..], |m.colindex|)
  }

  /** Where the components for the local columns come from and the sums for the local rows go. */
  datatype Plan = Plan(srcprocv: seq<int>, srcindv: seq<int>, destprocu: seq<int>, destindu: seq<int>)

  /** The owners of these components. */
  ghost predicate Owners(proc: seq<int>, ind: seq<int>, needed: seq<int>, n: nat, procOf: seq<nat>, posOf: seq<nat>) {
    && |proc| == |ind| == |needed| && |procOf| == |posOf| == n
    && forall j :: 0 <= j < |needed| ==> OwnerAt(proc, ind, needed, n, procOf, posOf, j)
  }

  predicate OwnerAt(proc: seq<int>, ind: seq<int>, needed: seq<int>, n: nat, procOf: seq<nat>, posOf: seq<nat>,
                    j: int) {
    && 0 <= j < |proc| && |proc| == |ind| == |needed| && |procOf| == |posOf| == n && 0 <= needed[j] < n
    && proc[j] == procOf[needed[j]] && ind[j] == posOf[needed[j]]
  }

  /** Both vectors' distributions. */
  datatype Layout = Layout(n: nat, vindex: seq<seq<int>>, uindex: seq<seq<int>>,
                           procV: seq<nat>, posV: seq<nat>, procU: seq<nat>, posU: seq<nat>)

  ghost predicate Proper(l: Layout, p: nat) {
    && p > 0 && |l.vindex| == |l.uindex| == p
    && Distribution(l.vindex, l.n, l.procV, l.posV) && Distribution(l.uindex, l.n, l.procU, l.posU)
  }

  ghost predicate Planned(plan: Plan, m: Stored, l: Layout) {
    && Owners(plan.srcprocv, plan.srcindv, m.colindex, l.n, l.procV, l.posV)
    && Owners(plan.destprocu, plan.destindu, m.rowindex, l.n, l.procU, l.posU)
  }

  lemma IndicesInRange(ts: seq<Triple>, n: nat)
    requires InMatrix(ts, n)
    ensures forall j :: 0 <= j < |Columns(ts, n)| ==> 0 <= Columns(ts, n)[j] < n
    ensures forall i :: 0 <= i < |Rows(ts, n)| ==> 0 <= Rows(ts, n)[i] < n
  {
    IndexLists(ts, n);
    forall j | 0 <= j < |Columns(ts, n)| ensures 0 <= Columns(ts, n)[j] < n {
      assert Columns(ts, n)[j] in Columns(ts, n);
    }
    forall i | 0 <= i < |Rows(ts, n)| ensures 0 <= Rows(ts, n)[i] < n {
      assert Rows(ts, n)[i] in Rows(ts, n);
    }
  }

  /** The rows and columns that a processor lists exist. */
  ghost predicate Lists(m: Stored, n: nat) {
    && (forall j :: 0 <= j < |m.colindex| ==> 0 <= m.colindex[j] < n)
    && (forall i :: 0 <= i < |m.rowindex| ==> 0 <= m.rowindex[i] < n)
  }

  /** Superstep 2 of bspmv_init on all processors. */
  method MakePlans(ms: seq<Stored>, p: nat, ghost l: Layout,
                   tmpprocv: seq<array<int>>, tmpindv: seq<array<int>>, tmpprocu: seq<array<int>>,
                   tmpindu: seq<array<int>>)
    returns (plans: seq<Plan>)
    requires Proper(l, p) && |ms| == p && forall s :: 0 <= s < p ==> Lists(ms[s], l.n)
    requires |tmpprocv| == |tmpindv| == |tmpprocu| == |tmpindu| == p
    requires Contents(tmpprocv, Table(l.procV, p)) && Contents(tmpindv, Table(l.posV, p))
    requires Contents(tmpprocu, Table(l.procU, p)) && Contents(tmpindu, Table(l.posU, p))
    ensures |plans| == p && forall s :: 0 <= s < p ==> Planned(plans[s], ms[s], l)
  {
    plans := [];
    for s := 0 to p
      invariant |plans| == s && forall s' :: 0 <= s' < s ==> Planned(plans[s'], ms[s'], l)
    {
      assert Lists(ms[s], l.n);
      var sp, si := LookUp(tmpprocv, tmpindv, p, ms[s].colindex, l.n, l.procV, l.posV);
      var dp, di := LookUp(tmpprocu, tmpindu, p, ms[s].rowindex, l.n, l.procU, l.posU);
      plans := plans + [Plan(sp, si, dp, di)];
    }
  }

  /** No array of xs is one of ys. */
  ghost predicate Disjoint(xs: seq<array<int>>, ys: seq<array<int>>) {
    forall d, d' :: 0 <= d < |xs| && 0 <= d' < |ys| ==> xs[d] != ys[d']
  }

  /** bspmv_init: for any distribution of the vectors, every processor finds the owner and the local index there of
    * every component it needs. */
  method BspmvInit(ms: seq<Stored>, p: nat, l: Layout,
                   tmpprocv: seq<array<int>>, tmpindv: seq<array<int>>, tmpprocu: seq<array<int>>,
                   tmpindu: seq<array<int>>)
    returns (plans: seq<Plan>)
    requires Proper(l, p) && |ms| == p && forall s :: 0 <= s < p ==> Lists(ms[s], l.n)
    requires Tables(tmpprocv, p, l.n) && Tables(tmpindv, p, l.n) && Tables(tmpprocu, p, l.n) && Tables(tmpindu, p, l.n)
    requires Disjoint(tmpprocv, tmpindv) && Disjoint(tmpprocu, tmpindu)
    requires Disjoint(tmpprocv, tmpprocu) && Disjoint(tmpprocv, tmpindu) && Disjoint(tmpindv, tmpprocu)
      && Disjoint(tmpindv, tmpindu)
    modifies tmpprocv, tmpindv, tmpprocu, tmpindu
    ensures |plans| == p && forall s :: 0 <= s < p ==> Planned(plans[s], ms[s], l)
  {
    Register(tmpprocv, tmpindv, p, l.vindex, l.n, l.procV, l.posV);
    Register(tmpprocu, tmpindu, p, l.uindex, l.n, l.procU, l.posU);
    plans := MakePlans(ms, p, l, tmpprocv, tmpindv, tmpprocu, tmpindu);
  }

  /** Component x of the product of all processors' nonzeros with V, summed over the first c processors. */
  function Product(tss: seq<seq<Triple>>, x: int, V: int -> real, c: nat): real
    requires c <= |tss|
  {
    if c == 0 then 0.0 else Product(tss, x, V, c - 1) + Total(tss[c - 1], RowTerm(x, V))
  }

  /** What a processor sends for component x is its part of the product. */
  predicate PartSentAt(msgs: seq<Message>, ts: seq<Triple>, l: Layout, V: int -> real, x: nat)
    requires x < |l.procU| && x < |l.posU|
  {
    Received(msgs, l.procU[x], l.posU[x], |msgs|) == Total(ts, RowTerm(x, V))
  }

  ghost predicate PartSent(msgs: seq<Message>, ts: seq<Triple>, l: Layout, V: int -> real)
    requires l.n <= |l.procU| && l.n <= |l.posU|
  {
    forall x: nat :: x < l.n ==> PartSentAt(msgs, ts, l, V, x)
  }

  /** Supersteps 1 and 2 on processor s: what it sends for every component is its part of the product. */
  method Multiply(m: Stored, plan: Plan, vs: seq<seq<real>>, l: Layout, ghost ts: seq<Triple>, ghost V: int -> real,
                  ghost p: nat)
    returns (msgs: seq<Message>)
    requires Proper(l, p) && HoldsVector(vs, l.vindex, V) && Stores(m, ts, l.n) && Planned(plan, m, l)
    ensures PartSent(msgs, ts, l, V)
    ensures forall k :: 0 <= k < |msgs| ==> AddressedTo(msgs[k], l)
  {
    IndicesInRange(ts, l.n);
    ghost var rs, rows := ByRow(ts, l.n), Rows(ts, l.n);
    forall j | 0 <= j < |m.colindex|
      ensures plan.srcprocv[j] == l.procV[m.colindex[j]] && plan.srcindv[j] == l.posV[m.colindex[j]]
    {
      assert OwnerAt(plan.srcprocv, plan.srcindv, m.colindex, l.n, l.procV, l.posV, j);
    }
    forall i | 0 <= i < |rows|
      ensures 0 <= rows[i] < l.n && plan.destprocu[i] == l.procU[rows[i]] && plan.destindu[i] == l.posU[rows[i]]
    {
      assert OwnerAt(plan.destprocu, plan.destindu, m.rowindex, l.n, l.procU, l.posU, i);
    }
    var vloc := Fanout(vs, plan.srcprocv, plan.srcindv, m.colindex, l.n, l.vindex, l.procV, l.posV, V);
    ghost var loc := StoredBlocks(ts, l.n, rs, rows);
    msgs := LocalProduct(|m.rowindex|, m.a, m.inc, vloc, plan.destprocu, plan.destindu, rs, loc, rows, l.n, l.procU,
      l.posU);
    forall x: nat | x < l.n ensures PartSentAt(msgs, ts, l, V, x) {
      PartOfProduct(msgs, ts, l.n, l.procU, l.posU, l.uindex, vloc[..], V, x);
    }
    forall k | 0 <= k < |msgs| ensures AddressedTo(msgs[k], l) {
      assert AddressedAt(msgs[k], rows[k], l.procU, l.posU, rs, vloc[..], l.n);
      assert HeldAt(l.uindex, l.procU, l.posU, rows[k]);
    }
  }

  /** The message is for a component that exists. */
  predicate AddressedTo(m: Message, l: Layout) {
    0 <= m.dest < |l.uindex| && 0 <= m.tag < |l.uindex[m.dest]|
  }

  lemma StoredBlocks(ts: seq<Triple>, n: nat, rs: seq<Triple>, rows: seq<int>) returns (loc: seq<nat>)
    requires InMatrix(ts, n) && rs == ByRow(ts, n) && rows == Rows(ts, n)
    ensures Blocks(rs, loc, rows)
  {
    StoredInOrder(ts, n);
    var s := Indices(rs);
    loc := seq(|s|, k requires 0 <= k < |s| => LocalOf(s, k));
    forall k, l | 0 <= k < l < |s| ensures s[k] <= s[l] {
      assert Before(rs[k], rs[l]);
    }
    SortedInBlocks(rs, s, loc, rows);
  }

  lemma {:induction false} ReceivedConcat(a: seq<Message>, b: seq<Message>, c: seq<Message>, d: int, i: int, n: nat)
    requires c == a + b && n <= |b|
    ensures Received(c, d, i, |a| + n) == Received(a, d, i, |a|) + Received(b, d, i, n)
  {
    if n == 0 {
      SamePrefix(a, c, d, i, |a|);
    } else {
      ReceivedConcat(a, b, c, d, i, n - 1);
      assert c[|a| + n - 1] == b[n - 1];
    }
  }

  /** The messages of the first c processors add up to their part of component x. */
  predicate AccumulatedAt(msgs: seq<Message>, tss: seq<seq<Triple>>, l: Layout, V: int -> real, c: nat, x: nat)
    requires c <= |tss| && x < |l.procU| && x < |l.posU|
  {
    Received(msgs, l.procU[x], l.posU[x], |msgs|) == Product(tss, x, V, c)
  }

  ghost predicate Accumulated(msgs: seq<Message>, tss: seq<seq<Triple>>, l: Layout, V: int -> real, c: nat)
    requires c <= |tss| && l.n <= |l.procU| && l.n <= |l.posU|
  {
    forall x: nat :: x < l.n ==> AccumulatedAt(msgs, tss, l, V, c, x)
  }

  lemma Accumulate(msgs: seq<Message>, more: seq<Message>, tss: seq<seq<Triple>>, l: Layout, V: int -> real, c: nat,
                   x: nat)
    requires c < |tss| && x < |l.procU| && x < |l.posU| && AccumulatedAt(msgs, tss, l, V, c, x)
    requires PartSentAt(more, tss[c], l, V, x)
    ensures AccumulatedAt(msgs + more, tss, l, V, c + 1, x)
  {
    ReceivedConcat(msgs, more, msgs + more, l.procU[x], l.posU[x], |more|);
  }

  /** Supersteps 1 and 2 on all processors. */
  method MultiplyAll(ms: seq<Stored>, plans: seq<Plan>, vs: seq<seq<real>>, p: nat, l: Layout,
                     ghost tss: seq<seq<Triple>>, ghost V: int -> real)
    returns (msgs: seq<Message>)
    requires Proper(l, p) && HoldsVector(vs, l.vindex, V) && |ms| == |plans| == |tss| == p
    requires forall s :: 0 <= s < p ==> Stores(ms[s], tss[s], l.n) && Planned(plans[s], ms[s], l)
    ensures Accumulated(msgs, tss, l, V, p)
    ensures forall k :: 0 <= k < |msgs| ==> AddressedTo(msgs[k], l)
  {
    msgs := [];
    for s := 0 to p
      invariant Accumulated(msgs, tss, l, V, s)
      invariant forall k :: 0 <= k < |msgs| ==> AddressedTo(msgs[k], l)
    {
      assert Stores(ms[s], tss[s], l.n) && Planned(plans[s], ms[s], l);
      var more := Multiply(ms[s], plans[s], vs, l, tss[s], V, p);
      AccumulateAll(msgs, more, tss, l, V, s);
      msgs := msgs + more;
    }
  }

  lemma AccumulateAll(msgs: seq<Message>, more: seq<Message>, tss: seq<seq<Triple>>, l: Layout, V: int -> real, c: nat)
    requires c < |tss| && l.n <= |l.procU| && l.n <= |l.posU|
    requires Accumulated(msgs, tss, l, V, c) && PartSent(more, tss[c], l, V)
    ensures Accumulated(msgs + more, tss, l, V, c + 1)
  {
    var next, both := c + 1, msgs + more;
    forall x: nat | x < l.n ensures AccumulatedAt(both, tss, l, V, next, x) {
      Accumulate(msgs, more, tss, l, V, c, x);
    }
  }

  /** The arrays for u, one per processor. */
  ghost predicate Room(us: seq<array<real>>, l: Layout) {
    && |us| == |l.uindex| && (forall s :: 0 <= s < |us| ==> us[s].Length == |l.uindex[s]|)
    && (forall s, s' :: 0 <= s < s' < |us| ==> us[s] != us[s'])
  }

  /** Component i of u on processor d is what the messages add up to. */
  ghost predicate Summed(u: array<real>, msgs: seq<Message>, d: int)
    reads u
  {
    forall i :: 0 <= i < u.Length ==> u[i] == Received(msgs, d, i, |msgs|)
  }

  /** Superstep 3 on all processors. */
  method AddUpAll(us: seq<array<real>>, msgs: seq<Message>, l: Layout)
    requires Room(us, l) && forall k :: 0 <= k < |msgs| ==> AddressedTo(msgs[k], l)
    requires forall s :: 0 <= s < |us| ==> forall i :: 0 <= i < us[s].Length ==> us[s][i] == 0.0
    modifies us
    ensures forall d :: 0 <= d < |us| ==> Summed(us[d], msgs, d)
  {
    for d := 0 to |us|
      invariant forall s :: 0 <= s < d ==> Summed(us[s], msgs, s)
      invariant forall s :: d <= s < |us| ==> forall i :: 0 <= i < us[s].Length ==> us[s][i] == 0.0
    {
      var queue := Queue(msgs, d);
      QueueReceives(msgs, d, 0);
      forall k | 0 <= k < |queue| ensures queue[k].dest == d && 0 <= queue[k].tag < us[d].Length {
        var q :| 0 <= q < |msgs| && msgs[q] == queue[k];
        assert AddressedTo(msgs[q], l);
      }
      AddUp(us[d], queue, d);
      forall i | 0 <= i < us[d].Length ensures us[d][i] == Received(msgs, d, i, |msgs|) {
        QueueReceives(msgs, d, i);
      }
    }
  }

  /** Superstep 0 on all processors. */
  method ClearAll(us: seq<array<real>>, l: Layout)
    requires Room(us, l)
    modifies us
    ensures forall s :: 0 <= s < |us| ==> forall i :: 0 <= i < us[s].Length ==> us[s][i] == 0.0
  {
    for d := 0 to |us|
      invariant forall s :: 0 <= s < d ==> forall i :: 0 <= i < us[s].Length ==> us[s][i] == 0.0
    {
      Clear(us[d]);
    }
  }

  // ----- u = A V -----

  /** Entry (i,j) of the whole matrix: the entries of the first c processors' parts added up. */
  function MatrixEntry(tss: seq<seq<Triple>>, i: int, j: int, c: nat): real
    requires c <= |tss|
  {
    if c == 0 then 0.0 else MatrixEntry(tss, i, j, c - 1) + Entry(tss[c - 1], i, j)
  }

  /** The first n terms of the sum over j of A(i,j) V(j). */
  function MatrixTimes(tss: seq<seq<Triple>>, i: int, V: int -> real, c: nat, n: nat): real
    requires c <= |tss|
  {
    if n == 0 then 0.0 else MatrixTimes(tss, i, V, c, n - 1) + MatrixEntry(tss, i, n - 1, c) * V(n - 1)
  }

  lemma AddUpTerms(a: real, b: real, x: real, y: real, s: real, t: real)
    requires s == a + x && t == b + y
    ensures (a + b) + (x + y) == s + t
  {
  }

  lemma {:induction false} AddMatrix(tss: seq<seq<Triple>>, i: int, V: int -> real, c: nat, n: nat)
    requires c < |tss|
    ensures MatrixTimes(tss, i, V, c + 1, n) == MatrixTimes(tss, i, V, c, n) + RowTimes(tss[c], i, V, n)
  {
    if n > 0 {
      AddMatrix(tss, i, V, c, n - 1);
      var a, e, x := MatrixEntry(tss, i, n - 1, c), Entry(tss[c], i, n - 1), V(n - 1);
      Expand(a, e, x);
      assert MatrixEntry(tss, i, n - 1, c + 1) == a + e;
      AddUpTerms(MatrixTimes(tss, i, V, c, n - 1), RowTimes(tss[c], i, V, n - 1), a * x, e * x,
                 MatrixTimes(tss, i, V, c, n), RowTimes(tss[c], i, V, n));
    }
  }

  lemma {:induction false} NoMatrix(tss: seq<seq<Triple>>, i: int, V: int -> real, n: nat)
    ensures MatrixTimes(tss, i, V, 0, n) == 0.0
  {
    if n > 0 { NoMatrix(tss, i, V, n - 1); }
  }

  /** What bspmv leaves in component i is the sum over j of A(i,j) V(j). */
  lemma {:induction false} ProductIsMatrixTimes(tss: seq<seq<Triple>>, i: int, V: int -> real, c: nat, n: nat)
    requires c <= |tss| && forall s :: 0 <= s < |tss| ==> InMatrix(tss[s], n)
    ensures Product(tss, i, V, c) == MatrixTimes(tss, i, V, c, n)
  {
    if c == 0 {
      NoMatrix(tss, i, V, n);
    } else {
      ProductIsMatrixTimes(tss, i, V, c - 1, n);
      AddMatrix(tss, i, V, c - 1, n);
      var ts := tss[c - 1];
      RowTermsMultiply(ts, i, V, n, |ts|);
      assert ts[..|ts|] == ts;
    }
  }

  /** bspmv: component i of every processor's part of u becomes the sum over j of A(i,j) V(j). */
  method Bspmv(ms: seq<Stored>, plans: seq<Plan>, vs: seq<seq<real>>, us: seq<array<real>>, p: nat, l: Layout,
               ghost tss: seq<seq<Triple>>, ghost V: int -> real)
    requires Proper(l, p) && HoldsVector(vs, l.vindex, V) && |ms| == |plans| == |tss| == p && Room(us, l)
    requires forall s :: 0 <= s < p ==> Stores(ms[s], tss[s], l.n) && Planned(plans[s], ms[s], l)
    requires forall s, d :: 0 <= s < p && 0 <= d < p ==> ms[s].a != us[d]
    modifies us
    ensures forall d, i :: 0 <= d < p && 0 <= i < us[d].Length ==>
      us[d][i] == MatrixTimes(tss, l.uindex[d][i], V, p, l.n)
  {
    ClearAll(us, l);
    var msgs := MultiplyAll(ms, plans, vs, p, l, tss, V);
    AddUpAll(us, msgs, l);
    forall s | 0 <= s < p ensures InMatrix(tss[s], l.n) {
      assert old(Stores(ms[s], tss[s], l.n));
    }
    forall d, i | 0 <= d < p && 0 <= i < us[d].Length ensures us[d][i] == MatrixTimes(tss, l.uindex[d][i], V, p, l.n) {
      ProductIsMatrixTimes(tss, l.uindex[d][i], V, p, l.n);
      assert Summed(us[d], msgs, d);
      assert OwnedBy(l.uindex, l.n, l.procU, l.posU, d, i);
      assert AccumulatedAt(msgs, tss, l, V, p, l.uindex[d][i]);
    }
  }
}
