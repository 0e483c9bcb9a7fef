/** The puts of the kernels are puts of the engine: what their delivery makes of a registered array is what the
  * superstep boundary makes of the bytes of that array. */
module EnginePuts {
  import opened Columns
  import opened Memories
  import opened Requests
  import opened Supersteps
  import opened Puts

  /** Every value is stored in w bytes. */
  ghost predicate Stored<T(!new)>(enc: T -> seq<byte>, w: nat) {
    forall x: T :: |enc(x)| == w
  }

  /** The bytes of an array. */
  function Bytes<T>(enc: T -> seq<byte>, v: seq<T>): seq<byte> {
    if v == [] then [] else Bytes(enc, v[..|v| - 1]) + enc(v[|v| - 1])
  }

  lemma {:induction false} BytesLength<T(!new)>(enc: T -> seq<byte>, w: nat, v: seq<T>)
    requires Stored(enc, w)
    ensures |Bytes(enc, v)| == w * |v|
  {
    if v != [] {
      var last := |v| - 1;
      BytesLength(enc, w, v[..last]);
      assert w * |v| == w * last + w;
    }
  }

  lemma {:induction false} BytesConcat<T>(enc: T -> seq<byte>, a: seq<T>, b: seq<T>)
    ensures Bytes(enc, a + b) == Bytes(enc, a) + Bytes(enc, b)
  {
    if b == [] {
      assert a + b == a;
    } else {
      var last := |b| - 1;
      BytesConcat(enc, a, b[..last]);
      assert (a + b)[..|a + b| - 1] == a + b[..last];
    }
  }

  /** Byte i of those that begin at address `base`. */
  ghost predicate LiesAt(m: Memory, base: int, bytes: seq<byte>, i: int)
    requires 0 <= i < |bytes|
  {
    base + i in m && m[base + i] == bytes[i]
  }

  /** The bytes lie in memory from address `base` on. */
  ghost predicate Lies(m: Memory, base: int, bytes: seq<byte>) {
    forall i :: 0 <= i < |bytes| ==> LiesAt(m, base, bytes, i)
  }

  /** Only the n bytes from `base` on may differ. */
  ghost predicate Within(m: Memory, m': Memory, base: int, n: int) {
    forall a :: !(base <= a < base + n) ==> SameAt(m, m', a)
  }

  ghost predicate SameAt(m: Memory, m': Memory, a: int) {
    (a in m <==> a in m') && (a in m ==> m[a] == m'[a])
  }

  lemma WithinBoth(m: Memory, m': Memory, m'': Memory, base: int, n: int)
    requires Within(m, m', base, n) && Within(m', m'', base, n)
    ensures Within(m, m'', base, n)
  {
    forall a | !(base <= a < base + n) ensures SameAt(m, m'', a) {
      assert SameAt(m, m', a) && SameAt(m', m'', a);
    }
  }

  /** The record that a put to an array at address `base` becomes. */
  function RecordOf<T>(enc: T -> seq<byte>, w: nat, base: int, put: Put<T>): Record {
    Record(Info.Put(base + w * put.offset), Bytes(enc, put.data))
  }

  /** The records of the puts to processor d. */
  function RecordsFor<T>(enc: T -> seq<byte>, w: nat, base: int, puts: seq<Put<T>>, d: int): seq<Record> {
    if puts == [] then []
    else
      var put := puts[|puts| - 1];
      RecordsFor(enc, w, base, puts[..|puts| - 1], d) + if put.dest == d then [RecordOf(enc, w, base, put)] else []
  }

  /** A call of bsp_put logs that record. */
  lemma PutLogsRecord<T(!new)>(st: Proc, rank: nat, enc: T -> seq<byte>, w: nat, put: Put<T>, src: int, dst: int)
    requires Supersteps.Shaped(st, |st.log|) && rank < |st.log| && put.dest < |st.log| && dst in st.reg[rank]
    requires ReadBytes(st.mem, src, w * |put.data|) == Bytes(enc, put.data)
    ensures var call := PutCall(put.dest, src, dst, w * put.offset, w * |put.data|);
      && Legal(st, rank, |st.log|, call)
      && Apply(st, rank, call).log[put.dest]
         == st.log[put.dest] + [RecordOf(enc, w, Remote(st, rank, put.dest, dst), put)]
  {
  }

  /** Writing the middle of three pieces. */
  lemma MiddleWritten(m: Memory, base: int, a: seq<byte>, b: seq<byte>, c: seq<byte>, bytes: seq<byte>, m': Memory)
    requires Lies(m, base, a + b + c) && |bytes| == |b| && m' == WriteBytes(m, base + |a|, bytes)
    ensures Lies(m', base, a + bytes + c) && Within(m, m', base, |a + b + c|)
  {
    forall i | 0 <= i < |a + bytes + c| ensures LiesAt(m', base, a + bytes + c, i) {
      assert LiesAt(m, base, a + b + c, i);
    }
  }

  /** The three pieces of an array that a put falls into. */
  lemma PatchBytes<T(!new)>(enc: T -> seq<byte>, w: nat, v: seq<T>, put: Put<T>)
    returns (a: seq<byte>, b: seq<byte>, c: seq<byte>)
    requires Stored(enc, w) && put.offset + |put.data| <= |v|
    ensures Bytes(enc, v) == a + b + c && Bytes(enc, Patch(v, put)) == a + Bytes(enc, put.data) + c
    ensures |a| == w * put.offset && |b| == |Bytes(enc, put.data)|
  {
    var low, high := put.offset, put.offset + |put.data|;
    var u, x, y := v[..low], v[low..high], v[high..];
    a, b, c := Bytes(enc, u), Bytes(enc, x), Bytes(enc, y);
    assert v == u + x + y;
    BytesConcat(enc, u, x);
    BytesConcat(enc, u + x, y);
    BytesConcat(enc, u, put.data);
    BytesConcat(enc, u + put.data, y);
    BytesLength(enc, w, u);
    BytesLength(enc, w, x);
    BytesLength(enc, w, put.data);
  }

  /** One put: the bytes of the array become those of the patched array. */
  lemma PatchWritten<T(!new)>(m: Memory, enc: T -> seq<byte>, w: nat, base: int, v: seq<T>, put: Put<T>, m': Memory)
    requires Stored(enc, w) && put.offset + |put.data| <= |v| && Lies(m, base, Bytes(enc, v))
    requires m' == Memories.Put(m, RecordOf(enc, w, base, put))
    ensures Lies(m', base, Bytes(enc, Patch(v, put))) && Within(m, m', base, |Bytes(enc, v)|)
  {
    var a, b, c := PatchBytes(enc, w, v, put);
    MiddleWritten(m, base, a, b, c, Bytes(enc, put.data), m');
  }

  lemma OneMoreRecord<T>(m: Memory, enc: T -> seq<byte>, w: nat, base: int, puts: seq<Put<T>>, d: int)
    returns (now: Memory)
    requires puts != []
    ensures now == PutAll(m, RecordsFor(enc, w, base, puts[..|puts| - 1], d))
    ensures PutAll(m, RecordsFor(enc, w, base, puts, d))
         == if puts[|puts| - 1].dest == d then Memories.Put(now, RecordOf(enc, w, base, puts[|puts| - 1])) else now
  {
    var before, rec := RecordsFor(enc, w, base, puts[..|puts| - 1], d), RecordOf(enc, w, base, puts[|puts| - 1]);
    now := PutAll(m, before);
    assert (before + [rec])[..|before|] == before;
    assert before + [] == before;
  }

  ghost predicate CarriesThese(m: Memory, m': Memory, base: int, bytes: seq<byte>) {
    Lies(m', base, bytes) && Within(m, m', base, |bytes|)
  }

  /** m' is m with these bytes at `base`, and otherwise unchanged. The quantifier keeps that from the prover
    * where it only has to be passed on. */
  ghost predicate Carries(m: Memory, m': Memory, base: int, bytes: seq<byte>) {
    forall these: seq<byte> :: these == bytes ==> CarriesThese(m, m', base, these)
  }

  /** One put behind others. */
  lemma PutBehind<T(!new)>(m: Memory, now: Memory, m': Memory, enc: T -> seq<byte>, w: nat, base: int, u: seq<T>,
                           put: Put<T>)
    requires Stored(enc, w) && put.offset + |put.data| <= |u| && Carries(m, now, base, Bytes(enc, u))
    requires m' == Memories.Put(now, RecordOf(enc, w, base, put))
    ensures Carries(m, m', base, Bytes(enc, Patch(u, put)))
  {
    assert CarriesThese(m, now, base, Bytes(enc, u));
    PatchWritten(now, enc, w, base, u, put, m');
    BytesLength(enc, w, u);
    BytesLength(enc, w, Patch(u, put));
    WithinBoth(m, now, m', base, |Bytes(enc, u)|);
  }

  /** The puts of one processor, behind those of others. */
  lemma {:induction false} PutsWritten<T(!new)>(m: Memory, m1: Memory, m2: Memory, enc: T -> seq<byte>, w: nat,
                                                base: int, v: seq<T>, puts: seq<Put<T>>, d: int)
    requires Stored(enc, w) && Fitting(puts, d, |v|) && Carries(m, m1, base, Bytes(enc, v))
    requires m2 == PutAll(m1, RecordsFor(enc, w, base, puts, d))
    ensures Carries(m, m2, base, Bytes(enc, After(v, puts, d)))
  {
    if puts != [] {
      var last := |puts| - 1;
      var now := OneMoreRecord(m1, enc, w, base, puts, d);
      assert puts[..last + 1] == puts;
      AfterOneMore(v, puts, last, d);
      PutsWritten(m, m1, now, enc, w, base, v, puts[..last], d);
      if puts[last].dest == d {
        PutBehind(m, now, m2, enc, w, base, After(v, puts[..last], d), puts[last]);
      }
    }
  }

  lemma {:induction false} AfterConcat<T>(v: seq<T>, a: seq<Put<T>>, b: seq<Put<T>>, d: int)
    requires Fitting(a + b, d, |v|)
    ensures Fitting(a, d, |v|) && Fitting(b, d, |v|) && After(v, a + b, d) == After(After(v, a, d), b, d)
  {
    assert Fitting(a, d, |v|) by {
      forall k | 0 <= k < |a| && a[k].dest == d ensures a[k].offset + |a[k].data| <= |v| {
        assert (a + b)[k] == a[k];
      }
    }
    assert Fitting(b, d, |v|) by {
      forall k | 0 <= k < |b| && b[k].dest == d ensures b[k].offset + |b[k].data| <= |v| {
        assert (a + b)[|a| + k] == b[k];
      }
    }
    if b == [] {
      assert a + b == a;
    } else {
      assert (a + b)[..|a + b| - 1] == a + b[..|b| - 1];
      AfterConcat(v, a, b[..|b| - 1], d);
    }
  }

  /** The puts of the first n processors, processor by processor. */
  function Together<T>(issued: seq<seq<Put<T>>>, n: nat): seq<Put<T>>
    requires n <= |issued|
  {
    if n == 0 then [] else Together(issued, n - 1) + issued[n - 1]
  }

  /** What processor s has logged for d are its puts to it, and d asks s for nothing. */
  ghost predicate IssuedBy<T>(ps: seq<Proc>, s: nat, puts: seq<Put<T>>, enc: T -> seq<byte>, w: nat, base: int, d: nat)
    requires s < |ps| && d < |ps|
  {
    && Supersteps.Shaped(ps[s], |ps|) && Supersteps.Shaped(ps[d], |ps|) && ps[d].reqs[s] == []
    && Select(ps[s].log[d], PutItem) == RecordsFor(enc, w, base, puts, d)
  }

  ghost predicate Issued<T>(ps: seq<Proc>, issued: seq<seq<Put<T>>>, enc: T -> seq<byte>, w: nat, base: int, d: nat)
    requires d < |ps| == |issued|
  {
    forall s: nat :: s < |ps| ==> IssuedBy(ps, s, issued[s], enc, w, base, d)
  }

  lemma OneMoreIssuer<T>(ps: seq<Proc>, issued: seq<seq<Put<T>>>, enc: T -> seq<byte>, w: nat, base: int, d: nat,
                         n: nat, m: Memory) returns (now: Memory)
    requires World(ps) && d < |ps| == |issued| && 0 < n <= |ps| && Issued(ps, issued, enc, w, base, d)
    requires m == SyncMemory(ps, d, n)
    ensures now == SyncMemory(ps, d, n - 1) && m == PutAll(now, RecordsFor(enc, w, base, issued[n - 1], d))
  {
    assert IssuedBy(ps, n - 1, issued[n - 1], enc, w, base, d);
    now := SyncMemory(ps, d, n - 1);
  }

  /** The superstep boundary delivers them in that order. */
  lemma {:induction false} SyncDelivers<T(!new)>(ps: seq<Proc>, issued: seq<seq<Put<T>>>, enc: T -> seq<byte>, w: nat,
                                                 base: int, d: nat, v: seq<T>, n: nat, m: Memory)
    requires World(ps) && d < |ps| == |issued| && n <= |ps| && Issued(ps, issued, enc, w, base, d) && Stored(enc, w)
    requires Fitting(Together(issued, n), d, |v|) && Lies(ps[d].mem, base, Bytes(enc, v)) && m == SyncMemory(ps, d, n)
    ensures Carries(ps[d].mem, m, base, Bytes(enc, After(v, Together(issued, n), d)))
  {
    if n > 0 {
      var before := Together(issued, n - 1);
      var now := OneMoreIssuer(ps, issued, enc, w, base, d, n, m);
      AfterConcat(v, before, issued[n - 1], d);
      SyncDelivers(ps, issued, enc, w, base, d, v, n - 1, now);
      PutsWritten(ps[d].mem, now, m, enc, w, base, After(v, before, d), issued[n - 1], d);
    }
  }

  /** Where Puts.Deliver leaves x on processor d, the boundary leaves the bytes of x, and no other byte changes. */
  lemma DeliverIsSync<T(!new)>(x: array<T>, v: seq<T>, ps: seq<Proc>, issued: seq<seq<Put<T>>>, enc: T -> seq<byte>,
                               w: nat, base: int, d: nat)
    requires World(ps) && d < |ps| == |issued| && Issued(ps, issued, enc, w, base, d) && Stored(enc, w)
    requires Reaches(x, v, Together(issued, |ps|), d) && Lies(ps[d].mem, base, Bytes(enc, v)) && SyncDefined(ps, d)
    ensures Carries(ps[d].mem, SyncProc(ps, d).mem, base, Bytes(enc, x[..]))
  {
    SyncDelivers(ps, issued, enc, w, base, d, v, |ps|, SyncMemory(ps, d, |ps|));
  }
}
