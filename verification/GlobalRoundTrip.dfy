/** Put, sync, get, sync on a global array: what is read is what was written. */
module GlobalRoundTrip {
  import A = Arithmetic
  import D = Distributions
  import opened Columns
  import opened Memories
  import opened Supersteps
  import opened GlobalPieces
  import opened GlobalDrma
  import opened GlobalMemory

  /** A quiet world in which the array is allocated. */
  ghost predicate Quiet(ps: seq<Proc>, slices: seq<int>) {
    World(ps) && Allocated(ps, slices) && forall r: nat :: r < |ps| ==> QuietAt(ps, r)
  }

  ghost predicate QuietAt(ps: seq<Proc>, r: nat)
    requires r < |ps|
  {
    Shaped(ps[r], |ps|) && Idle(ps[r], |ps|)
  }

  /** p has put the range into its world. */
  ghost predicate PutBy(ps: seq<Proc>, ps': seq<Proc>, p: nat, a: GlobalArray, first: nat, src: int, offset: nat,
                        size: nat) {
    && p < |ps| && |ps[p].log| == |ps| && Registered(ps[p], p, a)
    && ps' == ps[p := PutsLogged(ps[p], p, a, first, src, offset, size, |ps|)]
  }

  /** p' has asked its world for the range. */
  ghost predicate GetBy(ps: seq<Proc>, ps': seq<Proc>, p: nat, a: GlobalArray, first: nat, dst: int, offset: nat,
                        size: nat) {
    && p < |ps| && |ps[p].log| == |ps| && Registered(ps[p], p, a)
    && ps' == ps[p := GetsLogged(ps[p], p, a, first, dst, offset, size, |ps|)]
  }

  lemma WorldStays(ps: seq<Proc>, ps': seq<Proc>, p: nat, st: Proc)
    requires World(ps) && p < |ps| && Shaped(st, |ps|) && ps' == ps[p := st]
    ensures World(ps')
  {
    forall r: nat | r < |ps'| ensures Shaped(ps'[r], |ps'|) {
      assert r != p ==> ps'[r] == ps[r];
    }
  }

  /** What processor r has for q after the put. */
  lemma SentBy(ps: seq<Proc>, ps': seq<Proc>, slices: seq<int>, p: nat, a: GlobalArray, first: nat, src: int,
               offset: nat, size: nat, r: nat, q: nat)
    requires Quiet(ps, slices) && PutBy(ps, ps', p, a, first, src, offset, size) && a.slice == slices[p]
    requires r < |ps| && q < |ps|
    ensures Shaped(ps'[r], |ps|) && ps'[r].mem == ps[r].mem && ps'[r].reg == ps[r].reg && ps'[r].reqs[q] == []
    ensures ps'[r].log[q] == if r == p then PutPiece(ps[p].mem, slices[q], a, first, src, offset, size, q) else []
  {
    assert QuietAt(ps, r) && Leads(ps, slices, p, q);
    if r == p {
      assert ps'[p].log[q] == [] + PutPiece(ps[p].mem, slices[q], a, first, src, offset, size, q);
    }
  }

  /** p alone has something for q: the piece of its put. */
  ghost predicate PutsOne(ps: seq<Proc>, p: nat, q: nat, slice: int, a: GlobalArray, first: nat, src: int, offset: nat,
                          size: nat) {
    && World(ps) && p < |ps| && q < |ps| && OnlyFrom(ps, p, q)
    && ps[p].log[q] == PutPiece(ps[p].mem, slice, a, first, src, offset, size, q)
  }

  /** What the put leaves for processor q. */
  lemma PutLeaves(ps: seq<Proc>, ps': seq<Proc>, slices: seq<int>, p: nat, a: GlobalArray, first: nat, src: int,
                  offset: nat, size: nat, q: nat)
    requires Quiet(ps, slices) && PutBy(ps, ps', p, a, first, src, offset, size) && a.slice == slices[p] && q < |ps|
    ensures PutsOne(ps', p, q, slices[q], a, first, src, offset, size)
    ensures ps'[q].mem == ps[q].mem && ps'[p].mem == ps[p].mem
  {
    WorldStays(ps, ps', p, PutsLogged(ps[p], p, a, first, src, offset, size, |ps|));
    SentBy(ps, ps', slices, p, a, first, src, offset, size, q, q);
    SentBy(ps, ps', slices, p, a, first, src, offset, size, p, q);
    forall r: nat | r < |ps'|
      ensures Shaped(ps'[r], |ps'|) && ps'[q].reqs[r] == [] && (r != p ==> ps'[r].log[q] == []) {
      SentBy(ps, ps', slices, p, a, first, src, offset, size, r, q);
      SentBy(ps, ps', slices, p, a, first, src, offset, size, q, r);
    }
  }

  /** No registrations, in particular. */
  lemma PutRegistersNothing(ps: seq<Proc>, ps': seq<Proc>, slices: seq<int>, p: nat, a: GlobalArray, first: nat,
                            src: int,
                            offset: nat, size: nat, q: nat)
    requires Quiet(ps, slices) && PutBy(ps, ps', p, a, first, src, offset, size) && a.slice == slices[p] && q < |ps|
    ensures World(ps') && NoRegistrations(ps', q)
  {
    WorldStays(ps, ps', p, PutsLogged(ps[p], p, a, first, src, offset, size, |ps|));
    PieceIsPut(PutPiece(ps[p].mem, slices[q], a, first, src, offset, size, q));
    SentBy(ps, ps', slices, p, a, first, src, offset, size, q, q);
    forall r: nat | r < |ps'| ensures Shaped(ps'[r], |ps'|) && Select(ps'[r].log[q], PushRegItem) == [] {
      SentBy(ps, ps', slices, p, a, first, src, offset, size, r, q);
    }
  }

  /** Behind the boundary the world is quiet again, ... */
  lemma QuietAgain(ps: seq<Proc>, ps': seq<Proc>, next: seq<Proc>, slices: seq<int>, p: nat, a: GlobalArray, first: nat,
                   src: int, offset: nat, size: nat, q: nat)
    requires Quiet(ps, slices) && PutBy(ps, ps', p, a, first, src, offset, size) && a.slice == slices[p] && q < |ps|
    requires World(ps') && SyncDefined(ps', q) && |next| == |ps| && next[q] == SyncProc(ps', q)
    ensures QuietAt(next, q) && next[q].reg == ps[q].reg && next[q].mem == SyncMemory(ps', q, |ps|)
  {
    PutRegistersNothing(ps, ps', slices, p, a, first, src, offset, size, q);
    SentBy(ps, ps', slices, p, a, first, src, offset, size, q, q);
    RegistersStay(ps', q);
  }

  /** ... and the slices are where they were. */
  lemma StillAllocated(ps: seq<Proc>, next: seq<Proc>, slices: seq<int>)
    requires Quiet(ps, slices) && |next| == |ps|
    requires forall q: nat :: q < |ps| ==> QuietAt(next, q) && next[q].reg == ps[q].reg
    ensures Quiet(next, slices)
  {
    forall q: nat | q < |next| ensures Shaped(next[q], |next|) {
      assert QuietAt(next, q);
    }
    forall r: nat | r < |ps| ensures next[r].reg == ps[r].reg && Shaped(ps[r], |ps|) && slices[r] in ps[r].reg[r] {
      assert QuietAt(next, r) && QuietAt(ps, r);
    }
    forall r: nat, q: nat | r < |ps| && q < |ps| ensures Leads(next, slices, r, q) {
      assert Leads(ps, slices, r, q);
    }
  }

  // ----- get -----

  /** p alone asks, and for its range. */
  lemma GetAsks(ps: seq<Proc>, ps': seq<Proc>, slices: seq<int>, p: nat, a: GlobalArray, first: nat, dst: int,
                offset: nat, size: nat)
    requires Quiet(ps, slices) && GetBy(ps, ps', p, a, first, dst, offset, size) && a.slice == slices[p]
    ensures World(ps') && OnlyAsks(ps', p, slices, a, first, dst, offset, size)
    ensures forall r: nat :: r < |ps| ==> ps'[r].mem == ps[r].mem
  {
    assert QuietAt(ps, p);
    WorldStays(ps, ps', p, GetsLogged(ps[p], p, a, first, dst, offset, size, |ps|));
    forall r: nat | r < |ps| ensures AsksOne(ps', p, r, slices[r], a, first, dst, offset, size) {
      assert QuietAt(ps, r) && Leads(ps, slices, p, r);
      assert ps'[p].reqs[r] == [] + GetPiece(slices[r], a, first, dst, offset, size, r);
    }
  }

  // ----- put, sync, get, sync -----

  /** Place i of processor o's slice. */
  ghost function Content(ps: seq<Proc>, slices: seq<int>, o: nat, i: nat): byte
    requires o < |ps| == |slices|
  {
    ByteAt(ps[o].mem, slices[o] + i)
  }

  /** That is number g of the array. */
  predicate IsPlace(a: GlobalArray, g: nat, o: nat, i: nat) {
    i < a.localSize && g == A.Start(o, a.localSize) + i
  }

  /** Every number has its place. */
  lemma PlaceOf(a: GlobalArray, procs: nat, g: nat) returns (o: nat, i: nat)
    requires a.localSize > 0 && g < a.arraySize <= A.Start(procs, a.localSize)
    ensures o < procs && IsPlace(a, g, o, i)
  {
    D.QuotientNat(g, a.localSize);
    o, i := g / a.localSize, g % a.localSize;
    A.StartIs(o, a.localSize);
    if procs <= o { A.StartGrows(procs, o, a.localSize); }
  }

  /** next is what the superstep boundary makes of ps. */
  ghost predicate SyncedAt(ps: seq<Proc>, next: seq<Proc>, q: nat) {
    q < |ps| == |next| && World(ps) && SyncDefined(ps, q) && next[q] == SyncProc(ps, q)
  }

  ghost predicate Synced(ps: seq<Proc>, next: seq<Proc>) {
    |next| == |ps| && forall q: nat :: q < |ps| ==> SyncedAt(ps, next, q)
  }

  /** The boundary behind a put is always defined. */
  lemma PutSyncs(ps: seq<Proc>, ps': seq<Proc>, slices: seq<int>, p: nat, a: GlobalArray, first: nat, src: int,
                 offset: nat, size: nat, q: nat)
    requires Quiet(ps, slices) && PutBy(ps, ps', p, a, first, src, offset, size) && a.slice == slices[p] && q < |ps|
    ensures World(ps') && SyncDefined(ps', q)
  {
    PutRegistersNothing(ps, ps', slices, p, a, first, src, offset, size, q);
    RegistersStay(ps', q);
  }

  /** What a put into the range and its boundary make of number g, place i of a slice: the put byte if g is in
    * the range, and what it was if not. */
  predicate ChangedBy(m: Memory, was: Memory, mem: Memory, slice: int, src: int, offset: nat, size: nat, i: nat,
                      g: nat) {
    ByteAt(m, slice + i) == if offset <= g < offset + size then ByteAt(mem, src + (g - offset))
      else ByteAt(was, slice + i)
  }

  lemma PutChanges(ps: seq<Proc>, p: nat, slice: int, a: GlobalArray, first: nat, src: int, offset: nat, size: nat,
                   o: nat, i: nat, g: nat, m: Memory, was: Memory, mem: Memory)
    requires PutsOne(ps, p, o, slice, a, first, src, offset, size) && IsPlace(a, g, o, i)
    requires Begins(a, |ps|, first, offset, size) && FirstIn(a, first, offset, size)
    requires m == SyncMemory(ps, o, |ps|) && was == ps[o].mem && mem == ps[p].mem
    ensures ChangedBy(m, was, mem, slice, src, offset, size, i, g)
  {
    var base := g - i;
    PutContent(ps, p, o, slice, a, src, offset, size, first, g, base, m, was, mem);
    ChangedFrom(m, was, mem, slice, src, offset, size, i, g, base);
  }

  lemma ChangedFrom(m: Memory, was: Memory, mem: Memory, slice: int, src: int, offset: nat, size: nat, i: nat, g: nat,
                    base: nat)
    requires base == g - i
    requires ByteAt(m, slice + (g - base))
          == if offset <= g < offset + size then ByteAt(mem, src + (g - offset)) else ByteAt(was, slice + (g - base))
    ensures ChangedBy(m, was, mem, slice, src, offset, size, i, g)
  {
    assert g - base == i;
  }

  /** The world behind the put and its boundary. */
  lemma AfterPut(ps: seq<Proc>, ps': seq<Proc>, next: seq<Proc>, slices: seq<int>, p: nat, a: GlobalArray, first: nat,
                 src: int, offset: nat, size: nat)
    requires Quiet(ps, slices) && PutBy(ps, ps', p, a, first, src, offset, size) && a.slice == slices[p]
      && Synced(ps', next)
    ensures Quiet(next, slices)
  {
    forall q: nat | q < |ps| ensures QuietAt(next, q) && next[q].reg == ps[q].reg {
      assert SyncedAt(ps', next, q);
      QuietAgain(ps, ps', next, slices, p, a, first, src, offset, size, q);
    }
    StillAllocated(ps, next, slices);
  }

  lemma AfterPutAt(ps: seq<Proc>, ps': seq<Proc>, next: seq<Proc>, slices: seq<int>, p: nat, a: GlobalArray, first: nat,
                   src: int, offset: nat, size: nat, o: nat, i: nat, g: nat)
    requires Quiet(ps, slices) && PutBy(ps, ps', p, a, first, src, offset, size) && a.slice == slices[p]
    requires Synced(ps', next) && o < |ps| && IsPlace(a, g, o, i)
    requires Begins(a, |ps|, first, offset, size) && FirstIn(a, first, offset, size)
    ensures ChangedBy(next[o].mem, ps[o].mem, ps[p].mem, slices[o], src, offset, size, i, g)
  {
    assert SyncedAt(ps', next, o);
    QuietAgain(ps, ps', next, slices, p, a, first, src, offset, size, o);
    PutLeaves(ps, ps', slices, p, a, first, src, offset, size, o);
    PutChanges(ps', p, slices[o], a, first, src, offset, size, o, i, g, next[o].mem, ps[o].mem, ps[p].mem);
  }

  /** What a get from the range and its boundary bring: number g out of its place. */
  lemma GetBrings(ps: seq<Proc>, slices: seq<int>, p: nat, a: GlobalArray, first: nat, dst: int, offset: nat, size: nat,
                  o: nat, i: nat, g: nat, m: Memory)
    requires World(ps) && p < |ps| && OnlyAsks(ps, p, slices, a, first, dst, offset, size)
      && m == SyncMemory(ps, p, |ps|)
    requires Begins(a, |ps|, first, offset, size) && FirstIn(a, first, offset, size)
    requires offset <= g < offset + size && IsPlace(a, g, o, i) && o < |ps|
    ensures ByteAt(m, dst + (g - offset)) == Content(ps, slices, o, i)
  {
    GetContent(ps, p, slices, a, first, dst, offset, size, o, g, A.Start(o, a.localSize), m);
  }

  lemma AfterGetAt(ps: seq<Proc>, ps': seq<Proc>, slices: seq<int>, p: nat, a: GlobalArray, first: nat, dst: int,
                   offset: nat, size: nat, o: nat, i: nat, g: nat, m: Memory)
    requires Quiet(ps, slices) && GetBy(ps, ps', p, a, first, dst, offset, size) && a.slice == slices[p]
    requires World(ps') && m == SyncMemory(ps', p, |ps|)
    requires Begins(a, |ps|, first, offset, size) && FirstIn(a, first, offset, size)
    requires offset <= g < offset + size && IsPlace(a, g, o, i) && o < |ps|
    ensures ByteAt(m, dst + (g - offset)) == Content(ps, slices, o, i)
  {
    GetAsks(ps, ps', slices, p, a, first, dst, offset, size);
    GetBrings(ps', slices, p, a, first, dst, offset, size, o, i, g, m);
  }

  /** A range whose pieces stay inside slices. */
  ghost predicate GoodRange(a: GlobalArray, procs: nat, first: nat, offset: nat, size: nat) {
    && RangeOf(a, procs, offset, size) && first == FirstProc(procs, a.arraySize, offset)
    && a.localSize > 0 && (size == 0 || Aligned(procs, a.arraySize, offset))
  }

  lemma GoodRangeBegins(a: GlobalArray, procs: nat, first: nat, offset: nat, size: nat)
    requires GoodRange(a, procs, first, offset, size)
    ensures Begins(a, procs, first, offset, size) && FirstIn(a, first, offset, size)
  {
    RangeBegins(a, procs, first, offset, size);
    InsideSlicesIff(procs, a.arraySize, offset, size);
    FirstInside(a, first, offset, size);
  }

  /** Put by p, sync, get by p', sync: p' reads the bytes of p where the ranges meet, and what the array
    * held before where they do not. */
  lemma PutThenGet(ps: seq<Proc>, ps': seq<Proc>, next: seq<Proc>, next': seq<Proc>, slices: seq<int>,
                   p: nat, a: GlobalArray, first: nat, src: int, offset: nat, size: nat,
                   p': nat, a': GlobalArray, first': nat, dst: int, offset': nat, size': nat, m: Memory,
                   o: nat, i: nat, g: nat)
    requires Quiet(ps, slices) && p < |ps| && p' < |ps| && a.slice == slices[p] && a' == a.(slice := slices[p'])
    requires GoodRange(a, |ps|, first, offset, size) && GoodRange(a', |ps|, first', offset', size')
    requires PutBy(ps, ps', p, a, first, src, offset, size) && Synced(ps', next)
    requires GetBy(next, next', p', a', first', dst, offset', size') && World(next') && m == SyncMemory(next', p', |ps|)
    requires offset' <= g < offset' + size' && IsPlace(a, g, o, i) && o < |ps|
    ensures ByteAt(m, dst + (g - offset'))
         == if offset <= g < offset + size then ByteAt(ps[p].mem, src + (g - offset)) else Content(ps, slices, o, i)
  {
    GoodRangeBegins(a, |ps|, first, offset, size);
    GoodRangeBegins(a', |ps|, first', offset', size');
    PutThenGetAt(ps, ps', next, next', slices, p, a, first, src, offset, size, p', a', first', dst, offset', size', m,
      o, i, g);
  }

  lemma PutThenGetAt(ps: seq<Proc>, ps': seq<Proc>, next: seq<Proc>, next': seq<Proc>, slices: seq<int>,
                     p: nat, a: GlobalArray, first: nat, src: int, offset: nat, size: nat,
                     p': nat, a': GlobalArray, first': nat, dst: int, offset': nat, size': nat, m: Memory,
                     o: nat, i: nat, g: nat)
    requires Quiet(ps, slices) && p < |ps| && p' < |ps| && a.slice == slices[p] && a' == a.(slice := slices[p'])
    requires Begins(a, |ps|, first, offset, size) && FirstIn(a, first, offset, size)
    requires Begins(a', |ps|, first', offset', size') && FirstIn(a', first', offset', size')
    requires PutBy(ps, ps', p, a, first, src, offset, size) && Synced(ps', next)
    requires GetBy(next, next', p', a', first', dst, offset', size') && World(next') && m == SyncMemory(next', p', |ps|)
    requires offset' <= g < offset' + size' && IsPlace(a, g, o, i) && o < |ps|
    ensures ByteAt(m, dst + (g - offset'))
         == if offset <= g < offset + size then ByteAt(ps[p].mem, src + (g - offset)) else Content(ps, slices, o, i)
  {
    AfterPut(ps, ps', next, slices, p, a, first, src, offset, size);
    AfterGetAt(next, next', slices, p', a', first', dst, offset', size', o, i, g, m);
    AfterPutAt(ps, ps', next, slices, p, a, first, src, offset, size, o, i, g);
  }

  predicate SameByteAt(m: Memory, mem: Memory, dst: int, src: int, k: nat) {
    ByteAt(m, dst + k) == ByteAt(mem, src + k)
  }

  /** The boundary behind a get is always defined. */
  lemma GetSyncs(ps: seq<Proc>, ps': seq<Proc>, slices: seq<int>, p: nat, a: GlobalArray, first: nat, dst: int,
                 offset: nat, size: nat, q: nat)
    requires Quiet(ps, slices) && GetBy(ps, ps', p, a, first, dst, offset, size) && a.slice == slices[p] && q < |ps|
    ensures World(ps') && SyncDefined(ps', q)
  {
    GetAsks(ps, ps', slices, p, a, first, dst, offset, size);
    forall r: nat | r < |ps'| ensures Shaped(ps'[r], |ps'|) && ps'[r].log[q] == [] {
      assert QuietAt(ps, r);
    }
    RegistersStay(ps', q);
  }

  lemma SyncedWorld(ps: seq<Proc>) returns (next: seq<Proc>)
    requires World(ps) && forall q: nat :: q < |ps| ==> SyncDefined(ps, q)
    ensures Synced(ps, next)
  {
    next := seq(|ps|, q requires 0 <= q < |ps| => SyncProc(ps, q));
    forall q: nat | q < |ps| ensures SyncedAt(ps, next, q) {}
  }

  /** Put by p, sync, get of the same range by p', sync: both boundaries are defined, and p' has the bytes of p. */
  lemma RoundTrip(ps: seq<Proc>, slices: seq<int>, p: nat, a: GlobalArray, p': nat, a': GlobalArray, first: nat,
                  src: int, dst: int, offset: nat, size: nat)
    returns (put: seq<Proc>, next: seq<Proc>, got: seq<Proc>, last: seq<Proc>)
    requires Quiet(ps, slices) && p < |ps| && p' < |ps| && a.slice == slices[p] && a' == a.(slice := slices[p'])
    requires GoodRange(a, |ps|, first, offset, size)
    ensures PutBy(ps, put, p, a, first, src, offset, size) && Synced(put, next)
    ensures GetBy(next, got, p', a', first, dst, offset, size) && Synced(got, last)
    ensures ReadBytes(last[p'].mem, dst, size) == ReadBytes(ps[p].mem, src, size)
  {
    put, next := PutWorld(ps, slices, p, a, first, src, offset, size);
    got, last := GetWorld(next, slices, p', a', first, dst, offset, size);
    GoodRangeBegins(a, |ps|, first, offset, size);
    assert SyncedAt(got, last, p');
    ghost var m := SyncMemory(got, p', |ps|);
    assert last[p'].mem == m;
    forall k: nat | k < size ensures SameByteAt(m, ps[p].mem, dst, src, k) {
      RoundTripAt(ps, put, next, got, slices, p, a, p', a', first, src, dst, offset, size, m, k);
    }
    SameReads(m, ps[p].mem, dst, src, size);
  }

  /** The world after the put, and behind its boundary. */
  lemma PutWorld(ps: seq<Proc>, slices: seq<int>, p: nat, a: GlobalArray, first: nat, src: int, offset: nat, size: nat)
    returns (put: seq<Proc>, next: seq<Proc>)
    requires Quiet(ps, slices) && p < |ps| && a.slice == slices[p]
    ensures PutBy(ps, put, p, a, first, src, offset, size) && Synced(put, next) && Quiet(next, slices)
  {
    assert QuietAt(ps, p);
    put := ps[p := PutsLogged(ps[p], p, a, first, src, offset, size, |ps|)];
    forall q: nat | q < |ps| ensures World(put) && SyncDefined(put, q) {
      PutSyncs(ps, put, slices, p, a, first, src, offset, size, q);
    }
    PutSyncs(ps, put, slices, p, a, first, src, offset, size, p);
    next := SyncedWorld(put);
    AfterPut(ps, put, next, slices, p, a, first, src, offset, size);
  }

  /** The world after the get, and behind its boundary. */
  lemma GetWorld(ps: seq<Proc>, slices: seq<int>, p: nat, a: GlobalArray, first: nat, dst: int, offset: nat, size: nat)
    returns (got: seq<Proc>, last: seq<Proc>)
    requires Quiet(ps, slices) && p < |ps| && a.slice == slices[p]
    ensures GetBy(ps, got, p, a, first, dst, offset, size) && Synced(got, last) && World(got)
  {
    assert QuietAt(ps, p);
    got := ps[p := GetsLogged(ps[p], p, a, first, dst, offset, size, |ps|)];
    forall q: nat | q < |ps| ensures World(got) && SyncDefined(got, q) {
      GetSyncs(ps, got, slices, p, a, first, dst, offset, size, q);
    }
    GetSyncs(ps, got, slices, p, a, first, dst, offset, size, p);
    last := SyncedWorld(got);
  }

  lemma RoundTripAt(ps: seq<Proc>, ps': seq<Proc>, next: seq<Proc>, next': seq<Proc>, slices: seq<int>, p: nat,
                    a: GlobalArray,
                    p': nat, a': GlobalArray, first: nat, src: int, dst: int, offset: nat, size: nat, m: Memory, k: nat)
    requires Quiet(ps, slices) && p < |ps| && p' < |ps| && a.slice == slices[p] && a' == a.(slice := slices[p'])
    requires Begins(a, |ps|, first, offset, size) && FirstIn(a, first, offset, size) && k < size
    requires PutBy(ps, ps', p, a, first, src, offset, size) && Synced(ps', next)
    requires GetBy(next, next', p', a', first, dst, offset, size) && World(next') && m == SyncMemory(next', p', |ps|)
    ensures SameByteAt(m, ps[p].mem, dst, src, k)
  {
    var g := offset + k;
    var o, i := PlaceOf(a, |ps|, g);
    PutThenGetAt(ps, ps', next, next', slices, p, a, first, src, offset, size, p', a', first, dst, offset, size, m, o,
      i, g);
    SameFrom(m, ps[p].mem, dst, src, k, g, offset);
  }

  lemma SameFrom(m: Memory, mem: Memory, dst: int, src: int, k: nat, g: nat, offset: nat)
    requires g == offset + k && ByteAt(m, dst + (g - offset)) == ByteAt(mem, src + (g - offset))
    ensures SameByteAt(m, mem, dst, src, k)
  {
    assert g - offset == k;
  }

  lemma SameReads(m: Memory, mem: Memory, dst: int, src: int, size: nat)
    requires forall k: nat :: k < size ==> SameByteAt(m, mem, dst, src, k)
    ensures ReadBytes(m, dst, size) == ReadBytes(mem, src, size)
  {
    forall k: nat | k < size ensures ReadBytes(m, dst, size)[k] == ReadBytes(mem, src, size)[k] {
      assert SameByteAt(m, mem, dst, src, k);
    }
  }
}
