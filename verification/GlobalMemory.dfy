/** Global arrays as one memory: what a put into a range and a get from a range amount to, across
  * the superstep boundary. */
module GlobalMemory {
  import A = Arithmetic
  import opened Columns
  import opened Memories
  import opened Registers
  import opened Requests
  import opened Supersteps
  import opened GlobalPieces
  import opened GlobalDrma

  /** A byte of memory; 0 where nothing was written. */
  function ByteAt(m: Memory, address: int): byte {
    if address in m then m[address] else 0
  }

  /** Processor q's slice begins at slices[q], and every processor translates its own address to it. */
  ghost predicate Allocated(ps: seq<Proc>, slices: seq<int>)
    requires World(ps)
  {
    && |slices| == |ps|
    && (forall p: nat :: p < |ps| ==> Shaped(ps[p], |ps|) && slices[p] in ps[p].reg[p])
    && (forall p: nat, q: nat :: p < |ps| && q < |ps| ==> Leads(ps, slices, p, q))
  }

  ghost predicate Leads(ps: seq<Proc>, slices: seq<int>, p: nat, q: nat)
    requires p < |ps| && q < |ps| == |slices| && Shaped(ps[p], |ps|) && slices[p] in ps[p].reg[p]
  {
    Remote(ps[p], p, q, slices[p]) == slices[q]
  }

  predicate Idle(st: Proc, n: nat) {
    st.log == Empty(n) && st.reqs == Empty(n)
  }

  // ----- put -----

  /** Nobody but p has anything for q, and q asks nobody. */
  ghost predicate OnlyFrom(ps: seq<Proc>, p: nat, q: nat)
    requires World(ps) && p < |ps| && q < |ps|
  {
    && Shaped(ps[q], |ps|)
    && (forall r: nat :: r < |ps| ==> Shaped(ps[r], |ps|) && ps[q].reqs[r] == [] && (r != p ==> ps[r].log[q] == []))
  }

  lemma OneMoreSender(ps: seq<Proc>, q: nat, n: nat, puts: seq<Record>)
    requires World(ps) && q < |ps| && n < |ps| && Shaped(ps[q], |ps|) && Shaped(ps[n], |ps|)
    requires ps[q].reqs[n] == [] && Select(ps[n].log[q], PutItem) == puts
    ensures SyncMemory(ps, q, n + 1) == PutAll(SyncMemory(ps, q, n), puts)
  {
  }

  /** Memory of q, when p alone has logged puts. */
  lemma {:induction false} PutsOfOne(ps: seq<Proc>, p: nat, q: nat, n: nat, puts: seq<Record>)
    requires World(ps) && p < |ps| && q < |ps| && n <= |ps| && OnlyFrom(ps, p, q)
    requires Select(ps[p].log[q], PutItem) == puts
    ensures SyncMemory(ps, q, n) == if p < n then PutAll(ps[q].mem, puts) else ps[q].mem
  {
    if n > 0 {
      PutsOfOne(ps, p, q, n - 1, puts);
      OneMoreSender(ps, q, n - 1, if n - 1 == p then puts else []);
    }
  }

  /** One put of a piece. */
  lemma PieceWritten(m: Memory, rec: Record, address: int)
    requires rec.info.Put?
    ensures ByteAt(PutAll(m, [rec]), address) == var k := address - rec.info.dst;
      if 0 <= k < |rec.payload| then rec.payload[k] else ByteAt(m, address)
  {
    assert [rec][..0] == [];
    var k := address - rec.info.dst;
    assert 0 <= k < |rec.payload| ==> address in WriteBytes(m, rec.info.dst, rec.payload);
  }

  /** The first piece lies within its slice. */
  predicate FirstIn(a: GlobalArray, first: nat, offset: nat, size: nat) {
    size > 0 ==> A.Start(first, a.localSize) <= offset
  }

  lemma FirstInside(a: GlobalArray, first: nat, offset: nat, size: nat)
    requires InsideSlices(first, a.localSize, offset, offset + size) && offset < A.Start(first + 1, a.localSize)
    ensures FirstIn(a, first, offset, size)
  {
    assert PieceInside(first, a.localSize, offset, offset + size, first);
  }

  /** Where the pieces stay inside slices, place g - q local of q's slice is written exactly if number g is
    * in the range. */
  lemma PieceHas(a: GlobalArray, first: nat, offset: nat, size: nat, q: nat, g: nat)
    requires size > 0 ==> A.Start(first, a.localSize) <= offset
    requires A.Start(q, a.localSize) <= g < A.Start(q + 1, a.localSize) && offset < A.Start(first + 1, a.localSize)
    ensures offset <= g < offset + size <==>
      && HasPiece(first, a.localSize, offset, offset + size, q)
      && Low(first, a.localSize, offset, q) <= g < High(a.localSize, offset + size, q)
  {
    if q > first {
      A.StartGrows(first + 1, q, a.localSize);
    } else if q < first {
      A.StartGrows(q + 1, first, a.localSize);
    }
  }

  /** The bytes from low to high of a range, put into a slice whose first byte is number `base`. */
  function Part(mem: Memory, slice: int, src: int, offset: nat, low: nat, high: nat, base: nat): Record
    requires low < high
  {
    Record(Put(slice + (low - base)), ReadBytes(mem, src + (low - offset), high - low))
  }

  lemma PartWritten(m: Memory, mem: Memory, slice: int, src: int, offset: nat, low: nat, high: nat, base: nat, g: nat)
    requires low < high
    ensures ByteAt(PutAll(m, [Part(mem, slice, src, offset, low, high, base)]), slice + (g - base))
         == if low <= g < high then ByteAt(mem, src + (g - offset)) else ByteAt(m, slice + (g - base))
  {
    PieceWritten(m, Part(mem, slice, src, offset, low, high, base), slice + (g - base));
  }

  /** What a piece makes of q's slice. */
  lemma PieceContent(m: Memory, mem: Memory, slice: int, a: GlobalArray, first: nat, src: int, offset: nat, size: nat,
                     q: nat, g: nat, base: nat, piece: seq<Record>)
    requires size > 0 ==> A.Start(first, a.localSize) <= offset
    requires base == A.Start(q, a.localSize) <= g < A.Start(q + 1, a.localSize)
      && offset < A.Start(first + 1, a.localSize)
    requires piece == PutPiece(mem, slice, a, first, src, offset, size, q)
    ensures ByteAt(PutAll(m, piece), slice + (g - base))
         == if offset <= g < offset + size then ByteAt(mem, src + (g - offset)) else ByteAt(m, slice + (g - base))
  {
    PieceHas(a, first, offset, size, q, g);
    if HasPiece(first, a.localSize, offset, offset + size, q) {
      var low, high := Low(first, a.localSize, offset, q), High(a.localSize, offset + size, q);
      assert piece == [Part(mem, slice, src, offset, low, high, base)];
      PartWritten(m, mem, slice, src, offset, low, high, base, g);
    } else {
      assert piece == [];
    }
  }

  lemma PieceIsPut(piece: seq<Record>)
    requires |piece| <= 1 && (piece != [] ==> piece[0].info.Put?)
    ensures Select(piece, PutItem) == piece && Select(piece, PushRegItem) == [] && Select(piece, PopRegItem) == []
  {
    if piece != [] { assert piece == [] + [piece[0]]; Append([], piece[0], PutItem); }
  }

  /** What p's put makes of the global array: the bytes of the range are p's, all others are as before. */
  lemma PutContent(ps: seq<Proc>, p: nat, q: nat, slice: int, a: GlobalArray, src: int, offset: nat, size: nat,
                   first: nat, g: nat, base: nat, m: Memory, was: Memory, mem: Memory)
    requires World(ps) && p < |ps| && q < |ps| && OnlyFrom(ps, p, q) && was == ps[q].mem && mem == ps[p].mem
    requires ps[p].log[q] == PutPiece(mem, slice, a, first, src, offset, size, q) && m == SyncMemory(ps, q, |ps|)
    requires Begins(a, |ps|, first, offset, size) && FirstIn(a, first, offset, size)
    requires base == A.Start(q, a.localSize) <= g < A.Start(q + 1, a.localSize)
    ensures ByteAt(m, slice + (g - base))
         == if offset <= g < offset + size then ByteAt(mem, src + (g - offset)) else ByteAt(was, slice + (g - base))
  {
    var piece := PutPiece(mem, slice, a, first, src, offset, size, q);
    PieceIsPut(piece);
    PutsOfOne(ps, p, q, |ps|, piece);
    PieceContent(was, mem, slice, a, first, src, offset, size, q, g, base, piece);
  }

  // ----- get -----

  /** Nobody has anything for p, and p asks the processors for the pieces of a range. */
  ghost predicate OnlyAsks(ps: seq<Proc>, p: nat, slices: seq<int>, a: GlobalArray, first: nat, dst: int, offset: nat,
                           size: nat)
    requires World(ps) && p < |ps|
  {
    && |slices| == |ps| && Shaped(ps[p], |ps|)
    && (forall r: nat :: r < |ps| ==> AsksOne(ps, p, r, slices[r], a, first, dst, offset, size))
  }

  ghost predicate AsksOne(ps: seq<Proc>, p: nat, r: nat, slice: int, a: GlobalArray, first: nat, dst: int, offset: nat,
                          size: nat)
    requires World(ps) && p < |ps| && r < |ps| && Shaped(ps[p], |ps|)
  {
    && Shaped(ps[r], |ps|) && ps[r].log[p] == []
    && ps[p].reqs[r] == GetPiece(slice, a, first, dst, offset, size, r)
  }

  predicate AnsweredBy(m: Memory, m': Memory, mem: Memory, reqs: seq<Request>) {
    m' == PutAll(m, Answers(mem, reqs))
  }

  /** The memories of p while the answers come in. */
  lemma {:induction false} AnswersInTurn(ps: seq<Proc>, p: nat, n: nat) returns (mems: seq<Memory>)
    requires World(ps) && p < |ps| && Shaped(ps[p], |ps|) && n <= |ps|
    requires forall r: nat :: r < |ps| ==> NothingFor(ps, r, p)
    ensures |mems| == n + 1 && mems[n] == SyncMemory(ps, p, n)
    ensures forall q: nat :: q < n ==> AnsweredBy(mems[q], mems[q + 1], ps[q].mem, ps[p].reqs[q])
  {
    if n == 0 {
      mems := [ps[p].mem];
    } else {
      var prefix := AnswersInTurn(ps, p, n - 1);
      assert NothingFor(ps, n - 1, p);
      OneMoreAnswer(ps, p, n - 1, ps[p].reqs[n - 1]);
      var last := SyncMemory(ps, p, n);
      mems := prefix + [last];
      assert AnsweredBy(prefix[n - 1], last, ps[n - 1].mem, ps[p].reqs[n - 1]);
    }
  }

  ghost predicate NothingFor(ps: seq<Proc>, r: nat, p: nat)
    requires World(ps) && r < |ps| && p < |ps|
  {
    Shaped(ps[r], |ps|) && ps[r].log[p] == []
  }

  lemma OneMoreAnswer(ps: seq<Proc>, p: nat, n: nat, reqs: seq<Request>)
    requires World(ps) && p < |ps| && n < |ps| && Shaped(ps[p], |ps|) && Shaped(ps[n], |ps|)
    requires ps[n].log[p] == [] && ps[p].reqs[n] == reqs
    ensures SyncMemory(ps, p, n + 1) == PutAll(SyncMemory(ps, p, n), Answers(ps[n].mem, reqs))
  {
  }

  /** Number g, which lies in o's slice, is in the piece of no other processor. */
  lemma PieceOfOwner(a: GlobalArray, first: nat, offset: nat, size: nat, q: nat, o: nat, g: nat)
    requires A.Start(first, a.localSize) <= offset < A.Start(first + 1, a.localSize)
    requires A.Start(o, a.localSize) <= g < A.Start(o + 1, a.localSize) && offset <= g < offset + size
    ensures q == o <==>
      && HasPiece(first, a.localSize, offset, offset + size, q)
      && Low(first, a.localSize, offset, q) <= g < High(a.localSize, offset + size, q)
  {
    if q == o {
      PieceHas(a, first, offset, size, q, g);
    } else if q < o {
      A.StartGrows(q + 1, o, a.localSize);
    } else {
      A.StartGrows(o + 1, q, a.localSize);
    }
  }

  /** The answer to a piece. */
  lemma AnswerIsPart(mem: Memory, slice: int, a: GlobalArray, first: nat, dst: int, offset: nat, size: nat, q: nat,
                     piece: seq<Request>)
    requires HasPiece(first, a.localSize, offset, offset + size, q)
    requires piece == GetPiece(slice, a, first, dst, offset, size, q)
    ensures Answers(mem, piece) == [Part(mem, dst, slice, A.Start(q, a.localSize), Low(first, a.localSize, offset, q),
                                         High(a.localSize, offset + size, q), offset)]
  {
  }

  /** What the answer to a piece brings to the place for number g. */
  lemma AnswerContent(m: Memory, mem: Memory, slice: int, a: GlobalArray, first: nat, dst: int, offset: nat, size: nat,
                      q: nat, o: nat, g: nat, piece: seq<Request>, base: nat)
    requires A.Start(first, a.localSize) <= offset < A.Start(first + 1, a.localSize) && base == A.Start(q, a.localSize)
    requires A.Start(o, a.localSize) <= g < A.Start(o + 1, a.localSize) && offset <= g < offset + size
    requires piece == GetPiece(slice, a, first, dst, offset, size, q)
    ensures ByteAt(PutAll(m, Answers(mem, piece)), dst + (g - offset))
         == if q == o then ByteAt(mem, slice + (g - base)) else ByteAt(m, dst + (g - offset))
  {
    PieceOfOwner(a, first, offset, size, q, o, g);
    if HasPiece(first, a.localSize, offset, offset + size, q) {
      AnswerIsPart(mem, slice, a, first, dst, offset, size, q, piece);
      PartWritten(m, mem, dst, slice, base, Low(first, a.localSize, offset, q), High(a.localSize, offset + size, q),
        offset, g);
    } else {
      assert Answers(mem, piece) == [];
    }
  }

  predicate SameByte(m: Memory, m': Memory, address: int) {
    ByteAt(m', address) == ByteAt(m, address)
  }

  lemma {:induction false} SameBytes(mems: seq<Memory>, address: int, k: nat, n: nat)
    requires k <= n < |mems| && forall q :: k <= q < n ==> SameByte(mems[q], mems[q + 1], address)
    ensures SameByte(mems[k], mems[n], address)
  {
    if k < n { SameBytes(mems, address, k, n - 1); }
  }

  /** What a get brings: the bytes of the range, each out of the slice that holds it. */
  lemma GetContent(ps: seq<Proc>, p: nat, slices: seq<int>, a: GlobalArray, first: nat, dst: int, offset: nat,
                   size: nat,
                   o: nat, g: nat, base: nat, m: Memory)
    requires World(ps) && p < |ps| && OnlyAsks(ps, p, slices, a, first, dst, offset, size)
      && m == SyncMemory(ps, p, |ps|)
    requires A.Start(first, a.localSize) <= offset < A.Start(first + 1, a.localSize)
    requires base == A.Start(o, a.localSize) <= g < A.Start(o + 1, a.localSize) && offset <= g < offset + size
      && o < |ps|
    ensures ByteAt(m, dst + (g - offset)) == ByteAt(ps[o].mem, slices[o] + (g - base))
  {
    forall r: nat | r < |ps| ensures NothingFor(ps, r, p) {
      assert AsksOne(ps, p, r, slices[r], a, first, dst, offset, size);
    }
    var mems := AnswersInTurn(ps, p, |ps|);
    OwnerAnswers(mems, ps, p, slices, a, first, dst, offset, size, o, g);
    SameBytes(mems, dst + (g - offset), o + 1, |ps|);
  }

  lemma OwnerAnswers(mems: seq<Memory>, ps: seq<Proc>, p: nat, slices: seq<int>, a: GlobalArray, first: nat, dst: int,
                     offset: nat, size: nat, o: nat, g: nat)
    requires World(ps) && p < |ps| && OnlyAsks(ps, p, slices, a, first, dst, offset, size) && |mems| == |ps| + 1
    requires forall q: nat :: q < |ps| ==> AnsweredBy(mems[q], mems[q + 1], ps[q].mem, ps[p].reqs[q])
    requires A.Start(first, a.localSize) <= offset < A.Start(first + 1, a.localSize)
    requires A.Start(o, a.localSize) <= g < A.Start(o + 1, a.localSize) && offset <= g < offset + size && o < |ps|
    ensures ByteAt(mems[o + 1], dst + (g - offset)) == ByteAt(ps[o].mem, slices[o] + (g - A.Start(o, a.localSize)))
    ensures forall q :: o + 1 <= q < |ps| ==> SameByte(mems[q], mems[q + 1], dst + (g - offset))
  {
    assert AnsweredBy(mems[o], mems[o + 1], ps[o].mem, ps[p].reqs[o]);
    OneAnswer(mems[o], mems[o + 1], ps, p, slices, a, first, dst, offset, size, o, o, g);
    forall q | o + 1 <= q < |ps| ensures SameByte(mems[q], mems[q + 1], dst + (g - offset)) {
      assert AnsweredBy(mems[q], mems[q + 1], ps[q].mem, ps[p].reqs[q]);
      OneAnswer(mems[q], mems[q + 1], ps, p, slices, a, first, dst, offset, size, q, o, g);
    }
  }

  lemma OneAnswer(m: Memory, m': Memory, ps: seq<Proc>, p: nat, slices: seq<int>, a: GlobalArray, first: nat, dst: int,
                  offset: nat, size: nat, q: nat, o: nat, g: nat)
    requires World(ps) && p < |ps| && OnlyAsks(ps, p, slices, a, first, dst, offset, size) && q < |ps|
    requires AnsweredBy(m, m', ps[q].mem, ps[p].reqs[q])
    requires A.Start(first, a.localSize) <= offset < A.Start(first + 1, a.localSize)
    requires A.Start(o, a.localSize) <= g < A.Start(o + 1, a.localSize) && offset <= g < offset + size
    ensures ByteAt(m', dst + (g - offset))
         == if q == o then ByteAt(ps[q].mem, slices[q] + (g - A.Start(q, a.localSize)))
           else ByteAt(m, dst + (g - offset))
  {
    assert AsksOne(ps, p, q, slices[q], a, first, dst, offset, size);
    AnswerContent(m, ps[q].mem, slices[q], a, first, dst, offset, size, q, o, g, ps[p].reqs[q],
      A.Start(q, a.localSize));
  }

  // ----- the superstep boundary between them -----

  lemma {:induction false} KeepAllRows(col: seq<int>, n: nat)
    requires |col| <= n
    ensures Keep(col, NoneRemoved(n)) == col
  {
    if col != [] { KeepAllRows(col[..|col| - 1], n); }
  }

  /** Nobody registers or removes anything for q. */
  ghost predicate NoRegistrations(ps: seq<Proc>, q: nat)
    requires World(ps) && q < |ps|
  {
    && Shaped(ps[q], |ps|)
    && (forall r: nat :: r < |ps| ==> Shaped(ps[r], |ps|) && Select(ps[r].log[q], PushRegItem) == [])
    && Select(ps[q].log[q], PopRegItem) == []
  }

  /** Then the boundary is defined, and leaves the registers alone. */
  lemma RegistersStay(ps: seq<Proc>, q: nat)
    requires World(ps) && q < |ps| && NoRegistrations(ps, q)
    ensures SyncDefined(ps, q) && SyncProc(ps, q).reg == ps[q].reg
  {
    var cols := NewColumns(ps, q);
    forall r: nat | r < |ps| ensures cols[r] == ps[q].reg[r] {
      assert Select(Inbox(ps, q)[r], PushRegItem) == [];
    }
    assert cols == ps[q].reg;
    var marks := NoneRemoved(|cols[q]|);
    assert SyncMarks(ps, q) == Some(marks);
    SyncProcIs(ps, q, marks);
    forall r: nat | r < |ps| ensures KeepAll(cols, marks)[r] == cols[r] {
      KeepAllRows(cols[r], |marks|);
    }
    assert KeepAll(cols, marks) == cols;
  }
}
