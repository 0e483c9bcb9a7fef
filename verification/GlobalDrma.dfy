/** Put and get on global arrays (src/bsp_global_drma.c): one bspx_put or bspx_get per slice. */
module GlobalDrma {
  import A = Arithmetic
  import opened Columns
  import opened Memories
  import opened Requests
  import opened Supersteps
  import opened BspObjects
  import opened GlobalPieces

  /** An entry of global_arrays: the array's size, and this processor's slice. */
  datatype GlobalArray = GlobalArray(arraySize: nat, localSize: nat, slice: int)

  /** The array is allocated on procs processors, and the range lies within it. */
  ghost predicate RangeOf(a: GlobalArray, procs: nat, offset: nat, size: nat) {
    procs > 0 && a.arraySize > 0 && a.localSize == LocalSize(a.arraySize, procs) && offset + size <= a.arraySize
  }

  /** What the loops need to know about the processor they begin with. */
  predicate Begins(a: GlobalArray, procs: nat, first: nat, offset: nat, size: nat) {
    && a.localSize > 0 && a.arraySize <= A.Start(procs, a.localSize) && offset + size <= a.arraySize
    && offset < A.Start(first + 1, a.localSize) && first <= procs && (offset < a.arraySize ==> first < procs)
  }

  lemma RangeBegins(a: GlobalArray, procs: nat, first: nat, offset: nat, size: nat)
    requires RangeOf(a, procs, offset, size) && first == FirstProc(procs, a.arraySize, offset)
    ensures Begins(a, procs, first, offset, size)
  {
    LocalPositive(a.arraySize, procs);
    SlicesCover(a.arraySize, procs);
    FirstReaches(procs, a.arraySize, offset, first, a.localSize);
  }

  // ----- the loop that put and get share -----

  /** Where the loop is when `left` bytes are left: at place idx of processor q's slice, which begins at base. */
  predicate At(a: GlobalArray, offset: nat, size: nat, first: nat, base: nat, q: nat, idx: int, left: nat) {
    && left <= size && first <= q
    && (q == first ==> left == size && idx == offset - base)
    && (q > first ==> idx == 0)
    && (q > first && left > 0 ==> base == offset + size - left)
    && (q > first && left == 0 ==> offset + size <= base)
  }

  function Todo(a: GlobalArray, left: nat, idx: int): int {
    if left > a.localSize - idx then a.localSize - idx else left
  }

  /** What a round of the loop transfers: todo bytes at place idx of processor q's slice, which are
    * those from `done` on of the range. */
  predicate Transfers(a: GlobalArray, first: nat, offset: nat, size: nat, q: nat, idx: int, done: nat, todo: nat) {
    && HasPiece(first, a.localSize, offset, offset + size, q)
    && Low(first, a.localSize, offset, q) == offset + done
    && idx == Low(first, a.localSize, offset, q) - A.Start(q, a.localSize)
    && todo == High(a.localSize, offset + size, q) - Low(first, a.localSize, offset, q)
  }

  /** One round. */
  lemma Round(procs: nat, a: GlobalArray, offset: nat, size: nat, first: nat, base: nat, q: nat, idx: int, left: nat)
    requires Begins(a, procs, first, offset, size) && left > 0
    requires At(a, offset, size, first, base, q, idx, left) && base == A.Start(q, a.localSize)
    ensures q < procs && 0 < Todo(a, left, idx) <= left
    ensures At(a, offset, size, first, base + a.localSize, q + 1, 0, left - Todo(a, left, idx))
    ensures Transfers(a, first, offset, size, q, idx, size - left, Todo(a, left, idx))
  {
    if procs <= q { A.StartGrows(procs, q, a.localSize); }
  }

  /** Where the loop ends, no processor further on has a piece. */
  lemma NoMorePieces(procs: nat, a: GlobalArray, offset: nat, size: nat, first: nat, u: nat, idx: int, q: nat)
    requires Begins(a, procs, first, offset, size) && u <= q
    requires At(a, offset, size, first, A.Start(u, a.localSize), u, idx, 0)
    ensures !HasPiece(first, a.localSize, offset, offset + size, q)
  {
    A.StartGrows(u, q, a.localSize);
    if q > first { A.StartGrows(first + 1, q, a.localSize); }
  }

  // ----- put -----

  /** The slice is registered on a processor of this shape. */
  ghost predicate Registered(st: Proc, rank: nat, a: GlobalArray) {
    Shaped(st, |st.log|) && rank < |st.log| && a.slice in st.reg[rank]
  }

  /** What processor q, whose slice begins at `slice`, is sent: the bytes from Low to High of the range. */
  function PutPiece(mem: Memory, slice: int, a: GlobalArray, first: nat, src: int, offset: nat, size: nat,
                    q: nat): seq<Record> {
    if HasPiece(first, a.localSize, offset, offset + size, q) then
      var low := Low(first, a.localSize, offset, q);
      [Record(Put(slice + (low - A.Start(q, a.localSize))),
              ReadBytes(mem, src + (low - offset), High(a.localSize, offset + size, q) - low))]
    else []
  }

  /** The pieces of the first u processors are logged. */
  function PutsLogged(st: Proc, rank: nat, a: GlobalArray, first: nat, src: int, offset: nat, size: nat,
                      u: nat): (r: Proc)
    requires Registered(st, rank, a)
    ensures Registered(r, rank, a) && |r.log| == |st.log|
  {
    st.(log := seq(|st.log|, q requires 0 <= q < |st.log| =>
      st.log[q] + if q < u then PutPiece(st.mem, Remote(st, rank, q, a.slice), a, first, src, offset, size, q) else []))
  }

  lemma NoPutsLogged(st: Proc, rank: nat, a: GlobalArray, first: nat, src: int, offset: nat, size: nat)
    requires Registered(st, rank, a)
    ensures PutsLogged(st, rank, a, first, src, offset, size, first) == st
  {
    var st' := PutsLogged(st, rank, a, first, src, offset, size, first);
    forall q: nat | q < |st.log| ensures st'.log[q] == st.log[q] {
      assert q < first ==> PutPiece(st.mem, Remote(st, rank, q, a.slice), a, first, src, offset, size, q) == [];
    }
    assert st'.log == st.log;
  }

  lemma PutLogged(st: Proc, rank: nat, a: GlobalArray, first: nat, src: int, offset: nat, size: nat, q: nat, idx: int,
                  done: nat, todo: nat)
    requires Registered(st, rank, a) && q < |st.log| && Transfers(a, first, offset, size, q, idx, done, todo)
    ensures var now := PutsLogged(st, rank, a, first, src, offset, size, q);
      && Legal(now, rank, |st.log|, PutCall(q, src + done, a.slice, idx, todo))
      && Apply(now, rank, PutCall(q, src + done, a.slice, idx, todo))
         == PutsLogged(st, rank, a, first, src, offset, size, q + 1)
  {
    var now := PutsLogged(st, rank, a, first, src, offset, size, q);
    var rec := Record(Put(Remote(st, rank, q, a.slice) + idx), ReadBytes(st.mem, src + done, todo));
    assert PutPiece(st.mem, Remote(st, rank, q, a.slice), a, first, src, offset, size, q) == [rec];
    assert now.log[q] == st.log[q];
    assert now.log[q := now.log[q] + [rec]] == PutsLogged(st, rank, a, first, src, offset, size, q + 1).log;
  }

  lemma AllPutsLogged(st: Proc, rank: nat, a: GlobalArray, first: nat, src: int, offset: nat, size: nat, u: nat,
                      idx: int)
    requires Registered(st, rank, a) && Begins(a, |st.log|, first, offset, size)
      && At(a, offset, size, first, A.Start(u, a.localSize), u, idx, 0)
    ensures PutsLogged(st, rank, a, first, src, offset, size, u) ==
      PutsLogged(st, rank, a, first, src, offset, size, |st.log|)
  {
    forall q: nat | u <= q < |st.log|
      ensures PutPiece(st.mem, Remote(st, rank, q, a.slice), a, first, src, offset, size, q) == [] {
      NoMorePieces(|st.log|, a, offset, size, first, u, idx, q);
    }
    assert PutsLogged(st, rank, a, first, src, offset, size, u).log
        == PutsLogged(st, rank, a, first, src, offset, size, |st.log|).log;
  }

  ghost predicate IsPut(st: Proc, st': Proc, rank: nat, pid: nat, src: int, dst: int, offset: int, nbytes: nat) {
    && Shaped(st, |st.log|) && rank < |st.log| && Legal(st, rank, |st.log|, PutCall(pid, src, dst, offset, nbytes))
    && st' == Apply(st, rank, PutCall(pid, src, dst, offset, nbytes))
  }

  /** The states a processor goes through: one put leads from each to the next, as long as there are pieces. */
  ghost predicate PutStates(states: seq<Proc>, rank: nat, a: GlobalArray, first: nat, src: int, offset: nat, size: nat,
                            n: nat) {
    && |states| == n + 1
    && (forall q: nat, idx: int, done: nat, todo: nat ::
         q < n && Transfers(a, first, offset, size, q, idx, done, todo) ==>
           IsPut(states[q], states[q + 1], rank, q, src + done, a.slice, idx, todo))
    && (forall u: nat, idx: int :: u <= n && At(a, offset, size, first, A.Start(u, a.localSize), u, idx, 0) ==>
         states[u] == states[n])
  }

  lemma PuttingPieces(st: Proc, rank: nat, a: GlobalArray, first: nat, src: int, offset: nat, size: nat)
    returns (states: seq<Proc>)
    requires Registered(st, rank, a) && Begins(a, |st.log|, first, offset, size)
    ensures PutStates(states, rank, a, first, src, offset, size, |st.log|) && states[first] == st
    ensures states[|st.log|] == PutsLogged(st, rank, a, first, src, offset, size, |st.log|)
  {
    var n := |st.log|;
    states := seq(n + 1, u requires 0 <= u <= n => PutsLogged(st, rank, a, first, src, offset, size, u));
    NoPutsLogged(st, rank, a, first, src, offset, size);
    forall q: nat, idx: int, done: nat, todo: nat | q < n && Transfers(a, first, offset, size, q, idx, done, todo)
      ensures IsPut(states[q], states[q + 1], rank, q, src + done, a.slice, idx, todo)
    {
      PutLogged(st, rank, a, first, src, offset, size, q, idx, done, todo);
    }
    forall u: nat, idx: int | u <= n && At(a, offset, size, first, A.Start(u, a.localSize), u, idx, 0)
      ensures states[u] == states[n] {
      AllPutsLogged(st, rank, a, first, src, offset, size, u, idx);
    }
  }

  /** The object stands for state k. */
  ghost predicate Stands(bsp: BspObject, states: seq<Proc>, k: nat)
    reads bsp.Repr()
  {
    k < |states| && forall st :: st == states[k] ==> bsp.Is(st)
  }

  /** One piece of a put. */
  method PutOne(bsp: BspObject, from: int, a: GlobalArray, q: nat, idx: int, todo: nat, ghost first: nat,
                ghost src: int,
                ghost offset: nat, ghost size: nat, ghost done: nat, ghost states: seq<Proc>)
    requires PutStates(states, bsp.rank, a, first, src, offset, size, bsp.nprocs) && q < bsp.nprocs
    requires Transfers(a, first, offset, size, q, idx, done, todo) && from == src + done && Stands(bsp, states, q)
    modifies bsp.deliv, bsp.deliv.used, bsp.deliv.data
    ensures Stands(bsp, states, q + 1)
    ensures bsp.deliv.used == old(bsp.deliv.used) && (bsp.deliv.data == old(bsp.deliv.data) || fresh(bsp.deliv.data))
  {
    assert IsPut(states[q], states[q + 1], bsp.rank, q, from, a.slice, idx, todo);
    bsp.Put(q, from, a.slice, idx, todo, states[q]);
  }

  /** The loop of put. */
  method PutPieces(bsp: BspObject, src: int, a: GlobalArray, first: nat, offset: nat, size: nat,
                   ghost states: seq<Proc>)
    requires Begins(a, bsp.nprocs, first, offset, size)
    requires PutStates(states, bsp.rank, a, first, src, offset, size, bsp.nprocs) && Stands(bsp, states, first)
    modifies bsp.deliv, bsp.deliv.used, bsp.deliv.data
    ensures Stands(bsp, states, bsp.nprocs)
  {
    A.StartIs(first, a.localSize);
    var offsetProc: nat, offsetIdx: int, left: nat, from: int := first, offset - first * a.localSize, size, src;
    ghost var base: nat := A.Start(first, a.localSize);
    while left > 0
      invariant At(a, offset, size, first, base, offsetProc, offsetIdx, left) && from == src + (size - left)
      invariant base == A.Start(offsetProc, a.localSize)
      invariant offsetProc <= bsp.nprocs && Stands(bsp, states, offsetProc)
      invariant bsp.deliv.used == old(bsp.deliv.used)
      invariant bsp.deliv.data == old(bsp.deliv.data) || fresh(bsp.deliv.data)
    {
      Round(bsp.nprocs, a, offset, size, first, base, offsetProc, offsetIdx, left);
      var todo := Todo(a, left, offsetIdx);
      PutOne(bsp, from, a, offsetProc, offsetIdx, todo, first, src, offset, size, size - left, states);
      from, left, offsetProc, offsetIdx := from + todo, left - todo, offsetProc + 1, 0;
      base := base + a.localSize;
    }
  }

  /** bspx_global_put: the pieces are logged, each for its processor. */
  method GlobalPut(bsp: BspObject, src: int, a: GlobalArray, offset: nat, size: nat, ghost st: Proc)
    requires bsp.Is(st) && Registered(st, bsp.rank, a) && bsp.nprocs == |st.log| && RangeOf(a, bsp.nprocs, offset, size)
    modifies bsp.deliv, bsp.deliv.used, bsp.deliv.data
    ensures bsp.Is(PutsLogged(st, bsp.rank, a, FirstProc(bsp.nprocs, a.arraySize, offset), src, offset, size,
      bsp.nprocs))
  {
    var offsetProc := FirstProc(bsp.nprocs, a.arraySize, offset);
    RangeBegins(a, bsp.nprocs, offsetProc, offset, size);
    ghost var states := PuttingPieces(st, bsp.rank, a, offsetProc, src, offset, size);
    PutPieces(bsp, src, a, offsetProc, offset, size, states);
    assert bsp.Is(states[bsp.nprocs]);
  }

  // ----- get -----

  /** What processor q, whose slice begins at `slice`, is asked for. */
  function GetPiece(slice: int, a: GlobalArray, first: nat, dst: int, offset: nat, size: nat, q: nat): seq<Request> {
    if HasPiece(first, a.localSize, offset, offset + size, q) then
      var low := Low(first, a.localSize, offset, q);
      [Request(High(a.localSize, offset + size, q) - low, low - A.Start(q, a.localSize), slice, dst + (low - offset))]
    else []
  }

  /** The pieces of the first u processors are logged. */
  function GetsLogged(st: Proc, rank: nat, a: GlobalArray, first: nat, dst: int, offset: nat, size: nat,
                      u: nat): (r: Proc)
    requires Registered(st, rank, a)
    ensures Registered(r, rank, a) && |r.reqs| == |r.log| == |st.log|
  {
    st.(reqs := seq(|st.log|, q requires 0 <= q < |st.log| =>
      st.reqs[q] + if q < u then GetPiece(Remote(st, rank, q, a.slice), a, first, dst, offset, size, q) else []))
  }

  lemma NoGetsLogged(st: Proc, rank: nat, a: GlobalArray, first: nat, dst: int, offset: nat, size: nat)
    requires Registered(st, rank, a)
    ensures GetsLogged(st, rank, a, first, dst, offset, size, first) == st
  {
    var st' := GetsLogged(st, rank, a, first, dst, offset, size, first);
    forall q: nat | q < |st.log| ensures st'.reqs[q] == st.reqs[q] {
      assert q < first ==> GetPiece(Remote(st, rank, q, a.slice), a, first, dst, offset, size, q) == [];
    }
    assert st'.reqs == st.reqs;
  }

  lemma GetLogged(st: Proc, rank: nat, a: GlobalArray, first: nat, dst: int, offset: nat, size: nat, q: nat, idx: int,
                  done: nat, todo: nat)
    requires Registered(st, rank, a) && q < |st.log| && Transfers(a, first, offset, size, q, idx, done, todo)
    ensures var now := GetsLogged(st, rank, a, first, dst, offset, size, q);
      && Legal(now, rank, |st.log|, GetCall(q, a.slice, idx, dst + done, todo))
      && Apply(now, rank, GetCall(q, a.slice, idx, dst + done, todo))
         == GetsLogged(st, rank, a, first, dst, offset, size, q + 1)
  {
    var now := GetsLogged(st, rank, a, first, dst, offset, size, q);
    var req := Request(todo, idx, Remote(st, rank, q, a.slice), dst + done);
    assert GetPiece(Remote(st, rank, q, a.slice), a, first, dst, offset, size, q) == [req];
    assert now.reqs[q] == st.reqs[q];
    assert now.reqs[q := now.reqs[q] + [req]] == GetsLogged(st, rank, a, first, dst, offset, size, q + 1).reqs;
  }

  lemma AllGetsLogged(st: Proc, rank: nat, a: GlobalArray, first: nat, dst: int, offset: nat, size: nat, u: nat,
                      idx: int)
    requires Registered(st, rank, a) && Begins(a, |st.log|, first, offset, size)
    requires At(a, offset, size, first, A.Start(u, a.localSize), u, idx, 0)
    ensures GetsLogged(st, rank, a, first, dst, offset, size, u) ==
      GetsLogged(st, rank, a, first, dst, offset, size, |st.log|)
  {
    forall q: nat | u <= q < |st.log|
      ensures GetPiece(Remote(st, rank, q, a.slice), a, first, dst, offset, size, q) == [] {
      NoMorePieces(|st.log|, a, offset, size, first, u, idx, q);
    }
    assert GetsLogged(st, rank, a, first, dst, offset, size, u).reqs
        == GetsLogged(st, rank, a, first, dst, offset, size, |st.log|).reqs;
  }

  ghost predicate IsGet(st: Proc, st': Proc, rank: nat, pid: nat, src: int, offset: int, dst: int, nbytes: nat) {
    && Shaped(st, |st.log|) && rank < |st.log| && Legal(st, rank, |st.log|, GetCall(pid, src, offset, dst, nbytes))
    && st' == Apply(st, rank, GetCall(pid, src, offset, dst, nbytes))
  }

  /** The states a processor goes through: one get leads from each to the next, as long as there are pieces. */
  ghost predicate GetStates(states: seq<Proc>, rank: nat, a: GlobalArray, first: nat, dst: int, offset: nat, size: nat,
                            n: nat) {
    && |states| == n + 1
    && (forall q: nat, idx: int, done: nat, todo: nat ::
         q < n && Transfers(a, first, offset, size, q, idx, done, todo) ==>
           IsGet(states[q], states[q + 1], rank, q, a.slice, idx, dst + done, todo))
    && (forall u: nat, idx: int :: u <= n && At(a, offset, size, first, A.Start(u, a.localSize), u, idx, 0) ==>
         states[u] == states[n])
  }

  lemma GettingPieces(st: Proc, rank: nat, a: GlobalArray, first: nat, dst: int, offset: nat, size: nat)
    returns (states: seq<Proc>)
    requires Registered(st, rank, a) && Begins(a, |st.log|, first, offset, size)
    ensures GetStates(states, rank, a, first, dst, offset, size, |st.log|) && states[first] == st
    ensures states[|st.log|] == GetsLogged(st, rank, a, first, dst, offset, size, |st.log|)
  {
    var n := |st.log|;
    states := seq(n + 1, u requires 0 <= u <= n => GetsLogged(st, rank, a, first, dst, offset, size, u));
    NoGetsLogged(st, rank, a, first, dst, offset, size);
    forall q: nat, idx: int, done: nat, todo: nat | q < n && Transfers(a, first, offset, size, q, idx, done, todo)
      ensures IsGet(states[q], states[q + 1], rank, q, a.slice, idx, dst + done, todo)
    {
      GetLogged(st, rank, a, first, dst, offset, size, q, idx, done, todo);
    }
    forall u: nat, idx: int | u <= n && At(a, offset, size, first, A.Start(u, a.localSize), u, idx, 0)
      ensures states[u] == states[n] {
      AllGetsLogged(st, rank, a, first, dst, offset, size, u, idx);
    }
  }

  /** One piece of a get. */
  method GetOne(bsp: BspObject, to: int, a: GlobalArray, q: nat, idx: int, todo: nat, ghost first: nat, ghost dst: int,
                ghost offset: nat, ghost size: nat, ghost done: nat, ghost states: seq<Proc>)
    requires GetStates(states, bsp.rank, a, first, dst, offset, size, bsp.nprocs) && q < bsp.nprocs
    requires Transfers(a, first, offset, size, q, idx, done, todo) && to == dst + done && Stands(bsp, states, q)
    modifies bsp.reqs.table, bsp.reqs.table.used, bsp.reqs.table.data, bsp.reqs.dataSizes
    ensures Stands(bsp, states, q + 1)
    ensures bsp.reqs.table.used == old(bsp.reqs.table.used)
    ensures bsp.reqs.table.data == old(bsp.reqs.table.data) || fresh(bsp.reqs.table.data)
  {
    assert IsGet(states[q], states[q + 1], bsp.rank, q, a.slice, idx, to, todo);
    bsp.Get(q, a.slice, idx, to, todo, states[q]);
  }

  /** The loop of get. */
  method GetPieces(bsp: BspObject, dst: int, a: GlobalArray, first: nat, offset: nat, size: nat,
                   ghost states: seq<Proc>)
    requires Begins(a, bsp.nprocs, first, offset, size)
    requires GetStates(states, bsp.rank, a, first, dst, offset, size, bsp.nprocs) && Stands(bsp, states, first)
    modifies bsp.reqs.table, bsp.reqs.table.used, bsp.reqs.table.data, bsp.reqs.dataSizes
    ensures Stands(bsp, states, bsp.nprocs)
  {
    A.StartIs(first, a.localSize);
    var offsetProc: nat, offsetIdx: int, left: nat, to: int := first, offset - first * a.localSize, size, dst;
    ghost var base: nat := A.Start(first, a.localSize);
    while left > 0
      invariant At(a, offset, size, first, base, offsetProc, offsetIdx, left) && to == dst + (size - left)
      invariant base == A.Start(offsetProc, a.localSize)
      invariant offsetProc <= bsp.nprocs && Stands(bsp, states, offsetProc)
      invariant bsp.reqs.table.used == old(bsp.reqs.table.used)
      invariant bsp.reqs.table.data == old(bsp.reqs.table.data) || fresh(bsp.reqs.table.data)
    {
      Round(bsp.nprocs, a, offset, size, first, base, offsetProc, offsetIdx, left);
      var todo := Todo(a, left, offsetIdx);
      GetOne(bsp, to, a, offsetProc, offsetIdx, todo, first, dst, offset, size, size - left, states);
      to, left, offsetProc, offsetIdx := to + todo, left - todo, offsetProc + 1, 0;
      base := base + a.localSize;
    }
  }

  /** bspx_global_get: the pieces are logged, each for its processor. */
  method GlobalGet(bsp: BspObject, a: GlobalArray, offset: nat, dst: int, size: nat, ghost st: Proc)
    requires bsp.Is(st) && Registered(st, bsp.rank, a) && bsp.nprocs == |st.log| && RangeOf(a, bsp.nprocs, offset, size)
    modifies bsp.reqs.table, bsp.reqs.table.used, bsp.reqs.table.data, bsp.reqs.dataSizes
    ensures bsp.Is(GetsLogged(st, bsp.rank, a, FirstProc(bsp.nprocs, a.arraySize, offset), dst, offset, size,
      bsp.nprocs))
  {
    var offsetProc := FirstProc(bsp.nprocs, a.arraySize, offset);
    RangeBegins(a, bsp.nprocs, offsetProc, offset, size);
    ghost var states := GettingPieces(st, bsp.rank, a, offsetProc, dst, offset, size);
    GetPieces(bsp, dst, a, offsetProc, offset, size, states);
    assert bsp.Is(states[bsp.nprocs]);
  }
}
