/** bspx_sync of all processors together, on their objects: the phases that one processor runs, with the
  * exchanges of MPI_Alltoall and MPI_Alltoallv between them. */
module BspSync {
  import opened Columns
  import opened ExpandableTables
  import opened DeliveryTables
  import opened Registers
  import opened Requests
  import opened Supersteps
  import opened BspObjects

  /** These columns stand for the logs, and fit the room that is reserved. */
  ghost predicate Arrives(table: DeliveryTable, cols: seq<seq<Slot>>, logs: seq<seq<Record>>)
    reads table, table.used
  {
    && |cols| == |logs| == table.used.Length
    && forall p: nat | p < |cols| :: |cols[p]| <= table.used[p] && ColumnOk(cols[p], logs[p])
  }

  // The next two are written with quantifiers so that whoever only hands a state on is not shown what it stands for.

  /** Between two boundaries the object stands for st. */
  ghost predicate Stands(obj: BspObject, st: Proc)
    reads obj.Repr()
  {
    forall s :: s == st ==> obj.Is(s)
  }

  /** In the middle of a sync it stands for st. */
  ghost predicate Syncs(obj: BspObject, st: Proc)
    reads obj.Repr()
  {
    forall s :: s == st ==> obj.Syncing(s)
  }

  /** The object has no memory that it did not have or that is not new. */
  twostate predicate Kept(obj: BspObject)
    reads obj.Repr()
  {
    forall o :: o in obj.Repr() ==> o in old(obj.Repr()) || fresh(o)
  }

  // ----- the phases of one processor -----

  method Begin(obj: BspObject, ghost st: Proc) returns (reqCounts: seq<nat>, delCounts: seq<nat>, anyGets: bool)
    requires Stands(obj, st)
    modifies obj.Repr()
    ensures Syncs(obj, st) && Kept(obj)
    ensures |reqCounts| == |delCounts| == |st.reqs| == |st.log| == obj.nprocs
    ensures forall p: nat | p < obj.nprocs :: reqCounts[p] == |st.reqs[p]| && delCounts[p] == Size(st.log[p])
    ensures anyGets == AsksAnybody(st)
  {
    assert obj.Is(st);
    reqCounts, delCounts, anyGets := obj.SyncBegin(st);
  }

  method Reserve(obj: BspObject, recvReq: seq<nat>, recvDel: seq<nat>, recvAny: seq<bool>, ghost st: Proc)
    returns (anyGets: bool)
    requires Syncs(obj, st) && |recvReq| == |recvDel| == |recvAny| == obj.nprocs
    modifies obj.Repr()
    ensures Syncs(obj, st) && Kept(obj) && obj.Reserved(st, recvReq, recvDel)
    ensures anyGets == exists p | 0 <= p < obj.nprocs :: recvAny[p]
  {
    assert obj.Syncing(st);
    anyGets := obj.SyncReserve(recvReq, recvDel, recvAny, st);
  }

  method Answer(obj: BspObject, cols: seq<seq<Request>>, ghost recvReq: seq<nat>, ghost recvDel: seq<nat>,
                ghost st: Proc, ghost st': Proc)
    requires Syncs(obj, st) && obj.Reserved(st, recvReq, recvDel) && |cols| == obj.nprocs == |recvReq| == |st.log|
    requires forall p | 0 <= p < obj.nprocs :: |cols[p]| == recvReq[p]
    requires st' == st.(log := Answered(st.log, st.mem, cols, obj.nprocs))
    modifies obj.Repr()
    ensures Syncs(obj, st') && Kept(obj) && obj.Reserved(st', recvReq, recvDel)
  {
    assert obj.Syncing(st);
    obj.SyncAnswer(cols, st);
  }

  /** What goes into the request exchange: the columns of the request table. */
  method ReadRequests(obj: BspObject, ghost st: Proc) returns (cols: seq<seq<Request>>)
    requires Syncs(obj, st)
    ensures cols == st.reqs && |cols| == obj.nprocs
  {
    assert obj.Syncing(st);
    cols := ReadColumns(obj.reqs.table);
    forall p: nat | p < |cols| ensures cols[p] == st.reqs[p] {
      assert obj.reqs.IsAt(st.reqs, p);
    }
  }

  /** What goes into the delivery exchange: the used part of the columns of the delivery table. */
  method ReadDeliveries(obj: BspObject, ghost st: Proc) returns (cols: seq<seq<Slot>>)
    requires Syncs(obj, st)
    ensures |cols| == |st.log| == obj.nprocs && forall p: nat | p < |cols| :: ColumnOk(cols[p], st.log[p])
  {
    assert obj.Syncing(st);
    cols := ReadColumns(obj.deliv);
  }

  method ReadColumns<T(0)>(table: ExpandableTable<T>) returns (cols: seq<seq<T>>)
    requires table.Valid()
    ensures |cols| == table.nprocs && forall p: nat | p < |cols| :: cols[p] == table.Column(p)
  {
    cols := [];
    for p := 0 to table.nprocs
      invariant |cols| == p && forall q: nat | q < p :: cols[q] == table.Column(q)
    {
      ColumnFits(p, table.nprocs, table.rows);
      cols := cols + [table.data[p * table.rows..p * table.rows + table.used[p]]];
    }
  }

  method Deliver(obj: BspObject, cols: seq<seq<Slot>>, ghost ps: seq<Proc>, ghost st: Proc) returns (ok: bool)
    requires Syncs(obj, st) && World(ps) && |ps| == obj.nprocs == |cols| && obj.rank < |ps|
      && st == ps[obj.rank].(log := st.log)
    requires Level(ps, obj.rank) && Arrives(obj.recvDeliv, cols, Shipped(ps, obj.rank))
    modifies obj.Repr()
    ensures ok == SyncMarks(ps, obj.rank).Some? && Kept(obj)
    ensures ok ==> Stands(obj, SyncProc(ps, obj.rank))
  {
    assert obj.Syncing(st);
    ok := obj.SyncDeliver(cols, ps, st);
  }

  /** The column stands for the log and takes no more than the room. */
  ghost predicate Fits(col: seq<Slot>, log: seq<Record>, room: nat) {
    |col| <= room && ColumnOk(col, log)
  }

  /** What the superstep boundary makes of processor q when it receives these logs; None if a removal finds no row. */
  ghost predicate Boundary(ps: seq<Proc>, q: nat, st: Proc, logs: seq<seq<Record>>, next: Option<Proc>) {
    && World(ps) && q < |ps| && st == ps[q].(log := st.log) && Level(ps, q) && logs == Shipped(ps, q)
    && next == if SyncMarks(ps, q).Some? then Some(SyncProc(ps, q)) else None
  }

  /** The same, for those who only hand it on. */
  ghost predicate Crosses(ps: seq<Proc>, q: nat, st: Proc, logs: seq<seq<Record>>, next: Option<Proc>) {
    forall x :: x == q ==> Boundary(ps, x, st, logs, next)
  }

  /** Where the columns fit the room that was reserved, they arrive. */
  method DeliverReserved(obj: BspObject, cols: seq<seq<Slot>>, ghost ps: seq<Proc>, ghost st: Proc,
                         ghost recvReq: seq<nat>,
                         ghost recvDel: seq<nat>, ghost logs: seq<seq<Record>>, ghost next: Option<Proc>)
    returns (ok: bool)
    requires Syncs(obj, st) && obj.Reserved(st, recvReq, recvDel) && Crosses(ps, obj.rank, st, logs, next)
    requires |ps| == obj.nprocs == |cols| == |logs| == |recvDel| == |st.reqs|
    requires forall p: nat | p < |cols| :: Fits(cols[p], logs[p], recvDel[p] + DataSize(st.reqs[p]))
    modifies obj.Repr()
    ensures ok == next.Some? && Kept(obj)
    ensures ok ==> Stands(obj, next.value)
  {
    assert Boundary(ps, obj.rank, st, logs, next);
    forall p: nat | p < |cols| ensures |cols[p]| <= obj.recvDeliv.used[p] && ColumnOk(cols[p], logs[p]) {
      assert Fits(cols[p], logs[p], recvDel[p] + DataSize(st.reqs[p]));
    }
    ok := Deliver(obj, cols, ps, st);
  }
}
