/** BSPObject (src/bsp_private.h) and the calls on it (src/bspx.c), proved against the
  * meaning of a call in Supersteps. */
module BspObjects {
  import opened Columns
  import opened ExpandableTables
  import opened DeliveryTables
  import opened Threads
  import opened Memories
  import opened Registers
  import opened MemoryRegisters
  import opened MessageQueues
  import opened Delivery
  import opened DeliveryExecute
  import opened Requests
  import opened Supersteps

  /** A received column that begins with a well-formed column. */
  lemma ReceivedFrom(table: DeliveryTable, p: nat, col: seq<Slot>, logs: seq<seq<Record>>)
    requires table.Valid() && p < |logs| && p < table.nprocs && ColumnOk(col, logs[p])
    requires |col| <= table.used[p] && table.Column(p)[..|col|] == col
    ensures ReceivedAt(table.data[..], table.rows, logs, p)
  {
    ColumnFits(p, table.nprocs, table.rows);
    var base := Base(table.rows, p);
    assert table.data[..][base..base + table.used[p]] == table.Column(p);
    SliceOfSlice(table.data[..], base, table.used[p], 0, |col|);
  }

  /** The bitwise or of any_gets over all processors. */
  method AnyOf(flags: seq<bool>) returns (any: bool)
    ensures any == exists p | 0 <= p < |flags| :: flags[p]
  {
    any := false;
    for p := 0 to |flags|
      invariant any == exists q | 0 <= q < p :: flags[q]
    {
      any := any || flags[p];
    }
  }

  lemma ApplyPut(st: Proc, rank: nat, pid: nat, src: int, dst: int, offset: int, nbytes: nat, remote: int)
    returns (st': Proc)
    requires Shaped(st, |st.log|) && rank < |st.log| && pid < |st.log| && dst in st.reg[rank]
    requires remote == Remote(st, rank, pid, dst)
    ensures st' == Apply(st, rank, PutCall(pid, src, dst, offset, nbytes))
    ensures st' == Logged(st, pid, Record(Info.Put(remote + offset), ReadBytes(st.mem, src, nbytes)))
  {
    st' := Apply(st, rank, PutCall(pid, src, dst, offset, nbytes));
  }

  /** What a move makes of a state. */
  lemma ApplyMove(st: Proc, rank: nat) returns (st': Proc)
    requires Shaped(st, |st.log|) && rank < |st.log| && forall k | 0 <= k < |st.queue| :: st.queue[k].info.Send?
    ensures st' == Apply(st, rank, HpMoveCall)
    ensures st' == if st.queue == [] then st
      else st.(queue := st.queue[1..], queued := st.queued - st.queue[0].info.payloadSize)
  {
    st' := Apply(st, rank, HpMoveCall);
    if st.queue != [] {
      PayloadsStep(st.queue, 0);
    }
  }

  class BspObject {
    const nprocs: nat
    const rank: nat
    const deliv: DeliveryTable
    const recvDeliv: DeliveryTable
    const reqs: RequestTable
    const recvReqs: ExpandableTable<Request>
    const memreg: MemoryRegister
    const mesgq: MessageQueue
    const ram: Ram
    /** Where the queued messages are in the received table. */
    ghost var queueAt: seq<nat>

    constructor (nprocs: nat, rank: nat, deliv: DeliveryTable, recvDeliv: DeliveryTable, reqs: RequestTable,
                 recvReqs: ExpandableTable<Request>, memreg: MemoryRegister, mesgq: MessageQueue, ram: Ram)
      ensures this.nprocs == nprocs && this.rank == rank && this.deliv == deliv && this.recvDeliv == recvDeliv
      ensures this.reqs == reqs && this.recvReqs == recvReqs && this.memreg == memreg && this.mesgq == mesgq
      ensures this.ram == ram && queueAt == []
    {
      this.nprocs, this.rank, this.deliv, this.recvDeliv, this.reqs := nprocs, rank, deliv, recvDeliv, reqs;
      this.recvReqs, this.memreg, this.mesgq, this.ram, queueAt := recvReqs, memreg, mesgq, ram, [];
    }

    ghost function DelivParts(): set<object>
      reads deliv
    {
      {deliv, deliv.used, deliv.data}
    }

    ghost function RecvDelivParts(): set<object>
      reads recvDeliv
    {
      {recvDeliv, recvDeliv.used, recvDeliv.data}
    }

    ghost function ReqParts(): set<object>
      reads reqs.table
    {
      {reqs, reqs.table, reqs.table.used, reqs.table.data, reqs.dataSizes}
    }

    ghost function RecvReqParts(): set<object>
      reads recvReqs
    {
      {recvReqs, recvReqs.used, recvReqs.data}
    }

    ghost function Repr(): set<object>
      reads deliv, recvDeliv, reqs.table, recvReqs, memreg, memreg.table
    {
      DelivParts() + RecvDelivParts() + ReqParts() + RecvReqParts() + memreg.Footprint() + {mesgq, ram, this}
    }

    /** The tables share no memory. */
    ghost predicate Separate()
      reads deliv, recvDeliv, reqs.table, recvReqs, memreg, memreg.table
    {
      DelivParts() !! RecvDelivParts() !! ReqParts() !! RecvReqParts() !! memreg.Footprint() !! {mesgq, ram, this}
    }

    /** The parts that the next superstep boundary will consume. */
    ghost predicate Pending(st: Proc)
      reads Repr()
    {
      && Separate() && Shaped(st, nprocs) && rank < nprocs
      && Represents(deliv, st.log) && reqs.Is(st.reqs) && ram.bytes == st.mem
      && memreg.Is(st.reg, []) && memreg.Packed() && memreg.rank == rank
      && recvDeliv.Valid() && recvDeliv.nprocs == nprocs && recvDeliv.rows >= INDEX_SLOTS
      && recvReqs.Valid() && recvReqs.nprocs == nprocs
    }

    /** Between two superstep boundaries the object stands for this state. */
    ghost predicate Is(st: Proc)
      reads Repr()
    {
      && Pending(st)
      && mesgq.Queued(recvDeliv, queueAt, st.queue)
      && mesgq.recvTagSize == st.recvTag && mesgq.sendTagSize == st.sendTag && mesgq.accumSize == st.queued
    }

    // ----- bspx_sync, as one processor runs it between the exchanges -----

    /** In the middle of a sync: the queue is cleared and the next messages are received
      * with the tag size that was in force for sending. */
    ghost predicate Syncing(st: Proc)
      reads Repr()
    {
      && Pending(st)
      && mesgq.nMesg == mesgq.accumSize == 0 && mesgq.head == None
      && mesgq.recvTagSize == mesgq.sendTagSize == st.sendTag
    }

    /** Up to the information exchange: clear what was received before, and tell every
      * processor how much it will be asked and sent and whether this one asks anybody. */
    method SyncBegin(ghost st: Proc) returns (reqCounts: seq<nat>, delCounts: seq<nat>, anyGets: bool)
      requires Is(st)
      modifies mesgq, recvReqs.used, recvDeliv.used, recvDeliv.data
      ensures Syncing(st)
      ensures |reqCounts| == |delCounts| == nprocs
      ensures forall p: nat | p < nprocs :: reqCounts[p] == |st.reqs[p]| && delCounts[p] == Size(st.log[p])
      ensures anyGets == AsksAnybody(st)
    {
      ClearReceived(st);
      reqCounts, delCounts, anyGets := Counts(st);
    }

    method ClearReceived(ghost st: Proc)
      requires Is(st)
      modifies mesgq, recvReqs.used, recvDeliv.used, recvDeliv.data
      ensures Syncing(st)
    {
      mesgq.Sync();
      ClearTables(st);
    }

    method ClearTables(ghost st: Proc)
      requires Pending(st)
      modifies recvReqs.used, recvDeliv.used, recvDeliv.data
      ensures Pending(st)
    {
      recvReqs.Clear();
      DeliveryTables.Reset(recvDeliv);
    }

    /** The three numbers of send_index. */
    method Counts(ghost st: Proc) returns (reqCounts: seq<nat>, delCounts: seq<nat>, anyGets: bool)
      requires Pending(st)
      ensures |reqCounts| == |delCounts| == nprocs
      ensures forall p: nat | p < nprocs :: reqCounts[p] == |st.reqs[p]| && delCounts[p] == Size(st.log[p])
      ensures anyGets == AsksAnybody(st)
    {
      anyGets := false;
      for p := 0 to nprocs
        invariant anyGets == exists q: nat :: q < p && st.reqs[q] != []
      {
        assert reqs.IsAt(st.reqs, p);
        anyGets := anyGets || reqs.table.used[p] != 0;
      }
      reqCounts, delCounts := reqs.table.used[..], deliv.used[..];
      forall p: nat | p < nprocs ensures reqCounts[p] == |st.reqs[p]| && delCounts[p] == Size(st.log[p]) {
        assert reqs.IsAt(st.reqs, p);
      }
    }

    /** The rows this processor reserves for what processor p ships to it: the slots that
      * p has announced, and one slot per byte that its own gets from p will bring. */
    ghost predicate Reserved(st: Proc, recvReq: seq<nat>, recvDel: seq<nat>)
      reads this, recvReqs, recvReqs.used, recvDeliv, recvDeliv.used
    {
      && |recvReq| == |recvDel| == |st.reqs| == recvReqs.used.Length == recvDeliv.used.Length
      && forall p: nat | p < |recvReq| ::
           recvReqs.used[p] == recvReq[p] && recvDeliv.used[p] == recvDel[p] + DataSize(st.reqs[p])
    }

    /** Behind the information exchange: make room, and find out whether anybody asks. */
    method SyncReserve(recvReq: seq<nat>, recvDel: seq<nat>, recvAny: seq<bool>, ghost st: Proc) returns (anyGets: bool)
      requires Syncing(st) && |recvReq| == |recvDel| == |recvAny| == nprocs
      modifies recvReqs, recvReqs.used, recvDeliv, recvDeliv.used
      ensures Syncing(st) && Reserved(st, recvReq, recvDel)
      ensures recvReqs.used == old(recvReqs.used) && (recvReqs.data == old(recvReqs.data) || fresh(recvReqs.data))
      ensures recvDeliv.used == old(recvDeliv.used) && (recvDeliv.data == old(recvDeliv.data) || fresh(recvDeliv.data))
      ensures anyGets == exists p | 0 <= p < nprocs :: recvAny[p]
    {
      ReserveRequests(recvReq, st);
      ReserveDeliveries(recvDel, st);
      anyGets := AnyOf(recvAny);
    }

    method ReceiveSizes(recvDel: seq<nat>, ghost st: Proc) returns (sizes: seq<nat>)
      requires Pending(st) && |recvDel| == nprocs
      ensures |sizes| == nprocs && forall p: nat | p < nprocs :: sizes[p] == recvDel[p] + DataSize(st.reqs[p])
    {
      sizes := [];
      for p := 0 to nprocs
        invariant |sizes| == p && forall q: nat | q < p :: sizes[q] == recvDel[q] + DataSize(st.reqs[q])
      {
        assert reqs.IsAt(st.reqs, p);
        sizes := sizes + [recvDel[p] + reqs.dataSizes[p]];
      }
    }

    method ReserveRequests(recvReq: seq<nat>, ghost st: Proc)
      requires Syncing(st) && |recvReq| == nprocs
      modifies recvReqs, recvReqs.used
      ensures Syncing(st)
      ensures recvReqs.used == old(recvReqs.used) && (recvReqs.data == old(recvReqs.data) || fresh(recvReqs.data))
      ensures forall p: nat | p < nprocs :: recvReqs.used[p] == recvReq[p]
    {
      recvReqs.ReserveFor(recvReq);
    }

    method ReserveDeliveries(recvDel: seq<nat>, ghost st: Proc)
      requires Syncing(st) && |recvDel| == nprocs
      modifies recvDeliv, recvDeliv.used
      ensures Syncing(st)
      ensures recvDeliv.used == old(recvDeliv.used) && (recvDeliv.data == old(recvDeliv.data) || fresh(recvDeliv.data))
      ensures forall p: nat | p < nprocs :: recvDeliv.used[p] == recvDel[p] + DataSize(st.reqs[p])
    {
      var sizes := ReceiveSizes(recvDel, st);
      recvDeliv.ReserveFor(sizes);
    }

    /** The request exchange: the requests as the communicator leaves them in the received table. */
    method ReceiveRequests(cols: seq<seq<Request>>, ghost st: Proc)
      requires Syncing(st) && |cols| == nprocs && forall p | 0 <= p < nprocs :: |cols[p]| == recvReqs.used[p]
      modifies recvReqs.data
      ensures Syncing(st) && forall p: nat | p < nprocs :: recvReqs.Column(p) == cols[p]
    {
      recvReqs.Receive(cols);
      forall p: nat | p < nprocs ensures recvReqs.Column(p) == cols[p] {
        assert recvReqs.Column(p)[..|cols[p]|] == cols[p];
      }
    }

    /** What the others ask of this processor is answered out of its memory, and the answers join its deliveries. */
    method SyncAnswer(cols: seq<seq<Request>>, ghost st: Proc)
      requires Syncing(st) && |cols| == nprocs && forall p | 0 <= p < nprocs :: |cols[p]| == recvReqs.used[p]
      modifies recvReqs.data, deliv, deliv.used, deliv.data
      ensures Syncing(st.(log := Answered(st.log, st.mem, cols, nprocs)))
      ensures deliv.used == old(deliv.used) && (deliv.data == old(deliv.data) || fresh(deliv.data))
    {
      ReceiveRequests(cols, st);
      AnswerRequests(cols, st);
    }

    method AnswerRequests(cols: seq<seq<Request>>, ghost st: Proc)
      requires Syncing(st) && |cols| == nprocs && forall p: nat | p < nprocs :: recvReqs.Column(p) == cols[p]
      modifies deliv, deliv.used, deliv.data
      ensures Syncing(st.(log := Answered(st.log, st.mem, cols, nprocs)))
      ensures deliv.used == old(deliv.used) && (deliv.data == old(deliv.data) || fresh(deliv.data))
    {
      AnswerAll(recvReqs, deliv, ram.bytes, cols, st.log);
    }

    /** The deliveries as the communicator leaves them in the received table. */
    method ReceiveDeliveries(cols: seq<seq<Slot>>, ghost shipped: seq<seq<Record>>, ghost st: Proc)
      requires Syncing(st) && |cols| == |shipped| == nprocs
      requires forall p: nat | p < nprocs :: |cols[p]| <= recvDeliv.used[p] && ColumnOk(cols[p], shipped[p])
      modifies recvDeliv.data
      ensures Syncing(st) && Received(recvDeliv.data[..], recvDeliv.rows, shipped)
    {
      recvDeliv.Receive(cols);
      forall p: nat | p < nprocs ensures ReceivedAt(recvDeliv.data[..], recvDeliv.rows, shipped, p) {
        ReceivedFrom(recvDeliv, p, cols[p], shipped);
      }
    }

    /** New arrays for the register alone leave the tables separate. */
    twostate lemma StaysSeparate()
      requires old(Separate()) && memreg.Grown()
      requires unchanged(deliv) && unchanged(recvDeliv) && unchanged(reqs.table) && unchanged(recvReqs)
      ensures Separate()
    {
    }

    /** deliveryTable_execute on this object. */
    method ExecuteDeliveries(ghost shipped: seq<seq<Record>>, ghost st: Proc, ghost o: Outcome)
      returns (ok: bool, ghost marks: seq<bool>)
      requires Syncing(st) && |shipped| == nprocs && Received(recvDeliv.data[..], recvDeliv.rows, shipped)
      requires o == Outcomes(recvDeliv.rows, shipped, nprocs, st.mem, st.reg)
      modifies recvDeliv.data, ram, mesgq, memreg, memreg.table, memreg.table.used, memreg.table.data, memreg.removed
      ensures Represents(deliv, st.log) && reqs.Is(st.reqs) && recvReqs.Valid() && recvDeliv.Valid()
      ensures memreg.Grown()
      ensures PopMarks(o.cols[rank], NoneRemoved(|o.cols[rank]|), Addresses(Select(shipped[rank], PopRegItem))) ==
        if ok then Some(marks) else None
      ensures ok ==> Executed(recvDeliv, memreg, mesgq, ram, o, marks)
      ensures ok ==> mesgq.recvTagSize == st.sendTag
      ensures ok ==> mesgq.sendTagSize == LastTag(Select(shipped[rank], SetTagItem), st.sendTag)
    {
      ok, marks := Execute(recvDeliv, memreg, mesgq, ram, rank, shipped, st.reg);
    }

    /** "clear the buffers" and "pack the memoryRegister". */
    method SyncEnd(ghost st: Proc, ghost o: Outcome, ghost marks: seq<bool>, ghost sendTag: nat)
      requires Separate() && Represents(deliv, st.log) && reqs.Is(st.reqs) && recvReqs.Valid() && recvDeliv.Valid()
      requires Shaped(st, nprocs) && rank < nprocs && memreg.rank == rank
        && recvReqs.nprocs == recvDeliv.nprocs == nprocs
      requires recvDeliv.rows >= INDEX_SLOTS && |o.cols| == nprocs && forall p | 0 <= p < nprocs ::
        |o.cols[p]| == |marks|
      requires Executed(recvDeliv, memreg, mesgq, ram, o, marks) && mesgq.sendTagSize == sendTag
      modifies this, reqs.table.used, reqs.dataSizes, deliv.used, deliv.data
      modifies memreg, memreg.table.used, memreg.table.data, memreg.removed
      ensures Is(Proc(o.mem, Empty(nprocs), Empty(nprocs), KeepAll(o.cols, marks), o.sends, mesgq.recvTagSize, sendTag,
        Bytes(o.sends)))
      ensures memreg.removed == old(memreg.removed)
    {
      queueAt := o.at;
      ClearLogs(st);
      PackRegister(o, marks, sendTag);
    }

    method PackRegister(ghost o: Outcome, ghost marks: seq<bool>, ghost sendTag: nat)
      requires Separate() && Represents(deliv, Empty(nprocs)) && reqs.Is(Empty(nprocs)) && recvReqs.Valid()
        && recvDeliv.Valid()
      requires rank < nprocs && memreg.rank == rank && recvReqs.nprocs == recvDeliv.nprocs == nprocs
      requires recvDeliv.rows >= INDEX_SLOTS && |o.cols| == nprocs && forall p | 0 <= p < nprocs ::
        |o.cols[p]| == |marks|
      requires Executed(recvDeliv, memreg, mesgq, ram, o, marks) && queueAt == o.at && mesgq.sendTagSize == sendTag
      modifies memreg, memreg.table.used, memreg.table.data, memreg.removed
      ensures Is(Proc(o.mem, Empty(nprocs), Empty(nprocs), KeepAll(o.cols, marks), o.sends, mesgq.recvTagSize, sendTag,
        Bytes(o.sends)))
      ensures memreg.removed == old(memreg.removed)
    {
      KeepAllLevel(o.cols, marks);
      memreg.Pack(o.cols, marks);
    }

    method ClearLogs(ghost st: Proc)
      requires Separate() && Represents(deliv, st.log) && reqs.Is(st.reqs) && |st.log| == |st.reqs| == nprocs > 0
      modifies reqs.table.used, reqs.dataSizes, deliv.used, deliv.data
      ensures Represents(deliv, Empty(nprocs)) && reqs.Is(Empty(nprocs))
    {
      assert |deliv.Column(0)| == Size(st.log[0]) >= INDEX_SLOTS;
      reqs.Reset();
      DeliveryTables.Reset(deliv);
    }

    /** The delivery exchange and what follows it: this processor goes from its state
      * before the superstep boundary to its abstract state behind it. `st` is the state
      * after answering; only its log differs from ps[rank]. */
    method SyncDeliver(cols: seq<seq<Slot>>, ghost ps: seq<Proc>, ghost st: Proc) returns (ok: bool)
      requires Syncing(st) && World(ps) && |ps| == nprocs == |cols| && st == ps[rank].(log := st.log)
      requires Level(ps, rank)
      requires forall p: nat | p < nprocs :: |cols[p]| <= recvDeliv.used[p] && ColumnOk(cols[p], Shipped(ps, rank)[p])
      modifies this, recvDeliv.data, ram, mesgq, memreg, memreg.table, memreg.table.used, memreg.table.data,
        memreg.removed
      modifies reqs.table.used, reqs.dataSizes, deliv.used, deliv.data
      ensures ok == SyncMarks(ps, rank).Some?
      ensures ok ==> Is(SyncProc(ps, rank))
      ensures memreg.Grown()
    {
      ghost var shipped := Shipped(ps, rank);
      ReceiveDeliveries(cols, shipped, st);
      ok := ExecuteAndFinish(ps, st, shipped);
    }

    method ExecuteAndFinish(ghost ps: seq<Proc>, ghost st: Proc, ghost shipped: seq<seq<Record>>) returns (ok: bool)
      requires Syncing(st) && World(ps) && |ps| == nprocs && st == ps[rank].(log := st.log) && Level(ps, rank)
      requires shipped == Shipped(ps, rank) && Received(recvDeliv.data[..], recvDeliv.rows, shipped)
      modifies this, recvDeliv.data, ram, mesgq, memreg, memreg.table, memreg.table.used, memreg.table.data,
        memreg.removed
      modifies reqs.table.used, reqs.dataSizes, deliv.used, deliv.data
      ensures ok == SyncMarks(ps, rank).Some?
      ensures ok ==> Is(SyncProc(ps, rank))
      ensures memreg.Grown()
    {
      ghost var o := ShippedOutcome(ps, rank, recvDeliv.rows, shipped);
      ghost var marks;
      ok, marks := ExecuteShipped(ps, st, shipped, o);
      if ok {
        FinishSync(ps, st, o, marks);
      }
    }

    method FinishSync(ghost ps: seq<Proc>, ghost st: Proc, ghost o: Outcome, ghost marks: seq<bool>)
      requires World(ps) && |ps| == nprocs && rank < nprocs && st == ps[rank].(log := st.log) && Shaped(st, nprocs)
      requires Level(ps, rank) && SyncMarks(ps, rank) == Some(marks)
      requires o.mem == SyncMemory(ps, rank, nprocs) && o.cols == NewColumns(ps, rank)
        && o.sends == AllOf(Inbox(ps, rank), SendItem)
      requires Separate() && Represents(deliv, st.log) && reqs.Is(st.reqs) && recvReqs.Valid() && recvDeliv.Valid()
      requires memreg.rank == rank && recvReqs.nprocs == recvDeliv.nprocs == nprocs && recvDeliv.rows >= INDEX_SLOTS
      requires Executed(recvDeliv, memreg, mesgq, ram, o, marks) && mesgq.recvTagSize == st.sendTag
      requires mesgq.sendTagSize == LastTag(Select(ps[rank].log[rank], SetTagItem), st.sendTag)
      modifies this, reqs.table.used, reqs.dataSizes, deliv.used, deliv.data
      modifies memreg, memreg.table.used, memreg.table.data, memreg.removed
      ensures SyncDefined(ps, rank) && Is(SyncProc(ps, rank))
      ensures memreg.Grown()
    {
      SyncProcIs(ps, rank, marks);
      SyncEnd(st, o, marks, mesgq.sendTagSize);
    }

    method ExecuteShipped(ghost ps: seq<Proc>, ghost st: Proc, ghost shipped: seq<seq<Record>>,
                          ghost o: Outcome) returns (ok: bool, ghost marks: seq<bool>)
      requires Syncing(st) && World(ps) && |ps| == nprocs && st == ps[rank].(log := st.log)
      requires shipped == Shipped(ps, rank) && Received(recvDeliv.data[..], recvDeliv.rows, shipped)
      requires o == Outcomes(recvDeliv.rows, shipped, nprocs, st.mem, st.reg) && o.cols == NewColumns(ps, rank)
      modifies recvDeliv.data, ram, mesgq, memreg, memreg.table, memreg.table.used, memreg.table.data, memreg.removed
      ensures Represents(deliv, st.log) && reqs.Is(st.reqs) && recvReqs.Valid() && recvDeliv.Valid() && Separate()
      ensures memreg.Grown()
      ensures SyncMarks(ps, rank) == if ok then Some(marks) else None
      ensures ok ==> Executed(recvDeliv, memreg, mesgq, ram, o, marks)
      ensures ok ==> mesgq.recvTagSize == st.sendTag
      ensures ok ==> mesgq.sendTagSize == LastTag(Select(ps[rank].log[rank], SetTagItem), st.sendTag)
    {
      ShippedLocal(ps, rank);
      ok, marks := ExecuteDeliveries(shipped, st, o);
      StaysSeparate();
    }

    /** deliveryTable_push as all calls use it: one more record for one processor. The
      * field `next` of the caller's element is not initialised. */
    method Log(pid: nat, rec: Record, ghost st: Proc)
      requires Is(st) && pid < nprocs
      modifies deliv, deliv.used, deliv.data
      ensures Is(Logged(st, pid, rec))
      ensures deliv.used == old(deliv.used) && (deliv.data == old(deliv.data) || fresh(deliv.data))
    {
      var junk: nat := *;
      DeliveryTables.Push(deliv, pid, rec, junk, st.log);
    }

    /** bspx_put */
    method Put(pid: nat, src: int, dst: int, offset: int, nbytes: nat, ghost st: Proc)
      requires Is(st) && Legal(st, rank, nprocs, PutCall(pid, src, dst, offset, nbytes))
      modifies deliv, deliv.used, deliv.data
      ensures Is(Apply(st, rank, PutCall(pid, src, dst, offset, nbytes)))
      ensures deliv.used == old(deliv.used) && (deliv.data == old(deliv.data) || fresh(deliv.data))
    {
      var remote := FindRemote(pid, dst, st);
      ghost var st' := ApplyPut(st, rank, pid, src, dst, offset, nbytes, remote);
      Log(pid, Record(Info.Put(remote + offset), ReadBytes(ram.bytes, src, nbytes)), st);
    }

    /** The address translation of bspx_put and bspx_get. */
    method FindRemote(pid: nat, address: int, ghost st: Proc) returns (remote: int)
      requires Is(st) && pid < nprocs && address in st.reg[rank]
      ensures remote == Remote(st, rank, pid, address)
    {
      remote := memreg.MemoizedFind(pid, address, st.reg);
    }

    /** bspx_get */
    method Get(pid: nat, src: int, offset: int, dst: int, nbytes: nat, ghost st: Proc)
      requires Is(st) && Legal(st, rank, nprocs, GetCall(pid, src, offset, dst, nbytes))
      modifies reqs.table, reqs.table.used, reqs.table.data, reqs.dataSizes
      ensures Is(Apply(st, rank, GetCall(pid, src, offset, dst, nbytes)))
      ensures reqs.table.used == old(reqs.table.used)
        && (reqs.table.data == old(reqs.table.data) || fresh(reqs.table.data))
    {
      var remote := FindRemote(pid, src, st);
      Ask(pid, Request(nbytes, offset, remote, dst), st);
    }

    method Ask(pid: nat, req: Request, ghost st: Proc)
      requires Is(st) && pid < nprocs
      modifies reqs.table, reqs.table.used, reqs.table.data, reqs.dataSizes
      ensures Is(st.(reqs := st.reqs[pid := st.reqs[pid] + [req]]))
      ensures reqs.table.used == old(reqs.table.used)
        && (reqs.table.data == old(reqs.table.data) || fresh(reqs.table.data))
    {
      reqs.Push(pid, req, st.reqs);
    }

    /** bspx_send */
    method Send(pid: nat, message: Message, ghost st: Proc)
      requires Is(st) && Legal(st, rank, nprocs, SendCall(pid, message))
      modifies deliv, deliv.used, deliv.data
      ensures Is(Apply(st, rank, SendCall(pid, message)))
      ensures deliv.used == old(deliv.used) && (deliv.data == old(deliv.data) || fresh(deliv.data))
    {
      Log(pid, SendRecord(message), st);
    }

    /** bspx_push_reg: the address goes to every processor. */
    method PushReg(ident: int, ghost st: Proc)
      requires Is(st)
      modifies deliv, deliv.used, deliv.data
      ensures Is(Apply(st, rank, PushRegCall(ident)))
      ensures deliv.used == old(deliv.used) && (deliv.data == old(deliv.data) || fresh(deliv.data))
    {
      ghost var rec := Record(Info.PushReg(ident), []);
      ghost var states := LoggingForAll(st, rec);
      for i := 0 to nprocs
        invariant Is(states[i])
        invariant deliv.used == old(deliv.used) && (deliv.data == old(deliv.data) || fresh(deliv.data))
      {
        assert IsLogged(states[i], states[i + 1], i, rec);
        Log(i, Record(Info.PushReg(ident), []), states[i]);
      }
    }

    /** bspx_pop_reg: only the own column is told. */
    method PopReg(ident: int, ghost st: Proc)
      requires Is(st)
      modifies deliv, deliv.used, deliv.data
      ensures Is(Apply(st, rank, PopRegCall(ident)))
      ensures deliv.used == old(deliv.used) && (deliv.data == old(deliv.data) || fresh(deliv.data))
    {
      Log(rank, Record(Info.PopReg(ident), []), st);
    }

    /** bspx_set_tagsize: returns the size now in force; the new one is for later. */
    method SetTagSize(size: nat, ghost st: Proc) returns (current: nat)
      requires Is(st)
      modifies deliv, deliv.used, deliv.data
      ensures Is(Apply(st, rank, SetTagSizeCall(size))) && current == st.sendTag
      ensures deliv.used == old(deliv.used) && (deliv.data == old(deliv.data) || fresh(deliv.data))
    {
      current := mesgq.sendTagSize;
      Log(rank, Record(Info.SetTag(size), []), st);
    }

    /** Whatever the program does to its own memory. */
    method Compute(result: Memory, ghost st: Proc)
      requires Is(st)
      modifies ram
      ensures Is(Apply(st, rank, ComputeCall(result)))
    {
      ram.bytes := result;
    }

    /** The queue is no part of what the next boundary will consume. */
    lemma StaysPending(st: Proc, st': Proc)
      requires Pending(st) && st' == st.(queue := st'.queue, queued := st'.queued)
      ensures Pending(st')
    {
    }

    method MoveQueue(ghost list: seq<Record>) returns (size: int, message: Message)
      requires mesgq.Queued(recvDeliv, queueAt, list)
      modifies this, mesgq
      ensures mesgq.Queued(recvDeliv, queueAt, if list == [] then [] else list[1..])
      ensures mesgq.recvTagSize == old(mesgq.recvTagSize) && mesgq.sendTagSize == old(mesgq.sendTagSize)
      ensures if list == [] then size == -1 && mesgq.accumSize == old(mesgq.accumSize)
        else size == list[0].info.payloadSize && mesgq.accumSize == old(mesgq.accumSize) - size
      ensures list != [] && Tagged(list, mesgq.recvTagSize) ==> message == Decode(list[0], mesgq.recvTagSize)
    {
      size, message := mesgq.HpMove(recvDeliv, queueAt, list);
      if list != [] {
        queueAt := queueAt[1..];
      }
    }

    /** bspx_hpmove */
    method HpMove(ghost st: Proc) returns (size: int, message: Message)
      requires Is(st)
      modifies this, mesgq
      ensures Is(Apply(st, rank, HpMoveCall))
      ensures if st.queue == [] then size == -1 else size == st.queue[0].info.payloadSize
      ensures st.queue != [] && Tagged(st.queue, st.recvTag) ==> message == Decode(st.queue[0], st.recvTag)
    {
      ghost var st' := ApplyMove(st, rank);
      StaysPending(st, st');
      size, message := MoveQueue(st.queue);
    }

    /** bspx_qsize */
    method QSize(ghost st: Proc) returns (messages: nat, bytes: int)
      requires Is(st)
      ensures messages == |st.queue| && bytes == st.queued
    {
      messages, bytes := mesgq.QSize(recvDeliv, queueAt, st.queue, st.recvTag);
    }

    /** bspx_hpmove until it returns -1. */
    method Drain(ghost st: Proc) returns (messages: seq<Message>)
      requires Is(st) && Tagged(st.queue, st.recvTag)
      modifies this, mesgq
      ensures Is(st.(queue := [], queued := st.queued - Payloads(st.queue)))
      ensures |messages| == |st.queue| && forall k | 0 <= k < |messages| ::
        messages[k] == Decode(st.queue[k], st.recvTag)
    {
      messages := mesgq.Drain(recvDeliv, queueAt, st.queue);
      queueAt := [];
    }
  }

  /** The two delivery tables. */
  method InitDeliveries(nprocs: nat, rows: nat) returns (deliv: DeliveryTable, recvDeliv: DeliveryTable)
    ensures deliv.nprocs == recvDeliv.nprocs == nprocs && recvDeliv.rows >= INDEX_SLOTS && recvDeliv.Valid()
    ensures Represents(deliv, Empty(nprocs))
    ensures fresh({deliv, deliv.used, deliv.data}) && fresh({recvDeliv, recvDeliv.used, recvDeliv.data})
    ensures {deliv, deliv.used, deliv.data} !! {recvDeliv, recvDeliv.used, recvDeliv.data}
  {
    deliv := DeliveryTables.Initialize(nprocs, rows);
    recvDeliv := DeliveryTables.Initialize(nprocs, rows);
  }

  /** The two request tables. */
  method InitRequests(nprocs: nat, rows: nat) returns (reqs: RequestTable, recvReqs: ExpandableTable<Request>)
    requires rows > 0
    ensures reqs.table.nprocs == recvReqs.nprocs == nprocs && recvReqs.Valid() && reqs.Is(Empty(nprocs))
    ensures fresh({reqs, reqs.table, reqs.table.used, reqs.table.data, reqs.dataSizes})
    ensures fresh({recvReqs, recvReqs.used, recvReqs.data})
    ensures {reqs, reqs.table, reqs.table.used, reqs.table.data, reqs.dataSizes} !! {recvReqs, recvReqs.used,
      recvReqs.data}
  {
    reqs := new RequestTable(nprocs, rows);
    recvReqs := new ExpandableTable<Request>(nprocs, rows);
  }

  method InitTables(nprocs: nat, delivSize: nat, reqSize: nat)
    returns (deliv: DeliveryTable, recvDeliv: DeliveryTable, reqs: RequestTable, recvReqs: ExpandableTable<Request>,
             ghost a: set<object>, ghost b: set<object>, ghost c: set<object>, ghost d: set<object>)
    requires reqSize > 0
    ensures a == {deliv, deliv.used, deliv.data} && b == {recvDeliv, recvDeliv.used, recvDeliv.data}
    ensures c == {reqs, reqs.table, reqs.table.used, reqs.table.data, reqs.dataSizes}
      && d == {recvReqs, recvReqs.used, recvReqs.data}
    ensures fresh(a + b + c + d) && a !! b !! c !! d
    ensures deliv.nprocs == recvDeliv.nprocs == nprocs && recvDeliv.rows >= INDEX_SLOTS && recvDeliv.Valid()
    ensures Represents(deliv, Empty(nprocs))
    ensures reqs.table.nprocs == recvReqs.nprocs == nprocs && recvReqs.Valid() && reqs.Is(Empty(nprocs))
  {
    deliv, recvDeliv := InitDeliveries(nprocs, delivSize);
    a, b := {deliv, deliv.used, deliv.data}, {recvDeliv, recvDeliv.used, recvDeliv.data};
    reqs, recvReqs := InitRequests(nprocs, reqSize);
    c, d := {reqs, reqs.table, reqs.table.used, reqs.table.data, reqs.dataSizes},
      {recvReqs, recvReqs.used, recvReqs.data};
    assert a !! b && (a + b) !! c && (a + b) !! d;
  }

  /** bspx_init_bspobject; the minimal sizes are configuration. */
  method Initialize(nprocs: nat, rank: nat, regSize: nat, delivSize: nat, reqSize: nat) returns (bsp: BspObject)
    requires rank < nprocs && regSize > 0 && reqSize > 0
    ensures fresh(bsp) && fresh(bsp.Repr()) && bsp.nprocs == nprocs && bsp.rank == rank
    ensures bsp.Is(Proc(map[], Empty(nprocs), Empty(nprocs), Empty(nprocs), [], 0, 0, 0))
  {
    var deliv, recvDeliv, reqs, recvReqs, a, b, c, d := InitTables(nprocs, delivSize, reqSize);
    ghost var tables := a + b + c + d;
    var memreg := new MemoryRegister(nprocs, regSize, rank);
    ghost var e: set<object> := memreg.Footprint();
    assert tables !! e && fresh(e);
    ghost var f;
    bsp, f := Assemble(nprocs, rank, deliv, recvDeliv, reqs, recvReqs, memreg, a, b, c, d, e);
    assert fresh(tables + e + f);
  }

  method Assemble(nprocs: nat, rank: nat, deliv: DeliveryTable, recvDeliv: DeliveryTable, reqs: RequestTable,
                  recvReqs: ExpandableTable<Request>, memreg: MemoryRegister,
                  ghost a: set<object>, ghost b: set<object>, ghost c: set<object>, ghost d: set<object>,
                  ghost e: set<object>)
    returns (bsp: BspObject, ghost f: set<object>)
    requires a == {deliv, deliv.used, deliv.data} && b == {recvDeliv, recvDeliv.used, recvDeliv.data}
    requires c == {reqs, reqs.table, reqs.table.used, reqs.table.data, reqs.dataSizes}
      && d == {recvReqs, recvReqs.used, recvReqs.data}
    requires e == memreg.Footprint() && a !! b !! c !! d !! e
    requires rank < nprocs && memreg.rank == rank && memreg.Is(Empty(nprocs), []) && memreg.Packed()
    requires Represents(deliv, Empty(nprocs)) && reqs.Is(Empty(nprocs))
    requires recvDeliv.Valid() && recvDeliv.nprocs == nprocs && recvDeliv.rows >= INDEX_SLOTS
    requires recvReqs.Valid() && recvReqs.nprocs == nprocs
    ensures fresh(bsp) && bsp.nprocs == nprocs && bsp.rank == rank
    ensures bsp.Repr() == a + b + c + d + e + f && fresh(f)
    ensures bsp.Is(Proc(map[], Empty(nprocs), Empty(nprocs), Empty(nprocs), [], 0, 0, 0))
  {
    var mesgq := new MessageQueue();
    var ram := new Ram();
    bsp := new BspObject(nprocs, rank, deliv, recvDeliv, reqs, recvReqs, memreg, mesgq, ram);
    f := {mesgq, ram, bsp};
    assert a !! b !! c !! d !! e !! f;
    assert bsp.DelivParts() == a && bsp.RecvDelivParts() == b && bsp.ReqParts() == c && bsp.RecvReqParts() == d;
    assert bsp.Separate();
  }
}
