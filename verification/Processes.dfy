/** Processes, each with the memory of its BSPObject to itself. */
module Processes {
  import opened Columns
  import opened MessageQueues
  import opened Registers
  import opened Requests
  import opened Supersteps
  import opened BspObjects
  import BspCalls
  import BspSync

  /** Where a process is: between two superstep boundaries, or in one of the phases of bspx_sync. */
  datatype Phase = Between | Begun | Reserved(recvReq: seq<nat>, recvDel: seq<nat>)

  datatype Status = Status(phase: Phase, st: Proc)

  class Process {
    const bsp: BspObject
    ghost var Repr: set<object>

    constructor (bsp: BspObject, ghost st: Proc)
      requires bsp.Is(st)
      ensures this.bsp == bsp && At(Status(Between, st)) && Repr == bsp.Repr() + {this}
    {
      this.bsp, Repr := bsp, bsp.Repr() + {this};
      new;
      assert Now(Status(Between, st));
    }

    ghost predicate Owns()
      reads this, Repr
    {
      && this in Repr && {bsp.deliv, bsp.recvDeliv, bsp.reqs.table, bsp.recvReqs, bsp.memreg, bsp.memreg.table} <= Repr
      && bsp.Repr() <= Repr && this !in bsp.Repr()
    }

    /** The process has this status, for those who only hand it on. */
    ghost predicate At(s: Status)
      reads this, Repr
    {
      this in Repr && forall x :: x == s ==> Now(x)
    }

    ghost predicate Now(s: Status)
      reads this, Repr
    {
      && Owns()
      && match s.phase
         case Between => BspSync.Stands(bsp, s.st)
         case Begun => BspSync.Syncs(bsp, s.st)
         case Reserved(recvReq, recvDel) => BspSync.Syncs(bsp, s.st) && bsp.Reserved(s.st, recvReq, recvDel)
    }

    method Begin(ghost st: Proc) returns (reqCounts: seq<nat>, delCounts: seq<nat>, anyGets: bool)
      requires At(Status(Between, st))
      modifies Repr
      ensures At(Status(Begun, st)) && fresh(Repr - old(Repr))
      ensures |reqCounts| == |delCounts| == |st.reqs| == |st.log| == bsp.nprocs
      ensures forall p: nat | p < bsp.nprocs :: reqCounts[p] == |st.reqs[p]| && delCounts[p] == Size(st.log[p])
      ensures anyGets == AsksAnybody(st)
    {
      assert Now(Status(Between, st));
      reqCounts, delCounts, anyGets := BspSync.Begin(bsp, st);
      Adopt();
    }

    method Reserve(recvReq: seq<nat>, recvDel: seq<nat>, recvAny: seq<bool>, ghost st: Proc) returns (anyGets: bool)
      requires At(Status(Begun, st)) && |recvReq| == |recvDel| == |recvAny| == bsp.nprocs
      modifies Repr
      ensures At(Status(Reserved(recvReq, recvDel), st)) && fresh(Repr - old(Repr))
      ensures anyGets == exists p | 0 <= p < bsp.nprocs :: recvAny[p]
    {
      assert Now(Status(Begun, st));
      anyGets := BspSync.Reserve(bsp, recvReq, recvDel, recvAny, st);
      Adopt();
    }

    method ReadRequests(ghost st: Proc, ghost recvReq: seq<nat>, ghost recvDel: seq<nat>)
      returns (cols: seq<seq<Request>>)
      requires At(Status(Reserved(recvReq, recvDel), st))
      ensures cols == st.reqs && |cols| == bsp.nprocs
    {
      assert Now(Status(Reserved(recvReq, recvDel), st));
      cols := BspSync.ReadRequests(bsp, st);
    }

    method ReadDeliveries(ghost st: Proc, ghost recvReq: seq<nat>, ghost recvDel: seq<nat>)
      returns (cols: seq<seq<Slot>>)
      requires At(Status(Reserved(recvReq, recvDel), st))
      ensures |cols| == |st.log| == bsp.nprocs && forall p: nat | p < |cols| :: ColumnOk(cols[p], st.log[p])
    {
      assert Now(Status(Reserved(recvReq, recvDel), st));
      cols := BspSync.ReadDeliveries(bsp, st);
    }

    method Answer(cols: seq<seq<Request>>, ghost recvReq: seq<nat>, ghost recvDel: seq<nat>, ghost st: Proc,
                  ghost st': Proc)
      requires At(Status(Reserved(recvReq, recvDel), st)) && |cols| == bsp.nprocs == |recvReq| == |st.log|
      requires forall p | 0 <= p < bsp.nprocs :: |cols[p]| == recvReq[p]
      requires st' == st.(log := Answered(st.log, st.mem, cols, bsp.nprocs))
      modifies Repr
      ensures At(Status(Reserved(recvReq, recvDel), st')) && fresh(Repr - old(Repr))
    {
      assert Now(Status(Reserved(recvReq, recvDel), st));
      BspSync.Answer(bsp, cols, recvReq, recvDel, st, st');
      Adopt();
    }

    method Deliver(cols: seq<seq<Slot>>, ghost ps: seq<Proc>, ghost st: Proc, ghost recvReq: seq<nat>,
                   ghost recvDel: seq<nat>, ghost logs: seq<seq<Record>>, ghost next: Option<Proc>) returns (ok: bool)
      requires At(Status(Reserved(recvReq, recvDel), st)) && BspSync.Crosses(ps, bsp.rank, st, logs, next)
      requires |ps| == bsp.nprocs == |cols| == |logs| == |recvDel| == |st.reqs|
      requires forall p: nat | p < |cols| :: BspSync.Fits(cols[p], logs[p], recvDel[p] + DataSize(st.reqs[p]))
      modifies Repr
      ensures ok == next.Some? && fresh(Repr - old(Repr))
      ensures ok ==> At(Status(Between, next.value))
    {
      assert Now(Status(Reserved(recvReq, recvDel), st));
      ok := BspSync.DeliverReserved(bsp, cols, ps, st, recvReq, recvDel, logs, next);
      Adopt();
    }

    /** One call of the program. */
    method Do(call: Call, ghost st: Proc, ghost next: Proc)
      requires At(Status(Between, st)) && BspCalls.Leads(st, bsp.rank, bsp.nprocs, call, next)
      modifies Repr
      ensures At(Status(Between, next)) && fresh(Repr - old(Repr))
    {
      assert Now(Status(Between, st));
      BspCalls.Do(bsp, call, st, next);
      Adopt();
    }

    /** bspx_qsize */
    method QSize(ghost st: Proc) returns (messages: nat, bytes: int)
      requires At(Status(Between, st))
      ensures messages == |st.queue| && bytes == st.queued
    {
      assert Now(Status(Between, st));
      messages, bytes := BspCalls.QSize(bsp, st);
    }

    /** bspx_hpmove until it returns -1. */
    method Drain(ghost st: Proc) returns (messages: seq<Message>)
      requires At(Status(Between, st)) && Tagged(st.queue, st.recvTag)
      modifies Repr
      ensures At(Status(Between, st.(queue := [], queued := st.queued - Payloads(st.queue)))) && fresh(Repr - old(Repr))
      ensures |messages| == |st.queue| && forall k | 0 <= k < |messages| ::
        messages[k] == Decode(st.queue[k], st.recvTag)
    {
      assert Now(Status(Between, st));
      messages := BspCalls.Drain(bsp, st);
      Adopt();
    }

    /** New memory of the object belongs to the process. */
    ghost method Adopt()
      requires this !in bsp.Repr() && this in Repr
      requires {bsp.deliv, bsp.recvDeliv, bsp.reqs.table, bsp.recvReqs, bsp.memreg, bsp.memreg.table} <= Repr
      modifies this`Repr
      ensures Repr == old(Repr) + bsp.Repr() && Owns()
      ensures forall s :: old(BspSync.Stands(bsp, s)) ==> BspSync.Stands(bsp, s)
      ensures forall s :: old(BspSync.Syncs(bsp, s)) ==> BspSync.Syncs(bsp, s)
    {
      Repr := Repr + bsp.Repr();
    }
  }
}
