/** bspx_sync of all processors together (src/bspx.c): the phases of each, with the exchanges of MPI_Alltoall and
  * MPI_Alltoallv between them, on the objects of all processes. */
module CollectiveSync {
  import opened Columns
  import opened Registers
  import opened Requests
  import opened Supersteps
  import opened Processes
  import BspSync

  /** The memory of all processes. */
  ghost function AllRepr(procs: seq<Process>): set<object>
    reads procs
  {
    set x, o: object | x in procs && o in x.Repr :: o
  }

  /** One process per rank, and no two share memory. */
  ghost predicate Together(procs: seq<Process>)
    reads procs
  {
    && (forall i :: 0 <= i < |procs| ==>
      procs[i].bsp.rank == i && procs[i].bsp.nprocs == |procs| && procs[i] in procs[i].Repr)
    && (forall i, j :: 0 <= i < |procs| && 0 <= j < |procs| && i != j ==> procs[i].Repr !! procs[j].Repr)
  }

  /** Where all processes are. */
  ghost predicate AllAt(procs: seq<Process>, ss: seq<Status>)
    reads procs, AllRepr(procs)
  {
    && Together(procs) && |ss| == |procs|
    && forall i :: 0 <= i < |procs| ==> procs[i].At(ss[i])
  }

  /** The processes have no memory that they did not have or that is not new. */
  twostate predicate AllKept(procs: seq<Process>)
    reads procs
  {
    forall i :: 0 <= i < |procs| ==> fresh(procs[i].Repr - old(procs[i].Repr))
  }

  // ----- up to the information exchange -----

  /** What a processor tells everybody. */
  ghost predicate Tells(st: Proc, reqCounts: seq<nat>, delCounts: seq<nat>, any: bool, n: nat) {
    && |reqCounts| == |delCounts| == |st.reqs| == |st.log| == n && any == AsksAnybody(st)
    && forall p: nat | p < n :: reqCounts[p] == |st.reqs[p]| && delCounts[p] == Size(st.log[p])
  }

  method BeginAt(procs: seq<Process>, i: nat, ghost ss: seq<Status>, ghost ss': seq<Status>)
    returns (reqCounts: seq<nat>, delCounts: seq<nat>, anyGets: bool)
    requires AllAt(procs, ss) && i < |procs| && ss[i].phase == Between && ss' == ss[i := Status(Begun, ss[i].st)]
    modifies procs[i].Repr
    ensures AllAt(procs, ss') && AllKept(procs)
    ensures Tells(ss[i].st, reqCounts, delCounts, anyGets, |procs|)
  {
    reqCounts, delCounts, anyGets := procs[i].Begin(ss[i].st);
  }

  method BeginAll(procs: seq<Process>, ghost ps: seq<Proc>, ghost ss: seq<Status>)
    returns (reqCounts: seq<seq<nat>>, delCounts: seq<seq<nat>>, any: seq<bool>, ghost ss': seq<Status>)
    requires AllAt(procs, ss) && |ps| == |procs| && forall i :: 0 <= i < |ps| ==> ss[i] == Status(Between, ps[i])
    modifies AllRepr(procs)
    ensures AllAt(procs, ss') && AllKept(procs) && forall i :: 0 <= i < |ps| ==> ss'[i] == Status(Begun, ps[i])
    ensures |reqCounts| == |delCounts| == |any| == |ps|
    ensures forall i :: 0 <= i < |ps| ==> Tells(ps[i], reqCounts[i], delCounts[i], any[i], |ps|)
  {
    reqCounts, delCounts, any, ss' := [], [], [], ss;
    for i := 0 to |procs|
      invariant AllAt(procs, ss') && AllKept(procs)
      invariant forall j :: 0 <= j < |ps| ==> ss'[j] == Status(if j < i then Begun else Between, ps[j])
      invariant |reqCounts| == |delCounts| == |any| == i
      invariant forall j :: 0 <= j < i ==> Tells(ps[j], reqCounts[j], delCounts[j], any[j], |ps|)
    {
      ghost var next := ss'[i := Status(Begun, ss'[i].st)];
      var r, d, a := BeginAt(procs, i, ss', next);
      reqCounts, delCounts, any, ss' := reqCounts + [r], delCounts + [d], any + [a], next;
    }
  }

  // ----- room -----

  method ReserveAt(procs: seq<Process>, i: nat, recvReq: seq<nat>, recvDel: seq<nat>, any: seq<bool>,
                   ghost ss: seq<Status>, ghost ss': seq<Status>) returns (anyGets: bool)
    requires AllAt(procs, ss) && i < |procs| && ss[i].phase == Begun && |recvReq| == |recvDel| == |any| == |procs|
    requires ss' == ss[i := Status(Reserved(recvReq, recvDel), ss[i].st)]
    modifies procs[i].Repr
    ensures AllAt(procs, ss') && AllKept(procs)
    ensures anyGets == exists p | 0 <= p < |procs| :: any[p]
  {
    anyGets := procs[i].Reserve(recvReq, recvDel, any, ss[i].st);
  }

  method ReserveAll(procs: seq<Process>, recvReq: seq<seq<nat>>, recvDel: seq<seq<nat>>, any: seq<bool>,
                    ghost ps: seq<Proc>,
                    ghost ss: seq<Status>) returns (anyGets: seq<bool>, ghost ss': seq<Status>)
    requires AllAt(procs, ss) && |ps| == |procs| && forall i :: 0 <= i < |ps| ==> ss[i] == Status(Begun, ps[i])
    requires |recvReq| == |recvDel| == |any| == |ps| && forall i :: 0 <= i < |ps| ==>
      |recvReq[i]| == |recvDel[i]| == |ps|
    modifies AllRepr(procs)
    ensures AllAt(procs, ss') && AllKept(procs)
    ensures forall i :: 0 <= i < |ps| ==> ss'[i] == Status(Reserved(recvReq[i], recvDel[i]), ps[i])
    ensures |anyGets| == |ps| && forall i :: 0 <= i < |ps| ==> anyGets[i] == exists p | 0 <= p < |ps| :: any[p]
  {
    anyGets, ss' := [], ss;
    for i := 0 to |procs|
      invariant AllAt(procs, ss') && AllKept(procs)
      invariant forall j :: 0 <= j < |ps| ==>
        ss'[j] == Status(if j < i then Reserved(recvReq[j], recvDel[j]) else Begun, ps[j])
      invariant |anyGets| == i && forall j :: 0 <= j < i ==> anyGets[j] == exists p | 0 <= p < |ps| :: any[p]
    {
      ghost var next := ss'[i := Status(Reserved(recvReq[i], recvDel[i]), ss'[i].st)];
      var a := ReserveAt(procs, i, recvReq[i], recvDel[i], any, ss', next);
      anyGets, ss' := anyGets + [a], next;
    }
  }

  // ----- the request exchange -----

  method AnswerAt(procs: seq<Process>, i: nat, cols: seq<seq<Request>>, ghost ss: seq<Status>, ghost ss': seq<Status>)
    requires AllAt(procs, ss) && i < |procs| && ss[i].phase.Reserved?
      && |cols| == |procs| == |ss[i].phase.recvReq| == |ss[i].st.log|
    requires forall p | 0 <= p < |procs| :: |cols[p]| == ss[i].phase.recvReq[p]
    requires ss' == ss[i := Status(ss[i].phase, ss[i].st.(log := Answered(ss[i].st.log, ss[i].st.mem, cols, |procs|)))]
    modifies procs[i].Repr
    ensures AllAt(procs, ss') && AllKept(procs)
  {
    procs[i].Answer(cols, ss[i].phase.recvReq, ss[i].phase.recvDel, ss[i].st, ss'[i].st);
  }

  /** The requests of all processors. */
  method ReadAllRequests(procs: seq<Process>, ghost ps: seq<Proc>, ghost ss: seq<Status>)
    returns (reqs: seq<seq<seq<Request>>>)
    requires AllAt(procs, ss) && |ps| == |procs|
    requires forall i :: 0 <= i < |ps| ==> ss[i].phase.Reserved? && ss[i].st == ps[i]
    ensures |reqs| == |ps| && forall p :: 0 <= p < |ps| ==> reqs[p] == ps[p].reqs && |reqs[p]| == |ps|
  {
    reqs := [];
    for i := 0 to |procs|
      invariant |reqs| == i && forall p :: 0 <= p < i ==> reqs[p] == ps[p].reqs && |reqs[p]| == |ps|
    {
      assert ss[i] == Status(Reserved(ss[i].phase.recvReq, ss[i].phase.recvDel), ps[i]);
      var cols := procs[i].ReadRequests(ps[i], ss[i].phase.recvReq, ss[i].phase.recvDel);
      reqs := reqs + [cols];
    }
  }

  /** MPI_Alltoall and MPI_Alltoallv: what everybody has for q. */
  function Exchanged<T>(m: seq<seq<T>>, q: nat): (r: seq<T>)
    requires forall p :: 0 <= p < |m| ==> q < |m[p]|
    ensures |r| == |m| && forall p :: 0 <= p < |m| ==> r[p] == m[p][q]
  {
    seq(|m|, p requires 0 <= p < |m| => m[p][q])
  }

  function AllExchanged<T>(m: seq<seq<T>>): (r: seq<seq<T>>)
    requires forall p :: 0 <= p < |m| ==> |m[p]| == |m|
    ensures |r| == |m| && forall q :: 0 <= q < |m| ==> r[q] == Exchanged(m, q)
  {
    seq(|m|, q requires 0 <= q < |m| => Exchanged(m, q))
  }

  /** The processor has answered what the others asked it. */
  function Answering(st: Proc, cols: seq<seq<Request>>): Proc
    requires |st.log| == |cols|
  {
    st.(log := Answered(st.log, st.mem, cols, |cols|))
  }

  method AnswerAll(procs: seq<Process>, cols: seq<seq<seq<Request>>>, ghost ps: seq<Proc>, ghost ss: seq<Status>)
    returns (ghost ss': seq<Status>)
    requires AllAt(procs, ss) && |ps| == |procs| == |cols|
    requires forall i :: 0 <= i < |ps| ==> ss[i].phase.Reserved? && ss[i].st == ps[i] && |cols[i]| == |ps[i].log|
    requires forall i :: 0 <= i < |ps| ==> Expects(ps[i], cols[i], ss[i].phase.recvReq, |ps|)
    modifies AllRepr(procs)
    ensures AllAt(procs, ss') && AllKept(procs)
    ensures forall i :: 0 <= i < |ps| ==> ss'[i] == Status(ss[i].phase, Answering(ps[i], cols[i]))
  {
    ss' := ss;
    for i := 0 to |procs|
      invariant AllAt(procs, ss') && AllKept(procs)
      invariant forall j :: 0 <= j < |ps| ==>
        ss'[j] == if j < i then Status(ss[j].phase, Answering(ps[j], cols[j])) else ss[j]
    {
      assert Expects(ps[i], cols[i], ss[i].phase.recvReq, |ps|);
      ghost var next := ss'[i := Status(ss[i].phase, Answering(ps[i], cols[i]))];
      AnswerAt(procs, i, cols[i], ss', next);
      ss' := next;
    }
  }

  /** The requests are as many as were announced. */
  predicate Expects(st: Proc, cols: seq<seq<Request>>, recvReq: seq<nat>, n: nat) {
    |cols| == n == |recvReq| == |st.log| && forall p :: 0 <= p < n ==> |cols[p]| == recvReq[p]
  }

  // ----- the delivery exchange -----

  method ReadAllDeliveries(procs: seq<Process>, ghost ps: seq<Proc>, ghost ss: seq<Status>)
    returns (dels: seq<seq<seq<Slot>>>)
    requires AllAt(procs, ss) && |ps| == |procs|
    requires forall i :: 0 <= i < |ps| ==> ss[i].phase.Reserved? && ss[i].st == ps[i]
    ensures |dels| == |ps| && forall p :: 0 <= p < |ps| ==> Ships(ps[p], dels[p], |ps|)
  {
    dels := [];
    for i := 0 to |procs|
      invariant |dels| == i && forall p :: 0 <= p < i ==> Ships(ps[p], dels[p], |ps|)
    {
      assert ss[i] == Status(Reserved(ss[i].phase.recvReq, ss[i].phase.recvDel), ps[i]);
      var cols := procs[i].ReadDeliveries(ps[i], ss[i].phase.recvReq, ss[i].phase.recvDel);
      dels := dels + [cols];
    }
  }

  /** The columns stand for what the processor has logged. */
  ghost predicate Ships(st: Proc, cols: seq<seq<Slot>>, n: nat) {
    |cols| == |st.log| == n && forall q: nat | q < n :: ColumnOk(cols[q], st.log[q])
  }

  /** What comes to processor i is what the boundary demands, and fits its room. */
  ghost predicate Receives(ps: seq<Proc>, i: nat, cols: seq<seq<Slot>>, logs: seq<seq<Record>>, next: Option<Proc>,
                           s: Status) {
    && s.phase.Reserved? && |cols| == |logs| == |ps| == |s.phase.recvDel| == |s.st.reqs|
    && BspSync.Crosses(ps, i, s.st, logs, next)
    && forall p: nat | p < |cols| :: BspSync.Fits(cols[p], logs[p], s.phase.recvDel[p] + DataSize(s.st.reqs[p]))
  }

  method DeliverAt(procs: seq<Process>, i: nat, cols: seq<seq<Slot>>, ghost ps: seq<Proc>, ghost logs: seq<seq<Record>>,
                   ghost next: Option<Proc>, ghost ss: seq<Status>) returns (ok: bool)
    requires AllAt(procs, ss) && i < |procs| == |ps| && Receives(ps, i, cols, logs, next, ss[i])
    modifies procs[i].Repr
    ensures ok == next.Some?
    ensures ok ==> AllAt(procs, ss[i := Status(Between, next.value)]) && AllKept(procs)
  {
    assert ss[i] == Status(Reserved(ss[i].phase.recvReq, ss[i].phase.recvDel), ss[i].st);
    ok := procs[i].Deliver(cols, ps, ss[i].st, ss[i].phase.recvReq, ss[i].phase.recvDel, logs, next);
  }

  /** All processors in the same phase. */
  ghost function InPhase(phase: Phase, ps: seq<Proc>): (ss: seq<Status>)
    ensures |ss| == |ps| && forall i :: 0 <= i < |ps| ==> ss[i] == Status(phase, ps[i])
  {
    seq(|ps|, i requires 0 <= i < |ps| => Status(phase, ps[i]))
  }

  method DeliverAll(procs: seq<Process>, cols: seq<seq<seq<Slot>>>, ghost ps: seq<Proc>,
                    ghost logs: seq<seq<seq<Record>>>,
                    ghost nexts: seq<Option<Proc>>, ghost ss: seq<Status>) returns (ok: bool, ghost ss': seq<Status>)
    requires AllAt(procs, ss) && |procs| == |ps| == |cols| == |logs| == |nexts|
    requires forall i :: 0 <= i < |ps| ==> Receives(ps, i, cols[i], logs[i], nexts[i], ss[i])
    modifies AllRepr(procs)
    ensures ok == forall i | 0 <= i < |ps| :: nexts[i].Some?
    ensures ok ==> AllAt(procs, ss') && AllKept(procs)
    ensures ok ==> forall i :: 0 <= i < |ps| ==> ss'[i] == Status(Between, nexts[i].value)
  {
    ok, ss' := true, ss;
    for i := 0 to |procs|
      invariant AllAt(procs, ss') && AllKept(procs)
      invariant forall j :: 0 <= j < i ==> nexts[j].Some? && ss'[j] == Status(Between, nexts[j].value)
      invariant forall j :: i <= j < |ps| ==> ss'[j] == ss[j]
    {
      assert Receives(ps, i, cols[i], logs[i], nexts[i], ss[i]);
      var one := DeliverAt(procs, i, cols[i], ps, logs[i], nexts[i], ss');
      if !one { return false, ss'; }
      ss' := ss'[i := Status(Between, nexts[i].value)];
    }
  }
}
