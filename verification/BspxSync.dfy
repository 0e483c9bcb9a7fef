/** The superstep theorem on the arrays of all processors: bspx_sync (src/bspx.c) run by all of them takes their
  * objects from the states before the superstep boundary to the abstract states behind it. */
module BspxSync {
  import opened Columns
  import opened Registers
  import opened Requests
  import opened Supersteps
  import opened Processes
  import opened Protocol
  import opened CollectiveSync
  import BspSync

  /** What everybody is told about itself. */
  ghost predicate Told(ps: seq<Proc>, recvReq: seq<seq<nat>>, recvDel: seq<seq<nat>>) {
    && World(ps) && |recvReq| == |recvDel| == |ps|
    && forall q: nat :: q < |ps| ==> ToldAt(ps, q, recvReq[q], recvDel[q])
  }

  ghost predicate ToldAt(ps: seq<Proc>, q: nat, recvReq: seq<nat>, recvDel: seq<nat>)
    requires World(ps) && q < |ps|
  {
    && |recvReq| == |recvDel| == |ps|
    && forall p: nat :: p < |ps| ==> ToldBy(ps, p, q, recvReq[p], recvDel[p])
  }

  /** By p: how many requests it has for q, and how many slots. */
  ghost predicate ToldBy(ps: seq<Proc>, p: nat, q: nat, recvReq: nat, recvDel: nat)
    requires World(ps) && p < |ps| && q < |ps|
  {
    Shaped(ps[p], |ps|) && recvReq == |ps[p].reqs[q]| && recvDel == Size(ps[p].log[q])
  }

  lemma CountsExchanged(ps: seq<Proc>, reqCounts: seq<seq<nat>>, delCounts: seq<seq<nat>>, any: seq<bool>,
                        recvReq: seq<seq<nat>>, recvDel: seq<seq<nat>>)
    requires World(ps) && |reqCounts| == |delCounts| == |any| == |ps|
    requires forall i :: 0 <= i < |ps| ==> Tells(ps[i], reqCounts[i], delCounts[i], any[i], |ps|)
    requires forall i :: 0 <= i < |ps| ==> |reqCounts[i]| == |delCounts[i]| == |ps|
    requires recvReq == AllExchanged(reqCounts) && recvDel == AllExchanged(delCounts)
    ensures Told(ps, recvReq, recvDel)
    ensures (exists p | 0 <= p < |ps| :: any[p]) == Asking(ps)
  {
    forall q: nat, p: nat | q < |ps| && p < |ps| ensures ToldBy(ps, p, q, recvReq[q][p], recvDel[q][p]) {
      assert Tells(ps[p], reqCounts[p], delCounts[p], any[p], |ps|);
      assert recvReq[q] == Exchanged(reqCounts, q) && recvDel[q] == Exchanged(delCounts, q);
    }
    forall q: nat | q < |ps| ensures ToldAt(ps, q, recvReq[q], recvDel[q]) {
      forall p: nat | p < |ps| ensures ToldBy(ps, p, q, recvReq[q][p], recvDel[q][p]) {}
    }
    forall p: nat | p < |ps| ensures any[p] == AsksAnybody(ps[p]) {
      assert Tells(ps[p], reqCounts[p], delCounts[p], any[p], |ps|);
    }
  }

  /** Every process has room for what it has been told of, and is otherwise as before. */
  ghost predicate Informed(ps: seq<Proc>, recvReq: seq<seq<nat>>, recvDel: seq<seq<nat>>, ss: seq<Status>) {
    && Told(ps, recvReq, recvDel) && |ss| == |ps|
    && forall i :: 0 <= i < |ps| ==> ss[i] == Status(Reserved(recvReq[i], recvDel[i]), ps[i])
  }

  /** Up to and including the information exchange. */
  method Inform(procs: seq<Process>, ghost ps: seq<Proc>, ghost ss: seq<Status>)
    returns (asks: bool, ghost recvReq: seq<seq<nat>>, ghost recvDel: seq<seq<nat>>, ghost ss': seq<Status>)
    requires AllAt(procs, ss) && World(ps) && |ps| == |procs| && forall i :: 0 <= i < |ps| ==>
      ss[i] == Status(Between, ps[i])
    modifies AllRepr(procs)
    ensures AllAt(procs, ss') && AllKept(procs) && Informed(ps, recvReq, recvDel, ss') && asks == Asking(ps)
  {
    ghost var s1;
    var reqCounts, delCounts, any;
    reqCounts, delCounts, any, s1 := BeginAll(procs, ps, ss);
    forall i | 0 <= i < |ps| ensures |reqCounts[i]| == |delCounts[i]| == |ps| {
      assert Tells(ps[i], reqCounts[i], delCounts[i], any[i], |ps|);
    }
    var forReq, forDel := AllExchanged(reqCounts), AllExchanged(delCounts);
    CountsExchanged(ps, reqCounts, delCounts, any, forReq, forDel);
    var flags;
    flags, ss' := ReserveAll(procs, forReq, forDel, any, ps, s1);
    recvReq, recvDel := forReq, forDel;
    asks := |flags| > 0 && flags[0];
  }

  /** All have answered. */
  ghost predicate AllAnswered(ps: seq<Proc>, recvReq: seq<seq<nat>>, recvDel: seq<seq<nat>>, ss: seq<Status>) {
    && Told(ps, recvReq, recvDel) && |ss| == |ps|
    && forall i :: 0 <= i < |ps| ==> ss[i] == Status(Reserved(recvReq[i], recvDel[i]), ps[i].(log := Outgoing(ps, i)))
  }

  /** The columns of the request exchange are what the processor is asked, as many as announced, and answering them
    * adds what the superstep theorem demands. */
  lemma AsksArrive(ps: seq<Proc>, recvReq: seq<seq<nat>>, recvDel: seq<seq<nat>>, reqs: seq<seq<seq<Request>>>, i: nat)
    requires Told(ps, recvReq, recvDel) && i < |ps| == |reqs|
    requires forall p :: 0 <= p < |ps| ==> reqs[p] == ps[p].reqs && |reqs[p]| == |ps|
    ensures Expects(ps[i], Exchanged(reqs, i), recvReq[i], |ps|)
    ensures Answering(ps[i], Exchanged(reqs, i)) == ps[i].(log := Outgoing(ps, i))
  {
    assert Shaped(ps[i], |ps|) && ToldAt(ps, i, recvReq[i], recvDel[i]);
    var cols := Exchanged(reqs, i);
    forall p | 0 <= p < |ps| ensures |cols[p]| == recvReq[i][p] {
      assert ToldBy(ps, p, i, recvReq[i][p], recvDel[i][p]);
    }
    assert Answering(ps[i], cols).log == Outgoing(ps, i);
  }

  /** Where nobody asks, nothing is to be answered. */
  lemma NobodyAsks(ps: seq<Proc>, i: nat)
    requires World(ps) && i < |ps| && !Asking(ps)
    ensures ps[i].log == Outgoing(ps, i)
  {
    assert Shaped(ps[i], |ps|);
    forall r: nat | r < |ps| ensures ps[i].log[r] == Outgoing(ps, i)[r] {
      assert Shaped(ps[r], |ps|) && !AsksAnybody(ps[r]);
      assert Outgoing(ps, i)[r] == ps[i].log[r] + [];
    }
  }

  /** The request exchange, where anybody asks. */
  method Request(procs: seq<Process>, asks: bool, ghost ps: seq<Proc>, ghost recvReq: seq<seq<nat>>,
                 ghost recvDel: seq<seq<nat>>, ghost ss: seq<Status>) returns (ghost ss': seq<Status>)
    requires AllAt(procs, ss) && |ps| == |procs| && Informed(ps, recvReq, recvDel, ss) && asks == Asking(ps)
    modifies AllRepr(procs)
    ensures AllAt(procs, ss') && AllKept(procs) && AllAnswered(ps, recvReq, recvDel, ss')
  {
    if asks {
      var reqs := ReadAllRequests(procs, ps, ss);
      forall i: nat | i < |ps|
        ensures Expects(ps[i], Exchanged(reqs, i), recvReq[i], |ps|)
        ensures Answering(ps[i], Exchanged(reqs, i)) == ps[i].(log := Outgoing(ps, i))
      {
        AsksArrive(ps, recvReq, recvDel, reqs, i);
      }
      ss' := CollectiveSync.AnswerAll(procs, AllExchanged(reqs), ps, ss);
    } else {
      ss' := ss;
      forall i | 0 <= i < |ps| ensures ps[i].log == Outgoing(ps, i) {
        NobodyAsks(ps, i);
      }
    }
  }

  /** The column from p stands for what p ships, and fits the room that q reserved. */
  lemma ColumnFitsRoom(ps: seq<Proc>, p: nat, q: nat, cols: seq<seq<Slot>>, recvReq: nat, recvDel: nat)
    requires World(ps) && p < |ps| && q < |ps| && ToldBy(ps, p, q, recvReq, recvDel)
    requires Ships(ps[p].(log := Outgoing(ps, p)), cols, |ps|)
    ensures Shaped(ps[q], |ps|) && BspSync.Fits(cols[q], Shipped(ps, q)[p], recvDel + DataSize(ps[q].reqs[p]))
  {
    assert Shaped(ps[p], |ps|) && Shaped(ps[q], |ps|);
    assert ColumnOk(cols[q], Outgoing(ps, p)[q]);
    AnswersFit(ps[p].log[q], ps[p].mem, ps[q].reqs[p]);
  }

  /** What the superstep boundary makes of processor q; None if a removal finds no row. */
  ghost predicate Next(ps: seq<Proc>, q: nat, next: Option<Proc>) {
    && World(ps) && q < |ps| && Level(ps, q)
    && next == if SyncMarks(ps, q).Some? then Some(SyncProc(ps, q)) else None
  }

  /** The same, for those who only hand it on. */
  ghost predicate Nexts(ps: seq<Proc>, nexts: seq<Option<Proc>>) {
    |nexts| == |ps| && forall q: nat, x: Option<Proc> :: q < |ps| && x == nexts[q] ==> Next(ps, q, x)
  }

  /** What comes out of the delivery exchange for processor q. */
  lemma DeliveriesArrive(ps: seq<Proc>, recvReq: seq<seq<nat>>, recvDel: seq<seq<nat>>, ss: seq<Status>,
                         dels: seq<seq<seq<Slot>>>, cols: seq<seq<Slot>>, q: nat, next: Option<Proc>)
    requires AllAnswered(ps, recvReq, recvDel, ss) && q < |ps| == |dels| && Next(ps, q, next)
    requires forall p :: 0 <= p < |ps| ==> Ships(ps[p].(log := Outgoing(ps, p)), dels[p], |ps|) && |dels[p]| == |ps|
    requires cols == Exchanged(dels, q)
    ensures Receives(ps, q, cols, Shipped(ps, q), next, ss[q])
  {
    var st, logs := ps[q].(log := Outgoing(ps, q)), Shipped(ps, q);
    assert ToldAt(ps, q, recvReq[q], recvDel[q]) && Shaped(ps[q], |ps|);
    assert BspSync.Boundary(ps, q, st, logs, next);
    forall p: nat | p < |cols| ensures BspSync.Fits(cols[p], logs[p], recvDel[q][p] + DataSize(st.reqs[p])) {
      ColumnFitsRoom(ps, p, q, dels[p], recvReq[q][p], recvDel[q][p]);
    }
  }

  /** What comes out of the delivery exchange. */
  lemma AllArrive(ps: seq<Proc>, recvReq: seq<seq<nat>>, recvDel: seq<seq<nat>>, ss: seq<Status>,
                  dels: seq<seq<seq<Slot>>>, cols: seq<seq<seq<Slot>>>, nexts: seq<Option<Proc>>)
    returns (logs: seq<seq<seq<Record>>>)
    requires AllAnswered(ps, recvReq, recvDel, ss) && |ps| == |dels| && Nexts(ps, nexts)
    requires forall p :: 0 <= p < |ps| ==> Ships(ps[p].(log := Outgoing(ps, p)), dels[p], |ps|) && |dels[p]| == |ps|
    requires cols == AllExchanged(dels)
    ensures |logs| == |ps| && forall q :: 0 <= q < |ps| ==> Receives(ps, q, cols[q], logs[q], nexts[q], ss[q])
  {
    logs := seq(|ps|, q requires 0 <= q < |ps| => Shipped(ps, q));
    forall q | 0 <= q < |ps| ensures Receives(ps, q, cols[q], logs[q], nexts[q], ss[q]) {
      assert Next(ps, q, nexts[q]);
      DeliveriesArrive(ps, recvReq, recvDel, ss, dels, cols[q], q, nexts[q]);
    }
  }

  /** The deliveries of all processors, exchanged. */
  method ShipColumns(procs: seq<Process>, ghost ps: seq<Proc>, ghost recvReq: seq<seq<nat>>,
                     ghost recvDel: seq<seq<nat>>,
                     ghost ss: seq<Status>, ghost nexts: seq<Option<Proc>>)
    returns (cols: seq<seq<seq<Slot>>>, ghost logs: seq<seq<seq<Record>>>)
    requires AllAt(procs, ss) && |ps| == |procs| && AllAnswered(ps, recvReq, recvDel, ss) && Nexts(ps, nexts)
    ensures |cols| == |logs| == |ps| && forall q :: 0 <= q < |ps| ==> Receives(ps, q, cols[q], logs[q], nexts[q], ss[q])
  {
    ghost var sent := seq(|ps|, p requires 0 <= p < |ps| => ps[p].(log := Outgoing(ps, p)));
    var dels := ReadAllDeliveries(procs, sent, ss);
    forall p | 0 <= p < |ps| ensures |dels[p]| == |ps| && Ships(ps[p].(log := Outgoing(ps, p)), dels[p], |ps|) {
      assert Ships(sent[p], dels[p], |ps|);
    }
    cols := AllExchanged(dels);
    logs := AllArrive(ps, recvReq, recvDel, ss, dels, cols, nexts);
  }

  lemma AllNexts(ps: seq<Proc>) returns (nexts: seq<Option<Proc>>)
    requires World(ps) && forall i: nat :: i < |ps| ==> Level(ps, i)
    ensures Nexts(ps, nexts)
    ensures (forall i | 0 <= i < |ps| :: nexts[i].Some?) == forall i: nat | i < |ps| :: SyncDefined(ps, i)
    ensures (forall i | 0 <= i < |ps| :: nexts[i].Some?) ==> forall i | 0 <= i < |ps| :: nexts[i] == Some(Synced(ps)[i])
  {
    nexts := seq(|ps|, q requires 0 <= q < |ps| => if SyncMarks(ps, q).Some? then Some(SyncProc(ps, q)) else None);
    forall q: nat | q < |ps| ensures Next(ps, q, nexts[q]) && nexts[q].Some? == SyncDefined(ps, q) {
      assert Level(ps, q);
    }
  }

  /** Up to and including the answers. */
  method Prepare(procs: seq<Process>, ghost ps: seq<Proc>, ghost ss: seq<Status>)
    returns (ghost recvReq: seq<seq<nat>>, ghost recvDel: seq<seq<nat>>, ghost ss': seq<Status>)
    requires AllAt(procs, ss) && World(ps) && |ps| == |procs| && forall i :: 0 <= i < |ps| ==>
      ss[i] == Status(Between, ps[i])
    modifies AllRepr(procs)
    ensures AllAt(procs, ss') && AllKept(procs) && AllAnswered(ps, recvReq, recvDel, ss')
  {
    ghost var informed;
    var asks;
    asks, recvReq, recvDel, informed := Inform(procs, ps, ss);
    ss' := Request(procs, asks, ps, recvReq, recvDel, informed);
  }

  /** The exchanges, from the information exchange on. */
  method SyncTo(procs: seq<Process>, ghost ps: seq<Proc>, ghost ss: seq<Status>, ghost nexts: seq<Option<Proc>>)
    returns (ok: bool, ghost ss': seq<Status>)
    requires AllAt(procs, ss) && World(ps) && |ps| == |procs| && forall i :: 0 <= i < |ps| ==>
      ss[i] == Status(Between, ps[i])
    requires Nexts(ps, nexts)
    modifies AllRepr(procs)
    ensures ok == forall i | 0 <= i < |ps| :: nexts[i].Some?
    ensures ok ==> AllAt(procs, ss') && AllKept(procs)
    ensures ok ==> forall i :: 0 <= i < |ps| ==> ss'[i] == Status(Between, nexts[i].value)
  {
    ghost var recvReq, recvDel, answered := Prepare(procs, ps, ss);
    ok, ss' := Ship(procs, ps, recvReq, recvDel, answered, nexts);
  }

  /** The delivery exchange and what follows it. */
  method Ship(procs: seq<Process>, ghost ps: seq<Proc>, ghost recvReq: seq<seq<nat>>, ghost recvDel: seq<seq<nat>>,
              ghost ss: seq<Status>, ghost nexts: seq<Option<Proc>>) returns (ok: bool, ghost ss': seq<Status>)
    requires AllAt(procs, ss) && |ps| == |procs| && AllAnswered(ps, recvReq, recvDel, ss) && Nexts(ps, nexts)
    modifies AllRepr(procs)
    ensures ok == forall i | 0 <= i < |ps| :: nexts[i].Some?
    ensures ok ==> AllAt(procs, ss') && AllKept(procs)
    ensures ok ==> forall i :: 0 <= i < |ps| ==> ss'[i] == Status(Between, nexts[i].value)
  {
    var cols, logs := ShipColumns(procs, ps, recvReq, recvDel, ss, nexts);
    ok, ss' := DeliverAll(procs, cols, ps, logs, nexts, ss);
  }

  /** bspx_sync of all processors: from their states before the superstep boundary to the abstract states behind it,
    * unless a removal finds no row. */
  method SyncAll(procs: seq<Process>, ghost ps: seq<Proc>) returns (ok: bool)
    requires World(ps) && |ps| == |procs| && AllAt(procs, InPhase(Between, ps)) && forall i: nat :: i < |ps| ==>
      Level(ps, i)
    modifies AllRepr(procs)
    ensures ok == forall i: nat | i < |ps| :: SyncDefined(ps, i)
    ensures ok ==> AllAt(procs, InPhase(Between, Synced(ps))) && AllKept(procs)
  {
    ghost var nexts := AllNexts(ps);
    ghost var ss';
    ok, ss' := SyncTo(procs, ps, InPhase(Between, ps), nexts);
    assert ok ==> ss' == InPhase(Between, Synced(ps));
  }
}
