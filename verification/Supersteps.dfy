/** The meaning of a BSP program: what each call adds to the state of its processor, and
  * what a superstep boundary makes of the states of all processors. */
module Supersteps {
  import opened Columns
  import opened Threads
  import opened Memories
  import opened Registers
  import opened MessageQueues
  import opened Delivery
  import opened DeliveryExecute
  import opened Requests

  /** One processor: its memory, what it has logged for the others, its registered
    * addresses by processor, the messages it can still move, the two tag sizes, and the
    * number of bytes that it counts in its queue. */
  datatype Proc = Proc(mem: Memory, log: seq<seq<Record>>, reqs: seq<seq<Request>>, reg: seq<seq<int>>,
                       queue: seq<Record>, recvTag: nat, sendTag: nat, queued: int)

  /** Processors that all know how many they are. */
  ghost predicate World(ps: seq<Proc>) {
    forall p: nat | p < |ps| :: Shaped(ps[p], |ps|)
  }

  datatype Call =
    | PutCall(pid: nat, src: int, dst: int, offset: int, nbytes: nat)
    | GetCall(pid: nat, src: int, offset: int, dst: int, nbytes: nat)
    | SendCall(pid: nat, message: Message)
    | PushRegCall(ident: int)
    | PopRegCall(ident: int)
    | SetTagSizeCall(size: nat)
    | HpMoveCall
    | ComputeCall(result: Memory)

  /** A state whose tables have a column for each of n processors. */
  ghost predicate Shaped(st: Proc, n: nat) {
    && |st.log| == n && |st.reqs| == n && |st.reg| == n
    && forall p: nat, q: nat | p < n && q < n :: |st.reg[p]| == |st.reg[q]|
  }

  /** What the library demands of a call: known processors, registered addresses and
    * tags of the current size. */
  ghost predicate Legal(st: Proc, rank: nat, n: nat, call: Call)
    requires Shaped(st, n) && rank < n
  {
    match call
    case PutCall(pid, _, dst, _, _) => pid < n && dst in st.reg[rank]
    case GetCall(pid, src, _, _, _) => pid < n && src in st.reg[rank]
    case SendCall(pid, m) => pid < n && |m.tag| == st.sendTag
    case _ => true
  }

  /** The remote address registered together with a local one. */
  function Remote(st: Proc, rank: nat, pid: nat, address: int): int
    requires rank < |st.reg| && pid < |st.reg| && |st.reg[pid]| == |st.reg[rank]| && address in st.reg[rank]
  {
    LiveAddress(st.reg[rank], address);
    Translate(st.reg, NoneRemoved(|st.reg[rank]|), rank, pid, address).value
  }

  lemma LiveAddress(col: seq<int>, address: int)
    requires address in col
    ensures LastLive(col, NoneRemoved(|col|), address).Some?
  {
    var k :| 0 <= k < |col| && col[k] == address;
    assert !NoneRemoved(|col|)[k];
  }

  /** This processor has logged a get. */
  predicate AsksAnybody(st: Proc) {
    exists p: nat | p < |st.reqs| :: st.reqs[p] != []
  }

  /** Some processor has. */
  predicate Asking(ps: seq<Proc>) {
    exists p: nat | p < |ps| :: AsksAnybody(ps[p])
  }

  function Logged(st: Proc, pid: nat, rec: Record): Proc
    requires pid < |st.log|
  {
    st.(log := st.log[pid := st.log[pid] + [rec]])
  }

  /** A registration is logged for every processor. */
  function LoggedForAll(log: seq<seq<Record>>, rec: Record, n: nat): (r: seq<seq<Record>>)
    requires n <= |log|
    ensures |r| == |log|
  {
    seq(|log|, p requires 0 <= p < |log| => if p < n then log[p] + [rec] else log[p])
  }

  /** The states while a registration is logged for one processor after another. */
  lemma LoggingForAll(st: Proc, rec: Record) returns (states: seq<Proc>)
    ensures |states| == |st.log| + 1 && states[0] == st
    ensures states[|st.log|] == st.(log := LoggedForAll(st.log, rec, |st.log|))
    ensures forall i: nat | i < |st.log| :: IsLogged(states[i], states[i + 1], i, rec)
  {
    states := seq(|st.log| + 1, i requires 0 <= i <= |st.log| => st.(log := LoggedForAll(st.log, rec, i)));
    assert LoggedForAll(st.log, rec, 0) == st.log;
    forall i: nat | i < |st.log| ensures IsLogged(states[i], states[i + 1], i, rec) {
      var now := LoggedForAll(st.log, rec, i);
      assert LoggedForAll(st.log, rec, i + 1) == now[i := now[i] + [rec]];
    }
  }

  ghost predicate IsLogged(st: Proc, st': Proc, i: nat, rec: Record) {
    i < |st.log| && st' == Logged(st, i, rec)
  }

  /** The state of a processor after one of its calls. */
  function Apply(st: Proc, rank: nat, call: Call): Proc
    requires Shaped(st, |st.log|) && rank < |st.log| && Legal(st, rank, |st.log|, call)
  {
    match call
    case PutCall(pid, src, dst, offset, nbytes) =>
      Logged(st, pid, Record(Put(Remote(st, rank, pid, dst) + offset), ReadBytes(st.mem, src, nbytes)))
    case GetCall(pid, src, offset, dst, nbytes) =>
      st.(reqs := st.reqs[pid := st.reqs[pid] + [Request(nbytes, offset, Remote(st, rank, pid, src), dst)]])
    case SendCall(pid, m) => Logged(st, pid, SendRecord(m))
    case PushRegCall(ident) => st.(log := LoggedForAll(st.log, Record(PushReg(ident), []), |st.log|))
    case PopRegCall(ident) => Logged(st, rank, Record(PopReg(ident), []))
    case SetTagSizeCall(size) => Logged(st, rank, Record(SetTag(size), []))
    case HpMoveCall =>
      if st.queue == [] then st else st.(queue := st.queue[1..], queued := st.queued - Payloads(st.queue[..1]))
    case ComputeCall(result) => st.(mem := result)
  }

  // ----- the superstep boundary -----

  /** What all processors have logged for processor q. */
  function Inbox(ps: seq<Proc>, q: nat): (logs: seq<seq<Record>>)
    requires World(ps) && q < |ps|
    ensures |logs| == |ps|
  {
    assert forall p: nat | p < |ps| :: Shaped(ps[p], |ps|);
    seq(|ps|, p requires 0 <= p < |ps| => ps[p].log[q])
  }

  /** Memory of q: for each processor p in turn, p's puts to q in the order of the calls
    * and then the answers to q's gets from p; an answer is what p held before. */
  function SyncMemory(ps: seq<Proc>, q: nat, n: nat): Memory
    requires n <= |ps| && q < |ps| && World(ps)
  {
    if n == 0 then ps[q].mem
    else
      var p := n - 1;
      PutAll(PutAll(SyncMemory(ps, q, p), Select(ps[p].log[q], PutItem)), Answers(ps[p].mem, ps[q].reqs[p]))
  }

  /** Register columns of q with the new registrations. */
  function NewColumns(ps: seq<Proc>, q: nat): (cols: seq<seq<int>>)
    requires q < |ps| && World(ps)
    ensures |cols| == |ps|
  {
    assert Shaped(ps[q], |ps|);
    Pushed(ps[q].reg, Inbox(ps, q), |ps|)
  }

  /** The rows that q's removals mark; None if an address is not registered. */
  function SyncMarks(ps: seq<Proc>, q: nat): (marks: Option<seq<bool>>)
    requires q < |ps| && World(ps)
    ensures marks.Some? ==> |marks.value| == |NewColumns(ps, q)[q]|
  {
    var col := NewColumns(ps, q)[q];
    PopMarks(col, NoneRemoved(|col|), Addresses(Select(ps[q].log[q], PopRegItem)))
  }

  /** All processors register equally often. */
  ghost predicate Level(ps: seq<Proc>, q: nat)
    requires q < |ps| && World(ps)
  {
    var cols := NewColumns(ps, q);
    forall p: nat | p < |ps| :: |cols[p]| == |cols[q]|
  }

  /** In addition, every removal finds its row. */
  ghost predicate SyncDefined(ps: seq<Proc>, q: nat)
    requires q < |ps| && World(ps)
  {
    SyncMarks(ps, q).Some? && Level(ps, q)
  }

  function Empty<T>(n: nat): seq<seq<T>> {
    seq(n, _ => [])
  }

  /** Processor q behind the superstep boundary. */
  function SyncProc(ps: seq<Proc>, q: nat): (st: Proc)
    requires q < |ps| && World(ps) && SyncDefined(ps, q)
    ensures Shaped(st, |ps|)
  {
    var cols, marks := NewColumns(ps, q), SyncMarks(ps, q).value;
    var st := Proc(SyncMemory(ps, q, |ps|), Empty(|ps|), Empty(|ps|), KeepAll(cols, marks),
                   AllOf(Inbox(ps, q), SendItem), ps[q].sendTag,
                   LastTag(Select(ps[q].log[q], SetTagItem), ps[q].sendTag), Bytes(AllOf(Inbox(ps, q), SendItem)));
    assert forall p: nat | p < |ps| :: |st.reg[p]| == |st.reg[q]| by {
      forall p: nat | p < |ps| ensures |st.reg[p]| == |marks| - Removals(marks) {
        assert marks[..|cols[p]|] == marks;
      }
    }
    st
  }

  lemma SyncProcIs(ps: seq<Proc>, q: nat, marks: seq<bool>)
    requires q < |ps| && World(ps) && Level(ps, q) && SyncMarks(ps, q) == Some(marks)
    ensures |NewColumns(ps, q)| == |ps| && forall p | 0 <= p < |ps| :: |NewColumns(ps, q)[p]| == |marks|
    ensures SyncProc(ps, q) ==
      Proc(SyncMemory(ps, q, |ps|), Empty(|ps|), Empty(|ps|), KeepAll(NewColumns(ps, q), marks),
                                    AllOf(Inbox(ps, q), SendItem), ps[q].sendTag,
                                    LastTag(Select(ps[q].log[q], SetTagItem), ps[q].sendTag),
                                    Bytes(AllOf(Inbox(ps, q), SendItem)))
  {
  }

  // ----- from the records that are shipped to the meaning -----

  lemma {:induction false} SelectConcat(a: seq<Record>, b: seq<Record>, t: ItemType)
    ensures Select(a + b, t) == Select(a, t) + Select(b, t)
  {
    if b == [] {
      assert a + b == a;
    } else {
      var last := |b| - 1;
      var c, rec := b[..last], b[last];
      SelectConcat(a, c, t);
      assert a + b == (a + c) + [rec] && b == c + [rec];
      Append(a + c, rec, t);
      Append(c, rec, t);
    }
  }

  lemma {:induction false} SelectAnswers(mem: Memory, reqs: seq<Request>, t: ItemType)
    ensures Select(Answers(mem, reqs), t) == if t == PutItem then Answers(mem, reqs) else []
  {
    var r := Answers(mem, reqs);
    if reqs != [] {
      var last := |reqs| - 1;
      SelectAnswers(mem, reqs[..last], t);
      assert r[..last] == Answers(mem, reqs[..last]);
    }
  }

  /** What q receives in the end: the logs, with the answers to q's gets behind them. */
  function Shipped(ps: seq<Proc>, q: nat): (logs: seq<seq<Record>>)
    requires q < |ps| && World(ps)
    ensures |logs| == |ps|
  {
    assert forall p: nat | p < |ps| :: Shaped(ps[p], |ps|);
    seq(|ps|, p requires 0 <= p < |ps| => ps[p].log[q] + Answers(ps[p].mem, ps[q].reqs[p]))
  }

  lemma ShippedSelect(ps: seq<Proc>, q: nat, p: nat, t: ItemType)
    requires q < |ps| && p < |ps| && World(ps)
    ensures Select(Shipped(ps, q)[p], t) == Select(ps[p].log[q], t) + if t == PutItem
      then Answers(ps[p].mem, ps[q].reqs[p]) else []
  {
    SelectConcat(ps[p].log[q], Answers(ps[p].mem, ps[q].reqs[p]), t);
    SelectAnswers(ps[p].mem, ps[q].reqs[p], t);
  }

  /** Executing the puts of everything shipped is the memory of the abstract superstep. */
  lemma {:induction false} ShippedMemory(ps: seq<Proc>, q: nat, n: nat)
    requires n <= |ps| && q < |ps| && World(ps)
    ensures PutAll(ps[q].mem, AllOf(Shipped(ps, q)[..n], PutItem)) == SyncMemory(ps, q, n)
  {
    if n > 0 {
      var p := n - 1;
      var before, puts, answers := AllOf(Shipped(ps, q)[..p], PutItem), Select(ps[p].log[q], PutItem),
        Answers(ps[p].mem, ps[q].reqs[p]);
      ShippedMemory(ps, q, p);
      AllOfStep(Shipped(ps, q), p, PutItem);
      ShippedSelect(ps, q, p, PutItem);
      PutAllConcat(ps[q].mem, before, puts + answers);
      PutAllConcat(PutAll(ps[q].mem, before), puts, answers);
    }
  }

  /** Answers add no messages. */
  lemma {:induction false} ShippedSends(ps: seq<Proc>, q: nat, n: nat)
    requires n <= |ps| && q < |ps| && World(ps)
    ensures AllOf(Shipped(ps, q)[..n], SendItem) == AllOf(Inbox(ps, q)[..n], SendItem)
  {
    if n > 0 {
      var p, shipped, inbox := n - 1, Shipped(ps, q), Inbox(ps, q);
      ShippedSends(ps, q, p);
      AllOfStep(shipped, p, SendItem);
      AllOfStep(inbox, p, SendItem);
      assert Select(shipped[p], SendItem) == Select(inbox[p], SendItem) by {
        ShippedSelect(ps, q, p, SendItem);
      }
    }
  }

  /** Answers add no registrations. */
  lemma ShippedPushes(ps: seq<Proc>, q: nat)
    requires q < |ps| && World(ps)
    ensures Pushed(ps[q].reg, Shipped(ps, q), |ps|) == NewColumns(ps, q)
  {
    forall p: nat | p < |ps|
      ensures Pushed(ps[q].reg, Shipped(ps, q), |ps|)[p] == NewColumns(ps, q)[p]
    {
      ShippedSelect(ps, q, p, PushRegItem);
    }
  }

  /** deliveryTable_execute on what was shipped computes the abstract memory, queue and
    * register columns ... */
  lemma ShippedOutcome(ps: seq<Proc>, q: nat, rows: nat, shipped: seq<seq<Record>>) returns (o: Outcome)
    requires q < |ps| && World(ps) && shipped == Shipped(ps, q)
    ensures |ps[q].reg| == |ps| && o == Outcomes(rows, shipped, |ps|, ps[q].mem, ps[q].reg)
    ensures o == Outcome(SyncMemory(ps, q, |ps|), NewColumns(ps, q), SendSpots(rows, shipped, |ps|),
      AllOf(Inbox(ps, q), SendItem))
  {
    assert Shaped(ps[q], |ps|);
    o := Outcomes(rows, shipped, |ps|, ps[q].mem, ps[q].reg);
    ShippedMemory(ps, q, |ps|);
    ShippedSends(ps, q, |ps|);
    ShippedPushes(ps, q);
    assert Inbox(ps, q)[..|ps|] == Inbox(ps, q);
  }

  /** ... and it finds the removals and tag sizes that q itself has logged. */
  lemma ShippedLocal(ps: seq<Proc>, q: nat)
    requires q < |ps| && World(ps)
    ensures Shaped(ps[q], |ps|)
    ensures Select(Shipped(ps, q)[q], PopRegItem) == Select(ps[q].log[q], PopRegItem)
    ensures Select(Shipped(ps, q)[q], SetTagItem) == Select(ps[q].log[q], SetTagItem)
  {
    ShippedSelect(ps, q, q, PopRegItem);
    ShippedSelect(ps, q, q, SetTagItem);
  }

  // ----- what one processor computes from what it receives -----

  /** The state of processor q when it has executed what it received. */
  function Deliver(st: Proc, q: nat, logs: seq<seq<Record>>): (r: Option<Proc>)
    requires q < |logs| == |st.reg|
  {
    var n := |logs|;
    var cols := Pushed(st.reg, logs, n);
    match PopMarks(cols[q], NoneRemoved(|cols[q]|), Addresses(Select(logs[q], PopRegItem)))
    case None => None
    case Some(marks) =>
      if forall p | 0 <= p < n :: |cols[p]| == |marks| then
        Some(Proc(PutAll(st.mem, AllOf(logs, PutItem)), Empty(n), Empty(n), KeepAll(cols, marks), AllOf(logs, SendItem),
                  st.sendTag, LastTag(Select(logs[q], SetTagItem), st.sendTag), Bytes(AllOf(logs, SendItem))))
      else None
  }

  /** Received and executed, the shipped logs give the abstract superstep. */
  lemma DeliverShipped(ps: seq<Proc>, q: nat, st: Proc)
    requires q < |ps| && World(ps) && SyncDefined(ps, q) && st == ps[q].(log := st.log)
    ensures |st.reg| == |ps| && Deliver(st, q, Shipped(ps, q)) == Some(SyncProc(ps, q))
  {
    var shipped := Shipped(ps, q);
    var o := ShippedOutcome(ps, q, 0, shipped);
    ShippedLocal(ps, q);
    SyncProcIs(ps, q, SyncMarks(ps, q).value);
    assert shipped[..|ps|] == shipped;
  }

  /** What processor p ships to everybody once it has answered. */
  function Outgoing(ps: seq<Proc>, p: nat): (logs: seq<seq<Record>>)
    requires p < |ps| && World(ps)
    ensures |logs| == |ps|
  {
    assert forall r: nat | r < |ps| :: Shaped(ps[r], |ps|);
    seq(|ps|, r requires 0 <= r < |ps| => ps[p].log[r] + Answers(ps[p].mem, ps[r].reqs[p]))
  }

  /** A legal call keeps the shape of a state. */
  lemma ApplyShaped(st: Proc, rank: nat, n: nat, call: Call)
    requires Shaped(st, n) && rank < n && Legal(st, rank, n, call)
    ensures Shaped(Apply(st, rank, call), n)
  {
  }
}
