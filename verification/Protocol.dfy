/** All processors running a BSP program, in any interleaving: each processor makes its
  * calls, and bspx_sync takes it through up to three collective exchanges. An exchange is
  * left when every processor has entered it (MPI_Alltoall and MPI_Alltoallv); there is no
  * other synchronisation, so processors may be in different exchanges or supersteps. */
module Protocol {
  import opened Columns
  import opened Registers
  import opened Requests
  import opened Supersteps

  /** The calls of every processor in every superstep. */
  type Program = seq<seq<seq<Call>>>

  /** Where a processor is: at its i-th call, or in one of the three exchanges. */
  datatype Pc = Computing(i: nat) | Informed | Asked | Shipping

  datatype Node = Node(k: nat, pc: Pc, st: Proc, reserved: seq<nat>)

  /** send_index: how much every processor is asked and sent, and whether any is asked. */
  datatype Notice = Notice(requests: seq<nat>, slots: seq<nat>, anyGets: bool)

  /** What has entered the exchanges of superstep k from processor p, by (k, p). */
  datatype Net = Net(nodes: seq<Node>, notices: map<(nat, nat), Notice>,
                     requests: map<(nat, nat), seq<seq<Request>>>, deliveries: map<(nat, nat), seq<seq<Record>>>)

  // ----- one step of one processor -----

  function NoticeOf(st: Proc): Notice {
    Notice(seq(|st.reqs|, p requires 0 <= p < |st.reqs| => |st.reqs[p]|),
           seq(|st.log|, p requires 0 <= p < |st.log| => Size(st.log[p])),
           AsksAnybody(st))
  }

  predicate AllIn<T>(m: map<(nat, nat), T>, k: nat, n: nat) {
    forall p: nat | p < n :: (k, p) in m
  }

  /** The or of the received flags. */
  predicate AnyGets(s: Net, k: nat)
    requires AllIn(s.notices, k, |s.nodes|)
  {
    exists p: nat | p < |s.nodes| :: s.notices[(k, p)].anyGets
  }

  /** Row q of what everybody sent. */
  function Row<T>(m: map<(nat, nat), seq<seq<T>>>, k: nat, n: nat, q: nat): (r: seq<seq<T>>)
    requires AllIn(m, k, n)
    ensures |r| == n
  {
    seq(n, p requires 0 <= p < n => if q < |m[(k, p)]| then m[(k, p)][q] else [])
  }

  /** Slots reserved for each sender: what it announced, and one per byte asked of it. */
  function Room(s: Net, k: nat, q: nat): (r: seq<nat>)
    requires AllIn(s.notices, k, |s.nodes|) && q < |s.nodes|
  {
    seq(|s.nodes|, p requires 0 <= p < |s.nodes| =>
      var slots := s.notices[(k, p)].slots;
      (if q < |slots| then slots[q] else 0) + (if p < |s.nodes[q].st.reqs| then DataSize(s.nodes[q].st.reqs[p]) else 0))
  }

  ghost predicate Enabled(prog: Program, s: Net, q: nat) {
    && q < |s.nodes|
    && var n, node := |s.nodes|, s.nodes[q];
    && node.k < |prog| && q < |prog[node.k]|
    && Shaped(node.st, n)
    && match node.pc
       case Computing(i) => i < |prog[node.k][q]| ==> Legal(node.st, q, n, prog[node.k][q][i])
       case Informed => AllIn(s.notices, node.k, n)
       case Asked => AllIn(s.requests, node.k, n)
       case Shipping => AllIn(s.deliveries, node.k, n) && Deliver(node.st, q, Row(s.deliveries, node.k, n, q)).Some?
  }

  function Step(prog: Program, s: Net, q: nat): (s': Net)
    requires Enabled(prog, s, q)
    ensures |s'.nodes| == |s.nodes|
  {
    var n, node := |s.nodes|, s.nodes[q];
    var k, st := node.k, node.st;
    match node.pc
    case Computing(i) =>
      if i < |prog[k][q]| then
        s.(nodes := s.nodes[q := node.(st := Apply(st, q, prog[k][q][i]), pc := Computing(i + 1))])
      else
        s.(nodes := s.nodes[q := node.(pc := Informed)], notices := s.notices[(k, q) := NoticeOf(st)])
    case Informed =>
      var ready := node.(reserved := Room(s, k, q));
      if AnyGets(s, k) then
        s.(nodes := s.nodes[q := ready.(pc := Asked)], requests := s.requests[(k, q) := st.reqs])
      else
        s.(nodes := s.nodes[q := ready.(pc := Shipping)], deliveries := s.deliveries[(k, q) := st.log])
    case Asked =>
      var log := Answered(st.log, st.mem, Row(s.requests, k, n, q), n);
      s.(nodes := s.nodes[q := node.(pc := Shipping, st := st.(log := log))], deliveries := s.deliveries[(k, q) := log])
    case Shipping =>
      var st' := Deliver(st, q, Row(s.deliveries, k, n, q)).value;
      s.(nodes := s.nodes[q := Node(k + 1, Computing(0), st', [])])
  }

  // ----- the synchronous meaning of a program -----

  /** A call's effect, and no effect where the library does not allow the call. */
  ghost function Do(st: Proc, q: nat, n: nat, call: Call): (st': Proc)
    ensures Shaped(st, n) ==> Shaped(st', n)
  {
    if Shaped(st, n) && q < n && Legal(st, q, n, call) then
      ApplyShaped(st, q, n, call);
      Apply(st, q, call)
    else st
  }

  ghost function DoAll(st: Proc, q: nat, n: nat, calls: seq<Call>): (st': Proc)
    ensures Shaped(st, n) ==> Shaped(st', n)
  {
    if calls == [] then st
    else Do(DoAll(st, q, n, calls[..|calls| - 1]), q, n, calls[|calls| - 1])
  }

  ghost predicate LegalAll(st: Proc, q: nat, n: nat, calls: seq<Call>)
    requires Shaped(st, n) && q < n
  {
    forall i: nat | i < |calls| :: Legal(DoAll(st, q, n, calls[..i]), q, n, calls[i])
  }

  /** All processors at the end of the calls of one superstep. */
  ghost function Computed(ps: seq<Proc>, calls: seq<seq<Call>>): (ps': seq<Proc>)
    ensures |ps'| == |ps| && (World(ps) ==> World(ps'))
  {
    var n := |ps|;
    var ps' := seq(n, q requires 0 <= q < n => DoAll(ps[q], q, n, if q < |calls| then calls[q] else []));
    assert World(ps) ==> World(ps') by {
      if World(ps) {
        forall p: nat | p < n ensures Shaped(ps'[p], n) { assert Shaped(ps[p], n); }
      }
    }
    ps'
  }

  ghost function Synced(ps: seq<Proc>): (ps': seq<Proc>)
    ensures |ps'| == |ps| && (World(ps) ==> World(ps'))
  {
    var n := |ps|;
    var ps' := seq(n, q requires 0 <= q < n => if World(ps) && SyncDefined(ps, q) then SyncProc(ps, q) else ps[q]);
    assert World(ps) ==> World(ps') by {
      if World(ps) {
        forall p: nat | p < n ensures Shaped(ps'[p], n) { assert Shaped(ps[p], n); }
      }
    }
    ps'
  }

  /** All processors at the start of superstep k. */
  ghost function AtStart(prog: Program, init: seq<Proc>, k: nat): (ps: seq<Proc>)
    ensures |ps| == |init| && (World(init) ==> World(ps))
    decreases k, 0
  {
    if k == 0 then init else Synced(AtEnd(prog, init, k - 1))
  }

  /** All processors at the end of superstep k, before the boundary. */
  ghost function AtEnd(prog: Program, init: seq<Proc>, k: nat): (ps: seq<Proc>)
    ensures |ps| == |init| && (World(init) ==> World(ps))
    decreases k, 1
  {
    Computed(AtStart(prog, init, k), if k < |prog| then prog[k] else [])
  }

  /** Superstep k of a program that keeps to the rules of the library: calls are legal,
    * removals find their row and all processors register equally often. */
  ghost predicate LegalStep(prog: Program, init: seq<Proc>, k: nat)
    requires World(init) && k < |prog|
  {
    && |prog[k]| == |init|
    && (forall q: nat | q < |init| :: LegalNode(prog, init, k, q))
  }

  ghost predicate LegalNode(prog: Program, init: seq<Proc>, k: nat, q: nat)
    requires World(init) && k < |prog| && |prog[k]| == |init| && q < |init|
  {
    assert Shaped(AtStart(prog, init, k)[q], |init|);
    LegalAll(AtStart(prog, init, k)[q], q, |init|, prog[k][q]) && SyncDefined(AtEnd(prog, init, k), q)
  }

  ghost predicate LegalProgram(prog: Program, init: seq<Proc>) {
    World(init) && forall k: nat | k < |prog| :: LegalStep(prog, init, k)
  }
}
