/** Whatever the interleaving, every processor computes what the synchronous meaning of
  * the program says, no exchange overflows, and no processor waits for ever. */
module Interleavings {
  import opened Columns
  import opened Registers
  import opened Requests
  import opened Supersteps
  import opened Protocol

  /** How far a node is: four stages per superstep. */
  function Stage(node: Node): nat {
    4 * node.k + match node.pc
                 case Computing(_) => 0
                 case Informed => 1
                 case Asked => 2
                 case Shipping => 3
  }

  /** A node is where the synchronous meaning has it. */
  ghost predicate NodeOk(prog: Program, init: seq<Proc>, node: Node, q: nat)
    requires LegalProgram(prog, init) && q < |init|
  {
    var n, k := |init|, node.k;
    && k <= |prog|
    && (match node.pc
        case Computing(i) =>
          if k == |prog| then i == 0 && node.st == AtStart(prog, init, k)[q]
          else |prog[k]| == n && i <= |prog[k][q]| && node.st == DoAll(AtStart(prog, init, k)[q], q, n, prog[k][q][..i])
        case Informed => k < |prog| && node.st == AtEnd(prog, init, k)[q]
        case Asked => k < |prog| && node.st == AtEnd(prog, init, k)[q] && Asking(AtEnd(prog, init, k))
        case Shipping => k < |prog| && node.st == AtEnd(prog, init, k)[q].(log := Outgoing(AtEnd(prog, init, k), q)))
    && (node.pc.Asked? || node.pc.Shipping? ==> RoomOk(AtEnd(prog, init, k), node, q))
  }

  /** The room q has reserved for p: the slots p announced, plus one per byte that q
    * itself asked of p. */
  ghost predicate RoomOk(ps: seq<Proc>, node: Node, q: nat)
    requires World(ps) && q < |ps|
  {
    && |node.reserved| == |ps|
    && forall p: nat | p < |ps| :: RoomFor(ps, node.reserved, p, q)
  }

  ghost predicate RoomFor(ps: seq<Proc>, reserved: seq<nat>, p: nat, q: nat)
    requires World(ps) && q < |ps| && p < |ps| == |reserved|
  {
    assert Shaped(ps[p], |ps|) && Shaped(ps[q], |ps|);
    reserved[p] == Size(ps[p].log[q]) + DataSize(ps[q].reqs[p])
  }

  /** What processor p has put into the exchanges of superstep k, and nothing else. */
  ghost predicate WireOk(prog: Program, init: seq<Proc>, s: Net, k: nat, p: nat)
    requires LegalProgram(prog, init) && p < |init| == |s.nodes| && k < |prog|
  {
    var ps, stage := AtEnd(prog, init, k), Stage(s.nodes[p]);
    && ((k, p) in s.notices <==> stage > 4 * k)
    && ((k, p) in s.notices ==> s.notices[(k, p)] == NoticeOf(ps[p]))
    && ((k, p) in s.requests <==> stage > 4 * k + 1 && Asking(ps))
    && ((k, p) in s.requests ==> s.requests[(k, p)] == ps[p].reqs)
    && ((k, p) in s.deliveries <==> stage > 4 * k + 2)
    && ((k, p) in s.deliveries ==> s.deliveries[(k, p)] == Outgoing(ps, p))
  }

  ghost predicate Inv(prog: Program, init: seq<Proc>, s: Net)
    requires LegalProgram(prog, init)
  {
    && |s.nodes| == |init|
    && (forall q: nat | q < |init| :: NodeOk(prog, init, s.nodes[q], q))
    && (forall k: nat, p: nat | k < |prog| && p < |init| :: WireOk(prog, init, s, k, p))
  }

  function Initial(init: seq<Proc>): (s: Net)
    ensures |s.nodes| == |init|
  {
    Net(seq(|init|, q requires 0 <= q < |init| => Node(0, Computing(0), init[q], [])), map[], map[], map[])
  }

  lemma InitialOk(prog: Program, init: seq<Proc>)
    requires LegalProgram(prog, init)
    ensures Inv(prog, init, Initial(init))
  {
    forall q: nat | q < |init| ensures NodeOk(prog, init, Initial(init).nodes[q], q) {
      if |prog| > 0 { assert LegalStep(prog, init, 0); }
    }
  }

  // ----- steps that leave the exchanges alone -----

  /** A node that stays in its stage says nothing new to the others. */
  lemma StageKept(prog: Program, init: seq<Proc>, s: Net, s': Net, q: nat)
    requires LegalProgram(prog, init) && Inv(prog, init, s) && q < |init|
    requires |s'.nodes| == |init| && s' == s.(nodes := s.nodes[q := s'.nodes[q]])
    requires Stage(s'.nodes[q]) == Stage(s.nodes[q]) && NodeOk(prog, init, s'.nodes[q], q)
    ensures Inv(prog, init, s')
  {
    forall k: nat, p: nat | k < |prog| && p < |init| ensures WireOk(prog, init, s', k, p) {
      assert WireOk(prog, init, s, k, p);
    }
  }

  /** A step of node q leaves alone what entered the other exchanges. */
  lemma WireKept(prog: Program, init: seq<Proc>, s: Net, s': Net, q: nat, k: nat, p: nat)
    requires LegalProgram(prog, init) && |s.nodes| == |s'.nodes| == |init| && p < |init| && q < |init| && k < |prog|
    requires WireOk(prog, init, s, k, p)
    requires SameSide(Stage(s.nodes[p]), Stage(s'.nodes[p]), k)
    requires Agree(s.notices, s'.notices, k, p) && Agree(s.requests, s'.requests, k, p)
      && Agree(s.deliveries, s'.deliveries, k, p)
    ensures WireOk(prog, init, s', k, p)
  {
  }

  /** Neither of two stages is past an exchange of superstep k that the other is not. */
  predicate SameSide(a: nat, b: nat, k: nat) {
    && (a > 4 * k <==> b > 4 * k)
    && (a > 4 * k + 1 <==> b > 4 * k + 1)
    && (a > 4 * k + 2 <==> b > 4 * k + 2)
  }

  ghost predicate Agree<T>(m: map<(nat, nat), T>, m': map<(nat, nat), T>, k: nat, p: nat) {
    ((k, p) in m <==> (k, p) in m') && ((k, p) in m ==> m'[(k, p)] == m[(k, p)])
  }

  /** A step of node q that puts nothing but its own part into an exchange of its own
    * superstep. */
  lemma WireStep(prog: Program, init: seq<Proc>, s: Net, s': Net, q: nat, k: nat)
    requires LegalProgram(prog, init) && Inv(prog, init, s) && q < |init| && k == s.nodes[q].k < |prog|
      && |s'.nodes| == |init|
    requires forall p: nat | p < |init| && p != q :: s'.nodes[p] == s.nodes[p]
    requires 4 * k <= Stage(s'.nodes[q]) <= 4 * k + 4
    requires forall j: nat, p: nat | p < |init| && !(j == k && p == q) ::
      Agree(s.notices, s'.notices, j, p) && Agree(s.requests, s'.requests, j, p)
        && Agree(s.deliveries, s'.deliveries, j, p)
    requires WireOk(prog, init, s', k, q)
    ensures forall j: nat, p: nat | j < |prog| && p < |init| :: WireOk(prog, init, s', j, p)
  {
    forall j: nat, p: nat | j < |prog| && p < |init| ensures WireOk(prog, init, s', j, p) {
      assert WireOk(prog, init, s, j, p);
      if j != k || p != q {
        WireKept(prog, init, s, s', q, j, p);
      }
    }
  }

  /** The state after one more call. */
  lemma CallDone(prog: Program, init: seq<Proc>, s: Net, q: nat)
    requires LegalProgram(prog, init) && Inv(prog, init, s) && Enabled(prog, s, q)
    requires s.nodes[q].pc.Computing? && s.nodes[q].pc.i < |prog[s.nodes[q].k][q]|
    ensures var node := s.nodes[q];
            var calls := prog[node.k][q];
            && |prog[node.k]| == |init|
            && Apply(node.st, q, calls[node.pc.i]) ==
              DoAll(AtStart(prog, init, node.k)[q], q, |init|, calls[..node.pc.i + 1])
  {
    var node := s.nodes[q];
    assert NodeOk(prog, init, node, q);
    var calls, i := prog[node.k][q], node.pc.i;
    assert calls[..i + 1][..i] == calls[..i];
  }

  lemma CallOk(prog: Program, init: seq<Proc>, s: Net, q: nat)
    requires LegalProgram(prog, init) && Inv(prog, init, s) && Enabled(prog, s, q)
    requires s.nodes[q].pc.Computing? && s.nodes[q].pc.i < |prog[s.nodes[q].k][q]|
    ensures Inv(prog, init, Step(prog, s, q))
  {
    var node := s.nodes[q];
    CallDone(prog, init, s, q);
    var node' := Node(node.k, Computing(node.pc.i + 1), Apply(node.st, q, prog[node.k][q][node.pc.i]), node.reserved);
    var s' := s.(nodes := s.nodes[q := node']);
    assert Step(prog, s, q) == s';
    StageKept(prog, init, s, s', q);
  }

  lemma ComputedIs(prog: Program, init: seq<Proc>, k: nat, q: nat)
    requires LegalProgram(prog, init) && k < |prog| && q < |init|
    ensures |prog[k]| == |init|
    ensures AtEnd(prog, init, k)[q] == DoAll(AtStart(prog, init, k)[q], q, |init|, prog[k][q])
  {
    assert LegalStep(prog, init, k);
  }

  /** Entering the information exchange. */
  lemma PostOk(prog: Program, init: seq<Proc>, s: Net, q: nat)
    requires LegalProgram(prog, init) && Inv(prog, init, s) && Enabled(prog, s, q)
    requires s.nodes[q].pc.Computing? && s.nodes[q].pc.i >= |prog[s.nodes[q].k][q]|
    ensures Inv(prog, init, Step(prog, s, q))
  {
    var s', node := Step(prog, s, q), s.nodes[q];
    assert NodeOk(prog, init, node, q);
    ComputedIs(prog, init, node.k, q);
    assert prog[node.k][q][..node.pc.i] == prog[node.k][q];
    assert WireOk(prog, init, s, node.k, q);
    WireStep(prog, init, s, s', q, node.k);
  }

  /** What a node that has left the information exchange knows. */
  lemma NoticesTell(prog: Program, init: seq<Proc>, s: Net, q: nat)
    requires LegalProgram(prog, init) && Inv(prog, init, s) && q < |init|
    requires s.nodes[q].pc.Informed? && AllIn(s.notices, s.nodes[q].k, |init|)
    ensures s.nodes[q].k < |prog|
    ensures var ps := AtEnd(prog, init, s.nodes[q].k);
            && (AnyGets(s, s.nodes[q].k) <==> Asking(ps))
            && RoomOk(ps, s.nodes[q].(reserved := Room(s, s.nodes[q].k, q)), q)
  {
    var k := s.nodes[q].k;
    assert NodeOk(prog, init, s.nodes[q], q);
    var ps, room := AtEnd(prog, init, k), Room(s, k, q);
    forall p: nat | p < |init| ensures s.notices[(k, p)] == NoticeOf(ps[p]) && RoomFor(ps, room, p, q) {
      assert WireOk(prog, init, s, k, p);
      assert Shaped(ps[p], |ps|) && Shaped(ps[q], |ps|);
    }
  }

  /** Without requests there is nothing to answer. */
  lemma NothingAsked(ps: seq<Proc>, q: nat)
    requires World(ps) && q < |ps| && !Asking(ps)
    ensures Shaped(ps[q], |ps|) && Outgoing(ps, q) == ps[q].log
  {
    assert Shaped(ps[q], |ps|);
    forall r: nat | r < |ps| ensures Outgoing(ps, q)[r] == ps[q].log[r] {
      assert Shaped(ps[r], |ps|);
      assert !NoticeOf(ps[r]).anyGets;
      assert ps[r].reqs[q] == [];
    }
  }

  lemma StepAsk(prog: Program, s: Net, q: nat)
    requires Enabled(prog, s, q) && s.nodes[q].pc.Informed? && AnyGets(s, s.nodes[q].k)
    ensures var node := s.nodes[q];
            Step(prog, s, q) == s.(nodes := s.nodes[q := Node(node.k, Asked, node.st, Room(s, node.k, q))],
                                   requests := s.requests[(node.k, q) := node.st.reqs])
  {
  }

  /** Leaving the information exchange with requests. */
  lemma AskOk(prog: Program, init: seq<Proc>, s: Net, q: nat)
    requires LegalProgram(prog, init) && Inv(prog, init, s) && Enabled(prog, s, q)
    requires s.nodes[q].pc.Informed? && AnyGets(s, s.nodes[q].k)
    ensures Inv(prog, init, Step(prog, s, q))
  {
    StepAsk(prog, s, q);
    NoticesTell(prog, init, s, q);
    Asks(prog, init, s, q, Room(s, s.nodes[q].k, q));
  }

  lemma Asks(prog: Program, init: seq<Proc>, s: Net, q: nat, room: seq<nat>)
    requires LegalProgram(prog, init) && Inv(prog, init, s) && q < |init| && s.nodes[q].pc.Informed?
      && s.nodes[q].k < |prog|
    requires var ps := AtEnd(prog, init, s.nodes[q].k);
             Asking(ps) && RoomOk(ps, s.nodes[q].(reserved := room), q)
    ensures var node := s.nodes[q];
            Inv(prog, init, s.(nodes := s.nodes[q := Node(node.k, Asked, node.st, room)], requests :=
              s.requests[(node.k, q) := node.st.reqs]))
  {
    var node := s.nodes[q];
    var s' := s.(nodes := s.nodes[q := Node(node.k, Asked, node.st, room)], requests :=
      s.requests[(node.k, q) := node.st.reqs]);
    assert NodeOk(prog, init, node, q);
    assert WireOk(prog, init, s, node.k, q);
    WireStep(prog, init, s, s', q, node.k);
  }

  /** Leaving it without. */
  lemma SkipOk(prog: Program, init: seq<Proc>, s: Net, q: nat)
    requires LegalProgram(prog, init) && Inv(prog, init, s) && Enabled(prog, s, q)
    requires s.nodes[q].pc.Informed? && !AnyGets(s, s.nodes[q].k)
    ensures Inv(prog, init, Step(prog, s, q))
  {
    var s', node := Step(prog, s, q), s.nodes[q];
    assert NodeOk(prog, init, node, q);
    NoticesTell(prog, init, s, q);
    NothingAsked(AtEnd(prog, init, node.k), q);
    assert WireOk(prog, init, s, node.k, q);
    WireStep(prog, init, s, s', q, node.k);
  }

  /** Answering what the others ask. */
  lemma AnswerOk(prog: Program, init: seq<Proc>, s: Net, q: nat)
    requires LegalProgram(prog, init) && Inv(prog, init, s) && Enabled(prog, s, q)
    requires s.nodes[q].pc.Asked?
    ensures Inv(prog, init, Step(prog, s, q))
  {
    var s', node, n := Step(prog, s, q), s.nodes[q], |init|;
    assert NodeOk(prog, init, node, q);
    var ps, row := AtEnd(prog, init, node.k), Row(s.requests, node.k, n, q);
    forall p: nat | p < n ensures row[p] == ps[p].reqs[q] {
      assert WireOk(prog, init, s, node.k, p);
      assert Shaped(ps[p], n);
    }
    assert Answered(node.st.log, node.st.mem, row, n) == Outgoing(ps, q);
    assert WireOk(prog, init, s, node.k, q);
    WireStep(prog, init, s, s', q, node.k);
  }

  /** What a node receives is what the abstract superstep ships to it. */
  lemma DeliveriesArrive(prog: Program, init: seq<Proc>, s: Net, q: nat)
    requires LegalProgram(prog, init) && Inv(prog, init, s) && q < |init|
    requires s.nodes[q].pc.Shipping? && AllIn(s.deliveries, s.nodes[q].k, |init|)
    ensures s.nodes[q].k < |prog|
    ensures Row(s.deliveries, s.nodes[q].k, |init|, q) == Shipped(AtEnd(prog, init, s.nodes[q].k), q)
  {
    var k, n := s.nodes[q].k, |init|;
    assert NodeOk(prog, init, s.nodes[q], q);
    var ps := AtEnd(prog, init, k);
    forall p: nat | p < n ensures Row(s.deliveries, k, n, q)[p] == Shipped(ps, q)[p] {
      assert WireOk(prog, init, s, k, p);
    }
  }

  lemma NextStart(prog: Program, init: seq<Proc>, k: nat, q: nat)
    requires LegalProgram(prog, init) && k < |prog| && q < |init|
    ensures World(AtEnd(prog, init, k)) && SyncDefined(AtEnd(prog, init, k), q)
    ensures AtStart(prog, init, k + 1)[q] == SyncProc(AtEnd(prog, init, k), q)
  {
    assert LegalStep(prog, init, k);
    assert LegalNode(prog, init, k, q);
  }

  lemma DeliveredState(prog: Program, init: seq<Proc>, s: Net, q: nat) returns (st: Proc)
    requires LegalProgram(prog, init) && Inv(prog, init, s) && q < |init|
    requires s.nodes[q].pc.Shipping? && AllIn(s.deliveries, s.nodes[q].k, |init|)
    ensures var node := s.nodes[q];
            && node.k < |prog| && |node.st.reg| == |init|
            && st == AtStart(prog, init, node.k + 1)[q]
            && Deliver(node.st, q, Row(s.deliveries, node.k, |init|, q)) == Some(st)
  {
    var node := s.nodes[q];
    assert NodeOk(prog, init, node, q);
    var ps := AtEnd(prog, init, node.k);
    DeliveriesArrive(prog, init, s, q);
    NextStart(prog, init, node.k, q);
    DeliverShipped(ps, q, node.st);
    st := AtStart(prog, init, node.k + 1)[q];
  }

  lemma StepDeliver(prog: Program, s: Net, q: nat, st: Proc)
    requires Enabled(prog, s, q) && s.nodes[q].pc.Shipping? && AllIn(s.deliveries, s.nodes[q].k, |s.nodes|)
    requires |s.nodes[q].st.reg| == |s.nodes|
    requires Deliver(s.nodes[q].st, q, Row(s.deliveries, s.nodes[q].k, |s.nodes|, q)) == Some(st)
    ensures Step(prog, s, q) == s.(nodes := s.nodes[q := Node(s.nodes[q].k + 1, Computing(0), st, [])])
  {
    var next := Deliver(s.nodes[q].st, q, Row(s.deliveries, s.nodes[q].k, |s.nodes|, q));
    assert next.value == st;
  }

  /** Executing the deliveries: the node arrives at the next superstep. */
  lemma DeliverOk(prog: Program, init: seq<Proc>, s: Net, q: nat)
    requires LegalProgram(prog, init) && Inv(prog, init, s) && Enabled(prog, s, q)
    requires s.nodes[q].pc.Shipping?
    ensures Inv(prog, init, Step(prog, s, q))
  {
    var k := s.nodes[q].k;
    var st := DeliveredState(prog, init, s, q);
    StepDeliver(prog, s, q, st);
    Arrives(prog, init, s, q, Node(k + 1, Computing(0), st, []));
  }

  lemma Arrives(prog: Program, init: seq<Proc>, s: Net, q: nat, node': Node)
    requires LegalProgram(prog, init) && Inv(prog, init, s) && q < |init| && s.nodes[q].k < |prog|
    requires s.nodes[q].pc.Shipping?
      && node' == Node(s.nodes[q].k + 1, Computing(0), AtStart(prog, init, s.nodes[q].k + 1)[q], [])
    ensures Inv(prog, init, s.(nodes := s.nodes[q := node']))
  {
    var s', k := s.(nodes := s.nodes[q := node']), s.nodes[q].k;
    NewStartOk(prog, init, node', q);
    assert WireOk(prog, init, s, k, q);
    WireStep(prog, init, s, s', q, k);
  }

  lemma NewStartOk(prog: Program, init: seq<Proc>, node: Node, q: nat)
    requires LegalProgram(prog, init) && node.k <= |prog| && q < |init|
    requires node.pc == Computing(0) && node.st == AtStart(prog, init, node.k)[q]
    ensures NodeOk(prog, init, node, q)
  {
    if node.k < |prog| {
      assert LegalStep(prog, init, node.k);
      assert prog[node.k][q][..0] == [];
    }
  }

  /** Every step of every processor keeps the invariant. */
  lemma StepOk(prog: Program, init: seq<Proc>, s: Net, q: nat)
    requires LegalProgram(prog, init) && Inv(prog, init, s) && Enabled(prog, s, q)
    ensures Inv(prog, init, Step(prog, s, q))
  {
    match s.nodes[q].pc
    case Computing(i) =>
      if i < |prog[s.nodes[q].k][q]| { CallOk(prog, init, s, q); } else { PostOk(prog, init, s, q); }
    case Informed =>
      if AnyGets(s, s.nodes[q].k) { AskOk(prog, init, s, q); } else { SkipOk(prog, init, s, q); }
    case Asked => AnswerOk(prog, init, s, q);
    case Shipping => DeliverOk(prog, init, s, q);
  }

  // ----- runs -----

  /** The processors step in the order of the schedule, each step being possible. */
  ghost predicate Runs(prog: Program, s: Net, schedule: seq<nat>, s': Net)
    decreases |schedule|
  {
    if schedule == [] then s' == s
    else Enabled(prog, s, schedule[0]) && Runs(prog, Step(prog, s, schedule[0]), schedule[1..], s')
  }

  lemma {:induction false} RunsOk(prog: Program, init: seq<Proc>, s: Net, schedule: seq<nat>, s': Net)
    requires LegalProgram(prog, init) && Inv(prog, init, s) && Runs(prog, s, schedule, s')
    ensures Inv(prog, init, s')
    decreases |schedule|
  {
    if schedule != [] {
      StepOk(prog, init, s, schedule[0]);
      RunsOk(prog, init, Step(prog, s, schedule[0]), schedule[1..], s');
    }
  }

  /** Under any interleaving, a processor that begins superstep k has the state that the
    * synchronous meaning of the program gives it, whatever the others are doing. */
  lemma AnyInterleaving(prog: Program, init: seq<Proc>, schedule: seq<nat>, s: Net, q: nat)
    requires LegalProgram(prog, init) && Runs(prog, Initial(init), schedule, s) && q < |init|
    ensures |s.nodes| == |init| && s.nodes[q].k <= |prog|
    ensures s.nodes[q].pc == Computing(0) ==> s.nodes[q].st == AtStart(prog, init, s.nodes[q].k)[q]
  {
    InitialOk(prog, init);
    RunsOk(prog, init, Initial(init), schedule, s);
    var node := s.nodes[q];
    assert NodeOk(prog, init, node, q);
    if node.k < |prog| && node.pc == Computing(0) {
      assert prog[node.k][q][..0] == [];
    }
  }

  /** In every reachable state, once all notices of superstep k are in, they say whether anybody asks; and nobody
    * enters a request exchange, or ships without one, in disagreement with that. */
  lemma RequestExchangeAgreed(prog: Program, init: seq<Proc>, schedule: seq<nat>, s: Net, k: nat)
    requires LegalProgram(prog, init) && Runs(prog, Initial(init), schedule, s) && k < |prog|
    ensures |s.nodes| == |init|
    ensures AllIn(s.notices, k, |init|) ==> (AnyGets(s, k) <==> Asking(AtEnd(prog, init, k)))
    ensures forall q: nat :: q < |init| && (k, q) in s.requests ==> Asking(AtEnd(prog, init, k))
    ensures forall q: nat :: q < |init| && (k, q) in s.deliveries && Asking(AtEnd(prog, init, k)) ==>
      (k, q) in s.requests
  {
    InitialOk(prog, init);
    RunsOk(prog, init, Initial(init), schedule, s);
    forall q: nat | q < |init|
      ensures (k, q) in s.notices ==> s.notices[(k, q)] == NoticeOf(AtEnd(prog, init, k)[q])
      ensures (k, q) in s.requests ==> Asking(AtEnd(prog, init, k))
      ensures (k, q) in s.deliveries && Asking(AtEnd(prog, init, k)) ==> (k, q) in s.requests
    {
      assert WireOk(prog, init, s, k, q);
    }
  }

  /** Whatever arrives fits the room that was reserved for it: no delivery is cut off. */
  lemma NothingOverflows(prog: Program, init: seq<Proc>, schedule: seq<nat>, s: Net, p: nat, q: nat)
    requires LegalProgram(prog, init) && Runs(prog, Initial(init), schedule, s) && p < |init| && q < |init|
    requires |s.nodes| == |init| && s.nodes[q].pc.Shipping? && AllIn(s.deliveries, s.nodes[q].k, |init|)
    ensures p < |s.nodes[q].reserved|
    ensures Size(Row(s.deliveries, s.nodes[q].k, |init|, q)[p]) <= s.nodes[q].reserved[p]
  {
    InitialOk(prog, init);
    RunsOk(prog, init, Initial(init), schedule, s);
    var node := s.nodes[q];
    assert NodeOk(prog, init, node, q);
    var ps := AtEnd(prog, init, node.k);
    DeliveriesArrive(prog, init, s, q);
    assert Shaped(ps[p], |ps|) && Shaped(ps[q], |ps|);
    assert RoomFor(ps, node.reserved, p, q);
    AnswersFit(ps[p].log[q], ps[p].mem, ps[q].reqs[p]);
  }

  // ----- progress -----

  /** The processor that is least far. */
  lemma {:induction false} LeastStage(nodes: seq<Node>) returns (q: nat)
    requires nodes != []
    ensures q < |nodes| && forall p: nat | p < |nodes| :: Stage(nodes[q]) <= Stage(nodes[p])
    decreases |nodes|
  {
    if |nodes| == 1 {
      q := 0;
    } else {
      var last := |nodes| - 1;
      q := LeastStage(nodes[..last]);
      forall p: nat | p < last ensures Stage(nodes[q]) <= Stage(nodes[p]) {
        assert nodes[..last][p] == nodes[p];
      }
      if Stage(nodes[last]) < Stage(nodes[q]) {
        q := last;
      }
    }
  }

  /** Everybody has entered the exchange that the least far processor waits in. */
  lemma LeastSeesAll(prog: Program, init: seq<Proc>, s: Net, q: nat)
    requires LegalProgram(prog, init) && Inv(prog, init, s) && q < |init| && s.nodes[q].k < |prog|
    requires forall p: nat | p < |init| :: Stage(s.nodes[q]) <= Stage(s.nodes[p])
    ensures s.nodes[q].pc.Informed? ==> AllIn(s.notices, s.nodes[q].k, |init|)
    ensures s.nodes[q].pc.Asked? ==> AllIn(s.requests, s.nodes[q].k, |init|)
    ensures s.nodes[q].pc.Shipping? ==> AllIn(s.deliveries, s.nodes[q].k, |init|)
  {
    var node := s.nodes[q];
    var k := node.k;
    assert NodeOk(prog, init, node, q);
    forall p: nat | p < |init|
      ensures node.pc.Informed? ==> (k, p) in s.notices
      ensures node.pc.Asked? ==> (k, p) in s.requests
      ensures node.pc.Shipping? ==> (k, p) in s.deliveries
    {
      assert WireOk(prog, init, s, k, p);
    }
  }

  /** The least far processor is held up by nobody. */
  lemma LeastIsEnabled(prog: Program, init: seq<Proc>, s: Net, q: nat)
    requires LegalProgram(prog, init) && Inv(prog, init, s) && q < |init| && s.nodes[q].k < |prog|
    requires forall p: nat | p < |init| :: Stage(s.nodes[q]) <= Stage(s.nodes[p])
    ensures Enabled(prog, s, q)
  {
    var n, node := |init|, s.nodes[q];
    var k := node.k;
    LeastSeesAll(prog, init, s, q);
    assert NodeOk(prog, init, node, q) && LegalStep(prog, init, k) && LegalNode(prog, init, k, q);
    assert Shaped(AtStart(prog, init, k)[q], n) && Shaped(AtEnd(prog, init, k)[q], n);
    if node.pc.Shipping? {
      var st := DeliveredState(prog, init, s, q);
    }
  }

  /** No deadlock: some processor can go on until all have finished the program. */
  lemma SomebodyGoesOn(prog: Program, init: seq<Proc>, schedule: seq<nat>, s: Net)
    requires LegalProgram(prog, init) && Runs(prog, Initial(init), schedule, s)
    ensures |s.nodes| == |init|
    ensures (exists q: nat :: Enabled(prog, s, q)) || forall q: nat | q < |init| :: s.nodes[q].k == |prog|
  {
    InitialOk(prog, init);
    RunsOk(prog, init, Initial(init), schedule, s);
    if init != [] {
      var q := LeastStage(s.nodes);
      if s.nodes[q].k < |prog| {
        LeastIsEnabled(prog, init, s, q);
      } else {
        forall p: nat | p < |init| ensures s.nodes[p].k == |prog| {
          assert NodeOk(prog, init, s.nodes[p], p);
        }
      }
    }
  }
}
