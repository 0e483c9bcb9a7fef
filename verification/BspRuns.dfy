/** A whole program run on the objects of all processes: superstep by superstep every process makes its calls, and
  * all run bspx_sync. */
module BspRuns {
  import opened Supersteps
  import opened BspObjects
  import opened Processes
  import opened Protocol
  import opened CollectiveSync
  import BspCalls
  import BspxSync

  /** The states between the calls. */
  lemma CallStates(st: Proc, q: nat, n: nat, calls: seq<Call>) returns (states: seq<Proc>)
    requires Shaped(st, n) && q < n && LegalAll(st, q, n, calls)
    ensures |states| == |calls| + 1 && states[0] == st && states[|calls|] == DoAll(st, q, n, calls)
    ensures forall i: nat :: i < |calls| ==> BspCalls.Leads(states[i], q, n, calls[i], states[i + 1])
  {
    states := seq(|calls| + 1, i requires 0 <= i <= |calls| => DoAll(st, q, n, calls[..i]));
    assert calls[..0] == [] && calls[..|calls|] == calls;
    forall i: nat | i < |calls| ensures BspCalls.Leads(states[i], q, n, calls[i], states[i + 1]) {
      assert calls[..i + 1][..i] == calls[..i];
      assert Legal(DoAll(st, q, n, calls[..i]), q, n, calls[i]);
    }
  }

  method CallAt(procs: seq<Process>, i: nat, call: Call, ghost next: Proc, ghost ss: seq<Status>)
    requires AllAt(procs, ss) && i < |procs| && ss[i].phase == Between
    requires BspCalls.Leads(ss[i].st, i, |procs|, call, next)
    modifies procs[i].Repr
    ensures AllAt(procs, ss[i := Status(Between, next)]) && AllKept(procs)
  {
    assert ss[i] == Status(Between, ss[i].st);
    procs[i].Do(call, ss[i].st, next);
  }

  /** The calls of one process. */
  method RunCalls(procs: seq<Process>, i: nat, calls: seq<Call>, ghost states: seq<Proc>, ghost ss: seq<Status>)
    requires AllAt(procs, ss) && i < |procs| && |states| == |calls| + 1 && ss[i] == Status(Between, states[0])
    requires forall j: nat :: j < |calls| ==> BspCalls.Leads(states[j], i, |procs|, calls[j], states[j + 1])
    modifies AllRepr(procs)
    ensures AllAt(procs, ss[i := Status(Between, states[|calls|])]) && AllKept(procs)
  {
    ghost var ss' := ss;
    for j := 0 to |calls|
      invariant AllAt(procs, ss') && AllKept(procs)
      invariant ss' == ss[i := Status(Between, states[j])]
    {
      CallAt(procs, i, calls[j], states[j + 1], ss');
      ss' := ss'[i := Status(Between, states[j + 1])];
    }
  }

  /** The calls of all processes. */
  method Compute(procs: seq<Process>, calls: seq<seq<Call>>, ghost a: seq<Proc>, ghost e: seq<Proc>,
                 ghost ss: seq<Status>)
    returns (ghost ss': seq<Status>)
    requires AllAt(procs, ss) && |a| == |e| == |calls| == |procs| && forall i :: 0 <= i < |a| ==>
      ss[i] == Status(Between, a[i])
    requires forall i: nat :: i < |a| ==> Calls(a[i], i, |a|, calls[i], e[i])
    modifies AllRepr(procs)
    ensures AllAt(procs, ss') && AllKept(procs) && forall i :: 0 <= i < |a| ==> ss'[i] == Status(Between, e[i])
  {
    ss' := ss;
    for i := 0 to |procs|
      invariant AllAt(procs, ss') && AllKept(procs)
      invariant forall j :: 0 <= j < |a| ==> ss'[j] == Status(Between, if j < i then e[j] else a[j])
    {
      assert Calls(a[i], i, |a|, calls[i], e[i]);
      ghost var states := CallStates(a[i], i, |a|, calls[i]);
      RunCalls(procs, i, calls[i], states, ss');
      ss' := ss'[i := Status(Between, e[i])];
    }
  }

  /** The calls are legal and lead from a to e. */
  ghost predicate Calls(a: Proc, q: nat, n: nat, calls: seq<Call>, e: Proc) {
    Shaped(a, n) && q < n && LegalAll(a, q, n, calls) && e == DoAll(a, q, n, calls)
  }

  method ComputeAll(procs: seq<Process>, calls: seq<seq<Call>>, ghost a: seq<Proc>, ghost e: seq<Proc>)
    requires |a| == |e| == |calls| == |procs| && AllAt(procs, InPhase(Between, a))
    requires forall i: nat :: i < |a| ==> Calls(a[i], i, |a|, calls[i], e[i])
    modifies AllRepr(procs)
    ensures AllAt(procs, InPhase(Between, e)) && AllKept(procs)
  {
    ghost var ss := Compute(procs, calls, a, e, InPhase(Between, a));
    assert ss == InPhase(Between, e);
  }

  /** One superstep. */
  method RunSuperstep(procs: seq<Process>, calls: seq<seq<Call>>, ghost a: seq<Proc>, ghost e: seq<Proc>)
    requires |a| == |e| == |calls| == |procs| && AllAt(procs, InPhase(Between, a)) && World(e)
    requires forall i: nat :: i < |a| ==> Calls(a[i], i, |a|, calls[i], e[i])
    requires forall i: nat :: i < |e| ==> Level(e, i) && SyncDefined(e, i)
    modifies AllRepr(procs)
    ensures AllAt(procs, InPhase(Between, Synced(e))) && AllKept(procs)
  {
    ComputeAll(procs, calls, a, e);
    var ok := BspxSync.SyncAll(procs, e);
  }

  lemma SuperstepOf(prog: Program, init: seq<Proc>, k: nat) returns (a: seq<Proc>, e: seq<Proc>)
    requires LegalProgram(prog, init) && k < |prog|
    ensures a == AtStart(prog, init, k) && e == AtEnd(prog, init, k) && Synced(e) == AtStart(prog, init, k + 1)
    ensures |a| == |e| == |prog[k]| == |init| && World(e)
    ensures forall i: nat :: i < |a| ==> Calls(a[i], i, |a|, prog[k][i], e[i])
    ensures forall i: nat :: i < |e| ==> Level(e, i) && SyncDefined(e, i)
  {
    assert LegalStep(prog, init, k);
    a, e := AtStart(prog, init, k), AtEnd(prog, init, k);
    forall i: nat | i < |a| ensures Calls(a[i], i, |a|, prog[k][i], e[i]) && SyncDefined(e, i) {
      assert LegalNode(prog, init, k, i);
      assert Shaped(a[i], |a|);
    }
  }

  /** A legal program, run on the objects, leaves every process in the state that the meaning of the program says. */
  method Run(procs: seq<Process>, prog: Program, ghost init: seq<Proc>)
    requires LegalProgram(prog, init) && |procs| == |init| && AllAt(procs, InPhase(Between, init))
    modifies AllRepr(procs)
    ensures AllAt(procs, InPhase(Between, AtStart(prog, init, |prog|))) && AllKept(procs)
  {
    for k := 0 to |prog|
      invariant AllAt(procs, InPhase(Between, AtStart(prog, init, k))) && AllKept(procs)
    {
      ghost var a, e := SuperstepOf(prog, init, k);
      RunSuperstep(procs, prog[k], a, e);
    }
  }

  // ----- the start of a run -----

  /** The state of a process that has just begun. */
  function Blank(n: nat): Proc {
    Proc(map[], Empty(n), Empty(n), Empty(n), [], 0, 0, 0)
  }

  method StartOne(n: nat, rank: nat, regSize: nat, delivSize: nat, reqSize: nat) returns (p: Process)
    requires rank < n && regSize > 0 && reqSize > 0
    ensures fresh(p) && fresh(p.Repr) && p.At(Status(Between, Blank(n))) && p.bsp.rank == rank && p.bsp.nprocs == n
  {
    var bsp := Initialize(n, rank, regSize, delivSize, reqSize);
    p := new Process(bsp, Blank(n));
  }

  /** bspx_init_bspobject on every processor; the minimal sizes are configuration. */
  method Start(n: nat, regSize: nat, delivSize: nat, reqSize: nat) returns (procs: seq<Process>, ghost init: seq<Proc>)
    requires regSize > 0 && reqSize > 0
    ensures |init| == n && (forall i :: 0 <= i < n ==> init[i] == Blank(n)) && World(init)
    ensures |procs| == n && AllAt(procs, InPhase(Between, init)) && fresh(AllRepr(procs))
  {
    procs := [];
    for i := 0 to n
      invariant |procs| == i
      invariant forall j :: 0 <= j < i ==> fresh(procs[j]) && fresh(procs[j].Repr) && procs[j] in procs[j].Repr
      invariant forall j :: 0 <= j < i ==>
        procs[j].At(Status(Between, Blank(n))) && procs[j].bsp.rank == j && procs[j].bsp.nprocs == n
      invariant forall j, k :: 0 <= j < i && 0 <= k < i && j != k ==> procs[j].Repr !! procs[k].Repr
    {
      var p := StartOne(n, i, regSize, delivSize, reqSize);
      procs := procs + [p];
    }
    init := seq(n, _ => Blank(n));
  }
}
