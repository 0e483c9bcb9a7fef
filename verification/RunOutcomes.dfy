/** What the run theorems mean for processes: under any interleaving, and read from the arrays. */
module RunOutcomes {
  import opened Columns
  import opened MessageQueues
  import opened Supersteps
  import opened Protocol
  import opened Interleavings
  import opened RunProperties
  import opened RunCounts
  import opened RegisterRuns
  import opened Processes
  import opened CollectiveSync
  import BspRuns
  import BspxSync

  /** Under any interleaving, a processor that begins superstep k + 1 can move what was sent to it in superstep k. */
  lemma MessagesUnderAnyInterleaving(prog: Program, init: seq<Proc>, schedule: seq<nat>, s: Net, k: nat, q: nat)
    requires LegalProgram(prog, init) && Fresh(init) && EqualTags(init) && SameTagsThroughout(prog)
    requires Runs(prog, Initial(init), schedule, s) && k < |prog| && q < |init|
    requires |s.nodes| == |init| && s.nodes[q].k == k + 1 && s.nodes[q].pc == Computing(0)
    ensures |prog[k]| == |init|
    ensures ReadsAs(s.nodes[q].st.queue, s.nodes[q].st.recvTag, SentBy(prog[k], q, |init|))
  {
    AnyInterleaving(prog, init, schedule, s, q);
    MessagesOfProgram(prog, init, k, q);
  }

  /** Under any interleaving, an address that q translates for p as it begins superstep k is the one p has in that row,
    * wherever p is. */
  lemma TranslationUnderAnyInterleaving(prog: Program, init: seq<Proc>, schedule: seq<nat>, s: Net, k: nat, q: nat,
                                        p: nat,
                                        address: int)
    requires LegalProgram(prog, init) && Fresh(init) && EqualRegisters(init) && SameRemovalsThroughout(prog, init)
    requires Runs(prog, Initial(init), schedule, s) && k <= |prog| && q < |init| && p < |init|
    requires |s.nodes| == |init| && s.nodes[q].k == k && s.nodes[q].pc == Computing(0)
    requires Shaped(s.nodes[q].st, |init|) && address in s.nodes[q].st.reg[q]
    ensures RegisteredTogether(s.nodes[q].st.reg[q], AtStart(prog, init, k)[p].reg[p], address,
                               Remote(s.nodes[q].st, q, p, address))
  {
    AnyInterleaving(prog, init, schedule, s, q);
    TranslationOfProgram(prog, init, k, q, p, address);
  }

  lemma ReadsAsDecodes(queue: seq<Record>, tagSize: nat, sent: seq<Message>, messages: seq<Message>)
    requires ReadsAs(queue, tagSize, sent) && |messages| == |queue| && Tagged(queue, tagSize)
    requires forall k | 0 <= k < |messages| :: messages[k] == Decode(queue[k], tagSize)
    ensures messages == sent
  {
  }

  /** A program run on the objects, and then the queue of processor q drained: it yields exactly the messages sent to q
    * in the last superstep, by sender and in the order of the calls. */
  method RunAndDrain(procs: seq<Process>, prog: Program, q: nat, ghost init: seq<Proc>) returns (messages: seq<Message>)
    requires LegalProgram(prog, init) && Fresh(init) && EqualTags(init) && SameTagsThroughout(prog)
    requires |procs| == |init| && AllAt(procs, InPhase(Between, init)) && q < |procs| && prog != []
    modifies AllRepr(procs)
    ensures |prog[|prog| - 1]| == |init| && messages == SentBy(prog[|prog| - 1], q, |init|)
  {
    ghost var k := |prog| - 1;
    BspRuns.Run(procs, prog, init);
    ghost var st := AtStart(prog, init, |prog|)[q];
    MessagesOfProgram(prog, init, k, q);
    messages := procs[q].Drain(st);
    ReadsAsDecodes(st.queue, st.recvTag, SentBy(prog[k], q, |init|), messages);
  }

  /** Processor q can make these calls behind the program. */
  ghost predicate LegalNow(prog: Program, init: seq<Proc>, q: nat, now: seq<Call>)
    requires q < |init|
  {
    var ps := AtStart(prog, init, |prog|);
    Shaped(ps[q], |init|) && LegalAll(ps[q], q, |init|, now)
  }

  lemma CountsAtEnd(prog: Program, init: seq<Proc>, q: nat, now: seq<Call>) returns (ps: seq<Proc>, end: Proc)
    requires LegalProgram(prog, init) && Fresh(init) && q < |init| && prog != [] && LegalNow(prog, init, q, now)
    ensures ps == AtStart(prog, init, |prog|) && |ps| == |init| && Shaped(ps[q], |ps|)
    ensures LegalAll(ps[q], q, |ps|, now) && end == DoAll(ps[q], q, |ps|, now)
    ensures |prog[|prog| - 1]| == |init| && Counts(end, SentBy(prog[|prog| - 1], q, |init|), now)
  {
    ps := AtStart(prog, init, |prog|);
    end := DoAll(ps[q], q, |init|, now);
    CountsOfProgram(prog, init, |prog| - 1, q, now);
  }

  /** A program run on the objects, then some calls of processor q, and then bspx_qsize there: it reports the messages
    * sent to q in the last superstep less those moved since, and all their tags and payloads less the payloads moved.
    * */
  method RunAndCount(procs: seq<Process>, prog: Program, q: nat, now: seq<Call>, ghost init: seq<Proc>)
    returns (messages: nat, bytes: int)
    requires LegalProgram(prog, init) && Fresh(init) && |procs| == |init| && AllAt(procs, InPhase(Between, init))
    requires q < |procs| && prog != [] && LegalNow(prog, init, q, now)
    modifies AllRepr(procs)
    ensures |prog[|prog| - 1]| == |init|
    ensures var sent := SentBy(prog[|prog| - 1], q, |init|);
      var moved := Least(Moves(now), |sent|);
      messages == |sent| - moved && bytes == MessageBytes(sent) - PayloadBytes(sent[..moved])
  {
    ghost var ps, end := CountsAtEnd(prog, init, q, now);
    BspRuns.Run(procs, prog, init);
    CallAll(procs, q, now, ps, end);
    messages, bytes := procs[q].QSize(end);
  }

  method CallAll(procs: seq<Process>, q: nat, calls: seq<Call>, ghost ps: seq<Proc>, ghost end: Proc)
    requires AllAt(procs, InPhase(Between, ps)) && |ps| == |procs| && q < |procs| && Shaped(ps[q], |ps|)
    requires LegalAll(ps[q], q, |ps|, calls) && end == DoAll(ps[q], q, |ps|, calls)
    modifies AllRepr(procs)
    ensures procs[q].At(Status(Between, end))
  {
    ghost var states := BspRuns.CallStates(ps[q], q, |ps|, calls);
    BspRuns.RunCalls(procs, q, calls, states, InPhase(Between, ps));
  }

  lemma MadeOnObjects(calls: seq<seq<Call>>, a: seq<Proc>, e: seq<Proc>)
    requires CallsMade(calls, a, e)
    ensures forall i: nat :: i < |a| ==> BspRuns.Calls(a[i], i, |a|, calls[i], e[i])
  {
    forall i: nat | i < |a| ensures BspRuns.Calls(a[i], i, |a|, calls[i], e[i]) {
      assert CallsMadeAt(calls, a, e, i) && Shaped(a[i], |a|);
    }
  }

  lemma AllRemovableIff(calls: seq<seq<Call>>, a: seq<Proc>, e: seq<Proc>)
    requires CallsMade(calls, a, e) && forall i: nat :: i < |e| ==> Level(e, i)
    ensures (forall i: nat | i < |e| :: SyncDefined(e, i)) == forall q: nat | q < |a| :: Removable(calls, a, q)
  {
    forall q: nat | q < |a| ensures SyncDefined(e, q) <==> Removable(calls, a, q) {
      BoundaryFailsIff(calls, a, e, q);
    }
  }

  /** One superstep on the objects, in which removals may fail: it goes on exactly if no processor removes an address
    * more often than it is registered there. */
  method SuperstepOrAbort(procs: seq<Process>, calls: seq<seq<Call>>, ghost a: seq<Proc>, ghost e: seq<Proc>)
    returns (ok: bool)
    requires |procs| == |a| && AllAt(procs, InPhase(Between, a)) && CallsMade(calls, a, e)
    requires forall i: nat :: i < |e| ==> Level(e, i)
    modifies AllRepr(procs)
    ensures ok == forall q: nat | q < |a| :: Removable(calls, a, q)
    ensures ok ==> AllAt(procs, InPhase(Between, Synced(e))) && AllKept(procs)
  {
    MadeOnObjects(calls, a, e);
    AllRemovableIff(calls, a, e);
    BspRuns.ComputeAll(procs, calls, a, e);
    ok := BspxSync.SyncAll(procs, e);
  }
}
