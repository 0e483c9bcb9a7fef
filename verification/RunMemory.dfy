/** The memory behind a superstep, from the calls alone: every processor's own computation, then for one processor
  * after another its puts in the order of the calls and what was asked of it. */
module RunMemory {
  import opened Columns
  import opened Threads
  import opened Memories
  import opened Delivery
  import opened Requests
  import opened Supersteps
  import opened Protocol
  import opened RunProperties

  /** Bytes for an address. */
  datatype Write = Write(dst: int, bytes: seq<byte>)

  function Written(m: Memory, writes: seq<Write>): Memory {
    if writes == [] then m
    else
      var last := writes[|writes| - 1];
      WriteBytes(Written(m, writes[..|writes| - 1]), last.dst, last.bytes)
  }

  /** The memory of a processor after its calls, before the boundary. */
  function Own(calls: seq<Call>, mem: Memory): Memory {
    if calls == [] then mem
    else
      var last := calls[|calls| - 1];
      if last.ComputeCall? then last.result else Own(calls[..|calls| - 1], mem)
  }

  /** The addresses that a call passes for processor pid are registered. */
  predicate Known(st: Proc, p: nat, q: nat, address: int)
    requires p < |st.reg|
  {
    q < |st.reg| == |st.log| && |st.reg[q]| == |st.reg[p]| && address in st.reg[p]
  }

  /** What a call of p will write to q if it is a put: the bytes as they are in mem, to the address that q registered
    * together with p's. */
  function PutTo(st: Proc, p: nat, call: Call, q: nat, mem: Memory): seq<Write>
    requires p < |st.reg|
  {
    if call.PutCall? && call.pid == q && Known(st, p, q, call.dst) then
      [Write(Remote(st, p, q, call.dst) + call.offset, ReadBytes(mem, call.src, call.nbytes))]
    else []
  }

  /** What the puts of p to q will write, the bytes as they are at the call. */
  function PutsTo(st: Proc, p: nat, calls: seq<Call>, q: nat): seq<Write>
    requires p < |st.reg|
  {
    if calls == [] then []
    else
      var before, last := calls[..|calls| - 1], calls[|calls| - 1];
      PutsTo(st, p, before, q) + PutTo(st, p, last, q, Own(before, st.mem))
  }

  /** What the gets of q from p will write, p's memory being mem before the boundary. */
  function GetsFrom(st: Proc, q: nat, calls: seq<Call>, p: nat, mem: Memory): seq<Write>
    requires q < |st.reg|
  {
    if calls == [] then []
    else
      var last := calls[|calls| - 1];
      GetsFrom(st, q, calls[..|calls| - 1], p, mem) +
      if last.GetCall? && last.pid == p && Known(st, q, p, last.src) then
        [Write(last.dst, ReadBytes(mem, Remote(st, q, p, last.src) + last.offset, last.nbytes))]
      else []
  }

  // ----- what the calls log -----

  /** The records stand for these writes. */
  ghost predicate Writes(records: seq<Record>, writes: seq<Write>) {
    && |records| == |writes|
    && forall k :: 0 <= k < |records| ==> records[k] == Record(Info.Put(writes[k].dst), writes[k].bytes)
  }

  lemma {:induction false} WritesWrite(m: Memory, records: seq<Record>, writes: seq<Write>)
    requires Writes(records, writes)
    ensures PutAll(m, records) == Written(m, writes)
  {
    if records != [] {
      WritesWrite(m, records[..|records| - 1], writes[..|writes| - 1]);
    }
  }

  /** What p has logged for q, and its own memory, after these calls. */
  ghost predicate HasPut(st: Proc, st': Proc, p: nat, n: nat, q: nat, calls: seq<Call>) {
    && Shaped(st, n) && Shaped(st', n) && p < n && q < n
    && st'.mem == Own(calls, st.mem) && st'.reg == st.reg
    && Writes(Select(st'.log[q], PutItem), PutsTo(st, p, calls, q))
  }

  /** The record of a call, if it is a put. */
  lemma PutRecord(st: Proc, p: nat, n: nat, q: nat, call: Call) returns (records: seq<Record>)
    requires Shaped(st, n) && p < n && q < n && Legal(st, p, n, call)
    ensures Shaped(Apply(st, p, call), n)
    ensures Select(Apply(st, p, call).log[q], PutItem) == Select(st.log[q], PutItem) + records
    ensures Writes(records, PutTo(st, p, call, q, st.mem))
  {
    records := [];
    CallLogs(st, p, n, call, q);
    var rec := CallRecord(st, p, n, call, q);
    if rec.Some? {
      Append(st.log[q], rec.value, PutItem);
      if call.PutCall? { records := [rec.value]; }
    }
  }

  /** Translation depends on the register alone. */
  lemma SameTranslation(st: Proc, st': Proc, p: nat, call: Call, q: nat)
    requires p < |st.reg| && st'.reg == st.reg && |st'.log| == |st.log|
    ensures PutTo(st', p, call, q, st'.mem) == PutTo(st, p, call, q, st'.mem)
  {
  }

  lemma MoreWrites(a: seq<Record>, b: seq<Record>, x: seq<Write>, y: seq<Write>)
    requires Writes(a, x) && Writes(b, y)
    ensures Writes(a + b, x + y)
  {
  }

  lemma OwnStep(st: Proc, p: nat, call: Call)
    requires Shaped(st, |st.log|) && p < |st.log| && Legal(st, p, |st.log|, call)
    ensures Apply(st, p, call).reg == st.reg
    ensures Apply(st, p, call).mem == if call.ComputeCall? then call.result else st.mem
  {
  }

  lemma OneMorePut(st: Proc, st': Proc, p: nat, n: nat, q: nat, calls: seq<Call>, i: nat)
    requires i < |calls| && HasPut(st, st', p, n, q, calls[..i]) && Legal(st', p, n, calls[i])
    ensures HasPut(st, Apply(st', p, calls[i]), p, n, q, calls[..i + 1])
  {
    var call := calls[i];
    assert calls[..i + 1][..i] == calls[..i];
    var records := PutRecord(st', p, n, q, call);
    SameTranslation(st, st', p, call, q);
    MoreWrites(Select(st'.log[q], PutItem), records, PutsTo(st, p, calls[..i], q), PutTo(st, p, call, q, st'.mem));
    OwnStep(st', p, call);
  }

  lemma {:induction false} CallsPut(st: Proc, p: nat, n: nat, calls: seq<Call>, q: nat, i: nat)
    requires Shaped(st, n) && p < n && q < n && LegalAll(st, p, n, calls) && NothingLogged(st, n) && i <= |calls|
    ensures HasPut(st, DoAll(st, p, n, calls[..i]), p, n, q, calls[..i])
    decreases i
  {
    if i > 0 {
      var before := DoAll(st, p, n, calls[..i - 1]);
      CallsPut(st, p, n, calls, q, i - 1);
      assert Legal(before, p, n, calls[i - 1]);
      OneMorePut(st, before, p, n, q, calls, i - 1);
      assert calls[..i][..i - 1] == calls[..i - 1];
    } else {
      assert Select(st.log[q], PutItem) == [];
    }
  }

  /** The answers to what q has asked of p after these calls. */
  ghost predicate HasAsked(st: Proc, st': Proc, q: nat, n: nat, p: nat, calls: seq<Call>, mem: Memory) {
    && Shaped(st, n) && Shaped(st', n) && p < n && q < n && st'.reg == st.reg
    && Writes(Answers(mem, st'.reqs[p]), GetsFrom(st, q, calls, p, mem))
  }

  lemma OneMoreGet(st: Proc, st': Proc, q: nat, n: nat, p: nat, calls: seq<Call>, i: nat, mem: Memory)
    requires i < |calls| && HasAsked(st, st', q, n, p, calls[..i], mem) && Legal(st', q, n, calls[i])
    ensures HasAsked(st, Apply(st', q, calls[i]), q, n, p, calls[..i + 1], mem)
  {
    assert calls[..i + 1][..i] == calls[..i];
    assert Shaped(Apply(st', q, calls[i]), n);
  }

  lemma {:induction false} CallsAsk(st: Proc, q: nat, n: nat, calls: seq<Call>, p: nat, mem: Memory, i: nat)
    requires Shaped(st, n) && p < n && q < n && LegalAll(st, q, n, calls) && st.reqs[p] == [] && i <= |calls|
    ensures HasAsked(st, DoAll(st, q, n, calls[..i]), q, n, p, calls[..i], mem)
    decreases i
  {
    if i > 0 {
      var before := DoAll(st, q, n, calls[..i - 1]);
      CallsAsk(st, q, n, calls, p, mem, i - 1);
      assert Legal(before, q, n, calls[i - 1]);
      OneMoreGet(st, before, q, n, p, calls, i - 1, mem);
      assert calls[..i][..i - 1] == calls[..i - 1];
    }
  }

  // ----- the boundary -----

  /** Nobody has asked for anything yet. */
  ghost predicate NothingAsked(ps: seq<Proc>) {
    forall q: nat, p: nat :: q < |ps| && p < |ps[q].reqs| ==> ps[q].reqs[p] == []
  }

  /** The memory of q behind the boundary, as far as the first n processors are concerned. */
  function Behind(calls: seq<seq<Call>>, a: seq<Proc>, q: nat, n: nat): Memory
    requires n <= |a| == |calls| && q < |a| && forall p :: 0 <= p < |a| ==> |a[p].reg| == |a|
  {
    if n == 0 then Own(calls[q], a[q].mem)
    else
      var p := n - 1;
      Written(Written(Behind(calls, a, q, p), PutsTo(a[p], p, calls[p], q)),
              GetsFrom(a[q], q, calls[q], p, Own(calls[p], a[p].mem)))
  }

  lemma OneSender(calls: seq<seq<Call>>, a: seq<Proc>, e: seq<Proc>, q: nat, p: nat)
    returns (x: seq<Write>, y: seq<Write>)
    requires CallsMade(calls, a, e) && NothingAsked(a) && q < |a| && p < |a|
    ensures |a[p].reg| == |a[q].reg| == |e[p].log| == |e[q].reqs| == |a|
    ensures e[q].mem == Own(calls[q], a[q].mem)
    ensures x == PutsTo(a[p], p, calls[p], q) && Writes(Select(e[p].log[q], PutItem), x)
    ensures y == GetsFrom(a[q], q, calls[q], p, Own(calls[p], a[p].mem))
    ensures Writes(Answers(e[p].mem, e[q].reqs[p]), y)
  {
    assert CallsMadeAt(calls, a, e, p) && CallsMadeAt(calls, a, e, q) && Shaped(a[p], |a|) && Shaped(a[q], |a|);
    CallsPut(a[p], p, |a|, calls[p], q, |calls[p]|);
    CallsPut(a[q], q, |a|, calls[q], q, |calls[q]|);
    CallsAsk(a[q], q, |a|, calls[q], p, e[p].mem, |calls[q]|);
    assert calls[p][..|calls[p]|] == calls[p] && calls[q][..|calls[q]|] == calls[q];
    x, y := PutsTo(a[p], p, calls[p], q), GetsFrom(a[q], q, calls[q], p, e[p].mem);
  }

  lemma BothWrite(m: Memory, puts: seq<Record>, x: seq<Write>, answers: seq<Record>, y: seq<Write>)
    requires Writes(puts, x) && Writes(answers, y)
    ensures PutAll(PutAll(m, puts), answers) == Written(Written(m, x), y)
  {
    WritesWrite(m, puts, x);
    WritesWrite(Written(m, x), answers, y);
  }

  /** What processor p does to a memory of q. */
  lemma OneStep(calls: seq<seq<Call>>, a: seq<Proc>, e: seq<Proc>, q: nat, p: nat, m: Memory)
    requires CallsMade(calls, a, e) && NothingAsked(a) && q < |a| && p < |a|
    ensures |a[p].reg| == |a[q].reg| == |e[p].log| == |e[q].reqs| == |a| && e[q].mem == Own(calls[q], a[q].mem)
    ensures PutAll(PutAll(m, Select(e[p].log[q], PutItem)), Answers(e[p].mem, e[q].reqs[p]))
         == Written(Written(m, PutsTo(a[p], p, calls[p], q)), GetsFrom(a[q], q, calls[q], p, Own(calls[p], a[p].mem)))
  {
    var x, y := OneSender(calls, a, e, q, p);
    BothWrite(m, Select(e[p].log[q], PutItem), x, Answers(e[p].mem, e[q].reqs[p]), y);
  }

  lemma {:induction false} BehindIs(calls: seq<seq<Call>>, a: seq<Proc>, e: seq<Proc>, q: nat, n: nat)
    requires CallsMade(calls, a, e) && NothingAsked(a) && q < |a| && n <= |a|
    requires forall p :: 0 <= p < |a| ==> |a[p].reg| == |a|
    ensures SyncMemory(e, q, n) == Behind(calls, a, q, n)
  {
    if n == 0 {
      OneStep(calls, a, e, q, q, map[]);
    } else {
      BehindIs(calls, a, e, q, n - 1);
      OneStep(calls, a, e, q, n - 1, SyncMemory(e, q, n - 1));
    }
  }

  /** Behind a superstep a processor's memory is its own computation, overwritten, for one processor after another, by
    * that processor's puts and by what was got from it; a get brings what was there before the boundary. */
  lemma MemoryBehind(calls: seq<seq<Call>>, a: seq<Proc>, e: seq<Proc>, b: seq<Proc>, q: nat)
    requires Superstep(calls, a, e, b) && NothingAsked(a) && q < |a|
    ensures forall p :: 0 <= p < |a| ==> |a[p].reg| == |a|
    ensures b[q].mem == Behind(calls, a, q, |a|)
  {
    SuperstepMakesCalls(calls, a, e, b);
    forall p: nat | p < |a| ensures |a[p].reg| == |a| { assert Shaped(a[p], |a|); }
    assert SuperstepAt(calls, a, e, b, q);
    BehindIs(calls, a, e, q, |a|);
  }

  lemma NothingAskedBehind(calls: seq<seq<Call>>, a: seq<Proc>, e: seq<Proc>, b: seq<Proc>)
    requires Superstep(calls, a, e, b)
    ensures NothingAsked(b)
  {
    forall q: nat, p: nat | q < |b| && p < |b[q].reqs| ensures b[q].reqs[p] == [] {
      assert SuperstepAt(calls, a, e, b, q);
    }
  }

  /** So for every superstep of a legal program. */
  lemma MemoryOfProgram(prog: Program, init: seq<Proc>, k: nat, q: nat)
    requires LegalProgram(prog, init) && Fresh(init) && NothingAsked(init) && k < |prog| && q < |init|
    ensures |prog[k]| == |init|
    ensures forall p :: 0 <= p < |init| ==> |AtStart(prog, init, k)[p].reg| == |init|
    ensures AtStart(prog, init, k + 1)[q].mem == Behind(prog[k], AtStart(prog, init, k), q, |init|)
  {
    var states, ends := LegalRun(prog, init);
    assert Starts(prog, init, 0, states[0]) && Starts(prog, init, k, states[k])
      && Starts(prog, init, k + 1, states[k + 1]);
    assert states[0] == AtStart(prog, init, 0);
    assert states[k] == AtStart(prog, init, k) && states[k + 1] == AtStart(prog, init, k + 1);
    assert Superstep(prog[k], states[k], ends[k], states[k + 1]);
    if k > 0 {
      assert Superstep(prog[k - 1], states[k - 1], ends[k - 1], states[k]);
      NothingAskedBehind(prog[k - 1], states[k - 1], ends[k - 1], states[k]);
    }
    MemoryBehind(prog[k], states[k], ends[k], states[k + 1], q);
  }
}
