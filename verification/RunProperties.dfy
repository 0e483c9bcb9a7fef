/** What holds over whole runs of a program: the message queues, the tag sizes and the
  * address registers of all processors at the start of every superstep. */
module RunProperties {
  import opened Columns
  import opened Threads
  import opened Memories
  import opened Registers
  import opened MessageQueues
  import opened Delivery
  import opened DeliveryExecute
  import opened Supersteps
  import opened Protocol

  /** One superstep that keeps to the rules: from the states `a` at its start over the
    * states `e` at the end of the calls to the states `b` at the start of the next. */
  ghost predicate Superstep(calls: seq<seq<Call>>, a: seq<Proc>, e: seq<Proc>, b: seq<Proc>) {
    && World(a) && World(e) && |calls| == |a| == |e| == |b|
    && forall q: nat | q < |a| :: SuperstepAt(calls, a, e, b, q)
  }

  predicate NothingLogged(st: Proc, n: nat) {
    |st.log| == n && forall p | 0 <= p < n :: st.log[p] == []
  }

  ghost predicate SuperstepAt(calls: seq<seq<Call>>, a: seq<Proc>, e: seq<Proc>, b: seq<Proc>, q: nat)
    requires World(a) && World(e) && |calls| == |a| == |e| == |b| && q < |a|
  {
    assert Shaped(a[q], |a|);
    && NothingLogged(a[q], |a|)
    && LegalAll(a[q], q, |a|, calls[q]) && e[q] == DoAll(a[q], q, |a|, calls[q])
    && SyncDefined(e, q) && b[q] == SyncProc(e, q)
  }

  // ----- messages -----

  /** The messages that a list of calls sends to processor q. */
  function SentTo(calls: seq<Call>, q: nat): seq<Message> {
    if calls == [] then []
    else
      var last := calls[|calls| - 1];
      SentTo(calls[..|calls| - 1], q) + if last.SendCall? && last.pid == q then [last.message] else []
  }

  /** All messages sent to q in a superstep, by sender and then in the order of the calls. */
  function SentBy(calls: seq<seq<Call>>, q: nat, n: nat): seq<Message>
    requires n <= |calls|
  {
    if n == 0 then [] else SentBy(calls, q, n - 1) + SentTo(calls[n - 1], q)
  }

  /** The record that a call of p logs for q, if it logs one. */
  ghost function CallRecord(st: Proc, p: nat, n: nat, call: Call, q: nat): (r: Option<Record>)
    requires Shaped(st, n) && p < n && q < n && Legal(st, p, n, call)
    ensures r.Some? ==> (r.value.info.Send? <==> call.SendCall?) && (r.value.info.SetTag? <==> call.SetTagSizeCall?)
                        && (r.value.info.PushReg? <==> call.PushRegCall?)
                        && (call.PushRegCall? ==> r.value.info == PushReg(call.ident))
                        && (call.SetTagSizeCall? ==> r.value.info == SetTag(call.size))
                        && (r.value.info.PopReg? <==> call.PopRegCall?)
                        && (call.PopRegCall? ==> r.value.info == PopReg(call.ident))
    ensures call.PushRegCall? || ((call.SetTagSizeCall? || call.PopRegCall?) && p == q) ==> r.Some?
  {
    match call
    case PutCall(pid, src, dst, offset, nbytes) =>
      if pid == q then Some(Record(Put(Remote(st, p, pid, dst) + offset), ReadBytes(st.mem, src, nbytes))) else None
    case SendCall(pid, m) => if pid == q then Some(SendRecord(m)) else None
    case PushRegCall(ident) => Some(Record(PushReg(ident), []))
    case PopRegCall(ident) => if p == q then Some(Record(PopReg(ident), [])) else None
    case SetTagSizeCall(size) => if p == q then Some(Record(SetTag(size), [])) else None
    case _ => None
  }

  lemma CallLogs(st: Proc, p: nat, n: nat, call: Call, q: nat)
    requires Shaped(st, n) && p < n && q < n && Legal(st, p, n, call)
    ensures |Apply(st, p, call).log| == n
    ensures Apply(st, p, call).log[q] == st.log[q] + match CallRecord(st, p, n, call, q)
                                                    case Some(rec) => [rec]
                                                    case None => []
  {
  }

  lemma CallSends(st: Proc, p: nat, n: nat, call: Call, q: nat)
    requires Shaped(st, n) && p < n && q < n && Legal(st, p, n, call)
    ensures |Apply(st, p, call).log| == n && Apply(st, p, call).sendTag == st.sendTag
    ensures Select(Apply(st, p, call).log[q], SendItem)
         == Select(st.log[q], SendItem) + if call.SendCall? && call.pid == q then [SendRecord(call.message)] else []
    ensures call.SendCall? ==> |call.message.tag| == st.sendTag
  {
    CallLogs(st, p, n, call, q);
    if CallRecord(st, p, n, call, q).Some? {
      Append(st.log[q], CallRecord(st, p, n, call, q).value, SendItem);
    }
  }

  /** One more call: what it sends comes last. */
  lemma SentStep(calls: seq<Call>, i: nat, q: nat)
    requires i < |calls|
    ensures var now := if calls[i].SendCall? && calls[i].pid == q then [calls[i].message] else [];
            && SentTo(calls[..i + 1], q) == SentTo(calls[..i], q) + now
            && Encode(SentTo(calls[..i + 1], q)) == Encode(SentTo(calls[..i], q)) + Encode(now)
  {
    assert calls[..i + 1][..i] == calls[..i];
  }

  /** What is logged for q after some calls: what was, and the messages sent to q. */
  ghost predicate HasSent(st: Proc, st': Proc, n: nat, q: nat, sent: seq<Message>)
    requires |st.log| == n && q < n
  {
    && |st'.log| == n && st'.sendTag == st.sendTag
    && Select(st'.log[q], SendItem) == Select(st.log[q], SendItem) + Encode(sent)
    && forall m | m in sent :: |m.tag| == st.sendTag
  }

  lemma OneMoreSent(st: Proc, st': Proc, p: nat, n: nat, q: nat, calls: seq<Call>, i: nat)
    requires |st.log| == n && Shaped(st', n) && p < n && q < n && i < |calls|
    requires HasSent(st, st', n, q, SentTo(calls[..i], q)) && Legal(st', p, n, calls[i])
    ensures HasSent(st, Apply(st', p, calls[i]), n, q, SentTo(calls[..i + 1], q))
  {
    SentStep(calls, i, q);
    CallSends(st', p, n, calls[i], q);
  }

  lemma {:induction false} CallsSend(st: Proc, p: nat, n: nat, calls: seq<Call>, q: nat, i: nat)
    requires Shaped(st, n) && p < n && q < n && LegalAll(st, p, n, calls) && i <= |calls|
    ensures HasSent(st, DoAll(st, p, n, calls[..i]), n, q, SentTo(calls[..i], q))
    decreases i
  {
    if i > 0 {
      var before, call := DoAll(st, p, n, calls[..i - 1]), calls[i - 1];
      CallsSend(st, p, n, calls, q, i - 1);
      assert Legal(before, p, n, call);
      OneMoreSent(st, before, p, n, q, calls, i - 1);
      assert calls[..i][..i - 1] == calls[..i - 1];
    }
  }

  lemma LegalPrefix(st: Proc, p: nat, n: nat, calls: seq<Call>, i: nat)
    requires Shaped(st, n) && p < n && LegalAll(st, p, n, calls) && i <= |calls|
    ensures LegalAll(st, p, n, calls[..i])
  {
    forall j: nat | j < i ensures Legal(DoAll(st, p, n, calls[..i][..j]), p, n, calls[..i][j]) {
      assert calls[..i][..j] == calls[..j];
    }
  }

  /** What p has logged for q at the end of a superstep: the messages it sent there. */
  lemma SendsAtEnd(calls: seq<seq<Call>>, a: seq<Proc>, e: seq<Proc>, b: seq<Proc>, p: nat, q: nat)
    requires Superstep(calls, a, e, b) && p < |a| && q < |a|
    ensures |e[p].log| == |a| && e[p].sendTag == a[p].sendTag
    ensures Select(e[p].log[q], SendItem) == Encode(SentTo(calls[p], q))
    ensures forall i | 0 <= i < |SentTo(calls[p], q)| :: |SentTo(calls[p], q)[i].tag| == a[p].sendTag
  {
    assert SuperstepAt(calls, a, e, b, p) && Shaped(a[p], |a|);
    CallsSend(a[p], p, |a|, calls[p], q, |calls[p]|);
    assert calls[p][..|calls[p]|] == calls[p];
    assert Select(a[p].log[q], SendItem) == [];
  }

  lemma EncodeConcat(a: seq<Message>, b: seq<Message>)
    ensures Encode(a + b) == Encode(a) + Encode(b)
  {
  }

  lemma {:induction false} QueueUpTo(calls: seq<seq<Call>>, a: seq<Proc>, e: seq<Proc>, b: seq<Proc>, q: nat,
                                     inbox: seq<seq<Record>>, n: nat)
    requires Superstep(calls, a, e, b) && q < |a| && n <= |a| && inbox == Inbox(e, q)
    ensures AllOf(inbox[..n], SendItem) == Encode(SentBy(calls, q, n))
  {
    if n > 0 {
      QueueUpTo(calls, a, e, b, q, inbox, n - 1);
      AllOfStep(inbox, n - 1, SendItem);
      SendsAtEnd(calls, a, e, b, n - 1, q);
      EncodeConcat(SentBy(calls, q, n - 1), SentTo(calls[n - 1], q));
    }
  }

  /** After the boundary, the queue of q holds exactly what was sent to it in the superstep
    * before, by sender rank and then in send order, and q reads it with the tag size with
    * which it sent itself. */
  lemma QueueIsWhatWasSent(calls: seq<seq<Call>>, a: seq<Proc>, e: seq<Proc>, b: seq<Proc>, q: nat)
    requires Superstep(calls, a, e, b) && q < |a|
    ensures b[q].queue == Encode(SentBy(calls, q, |a|)) && b[q].recvTag == a[q].sendTag
  {
    var inbox := Inbox(e, q);
    assert SuperstepAt(calls, a, e, b, q);
    QueueUpTo(calls, a, e, b, q, inbox, |a|);
    SendsAtEnd(calls, a, e, b, q, q);
    assert inbox[..|a|] == inbox;
  }

  /** The last tag size a processor asks for in a superstep, or the one it has. */
  function AskedTag(calls: seq<Call>, size: nat): nat {
    if calls == [] then size
    else
      var last := calls[|calls| - 1];
      if last.SetTagSizeCall? then last.size else AskedTag(calls[..|calls| - 1], size)
  }

  lemma CallTags(st: Proc, p: nat, n: nat, call: Call, size: nat)
    requires Shaped(st, n) && p < n && Legal(st, p, n, call)
    ensures |Apply(st, p, call).log| == n
    ensures LastTag(Select(Apply(st, p, call).log[p], SetTagItem), size)
         == if call.SetTagSizeCall? then call.size else LastTag(Select(st.log[p], SetTagItem), size)
  {
    CallLogs(st, p, n, call, p);
    if CallRecord(st, p, n, call, p).Some? {
      RecordTags(st.log[p], CallRecord(st, p, n, call, p).value, SetTagItem, size);
    }
  }

  lemma RecordTags(log: seq<Record>, rec: Record, t: ItemType, size: nat)
    requires t == SetTagItem
    ensures LastTag(Select(log + [rec], t), size) == if rec.info.SetTag? then rec.info.tagSize
      else LastTag(Select(log, t), size)
  {
    Append(log, rec, t);
  }

  lemma {:induction false} CallsSetTag(st: Proc, p: nat, n: nat, calls: seq<Call>, size: nat)
    requires Shaped(st, n) && p < n && LegalAll(st, p, n, calls) && NothingLogged(st, n)
    ensures var st' := DoAll(st, p, n, calls);
            |st'.log| == n && LastTag(Select(st'.log[p], SetTagItem), size) == AskedTag(calls, size)
    decreases |calls|
  {
    if calls != [] {
      var i := |calls| - 1;
      LegalPrefix(st, p, n, calls, i);
      CallsSetTag(st, p, n, calls[..i], size);
      var before := DoAll(st, p, n, calls[..i]);
      assert Legal(before, p, n, calls[i]);
      CallTags(before, p, n, calls[i], size);
    } else {
      assert Select(st.log[p], SetTagItem) == [];
    }
  }

  /** A new tag size is for the next superstep. */
  lemma NextTag(calls: seq<seq<Call>>, a: seq<Proc>, e: seq<Proc>, b: seq<Proc>, q: nat)
    requires Superstep(calls, a, e, b) && q < |a|
    ensures b[q].sendTag == AskedTag(calls[q], a[q].sendTag)
  {
    assert SuperstepAt(calls, a, e, b, q) && Shaped(a[q], |a|);
    SendsAtEnd(calls, a, e, b, q, q);
    CallsSetTag(a[q], q, |a|, calls[q], a[q].sendTag);
  }

  /** All processors send with the same tag size. */
  ghost predicate EqualTags(ps: seq<Proc>) {
    forall p: nat, q: nat | p < |ps| && q < |ps| :: ps[p].sendTag == ps[q].sendTag
  }

  /** All processors ask for the same tag size in a superstep. */
  ghost predicate SameTags(calls: seq<seq<Call>>) {
    forall p: nat, q: nat, size: nat | p < |calls| && q < |calls| ::
      AskedTag(calls[p], size) == AskedTag(calls[q], size)
  }

  lemma TagsStayEqual(calls: seq<seq<Call>>, a: seq<Proc>, e: seq<Proc>, b: seq<Proc>)
    requires Superstep(calls, a, e, b) && EqualTags(a) && SameTags(calls)
    ensures EqualTags(b)
  {
    forall p: nat, q: nat | p < |b| && q < |b| ensures b[p].sendTag == b[q].sendTag {
      NextTag(calls, a, e, b, p);
      NextTag(calls, a, e, b, q);
    }
  }

  lemma {:induction false} SentByTags(calls: seq<seq<Call>>, a: seq<Proc>, e: seq<Proc>, b: seq<Proc>, q: nat, n: nat)
    requires Superstep(calls, a, e, b) && EqualTags(a) && q < |a| && n <= |a|
    ensures forall i | 0 <= i < |SentBy(calls, q, n)| :: |SentBy(calls, q, n)[i].tag| == a[q].sendTag
  {
    if n > 0 {
      SentByTags(calls, a, e, b, q, n - 1);
      SendsAtEnd(calls, a, e, b, n - 1, q);
    }
  }

  /** The i-th message that q moves after the boundary is the i-th that was sent to it. */
  lemma MovedIsSent(calls: seq<seq<Call>>, a: seq<Proc>, e: seq<Proc>, b: seq<Proc>, q: nat, i: nat)
    requires Superstep(calls, a, e, b) && EqualTags(a) && q < |a| && i < |b[q].queue|
    ensures i < |SentBy(calls, q, |a|)|
    ensures var rec := b[q].queue[i];
            && rec.info.Send? && b[q].recvTag + rec.info.payloadSize == |rec.payload|
            && Decode(rec, b[q].recvTag) == SentBy(calls, q, |a|)[i]
  {
    QueueIsWhatWasSent(calls, a, e, b, q);
    SentByTags(calls, a, e, b, q, |a|);
    DecodeSend(SentBy(calls, q, |a|)[i]);
  }

  // ----- registers -----

  /** The addresses that a list of calls registers. */
  function Registered(calls: seq<Call>): seq<int> {
    if calls == [] then []
    else
      var last := calls[|calls| - 1];
      Registered(calls[..|calls| - 1]) + if last.PushRegCall? then [last.ident] else []
  }

  lemma AddressesAppend(a: seq<Record>, rec: Record)
    requires rec.info.PushReg?
    ensures Addresses(a + [rec]) == Addresses(a) + [rec.info.pushed]
  {
    var x, y := Addresses(a + [rec]), Addresses(a) + [rec.info.pushed];
    forall k | 0 <= k < |x| ensures x[k] == y[k] {
      assert k < |a| ==> (a + [rec])[k] == a[k];
    }
  }

  lemma CallRegisters(st: Proc, p: nat, n: nat, call: Call, q: nat)
    requires Shaped(st, n) && p < n && q < n && Legal(st, p, n, call)
    ensures |Apply(st, p, call).log| == n && Apply(st, p, call).reg == st.reg
    ensures Addresses(Select(Apply(st, p, call).log[q], PushRegItem))
         == Addresses(Select(st.log[q], PushRegItem)) + if call.PushRegCall? then [call.ident] else []
  {
    CallLogs(st, p, n, call, q);
    var rec := CallRecord(st, p, n, call, q);
    if rec.Some? {
      RecordRegisters(st.log[q], rec.value, PushRegItem);
    }
  }

  lemma RecordRegisters(log: seq<Record>, rec: Record, t: ItemType)
    requires t == PushRegItem
    ensures Addresses(Select(log + [rec], t)) == Addresses(Select(log, t)) + if rec.info.PushReg?
      then [rec.info.pushed] else []
  {
    Append(log, rec, t);
    if rec.info.PushReg? {
      AddressesAppend(Select(log, t), rec);
    }
  }

  /** Whatever processor p registers, it tells every processor the same. */
  lemma {:induction false} CallsRegister(st: Proc, p: nat, n: nat, calls: seq<Call>, q: nat)
    requires Shaped(st, n) && p < n && q < n && LegalAll(st, p, n, calls) && NothingLogged(st, n)
    ensures var st' := DoAll(st, p, n, calls);
            && |st'.log| == n && st'.reg == st.reg
            && Addresses(Select(st'.log[q], PushRegItem)) == Registered(calls)
    decreases |calls|
  {
    if calls != [] {
      var i := |calls| - 1;
      LegalPrefix(st, p, n, calls, i);
      CallsRegister(st, p, n, calls[..i], q);
      var before := DoAll(st, p, n, calls[..i]);
      assert Legal(before, p, n, calls[i]);
      CallRegisters(before, p, n, calls[i], q);
    } else {
      assert Select(st.log[q], PushRegItem) == [];
    }
  }

  /** The calls of one superstep, up to the boundary, which may still fail. */
  ghost predicate CallsMade(calls: seq<seq<Call>>, a: seq<Proc>, e: seq<Proc>) {
    && World(a) && World(e) && |calls| == |a| == |e|
    && forall q: nat | q < |a| :: CallsMadeAt(calls, a, e, q)
  }

  ghost predicate CallsMadeAt(calls: seq<seq<Call>>, a: seq<Proc>, e: seq<Proc>, q: nat)
    requires World(a) && |calls| == |a| == |e| && q < |a|
  {
    assert Shaped(a[q], |a|);
    NothingLogged(a[q], |a|) && LegalAll(a[q], q, |a|, calls[q]) && e[q] == DoAll(a[q], q, |a|, calls[q])
  }

  lemma SuperstepMakesCalls(calls: seq<seq<Call>>, a: seq<Proc>, e: seq<Proc>, b: seq<Proc>)
    requires Superstep(calls, a, e, b)
    ensures CallsMade(calls, a, e)
  {
    forall q: nat | q < |a| ensures CallsMadeAt(calls, a, e, q) {
      assert SuperstepAt(calls, a, e, b, q);
    }
  }

  /** What q's column of p becomes depends on q only through what it was. */
  lemma NewColumnIs(calls: seq<seq<Call>>, a: seq<Proc>, e: seq<Proc>, q: nat, p: nat)
    requires CallsMade(calls, a, e) && p < |a| && q < |a|
    ensures |a[q].reg| == |a|
    ensures NewColumns(e, q)[p] == a[q].reg[p] + Registered(calls[p])
  {
    assert CallsMadeAt(calls, a, e, q) && CallsMadeAt(calls, a, e, p);
    assert Shaped(a[p], |a|) && Shaped(a[q], |a|);
    CallsRegister(a[p], p, |a|, calls[p], q);
    CallsRegister(a[q], q, |a|, calls[q], q);
  }

  ghost predicate EqualRegisters(ps: seq<Proc>) {
    forall p: nat, q: nat | p < |ps| && q < |ps| :: ps[p].reg == ps[q].reg
  }

  /** The removals of all processors mark the same rows. */
  ghost predicate SameRemovals(e: seq<Proc>)
    requires World(e)
  {
    forall p: nat, q: nat | p < |e| && q < |e| :: SyncMarks(e, p) == SyncMarks(e, q)
  }

  lemma RegistersStayEqual(calls: seq<seq<Call>>, a: seq<Proc>, e: seq<Proc>, b: seq<Proc>)
    requires Superstep(calls, a, e, b) && EqualRegisters(a) && SameRemovals(e)
    ensures EqualRegisters(b)
  {
    forall p: nat, q: nat | p < |b| && q < |b| ensures b[p].reg == b[q].reg {
      assert SuperstepAt(calls, a, e, b, p) && SuperstepAt(calls, a, e, b, q);
      SameNewColumns(calls, a, e, b, p, q);
    }
  }

  lemma SameNewColumns(calls: seq<seq<Call>>, a: seq<Proc>, e: seq<Proc>, b: seq<Proc>, p: nat, q: nat)
    requires Superstep(calls, a, e, b) && p < |a| && q < |a| && a[p].reg == a[q].reg
    ensures NewColumns(e, p) == NewColumns(e, q)
  {
    SuperstepMakesCalls(calls, a, e, b);
    forall r: nat | r < |a| ensures NewColumns(e, p)[r] == NewColumns(e, q)[r] {
      NewColumnIs(calls, a, e, p, r);
      NewColumnIs(calls, a, e, q, r);
    }
  }

  // ----- whole runs -----

  /** A run: the states at the start and at the end of the calls of every superstep. */
  ghost predicate IsRun(prog: Program, states: seq<seq<Proc>>, ends: seq<seq<Proc>>) {
    && |states| == |prog| + 1 && |ends| == |prog|
    && forall k: nat | k < |prog| :: Superstep(prog[k], states[k], ends[k], states[k + 1])
  }

  lemma {:induction false} TagsAgree(prog: Program, states: seq<seq<Proc>>, ends: seq<seq<Proc>>, k: nat)
    requires IsRun(prog, states, ends) && k <= |prog|
    requires EqualTags(states[0]) && forall j: nat | j < |prog| :: SameTags(prog[j])
    ensures EqualTags(states[k])
  {
    if k > 0 {
      TagsAgree(prog, states, ends, k - 1);
      TagsStayEqual(prog[k - 1], states[k - 1], ends[k - 1], states[k]);
    }
  }

  /** The queue holds records that a receiver with this tag size reads as these messages. */
  ghost predicate ReadsAs(queue: seq<Record>, tagSize: nat, sent: seq<Message>) {
    && |queue| == |sent|
    && forall i | 0 <= i < |sent| ::
         && queue[i].info.Send? && tagSize + queue[i].info.payloadSize == |queue[i].payload|
         && Decode(queue[i], tagSize) == sent[i]
  }

  /** Over any run in which tag sizes are set collectively: moving its messages one by one
    * in superstep k + 1, a processor reads exactly the tags and payloads that were sent to
    * it in superstep k, by sender rank and then in send order. */
  lemma MovedMessagesAreSent(prog: Program, states: seq<seq<Proc>>, ends: seq<seq<Proc>>, k: nat, q: nat)
    requires IsRun(prog, states, ends) && k < |prog|
    requires EqualTags(states[0]) && forall j: nat | j < |prog| :: SameTags(prog[j])
    requires q < |prog[k]|
    ensures q < |states[k + 1]|
    ensures ReadsAs(states[k + 1][q].queue, states[k + 1][q].recvTag, SentBy(prog[k], q, |prog[k]|))
  {
    var a, e, b := states[k], ends[k], states[k + 1];
    assert Superstep(prog[k], a, e, b);
    TagsAgree(prog, states, ends, k);
    QueueIsWhatWasSent(prog[k], a, e, b, q);
    forall i | 0 <= i < |b[q].queue|
      ensures b[q].queue[i].info.Send? && b[q].recvTag + b[q].queue[i].info.payloadSize == |b[q].queue[i].payload|
      ensures Decode(b[q].queue[i], b[q].recvTag) == SentBy(prog[k], q, |a|)[i]
    {
      MovedIsSent(prog[k], a, e, b, q, i);
    }
  }

  /** In every run with collective registrations and removals all processors hold equal
    * registers at the start of every superstep. */
  lemma {:induction false} RegistersAgree(prog: Program, states: seq<seq<Proc>>, ends: seq<seq<Proc>>, k: nat)
    requires IsRun(prog, states, ends) && k <= |prog| && EqualRegisters(states[0])
    requires forall j: nat | j < |prog| :: World(ends[j]) && SameRemovals(ends[j])
    ensures EqualRegisters(states[k])
  {
    if k > 0 {
      RegistersAgree(prog, states, ends, k - 1);
      RegistersStayEqual(prog[k - 1], states[k - 1], ends[k - 1], states[k]);
    }
  }

  /** So an address that q translates for p is the address that p itself has in the row of
    * q's own most recent registration of it. */
  lemma TranslationIsRemote(prog: Program, states: seq<seq<Proc>>, ends: seq<seq<Proc>>, k: nat, q: nat, p: nat,
                            address: int)
    requires IsRun(prog, states, ends) && k <= |prog| && EqualRegisters(states[0])
    requires forall j: nat | j < |prog| :: World(ends[j]) && SameRemovals(ends[j])
    requires p < |states[k]| && q < |states[k]| && Shaped(states[k][q], |states[k]|) && address in states[k][q].reg[q]
    ensures states[k][p].reg == states[k][q].reg
    ensures RegisteredTogether(states[k][q].reg[q], states[k][p].reg[p], address, Remote(states[k][q], q, p, address))
  {
    RegistersAgree(prog, states, ends, k);
    RowOf(states[k][q], |states[k]|, q, p, address);
  }

  /** The remote address stands in the last row in which `here` has this address. */
  ghost predicate RegisteredTogether(here: seq<int>, there: seq<int>, address: int, remote: int) {
    |here| == |there| && exists row ::
      && 0 <= row < |here| && here[row] == address && remote == there[row]
      && forall later | row < later < |here| :: here[later] != address
  }

  lemma RowOf(here: Proc, n: nat, q: nat, p: nat, address: int)
    requires Shaped(here, n) && p < n && q < n && address in here.reg[q]
    ensures RegisteredTogether(here.reg[q], here.reg[p], address, Remote(here, q, p, address))
  {
    LiveAddress(here.reg[q], address);
    var row := LastLive(here.reg[q], NoneRemoved(|here.reg[q]|), address).value;
    assert here.reg[q][row] == address;
  }

  // ----- the runs of a program -----

  /** A run begins with nothing logged. */
  ghost predicate Fresh(ps: seq<Proc>) {
    World(ps) && forall q: nat | q < |ps| :: NothingLogged(ps[q], |ps|)
  }

  /** The supersteps of a legal program are supersteps in the sense of this module. */
  lemma StepIs(prog: Program, init: seq<Proc>, k: nat)
    requires LegalProgram(prog, init) && k < |prog| && Fresh(AtStart(prog, init, k))
    ensures Superstep(prog[k], AtStart(prog, init, k), AtEnd(prog, init, k), AtStart(prog, init, k + 1))
    ensures Fresh(AtStart(prog, init, k + 1))
  {
    assert LegalStep(prog, init, k);
    var a, e, b := AtStart(prog, init, k), AtEnd(prog, init, k), AtStart(prog, init, k + 1);
    forall q: nat | q < |init| ensures SuperstepAt(prog[k], a, e, b, q) {
      assert LegalNode(prog, init, k, q);
    }
    forall q: nat | q < |init| ensures NothingLogged(b[q], |init|) {
      assert SuperstepAt(prog[k], a, e, b, q);
    }
  }

  /** The states at the start and at the end of superstep k, for those who only hand them on. */
  ghost predicate Starts(prog: Program, init: seq<Proc>, k: nat, ps: seq<Proc>) {
    forall x: nat :: x == k ==> ps == AtStart(prog, init, x)
  }

  ghost predicate Ends(prog: Program, init: seq<Proc>, k: nat, ps: seq<Proc>) {
    forall x: nat :: x == k ==> ps == AtEnd(prog, init, x)
  }

  lemma SuperstepOf(prog: Program, init: seq<Proc>, k: nat, a: seq<Proc>, e: seq<Proc>, b: seq<Proc>)
    requires LegalProgram(prog, init) && Fresh(init) && k < |prog|
    requires Starts(prog, init, k, a) && Ends(prog, init, k, e) && Starts(prog, init, k + 1, b)
    ensures Superstep(prog[k], a, e, b)
  {
    FreshAt(prog, init, k);
    StepIs(prog, init, k);
    assert a == AtStart(prog, init, k) && e == AtEnd(prog, init, k) && b == AtStart(prog, init, k + 1);
  }

  /** So the states of a legal program are a run. */
  lemma LegalRun(prog: Program, init: seq<Proc>) returns (states: seq<seq<Proc>>, ends: seq<seq<Proc>>)
    requires LegalProgram(prog, init) && Fresh(init)
    ensures IsRun(prog, states, ends)
    ensures forall k: nat :: k <= |prog| ==> Starts(prog, init, k, states[k])
    ensures forall k: nat :: k < |prog| ==> Ends(prog, init, k, ends[k])
  {
    states := AllStarts(prog, init, |prog|);
    ends := AllEnds(prog, init, |prog|);
    forall k: nat | k < |prog| ensures Superstep(prog[k], states[k], ends[k], states[k + 1]) {
      SuperstepOf(prog, init, k, states[k], ends[k], states[k + 1]);
    }
  }

  lemma {:induction false} AllStarts(prog: Program, init: seq<Proc>, n: nat) returns (states: seq<seq<Proc>>)
    ensures |states| == n + 1 && forall k: nat :: k <= n ==> Starts(prog, init, k, states[k])
  {
    states := [];
    if n > 0 { states := AllStarts(prog, init, n - 1); }
    var last := AtStart(prog, init, n);
    assert Starts(prog, init, n, last);
    states := states + [last];
  }

  lemma {:induction false} AllEnds(prog: Program, init: seq<Proc>, n: nat) returns (ends: seq<seq<Proc>>)
    ensures |ends| == n && forall k: nat :: k < n ==> Ends(prog, init, k, ends[k])
  {
    ends := [];
    if n > 0 {
      ends := AllEnds(prog, init, n - 1);
      var last := AtEnd(prog, init, n - 1);
      assert Ends(prog, init, n - 1, last);
      ends := ends + [last];
    }
  }

  lemma {:induction false} FreshAt(prog: Program, init: seq<Proc>, k: nat)
    requires LegalProgram(prog, init) && Fresh(init) && k <= |prog|
    ensures Fresh(AtStart(prog, init, k))
  {
    if k > 0 {
      FreshAt(prog, init, k - 1);
      StepIs(prog, init, k - 1);
    }
  }

  /** A program that sets tag sizes collectively. */
  ghost predicate SameTagsThroughout(prog: Program) {
    forall j: nat | j < |prog| :: SameTags(prog[j])
  }

  /** What processor q can move in superstep k + 1 of a legal program is what was sent to it in superstep k. */
  lemma MessagesOfProgram(prog: Program, init: seq<Proc>, k: nat, q: nat)
    requires LegalProgram(prog, init) && Fresh(init) && EqualTags(init) && SameTagsThroughout(prog)
    requires k < |prog| && q < |init|
    ensures |prog[k]| == |init|
    ensures ReadsAs(AtStart(prog, init, k + 1)[q].queue, AtStart(prog, init, k + 1)[q].recvTag,
      SentBy(prog[k], q, |init|))
  {
    assert LegalStep(prog, init, k);
    var states, ends := LegalRun(prog, init);
    assert Starts(prog, init, 0, states[0]) && Starts(prog, init, k + 1, states[k + 1]);
    assert states[0] == AtStart(prog, init, 0) && states[k + 1] == AtStart(prog, init, k + 1);
    MovedMessagesAreSent(prog, states, ends, k, q);
  }

  /** A program whose processors register and remove collectively. */
  ghost predicate SameRemovalsThroughout(prog: Program, init: seq<Proc>)
    requires LegalProgram(prog, init)
  {
    forall k: nat | k < |prog| :: SameRemovals(AtEnd(prog, init, k))
  }

  /** What processor q translates for p in superstep k of a legal program is what p registered in that row. */
  lemma TranslationOfProgram(prog: Program, init: seq<Proc>, k: nat, q: nat, p: nat, address: int)
    requires LegalProgram(prog, init) && Fresh(init) && EqualRegisters(init) && SameRemovalsThroughout(prog, init)
    requires k <= |prog| && q < |init| && p < |init|
    requires var here := AtStart(prog, init, k)[q]; Shaped(here, |init|) && address in here.reg[q]
    ensures var here, there := AtStart(prog, init, k)[q], AtStart(prog, init, k)[p];
      there.reg == here.reg && RegisteredTogether(here.reg[q], there.reg[p], address, Remote(here, q, p, address))
  {
    var states, ends := LegalRun(prog, init);
    assert Starts(prog, init, 0, states[0]) && Starts(prog, init, k, states[k]);
    assert states[0] == AtStart(prog, init, 0) && states[k] == AtStart(prog, init, k);
    forall j: nat | j < |prog| ensures World(ends[j]) && SameRemovals(ends[j]) {
      assert Ends(prog, init, j, ends[j]);
      assert SameRemovals(AtEnd(prog, init, j));
    }
    TranslationIsRemote(prog, states, ends, k, q, p, address);
  }
}
