/** What bspx_qsize reports over whole runs: the number of messages that are left, and a number of bytes that counts
  * a tag and a payload for every message that was sent and takes off the payload for every message that was moved. */
module RunCounts {
  import opened Columns
  import opened MessageQueues
  import opened Supersteps
  import opened Protocol
  import opened RunProperties

  /** The bytes of messages, tags included. */
  function MessageBytes(ms: seq<Message>): nat {
    if ms == [] then 0
    else
      var last := ms[|ms| - 1];
      MessageBytes(ms[..|ms| - 1]) + |last.tag| + |last.payload|
  }

  /** The bytes of their payloads alone. */
  function PayloadBytes(ms: seq<Message>): nat {
    if ms == [] then 0 else PayloadBytes(ms[..|ms| - 1]) + |ms[|ms| - 1].payload|
  }

  lemma {:induction false} EncodedBytes(ms: seq<Message>)
    ensures Bytes(Encode(ms)) == MessageBytes(ms) && Payloads(Encode(ms)) == PayloadBytes(ms)
  {
    if ms != [] {
      var last := |ms| - 1;
      EncodedBytes(ms[..last]);
      assert Encode(ms)[..last] == Encode(ms[..last]);
    }
  }

  lemma EncodedFront(ms: seq<Message>, m: nat)
    requires m <= |ms|
    ensures Encode(ms)[..m] == Encode(ms[..m])
  {
  }

  /** How often a list of calls moves. */
  function Moves(calls: seq<Call>): nat {
    if calls == [] then 0 else Moves(calls[..|calls| - 1]) + if calls[|calls| - 1].HpMoveCall? then 1 else 0
  }

  function Least(a: nat, b: nat): nat {
    if a < b then a else b
  }

  /** st' is st with the first m messages moved. */
  predicate HasMoved(st: Proc, st': Proc, m: nat) {
    && m <= |st.queue| && st'.queue == st.queue[m..]
    && st'.queued == st.queued - Payloads(st.queue[..m])
  }

  lemma OneCall(st: Proc, st': Proc, p: nat, n: nat, call: Call, m: nat)
    requires Shaped(st', n) && p < n && Legal(st', p, n, call) && HasMoved(st, st', m)
    ensures HasMoved(st, Apply(st', p, call), if call.HpMoveCall? && m < |st.queue| then m + 1 else m)
  {
    if call.HpMoveCall? && m < |st.queue| {
      OneMoved(st.queue, m);
    }
  }

  lemma OneMoved(queue: seq<Record>, m: nat)
    requires m < |queue|
    ensures queue[m..][1..] == queue[m + 1..]
    ensures Payloads(queue[..m + 1]) == Payloads(queue[..m]) + Payloads(queue[m..][..1])
  {
    assert queue[..m + 1][..m] == queue[..m];
    assert queue[m..][..1] == [queue[m]] && [queue[m]][..0] == [];
  }

  lemma {:induction false} CallsMove(st: Proc, p: nat, n: nat, calls: seq<Call>)
    requires Shaped(st, n) && p < n && LegalAll(st, p, n, calls)
    ensures HasMoved(st, DoAll(st, p, n, calls), Least(Moves(calls), |st.queue|))
    decreases |calls|
  {
    if calls != [] {
      var i := |calls| - 1;
      LegalPrefix(st, p, n, calls, i);
      CallsMove(st, p, n, calls[..i]);
      var before := DoAll(st, p, n, calls[..i]);
      assert Legal(before, p, n, calls[i]);
      OneCall(st, before, p, n, calls[i], Least(Moves(calls[..i]), |st.queue|));
    }
  }

  /** In the superstep after `sent` was sent to this processor, when it has made these calls. */
  ghost predicate Counts(st: Proc, sent: seq<Message>, calls: seq<Call>) {
    var m := Least(Moves(calls), |sent|);
    |st.queue| == |sent| - m && st.queued == MessageBytes(sent) - PayloadBytes(sent[..m])
  }

  lemma CountsBehind(calls: seq<seq<Call>>, a: seq<Proc>, e: seq<Proc>, b: seq<Proc>, q: nat, now: seq<Call>)
    requires Superstep(calls, a, e, b) && q < |a| && Shaped(b[q], |a|) && LegalAll(b[q], q, |a|, now)
    ensures Counts(DoAll(b[q], q, |a|, now), SentBy(calls, q, |a|), now)
  {
    var sent := SentBy(calls, q, |a|);
    var m := Least(Moves(now), |sent|);
    assert SuperstepAt(calls, a, e, b, q);
    QueueIsWhatWasSent(calls, a, e, b, q);
    QueuedBytes(calls, a, e, b, q);
    CallsMove(b[q], q, |a|, now);
    EncodedFront(sent, m);
    EncodedBytes(sent[..m]);
  }

  lemma QueuedBytes(calls: seq<seq<Call>>, a: seq<Proc>, e: seq<Proc>, b: seq<Proc>, q: nat)
    requires Superstep(calls, a, e, b) && q < |a|
    ensures b[q].queued == MessageBytes(SentBy(calls, q, |a|))
  {
    assert SuperstepAt(calls, a, e, b, q);
    QueueIsWhatWasSent(calls, a, e, b, q);
    EncodedBytes(SentBy(calls, q, |a|));
  }

  /** In a legal program: what processor q counts in superstep k + 1, after any calls, is the messages sent to it in
    * superstep k less those that it has moved. */
  lemma CountsOfProgram(prog: Program, init: seq<Proc>, k: nat, q: nat, now: seq<Call>)
    requires LegalProgram(prog, init) && Fresh(init) && k < |prog| && q < |init|
    requires Shaped(AtStart(prog, init, k + 1)[q], |init|) && LegalAll(AtStart(prog, init, k + 1)[q], q, |init|, now)
    ensures |prog[k]| == |init|
    ensures Counts(DoAll(AtStart(prog, init, k + 1)[q], q, |init|, now), SentBy(prog[k], q, |init|), now)
  {
    assert LegalStep(prog, init, k);
    FreshAt(prog, init, k);
    StepIs(prog, init, k);
    CountsBehind(prog[k], AtStart(prog, init, k), AtEnd(prog, init, k), AtStart(prog, init, k + 1), q, now);
  }
}
