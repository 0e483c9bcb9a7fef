/** Both phases of the broadcasts of examples/bspedupack/bsplu.c on all processors: any number of groups
  * broadcast at the same time. */
module BroadcastRun {
  import opened Broadcast
  import opened Puts

  /** The members of the group of processor s agree on it, and have room. */
  ghost predicate WellFormed(gs: seq<Group>, vs: seq<seq<real>>, s: int)
    requires 0 <= s < |gs|
  {
    var g := gs[s];
    && g.p0 > 0 && g.stride > 0 && InGroup(g, g.src)
    && forall t :: 0 <= t < g.p0 ==> MemberAgrees(gs, vs, g, t)
  }

  predicate MemberAgrees(gs: seq<Group>, vs: seq<seq<real>>, g: Group, t: int) {
    0 <= Member(g, t) < |gs| == |vs| && gs[Member(g, t)] == g && g.n <= |vs[Member(g, t)]|
  }

  ghost predicate Consistent(gs: seq<Group>, vs: seq<seq<real>>) {
    |gs| == |vs| && forall s :: 0 <= s < |gs| ==> WellFormed(gs, vs, s)
  }

  lemma SourceFits(gs: seq<Group>, vs: seq<seq<real>>, s: int)
    requires Consistent(gs, vs) && 0 <= s < |gs|
    ensures gs[s].src < |vs| && gs[s].n <= |vs[gs[s].src]| && gs[gs[s].src] == gs[s]
  {
    var g := gs[s];
    assert WellFormed(gs, vs, s);
    InGroupIsMember(g, g.src);
    assert MemberAgrees(gs, vs, g, (g.src - g.s0) / g.stride);
  }

  /** The numbers that the source of s's group broadcasts. */
  ghost function Sources(gs: seq<Group>, vs: seq<seq<real>>, s: int): (X: seq<real>)
    requires Consistent(gs, vs) && 0 <= s < |gs|
    ensures |X| == gs[s].n
  {
    SourceFits(gs, vs, s);
    vs[gs[s].src][..gs[s].n]
  }

  /** What processor s should end up with. */
  ghost function GoalAt(gs: seq<Group>, vs: seq<seq<real>>, s: int): (v: seq<real>)
    requires Consistent(gs, vs) && 0 <= s < |gs|
    ensures |v| == |vs[s]|
  {
    if InGroup(gs[s], s) then
      InGroupIsMember(gs[s], s);
      assert WellFormed(gs, vs, s);
      assert MemberAgrees(gs, vs, gs[s], (s - gs[s].s0) / gs[s].stride);
      Sources(gs, vs, s) + vs[s][gs[s].n..]
    else vs[s]
  }

  ghost function Goal(gs: seq<Group>, vs: seq<seq<real>>): (goal: seq<seq<real>>)
    requires Consistent(gs, vs)
    ensures |goal| == |vs| && forall s :: 0 <= s < |vs| ==> goal[s] == GoalAt(gs, vs, s)
  {
    seq(|vs|, s requires 0 <= s < |vs| => GoalAt(gs, vs, s))
  }

  lemma GoalIsWanted(gs: seq<Group>, vs: seq<seq<real>>, s: int)
    requires Consistent(gs, vs) && 0 <= s < |gs|
    ensures Wanted(gs[s], Goal(gs, vs), Sources(gs, vs, s))
  {
    var g, goal, X := gs[s], Goal(gs, vs), Sources(gs, vs, s);
    assert WellFormed(gs, vs, s);
    forall t | 0 <= t < g.p0 ensures WantedAt(g, goal, X, t) {
      var m := Member(g, t);
      assert MemberAgrees(gs, vs, g, t);
      MembersAreInGroup(g, t);
      assert goal[m] == GoalAt(gs, vs, m) == Sources(gs, vs, m) + vs[m][g.n..];
    }
  }

  /** What is right before anything is sent. */
  lemma RightAtStart(xs: seq<array<real>>, gs: seq<Group>, vs: seq<seq<real>>, d: int, i: int)
    requires Consistent(gs, vs) && Contents(xs, vs) && Shaped(xs, Goal(gs, vs))
    requires 0 <= d < |xs| && 0 <= i < xs[d].Length
    requires !InGroup(gs[d], d) || i >= gs[d].n || d == gs[d].src
    ensures Right(xs, Goal(gs, vs), d, i)
  {
    assert xs[d][..][i] == vs[d][i];
    var v := GoalAt(gs, vs, d);
    assert v[i] == vs[d][i];
  }

  lemma MorePhaseSent(g: Group, puts: seq<Put<real>>, more: seq<Put<real>>, s: int, phase: int)
    requires g.p0 > 0 && (PhaseSent(g, puts, s, phase) || PhaseSent(g, more, s, phase))
    ensures PhaseSent(g, puts + more, s, phase)
  {
    var b := BlockSize(g);
    if phase == 0 && s == g.src {
      forall t | 0 <= t < g.p0 ensures BlockSent(puts + more, Member(g, t), t, b, g.n) {
        MoreBlockSent(puts, more, Member(g, t), t, b, g.n);
      }
    }
    if phase == 1 && InGroup(g, s) {
      var t := (s - g.s0) / g.stride;
      forall t1 | 0 <= t1 < g.p0 && Member(g, t1) != g.src ensures BlockSent(puts + more, Member(g, t1), t, b, g.n) {
        MoreBlockSent(puts, more, Member(g, t1), t, b, g.n);
      }
    }
  }

  /** Processor s holds what it needs for a phase. */
  ghost predicate ReadyAt(xs: seq<array<real>>, gs: seq<Group>, vs: seq<seq<real>>, s: int, phase: int)
    requires Consistent(gs, vs) && 0 <= s < |gs| == |xs|
    reads xs
  {
    assert WellFormed(gs, vs, s);
    Ready(gs[s], xs[s][..], Sources(gs, vs, s), s, phase)
  }

  ghost predicate SentAt(gs: seq<Group>, puts: seq<Put<real>>, s: int, phase: int)
    requires 0 <= s < |gs|
  {
    gs[s].p0 > 0 ==> PhaseSent(gs[s], puts, s, phase)
  }

  lemma MoreSentAt(gs: seq<Group>, puts: seq<Put<real>>, more: seq<Put<real>>, s: int, phase: int)
    requires 0 <= s < |gs| && (SentAt(gs, puts, s, phase) || SentAt(gs, more, s, phase))
    ensures SentAt(gs, puts + more, s, phase)
  {
    if gs[s].p0 > 0 { MorePhaseSent(gs[s], puts, more, s, phase); }
  }

  /** Every processor issues the puts of one phase. */
  method IssuePhase(xs: seq<array<real>>, gs: seq<Group>, phase: int, ghost vs: seq<seq<real>>,
                    ghost goal: seq<seq<real>>)
    returns (puts: seq<Put<real>>)
    requires Consistent(gs, vs) && |gs| == |xs| && goal == Goal(gs, vs)
    requires forall s :: 0 <= s < |gs| ==> ReadyAt(xs, gs, vs, s, phase)
    ensures AllTruthful(puts, goal)
    ensures forall s :: 0 <= s < |gs| ==> SentAt(gs, puts, s, phase)
  {
    puts := [];
    for s := 0 to |gs|
      invariant AllTruthful(puts, goal)
      invariant forall s' :: 0 <= s' < s ==> SentAt(gs, puts, s', phase)
    {
      assert ReadyAt(xs, gs, vs, s, phase);
      assert WellFormed(gs, vs, s);
      GoalIsWanted(gs, vs, s);
      var more := BspBroadcast(xs[s], gs[s], s, phase, goal, Sources(gs, vs, s));
      MoreTruthful(puts, more, goal);
      assert SentAt(gs, more, s, phase);
      forall s' | 0 <= s' < s + 1 ensures SentAt(gs, puts + more, s', phase) {
        MoreSentAt(gs, puts, more, s', phase);
      }
      puts := puts + more;
    }
  }

  /** One superstep: every processor issues the puts of one phase, and the sync delivers them. */
  method Phase(xs: seq<array<real>>, gs: seq<Group>, phase: int, ghost vs: seq<seq<real>>, ghost goal: seq<seq<real>>)
    returns (ghost sent: seq<Put<real>>)
    requires Consistent(gs, vs) && |gs| == |xs| && goal == Goal(gs, vs) && Shaped(xs, goal)
    requires forall s :: 0 <= s < |gs| ==> ReadyAt(xs, gs, vs, s, phase)
    modifies xs
    ensures forall s :: 0 <= s < |gs| ==> SentAt(gs, sent, s, phase)
    ensures forall d, i :: old(Right(xs, goal, d, i)) ==> Right(xs, goal, d, i)
    ensures forall d, i :: Sent(sent, d, i) ==> Right(xs, goal, d, i)
  {
    var puts := IssuePhase(xs, gs, phase, vs, goal);
    sent := puts;
    Deliver(xs, puts, goal);
  }

  /** After phase 0 every member holds its own block. */
  lemma ReadyForPhase1(xs: seq<array<real>>, gs: seq<Group>, vs: seq<seq<real>>, goal: seq<seq<real>>,
                       sent: seq<Put<real>>, s: int)
    requires Consistent(gs, vs) && |gs| == |xs| && goal == Goal(gs, vs) && Shaped(xs, goal) && 0 <= s < |gs|
    requires forall s :: 0 <= s < |gs| ==> SentAt(gs, sent, s, 0)
    requires forall d, i :: Sent(sent, d, i) ==> Right(xs, goal, d, i)
    ensures ReadyAt(xs, gs, vs, s, 1)
  {
    var g, X := gs[s], Sources(gs, vs, s);
    if InGroup(g, s) {
      var t, b := (s - g.s0) / g.stride, BlockSize(g);
      InGroupIsMember(g, s);
      SourceFits(gs, vs, s);
      assert SentAt(gs, sent, g.src, 0);
      assert BlockSent(sent, Member(g, t), t, b, g.n);
      GoalIsWanted(gs, vs, s);
      assert WantedAt(g, goal, X, t);
      forall i | 0 <= i && InBlock(i, t, b, g.n) ensures xs[s][..][i] == X[i] {
        assert Sent(sent, s, i);
        assert Right(xs, goal, s, i);
        assert goal[s][i] == goal[s][..g.n][i];
      }
    }
  }

  /** After phase 1 everything is right. */
  lemma RightAtEnd(xs: seq<array<real>>, gs: seq<Group>, vs: seq<seq<real>>, goal: seq<seq<real>>,
                   sent: seq<Put<real>>, d: int, i: int)
    requires Consistent(gs, vs) && |gs| == |xs| && goal == Goal(gs, vs) && Shaped(xs, goal)
    requires 0 <= d < |gs| && InGroup(gs[d], d) && 0 <= i < gs[d].n && d != gs[d].src
    requires forall s :: 0 <= s < |gs| ==> SentAt(gs, sent, s, 1)
    requires forall d, i :: Sent(sent, d, i) ==> Right(xs, goal, d, i)
    ensures Right(xs, goal, d, i)
  {
    var g := gs[d];
    assert WellFormed(gs, vs, d);
    var t := BlocksCover(g, i);
    var m, t1 := Member(g, t), (d - g.s0) / g.stride;
    InGroupIsMember(g, d);
    MembersAreInGroup(g, t);
    assert MemberAgrees(gs, vs, g, t);
    assert SentAt(gs, sent, m, 1);
    assert BlockSent(sent, Member(g, t1), t, BlockSize(g), g.n);
    assert Sent(sent, d, i);
  }

  /** Number i of processor d needs no put. */
  predicate Settled(gs: seq<Group>, d: int, i: int)
    requires 0 <= d < |gs|
  {
    !InGroup(gs[d], d) || i >= gs[d].n || d == gs[d].src
  }

  /** Phase 0 has been delivered. */
  ghost predicate Halfway(xs: seq<array<real>>, gs: seq<Group>, vs: seq<seq<real>>)
    reads xs
  {
    && Consistent(gs, vs) && |gs| == |xs| && Shaped(xs, vs)
    && (forall s :: 0 <= s < |gs| ==> ReadyAt(xs, gs, vs, s, 1))
    && (forall d, i :: 0 <= d < |xs| && 0 <= i < xs[d].Length && Settled(gs, d, i) ==> Right(xs, Goal(gs, vs), d, i))
  }

  /** Phase 0 and its sync. */
  method FirstPhase(xs: seq<array<real>>, gs: seq<Group>, ghost vs: seq<seq<real>>)
    requires Contents(xs, vs) && Consistent(gs, vs) && Shaped(xs, vs)
    modifies xs
    ensures Halfway(xs, gs, vs)
  {
    ghost var goal := Goal(gs, vs);
    forall d, i | 0 <= d < |xs| && 0 <= i < xs[d].Length && Settled(gs, d, i)
      ensures Right(xs, goal, d, i)
    {
      RightAtStart(xs, gs, vs, d, i);
    }
    forall s | 0 <= s < |gs| ensures ReadyAt(xs, gs, vs, s, 0) {
      SourceFits(gs, vs, s);
    }
    ghost var sent := Phase(xs, gs, 0, vs, goal);
    forall s | 0 <= s < |gs| ensures ReadyAt(xs, gs, vs, s, 1) {
      ReadyForPhase1(xs, gs, vs, goal, sent, s);
    }
  }

  /** Phase 1 and its sync. */
  method SecondPhase(xs: seq<array<real>>, gs: seq<Group>, ghost vs: seq<seq<real>>)
    requires Halfway(xs, gs, vs)
    modifies xs
    ensures Contents(xs, Goal(gs, vs))
  {
    ghost var goal := Goal(gs, vs);
    ghost var sent := Phase(xs, gs, 1, vs, goal);
    forall d, i | 0 <= d < |xs| && 0 <= i < xs[d].Length ensures Right(xs, goal, d, i) {
      if InGroup(gs[d], d) && i < gs[d].n && d != gs[d].src {
        RightAtEnd(xs, gs, vs, goal, sent, d, i);
      }
    }
    forall d | 0 <= d < |xs| ensures xs[d][..] == goal[d] {
      forall i | 0 <= i < xs[d].Length ensures xs[d][..][i] == goal[d][i] {
        assert Right(xs, goal, d, i);
      }
    }
  }

  /** Phase 0, sync, phase 1, sync: every member of every group ends with the numbers of its source, and
    * nothing else changes. */
  method TwoPhaseBroadcast(xs: seq<array<real>>, gs: seq<Group>, ghost vs: seq<seq<real>>)
    requires Contents(xs, vs) && Consistent(gs, vs) && Shaped(xs, vs)
    modifies xs
    ensures Contents(xs, Goal(gs, vs))
  {
    FirstPhase(xs, gs, vs);
    SecondPhase(xs, gs, vs);
  }
}
