/** The two-phase broadcast of examples/bspedupack/bsplu.c. */
module Broadcast {
  import opened Arithmetic
  import opened Distributions
  import opened Puts

  /** The arguments of a broadcast: n numbers from processor src to processors s0 + t stride, 0 <= t < p0. */
  datatype Group = Group(n: nat, src: nat, s0: nat, stride: nat, p0: nat)

  /** The test by which a processor finds that it belongs to the group. */
  predicate InGroup(g: Group, s: int) {
    g.stride > 0 && s % g.stride == g.s0 % g.stride && 0 <= (s - g.s0) / g.stride < g.p0
  }

  function Member(g: Group, t: int): int {
    g.s0 + t * g.stride
  }

  /** The group is exactly the processors s0 + t stride. */
  lemma MembersAreInGroup(g: Group, t: int)
    requires g.stride > 0 && 0 <= t < g.p0
    ensures InGroup(g, Member(g, t)) && (Member(g, t) - g.s0) / g.stride == t && Member(g, t) >= 0
  {
    var d := g.stride;
    MulMonotone(0, t, d);
    DivModUnique(t * d, d, t, 0);
    var q, r := g.s0 / d, g.s0 % d;
    assert g.s0 + t * d == (q + t) * d + r;
    DivModUnique(g.s0 + t * d, d, q + t, r);
  }

  lemma InGroupIsMember(g: Group, s: int)
    requires InGroup(g, s)
    ensures Member(g, (s - g.s0) / g.stride) == s
  {
    var d := g.stride;
    var a, b := s / d, g.s0 / d;
    assert s - g.s0 == (a - b) * d;
    DivModUnique(s - g.s0, d, a - b, 0);
  }

  /** The size of a block. */
  function BlockSize(g: Group): (b: nat)
    requires g.p0 > 0
  {
    QuotientNat(g.n, g.p0);
    if g.n % g.p0 == 0 then g.n / g.p0 else g.n / g.p0 + 1
  }

  predicate InBlock(i: int, t: int, b: int, n: int) {
    t * b <= i < n && i < t * b + b
  }

  lemma BlocksSuffice(n: nat, p0: nat, b: int)
    requires p0 > 0 && b == if n % p0 == 0 then n / p0 else n / p0 + 1
    ensures b * p0 >= n && (n > 0 ==> b > 0)
  {
    var q, r := n / p0, n % p0;
    assert n == q * p0 + r;
    assert (q + 1) * p0 == q * p0 + p0;
    if b <= 0 {
      MulMonotone(b, 0, p0);
    }
  }

  /** Every number lies in one of the p0 blocks. */
  lemma BlocksCover(g: Group, i: nat) returns (t: nat)
    requires g.p0 > 0 && i < g.n
    ensures t < g.p0 && InBlock(i, t, BlockSize(g), g.n)
  {
    var b := BlockSize(g);
    BlocksSuffice(g.n, g.p0, b);
    QuotientBelow(i, b, g.p0);
    t := i / b;
    assert i == t * b + i % b;
  }

  // ----- what each processor puts -----

  /** Every member of the group should end up with X. */
  ghost predicate Wanted(g: Group, goal: seq<seq<real>>, X: seq<real>) {
    |X| == g.n && forall t :: 0 <= t < g.p0 ==> WantedAt(g, goal, X, t)
  }

  predicate WantedAt(g: Group, goal: seq<seq<real>>, X: seq<real>, t: int) {
    0 <= Member(g, t) < |goal| && |X| <= |goal[Member(g, t)]| && goal[Member(g, t)][..|X|] == X
  }

  /** The put of block t, if the block is not empty. */
  method PutBlock(x: array<real>, g: Group, dest: nat, t: nat, b: nat, ghost goal: seq<seq<real>>, ghost X: seq<real>)
    returns (puts: seq<Put<real>>)
    requires |X| == g.n <= x.Length && dest < |goal| && g.n <= |goal[dest]| && goal[dest][..g.n] == X
    requires forall i :: InBlock(i, t, b, g.n) ==> 0 <= i && x[i] == X[i]
    ensures AllTruthful(puts, goal)
    ensures forall i :: InBlock(i, t, b, g.n) ==> Sent(puts, dest, i)
  {
    var lo := t * b;
    assert lo >= 0 by { MulMonotone(0, t, b); }
    var nb := if b <= g.n - lo then b else g.n - lo;
    puts := [];
    if nb > 0 {
      var put := Put(dest, lo, x[lo..lo + nb]);
      puts := [put];
      forall i | 0 <= i < nb ensures put.data[i] == goal[dest][lo..lo + nb][i] {
        assert InBlock(lo + i, t, b, g.n);
        assert goal[dest][lo + i] == goal[dest][..g.n][lo + i];
      }
      forall i | InBlock(i, t, b, g.n) ensures Sent(puts, dest, i) {
        assert Covers(puts[0], dest, i);
      }
    }
  }

  /** All of block t goes to processor d. */
  ghost predicate BlockSent(puts: seq<Put<real>>, d: int, t: int, b: int, n: int) {
    forall i :: InBlock(i, t, b, n) ==> Sent(puts, d, i)
  }

  lemma MoreBlockSent(puts: seq<Put<real>>, more: seq<Put<real>>, d: int, t: int, b: int, n: int)
    requires BlockSent(puts, d, t, b, n) || BlockSent(more, d, t, b, n)
    ensures BlockSent(puts + more, d, t, b, n)
  {
    forall i | InBlock(i, t, b, n) ensures Sent(puts + more, d, i) {
      MoreSent(puts, more, d, i);
    }
  }

  /** Phase 0 at the source: block t goes to member t, for the first `count` members. */
  ghost predicate Scattered(g: Group, puts: seq<Put<real>>, b: int, count: int) {
    forall t :: 0 <= t < count ==> BlockSent(puts, Member(g, t), t, b, g.n)
  }

  /** Phase 1 at member t: its block goes to the first `count` members, except the source. */
  ghost predicate Forwarded(g: Group, puts: seq<Put<real>>, b: int, t: int, count: int) {
    forall t1 :: 0 <= t1 < count && Member(g, t1) != g.src ==> BlockSent(puts, Member(g, t1), t, b, g.n)
  }

  method Scatter(x: array<real>, g: Group, b: nat, ghost goal: seq<seq<real>>, ghost X: seq<real>)
    returns (puts: seq<Put<real>>)
    requires Wanted(g, goal, X) && g.n <= x.Length && x[..g.n] == X
    ensures AllTruthful(puts, goal) && Scattered(g, puts, b, g.p0)
  {
    puts := [];
    for t := 0 to g.p0
      invariant AllTruthful(puts, goal) && Scattered(g, puts, b, t)
    {
      assert WantedAt(g, goal, X, t);
      var dest := g.s0 + t * g.stride;
      BlockStarts(t, b);
      forall i | InBlock(i, t, b, g.n) ensures 0 <= i && x[i] == X[i] {
        assert x[i] == x[..g.n][i];
      }
      var more := PutBlock(x, g, dest, t, b, goal, X);
      MoreTruthful(puts, more, goal);
      forall t' | 0 <= t' < t + 1 ensures BlockSent(puts + more, Member(g, t'), t', b, g.n) {
        MoreBlockSent(puts, more, Member(g, t'), t', b, g.n);
      }
      puts := puts + more;
    }
  }

  method Forward(x: array<real>, g: Group, t: nat, b: nat, ghost goal: seq<seq<real>>, ghost X: seq<real>)
    returns (puts: seq<Put<real>>)
    requires Wanted(g, goal, X) && g.n <= x.Length && HoldsBlock(x[..], X, t, b)
    ensures AllTruthful(puts, goal) && Forwarded(g, puts, b, t, g.p0)
  {
    puts := [];
    for t1 := 0 to g.p0
      invariant AllTruthful(puts, goal) && Forwarded(g, puts, b, t, t1)
    {
      assert WantedAt(g, goal, X, t1);
      var dest := g.s0 + t1 * g.stride;
      if dest != g.src {
        BlockStarts(t, b);
        forall i | InBlock(i, t, b, g.n) ensures 0 <= i && x[i] == X[i] {
          assert x[..][i] == X[i];
        }
        var more := PutBlock(x, g, dest, t, b, goal, X);
        MoreTruthful(puts, more, goal);
        forall t' | 0 <= t' < t1 + 1 && Member(g, t') != g.src
          ensures BlockSent(puts + more, Member(g, t'), t, b, g.n)
        {
          MoreBlockSent(puts, more, Member(g, t'), t, b, g.n);
        }
        puts := puts + more;
      }
    }
  }

  /** v has block t of X. */
  ghost predicate HoldsBlock(v: seq<real>, X: seq<real>, t: int, b: int) {
    |X| <= |v| && forall i :: 0 <= i && InBlock(i, t, b, |X|) ==> v[i] == X[i]
  }

  /** What a processor must hold for a phase. */
  ghost predicate Ready(g: Group, v: seq<real>, X: seq<real>, s: int, phase: int)
    requires g.p0 > 0
  {
    && (phase == 0 && s == g.src ==> |X| <= |v| && v[..|X|] == X)
    && (phase == 1 && InGroup(g, s) ==> HoldsBlock(v, X, (s - g.s0) / g.stride, BlockSize(g)))
  }

  /** What a phase sends from processor s. */
  ghost predicate PhaseSent(g: Group, puts: seq<Put<real>>, s: int, phase: int)
    requires g.p0 > 0
  {
    && (phase == 0 && s == g.src ==> Scattered(g, puts, BlockSize(g), g.p0))
    && (phase == 1 && InGroup(g, s) ==> Forwarded(g, puts, BlockSize(g), (s - g.s0) / g.stride, g.p0))
  }

  /** One phase of bsp_broadcast on processor s: the puts it issues. */
  method BspBroadcast(x: array<real>, g: Group, s: nat, phase: int, ghost goal: seq<seq<real>>, ghost X: seq<real>)
    returns (puts: seq<Put<real>>)
    requires g.p0 > 0 && g.stride > 0 && Wanted(g, goal, X) && Ready(g, x[..], X, s, phase)
    ensures AllTruthful(puts, goal) && PhaseSent(g, puts, s, phase)
  {
    QuotientNat(g.n, g.p0);
    var b := if g.n % g.p0 == 0 then g.n / g.p0 else g.n / g.p0 + 1;
    puts := [];
    if phase == 0 && s == g.src {
      puts := Scatter(x, g, b, goal, X);
    }
    if phase == 1 && s % g.stride == g.s0 % g.stride {
      var t := (s - g.s0) / g.stride;
      if 0 <= t < g.p0 {
        puts := Forward(x, g, t, b, goal, X);
      }
    }
  }

  lemma BlockStarts(t: nat, b: nat)
    ensures forall i, n :: InBlock(i, t, b, n) ==> i >= 0
  {
    MulMonotone(0, t, b);
  }
}
