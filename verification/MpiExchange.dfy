/** MPI_Alltoallv between the plans of all processors, and mpiredistr as a whole. */
module MpiExchange {
  import opened Arithmetic
  import opened ComplexNumbers
  import opened FftMath
  import opened FftKernels
  import opened FftStages
  import opened Distributions
  import opened Redistribution
  import opened Redistribute
  import opened RedistrPackets
  import opened MpiRedistr
  import BspRedistr

  /** Number i of the block from a has arrived in x. */
  predicate Arrived(x: seq<real>, out: Outbox, box: Inbox, a: int, b: int, i: int) {
    && 0 <= a < |box.offsets| && 0 <= b < |out.offsets|
    && 0 <= i && box.offsets[a] + i < |x| && out.offsets[b] + i < |out.tmp|
    && x[box.offsets[a] + i] == out.tmp[out.offsets[b] + i]
  }

  /** The block from a has arrived in x. */
  ghost predicate BlockArrived(x: seq<real>, out: Outbox, box: Inbox, a: int, b: int) {
    && 0 <= a < |box.counts|
    && forall i :: 0 <= i < box.counts[a] ==> Arrived(x, out, box, a, b, i)
  }

  /** MPI_Alltoallv demands that both sides agree, and that no place is filled twice. */
  ghost predicate Exchangeable(outs: seq<Outbox>, ins: seq<Inbox>, np: nat) {
    && |outs| == |ins|
    && (forall a, b :: 0 <= a < |outs| && 0 <= b < |outs| ==> Agree(outs, ins, a, b) && Within(outs, ins, np, a, b))
    && (forall b, a, a' :: 0 <= b < |outs| && 0 <= a < |outs| && 0 <= a' < |outs| && a != a' ==> Apart(ins[b], a, a'))
  }

  /** Processor b receives the block from a. */
  method ReceiveBlock(x: array<real>, out: Outbox, box: Inbox, a: nat, b: nat)
    requires a < |box.counts| == |box.offsets| && b < |out.offsets|
    requires box.counts[a] > 0 ==>
      out.offsets[b] + box.counts[a] <= |out.tmp| && box.offsets[a] + box.counts[a] <= x.Length
    modifies x
    ensures BlockArrived(x[..], out, box, a, b)
    ensures forall k :: 0 <= k < x.Length && !(box.offsets[a] <= k < box.offsets[a] + box.counts[a]) ==>
      x[k] == old(x[k])
  {
    var from, to := out.offsets[b], box.offsets[a];
    for i := 0 to box.counts[a]
      invariant forall k :: 0 <= k < x.Length ==>
        x[k] == if to <= k < to + i then out.tmp[from + (k - to)] else old(x[k])
    {
      x[to + i] := out.tmp[from + i];
    }
  }

  lemma StillArrived(x: seq<real>, x': seq<real>, out: Outbox, box: Inbox, a: nat, b: nat, a': nat)
    requires BlockArrived(x, out, box, a, b) && Apart(box, a, a') && |x| == |x'|
    requires forall k :: 0 <= k < |x| && !(box.offsets[a'] <= k < box.offsets[a'] + box.counts[a']) ==> x'[k] == x[k]
    ensures BlockArrived(x', out, box, a, b)
  {
    forall i | 0 <= i < box.counts[a] ensures Arrived(x', out, box, a, b, i) {
      assert Arrived(x, out, box, a, b, i);
    }
  }

  /** Processor b receives all its blocks. */
  method ReceiveAll(x: array<real>, outs: seq<Outbox>, ins: seq<Inbox>, np: nat, b: nat)
    requires Exchangeable(outs, ins, np) && b < |outs| && x.Length == 2 * np
    modifies x
    ensures forall a :: 0 <= a < |outs| ==> BlockArrived(x[..], outs[a], ins[b], a, b)
  {
    for a := 0 to |outs|
      invariant forall a' :: 0 <= a' < a ==> BlockArrived(x[..], outs[a'], ins[b], a', b)
    {
      ghost var before := x[..];
      assert Agree(outs, ins, a, b) && Within(outs, ins, np, a, b);
      ReceiveBlock(x, outs[a], ins[b], a, b);
      forall a' | 0 <= a' < a ensures BlockArrived(x[..], outs[a'], ins[b], a', b) {
        assert Apart(ins[b], a', a);
        StillArrived(before, x[..], outs[a'], ins[b], a', b, a);
      }
    }
  }

  /** Everything sent to processor b has arrived. */
  ghost predicate AllArrived(x: seq<real>, outs: seq<Outbox>, ins: seq<Inbox>, b: int) {
    0 <= b < |ins| && forall a :: 0 <= a < |outs| ==> BlockArrived(x, outs[a], ins[b], a, b)
  }

  method Alltoallv(xs: seq<array<real>>, outs: seq<Outbox>, ins: seq<Inbox>, np: nat)
    requires BspRedistr.Distributed(xs, np) && |outs| == |xs| && Exchangeable(outs, ins, np)
    modifies xs
    ensures forall b :: 0 <= b < |xs| ==> AllArrived(xs[b][..], outs, ins, b)
  {
    for b := 0 to |xs|
      invariant forall b' :: 0 <= b' < b ==> AllArrived(xs[b'][..], outs, ins, b')
    {
      label L:
      ReceiveAll(xs[b], outs, ins, np, b);
      forall b' | 0 <= b' < b ensures AllArrived(xs[b'][..], outs, ins, b') {
        assert xs[b'] != xs[b];
        assert xs[b'][..] == old@L(xs[b'][..]);
      }
    }
  }

  // ----- mpiredistr -----

  /** The plan of processor s. */
  ghost predicate Planned(outs: seq<Outbox>, ins: seq<Inbox>, v: seq<Complex>, c0: int, c1: int, np: nat, ratio: int,
                          size: nat, packets: nat, rev: bool, rho: seq<nat>, s: int)
    requires c0 > 0 && c1 > 0 && c1 * np > 0 && c0 * np > 0
  {
    && 0 <= s < |rho| && s < |outs| && s < |ins|
    && |outs[s].counts| == |outs[s].offsets| == |ins[s].counts| == |ins[s].offsets| == |rho| && |outs[s].tmp| == 2 * np
    && IsOutbox(outs[s], v, c0, c1, np, ratio, size, BspRedistr.Numbered(s, rev, rho), packets)
    && IsInbox(ins[s], c0, c1, np, size, s, rev, rho, packets)
  }

  /** All processors work out their plans. */
  method Plan(xs: seq<array<real>>, np: nat, c0: nat, c1: nat, ratio: nat, size: nat, packets: nat, rev: bool,
              rho: seq<nat>, ghost groups: nat) returns (outs: seq<Outbox>, ins: seq<Inbox>)
    requires BspRedistr.Distributed(xs, np) && BspRedistr.Numbering(rho, rev, |xs|)
    requires Packets(c0, c1, np, ratio, size, packets) && groups > 0 && |xs| == groups * c1
    ensures |outs| == |ins| == |xs|
    ensures forall s :: 0 <= s < |xs| ==>
      Planned(outs, ins, View(xs[s], 0, np), c0, c1, np, ratio, size, packets, rev, rho, s)
  {
    outs, ins := [], [];
    for s := 0 to |xs|
      invariant |outs| == |ins| == s
      invariant forall s' :: 0 <= s' < s ==>
        Planned(outs, ins, View(xs[s'], 0, np), c0, c1, np, ratio, size, packets, rev, rho, s')
    {
      var out := SendInfo(xs[s], |xs|, np, BspRedistr.Numbered(s, rev, rho), c0, c1, ratio, size, packets, groups);
      var box := RecvInfo(|xs|, np, s, c0, c1, ratio, size, packets, rev, rho, groups);
      ghost var outs', ins' := outs, ins;
      outs, ins := outs + [out], ins + [box];
      forall s' | 0 <= s' < s + 1
        ensures Planned(outs, ins, View(xs[s'], 0, np), c0, c1, np, ratio, size, packets, rev, rho, s')
      {
        if s' < s {
          assert Planned(outs', ins', View(xs[s'], 0, np), c0, c1, np, ratio, size, packets, rev, rho, s');
        }
      }
    }
  }

  lemma PlanIsWithin(outs: seq<Outbox>, ins: seq<Inbox>, v: seq<Complex>, c0: int, c1: int, np: nat, ratio: int,
                     size: nat, packets: nat, rev: bool, rho: seq<nat>, groups: int, a: nat, b: nat)
    requires Packets(c0, c1, np, ratio, size, packets) && a < |rho| == |outs| == |ins| && b < |rho|
    requires |ins[b].counts| == |ins[b].offsets| == |rho|
    requires Planned(outs, ins, v, c0, c1, np, ratio, size, packets, rev, rho, a)
    requires IsInbox(ins[b], c0, c1, np, size, b, rev, rho, packets)
    ensures Within(outs, ins, np, a, b)
  {
    if outs[a].counts[b] != 0 {
      var proc := BspRedistr.Numbered(a, rev, rho);
      assert Sends(c0, c1, np, proc, packets, b);
      var j: nat :| j < packets && Dest(c0, c1, np, proc, j) == b;
      assert Announced(outs[a].counts, outs[a].offsets, Dest(c0, c1, np, proc, j), j, size);
      RoundFits(np, ratio, size, packets, j, size - 1);
    }
    if ins[b].counts[a] != 0 {
      assert Receives(c0, c1, np, size, b, rev, rho, packets, a);
      var r: nat :| r < packets && From(c0, c1, np, size, b, rev, rho, r, a);
      assert Expected(ins[b], c0, c1, np, size, b, rev, rho, r);
      RoundFits(np, ratio, size, packets, r, size - 1);
    }
  }

  /** The number that place t of processor b should hold after the exchange has arrived. */
  lemma NumberArrives(x: seq<real>, outs: seq<Outbox>, ins: seq<Inbox>, v: seq<Complex>, V: seq<Complex>,
                      c0: int, c1: int, np: nat, ratio: int, size: nat, packets: nat, rev: bool, rho: seq<nat>,
                      b: nat, r: nat, k: nat, a: nat, proc: nat)
    requires Packets(c0, c1, np, ratio, size, packets) && r < packets && k < size && b < |rho| && a < |rho|
    requires proc == Source(c0, c1, np, b, Start(r, size)) < |rho| && a == Named(proc, rev, rho)
    requires BspRedistr.Numbered(a, rev, rho) == proc && |x| == 2 * np
    requires Planned(outs, ins, v, c0, c1, np, ratio, size, packets, rev, rho, a) && Holds(v, V, c0, np, proc)
    requires b < |outs| && b < |ins| && |ins[b].counts| == |ins[b].offsets|
    requires IsInbox(ins[b], c0, c1, np, size, b, rev, rho, packets)
    requires BlockArrived(x, outs[a], ins[b], a, b)
    ensures Start(r, size) + k < np
    ensures var t, g := Start(r, size) + k, Global(c1, np, b, Start(r, size) + k);
      0 <= g < |V| && x[2 * t] == V[g].re && x[2 * t + 1] == V[g].im
  {
    var j := PacketOf(c0, c1, np, ratio, size, packets, b, r);
    assert Announced(outs[a].counts, outs[a].offsets, Dest(c0, c1, np, proc, j), j, size);
    assert Expected(ins[b], c0, c1, np, size, b, rev, rho, r);
    assert AllGathered(outs[a].tmp, v, ratio, size, j);
    assert Gathered(outs[a].tmp, v, ratio, size, j, k);
    assert Arrived(x, outs[a], ins[b], a, b, 2 * k);
    assert Arrived(x, outs[a], ins[b], a, b, 2 * k + 1);
    RoundFits(np, ratio, size, packets, r, k);
    TakeFits(np, ratio, size, packets, j, k);
    FirstOfPacket(c0, c1, np, ratio, size, packets, j);
    assert HoldsAt(v, V, c0, np, proc, j + k * ratio);
    PacketLands(c0, c1, np, ratio, proc, j, k, j + k * ratio);
    FurtherOn(c1, np, b, Start(r, size), k);
  }

  lemma FurtherOn(c: int, np: int, b: int, i: int, k: int)
    requires c > 0
    ensures Global(c, np, b, i + k) == Global(c, np, b, i) + k * c
  {
    assert (i + k) * c == i * c + k * c;
  }

  /** The plans can be exchanged. */
  lemma PlansExchange(xs: seq<array<real>>, outs: seq<Outbox>, ins: seq<Inbox>, c0: int, c1: int, np: nat, ratio: int,
                      size: nat, packets: nat, rev: bool, rho: seq<nat>, groups: int)
    requires BspRedistr.Distributed(xs, np) && BspRedistr.Numbering(rho, rev, |xs|)
    requires Packets(c0, c1, np, ratio, size, packets) && groups > 0 && |outs| == |ins| == |xs| == groups * c1
    requires forall s :: 0 <= s < |xs| ==>
      Planned(outs, ins, View(xs[s], 0, np), c0, c1, np, ratio, size, packets, rev, rho, s)
    ensures Exchangeable(outs, ins, np)
  {
    forall a, b | 0 <= a < |outs| && 0 <= b < |outs| ensures Agree(outs, ins, a, b) && Within(outs, ins, np, a, b) {
      var v := View(xs[a], 0, np);
      assert Planned(outs, ins, v, c0, c1, np, ratio, size, packets, rev, rho, a);
      assert Planned(outs, ins, View(xs[b], 0, np), c0, c1, np, ratio, size, packets, rev, rho, b);
      CountsAgree(outs, ins, v, c0, c1, np, ratio, size, packets, rev, rho, groups, a, b);
      PlanIsWithin(outs, ins, v, c0, c1, np, ratio, size, packets, rev, rho, groups, a, b);
    }
    forall b, a, a' | 0 <= b < |outs| && 0 <= a < |outs| && 0 <= a' < |outs| && a != a' ensures Apart(ins[b], a, a') {
      assert Planned(outs, ins, View(xs[b], 0, np), c0, c1, np, ratio, size, packets, rev, rho, b);
      BlocksApart(ins[b], c0, c1, np, size, packets, b, rev, rho, a, a');
    }
  }

  /** What a processor holds when everything has arrived. */
  lemma PartArrives(x: array<real>, vs: seq<seq<Complex>>, outs: seq<Outbox>, ins: seq<Inbox>, V: seq<Complex>,
                    c0: int, c1: int, np: nat, ratio: int, size: nat, packets: nat, rev: bool, rho: seq<nat>,
                    groups: int, b: nat)
    requires BspRedistr.Numbering(rho, rev, |rho|) && |vs| == |outs| == |ins| == |rho| == groups * c1 && b < |rho|
    requires Packets(c0, c1, np, ratio, size, packets) && groups > 0 && x.Length == 2 * np
    requires forall s :: 0 <= s < |rho| ==>
      && Planned(outs, ins, vs[s], c0, c1, np, ratio, size, packets, rev, rho, s)
      && Holds(vs[s], V, c0, np, BspRedistr.Numbered(s, rev, rho))
    requires AllArrived(x[..], outs, ins, b)
    ensures Holds(View(x, 0, np), V, c1, np, b)
  {
    forall t | 0 <= t < np ensures HoldsAt(View(x, 0, np), V, c1, np, b, t) {
      var r, k := Round(np, ratio, size, packets, t);
      SourceInRange(c0, c1, np, ratio, size, packets, groups, b, r);
      var proc := Source(c0, c1, np, b, Start(r, size));
      var a := Named(proc, rev, rho);
      assert Planned(outs, ins, vs[a], c0, c1, np, ratio, size, packets, rev, rho, a);
      assert Planned(outs, ins, vs[b], c0, c1, np, ratio, size, packets, rev, rho, b);
      assert BlockArrived(x[..], outs[a], ins[b], a, b);
      NumberArrives(x[..], outs, ins, vs[a], V, c0, c1, np, ratio, size, packets, rev, rho, b, r, k, a, proc);
    }
  }

  lemma Round(np: nat, ratio: nat, size: nat, packets: nat, t: nat) returns (r: nat, k: nat)
    requires Packing(np, ratio, size, packets) && t < np
    ensures r < packets && k < size && t == Start(r, size) + k
  {
    QuotientBelow(t, size, packets);
    r, k := t / size, t % size;
    StartIs(r, size);
  }

  /** What every processor holds, in the numbers of its place. */
  ghost function Views(xs: seq<array<real>>, np: nat): (vs: seq<seq<Complex>>)
    requires BspRedistr.Distributed(xs, np)
    reads xs
    ensures |vs| == |xs| && forall s :: 0 <= s < |xs| ==> vs[s] == View(xs[s], 0, np)
  {
    seq(|xs|, s requires 0 <= s < |xs| && BspRedistr.Distributed(xs, np) reads xs => View(xs[s], 0, np))
  }

  /** The exchange, for any packing. */
  method Exchange(xs: seq<array<real>>, np: nat, c0: nat, c1: nat, ratio: nat, size: nat, packets: nat,
                  rev: bool, rho: seq<nat>, ghost V: seq<Complex>, ghost groups: nat)
    requires BspRedistr.Distributed(xs, np) && BspRedistr.Numbering(rho, rev, |xs|)
    requires Packets(c0, c1, np, ratio, size, packets) && groups > 0 && |xs| == groups * c1
    requires forall s :: 0 <= s < |xs| ==> BspRedistr.Held(xs, V, c0, np, rho, rev, s)
    modifies xs
    ensures forall s :: 0 <= s < |xs| ==> Holds(View(xs[s], 0, np), V, c1, np, s)
  {
    var outs, ins := Plan(xs, np, c0, c1, ratio, size, packets, rev, rho, groups);
    PlansExchange(xs, outs, ins, c0, c1, np, ratio, size, packets, rev, rho, groups);
    ghost var vs := Views(xs, np);
    assert forall s :: 0 <= s < |xs| ==> Planned(outs, ins, vs[s], c0, c1, np, ratio, size, packets, rev, rho, s);
    forall s | 0 <= s < |xs| ensures Holds(vs[s], V, c0, np, BspRedistr.Numbered(s, rev, rho)) {
      assert BspRedistr.Held(xs, V, c0, np, rho, rev, s);
    }
    Alltoallv(xs, outs, ins, np);
    forall b | 0 <= b < |xs| ensures Holds(View(xs[b], 0, np), V, c1, np, b) {
      PartArrives(xs[b], vs, outs, ins, V, c0, c1, np, ratio, size, packets, rev, rho, groups, b);
    }
  }

  /** mpiredistr leaves what bspredistr leaves. */
  method Mpiredistr(xs: seq<array<real>>, np: nat, c0: nat, c1: nat, rev: bool, rho: seq<nat>,
                    ghost V: seq<Complex>, ghost l: nat, ghost i0: nat, ghost i1: nat, ghost q: nat)
    requires i0 <= i1 <= q && np == P2(l) && c0 == P2(i0) && c1 == P2(i1) && |xs| == P2(q) && |V| == P2(l + q)
    requires BspRedistr.Distributed(xs, np) && BspRedistr.Numbering(rho, rev, |xs|)
    requires forall s :: 0 <= s < |xs| ==> BspRedistr.Held(xs, V, c0, np, rho, rev, s)
    modifies xs
    ensures forall s :: 0 <= s < |xs| ==> Holds(View(xs[s], 0, np), V, c1, np, s)
  {
    var ratio, size, packets := BspRedistr.PacketSizes(np, c0, c1, l, i0, i1);
    BspRedistr.GroupsOfPowers(i1, q, l);
    Positive(c0, np);
    Exchange(xs, np, c0, c1, ratio, size, packets, rev, rho, V, P2(q - i1));
  }
}
