/** bspredistr of examples/bspedupack/bspfft.c as all processors run it: one superstep of puts. */
module BspRedistr {
  import opened Arithmetic
  import opened ComplexNumbers
  import opened FftMath
  import opened FftKernels
  import opened FftStages
  import opened Distributions
  import opened Redistribution
  import opened Redistribute
  import Puts

  /** Processor number s as bspredistr reads it. */
  function Numbered(s: nat, rev: bool, rho: seq<nat>): nat
    requires s < |rho|
  {
    if rev then rho[s] else s
  }

  /** The numbers of packet j, gathered in tmp. */
  method Pack(x: array<real>, np: nat, ratio: nat, size: nat, j: nat, ghost packets: nat)
    returns (numbers: seq<Complex>)
    requires x.Length == 2 * np && Packing(np, ratio, size, packets) && j < packets
    ensures Packed(numbers, View(x, 0, np), ratio, size, j)
  {
    var tmp := new real[2 * size];
    ghost var v := View(x, 0, np);
    for r := 0 to size
      invariant Packed(View(tmp, 0, r), v, ratio, r, j)
    {
      TakeFits(np, ratio, size, packets, j, r);
      ghost var before := View(tmp, 0, r);
      var t := j + r * ratio;
      SetPair(tmp, r, x[2 * t], x[2 * t + 1]);
      assert View(tmp, 0, r + 1)[..r] == before;
      PackedMore(before, View(tmp, 0, r + 1), v, ratio, r, j);
    }
    numbers := View(tmp, 0, size);
  }

  predicate Taken(numbers: seq<Complex>, v: seq<Complex>, ratio: nat, j: nat, r: int) {
    0 <= r < |numbers| && 0 <= j + r * ratio < |v| && numbers[r] == v[j + r * ratio]
  }

  ghost predicate Packed(numbers: seq<Complex>, v: seq<Complex>, ratio: nat, size: nat, j: nat) {
    |numbers| == size && forall r :: 0 <= r < size ==> Taken(numbers, v, ratio, j, r)
  }

  lemma PackedMore(a: seq<Complex>, b: seq<Complex>, v: seq<Complex>, ratio: nat, size: nat, j: nat)
    requires Packed(a, v, ratio, size, j) && |b| == size + 1 && b[..size] == a && Taken(b, v, ratio, j, size)
    ensures Packed(b, v, ratio, size + 1, j)
  {
    forall r | 0 <= r < size + 1 ensures Taken(b, v, ratio, j, r) {
      assert r < size ==> Taken(a, v, ratio, j, r) && b[r] == a[r];
    }
  }

  /** Packet j of the processor that knows itself under number `proc`. */
  method MakePacket(x: array<real>, np: nat, proc: nat, c0: nat, c1: nat, ratio: nat, size: nat, j: nat,
                    ghost packets: nat)
    returns (packet: Packet)
    requires x.Length == 2 * np && np > 0 && c0 > 0 && ratio > 0 && c1 == ratio * c0 > 0 && c1 * np > 0
    requires Packing(np, ratio, size, packets) && j < packets
    ensures IsPacket(packet, View(x, 0, np), c0, c1, np, ratio, size, proc, j)
  {
    var j0, j2 := proc % c0, proc / c0;
    var jglob := j2 * c0 * np + j * c0 + j0;
    GlobalIsNat(c0, np, proc, j, jglob);
    var destproc := (jglob / (c1 * np)) * c1 + jglob % c1;
    var destindex := (jglob % (c1 * np)) / c1;
    DestinationIsNat(c1, np, jglob, destproc, destindex);
    var numbers := Pack(x, np, ratio, size, j, packets);
    packet := Packet(destproc, destindex, numbers);
    PackedIsPacket(packet, View(x, 0, np), c0, c1, np, ratio, size, proc, j);
  }

  lemma PackedIsPacket(packet: Packet, v: seq<Complex>, c0: int, c1: int, np: int, ratio: nat, size: nat, proc: int,
                       j: nat)
    requires c0 > 0 && c1 > 0 && c1 * np > 0 && Packed(packet.numbers, v, ratio, size, j)
    requires packet.dest == Owner(c1, np, Global(c0, np, proc, j))
    requires packet.index == Index(c1, np, Global(c0, np, proc, j))
    ensures IsPacket(packet, v, c0, c1, np, ratio, size, proc, j)
  {
    forall r | 0 <= r < size ensures PackedAt(packet, v, ratio, j, r) {
      assert Taken(packet.numbers, v, ratio, j, r);
    }
  }

  lemma GlobalIsNat(c: nat, np: nat, proc: nat, j: nat, g: int)
    requires c > 0 && g == proc / c * c * np + j * c + proc % c
    ensures g == Global(c, np, proc, j) >= 0
  {
    QuotientNat(proc, c);
    MulAssociative(proc / c, c, np);
    MulMonotone(0, proc / c, c);
    MulMonotone(0, proc / c * c, np);
    MulMonotone(0, j, c);
  }

  /** The packets of one processor. */
  method CollectPackets(x: array<real>, np: nat, proc: nat, c0: nat, c1: nat, ratio: nat, size: nat, packets: nat)
    returns (issued: seq<Packet>)
    requires x.Length == 2 * np && np > 0 && c0 > 0 && ratio > 0 && c1 == ratio * c0 > 0 && c1 * np > 0
    requires Packing(np, ratio, size, packets)
    ensures |issued| == packets
    ensures forall j :: 0 <= j < packets ==> IsPacket(issued[j], View(x, 0, np), c0, c1, np, ratio, size, proc, j)
  {
    issued := [];
    for j := 0 to packets
      invariant |issued| == j
      invariant forall i :: 0 <= i < j ==> IsPacket(issued[i], View(x, 0, np), c0, c1, np, ratio, size, proc, i)
    {
      var packet := MakePacket(x, np, proc, c0, c1, ratio, size, j, packets);
      issued := issued + [packet];
    }
  }

  lemma DestinationIsNat(c: int, np: int, g: int, d: int, i: int)
    requires c > 0 && np > 0 && c * np > 0 && g >= 0
    requires d == (g / (c * np)) * c + g % c && i == (g % (c * np)) / c
    ensures d == Owner(c, np, g) >= 0 && i == Index(c, np, g) >= 0
  {
    GlobalOfPlace(c, np, g);
    QuotientNat(g, c * np);
    MulMonotone(0, g / (c * np), c);
  }

  // ----- the sync -----

  /** p processors, each with its own array of np numbers. */
  ghost predicate Distributed(xs: seq<array<real>>, np: nat)
  {
    && (forall s :: 0 <= s < |xs| ==> xs[s].Length == 2 * np)
    && (forall s, s' :: 0 <= s < s' < |xs| ==> xs[s] != xs[s'])
  }

  /** issued holds packet j of processor s. */
  ghost predicate Issued(issued: seq<Packet>, v: seq<Complex>, c0: int, c1: int, np: int, ratio: int, size: int, s: int,
                         j: int)
    requires c0 > 0 && c1 > 0 && c1 * np > 0
  {
    exists k :: 0 <= k < |issued| && IsPacket(issued[k], v, c0, c1, np, ratio, size, s, j)
  }

  lemma StillIssued(issued: seq<Packet>, more: seq<Packet>, v: seq<Complex>, c0: int, c1: int, np: int, ratio: int,
                    size: int,
                    s: int, j: int)
    requires c0 > 0 && c1 > 0 && c1 * np > 0
    requires Issued(issued, v, c0, c1, np, ratio, size, s, j) || Issued(more, v, c0, c1, np, ratio, size, s, j)
    ensures Issued(issued + more, v, c0, c1, np, ratio, size, s, j)
  {
    if Issued(issued, v, c0, c1, np, ratio, size, s, j) {
      var k :| 0 <= k < |issued| && IsPacket(issued[k], v, c0, c1, np, ratio, size, s, j);
      assert (issued + more)[k] == issued[k];
    } else {
      var k :| 0 <= k < |more| && IsPacket(more[k], v, c0, c1, np, ratio, size, s, j);
      assert (issued + more)[|issued| + k] == more[k];
    }
  }

  /** What a processor's numbering has to satisfy for all places to be reached. */
  ghost predicate Numbering(rho: seq<nat>, rev: bool, p: nat) {
    |rho| == p && (rev ==> IsInvolution(rho))
  }

  /** What processor s holds before the superstep. */
  ghost predicate Held(xs: seq<array<real>>, V: seq<Complex>, c0: int, np: nat, rho: seq<nat>, rev: bool, s: int)
    requires c0 > 0 && Distributed(xs, np) && 0 <= s < |xs| == |rho|
    reads xs
  {
    Holds(View(xs[s], 0, np), V, c0, np, Numbered(s, rev, rho))
  }

  /** The packets of the first s processors are issued. */
  ghost predicate AllIssued(xs: seq<array<real>>, issued: seq<Packet>, c0: int, c1: int, np: nat, ratio: int, size: int,
                            packets: int, rho: seq<nat>, rev: bool, s: int)
    requires c0 > 0 && c1 > 0 && c1 * np > 0 && Distributed(xs, np) && s <= |xs| == |rho|
    reads xs
  {
    forall s', j :: 0 <= s' < s && 0 <= j < packets ==>
      Issued(issued, View(xs[s'], 0, np), c0, c1, np, ratio, size, Numbered(s', rev, rho), j)
  }

  /** The computation phase of the superstep: every processor issues its packets. */
  method IssuePackets(xs: seq<array<real>>, np: nat, c0: nat, c1: nat, ratio: nat, size: nat, packets: nat,
                   rev: bool, rho: seq<nat>, ghost V: seq<Complex>, ghost groups: nat) returns (issued: seq<Packet>)
    requires Distributed(xs, np) && Numbering(rho, rev, |xs|) && np > 0 && groups > 0
    requires c0 > 0 && ratio > 0 && c1 == ratio * c0 > 0 && c1 * np > 0 && Packing(np, ratio, size, packets)
    requires |V| == (c1 * np) * groups && |xs| == groups * c1
    requires forall s :: 0 <= s < |xs| ==> Held(xs, V, c0, np, rho, rev, s)
    ensures forall k :: 0 <= k < |issued| ==> Truthful(issued[k], V, c1, np, |xs|)
    ensures AllIssued(xs, issued, c0, c1, np, ratio, size, packets, rho, rev, |xs|)
  {
    issued := [];
    for s := 0 to |xs|
      invariant forall k :: 0 <= k < |issued| ==> Truthful(issued[k], V, c1, np, |xs|)
      invariant AllIssued(xs, issued, c0, c1, np, ratio, size, packets, rho, rev, s)
    {
      assert Held(xs, V, c0, np, rho, rev, s);
      ghost var v := View(xs[s], 0, np);
      var proc := Numbered(s, rev, rho);
      var more := CollectPackets(xs[s], np, proc, c0, c1, ratio, size, packets);
      forall k | 0 <= k < |more| ensures Truthful(more[k], V, c1, np, |xs|) {
        PacketsAreTruthful(more[k], v, V, c0, c1, np, ratio, size, packets, proc, k, groups);
      }
      forall s', j | 0 <= s' < s + 1 && 0 <= j < packets
        ensures Issued(issued + more, View(xs[s'], 0, np), c0, c1, np, ratio, size, Numbered(s', rev, rho), j)
      {
        if s' == s {
          assert IsPacket(more[j], v, c0, c1, np, ratio, size, proc, j);
        }
        StillIssued(issued, more, View(xs[s'], 0, np), c0, c1, np, ratio, size, Numbered(s', rev, rho), j);
      }
      issued := issued + more;
    }
  }

  /** Some packet reaches place i of processor d. */
  lemma PlaceReached(xs: seq<array<real>>, issued: seq<Packet>, c0: nat, c1: nat, np: nat, ratio: nat, size: nat,
                     packets: nat, rho: seq<nat>, rev: bool, groups: nat, d: nat, i: nat) returns (l: nat)
    requires Distributed(xs, np) && Numbering(rho, rev, |xs|) && np > 0 && groups > 0
    requires c0 > 0 && ratio > 0 && c1 == ratio * c0 > 0 && c1 * np > 0 && Packing(np, ratio, size, packets)
    requires |xs| == groups * c1 && d < |xs| && i < np
    requires AllIssued(xs, issued, c0, c1, np, ratio, size, packets, rho, rev, |xs|)
    ensures l < |issued| && Covers(issued[l], d, i)
  {
    var g := Global(c1, np, d, i);
    assert c1 * groups == groups * c1;
    GlobalInRange(c1, np, groups, d, i);
    PlaceOfGlobal(c1, np, d, i);
    GlobalOfPlace(c0, np, g);
    var proc, t := Owner(c0, np, g), Index(c0, np, g);
    assert proc < |xs| && proc >= 0 by {
      CoarserGroups(c0, c1, np, ratio, groups);
      OwnerInRange(c0, np, groups * ratio, g);
    }
    var s: nat := if rev then rho[proc] else proc;
    assert Numbered(s, rev, rho) == proc;
    var j, r := EveryoneTaken(np, ratio, size, packets, t);
    var v := View(xs[s], 0, np);
    assert Issued(issued, v, c0, c1, np, ratio, size, proc, j);
    l :| 0 <= l < |issued| && IsPacket(issued[l], v, c0, c1, np, ratio, size, proc, j);
    PacketsCover(issued[l], v, c0, c1, np, ratio, size, packets, proc, j, r, t);
  }

  lemma CoarserGroups(c0: int, c1: int, np: int, ratio: int, groups: int)
    requires c1 == ratio * c0 && groups > 0 && ratio > 0
    ensures groups * ratio > 0 && (groups * ratio) * c0 == groups * c1
    ensures (groups * c1) * np == (c0 * np) * (groups * ratio)
  {
    Positive(groups, ratio);
    MulAssociative(groups, ratio, c0);
    MulAssociative(groups * ratio, c0, np);
  }

  ghost predicate Reached(issued: seq<Packet>, d: nat, i: nat) {
    exists k :: 0 <= k < |issued| && Covers(issued[k], d, i)
  }

  /** The superstep, for any packing. */
  method Superstep(xs: seq<array<real>>, np: nat, c0: nat, c1: nat, ratio: nat, size: nat, packets: nat,
                   rev: bool, rho: seq<nat>, ghost V: seq<Complex>, ghost groups: nat)
    requires Distributed(xs, np) && Numbering(rho, rev, |xs|) && np > 0 && groups > 0
    requires c0 > 0 && ratio > 0 && c1 == ratio * c0 > 0 && c1 * np > 0 && Packing(np, ratio, size, packets)
    requires |V| == (c1 * np) * groups && |xs| == groups * c1
    requires forall s :: 0 <= s < |xs| ==> Held(xs, V, c0, np, rho, rev, s)
    modifies xs
    ensures forall s :: 0 <= s < |xs| ==> Holds(View(xs[s], 0, np), V, c1, np, s)
  {
    var issued := IssuePackets(xs, np, c0, c1, ratio, size, packets, rev, rho, V, groups);
    forall d: nat, i: nat | d < |xs| && i < np ensures Reached(issued, d, i) {
      var k := PlaceReached(xs, issued, c0, c1, np, ratio, size, packets, rho, rev, groups, d, i);
    }
    PlaceAll(xs, issued, np, c1, V, groups);
  }

  /** Every packet is a put of its reals, and the sync delivers them. */
  method PlaceAll(xs: seq<array<real>>, issued: seq<Packet>, np: nat, c: nat, ghost V: seq<Complex>,
                  ghost groups: nat)
    requires Distributed(xs, np) && c > 0 && np > 0 && |V| == (c * np) * groups && |xs| == groups * c
    requires forall k :: 0 <= k < |issued| ==> Truthful(issued[k], V, c, np, |xs|)
    requires forall d: nat, i: nat :: d < |xs| && i < np ==> Reached(issued, d, i)
    modifies xs
    ensures forall s :: 0 <= s < |xs| ==> Holds(View(xs[s], 0, np), V, c, np, s)
  {
    ghost var goal := RawParts(V, c, np, |xs|);
    var puts := seq(|issued|, k requires 0 <= k < |issued| => AsPut(issued[k]));
    forall k | 0 <= k < |puts| ensures Puts.Truthful(puts[k], goal) {
      PutIsTruthful(issued[k], V, c, np, |xs|);
    }
    forall d, i | 0 <= d < |xs| && 0 <= i < xs[d].Length ensures Puts.Sent(puts, d, i) {
      var half := i / 2;
      assert Reached(issued, d, half);
      var k :| 0 <= k < |issued| && Covers(issued[k], d, half);
      assert Puts.Covers(puts[k], d, i);
    }
    Puts.Sync(xs, puts, goal);
    forall s | 0 <= s < |xs| ensures Holds(View(xs[s], 0, np), V, c, np, s) {
      forall t | 0 <= t < np ensures HoldsAt(View(xs[s], 0, np), V, c, np, s, t) {
        GlobalInRange(c, np, groups, s, t);
        HalvesOf(xs[s][..], V, c, np, s, t);
      }
    }
  }

  /** The packet size and the number of packets. */
  method PacketSizes(np: nat, c0: nat, c1: nat, ghost l: nat, ghost i0: nat, ghost i1: nat)
    returns (ratio: nat, size: nat, packets: nat)
    requires i0 <= i1 && np == P2(l) && c0 == P2(i0) && c1 == P2(i1)
    ensures Packing(np, ratio, size, packets) && c1 == ratio * c0
  {
    ghost var e := i1 - i0;
    RatioOfPowers(i0, e, c0, c1);
    ratio := c1 / c0;
    QuotientNat(np, ratio);
    size := np / ratio;
    if size < 1 { size := 1; }
    QuotientNat(np, size);
    packets := np / size;
    PowersPack(l, e, size, packets);
  }

  lemma RatioOfPowers(i0: nat, e: nat, c0: nat, c1: nat)
    requires c0 == P2(i0) && c1 == P2(i0 + e)
    ensures c1 / c0 == P2(e) && c1 == P2(e) * c0
  {
    P2Mul(e, i0);
    DivModUnique(c1, c0, P2(e), 0);
  }

  /** bspredistr: every number moves to the place the new distribution gives it. */
  method Bspredistr(xs: seq<array<real>>, np: nat, c0: nat, c1: nat, rev: bool, rho: seq<nat>,
                    ghost V: seq<Complex>, ghost l: nat, ghost i0: nat, ghost i1: nat, ghost q: nat)
    requires i0 <= i1 <= q && np == P2(l) && c0 == P2(i0) && c1 == P2(i1) && |xs| == P2(q) && |V| == P2(l + q)
    requires Distributed(xs, np) && Numbering(rho, rev, |xs|)
    requires forall s :: 0 <= s < |xs| ==> Held(xs, V, c0, np, rho, rev, s)
    modifies xs
    ensures forall s :: 0 <= s < |xs| ==> Holds(View(xs[s], 0, np), V, c1, np, s)
  {
    var ratio, size, packets := PacketSizes(np, c0, c1, l, i0, i1);
    GroupsOfPowers(i1, q, l);
    Superstep(xs, np, c0, c1, ratio, size, packets, rev, rho, V, P2(q - i1));
  }

  lemma GroupsOfPowers(i1: nat, q: nat, l: nat)
    requires i1 <= q
    ensures P2(q) == P2(q - i1) * P2(i1) && P2(l + q) == (P2(i1) * P2(l)) * P2(q - i1) && P2(i1) * P2(l) > 0
  {
    P2Mul(q - i1, i1);
    P2Mul(i1, l);
    P2Mul(i1 + l, q - i1);
  }
}
