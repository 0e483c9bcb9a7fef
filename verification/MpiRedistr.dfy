/** mpiredistr of examples/mpiedupack/mpifft.c as all processors run it: sender and receiver work out
  * independently what is exchanged, and one MPI_Alltoallv moves it. */
module MpiRedistr {
  import opened Arithmetic
  import opened ComplexNumbers
  import opened FftMath
  import opened FftKernels
  import opened FftStages
  import opened Distributions
  import opened Redistribution
  import opened Redistribute
  import opened RedistrPackets
  import BspRedistr

  /** What a processor sends: Nsend, Offset_send and tmp. */
  datatype Outbox = Outbox(tmp: seq<real>, counts: seq<nat>, offsets: seq<nat>)

  /** What a processor expects: Nrecv and Offset_recv. */
  datatype Inbox = Inbox(counts: seq<nat>, offsets: seq<nat>)

  // ----- the sender -----

  /** tmp holds number k of packet j of v. */
  predicate Gathered(tmp: seq<real>, v: seq<Complex>, ratio: int, size: nat, j: nat, k: int) {
    && 0 <= k && 0 <= j + k * ratio < |v| && 2 * (Start(j, size) + k) + 1 < |tmp|
    && tmp[2 * (Start(j, size) + k)] == v[j + k * ratio].re
    && tmp[2 * (Start(j, size) + k) + 1] == v[j + k * ratio].im
  }

  ghost predicate AllGathered(tmp: seq<real>, v: seq<Complex>, ratio: int, size: nat, j: nat) {
    forall k :: 0 <= k < size ==> Gathered(tmp, v, ratio, size, j, k)
  }

  /** counts and offsets announce block i for processor d. */
  predicate Announced(counts: seq<nat>, offsets: seq<nat>, d: int, i: nat, size: nat) {
    && |counts| == |offsets| && 0 <= d < |counts|
    && counts[d] == 2 * size && offsets[d] == 2 * Start(i, size)
  }

  /** One of the first n packets goes to d. */
  ghost predicate Sends(c0: int, c1: int, np: int, proc: int, n: int, d: int)
    requires c0 > 0 && c1 > 0 && c1 * np > 0
  {
    exists j :: 0 <= j < n && Dest(c0, c1, np, proc, j) == d
  }

  /** The first n packets of v, each announced to its destination, and nothing to anybody else. */
  ghost predicate IsOutbox(out: Outbox, v: seq<Complex>, c0: int, c1: int, np: int, ratio: int, size: nat, proc: int,
                           n: nat)
    requires c0 > 0 && c1 > 0 && c1 * np > 0
  {
    && (forall j: nat :: j < n ==> AllGathered(out.tmp, v, ratio, size, j))
    && (forall j: nat :: j < n ==> Announced(out.counts, out.offsets, Dest(c0, c1, np, proc, j), j, size))
    && (forall d :: 0 <= d < |out.counts| && out.counts[d] != 0 ==> Sends(c0, c1, np, proc, n, d))
  }

  lemma DestInRange(c0: int, c1: int, np: int, ratio: int, size: int, packets: int, groups: int, proc: int, j: int)
    requires Packets(c0, c1, np, ratio, size, packets) && groups > 0 && 0 <= proc < groups * c1 && 0 <= j < packets
    ensures 0 <= Dest(c0, c1, np, proc, j) < groups * c1
  {
    FirstOfPacket(c0, c1, np, ratio, size, packets, j);
    BspRedistr.CoarserGroups(c0, c1, np, ratio, groups);
    assert c0 * (groups * ratio) == (groups * ratio) * c0;
    GlobalInRange(c0, np, groups * ratio, proc, j);
    assert (groups * c1) * np == (c1 * np) * groups by { MulAssociative(groups, c1, np); }
    OwnerInRange(c1, np, groups, Global(c0, np, proc, j));
  }

  /** Copies packet j to tmp. */
  method Gather(tmp: array<real>, x: array<real>, np: nat, ratio: nat, size: nat, packets: nat, j: nat, offset: nat)
    requires x.Length == 2 * np == tmp.Length && tmp != x && Packing(np, ratio, size, packets) && j < packets
    requires offset == 2 * Start(j, size) <= 2 * np
    modifies tmp
    ensures AllGathered(tmp[..], View(x, 0, np), ratio, size, j)
    ensures tmp[..offset] == old(tmp[..offset])
  {
    RoundFits(np, ratio, size, packets, j, size - 1);
    for r := 0 to size
      invariant tmp[..offset] == old(tmp[..offset])
      invariant forall k :: 0 <= k < r ==> Gathered(tmp[..], View(x, 0, np), ratio, size, j, k)
    {
      TakeFits(np, ratio, size, packets, j, r);
      ghost var before := tmp[..];
      var t := j + r * ratio;
      var i := offset + 2 * r;
      tmp[i], tmp[i + 1] := x[2 * t], x[2 * t + 1];
      forall k | 0 <= k < r + 1 ensures Gathered(tmp[..], View(x, 0, np), ratio, size, j, k) {
        if k < r {
          assert Gathered(before, View(x, 0, np), ratio, size, j, k);
        }
      }
    }
  }

  lemma StillGathered(tmp: seq<real>, tmp': seq<real>, v: seq<Complex>, ratio: int, size: nat, i: nat, j: nat)
    requires AllGathered(tmp, v, ratio, size, i) && i < j && 2 * Start(j, size) <= |tmp| == |tmp'|
    requires tmp[..2 * Start(j, size)] == tmp'[..2 * Start(j, size)]
    ensures AllGathered(tmp', v, ratio, size, i)
  {
    StartGrows(i + 1, j, size);
    forall k | 0 <= k < size ensures Gathered(tmp', v, ratio, size, i, k) {
      assert Gathered(tmp, v, ratio, size, i, k);
      var at := 2 * (Start(i, size) + k);
      assert tmp[..2 * Start(j, size)][at] == tmp'[..2 * Start(j, size)][at];
      assert tmp[..2 * Start(j, size)][at + 1] == tmp'[..2 * Start(j, size)][at + 1];
    }
  }

  /** The sender's half of mpiredistr. */
  method SendInfo(x: array<real>, p: nat, np: nat, proc: nat, c0: nat, c1: nat, ratio: nat, size: nat, packets: nat,
                  ghost groups: nat) returns (out: Outbox)
    requires Packets(c0, c1, np, ratio, size, packets) && groups > 0 && proc < p == groups * c1
    requires x.Length == 2 * np
    ensures |out.counts| == |out.offsets| == p && |out.tmp| == 2 * np
    ensures IsOutbox(out, View(x, 0, np), c0, c1, np, ratio, size, proc, packets)
  {
    var tmp := new real[2 * np];
    var counts: seq<nat>, offsets: seq<nat> := seq(p, _ => 0), seq(p, _ => 0);
    var offset := 0;
    var j0, j2 := proc % c0, proc / c0;
    for j := 0 to packets
      invariant offset == 2 * Start(j, size) && |counts| == |offsets| == p
      invariant IsOutbox(Outbox(tmp[..], counts, offsets), View(x, 0, np), c0, c1, np, ratio, size, proc, j)
    {
      ghost var before := Outbox(tmp[..], counts, offsets);
      var jglob := j2 * c0 * np + j * c0 + j0;
      BspRedistr.GlobalIsNat(c0, np, proc, j, jglob);
      var destproc := (jglob / (c1 * np)) * c1 + jglob % c1;
      DestInRange(c0, c1, np, ratio, size, packets, groups, proc, j);
      counts := counts[destproc := 2 * size];
      offsets := offsets[destproc := offset];
      RoundFits(np, ratio, size, packets, j, size - 1);
      Gather(tmp, x, np, ratio, size, packets, j, offset);
      offset := offset + 2 * size;
      OneMore(before, Outbox(tmp[..], counts, offsets), View(x, 0, np), c0, c1, np, ratio, size, packets, proc, j);
    }
    out := Outbox(tmp[..], counts, offsets);
  }

  lemma OneMore(out: Outbox, out': Outbox, v: seq<Complex>, c0: int, c1: int, np: int, ratio: int, size: nat,
                packets: nat, proc: int, j: nat)
    requires Packets(c0, c1, np, ratio, size, packets) && j < packets && |out.counts| == |out.offsets|
    requires IsOutbox(out, v, c0, c1, np, ratio, size, proc, j) && AllGathered(out'.tmp, v, ratio, size, j)
    requires 0 <= Dest(c0, c1, np, proc, j) < |out.counts|
    requires out'.counts == out.counts[Dest(c0, c1, np, proc, j) := 2 * size]
    requires out'.offsets == out.offsets[Dest(c0, c1, np, proc, j) := 2 * Start(j, size)]
    requires 2 * Start(j, size) <= |out.tmp| == |out'.tmp|
    requires out.tmp[..2 * Start(j, size)] == out'.tmp[..2 * Start(j, size)]
    ensures IsOutbox(out', v, c0, c1, np, ratio, size, proc, j + 1)
  {
    forall i: nat | i < j + 1
      ensures AllGathered(out'.tmp, v, ratio, size, i)
      ensures Announced(out'.counts, out'.offsets, Dest(c0, c1, np, proc, i), i, size)
    {
      if i < j {
        StillGathered(out.tmp, out'.tmp, v, ratio, size, i, j);
        assert Announced(out.counts, out.offsets, Dest(c0, c1, np, proc, i), i, size);
        OnePacketPerDestination(c0, c1, np, ratio, size, packets, proc, i, j);
      }
    }
    forall d | 0 <= d < |out'.counts| && out'.counts[d] != 0 ensures Sends(c0, c1, np, proc, j + 1, d) {
      if d != Dest(c0, c1, np, proc, j) {
        assert Sends(c0, c1, np, proc, j, d);
      }
    }
  }

  // ----- the receiver -----

  /** The processor whose number is proc. */
  function Named(proc: int, rev: bool, rho: seq<nat>): int
    requires 0 <= proc < |rho|
  {
    if rev then rho[proc] else proc
  }

  /** The processor that round r of processor b comes from. */
  ghost predicate From(c0: int, c1: int, np: int, size: nat, b: int, rev: bool, rho: seq<nat>, r: nat, a: int)
    requires c0 > 0 && c1 > 0 && c0 * np > 0
  {
    && 0 <= Source(c0, c1, np, b, Start(r, size)) < |rho|
    && a == Named(Source(c0, c1, np, b, Start(r, size)), rev, rho)
  }

  ghost predicate Receives(c0: int, c1: int, np: int, size: nat, b: int, rev: bool, rho: seq<nat>, n: int, a: int)
    requires c0 > 0 && c1 > 0 && c0 * np > 0
  {
    exists r: nat :: r < n && From(c0, c1, np, size, b, rev, rho, r, a)
  }

  /** Round r is announced. */
  ghost predicate Expected(box: Inbox, c0: int, c1: int, np: int, size: nat, b: int, rev: bool, rho: seq<nat>, r: nat)
    requires c0 > 0 && c1 > 0 && c0 * np > 0
  {
    && 0 <= Source(c0, c1, np, b, Start(r, size)) < |rho|
    && Announced(box.counts, box.offsets, Named(Source(c0, c1, np, b, Start(r, size)), rev, rho), r, size)
  }

  /** The first n rounds of processor b, each announced by its source, and nothing from anybody else. */
  ghost predicate IsInbox(box: Inbox, c0: int, c1: int, np: int, size: nat, b: int, rev: bool, rho: seq<nat>, n: nat)
    requires c0 > 0 && c1 > 0 && c0 * np > 0
  {
    && (forall r: nat :: r < n ==> Expected(box, c0, c1, np, size, b, rev, rho, r))
    && (forall a :: 0 <= a < |box.counts| && box.counts[a] != 0 ==> Receives(c0, c1, np, size, b, rev, rho, n, a))
  }

  lemma SourceInRange(c0: int, c1: int, np: int, ratio: int, size: int, packets: int, groups: int, b: int, r: nat)
    requires Packets(c0, c1, np, ratio, size, packets) && groups > 0 && 0 <= b < groups * c1 && r < packets
    ensures 0 <= Source(c0, c1, np, b, Start(r, size)) < groups * c1
  {
    RoundFits(np, ratio, size, packets, r, 0);
    assert c1 * groups == groups * c1;
    GlobalInRange(c1, np, groups, b, Start(r, size));
    BspRedistr.CoarserGroups(c0, c1, np, ratio, groups);
    OwnerInRange(c0, np, groups * ratio, Global(c1, np, b, Start(r, size)));
  }

  lemma NamesDiffer(rev: bool, rho: seq<nat>, proc: int, proc': int)
    requires BspRedistr.Numbering(rho, rev, |rho|) && 0 <= proc < |rho| && 0 <= proc' < |rho| && proc != proc'
    ensures Named(proc, rev, rho) != Named(proc', rev, rho)
  {
    if rev { assert rho[rho[proc]] == proc && rho[rho[proc']] == proc'; }
  }

  /** The receiver's half of mpiredistr. */
  method RecvInfo(p: nat, np: nat, b: nat, c0: nat, c1: nat, ratio: nat, size: nat, packets: nat, rev: bool,
                  rho: seq<nat>, ghost groups: nat) returns (box: Inbox)
    requires Packets(c0, c1, np, ratio, size, packets) && groups > 0 && b < p == groups * c1 == |rho|
    requires BspRedistr.Numbering(rho, rev, p)
    ensures |box.counts| == |box.offsets| == p && IsInbox(box, c0, c1, np, size, b, rev, rho, packets)
  {
    var counts: seq<nat>, offsets: seq<nat> := seq(p, _ => 0), seq(p, _ => 0);
    var offset := 0;
    var j0, j2 := b % c1, b / c1;
    for r := 0 to packets
      invariant offset == 2 * Start(r, size) && |counts| == |offsets| == p
      invariant IsInbox(Inbox(counts, offsets), c0, c1, np, size, b, rev, rho, r)
    {
      ghost var before := Inbox(counts, offsets);
      var j := r * size;
      StartIs(r, size);
      var jglob := j2 * c1 * np + j * c1 + j0;
      BspRedistr.GlobalIsNat(c1, np, b, j, jglob);
      SourceInRange(c0, c1, np, ratio, size, packets, groups, b, r);
      var srcproc := (jglob / (c0 * np)) * c0 + jglob % c0;
      if rev { srcproc := rho[srcproc]; }
      counts := counts[srcproc := 2 * size];
      offsets := offsets[srcproc := offset];
      offset := offset + 2 * size;
      OneMoreRound(before, Inbox(counts, offsets), c0, c1, np, ratio, size, packets, b, rev, rho, r, srcproc);
    }
    box := Inbox(counts, offsets);
  }

  lemma OneMoreRound(box: Inbox, box': Inbox, c0: int, c1: int, np: int, ratio: int, size: nat, packets: nat,
                     b: int, rev: bool, rho: seq<nat>, r: nat, a: int)
    requires Packets(c0, c1, np, ratio, size, packets) && r < packets && BspRedistr.Numbering(rho, rev, |rho|)
    requires IsInbox(box, c0, c1, np, size, b, rev, rho, r) && From(c0, c1, np, size, b, rev, rho, r, a)
    requires 0 <= a < |box.counts| == |box.offsets|
    requires box'.counts == box.counts[a := 2 * size] && box'.offsets == box.offsets[a := 2 * Start(r, size)]
    ensures IsInbox(box', c0, c1, np, size, b, rev, rho, r + 1)
  {
    forall i: nat | i < r + 1 ensures Expected(box', c0, c1, np, size, b, rev, rho, i) {
      if i < r {
        assert Expected(box, c0, c1, np, size, b, rev, rho, i);
        OnePacketPerSource(c0, c1, np, ratio, size, packets, b, i, r);
        NamesDiffer(rev, rho, Source(c0, c1, np, b, Start(i, size)), Source(c0, c1, np, b, Start(r, size)));
      }
    }
    forall a' | 0 <= a' < |box'.counts| && box'.counts[a'] != 0
      ensures Receives(c0, c1, np, size, b, rev, rho, r + 1, a')
    {
      if a' != a {
        assert Receives(c0, c1, np, size, b, rev, rho, r, a');
        var i: nat :| i < r && From(c0, c1, np, size, b, rev, rho, i, a');
      }
    }
  }

  // ----- the exchange -----

  /** Both sides announce the same count. */
  predicate Agree(outs: seq<Outbox>, ins: seq<Inbox>, a: int, b: int) {
    && 0 <= a < |outs| && 0 <= b < |ins| && b < |outs[a].counts| && a < |ins[b].counts|
    && outs[a].counts[b] == ins[b].counts[a]
  }

  /** Nsend on a for b is Nrecv on b for a. */
  lemma CountsAgree(outs: seq<Outbox>, ins: seq<Inbox>, v: seq<Complex>, c0: int, c1: int, np: int, ratio: int,
                    size: nat, packets: nat, rev: bool, rho: seq<nat>, groups: int, a: nat, b: nat)
    requires Packets(c0, c1, np, ratio, size, packets) && groups > 0
    requires a < |rho| && b < |rho| == groups * c1 == |outs| == |ins| && BspRedistr.Numbering(rho, rev, |rho|)
    requires |outs[a].counts| == |ins[b].counts| == |rho|
    requires IsOutbox(outs[a], v, c0, c1, np, ratio, size, BspRedistr.Numbered(a, rev, rho), packets)
    requires IsInbox(ins[b], c0, c1, np, size, b, rev, rho, packets)
    ensures Agree(outs, ins, a, b)
  {
    var proc := BspRedistr.Numbered(a, rev, rho);
    assert Named(proc, rev, rho) == a;
    if outs[a].counts[b] != 0 {
      assert Sends(c0, c1, np, proc, packets, b);
      var j: nat :| j < packets && Dest(c0, c1, np, proc, j) == b;
      assert Announced(outs[a].counts, outs[a].offsets, Dest(c0, c1, np, proc, j), j, size);
      var r := RoundOf(c0, c1, np, ratio, size, packets, proc, j);
      assert Expected(ins[b], c0, c1, np, size, b, rev, rho, r);
    }
    if ins[b].counts[a] != 0 {
      assert Receives(c0, c1, np, size, b, rev, rho, packets, a);
      var r: nat :| r < packets && From(c0, c1, np, size, b, rev, rho, r, a);
      var j := PacketOf(c0, c1, np, ratio, size, packets, b, r);
      assert Announced(outs[a].counts, outs[a].offsets, Dest(c0, c1, np, proc, j), j, size);
    }
  }

  /** The blocks a processor receives from a and a' do not overlap. */
  predicate Apart(box: Inbox, a: int, a': int) {
    && 0 <= a < |box.counts| == |box.offsets| && 0 <= a' < |box.counts|
    && (box.offsets[a] + box.counts[a] <= box.offsets[a'] || box.offsets[a'] + box.counts[a'] <= box.offsets[a]
        || box.counts[a] == 0 || box.counts[a'] == 0)
  }

  lemma BlocksApart(box: Inbox, c0: int, c1: int, np: int, size: nat, packets: nat, b: int, rev: bool, rho: seq<nat>,
                    a: nat, a': nat)
    requires c0 > 0 && c1 > 0 && c0 * np > 0 && |box.counts| == |box.offsets|
    requires IsInbox(box, c0, c1, np, size, b, rev, rho, packets) && a < |box.counts| && a' < |box.counts| && a != a'
    ensures Apart(box, a, a')
  {
    if box.counts[a] != 0 && box.counts[a'] != 0 {
      assert Receives(c0, c1, np, size, b, rev, rho, packets, a);
      var r: nat :| r < packets && From(c0, c1, np, size, b, rev, rho, r, a);
      assert Receives(c0, c1, np, size, b, rev, rho, packets, a');
      var r': nat :| r' < packets && From(c0, c1, np, size, b, rev, rho, r', a');
      assert Expected(box, c0, c1, np, size, b, rev, rho, r);
      assert Expected(box, c0, c1, np, size, b, rev, rho, r');
      if r < r' { StartGrows(r + 1, r', size); } else { StartGrows(r' + 1, r, size); }
    }
  }

  /** The blocks lie within the arrays. */
  predicate Within(outs: seq<Outbox>, ins: seq<Inbox>, np: nat, a: int, b: int) {
    && 0 <= a < |outs| && 0 <= b < |ins| && b < |outs[a].counts| == |outs[a].offsets|
    && a < |ins[b].counts| == |ins[b].offsets| && |outs[a].tmp| == 2 * np
    && (outs[a].counts[b] > 0 ==> outs[a].offsets[b] + outs[a].counts[b] <= 2 * np)
    && (ins[b].counts[a] > 0 ==> ins[b].offsets[a] + ins[b].counts[a] <= 2 * np)
  }
}
