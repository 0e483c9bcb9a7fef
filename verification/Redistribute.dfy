/** The superstep of bspredistr: every processor puts its packets, and the sync delivers them. */
module Redistribute {
  import opened ComplexNumbers
  import opened Distributions
  import opened Redistribution
  import Puts

  /** Complex numbers for the registered array of processor dest, from number `index` on. */
  datatype Packet = Packet(dest: nat, index: nat, numbers: seq<Complex>)

  /** The real at position i of an array of complex numbers: the parts alternate. */
  function Half(z: Complex, i: int): real {
    if i % 2 == 0 then z.re else z.im
  }

  /** Complex numbers as the pairs of reals that are stored. */
  function Raw(numbers: seq<Complex>): seq<real> {
    seq(2 * |numbers|, i requires 0 <= i < 2 * |numbers| => Half(numbers[i / 2], i))
  }

  /** The put of a packet. */
  function AsPut(packet: Packet): Puts.Put<real> {
    Puts.Put(packet.dest, 2 * packet.index, Raw(packet.numbers))
  }

  /** The reals that processor s is to hold in the distribution of V with cycle c. */
  function RawPart(V: seq<Complex>, c: int, np: nat, s: int): (x: seq<real>)
    requires c > 0
    ensures |x| == 2 * np
  {
    seq(2 * np, i requires 0 <= i < 2 * np =>
      var g := Global(c, np, s, i / 2);
      if 0 <= g < |V| then Half(V[g], i) else 0.0)
  }

  function RawParts(V: seq<Complex>, c: int, np: nat, p: nat): (goal: seq<seq<real>>)
    requires c > 0
    ensures |goal| == p && forall s :: 0 <= s < p ==> goal[s] == RawPart(V, c, np, s)
  {
    seq(p, s requires 0 <= s < p => RawPart(V, c, np, s))
  }

  /** The put of a truthful packet carries what its destination is to hold. */
  lemma PutIsTruthful(packet: Packet, V: seq<Complex>, c: int, np: nat, p: nat)
    requires c > 0 && Truthful(packet, V, c, np, p)
    ensures Puts.Truthful(AsPut(packet), RawParts(V, c, np, p))
  {
    var part, n := RawPart(V, c, np, packet.dest), |packet.numbers|;
    assert TruthfulAt(packet, V, c, np, n - 1);
    forall i | 0 <= i < 2 * n ensures Raw(packet.numbers)[i] == part[2 * packet.index..][i] {
      assert TruthfulAt(packet, V, c, np, i / 2);
    }
    assert Raw(packet.numbers) == part[2 * packet.index..2 * packet.index + 2 * n];
  }

  /** The two reals of place t. */
  lemma HalvesOf(x: seq<real>, V: seq<Complex>, c: int, np: nat, s: int, t: nat)
    requires c > 0 && x == RawPart(V, c, np, s) && t < np && 0 <= Global(c, np, s, t) < |V|
    ensures x[2 * t] == V[Global(c, np, s, t)].re && x[2 * t + 1] == V[Global(c, np, s, t)].im
  {
    assert (2 * t) / 2 == t == (2 * t + 1) / 2;
  }

  /** v[t] is the number the cycle-c distribution of V gives to place t of processor s. */
  predicate HoldsAt(v: seq<Complex>, V: seq<Complex>, c: int, np: int, s: int, t: int)
    requires c > 0
  {
    0 <= t < |v| && 0 <= Global(c, np, s, t) < |V| && v[t] == V[Global(c, np, s, t)]
  }

  /** v is what processor s holds of V in the cycle-c distribution. */
  ghost predicate Holds(v: seq<Complex>, V: seq<Complex>, c: int, np: int, s: int)
    requires c > 0
  {
    |v| == np && forall t :: 0 <= t < np ==> HoldsAt(v, V, c, np, s, t)
  }

  /** Number r of the packet is the number of V that belongs where the put sends it. */
  predicate TruthfulAt(packet: Packet, V: seq<Complex>, c: int, np: int, r: int)
    requires c > 0
  {
    && 0 <= r < |packet.numbers| && packet.index + r < np
    && 0 <= Global(c, np, packet.dest, packet.index + r) < |V|
    && packet.numbers[r] == V[Global(c, np, packet.dest, packet.index + r)]
  }

  ghost predicate Truthful(packet: Packet, V: seq<Complex>, c: int, np: int, p: int)
    requires c > 0
  {
    packet.dest < p && packet.numbers != [] && forall r :: 0 <= r < |packet.numbers| ==> TruthfulAt(packet, V, c, np, r)
  }

  predicate Covers(packet: Packet, d: int, i: int) {
    packet.dest == d && packet.index <= i < packet.index + |packet.numbers|
  }

  /** Number r of packet j of v. */
  predicate PackedAt(packet: Packet, v: seq<Complex>, ratio: int, j: int, r: int) {
    && 0 <= r < |packet.numbers| && 0 <= j + r * ratio < |v|
    && packet.numbers[r] == v[j + r * ratio]
  }

  /** put is packet j of processor s, which holds v. */
  ghost predicate IsPacket(packet: Packet, v: seq<Complex>, c0: int, c1: int, np: int, ratio: int, size: int, s: int,
                           j: int)
    requires c0 > 0 && c1 > 0 && c1 * np > 0
  {
    && |packet.numbers| == size
    && packet.dest == Owner(c1, np, Global(c0, np, s, j))
    && packet.index == Index(c1, np, Global(c0, np, s, j))
    && forall r :: 0 <= r < size ==> PackedAt(packet, v, ratio, j, r)
  }

  /** A packet of a processor that holds its part of V carries every number to its place in the new
    * distribution of V. */
  lemma PacketsAreTruthful(packet: Packet, v: seq<Complex>, V: seq<Complex>, c0: int, c1: int, np: int, ratio: int,
                           size: int, packets: int, s: int, j: int, groups: int)
    requires c0 > 0 && np > 0 && ratio > 0 && c1 == ratio * c0 > 0 && c1 * np > 0
    requires 0 <= size && 0 <= packets && Packing(np, ratio, size, packets) && 0 <= j < packets
    requires groups > 0 && |V| == (c1 * np) * groups
    requires Holds(v, V, c0, np, s) && IsPacket(packet, v, c0, c1, np, ratio, size, s, j)
    ensures Truthful(packet, V, c1, np, groups * c1)
  {
    forall r | 0 <= r < |packet.numbers| ensures TruthfulAt(packet, V, c1, np, r) {
      assert PackedAt(packet, v, ratio, j, r);
      TakeFits(np, ratio, size, packets, j, r);
      var t := j + r * ratio;
      assert HoldsAt(v, V, c0, np, s, t);
      FirstFits(np, ratio, size, packets, j);
      PacketLands(c0, c1, np, ratio, s, j, r, t);
      GlobalOfPlace(c1, np, Global(c0, np, s, t));
    }
    FirstFits(np, ratio, size, packets, j);
    assert HoldsAt(v, V, c0, np, s, j);
    OwnerInRange(c1, np, groups, Global(c0, np, s, j));
  }

  lemma FirstFits(np: int, ratio: int, size: int, packets: int, j: int)
    requires 0 <= np && 0 <= ratio && 0 <= size && 0 <= packets && Packing(np, ratio, size, packets) && 0 <= j < packets
    ensures j < np
  {
    TakeFits(np, ratio, size, packets, j, 0);
  }

  /** Together the packets reach every place of every processor. */
  lemma PacketsCover(packet: Packet, v: seq<Complex>, c0: int, c1: int, np: int, ratio: int, size: int, packets: int,
                     s: int, j: int, r: int, t: int)
    requires c0 > 0 && np > 0 && ratio > 0 && c1 == ratio * c0 > 0 && c1 * np > 0
    requires 0 <= size && 0 <= packets && Packing(np, ratio, size, packets) && 0 <= j < packets
    requires 0 <= r < size && t == j + r * ratio
    requires IsPacket(packet, v, c0, c1, np, ratio, size, s, j)
    ensures Covers(packet, Owner(c1, np, Global(c0, np, s, t)), Index(c1, np, Global(c0, np, s, t)))
  {
    TakeFits(np, ratio, size, packets, j, r);
    FirstFits(np, ratio, size, packets, j);
    PacketLands(c0, c1, np, ratio, s, j, r, t);
  }

  /** No place is reached twice. */
  lemma PacketsDisjoint(packet: Packet, packet': Packet, v: seq<Complex>, v': seq<Complex>, c0: int, c1: int, np: int,
                        ratio: int,
                        size: int, packets: int, s: int, j: int, s': int, j': int, d: int, i: int)
    requires c0 > 0 && np > 0 && ratio > 0 && c1 == ratio * c0 > 0 && c1 * np > 0
    requires 0 <= size && 0 <= packets && Packing(np, ratio, size, packets) && 0 <= j < packets && 0 <= j' < packets
    requires IsPacket(packet, v, c0, c1, np, ratio, size, s, j)
      && IsPacket(packet', v', c0, c1, np, ratio, size, s', j')
    requires Covers(packet, d, i) && Covers(packet', d, i)
    ensures s == s' && j == j'
  {
    var t := LandsAt(packet, v, c0, c1, np, ratio, size, packets, s, j, d, i);
    var t' := LandsAt(packet', v', c0, c1, np, ratio, size, packets, s', j', d, i);
    PlaceOfGlobal(c0, np, s, t);
    PlaceOfGlobal(c0, np, s', t');
  }

  /** The local number that a packet brings to place i of processor d. */
  lemma LandsAt(packet: Packet, v: seq<Complex>, c0: int, c1: int, np: int, ratio: int, size: int, packets: int,
                s: int, j: int, d: int, i: int) returns (t: int)
    requires c0 > 0 && np > 0 && ratio > 0 && c1 == ratio * c0 > 0 && c1 * np > 0
    requires 0 <= size && 0 <= packets && Packing(np, ratio, size, packets) && 0 <= j < packets
    requires IsPacket(packet, v, c0, c1, np, ratio, size, s, j) && Covers(packet, d, i)
    ensures 0 <= t < np && Global(c0, np, s, t) == Global(c1, np, d, i)
    ensures j == if packets == ratio then t % ratio else t
  {
    var r := i - packet.index;
    t := j + r * ratio;
    TakeFits(np, ratio, size, packets, j, r);
    FirstFits(np, ratio, size, packets, j);
    TakenFrom(np, ratio, size, packets, j, r, t);
    PacketLands(c0, c1, np, ratio, s, j, r, t);
    GlobalOfPlace(c1, np, Global(c0, np, s, t));
  }
}
