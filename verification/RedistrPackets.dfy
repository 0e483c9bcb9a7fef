/** Which packets of a redistribution go where, seen from the sender and from the receiver
  * (mpiredistr of examples/mpiedupack/mpifft.c). */
module RedistrPackets {
  import opened Arithmetic
  import opened Distributions
  import opened Redistribution

  /** The processor that packet j of processor number proc goes to. */
  function Dest(c0: int, c1: int, np: int, proc: int, j: int): int
    requires c0 > 0 && c1 > 0 && c1 * np > 0
  {
    Owner(c1, np, Global(c0, np, proc, j))
  }

  /** The number of the processor that place i of processor b is filled by. */
  function Source(c0: int, c1: int, np: int, b: int, i: int): int
    requires c0 > 0 && c1 > 0 && c0 * np > 0
  {
    Owner(c0, np, Global(c1, np, b, i))
  }

  /** One redistribution: processors hold np numbers, in packets of `size`. */
  predicate Packets(c0: int, c1: int, np: int, ratio: int, size: int, packets: int) {
    && c0 > 0 && np > 0 && ratio > 0 && c1 == ratio * c0 > 0 && c1 * np > 0 && c0 * np > 0
    && size >= 0 && packets >= 0 && Packing(np, ratio, size, packets)
  }

  lemma FirstOfPacket(c0: int, c1: int, np: int, ratio: int, size: int, packets: int, j: int)
    requires Packets(c0, c1, np, ratio, size, packets) && 0 <= j < packets
    ensures 0 <= j < np
  {
    TakeFits(np, ratio, size, packets, j, 0);
  }

  /** A processor sends at most one packet to each destination. */
  lemma OnePacketPerDestination(c0: int, c1: int, np: int, ratio: int, size: int, packets: int, proc: int, j: int,
                                j': int)
    requires Packets(c0, c1, np, ratio, size, packets) && 0 <= j < j' < packets
    ensures Dest(c0, c1, np, proc, j) != Dest(c0, c1, np, proc, j')
  {
    FirstOfPacket(c0, c1, np, ratio, size, packets, j);
    FirstOfPacket(c0, c1, np, ratio, size, packets, j');
    var g, g' := Global(c0, np, proc, j), Global(c0, np, proc, j');
    var q, o := SplitGlobal(c0, c1, np, ratio, proc, j);
    var q', o' := SplitGlobal(c0, c1, np, ratio, proc, j');
    DivModUnique(g, c1 * np, q, o);
    DivModUnique(g', c1 * np, q, o');
    assert g' - g == (j' - j) * c0;
    MulMonotone(1, j' - j, c0);
    MulMonotone(j' - j + 1, ratio, c0);
    assert (j' - j + 1) * c0 == (j' - j) * c0 + c0;
    NearbyDiffer(g, g', c1);
  }

  lemma NearbyDiffer(g: int, g': int, c: int)
    requires 0 < g' - g < c
    ensures g % c != g' % c
  {
    if g % c == g' % c {
      assert g' - g == (g' / c - g / c) * c;
      DivModUnique(g' - g, c, g' / c - g / c, 0);
      DivModUnique(g' - g, c, 0, g' - g);
    }
  }

  /** Where in its destination packet j begins: at the start of one of the rounds. */
  lemma RoundOf(c0: int, c1: int, np: int, ratio: int, size: int, packets: int, proc: int, j: int) returns (r: nat)
    requires Packets(c0, c1, np, ratio, size, packets) && 0 <= j < packets
    ensures r < packets && Index(c1, np, Global(c0, np, proc, j)) == Start(r, size)
    ensures Global(c1, np, Dest(c0, c1, np, proc, j), Start(r, size)) == Global(c0, np, proc, j)
    ensures Source(c0, c1, np, Dest(c0, c1, np, proc, j), Start(r, size)) == proc
  {
    FirstOfPacket(c0, c1, np, ratio, size, packets, j);
    var g := Global(c0, np, proc, j);
    GlobalOfPlace(c1, np, g);
    PlaceOfGlobal(c0, np, proc, j);
    if packets == ratio {
      r := proc / c0 % ratio;
      WholeRounds(c0, c1, np, ratio, size, proc, j);
      StartIs(r, size);
    } else {
      r := Index(c1, np, g);
      StartIs(r, 1);
    }
  }

  lemma WholeRounds(c0: int, c1: int, np: int, ratio: int, size: int, proc: int, j: int)
    requires c0 > 0 && np > 0 && ratio > 0 && c1 == ratio * c0 > 0 && c1 * np > 0 && size * ratio == np
      && 0 <= j < ratio
    requires 0 < size && j < np
    ensures Index(c1, np, Global(c0, np, proc, j)) == (proc / c0 % ratio) * size
  {
    var m, e := proc / c0 % ratio, proc % c0;
    var q, o := SplitGlobal(c0, c1, np, ratio, proc, j);
    DivModUnique(Global(c0, np, proc, j), c1 * np, q, o);
    RowBound(j, ratio, c0, e);
    assert m * (c0 * np) == (m * size) * c1 by {
      assert c0 * np == size * c1 by { MulAssociative(size, ratio, c0); }
      MulAssociative(m, size, c1);
    }
    DivModUnique(o, c1, m * size, j * c0 + e);
  }

  /** The packet that fills round r of processor b: it is sent to b, and begins there. */
  lemma PacketOf(c0: int, c1: int, np: int, ratio: int, size: int, packets: int, b: int, r: nat) returns (j: nat)
    requires Packets(c0, c1, np, ratio, size, packets) && r < packets
    ensures j < packets
    ensures var proc := Source(c0, c1, np, b, Start(r, size));
      && Dest(c0, c1, np, proc, j) == b
      && Index(c1, np, Global(c0, np, proc, j)) == Start(r, size)
      && Global(c0, np, proc, j) == Global(c1, np, b, Start(r, size))
  {
    var i := Start(r, size);
    RoundFits(np, ratio, size, packets, r, 0);
    var g := Global(c1, np, b, i);
    PlaceOfGlobal(c1, np, b, i);
    GlobalOfPlace(c0, np, g);
    var proc, t := Owner(c0, np, g), Index(c0, np, g);
    var k;
    j, k := EveryoneTaken(np, ratio, size, packets, t);
    FirstOfPacket(c0, c1, np, ratio, size, packets, j);
    PacketLands(c0, c1, np, ratio, proc, j, k, t);
    var r' := RoundOf(c0, c1, np, ratio, size, packets, proc, j);
    SameRound(r, r', size, k);
  }

  lemma RoundFits(np: nat, ratio: nat, size: nat, packets: nat, r: nat, k: nat)
    requires Packing(np, ratio, size, packets) && r < packets && k < size
    ensures Start(r, size) + k < np
  {
    StartGrows(r + 1, packets, size);
    StartIs(packets, size);
  }

  lemma SameRound(r: nat, r': nat, size: nat, k: nat)
    requires k < size && Start(r, size) == Start(r', size) + k
    ensures r == r' && k == 0
  {
    StartIs(r, size);
    StartIs(r', size);
    DivModUnique(r * size, size, r, 0);
    DivModUnique(r * size, size, r', k);
  }

  /** A processor receives at most one packet from each source. */
  lemma OnePacketPerSource(c0: int, c1: int, np: int, ratio: int, size: int, packets: int, b: int, r: nat, r': nat)
    requires Packets(c0, c1, np, ratio, size, packets) && r < packets && r' < packets && r != r'
    ensures Source(c0, c1, np, b, Start(r, size)) != Source(c0, c1, np, b, Start(r', size))
  {
    var j := PacketOf(c0, c1, np, ratio, size, packets, b, r);
    var j' := PacketOf(c0, c1, np, ratio, size, packets, b, r');
    var proc := Source(c0, c1, np, b, Start(r, size));
    if Source(c0, c1, np, b, Start(r', size)) == proc {
      if j < j' {
        OnePacketPerDestination(c0, c1, np, ratio, size, packets, proc, j, j');
      } else if j' < j {
        OnePacketPerDestination(c0, c1, np, ratio, size, packets, proc, j', j);
      } else {
        SameRound(r, r', size, 0);
      }
    }
  }
}
