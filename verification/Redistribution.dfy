/** bspredistr of examples/bspedupack/bspfft.c: from cycle c0 to cycle c1 with one put per packet. */
module Redistribution {
  import opened Arithmetic
  import opened FftMath
  import opened FftStages
  import opened Distributions

  /** size numbers per packet, `packets` packets per processor, number r of packet j being local
    * number j + r ratio. */
  predicate Packing(np: nat, ratio: nat, size: nat, packets: nat) {
    && ratio > 0 && size > 0 && packets > 0 && size * packets == np
    && (packets == ratio || (size == 1 && packets <= ratio))
  }

  /** How bspredistr picks the packet size for powers of two. */
  lemma PowersPack(l: nat, e: nat, size: nat, packets: nat)
    requires size == (if P2(l) / P2(e) > 1 then P2(l) / P2(e) else 1) && packets == P2(l) / size
    ensures Packing(P2(l), P2(e), size, packets)
  {
    if e <= l {
      P2Mul(l - e, e);
      DivModUnique(P2(l), P2(e), P2(l - e), 0);
      assert size == P2(l - e);
      P2Mul(e, l - e);
      DivModUnique(P2(l), size, P2(e), 0);
    } else {
      P2Grows(l, e);
      DivModUnique(P2(l), P2(e), 0, P2(l));
      DivModUnique(P2(l), 1, P2(l), 0);
    }
  }

  lemma TakeFits(np: nat, ratio: nat, size: nat, packets: nat, j: nat, r: nat)
    requires Packing(np, ratio, size, packets) && j < packets && r < size
    ensures 0 <= r * ratio && j + r * ratio < np
  {
    if packets == ratio {
      RowBound(r, size, ratio, j);
    } else {
      assert r == 0 && np == packets;
    }
  }

  /** The packet and the place in it that local number t belongs to. */
  lemma TakenFrom(np: nat, ratio: nat, size: nat, packets: nat, j: nat, r: nat, t: nat)
    requires Packing(np, ratio, size, packets) && j < packets && r < size && t == j + r * ratio
    ensures j == (if packets == ratio then t % ratio else t)
    ensures r == (if packets == ratio then t / ratio else 0)
  {
    if packets == ratio {
      DivModUnique(t, ratio, r, j);
    } else {
      assert r == 0;
    }
  }

  lemma EveryoneTaken(np: nat, ratio: nat, size: nat, packets: nat, t: nat) returns (j: nat, r: nat)
    requires Packing(np, ratio, size, packets) && t < np
    ensures j < packets && r < size && t == j + r * ratio
  {
    if packets == ratio {
      j, r := t % ratio, t / ratio;
      assert ratio * size == np;
      QuotientBelow(t, ratio, size);
    } else {
      j, r := t, 0;
    }
  }

  lemma StrideTimes(j: int, r: int, ratio: int, c: int)
    ensures (j + r * ratio) * c == j * c + r * (ratio * c)
  {
    assert (j + r * ratio) * c == j * c + (r * ratio) * c;
    MulAssociative(r, ratio, c);
  }

  /** Number r of packet j goes to the same processor as its first number, r places further, and that
    * is the place the cycle-c1 distribution gives its global index. */
  lemma PacketLands(c0: int, c1: int, np: int, ratio: int, s: int, j: int, r: int, t: int)
    requires c0 > 0 && np > 0 && ratio > 0 && c1 == ratio * c0 > 0
    requires 0 <= j < np && 0 <= r && t == j + r * ratio && 0 <= t < np
    ensures c1 * np > 0 && Global(c0, np, s, t) == Global(c0, np, s, j) + r * c1
    ensures Owner(c1, np, Global(c0, np, s, t)) == Owner(c1, np, Global(c0, np, s, j))
    ensures Index(c1, np, Global(c0, np, s, t)) == Index(c1, np, Global(c0, np, s, j)) + r
  {
    var q, o := SplitGlobal(c0, c1, np, ratio, s, j);
    var q', o' := SplitGlobal(c0, c1, np, ratio, s, t);
    assert t * c0 == j * c0 + r * c1 by { StrideTimes(j, r, ratio, c0); }
    SameBlock(c1, np, q, o, o', r, Global(c0, np, s, j), Global(c0, np, s, t));
  }

  /** Two numbers of one block whose places differ by r rounds of the cycle. */
  lemma SameBlock(c: int, np: int, q: int, o: int, o': int, r: int, g: int, g': int)
    requires c > 0 && c * np > 0 && 0 <= o < c * np && 0 <= o' < c * np && o' == o + r * c
    requires g == q * (c * np) + o && g' == q * (c * np) + o'
    ensures Owner(c, np, g') == Owner(c, np, g) && Index(c, np, g') == Index(c, np, g) + r
  {
    DivModUnique(g, c * np, q, o);
    DivModUnique(g', c * np, q, o');
    RoundsOf(o, o', r, c);
    ModOf(g, q, c, np, o);
    ModOf(g', q, c, np, o');
  }

  lemma RoundsOf(o: int, o': int, r: int, c: int)
    requires c > 0 && o' == o + r * c
    ensures o' / c == o / c + r && o' % c == o % c
  {
    var a, b := o / c, o % c;
    assert (a + r) * c + b == a * c + b + r * c;
    DivModUnique(o', c, a + r, b);
  }

  /** The block of c1 np numbers a processor's numbers lie in, and where in it number t is. */
  lemma SplitGlobal(c0: int, c1: int, np: int, ratio: int, s: int, t: int) returns (q: int, o: int)
    requires c0 > 0 && np > 0 && ratio > 0 && c1 == ratio * c0 > 0 && 0 <= t < np
    ensures c1 * np > 0 && 0 <= o < c1 * np && Global(c0, np, s, t) == q * (c1 * np) + o
    ensures q == s / c0 / ratio && o == (s / c0 % ratio) * (c0 * np) + t * c0 + s % c0
  {
    var j2, j0, b := s / c0, s % c0, c0 * np;
    var m := j2 % ratio;
    q, o := j2 / ratio, m * b + t * c0 + j0;
    Positive(c1, np);
    assert ratio * b == c1 * np by { MulAssociative(ratio, c0, np); }
    assert 0 <= t * c0 + j0 < b by { RowBound(t, np, c0, j0); assert np * c0 == b; }
    RowBound(m, ratio, b, t * c0 + j0);
    SplitRow(j2, q, m, ratio, b);
  }

  lemma SplitRow(j: int, q: int, m: int, ratio: int, b: int)
    requires j == q * ratio + m
    ensures j * b == q * (ratio * b) + m * b
  {
    assert (q * ratio + m) * b == (q * ratio) * b + m * b;
    MulAssociative(q, ratio, b);
  }

  lemma ModOf(g: int, q: int, c: int, np: int, o: int)
    requires c > 0 && g == q * (c * np) + o
    ensures g % c == o % c
  {
    assert q * (c * np) == (q * np) * c;
    RoundsOf(o, g, q * np, c);
  }
}
