/** The transform stage by stage: after stage j of ufft every block of 2^j numbers holds its own
  * unordered transform. */
module FftStages {
  import opened Rings
  import opened FftMath
  import opened Arithmetic

  lemma {:induction false} P2Mul(a: nat, b: nat)
    ensures P2(a) * P2(b) == P2(a + b)
  {
    if a > 0 {
      P2Mul(a - 1, b);
      assert P2(a) * P2(b) == 2 * (P2(a - 1) * P2(b));
    }
  }

  /** Every block of 2^j numbers of v transformed, with the roots the whole transform uses. */
  function Stage<T>(R: Ring<T>, j: nat, m: nat, v: seq<T>, z: T): (r: seq<T>)
    requires j <= m && |v| == P2(m)
    ensures |r| == |v|
    decreases m
  {
    if j == m then Unordered(R, m, v, z)
    else Stage(R, j, m - 1, v[..P2(m - 1)], R.mul(z, z)) + Stage(R, j, m - 1, v[P2(m - 1)..], R.mul(z, z))
  }

  lemma StageHalves<T>(R: Ring<T>, j: nat, m: nat, v: seq<T>, z: T, a: seq<T>, h: nat, s: T)
    requires j < m && |v| == P2(m) && a == Stage(R, j, m, v, z) && h == P2(m - 1) && s == R.mul(z, z)
    ensures |v| == |a| == 2 * h
    ensures Stage(R, j, m - 1, v[..h], s) <= a && a[h..] == Stage(R, j, m - 1, v[h..], s)
    ensures a[..h] == Stage(R, j, m - 1, v[..h], s)
  {
  }

  lemma {:induction false} StageZero<T>(R: Ring<T>, m: nat, v: seq<T>, z: T)
    requires |v| == P2(m)
    ensures Stage(R, 0, m, v, z) == v
    decreases m
  {
    if m > 0 {
      StageZero(R, m - 1, v[..P2(m - 1)], R.mul(z, z));
      StageZero(R, m - 1, v[P2(m - 1)..], R.mul(z, z));
    }
  }

  /** base is where one of the blocks of size 2^j of a sequence of 2^m numbers starts. */
  predicate BlockAt(j: nat, m: nat, base: int)
    requires j <= m
    decreases m
  {
    if j == m then base == 0
    else BlockAt(j, m - 1, if base < P2(m - 1) then base else base - P2(m - 1))
  }

  lemma {:induction false} BlockFits(j: nat, m: nat, base: int)
    requires j <= m && BlockAt(j, m, base)
    ensures 0 <= base && base + P2(j) <= P2(m)
    ensures j < m && base < P2(m - 1) ==> base + P2(j) <= P2(m - 1)
    decreases m
  {
    if j < m {
      BlockFits(j, m - 1, if base < P2(m - 1) then base else base - P2(m - 1));
    }
  }

  /** The blocks start at the multiples of 2^j. */
  lemma {:induction false} MultiplesAreBlocks(j: nat, m: nat, r: nat, base: nat)
    requires j <= m && r < P2(m - j) && base == r * P2(j)
    ensures BlockAt(j, m, base)
    decreases m
  {
    if j < m {
      var c, k, h := P2(m - 1 - j), P2(j), P2(m - 1);
      assert c * k == h by { P2Mul(m - 1 - j, j); }
      BlockOrder(r, c, k, base, h);
      MultiplesAreBlocks(j, m - 1, if r < c then r else r - c, if r < c then base else base - h);
    }
  }

  lemma BlockOrder(r: int, c: int, k: int, base: int, h: int)
    requires base == r * k && h == c * k && k > 0
    ensures r < c ==> base < h
    ensures r >= c ==> base >= h && base - h == (r - c) * k
  {
    assert base - h == (r - c) * k;
    if r < c {
      MulMonotone(r - c, -1, k);
    } else {
      MulMonotone(0, r - c, k);
    }
  }

  /** Stage j combines the two halves of each of its blocks as stage j - 1 left them. */
  lemma {:induction false} StageBlock<T(!new)>(R: Ring<T>, j: nat, m: nat, v: seq<T>, z: T, base: nat,
                                        a: seq<T>, b: seq<T>, k: nat, w: T)
    requires Lawful(R) && 0 < j <= m && |v| == P2(m) && BlockAt(j, m, base)
    requires a == Stage(R, j - 1, m, v, z) && b == Stage(R, j, m, v, z)
    requires k == P2(j - 1) && w == Pow(R, z, P2(m - j))
    ensures BlockCombined(R, a, b, base, k, w)
    decreases m
  {
    if j == m {
      PowTwo(R, z);
      StageTop(R, m, v, z, a, b);
    } else {
      var h, s := P2(m - 1), R.mul(z, z);
      PowSquare(R, z, P2(m - 1 - j));
      StageHalves(R, j - 1, m, v, z, a, h, s);
      StageHalves(R, j, m, v, z, b, h, s);
      if base < h {
        var a0, b0 := Stage(R, j - 1, m - 1, v[..h], s), Stage(R, j, m - 1, v[..h], s);
        StageBlock(R, j, m - 1, v[..h], s, base, a0, b0, k, w);
        CombinedLeft(R, a, b, a0, b0, base, k, w);
      } else {
        var a1, b1 := Stage(R, j - 1, m - 1, v[h..], s), Stage(R, j, m - 1, v[h..], s);
        StageBlock(R, j, m - 1, v[h..], s, base - h, a1, b1, k, w);
        CombinedRight(R, a, b, a1, b1, h, base, k, w);
      }
    }
  }

  /** Number i of the block of 2h numbers of a at base, after the butterflies with root w. */
  function Butterfly<T>(R: Ring<T>, a: seq<T>, base: int, h: nat, w: T, i: int): T
    requires 0 <= base <= i < base + 2 * h <= |a|
  {
    if i < base + h then R.add(a[i], R.mul(Pow(R, w, i - base), a[i + h]))
    else R.Sub(a[i - h], R.mul(Pow(R, w, i - base - h), a[i]))
  }

  /** In b the block of 2h numbers at base is what the butterflies make of it in a. */
  predicate BlockCombined<T(==)>(R: Ring<T>, a: seq<T>, b: seq<T>, base: int, h: nat, w: T) {
    && |a| == |b| && 0 <= base && base + 2 * h <= |a|
    && forall i :: base <= i < base + 2 * h ==> b[i] == Butterfly(R, a, base, h, w, i)
  }

  lemma StageTop<T>(R: Ring<T>, m: nat, v: seq<T>, z: T, a: seq<T>, b: seq<T>)
    requires m > 0 && |v| == P2(m)
    requires a == Stage(R, m - 1, m, v, z) && b == Stage(R, m, m, v, z)
    ensures BlockCombined(R, a, b, 0, P2(m - 1), z)
  {
    var h, s := P2(m - 1), R.mul(z, z);
    var lo, hi := Unordered(R, m - 1, v[..h], s), Unordered(R, m - 1, v[h..], s);
    assert a == lo + hi && b == Combine(R, lo, hi, z);
    forall i | 0 <= i < 0 + 2 * h ensures b[i] == Butterfly(R, a, 0, h, z, i) {
      assert b[i] == CombineAt(R, lo, hi, z, i);
    }
  }

  lemma CombinedLeft<T>(R: Ring<T>, a: seq<T>, b: seq<T>, a0: seq<T>, b0: seq<T>, base: int, h: nat, w: T)
    requires BlockCombined(R, a0, b0, base, h, w) && |a| == |b| && a0 <= a && b0 <= b
    ensures BlockCombined(R, a, b, base, h, w)
  {
    forall i | base <= i < base + 2 * h ensures b[i] == Butterfly(R, a, base, h, w, i) {
      assert b[i] == b0[i] == Butterfly(R, a0, base, h, w, i);
    }
  }

  lemma CombinedRight<T>(R: Ring<T>, a: seq<T>, b: seq<T>, a1: seq<T>, b1: seq<T>, d: nat, base: int, h: nat, w: T)
    requires |a| == |b| && d <= |a| && a[d..] == a1 && b[d..] == b1
    requires BlockCombined(R, a1, b1, base - d, h, w)
    ensures BlockCombined(R, a, b, base, h, w)
  {
    forall i | base <= i < base + 2 * h ensures b[i] == Butterfly(R, a, base, h, w, i) {
      assert b[i] == b1[i - d] == Butterfly(R, a1, base - d, h, w, i - d);
    }
  }
}
