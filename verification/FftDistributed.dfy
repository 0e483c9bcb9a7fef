/** The stages of the transform over p processors: what a superstep's local work does to the
  * distributed vector. */
module FftDistributed {
  import opened Arithmetic
  import opened Rings
  import opened FftMath
  import opened FftStages
  import opened FftColumns

  /** The half of a stage that a block lies in. */
  lemma HalfOfBlock<T>(R: Ring<T>, j: nat, m: nat, v: seq<T>, z: T, base: nat, k: nat, a: seq<T>, h: nat, s: T)
    returns (v': seq<T>, a': seq<T>, base': nat)
    requires j < m && |v| == P2(m) && a == Stage(R, j, m, v, z) && h == P2(m - 1) && s == R.mul(z, z)
    requires base + k <= |v| && (base < h ==> base + k <= h)
    ensures |v'| == h && a' == Stage(R, j, m - 1, v', s) && base' == (if base < h then base else base - h)
    ensures base' + k <= h && v'[base'..base' + k] == v[base..base + k] && a'[base'..base' + k] == a[base..base + k]
  {
    StageHalves(R, j, m, v, z, a, h, s);
    if base < h {
      v', a', base' := v[..h], a[..h], base;
      SliceOfTake(v, h, base, base + k);
      SliceOfTake(a, h, base, base + k);
    } else {
      v', a', base' := v[h..], a[h..], base - h;
      SliceOfDrop(v, h, base', base' + k);
      SliceOfDrop(a, h, base', base' + k);
    }
  }

  /** A block of a stage is that stage of the block, with the power of the root that belongs to it. */
  lemma {:induction false} StageOfBlock<T(!new)>(R: Ring<T>, j: nat, i: nat, m: nat, v: seq<T>, z: T, base: nat,
                                           a: seq<T>, k: nat, y: T, b: seq<T>, w: seq<T>)
    requires Lawful(R) && j <= i <= m && |v| == P2(m) && BlockAt(i, m, base)
    requires a == Stage(R, j, m, v, z) && k == P2(i) && y == Pow(R, z, P2(m - i)) && base + k <= |v|
    requires b == v[base..base + k] && w == a[base..base + k]
    ensures w == Stage(R, j, i, b, y)
    decreases m
  {
    if i == m {
      PowTwo(R, z);
      assert b == v && w == a;
    } else {
      BlockFits(i, m, base);
      PowSquare(R, z, P2(m - 1 - i));
      var s := R.mul(z, z);
      var v', a', base' := HalfOfBlock(R, j, m, v, z, base, k, a, P2(m - 1), s);
      StageOfBlock(R, j, i, m - 1, v', s, base', a', k, y, b, w);
    }
  }

  lemma SliceOfTake<T>(s: seq<T>, h: nat, i: nat, n: nat)
    requires i <= n <= h <= |s|
    ensures s[..h][i..n] == s[i..n]
  {
  }

  lemma SliceOfDrop<T>(s: seq<T>, d: nat, i: nat, n: nat)
    requires i <= n && d + n <= |s|
    ensures s[d..][i..n] == s[d + i..d + n]
  {
  }

  /** Processor e of the group whose block is b: twiddling and transforming column e of b after stage i
    * gives column e of b after stage i + l. */
  lemma ColumnStep<T(!new)>(R: Ring<T>, l: nat, i: nat, m: nat, v: seq<T>, z: T, base: nat, e: nat,
                            count: nat, c: nat, y: T, before: seq<T>, after: seq<T>, k: nat,
                            u: seq<T>, w: T, tau: T)
    requires Lawful(R) && i + l <= m && |v| == P2(m) && BlockAt(i + l, m, base)
    requires count == P2(l) && c == P2(i) && e < c && y == Pow(R, z, P2(m - i - l))
    requires before == Stage(R, i, m, v, z) && after == Stage(R, i + l, m, v, z)
    requires k == P2(i + l) == Start(count, c) && base + k <= |v|
    requires u == Column(before[base..base + k], count, c, e) && w == Pow(R, y, c) && tau == Pow(R, y, e)
    ensures Column(after[base..base + k], count, c, e) == Unordered(R, l, Twiddled(R, l, u, tau), w)
  {
    var b, before', after' := v[base..base + k], before[base..base + k], after[base..base + k];
    StageOfBlock(R, i, i + l, m, v, z, base, before, k, y, b, before');
    StageOfBlock(R, i + l, i + l, m, v, z, base, after, k, y, b, after');
    ColumnOfTransform(R, l, i, b, y, count, c, e, before', after', u, w, tau);
    WeightedIsTwiddled(R, l, u, w, tau);
  }
}
