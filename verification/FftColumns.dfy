/** Why the transform can be distributed: in the cyclic distribution of a block, the last stages of the
  * block's transform are a twiddle and an unordered transform of each processor's own numbers. */
module FftColumns {
  import opened Rings
  import opened FftMath
  import opened FftStages
  import opened Arithmetic

  // ----- strides -----

  /** 2^l blocks of 2^i numbers are 2^(l+i) numbers. */
  lemma StartP2(l: nat, i: nat)
    ensures Start(P2(l), P2(i)) == P2(l + i)
  {
    StartIs(P2(l), P2(i));
    P2Mul(l, i);
  }

  /** Entry r of every row of a matrix with rows of c numbers exists. */
  lemma ColumnFits(r: nat, count: nat, c: nat, s: nat)
    requires r < count && s < c
    ensures Start(r, c) + s < Start(count, c)
  {
    StartGrows(r + 1, count, c);
  }

  /** Every c-th number of b, from number s on. */
  function Column<T>(b: seq<T>, count: nat, c: nat, s: nat): (y: seq<T>)
    requires s < c && |b| == Start(count, c)
    ensures |y| == count
  {
    seq(count, r requires 0 <= r < count => (ColumnFits(r, count, c, s); b[Start(r, c) + s]))
  }

  lemma ColumnHalves<T>(b: seq<T>, h: nat, c: nat, s: nat)
    requires s < c && |b| == Start(2 * h, c)
    ensures |b| == 2 * Start(h, c)
    ensures Column(b, 2 * h, c, s) == Column(b[..Start(h, c)], h, c, s) + Column(b[Start(h, c)..], h, c, s)
  {
    StartAdd(h, h, c);
    var y := Column(b, 2 * h, c, s);
    var lo, hi := Column(b[..Start(h, c)], h, c, s), Column(b[Start(h, c)..], h, c, s);
    forall r: nat | r < 2 * h ensures y[r] == (lo + hi)[r] {
      ColumnFits(r, 2 * h, c, s);
      if r < h {
        ColumnFits(r, h, c, s);
      } else {
        StartAdd(h, r - h, c);
        ColumnFits(r - h, h, c, s);
      }
    }
  }

  // ----- butterflies with an extra factor -----

  /** The unordered transform with the extra factor tau in the weights of the last stage. */
  function Weighted<T>(R: Ring<T>, l: nat, y: seq<T>, w: T, tau: T): (r: seq<T>)
    requires |y| == P2(l)
    ensures |r| == |y|
    decreases l
  {
    if l == 0 then y
    else
      var h := P2(l - 1);
      Combine(R, Weighted(R, l - 1, y[..h], R.mul(w, w), R.mul(tau, tau)),
                 Scaled(R, tau, Weighted(R, l - 1, y[h..], R.mul(w, w), R.mul(tau, tau))), w)
  }

  function Scaled<T>(R: Ring<T>, a: T, y: seq<T>): (r: seq<T>)
    ensures |r| == |y|
  {
    seq(|y|, j requires 0 <= j < |y| => R.mul(a, y[j]))
  }

  /** Number j times tau^rho(j), rho being the bit reversal. */
  function Twiddled<T>(R: Ring<T>, l: nat, y: seq<T>, tau: T): (r: seq<T>)
    requires |y| == P2(l)
    ensures |r| == |y|
  {
    seq(|y|, j requires 0 <= j < |y| => R.mul(Pow(R, tau, Rev(l, j)), y[j]))
  }

  lemma ScaledCombine<T(!new)>(R: Ring<T>, a: T, lo: seq<T>, hi: seq<T>, w: T)
    requires Lawful(R) && |lo| == |hi|
    ensures Combine(R, Scaled(R, a, lo), Scaled(R, a, hi), w) == Scaled(R, a, Combine(R, lo, hi, w))
  {
    var x, y := Combine(R, Scaled(R, a, lo), Scaled(R, a, hi), w), Scaled(R, a, Combine(R, lo, hi, w));
    forall t: nat | t < 2 * |lo| ensures x[t] == y[t] {
      var i := if t < |lo| then t else t - |lo|;
      var u, v, p := lo[i], hi[i], Pow(R, w, i);
      ScaleButterfly(R, a, u, v, p);
    }
  }

  lemma ScaleButterfly<T(!new)>(R: Ring<T>, a: T, u: T, v: T, p: T)
    requires Lawful(R)
    ensures R.add(R.mul(a, u), R.mul(p, R.mul(a, v))) == R.mul(a, R.add(u, R.mul(p, v)))
    ensures R.Sub(R.mul(a, u), R.mul(p, R.mul(a, v))) == R.mul(a, R.Sub(u, R.mul(p, v)))
  {
    MulAssoc(R, p, a, v);
    MulComm(R, p, a);
    MulAssoc(R, a, p, v);
    MulAdd(R, a, u, R.mul(p, v));
    MulSub(R, a, u, R.mul(p, v));
  }

  /** The transform is linear in its numbers. */
  lemma {:induction false} UnorderedScaled<T(!new)>(R: Ring<T>, l: nat, y: seq<T>, w: T, a: T, z: seq<T>, u: seq<T>)
    requires Lawful(R) && |y| == P2(l) && z == Scaled(R, a, y) && u == Unordered(R, l, y, w)
    ensures Unordered(R, l, z, w) == Scaled(R, a, u)
  {
    if l > 0 {
      var h, s := P2(l - 1), R.mul(w, w);
      var lo, hi := Unordered(R, l - 1, y[..h], s), Unordered(R, l - 1, y[h..], s);
      UnorderedScaled(R, l - 1, y[..h], s, a, z[..h], lo);
      UnorderedScaled(R, l - 1, y[h..], s, a, z[h..], hi);
      ScaledCombine(R, a, lo, hi, w);
    }
  }

  lemma TwiddledHalves<T(!new)>(R: Ring<T>, l: nat, y: seq<T>, tau: T, h: nat, t: seq<T>)
    requires Lawful(R) && l > 0 && |y| == P2(l) && h == P2(l - 1) && t == Twiddled(R, l, y, tau)
    ensures t[..h] == Twiddled(R, l - 1, y[..h], R.mul(tau, tau))
    ensures t[h..] == Scaled(R, tau, Twiddled(R, l - 1, y[h..], R.mul(tau, tau)))
  {
    var lo, hi := Twiddled(R, l - 1, y[..h], R.mul(tau, tau)), Twiddled(R, l - 1, y[h..], R.mul(tau, tau));
    forall j: nat | j < h ensures t[j] == lo[j] && t[h + j] == R.mul(tau, hi[j]) {
      var r := Rev(l - 1, j);
      assert Rev(l, j) == 2 * r && Rev(l, h + j) == 2 * r + 1;
      PowSquare(R, tau, r);
      assert Pow(R, tau, 2 * r + 1) == R.mul(tau, Pow(R, tau, 2 * r));
      MulAssoc(R, tau, Pow(R, tau, 2 * r), y[h + j]);
    }
  }

  /** The extra factors can be multiplied into the numbers beforehand. */
  lemma {:induction false} WeightedIsTwiddled<T(!new)>(R: Ring<T>, l: nat, y: seq<T>, w: T, tau: T)
    requires Lawful(R) && |y| == P2(l)
    ensures Weighted(R, l, y, w, tau) == Unordered(R, l, Twiddled(R, l, y, tau), w)
    decreases l
  {
    if l == 0 {
      MulUnit(R, y[0]);
      var t := Twiddled(R, 0, y, tau);
      assert t[0] == R.mul(Pow(R, tau, Rev(0, 0)), y[0]);
      assert t == y;
    } else {
      var h, s, q, t := P2(l - 1), R.mul(w, w), R.mul(tau, tau), Twiddled(R, l, y, tau);
      WeightedIsTwiddled(R, l - 1, y[..h], s, q);
      WeightedIsTwiddled(R, l - 1, y[h..], s, q);
      TwiddledHalves(R, l, y, tau, h, t);
      var hi := Twiddled(R, l - 1, y[h..], q);
      UnorderedScaled(R, l - 1, hi, s, tau, t[h..], Unordered(R, l - 1, hi, s));
    }
  }

  // ----- columns of a transform -----

  lemma {:induction false} PowStart<T(!new)>(R: Ring<T>, z: T, k: nat, c: nat)
    requires Lawful(R)
    ensures Pow(R, z, Start(k, c)) == Pow(R, Pow(R, z, c), k)
  {
    if k > 0 {
      PowStart(R, z, k - 1, c);
      PowAdd(R, z, c, Start(k - 1, c));
    }
  }

  /** The weight of entry k of column s of a block, times a number. */
  lemma ColumnWeight<T(!new)>(R: Ring<T>, z: T, k: nat, c: nat, s: nat, v: T)
    requires Lawful(R)
    ensures R.mul(Pow(R, z, Start(k, c) + s), v)
         == R.mul(Pow(R, Pow(R, z, c), k), R.mul(Pow(R, z, s), v))
  {
    PowStart(R, z, k, c);
    PowAdd(R, z, Start(k, c), s);
    MulAssoc(R, Pow(R, Pow(R, z, c), k), Pow(R, z, s), v);
  }

  /** One butterfly of a block, seen in one of its columns. */
  lemma ColumnOfButterfly<T(!new)>(R: Ring<T>, lo: seq<T>, hi: seq<T>, z: T, c: nat, s: nat, i: nat, at: nat,
                                   x: seq<T>, y: seq<T>, w: T, tau: T)
    requires Lawful(R) && |lo| == |hi| && |x| == |y| && at < |lo| && i < |x| && at == Start(i, c) + s
    requires w == Pow(R, z, c) && tau == Pow(R, z, s)
    requires x[i] == lo[at] && y[i] == R.mul(tau, hi[at])
    ensures CombineAt(R, lo, hi, z, at) == CombineAt(R, x, y, w, i)
    ensures CombineAt(R, lo, hi, z, |lo| + at) == CombineAt(R, x, y, w, |x| + i)
  {
    ColumnWeight(R, z, i, c, s, hi[at]);
  }

  /** The butterflies of a block, seen in one of its columns. */
  lemma ColumnOfCombine<T(!new)>(R: Ring<T>, lo: seq<T>, hi: seq<T>, z: T, h: nat, c: nat, s: nat,
                                 x: seq<T>, y: seq<T>, w: T, tau: T, b: seq<T>)
    requires Lawful(R) && s < c && |lo| == |hi| == Start(h, c) && b == Combine(R, lo, hi, z)
    requires w == Pow(R, z, c) && tau == Pow(R, z, s)
    requires x == Column(lo, h, c, s) && y == Scaled(R, tau, Column(hi, h, c, s))
    ensures |b| == Start(2 * h, c) && Column(b, 2 * h, c, s) == Combine(R, x, y, w)
  {
    StartAdd(h, h, c);
    var u, v := Column(b, 2 * h, c, s), Combine(R, x, y, w);
    forall k: nat | k < 2 * h ensures u[k] == v[k] {
      var i := if k < h then k else k - h;
      var at := Start(i, c) + s;
      ColumnFits(i, h, c, s);
      ColumnOfButterfly(R, lo, hi, z, c, s, i, at, x, y, w, tau);
      ColumnIndex(h, c, s, k, i);
      assert u[k] == b[Start(k, c) + s] == CombineAt(R, lo, hi, z, if k < h then at else |lo| + at);
    }
  }

  lemma ColumnIndex(h: nat, c: nat, s: nat, k: nat, i: nat)
    requires k == i || k == h + i
    ensures Start(k, c) + s == Start(i, c) + s + if k == i then 0 else Start(h, c)
  {
    if k != i { StartAdd(h, i, c); }
  }

  lemma WeightedHalves<T>(R: Ring<T>, l: nat, y: seq<T>, y0: seq<T>, y1: seq<T>, w: T, tau: T)
    requires l > 0 && |y| == P2(l) && y == y0 + y1 && |y0| == |y1|
    ensures Weighted(R, l, y, w, tau)
         == Combine(R, Weighted(R, l - 1, y0, R.mul(w, w), R.mul(tau, tau)),
                       Scaled(R, tau, Weighted(R, l - 1, y1, R.mul(w, w), R.mul(tau, tau))), w)
  {
    var h := P2(l - 1);
    assert y[..h] == y0 && y[h..] == y1;
  }

  /** Column s of the last l stages of a transform depends on column s alone. */
  lemma {:induction false} ColumnOfTransform<T(!new)>(R: Ring<T>, l: nat, i: nat, b: seq<T>, z: T,
      count: nat, c: nat, s: nat, before: seq<T>, after: seq<T>, y: seq<T>, w: T, tau: T)
    requires Lawful(R) && |b| == P2(i + l) == Start(count, c) && count == P2(l) && c == P2(i) && s < c
    requires before == Stage(R, i, i + l, b, z) && after == Unordered(R, i + l, b, z)
    requires y == Column(before, count, c, s) && w == Pow(R, z, c) && tau == Pow(R, z, s)
    ensures Column(after, count, c, s) == Weighted(R, l, y, w, tau)
    decreases l
  {
    if l > 0 {
      var m := i + l - 1;
      var h, H, q := P2(l - 1), P2(m), R.mul(z, z);
      StartP2(l - 1, i);
      PowSquare(R, z, c);
      PowSquare(R, z, s);
      var lo, hi := Unordered(R, m, b[..H], q), Unordered(R, m, b[H..], q);
      StageHalves(R, i, m + 1, b, z, before, H, q);
      ColumnHalves(before, h, c, s);
      var y0, y1 := Column(before[..H], h, c, s), Column(before[H..], h, c, s);
      WeightedHalves(R, l, y, y0, y1, w, tau);
      ColumnOfTransform(R, l - 1, i, b[..H], q, h, c, s, before[..H], lo, y0, R.mul(w, w), R.mul(tau, tau));
      ColumnOfTransform(R, l - 1, i, b[H..], q, h, c, s, before[H..], hi, y1, R.mul(w, w), R.mul(tau, tau));
      var x0, x1 := Column(lo, h, c, s), Scaled(R, tau, Column(hi, h, c, s));
      assert after == Combine(R, lo, hi, z);
      ColumnOfCombine(R, lo, hi, z, h, c, s, x0, x1, w, tau, after);
    }
  }
}
