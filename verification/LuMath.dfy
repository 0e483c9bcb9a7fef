/** The stages of the decomposition of examples/bspedupack/bsplu.c on the whole matrix. */
module LuMath {

  /** An n by n matrix, read only at indices 0..n. */
  type Matrix = (int, int) -> real

  function Abs(x: real): real {
    if x < 0.0 then -x else x
  }

  /** Number r below the diagonal of column k, or on it, is of greatest absolute value. */
  ghost predicate IsPivot(W: Matrix, n: nat, k: nat, r: int) {
    k <= r < n && forall i :: k <= i < n ==> Abs(W(i, k)) <= Abs(W(r, k))
  }

  /** Column k divided by the pivot, which itself stays. */
  function Scaled(W: Matrix, k: nat, r: int, pivot: real): Matrix
    requires pivot != 0.0
  {
    (i, j) => if j == k && i >= k && i != r then W(i, k) / pivot else W(i, j)
  }

  function Other(k: int, r: int, i: int): int {
    if i == k then r else if i == r then k else i
  }

  /** Rows k and r exchanged. */
  function Swapped(W: Matrix, k: int, r: int): Matrix {
    (i, j) => W(Other(k, r, i), j)
  }

  /** The rank-1 update of the rows and columns after k. */
  function Eliminated(W: Matrix, k: nat): Matrix {
    (i, j) => if i > k && j > k then W(i, j) - W(i, k) * W(k, j) else W(i, j)
  }

  /** One stage. */
  function Stage(W: Matrix, k: nat, r: int): Matrix
    requires W(r, k) != 0.0
  {
    Eliminated(Swapped(Scaled(W, k, r, W(r, k)), k, r), k)
  }

  function SwappedSeq<T>(pi: seq<T>, k: nat, r: nat): (s: seq<T>)
    requires k < |pi| && r < |pi|
    ensures |s| == |pi|
  {
    pi[k := pi[r]][r := pi[k]]
  }

  /** The sum of W(i,l) W(l,j) over the first m columns. */
  function Products(W: Matrix, i: int, j: int, m: nat): real {
    if m == 0 then 0.0 else Products(W, i, j, m - 1) + W(i, m - 1) * W(m - 1, j)
  }

  function Min(a: int, b: int): int {
    if a <= b then a else b
  }

  /** What entry (i,j) still stands for after k stages. */
  function Rest(W: Matrix, k: nat, i: nat, j: nat): real {
    if j < i && j < k then W(i, j) * W(j, j) else W(i, j)
  }

  /** After k stages W decomposes row p of A as its row i. */
  predicate EntryFits(A: Matrix, p: int, W: Matrix, k: nat, i: nat, j: nat) {
    A(p, j) == Products(W, i, j, Min(Min(i, j), k)) + Rest(W, k, i, j)
  }

  /** The invariant of the stage loop. */
  ghost predicate Fits(A: Matrix, pi: seq<int>, W: Matrix, n: nat, k: nat) {
    |pi| == n && forall i: nat, j: nat :: i < n && j < n ==> EntryFits(A, pi[i], W, k, i, j)
  }

  lemma {:induction false} SameProducts(W: Matrix, W': Matrix, i: int, i': int, j: int, m: nat)
    requires forall l :: 0 <= l < m ==> W'(i', l) == W(i, l) && W'(l, j) == W(l, j)
    ensures Products(W', i', j, m) == Products(W, i, j, m)
  {
    if m > 0 { SameProducts(W, W', i, i', j, m - 1); }
  }

  lemma Divides(x: real, pivot: real)
    requires pivot != 0.0
    ensures x / pivot * pivot == x
  {
  }

  /** The entries a stage leaves: earlier columns and rows are only swapped, the new column holds the
    * multipliers, the new row is the pivot's, and the rest is reduced. */
  lemma StageAt(W: Matrix, W': Matrix, k: nat, r: nat, i: nat, j: nat)
    requires r >= k && W(r, k) != 0.0 && W' == Stage(W, k, r)
    ensures i < k || j < k ==> W'(i, j) == W(Other(k, r, i), j)
    ensures i == k && j >= k ==> W'(i, j) == W(r, j)
    ensures i > k && j == k ==> W'(i, k) * W'(k, k) == W(Other(k, r, i), k)
    ensures i > k && j > k ==> W'(i, j) == W(Other(k, r, i), j) - W'(i, k) * W'(k, j)
  {
    var S := Scaled(W, k, r, W(r, k));
    var T := Swapped(S, k, r);
    var o := Other(k, r, i);
    assert W'(i, j) == if i > k && j > k then T(i, j) - T(i, k) * T(k, j) else T(i, j);
    assert W'(i, k) == T(i, k) && W'(k, j) == T(k, j);
    assert T(i, j) == S(o, j) && T(i, k) == S(o, k) && T(k, j) == S(Other(k, r, k), j);
    Divides(W(o, k), W(r, k));
  }

  /** The part of an entry that earlier stages settled. */
  lemma EarlierProducts(W: Matrix, W': Matrix, k: nat, r: nat, i: nat, j: nat, m: nat)
    requires r >= k && W(r, k) != 0.0 && W' == Stage(W, k, r) && m == Min(Min(i, j), k)
    ensures m == Min(Min(Other(k, r, i), j), k)
    ensures Products(W', i, j, m) == Products(W, Other(k, r, i), j, m)
  {
    forall l: nat | l < m ensures W'(i, l) == W(Other(k, r, i), l) && W'(l, j) == W(l, j) {
      StageAt(W, W', k, r, i, l);
      StageAt(W, W', k, r, l, j);
    }
    SameProducts(W, W', Other(k, r, i), i, j, m);
  }

  lemma EarlyEntry(A: Matrix, p: int, W: Matrix, W': Matrix, k: nat, r: nat, i: nat, j: nat)
    requires r >= k && W(r, k) != 0.0 && W' == Stage(W, k, r) && j < k
    requires EntryFits(A, p, W, k, Other(k, r, i), j)
    ensures EntryFits(A, p, W', k + 1, i, j)
  {
    EarlierProducts(W, W', k, r, i, j, Min(Min(i, j), k));
    StageAt(W, W', k, r, i, j);
    StageAt(W, W', k, r, j, j);
    assert Rest(W', k + 1, i, j) == Rest(W, k, Other(k, r, i), j);
  }

  lemma UpperEntry(A: Matrix, p: int, W: Matrix, W': Matrix, k: nat, r: nat, i: nat, j: nat)
    requires r >= k && W(r, k) != 0.0 && W' == Stage(W, k, r) && j >= k && i <= k
    requires EntryFits(A, p, W, k, Other(k, r, i), j)
    ensures EntryFits(A, p, W', k + 1, i, j)
  {
    EarlierProducts(W, W', k, r, i, j, Min(Min(i, j), k));
    StageAt(W, W', k, r, i, j);
  }

  lemma ColumnEntry(A: Matrix, p: int, W: Matrix, W': Matrix, k: nat, r: nat, i: nat)
    requires r >= k && W(r, k) != 0.0 && W' == Stage(W, k, r) && i > k
    requires EntryFits(A, p, W, k, Other(k, r, i), k)
    ensures EntryFits(A, p, W', k + 1, i, k)
  {
    var o := Other(k, r, i);
    EarlierProducts(W, W', k, r, i, k, k);
    assert A(p, k) == Products(W, o, k, k) + W(o, k);
    var t := W'(i, k) * W'(k, k);
    assert t == W(o, k) by { StageAt(W, W', k, r, i, k); }
    assert Min(Min(i, k), k + 1) == k && Rest(W', k + 1, i, k) == t;
  }

  lemma InnerEntry(A: Matrix, p: int, W: Matrix, W': Matrix, k: nat, r: nat, i: nat, j: nat)
    requires r >= k && W(r, k) != 0.0 && W' == Stage(W, k, r) && i > k && j > k
    requires EntryFits(A, p, W, k, Other(k, r, i), j)
    ensures EntryFits(A, p, W', k + 1, i, j)
  {
    EarlierProducts(W, W', k, r, i, j, k);
    StageAt(W, W', k, r, i, j);
    var t := W'(i, k) * W'(k, j);
    assert Products(W', i, j, k + 1) == Products(W', i, j, k) + t;
    assert Rest(W', k + 1, i, j) + t == Rest(W, k, Other(k, r, i), j);
  }

  /** One entry through one stage. */
  lemma EntryStage(A: Matrix, p: int, W: Matrix, W': Matrix, k: nat, r: nat, i: nat, j: nat)
    requires r >= k && W(r, k) != 0.0 && W' == Stage(W, k, r)
    requires EntryFits(A, p, W, k, Other(k, r, i), j)
    ensures EntryFits(A, p, W', k + 1, i, j)
  {
    if j < k {
      EarlyEntry(A, p, W, W', k, r, i, j);
    } else if i <= k {
      UpperEntry(A, p, W, W', k, r, i, j);
    } else if j == k {
      ColumnEntry(A, p, W, W', k, r, i);
    } else {
      InnerEntry(A, p, W, W', k, r, i, j);
    }
  }

  /** The stages keep the invariant. */
  lemma StageFits(A: Matrix, pi: seq<int>, W: Matrix, n: nat, k: nat, r: nat)
    requires k <= r < n && W(r, k) != 0.0 && Fits(A, pi, W, n, k)
    ensures Fits(A, SwappedSeq(pi, k, r), Stage(W, k, r), n, k + 1)
  {
    var pi', W', k' := SwappedSeq(pi, k, r), Stage(W, k, r), k + 1;
    forall i: nat, j: nat | i < n && j < n ensures EntryFits(A, pi'[i], W', k', i, j) {
      var o := Other(k, r, i);
      assert pi'[i] == pi[o];
      assert EntryFits(A, pi[o], W, k, o, j);
      EntryStage(A, pi[o], W, W', k, r, i, j);
    }
  }

  /** pi lists 0..n in some order. */
  ghost predicate IsPermutation(pi: seq<int>, n: nat) {
    && |pi| == n
    && (forall i :: 0 <= i < n ==> 0 <= pi[i] < n)
    && (forall i, i' :: 0 <= i < i' < n ==> pi[i] != pi[i'])
  }

  lemma SwapPermutes(pi: seq<int>, n: nat, k: nat, r: nat)
    requires IsPermutation(pi, n) && k < n && r < n
    ensures IsPermutation(SwappedSeq(pi, k, r), n)
  {
  }

  /** Below the diagonal, the first k columns hold multipliers of at most 1 in absolute value. */
  predicate SmallAt(W: Matrix, i: nat, j: nat) {
    Abs(W(i, j)) <= 1.0
  }

  ghost predicate SmallMultipliers(W: Matrix, n: nat, k: nat) {
    forall i: nat, j: nat :: j < i < n && j < k ==> SmallAt(W, i, j)
  }

  lemma QuotientSmall(x: real, pivot: real)
    requires pivot != 0.0 && Abs(x) <= Abs(pivot)
    ensures Abs(x / pivot) <= 1.0
  {
    var y := x / pivot;
    Divides(x, pivot);
    assert (-y) * pivot == -x;
    if y > 1.0 {
      BiggerThanPivot(y, pivot);
    } else if y < -1.0 {
      BiggerThanPivot(-y, pivot);
    }
  }

  lemma BiggerThanPivot(y: real, pivot: real)
    requires y > 1.0 && pivot != 0.0
    ensures Abs(y * pivot) > Abs(pivot)
  {
    assert (y - 1.0) * pivot == y * pivot - pivot;
    if pivot > 0.0 {
      PositiveProduct(y - 1.0, pivot);
    } else {
      PositiveProduct(y - 1.0, -pivot);
      assert (y - 1.0) * -pivot == -((y - 1.0) * pivot);
    }
  }

  lemma PositiveProduct(a: real, b: real)
    requires a > 0.0 && b > 0.0
    ensures a * b > 0.0
  {
  }

  lemma StageKeepsSmall(W: Matrix, n: nat, k: nat, r: nat)
    requires IsPivot(W, n, k, r) && W(r, k) != 0.0 && SmallMultipliers(W, n, k)
    ensures SmallMultipliers(Stage(W, k, r), n, k + 1)
  {
    var W' := Stage(W, k, r);
    forall i: nat, j: nat | j < i < n && j < k + 1 ensures SmallAt(W', i, j) {
      var o := Other(k, r, i);
      if j < k {
        StageAt(W, W', k, r, i, j);
        assert SmallAt(W, o, j);
      } else {
        MultiplierAt(W, k, r, i);
        QuotientSmall(W(o, k), W(r, k));
      }
    }
  }

  lemma MultiplierAt(W: Matrix, k: nat, r: nat, i: nat)
    requires r >= k && W(r, k) != 0.0 && i > k
    ensures Stage(W, k, r)(i, k) == W(Other(k, r, i), k) / W(r, k)
  {
    var S := Scaled(W, k, r, W(r, k));
    assert Swapped(S, k, r)(i, k) == S(Other(k, r, i), k);
  }

  // ----- what the final matrix means -----

  function Lower(W: Matrix, i: int, l: int): real {
    if l < i then W(i, l) else if l == i then 1.0 else 0.0
  }

  function Upper(W: Matrix, l: int, j: int): real {
    if l <= j then W(l, j) else 0.0
  }

  /** The first m terms of entry (i,j) of the product of the two factors. */
  function LuSum(W: Matrix, i: int, j: int, m: nat): real {
    if m == 0 then 0.0 else LuSum(W, i, j, m - 1) + Lower(W, i, m - 1) * Upper(W, m - 1, j)
  }

  lemma {:induction false} LuSumIs(W: Matrix, i: nat, j: nat, n: nat, m: nat)
    requires i < n && j < n
    ensures m <= Min(i, j) ==> LuSum(W, i, j, m) == Products(W, i, j, m)
    ensures m > Min(i, j) ==> LuSum(W, i, j, m) == Products(W, i, j, Min(i, j)) + Rest(W, n, i, j)
  {
    if m > 0 {
      LuSumIs(W, i, j, n, m - 1);
      LuTerm(W, i, j, n, m - 1);
    }
  }

  lemma LuTerm(W: Matrix, i: nat, j: nat, n: nat, l: nat)
    requires i < n && j < n
    ensures l < Min(i, j) ==> Lower(W, i, l) * Upper(W, l, j) == W(i, l) * W(l, j)
    ensures l == Min(i, j) ==> Lower(W, i, l) * Upper(W, l, j) == Rest(W, n, i, j)
    ensures l > Min(i, j) ==> Lower(W, i, l) * Upper(W, l, j) == 0.0
  {
  }

  /** PA = LU: row pi(i) of A is row i of the product of the unit lower and the upper triangle of W. */
  lemma FactorsMultiply(A: Matrix, pi: seq<int>, W: Matrix, n: nat, i: nat, j: nat)
    requires Fits(A, pi, W, n, n) && i < n && j < n
    ensures A(pi[i], j) == LuSum(W, i, j, n)
  {
    assert EntryFits(A, pi[i], W, n, i, j);
    LuSumIs(W, i, j, n, n);
  }
}
