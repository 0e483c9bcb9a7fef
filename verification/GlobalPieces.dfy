/** The start formula of src/bsp_global_drma.c: how a range of a global array is cut along the slices. */
module GlobalPieces {
  import opened Arithmetic
  import opened Distributions

  /** What bspx_global_alloc gives each of `procs` processors. */
  function LocalSize(arraySize: nat, procs: nat): nat
    requires procs > 0
  {
    QuotientNat(arraySize + procs - 1, procs);
    (arraySize + procs - 1) / procs
  }

  /** The processor the loops of put and get begin with. */
  function FirstProc(procs: nat, arraySize: nat, offset: nat): nat
    requires arraySize > 0
  {
    MulMonotone(0, offset, procs);
    QuotientNat(offset * procs, arraySize);
    offset * procs / arraySize
  }

  /** The range that the loop hands to processor q: from Low to High, in numbers of the global array. */
  function Low(first: nat, local: nat, offset: nat, q: nat): nat {
    if q == first then offset else Start(q, local)
  }

  function High(local: nat, end: nat, q: nat): nat {
    if end < Start(q + 1, local) then end else Start(q + 1, local)
  }

  predicate HasPiece(first: nat, local: nat, offset: nat, end: nat, q: nat) {
    first <= q && Low(first, local, offset, q) < High(local, end, q)
  }

  lemma SlicesCover(arraySize: nat, procs: nat)
    requires procs > 0
    ensures arraySize <= Start(procs, LocalSize(arraySize, procs))
  {
    var x := arraySize + procs - 1;
    var l := LocalSize(arraySize, procs);
    StartIs(procs, l);
    assert x == l * procs + x % procs;
    assert procs * l == l * procs;
  }

  /** The first processor is never before the one whose slice holds the offset. */
  lemma FirstReaches(procs: nat, arraySize: nat, offset: nat, first: nat, local: nat)
    requires procs > 0 && arraySize > 0 && local == LocalSize(arraySize, procs)
      && first == FirstProc(procs, arraySize, offset)
    ensures offset < Start(first + 1, local)
    ensures offset < arraySize ==> first < procs
    ensures offset <= arraySize ==> first <= procs
  {
    SlicesCover(arraySize, procs);
    StartIs(procs, local);
    StartIs(first + 1, local);
    QuotientBetween(offset * procs, arraySize, first);
    Reaches(offset, procs, arraySize, local, first + 1);
    if offset < arraySize { BeginsInside(offset, procs, arraySize, first); }
    if offset == arraySize { EndsAtLast(procs, arraySize); }
  }

  lemma Reaches(offset: nat, procs: nat, arraySize: nat, local: nat, t: nat)
    requires procs > 0 && arraySize <= procs * local && offset * procs < t * arraySize
    ensures offset < t * local
  {
    MulMonotone(arraySize, procs * local, t);
    var whole := t * local;
    assert (procs * local) * t == whole * procs;
    CancelLess(offset, whole, procs);
  }

  lemma EndsAtLast(procs: nat, arraySize: nat)
    requires arraySize > 0
    ensures arraySize * procs / arraySize == procs
  {
    DivModUnique(arraySize * procs, arraySize, procs, 0);
  }

  lemma BeginsInside(offset: nat, procs: nat, arraySize: nat, first: nat)
    requires offset < arraySize && procs > 0 && first * arraySize <= offset * procs
    ensures first < procs
  {
    MulMonotone(offset + 1, arraySize, procs);
    assert (offset + 1) * procs == offset * procs + procs;
    CancelLess(first, procs, arraySize);
  }

  lemma QuotientBetween(m: nat, a: nat, f: nat)
    requires a > 0 && f == m / a
    ensures f * a <= m < (f + 1) * a
  {
    assert m == f * a + m % a;
    assert (f + 1) * a == f * a + a;
  }

  lemma CancelLess(x: int, y: int, m: int)
    requires m > 0 && x * m < y * m
    ensures x < y
  {
    if y <= x { MulMonotone(y, x, m); }
  }

  lemma QuotientIff(x: nat, m: nat, f: nat)
    requires m > 0 && x < (f + 1) * m
    ensures f * m <= x <==> x / m == f
  {
    assert x == x / m * m + x % m;
    if f * m <= x {
      assert (f + 1) * m == f * m + m;
      DivModUnique(x, m, f, x - f * m);
    }
  }

  /** All pieces lie within slices: processor q's at places Low - q local to High - q local. */
  ghost predicate InsideSlices(first: nat, local: nat, offset: nat, end: nat) {
    forall q: nat :: PieceInside(first, local, offset, end, q)
  }

  predicate PieceInside(first: nat, local: nat, offset: nat, end: nat, q: nat) {
    HasPiece(first, local, offset, end, q) ==> Start(q, local) <= Low(first, local, offset, q)
  }

  /** The start formula finds the slice that holds the offset. */
  predicate Aligned(procs: nat, arraySize: nat, offset: nat)
    requires procs > 0 && arraySize > 0 && LocalSize(arraySize, procs) > 0
  {
    offset * procs / arraySize == offset / LocalSize(arraySize, procs)
  }

  lemma LocalPositive(arraySize: nat, procs: nat)
    requires procs > 0 && arraySize > 0
    ensures LocalSize(arraySize, procs) > 0
  {
    SlicesCover(arraySize, procs);
    if LocalSize(arraySize, procs) == 0 { StartIs(procs, 0); }
  }

  /** The pieces of a range stay inside slices if and only if the range is empty or the start formula
    * agrees with the division by the slice size. */
  lemma InsideSlicesIff(procs: nat, arraySize: nat, offset: nat, size: nat)
    requires procs > 0 && arraySize > 0
    ensures LocalSize(arraySize, procs) > 0
    ensures InsideSlices(FirstProc(procs, arraySize, offset), LocalSize(arraySize, procs), offset, offset + size)
        <==> size == 0 || Aligned(procs, arraySize, offset)
  {
    LocalPositive(arraySize, procs);
    var local, first, end := LocalSize(arraySize, procs), FirstProc(procs, arraySize, offset), offset + size;
    FirstReaches(procs, arraySize, offset, first, local);
    StartIs(first, local);
    StartIs(first + 1, local);
    QuotientIff(offset, local, first);
    assert size > 0 ==> HasPiece(first, local, offset, end, first);
    assert PieceInside(first, local, offset, end, first) <==> size == 0 || Start(first, local) <= offset;
  }

  /** Where the number of processors divides the array size, this is always so. */
  lemma DivisibleIsAligned(procs: nat, arraySize: nat, offset: nat)
    requires procs > 0 && arraySize > 0 && arraySize % procs == 0
    ensures LocalSize(arraySize, procs) > 0 && Aligned(procs, arraySize, offset)
  {
    LocalPositive(arraySize, procs);
    var k := arraySize / procs;
    QuotientNat(arraySize, procs);
    DivModUnique(arraySize + procs - 1, procs, k, procs - 1);
    var q, r := offset / k, offset % k;
    assert (q * k + r) * procs == q * (k * procs) + r * procs;
    MulMonotone(r + 1, k, procs);
    MulMonotone(0, r, procs);
    assert (r + 1) * procs == r * procs + procs;
    DivModUnique(offset * procs, arraySize, q, r * procs);
  }

  /** Otherwise it can fail: of 6 numbers on 4 processors, number 3 is in slice 1 but the loop begins
    * with slice 2, at place -1. */
  lemma StartFormulaCanFail()
    ensures LocalSize(6, 4) == 2 && FirstProc(4, 6, 3) == 2 && 3 / LocalSize(6, 4) == 1
    ensures !InsideSlices(FirstProc(4, 6, 3), LocalSize(6, 4), 3, 4)
  {
    InsideSlicesIff(4, 6, 3, 1);
  }
}
