/** The computation supersteps of examples/bspedupack/bsplu.c on one processor. */
module LuLocal {
  import opened LuMath

  /** Column kc exists in every row. */
  predicate HasColumn(rows: seq<seq<real>>, kc: nat) {
    forall i :: 0 <= i < |rows| ==> kc < |rows[i]|
  }

  /** The local search for the largest number in absolute value: the first of them, if any is not zero. */
  method SearchColumn(a: array<seq<real>>, kr: nat, kc: nat) returns (imax: int, max: real)
    requires HasColumn(a[..], kc)
    ensures imax == -1 ==> max == 0.0
    ensures imax != -1 ==> kr <= imax < a.Length && max == a[imax][kc] != 0.0
    ensures imax != -1 ==> forall i :: kr <= i < imax ==> Abs(a[i][kc]) < Abs(max)
    ensures forall i :: kr <= i < a.Length ==> Abs(a[i][kc]) <= Abs(max)
  {
    var absmax := 0.0;
    imax := -1;
    assert forall i :: 0 <= i < a.Length ==> a[..][i] == a[i];
    var i := kr;
    while i < a.Length
      invariant kr <= i
      invariant imax == -1 ==> absmax == 0.0
      invariant imax != -1 ==> kr <= imax < a.Length && absmax == Abs(a[imax][kc]) && absmax > 0.0
      invariant forall l :: kr <= l < i && l < a.Length ==> Abs(a[l][kc]) <= absmax
      invariant forall l :: kr <= l < imax ==> Abs(a[l][kc]) < absmax
    {
      if Abs(a[i][kc]) > absmax {
        absmax := Abs(a[i][kc]);
        imax := i;
      }
      i := i + 1;
    }
    if absmax > 0.0 {
      max := a[imax][kc];
    } else {
      max := 0.0;
    }
  }

  /** Row i once the column is divided and the pivot restored in row keep, if that is a row. */
  function ScaledRow(row: seq<real>, i: int, kr: int, kc: nat, keep: int, pivot: real): seq<real>
    requires kc < |row| && pivot != 0.0
  {
    if i < kr then row else if i == keep then row[kc := pivot] else row[kc := row[kc] / pivot]
  }

  /** The division of the local part of the column by the pivot. */
  method ScaleColumn(a: array<seq<real>>, kr: nat, kc: nat, pivot: real, keep: int)
    requires HasColumn(a[..], kc) && pivot != 0.0 && (keep == -1 || kr <= keep < a.Length)
    modifies a
    ensures forall i :: 0 <= i < a.Length ==> a[i] == ScaledRow(old(a[..])[i], i, kr, kc, keep, pivot)
  {
    ghost var rows := a[..];
    var i := kr;
    while i < a.Length
      invariant kr <= i
      invariant forall l :: 0 <= l < a.Length ==>
        a[l] == if l < i then ScaledRow(rows[l], l, kr, kc, -1, pivot) else rows[l]
    {
      a[i] := a[i][kc := a[i][kc] / pivot];
      i := i + 1;
    }
    if keep != -1 {
      a[keep] := a[keep][kc := pivot];
    }
  }

  /** Row i after the update with row i - kr1 of the column and with the row u. */
  function UpdatedRow(row: seq<real>, l: real, u: seq<real>, kc1: nat): (r: seq<real>)
    requires kc1 + |u| == |row|
    ensures |r| == |row|
  {
    seq(|row|, j requires 0 <= j < |row| => if j < kc1 then row[j] else row[j] - l * u[j - kc1])
  }

  /** The inner loop of the update. */
  method UpdateRow(a: array<seq<real>>, i: nat, l: real, uk: array<real>, kc1: nat)
    requires i < a.Length && kc1 <= |a[i]| <= kc1 + uk.Length
    modifies a
    ensures a[i] == UpdatedRow(old(a[i]), l, uk[..|old(a[i])| - kc1], kc1)
    ensures forall r :: 0 <= r < a.Length && r != i ==> a[r] == old(a[r])
  {
    ghost var row := a[i];
    var nlc := |a[i]|;
    ghost var u := uk[..nlc - kc1];
    var j := kc1;
    while j < nlc
      invariant kc1 <= j <= nlc == |a[i]|
      invariant forall c :: 0 <= c < nlc ==> a[i][c] == if c < j then UpdatedRow(row, l, u, kc1)[c] else row[c]
      invariant forall r :: 0 <= r < a.Length && r != i ==> a[r] == old(a[r])
    {
      a[i] := a[i][j := a[i][j] - l * uk[j - kc1]];
      j := j + 1;
    }
  }

  /** The update of the local part of the matrix. */
  method Update(a: array<seq<real>>, kr1: nat, kc1: nat, lk: array<real>, uk: array<real>, ghost nlc: nat)
    requires kr1 <= a.Length <= kr1 + lk.Length && kc1 <= nlc <= kc1 + uk.Length
    requires forall i :: 0 <= i < a.Length ==> |a[i]| == nlc
    modifies a
    ensures forall i :: 0 <= i < a.Length ==>
      a[i] == if i < kr1 then old(a[i]) else UpdatedRow(old(a[i]), lk[i - kr1], uk[..nlc - kc1], kc1)
  {
    for i := kr1 to a.Length
      invariant forall r :: 0 <= r < a.Length ==> |a[r]| == nlc
      invariant forall r :: 0 <= r < a.Length ==>
        a[r] == if r < kr1 || r >= i then old(a[r]) else UpdatedRow(old(a[r]), lk[r - kr1], uk[..nlc - kc1], kc1)
    {
      UpdateRow(a, i, lk[i - kr1], uk, kc1);
    }
  }
}
