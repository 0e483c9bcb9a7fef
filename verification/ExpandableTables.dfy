/** ExpandableTable (src/bsp_exptable.h): one column per processor, all columns in
  * one array with `rows` slots each, reallocated when a column is full. */
module ExpandableTables {

  /** Column p lies inside an array of nprocs columns. */
  lemma ColumnFits(p: nat, nprocs: nat, rows: nat)
    requires p < nprocs
    ensures 0 <= p * rows && p * rows + rows <= nprocs * rows
  {
    assert nprocs * rows == p * rows + rows + (nprocs - p - 1) * rows;
  }

  /** Different columns do not overlap. */
  lemma ColumnsApart(p: nat, q: nat, rows: nat)
    requires p < q
    ensures p * rows + rows <= q * rows
  {
    ColumnFits(p, q, rows);
  }

  /** The first n slots of column p in an array of columns of `rows` slots. */
  function Slice<T>(d: seq<T>, rows: nat, p: nat, n: nat): (c: seq<T>)
    requires ColumnInside(|d|, rows, p) && n <= rows
    ensures |c| == n
  {
    d[p * rows..p * rows + n]
  }

  predicate ColumnInside(length: nat, rows: nat, p: nat) {
    0 <= p * rows && p * rows + rows <= length
  }

  /** Slots outside column p do not matter to other columns. */
  lemma SliceKept<T>(a: seq<T>, b: seq<T>, rows: nat, p: nat, q: nat, n: nat)
    requires |a| == |b| && p != q && n <= rows
    requires ColumnInside(|a|, rows, p) && ColumnInside(|a|, rows, q)
    requires forall k | 0 <= k < |a| && !(p * rows <= k < p * rows + rows) :: b[k] == a[k]
    ensures Slice(b, rows, q, n) == Slice(a, rows, q, n)
  {
    if q < p { ColumnsApart(q, p, rows); } else { ColumnsApart(p, q, rows); }
  }

  /** memcpy between two arrays. */
  method Copy<T>(src: array<T>, from: nat, dst: array<T>, to: nat, n: nat)
    requires src != dst && from + n <= src.Length && to + n <= dst.Length
    modifies dst
    ensures dst[to..to + n] == src[from..from + n]
    ensures forall k | 0 <= k < dst.Length && !(to <= k < to + n) :: dst[k] == old(dst[k])
  {
    forall k | 0 <= k < n {
      dst[to + k] := src[from + k];
    }
  }

  /** memcpy of a value into an array. */
  method Fill<T>(dst: array<T>, to: nat, xs: seq<T>)
    requires to + |xs| <= dst.Length
    modifies dst
    ensures dst[to..to + |xs|] == xs
    ensures forall k | 0 <= k < dst.Length && !(to <= k < to + |xs|) :: dst[k] == old(dst[k])
  {
    forall k | 0 <= k < |xs| {
      dst[to + k] := xs[k];
    }
  }

  /** array_max with stride 1. */
  method ArrayMax(xs: seq<nat>) returns (max: nat)
    ensures forall i | 0 <= i < |xs| :: xs[i] <= max
    ensures max == 0 || max in xs
  {
    max := 0;
    for i := 0 to |xs|
      invariant forall k | 0 <= k < i :: xs[k] <= max
      invariant max == 0 || max in xs
    {
      if xs[i] > max {
        max := xs[i];
      }
    }
  }

  class ExpandableTable<T(0)> {
    const nprocs: nat
    var rows: nat
    var used: array<nat>
    var data: array<T>

    ghost predicate Valid()
      reads this, used
    {
      && used.Length == nprocs
      && data.Length == nprocs * rows
      && data as object != used as object
      && forall p | 0 <= p < nprocs :: used[p] <= rows
    }

    /** The used slots of column p. */
    ghost function Column(p: nat): (c: seq<T>)
      requires Valid() && p < nprocs
      reads this, used, data
      ensures |c| == used[p]
    {
      ColumnFits(p, nprocs, rows);
      Slice(data[..], rows, p, used[p])
    }

    /** Slot k of column p in the array. */
    lemma Cell(p: nat, k: nat)
      requires Valid() && p < nprocs && k < used[p]
      ensures 0 <= p * rows && p * rows + k < data.Length && data[p * rows + k] == Column(p)[k]
    {
      ColumnFits(p, nprocs, rows);
    }

    /** expandableTable_initialize: no slot is in use. */
    constructor (nprocs: nat, rows: nat)
      ensures Valid() && fresh(data) && fresh(used)
      ensures this.nprocs == nprocs && this.rows == rows
      ensures forall p | 0 <= p < nprocs :: Column(p) == []
    {
      this.nprocs := nprocs;
      this.rows := rows;
      assert nprocs * rows >= 0;
      this.data := new T[nprocs * rows];
      this.used := new nat[nprocs](_ => 0);
    }

    /** One column is copied to where it belongs among longer columns. */
    method CopyColumn(i: nat, newdata: array<T>, newrows: nat)
      requires Valid() && i < nprocs && newdata != data && newdata as object != used && newrows >= rows
      requires newdata.Length == nprocs * newrows
      requires forall p: nat | p < i ::
        ColumnInside(newdata.Length, newrows, p) && Slice(newdata[..], newrows, p, used[p]) == Column(p)
      modifies newdata
      ensures forall p: nat | p <= i ::
        ColumnInside(newdata.Length, newrows, p) && Slice(newdata[..], newrows, p, used[p]) == Column(p)
    {
      ColumnFits(i, nprocs, rows);
      ColumnFits(i, nprocs, newrows);
      ghost var before := newdata[..];
      Copy(data, i * rows, newdata, i * newrows, used[i]);
      forall p: nat | p < i ensures Slice(newdata[..], newrows, p, used[p]) == Column(p) {
        SliceKept(before, newdata[..], newrows, i, p, used[p]);
      }
    }

    /** expandableTable_expand: more rows, the same contents. */
    method Expand(more: nat)
      requires Valid()
      modifies this
      ensures Valid() && fresh(data) && used == old(used)
      ensures rows == old(rows) + more
      ensures forall p | 0 <= p < nprocs :: Column(p) == old(Column(p))
    {
      var newrows := more + rows;
      assert newrows * nprocs == nprocs * newrows >= 0;
      var newdata := new T[newrows * nprocs];
      for i := 0 to nprocs
        modifies newdata
        invariant Valid()
        invariant forall p: nat | p < i ::
          ColumnInside(newdata.Length, newrows, p) && Slice(newdata[..], newrows, p, used[p]) == Column(p)
      {
        CopyColumn(i, newdata, newrows);
      }
      data := newdata;
      rows := newrows;
    }

    /** Overwrite one used slot. */
    method Write(p: nat, k: nat, x: T)
      requires Valid() && p < nprocs && k < used[p]
      modifies data
      ensures Valid() && Column(p) == old(Column(p))[k := x]
      ensures forall q | 0 <= q < nprocs && q != p :: Column(q) == old(Column(q))
    {
      ColumnFits(p, nprocs, rows);
      data[p * rows + k] := x;
      OthersKept(p);
    }

    /** memcpy behind the used slots of a column, and count the slots. */
    method AppendSlots(p: nat, xs: seq<T>)
      requires Valid() && p < nprocs && used[p] + |xs| <= rows
      modifies data, used
      ensures Valid() && Column(p) == old(Column(p)) + xs
      ensures forall q | 0 <= q < nprocs && q != p :: Column(q) == old(Column(q))
    {
      ColumnFits(p, nprocs, rows);
      ghost var at, n, col := p * rows, used[p], Column(p);
      Fill(data, p * rows + used[p], xs);
      assert data[at..at + n] == col && data[at + n..at + n + |xs|] == xs;
      assert data[at..at + (n + |xs|)] == data[at..at + n] + data[at + n..at + n + |xs|];
      used[p] := used[p] + |xs|;
      OthersKept(p);
    }

    /** A change inside the rows of column p is no change to another column. */
    twostate lemma OthersKept(p: nat)
      requires old(Valid()) && Valid() && p < nprocs
      requires data == old(data) && rows == old(rows)
      requires forall q | 0 <= q < nprocs && q != p :: used[q] == old(used[q])
      requires forall k | 0 <= k < data.Length && !(p * rows <= k < p * rows + rows) :: data[k] == old(data[k])
      ensures forall q | 0 <= q < nprocs && q != p :: Column(q) == old(Column(q))
    {
      forall q: nat | q < nprocs && q != p ensures Column(q) == old(Column(q)) {
        ColumnFits(p, nprocs, rows);
        ColumnFits(q, nprocs, rows);
        SliceKept(old(data[..]), data[..], rows, p, q, used[q]);
      }
    }

    /** expandableTable_reset: no column has a used slot. */
    method Clear()
      requires Valid()
      modifies used
      ensures Valid() && forall p | 0 <= p < nprocs :: Column(p) == []
    {
      forall p | 0 <= p < nprocs {
        used[p] := 0;
      }
    }

    /** fixedElSizeTable_push: double the rows when the column is full. The source
      * never makes a table without rows. */
    method Push(p: nat, x: T)
      requires Valid() && p < nprocs && rows > 0
      modifies this, used, data
      ensures Valid() && used == old(used) && rows >= old(rows)
      ensures data == old(data) || fresh(data)
      ensures Column(p) == old(Column(p)) + [x]
      ensures forall q | 0 <= q < nprocs && q != p :: Column(q) == old(Column(q))
    {
      if used[p] == rows {
        Expand(rows);
      }
      AppendSlots(p, [x]);
    }

    /** Set used_slot_count to what a processor is about to receive. */
    method Reserve(counts: seq<nat>)
      requires Valid() && |counts| == nprocs && forall p | 0 <= p < nprocs :: counts[p] <= rows
      modifies used
      ensures Valid() && forall p | 0 <= p < nprocs :: used[p] == counts[p]
    {
      forall p | 0 <= p < nprocs {
        used[p] := counts[p];
      }
    }

    /** Lines 126-155 of src/bspx.c for one table: room for all counts, then the counts. */
    method ReserveFor(counts: seq<nat>)
      requires Valid() && |counts| == nprocs
      modifies this, used
      ensures Valid() && used == old(used) && rows >= old(rows) && (data == old(data) || fresh(data))
      ensures forall p | 0 <= p < nprocs :: used[p] == counts[p]
    {
      var max := ArrayMax(counts);
      if rows < max {
        Expand(max);
      }
      Reserve(counts);
    }

    /** The communicator fills the beginning of one received column. As in
      * BSP_SEQ_ALLTOALLV_COMM, no more than the reserved slots are written. */
    method ReceiveColumn(p: nat, col: seq<T>)
      requires Valid() && p < nprocs
      modifies data
      ensures Valid() && |Column(p)| == |old(Column(p))|
      ensures |col| <= used[p] ==> Column(p)[..|col|] == col
      ensures forall q | 0 <= q < nprocs && q != p :: Column(q) == old(Column(q))
    {
      ColumnFits(p, nprocs, rows);
      var n := if |col| > used[p] then used[p] else |col|;
      Fill(data, p * rows, col[..n]);
      assert data[p * rows..p * rows + used[p]][..n] == data[p * rows..p * rows + n];
      OthersKept(p);
    }

    /** expandableTable_comm, seen by the receiver: column p comes from processor p. */
    method Receive(cols: seq<seq<T>>)
      requires Valid() && |cols| == nprocs && forall p | 0 <= p < nprocs :: |cols[p]| <= used[p]
      modifies data
      ensures Valid() && forall p | 0 <= p < nprocs :: Column(p)[..|cols[p]|] == cols[p]
    {
      for p := 0 to nprocs
        invariant Valid()
        invariant forall q | 0 <= q < p :: Column(q)[..|cols[q]|] == cols[q]
      {
        ReceiveColumn(p, cols[p]);
      }
    }
  }
}
