/** MemoryRegister (src/bsp_memreg.h, src/bsp_memreg.c) as an object over arrays. */
module MemoryRegisters {
  import opened ExpandableTables
  import opened Registers

  class MemoryRegister {
    const table: ExpandableTable<int>
    const rank: nat
    var removed: array<bool>
    var numremov: nat
    /** memoized_data_iter as an index into `table.data`; None is the null pointer. */
    var dataIter: Option<int>
    var srccol: nat

    ghost predicate Valid()
      reads this, table, table.used, table.data, removed
    {
      && table.Valid() && rank < table.nprocs && table.rows > 0
      && removed.Length == table.rows
      && removed as object != table.used as object
      && removed as object != table.data as object
      && table.data as object != table.used as object
      && numremov == Removals(removed[..])
      && (dataIter.Some? ==> srccol == table.rows * rank && dataIter.value == srccol + table.used[rank] - 1)
    }

    /** Arrays have been replaced by new ones only. */
    twostate predicate Grown()
      reads this, table
    {
      && table.used == old(table.used)
      && (table.data == old(table.data) || fresh(table.data))
      && (removed == old(removed) || fresh(removed))
    }

    ghost function Footprint(): set<object>
      reads this, table
    {
      {this, table, table.used, table.data, removed}
    }

    /** The register holds these columns, and of its rows exactly those marked in
      * `marks` are marked. */
    ghost predicate Is(cols: seq<seq<int>>, marks: seq<bool>)
      reads this, table, table.used, table.data, removed
    {
      && Valid() && |cols| == table.nprocs
      && (forall p | 0 <= p < table.nprocs :: table.Column(p) == cols[p])
      && |marks| <= removed.Length && removed[..|marks|] == marks
      && forall k | |marks| <= k < removed.Length :: !removed[k]
    }

    /** No row is marked and, if there are rows, the memoized pointers are set: so
      * memoryRegister_initialize and memoryRegister_pack leave the register. */
    ghost predicate Packed()
      requires Valid()
      reads this, table, table.used, table.data, removed
    {
      (dataIter.Some? || table.used[rank] == 0) && forall k | 0 <= k < removed.Length :: !removed[k]
    }

    /** memoryRegister_initialize */
    constructor (nprocs: nat, rows: nat, rank: nat)
      requires rank < nprocs && rows > 0
      ensures Valid() && fresh(table) && fresh(table.used) && fresh(table.data) && fresh(removed)
      ensures table.nprocs == nprocs && this.rank == rank
      ensures Is(seq(nprocs, _ => []), []) && Packed()
    {
      table := new ExpandableTable<int>(nprocs, rows);
      removed := new bool[rows](_ => false);
      numremov, dataIter, srccol := 0, None, 0;
      this.rank := rank;
      new;
      RemovalsNone(removed[..]);
      assert table.used[rank] == |table.Column(rank)| == 0;
    }

    /** newMemRegInfoAtPush: the marks are copied and the new rows are unmarked. */
    method GrowRemoved(newrows: nat)
      requires numremov == Removals(removed[..]) && newrows >= removed.Length
      modifies this
      ensures fresh(removed) && removed.Length == newrows && dataIter == None
      ensures removed[..old(removed.Length)] == old(removed[..]) && numremov == Removals(removed[..])
      ensures forall k | old(removed.Length) <= k < removed.Length :: !removed[k]
    {
      var newremoved := new bool[newrows](_ => false);
      forall i | 0 <= i < removed.Length {
        newremoved[i] := removed[i];
      }
      RemovalsExtend(removed[..], newremoved[removed.Length..]);
      assert newremoved[..] == removed[..] + newremoved[removed.Length..];
      removed := newremoved;
      dataIter, srccol := None, 0;
    }

    /** Twice the rows when a column is full. */
    method Grow(ghost cols: seq<seq<int>>, ghost marks: seq<bool>)
      requires Is(cols, marks)
      modifies this, table
      ensures Is(cols, marks) && table.used == old(table.used) && dataIter == None
      ensures fresh(table.data) && fresh(removed) && table.rows == 2 * old(table.rows)
    {
      GrowRemoved(2 * table.rows);
      table.Expand(table.rows);
    }

    /** memoryRegister_push, with newMemRegInfoAtPush when the column is full. */
    method Push(p: nat, address: int, ghost cols: seq<seq<int>>, ghost marks: seq<bool>)
      requires Is(cols, marks) && p < table.nprocs
      modifies this, table, table.used, table.data, removed
      ensures Grown()
      ensures Is(cols[p := cols[p] + [address]], marks)
    {
      dataIter := None;
      if table.used[p] == table.rows {
        Grow(cols, marks);
      }
      table.AppendSlots(p, [address]);
    }

    /** The backward search that memoryRegister_pop and memoryRegister_find share;
      * -1 where the source aborts. */
    method Search(p: nat, address: int) returns (count: int)
      requires Valid() && p < table.nprocs
      ensures LastLive(table.Column(p), removed[..], address) == if count >= 0 then Some(count) else None
    {
      ghost var col, marks := table.Column(p), removed[..];
      ColumnFits(p, table.nprocs, table.rows);
      var base := table.rows * p;
      assert table.data[base..base + |col|] == col;
      count := table.used[p];
      count := count - 1;
      assert col[..|col|] == col;
      while count >= 0
        invariant -1 <= count < |col|
        invariant LastLive(col[..count + 1], marks, address) == LastLive(col, marks, address)
      {
        assert table.data[base + count] == col[count];
        if table.data[base + count] == address && !removed[count] {
          LastLiveHere(col, marks, address, count);
          return;
        }
        LastLiveBelow(col, marks, address, count);
        count := count - 1;
      }
    }

    /** memoryRegister_pop: mark the last live row; without one the source aborts. */
    method Pop(p: nat, address: int, ghost cols: seq<seq<int>>, ghost marks: seq<bool>) returns (found: bool)
      requires Is(cols, marks) && p < table.nprocs && |cols[p]| <= |marks|
      modifies this, removed
      ensures removed == old(removed)
      ensures var row := LastLive(cols[p], marks, address);
              && found == row.Some?
              && Is(cols, if row.Some? then marks[row.value := true] else marks)
    {
      dataIter := None;
      var count := Search(p, address);
      LastLiveExtend(cols[p], marks, removed[..], address);
      if count >= 0 {
        RemovalsSet(removed[..], count);
        removed[count] := true;
        numremov := numremov + 1;
      }
      return count >= 0;
    }

    /** j rows of a column are done and moved up by displ rows. */
    ghost predicate Compacting(base: nat, n: nat, j: nat, displ: nat, col: seq<int>, marks: seq<bool>)
      reads this, table, table.used, table.data, removed
    {
      && Valid() && removed[..] == marks && j <= n == |col| <= |marks|
      && base + n <= base + table.rows <= table.data.Length
      && displ == Removals(marks[..j]) <= j
      && table.data[base..base + j - displ] == Keep(col[..j], marks)
      && table.data[base + j..base + n] == col[j..]
    }

    method CompactStep(base: nat, n: nat, j: nat, displ: nat, ghost col: seq<int>, ghost marks: seq<bool>)
      returns (displ': nat)
      requires j < n && Compacting(base, n, j, displ, col, marks)
      modifies table.data
      ensures displ' <= j + 1 && Compacting(base, n, j + 1, displ', col, marks)
      ensures forall k | 0 <= k < table.data.Length && !(base <= k < base + n) :: table.data[k] == old(table.data[k])
    {
      RemovalsAppend(marks, j);
      KeepAppend(col, marks, j);
      assert table.data[base + j] == table.data[base + j..base + n][0] == col[j];
      ghost var rest := table.data[base + j + 1..base + n];
      assert rest == table.data[base + j..base + n][1..] == col[j + 1..];
      if removed[j] {
        return displ + 1;
      }
      table.data[base + j - displ] := table.data[base + j];
      assert table.data[base + j + 1..base + n] == rest;
      return displ;
    }

    /** The inner loop of memoryRegister_pack: one column is compacted in place. */
    method Compact(p: nat, n: nat)
      requires Valid() && p < table.nprocs && n == table.used[p]
      modifies table.data
      ensures Valid() && |Keep(old(table.Column(p)), removed[..])| <= n
      ensures table.Column(p)[..n - Removals(removed[..n])] == Keep(old(table.Column(p)), removed[..])
      ensures forall q | 0 <= q < table.nprocs && q != p :: table.Column(q) == old(table.Column(q))
    {
      ghost var col, marks := table.Column(p), removed[..];
      ColumnFits(p, table.nprocs, table.rows);
      var base := p * table.rows;
      var displ: nat := 0;
      for j := 0 to n
        invariant displ <= j && Compacting(base, n, j, displ, col, marks)
        invariant forall k | 0 <= k < table.data.Length && !(base <= k < base + table.rows) ::
          table.data[k] == old(table.data[k])
      {
        displ := CompactStep(base, n, j, displ, col, marks);
      }
      assert col[..n] == col;
      table.OthersKept(p);
    }

    /** The outer loop of memoryRegister_pack. */
    method CompactAll(ghost cols: seq<seq<int>>, ghost marks: seq<bool>)
      requires Is(cols, marks) && dataIter == None
      requires forall p | 0 <= p < |cols| :: |cols[p]| == |marks|
      modifies table.used, table.data
      ensures Is(KeepAll(cols, marks), marks)
    {
      ghost var all := removed[..];
      RemovalsExtend(marks, all[|marks|..]);
      assert all == marks + all[|marks|..];
      assert table.used[0] == |table.Column(0)| == |marks|;
      var count: int := table.used[0];
      count := count - numremov;
      for i := 0 to table.nprocs
        invariant Valid() && removed[..] == all && dataIter == None && count == |marks| - Removals(marks)
        invariant forall p: nat | p < i :: table.Column(p) == Keep(cols[p], marks)
        invariant forall p: nat | i <= p < table.nprocs :: table.Column(p) == cols[p]
      {
        assert table.used[i] == |table.Column(i)| == |marks|;
        CompactOne(i, count, cols[i], marks);
      }
    }

    method CompactOne(i: nat, count: nat, ghost col: seq<int>, ghost marks: seq<bool>)
      requires Valid() && i < table.nprocs && dataIter == None
      requires table.Column(i) == col && |col| == |marks| <= removed.Length && removed[..|marks|] == marks
      requires count == |marks| - Removals(marks)
      modifies table.used, table.data
      ensures Valid() && table.Column(i) == Keep(col, marks)
      ensures forall q | 0 <= q < table.nprocs && q != i :: table.Column(q) == old(table.Column(q))
    {
      KeepExtend(col, marks, removed[..]);
      Compact(i, table.used[i]);
      SetUsed(i, count);
    }

    /** The end of memoryRegister_pack: no marks, and new memoized pointers. */
    method ClearMarks()
      requires Valid()
      modifies this, removed
      ensures Valid() && Packed() && removed == old(removed)
    {
      forall k | 0 <= k < removed.Length {
        removed[k] := false;
      }
      RemovalsNone(removed[..]);
      numremov := 0;
      srccol := table.rows * rank;
      dataIter := Some(srccol + table.used[rank] - 1);
    }

    /** memoryRegister_pack: every column keeps its unmarked rows. */
    method Pack(ghost cols: seq<seq<int>>, ghost marks: seq<bool>)
      requires Is(cols, marks)
      requires forall p | 0 <= p < |cols| :: |cols[p]| == |marks|
      modifies this, table.used, table.data, removed
      ensures Is(KeepAll(cols, marks), []) && Packed() && removed == old(removed)
    {
      dataIter := None;
      CompactAll(cols, marks);
      ClearMarks();
    }

    /** Shorten a column. */
    method SetUsed(p: nat, count: nat)
      requires Valid() && p < table.nprocs && count <= table.used[p] && dataIter == None
      modifies table.used
      ensures Valid() && table.Column(p) == old(table.Column(p))[..count]
      ensures forall q | 0 <= q < table.nprocs && q != p :: table.Column(q) == old(table.Column(q))
    {
      ghost var col := table.Column(p);
      forall k: nat | k < count
        ensures 0 <= p * table.rows && p * table.rows + k < table.data.Length
          && table.data[p * table.rows + k] == col[k] {
        table.Cell(p, k);
      }
      table.used[p] := count;
      forall k: nat | k < count ensures table.Column(p)[k] == col[k] {
        table.Cell(p, k);
      }
    }

    /** memoryRegister_find; None where the source aborts. */
    method Find(sp: nat, dp: nat, address: int, ghost cols: seq<seq<int>>, ghost marks: seq<bool>)
      returns (r: Option<int>)
      requires Is(cols, marks) && sp < table.nprocs && dp < table.nprocs
      requires |cols[sp]| == |cols[dp]| <= |marks|
      ensures r == Translate(cols, marks, sp, dp, address)
    {
      var count := Search(sp, address);
      LastLiveExtend(cols[sp], marks, removed[..], address);
      assert table.Column(sp) == cols[sp];
      assert LastLive(cols[sp], marks, address) == if count >= 0 then Some(count) else None;
      if count < 0 {
        return None;
      }
      table.Cell(dp, count);
      return Some(table.data[count + table.rows * dp]);
    }

    /** The loop of memoryRegister_memoized_find, which looks at no marks and has no
      * lower bound: it stops because the address is in the column. */
    method MemoizedScan(address: int) returns (iter: nat, ghost k: nat)
      requires Valid() && Packed() && address in table.Column(rank)
      ensures iter == srccol + k && srccol == rank * table.rows
      ensures LastLive(table.Column(rank), removed[..], address) == Some(k)
    {
      ghost var col, marks := table.Column(rank), removed[..];
      ghost var found := LastLive(col, marks, address);
      iter, k := dataIter.value, |col| - 1;
      assert col[..k + 1] == col;
      table.Cell(rank, k);
      while table.data[iter] != address
        invariant k < |col| && iter == srccol + k < table.data.Length && found.Some? && found.value <= k
        invariant table.data[iter] == col[k] && LastLive(col[..k + 1], marks, address) == found
        decreases k
      {
        LastLiveBelow(col, marks, address, k);
        iter, k := iter - 1, k - 1;
        table.Cell(rank, k);
      }
      LastLiveHere(col, marks, address, k);
    }

    /** memoryRegister_memoized_find: right after packing, and for a registered
      * address, it answers like Find. */
    method MemoizedFind(dp: nat, address: int, ghost cols: seq<seq<int>>) returns (r: int)
      requires Is(cols, []) && Packed() && dp < table.nprocs
      requires address in cols[rank] && |cols[rank]| == |cols[dp]|
      ensures Translate(cols, NoneRemoved(|cols[rank]|), rank, dp, address) == Some(r)
    {
      var iter, k := MemoizedScan(address);
      LastLiveExtend(cols[rank], NoneRemoved(|cols[rank]|), removed[..], address);
      table.Cell(dp, k);
      r := table.data[iter - srccol + table.rows * dp];
    }
  }
}
