/** The request table (src/bsp_reqtable.h, src/bsp_reqtable.c): gets are collected per
  * remote processor and answered there by puts. */
module Requests {
  import opened Columns
  import opened ExpandableTables
  import opened DeliveryTables
  import opened Memories

  datatype Request = Request(size: nat, offset: int, src: int, dst: int)

  /** The put that answers a request out of this memory. */
  function Answer(mem: Memory, req: Request): Record {
    Record(Put(req.dst), ReadBytes(mem, req.src + req.offset, req.size))
  }

  function Answers(mem: Memory, reqs: seq<Request>): (r: seq<Record>)
    ensures |r| == |reqs| && forall k | 0 <= k < |r| :: r[k] == Answer(mem, reqs[k])
  {
    seq(|reqs|, k requires 0 <= k < |reqs| => Answer(mem, reqs[k]))
  }

  /** The running bound `data_sizes` of requestTable_push, in bytes. */
  function DataSize(reqs: seq<Request>): nat {
    if reqs == [] then 0
    else DataSize(reqs[..|reqs| - 1]) + reqs[|reqs| - 1].size + ELEMENT_BYTES
  }

  /** The bytes that a requester counts, used as slots, are at least the slots that the
    * answers take. */
  lemma {:induction false} AnswersFit(log: seq<Record>, mem: Memory, reqs: seq<Request>)
    ensures Size(log) <= Size(log + Answers(mem, reqs)) <= Size(log) + DataSize(reqs)
  {
    var answers := Answers(mem, reqs);
    if reqs == [] {
      assert log + answers == log;
    } else {
      var last := |reqs| - 1;
      AnswersFit(log, mem, reqs[..last]);
      assert answers[..last] == Answers(mem, reqs[..last]);
      assert log + answers == (log + answers[..last]) + [answers[last]];
      Append(log + answers[..last], answers[last], PutItem);
    }
  }

  class RequestTable {
    const table: ExpandableTable<Request>
    const dataSizes: array<nat>

    /** The columns and the running bounds stand for these requests. */
    ghost predicate Is(reqs: seq<seq<Request>>)
      reads this, table, table.used, table.data, dataSizes
    {
      && table.Valid() && table.rows > 0 && |reqs| == table.nprocs == dataSizes.Length
      && dataSizes != table.used && dataSizes as object != table.data as object
      && forall p: nat | p < |reqs| :: IsAt(reqs, p)
    }

    ghost predicate IsAt(reqs: seq<seq<Request>>, p: nat)
      requires table.Valid() && p < |reqs| == table.nprocs == dataSizes.Length
      reads this, table, table.used, table.data, dataSizes
    {
      table.Column(p) == reqs[p] && dataSizes[p] == DataSize(reqs[p])
    }

    constructor (nprocs: nat, rows: nat)
      requires rows > 0
      ensures Is(seq(nprocs, _ => []))
      ensures fresh(table) && fresh(table.used) && fresh(table.data) && fresh(dataSizes)
      ensures table.nprocs == nprocs
    {
      table := new ExpandableTable<Request>(nprocs, rows);
      dataSizes := new nat[nprocs](_ => 0);
    }

    /** requestTable_push */
    method Push(p: nat, req: Request, ghost reqs: seq<seq<Request>>)
      requires Is(reqs) && p < |reqs|
      modifies table, table.used, table.data, dataSizes
      ensures Is(reqs[p := reqs[p] + [req]])
      ensures dataSizes[p] == old(dataSizes[p]) + req.size + 16
      ensures table.used == old(table.used) && (table.data == old(table.data) || fresh(table.data))
    {
      assert IsAt(reqs, p);
      dataSizes[p] := dataSizes[p] + req.size + ELEMENT_BYTES;
      table.Push(p, req);
      ghost var reqs' := reqs[p := reqs[p] + [req]];
      assert (reqs[p] + [req])[..|reqs[p]|] == reqs[p];
      forall q: nat | q < |reqs'| ensures IsAt(reqs', q) {
        assert old(IsAt(reqs, q));
      }
    }

    /** requestTable_reset */
    method Reset()
      requires table.Valid() && table.rows > 0 && table.nprocs == dataSizes.Length
      requires dataSizes != table.used && dataSizes as object != table.data as object
      modifies table.used, dataSizes
      ensures Is(seq(table.nprocs, _ => []))
    {
      forall p | 0 <= p < dataSizes.Length {
        dataSizes[p] := 0;
      }
      table.Clear();
    }
  }

  /** requestTable_execute: every request becomes a put in the column of its sender. */
  method AnswerAll(table: ExpandableTable<Request>, deliv: DeliveryTable, mem: Memory,
                   ghost reqs: seq<seq<Request>>, ghost logs: seq<seq<Record>>)
    requires table.Valid() && |reqs| == table.nprocs && forall p | 0 <= p < |reqs| :: table.Column(p) == reqs[p]
    requires Represents(deliv, logs) && |logs| == |reqs|
    requires {deliv, deliv.used, deliv.data} !! {table, table.used, table.data}
    modifies deliv, deliv.used, deliv.data
    ensures deliv.used == old(deliv.used) && (deliv.data == old(deliv.data) || fresh(deliv.data))
    ensures Represents(deliv, Answered(logs, mem, reqs, |reqs|))
  {
    assert Answered(logs, mem, reqs, 0) == logs;
    for i := 0 to table.nprocs
      invariant Represents(deliv, Answered(logs, mem, reqs, i))
      invariant deliv.used == old(deliv.used) && (deliv.data == old(deliv.data) || fresh(deliv.data))
    {
      ghost var now := Answered(logs, mem, reqs, i);
      AnswerColumn(table, i, deliv, mem, reqs[i], now);
      assert now[i := now[i] + Answers(mem, reqs[i])] == Answered(logs, mem, reqs, i + 1);
    }
  }

  /** The logs once the requests of the first n processors are answered. */
  function Answered(logs: seq<seq<Record>>, mem: Memory, reqs: seq<seq<Request>>, n: nat): (r: seq<seq<Record>>)
    requires n <= |logs| == |reqs|
    ensures |r| == |logs|
  {
    seq(|logs|, p requires 0 <= p < |logs| => if p < n then logs[p] + Answers(mem, reqs[p]) else logs[p])
  }

  /** The inner loop: the requests of one processor, in the order of its calls. */
  method AnswerColumn(table: ExpandableTable<Request>, i: nat, deliv: DeliveryTable, mem: Memory,
                      ghost col: seq<Request>, ghost logs: seq<seq<Record>>)
    requires table.Valid() && i < table.nprocs && table.Column(i) == col
    requires Represents(deliv, logs) && i < |logs|
    requires {deliv, deliv.used, deliv.data} !! {table, table.used, table.data}
    modifies deliv, deliv.used, deliv.data
    ensures deliv.used == old(deliv.used) && (deliv.data == old(deliv.data) || fresh(deliv.data))
    ensures Represents(deliv, logs[i := logs[i] + Answers(mem, col)])
  {
    ghost var answers := Answers(mem, col);
    ColumnFits(i, table.nprocs, table.rows);
    var base, n := i * table.rows, table.used[i];
    assert logs[i] + answers[..0] == logs[i] && logs[i := logs[i]] == logs;
    for j := 0 to n
      invariant deliv.used == old(deliv.used) && (deliv.data == old(deliv.data) || fresh(deliv.data))
      invariant Represents(deliv, logs[i := logs[i] + answers[..j]])
    {
      assert table.data[base + j] == col[j];
      var req := table.data[base + j];
      var junk: nat := *;
      ghost var now := logs[i := logs[i] + answers[..j]];
      Push(deliv, i, Answer(mem, req), junk, now);
      assert answers[..j + 1] == answers[..j] + [answers[j]];
      assert now[i] + [answers[j]] == logs[i] + answers[..j + 1];
      assert now[i := now[i] + [answers[j]]] == logs[i := logs[i] + answers[..j + 1]];
    }
    assert answers[..n] == answers;
  }
}
