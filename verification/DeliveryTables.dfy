/** The delivery table (src/bsp_delivtable.h): initialise, reset, push. */
module DeliveryTables {
  import opened Columns
  import opened ColumnPush
  import opened ExpandableTables

  type DeliveryTable = ExpandableTable<Slot>

  /** What the table stands for: a list of records per destination. */
  ghost predicate Represents(table: DeliveryTable, log: seq<seq<Record>>)
    reads table, table.used, table.data
  {
    && table.Valid() && |log| == table.nprocs
    && forall p | 0 <= p < table.nprocs :: ColumnOk(table.Column(p), log[p])
  }

  /** The index has been zeroed in every column and nothing follows it. */
  method Initialize(nprocs: nat, rows: nat) returns (table: DeliveryTable)
    ensures fresh(table) && fresh(table.used) && fresh(table.data)
    ensures table.nprocs == nprocs && Represents(table, seq(nprocs, _ => [])) && table.rows >= INDEX_SLOTS
    ensures forall p | 0 <= p < nprocs :: table.used[p] == 9
  {
    table := new ExpandableTable<Slot>(nprocs, rows + INDEX_SLOTS);
    ZeroIndex(table);
    forall p | 0 <= p < nprocs ensures table.used[p] == 9 {
      assert |table.Column(p)| == Size([]) == 9;
    }
  }

  /** deliveryTable_reset */
  method Reset(table: DeliveryTable)
    requires table.Valid() && table.rows >= INDEX_SLOTS
    modifies table.data, table.used
    ensures Represents(table, seq(table.nprocs, _ => []))
  {
    table.Clear();
    ZeroIndex(table);
  }

  method ZeroIndex(table: DeliveryTable)
    requires table.Valid() && table.rows >= INDEX_SLOTS
    requires forall p | 0 <= p < table.nprocs :: table.Column(p) == []
    modifies table.data, table.used
    ensures Represents(table, seq(table.nprocs, _ => []))
  {
    for p := 0 to table.nprocs
      invariant table.Valid()
      invariant forall q | 0 <= q < table.nprocs :: table.Column(q) == if q < p then EMPTY_COLUMN else []
    {
      assert table.used[p] == |table.Column(p)| == 0;
      table.AppendSlots(p, EMPTY_COLUMN);
    }
    EmptyColumnOk();
  }

  /** Write word u of the index at the top of column p. */
  method SetWord(table: DeliveryTable, p: nat, u: nat, v: nat)
    requires table.Valid() && p < table.nprocs && u < 18 && HasIndex(table.Column(p))
    modifies table.data
    ensures table.Valid() && table.Column(p) == SetIndexWord(old(table.Column(p)), u, v)
    ensures forall q | 0 <= q < table.nprocs && q != p :: table.Column(q) == old(table.Column(q))
  {
    ColumnFits(p, table.nprocs, table.rows);
    var slot := table.data[p * table.rows + u / 2];
    assert slot == table.Column(p)[u / 2];
    table.Write(p, u / 2, if u % 2 == 0 then slot.(lo := v) else slot.(hi := v));
  }

  method GetWord(table: DeliveryTable, p: nat, u: nat) returns (v: nat)
    requires table.Valid() && p < table.nprocs && u < 18 && HasIndex(table.Column(p))
    ensures v == IndexWord(table.Column(p), u)
  {
    ColumnFits(p, table.nprocs, table.rows);
    var slot := table.data[p * table.rows + u / 2];
    assert slot == table.Column(p)[u / 2];
    v := if u % 2 == 0 then slot.lo else slot.hi;
  }

  /** deliveryTable_push and the memcpy of the payload that every caller does next.
    * `next` is the uninitialised field of the caller's element. */
  method Push(table: DeliveryTable, p: nat, rec: Record, next: nat, ghost log: seq<seq<Record>>)
    requires Represents(table, log) && p < table.nprocs
    modifies table, table.used, table.data
    ensures Represents(table, log[p := log[p] + [rec]])
    ensures table.used == old(table.used) && (table.data == old(table.data) || fresh(table.data))
    ensures table.rows >= old(table.rows)
  {
    var t := rec.info.Kind();
    var objectSize := TAG_SLOTS + NoSlots(|rec.payload|);
    var freeSpace := table.rows - table.used[p];
    if objectSize > freeSpace {
      var needed := objectSize - freeSpace;
      table.Expand(if table.rows > needed then table.rows else needed);
    }
    ghost var col := table.Column(p);
    PushKeepsColumn(col, log[p], rec, next);
    PushSlots(table, p, rec, next);
  }

  /** A record takes two slots and one for every eight bytes of payload, the last perhaps not full. */
  lemma PushedSize(log: seq<Record>, rec: Record)
    ensures Size(log + [rec]) == Size(log) + 2 + (|rec.payload| + 7) / 8
  {
    assert (log + [rec])[..|log|] == log;
  }

  /** Lines 238-254: link the record, then write it behind the used slots. */
  method PushSlots(table: DeliveryTable, p: nat, rec: Record, next: nat)
    requires table.Valid() && p < table.nprocs
    requires Linkable(table.Column(p), rec.info.Kind())
    requires table.used[p] + rec.Slots() <= table.rows
    modifies table.used, table.data
    ensures table.Valid() && table.Column(p) == PushColumn(old(table.Column(p)), rec, next)
    ensures forall q | 0 <= q < table.nprocs && q != p :: table.Column(q) == old(table.Column(q))
  {
    LinkSlots(table, p, rec.info.Kind());
    table.AppendSlots(p, Image(rec, next));
  }

  /** The first `if` of the link step: a head, or the successor of the last record. */
  method ThreadSlots(table: DeliveryTable, p: nat, t: ItemType, count: nat)
    requires table.Valid() && p < table.nprocs && Linkable(table.Column(p), t)
    requires count == Count(table.Column(p), t)
    modifies table.data
    ensures table.Valid() && table.Column(p) == Thread(old(table.Column(p)), t)
    ensures forall q | 0 <= q < table.nprocs && q != p :: table.Column(q) == old(table.Column(q))
  {
    if count == 0 {
      SetWord(table, p, t.Ord(), table.used[p]);
    } else {
      var end := GetWord(table, p, 12 + t.Ord());
      ColumnFits(p, table.nprocs, table.rows);
      var header := table.data[p * table.rows + end];
      assert header == table.Column(p)[end];
      table.Write(p, end, header.(hi := table.used[p] - end));
    }
  }

  method LinkSlots(table: DeliveryTable, p: nat, t: ItemType)
    requires table.Valid() && p < table.nprocs && Linkable(table.Column(p), t)
    modifies table.data
    ensures table.Valid() && table.Column(p) == Link(old(table.Column(p)), t)
    ensures forall q | 0 <= q < table.nprocs && q != p :: table.Column(q) == old(table.Column(q))
  {
    var count := GetWord(table, p, 6 + t.Ord());
    ThreadSlots(table, p, t, count);
    SetWord(table, p, 12 + t.Ord(), table.used[p]);
    SetWord(table, p, 6 + t.Ord(), count + 1);
  }
}
