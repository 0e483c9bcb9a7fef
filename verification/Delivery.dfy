/** deliveryTable_execute (src/bsp_delivtable.c): the received lists are walked, memory
  * and register are updated, and all sends are linked into one message queue. */
module Delivery {
  import opened Columns
  import opened DeliveryTables
  import opened Threads
  import opened Memories
  import opened Registers
  import opened MemoryRegisters
  import opened MessageQueues

  /** From `base` on, the slots stand for these records; more may be reserved behind. */
  ghost predicate ReceivedColumn(d: seq<Slot>, base: nat, recs: seq<Record>) {
    base + Size(recs) <= |d| && ColumnOk(d[base..base + Size(recs)], recs)
  }

  /** Absolute positions of the records of one type in a column. */
  function Spots(base: nat, recs: seq<Record>, t: ItemType): (at: seq<nat>)
    ensures |at| == |Select(recs, t)|
    ensures forall k | 0 <= k < |at| :: base + INDEX_SLOTS <= at[k] < base + Size(recs)
    ensures forall k, l | 0 <= k < l < |at| :: at[k] < at[l]
  {
    Shift(Places(recs, t), base)
  }

  /** What the index of a column inside a larger array says about one list. */
  lemma ListReceived(d: seq<Slot>, base: nat, t: ItemType, places: seq<nat>, list: seq<Record>, col: seq<Slot>,
                     at: seq<nat>)
    requires base + |col| <= |d| && col == d[base..base + |col|] && ListOk(col, t, places, list)
      && at == Shift(places, base)
    ensures Threaded(d, at, list) && HasIndex(col) && Count(col, t) == |at|
    ensures |at| > 0 ==> base + Columns.Start(col, t) == at[0]
  {
    ListInside(d, base, |col|, t, places, list);
  }

  lemma ReceivedList(d: seq<Slot>, base: nat, recs: seq<Record>, t: ItemType)
    returns (at: seq<nat>, list: seq<Record>, col: seq<Slot>)
    requires ReceivedColumn(d, base, recs)
    ensures at == Spots(base, recs, t) && list == Select(recs, t) && col == d[base..base + Size(recs)]
    ensures Threaded(d, at, list) && HasIndex(col) && Count(col, t) == |at|
    ensures |at| > 0 ==> base + Columns.Start(col, t) == at[0]
  {
    col, at := d[base..base + Size(recs)], Spots(base, recs, t);
    var places;
    places, list := ListOf(col, recs, t);
    ListReceived(d, base, t, places, list, col, at);
  }

  lemma ListOf(col: seq<Slot>, recs: seq<Record>, t: ItemType) returns (at: seq<nat>, list: seq<Record>)
    requires ColumnOk(col, recs)
    ensures at == Places(recs, t) && list == Select(recs, t) && ListOk(col, t, at, list)
  {
    at, list := Places(recs, t), Select(recs, t);
  }

  /** Read one of the words `start` or `count` of the index at `base`. */
  method ReadWord(table: DeliveryTable, base: nat, u: nat, ghost original: seq<Slot>, ghost col: seq<Slot>)
    returns (v: nat)
    requires u < 12 && base + |col| <= |original| && original[base..base + |col|] == col && HasIndex(col)
    requires SameButSends(original, table.data[..])
    ensures v == IndexWord(col, u)
  {
    assert col[u / 2] == original[base + u / 2] && col[u / 2 + 1] == original[base + u / 2 + 1];
    var slot := table.data[base + u / 2];
    v := if u % 2 == 0 then slot.lo else slot.hi;
  }

  /** Read the head and the length of a list from the index of a column. */
  method ListHead(table: DeliveryTable, base: nat, t: ItemType, ghost original: seq<Slot>, ghost recs: seq<Record>)
    returns (pointer: nat, count: nat)
    requires ReceivedColumn(original, base, recs)
    requires SameButSends(original, table.data[..])
    ensures count == |Select(recs, t)| && pointer >= base
    ensures count > 0 ==> pointer == Spots(base, recs, t)[0]
  {
    ghost var at, list, col := ReceivedList(original, base, recs, t);
    var start := ReadWord(table, base, t.Ord(), original, col);
    count := ReadWord(table, base, 6 + t.Ord(), original, col);
    pointer := base + start;
  }

  /** Start a walk along one list of column p. Only sends may have been relinked. */
  method OpenList(table: DeliveryTable, base: nat, t: ItemType, ghost original: seq<Slot>, ghost recs: seq<Record>)
    returns (pointer: nat, count: nat, ghost at: seq<nat>)
    requires ReceivedColumn(original, base, recs) && t != SendItem
    requires SameButSends(original, table.data[..])
    ensures Threaded(table.data[..], at, Select(recs, t)) && count == |at|
    ensures count > 0 ==> pointer == at[0]
  {
    pointer, count := ListHead(table, base, t, original, recs);
    ghost var list, col;
    at, list, col := ReceivedList(original, base, recs, t);
    ThreadedKept(original, table.data[..], at, list);
  }

  /** What a walk reads at one record. */
  method ReadElement(table: DeliveryTable, pointer: nat, ghost rec: Record)
    returns (info: Info, payload: seq<byte>, next: nat)
    requires Holds(table.data[..], pointer, rec)
    ensures info == rec.info && payload == rec.payload && next == Next(table.data[..], pointer)
  {
    var header := table.data[pointer];
    info := table.data[pointer + 1].info;
    payload := Unpack(table.data[..], pointer + TAG_SLOTS, header.lo);
    next := header.hi;
  }

  /** "do put's": the memory of this processor after one column. */
  method DoPuts(table: DeliveryTable, base: nat, ram: Ram, ghost original: seq<Slot>, ghost recs: seq<Record>)
    requires ReceivedColumn(original, base, recs)
    requires SameButSends(original, table.data[..])
    modifies ram
    ensures ram.bytes == PutAll(old(ram.bytes), Select(recs, PutItem))
  {
    ghost var list := Select(recs, PutItem);
    var pointer, count, at := OpenList(table, base, PutItem, original, recs);
    RunPuts(table, pointer, count, ram, at, list);
  }

  method RunPuts(table: DeliveryTable, start: nat, count: nat, ram: Ram, ghost at: seq<nat>, ghost list: seq<Record>)
    requires Threaded(table.data[..], at, list) && count == |at| && (count > 0 ==> start == at[0])
    requires forall k | 0 <= k < |list| :: list[k].info.Put?
    modifies ram
    ensures ram.bytes == PutAll(old(ram.bytes), list)
  {
    var pointer := start;
    for i := 0 to count
      invariant i < count ==> pointer == at[i]
      invariant ram.bytes == PutAll(old(ram.bytes), list[..i])
    {
      assert list[..i + 1][..i] == list[..i];
      var info, payload, next := ReadElement(table, pointer, list[i]);
      ram.bytes := WriteBytes(ram.bytes, info.dst, payload);
      pointer := pointer + next;
    }
    assert list[..count] == list;
  }

  /** The addresses in a list of registrations or of removals. */
  function Addresses(list: seq<Record>): (r: seq<int>)
    ensures |r| == |list|
  {
    seq(|list|, k requires 0 <= k < |list| =>
      match list[k].info
      case PushReg(a) => a
      case PopReg(a) => a
      case _ => 0)
  }

  /** "do pushreg's": the addresses of one column go to the column of their sender. */
  method DoPushRegs(table: DeliveryTable, base: nat, p: nat, memreg: MemoryRegister, ghost original: seq<Slot>,
                    ghost recs: seq<Record>,
                    ghost cols: seq<seq<int>>, ghost marks: seq<bool>)
    requires ReceivedColumn(original, base, recs)
    requires SameButSends(original, table.data[..])
    requires memreg.Is(cols, marks) && p < memreg.table.nprocs
    requires {table, table.data} !! memreg.Footprint()
    modifies memreg, memreg.table, memreg.table.used, memreg.table.data, memreg.removed
    ensures memreg.Grown()
    ensures memreg.Is(cols[p := cols[p] + Addresses(Select(recs, PushRegItem))], marks)
  {
    ghost var list := Select(recs, PushRegItem);
    var pointer, count, at := OpenList(table, base, PushRegItem, original, recs);
    RunPushRegs(table, pointer, count, p, memreg, at, list, cols, marks);
  }

  method RunPushRegs(table: DeliveryTable, start: nat, count: nat, p: nat, memreg: MemoryRegister,
                     ghost at: seq<nat>, ghost list: seq<Record>, ghost cols: seq<seq<int>>, ghost marks: seq<bool>)
    requires Threaded(table.data[..], at, list) && count == |at| && (count > 0 ==> start == at[0])
    requires forall k | 0 <= k < |list| :: list[k].info.PushReg?
    requires memreg.Is(cols, marks) && p < memreg.table.nprocs
    requires {table, table.data} !! memreg.Footprint()
    modifies memreg, memreg.table, memreg.table.used, memreg.table.data, memreg.removed
    ensures memreg.Grown()
    ensures memreg.Is(cols[p := cols[p] + Addresses(list)], marks)
  {
    var pointer := start;
    ghost var addresses, data := Addresses(list), table.data[..];
    for i := 0 to count
      invariant i < count ==> pointer == at[i]
      invariant table.data[..] == data
      invariant memreg.Grown()
      invariant memreg.Is(cols[p := cols[p] + addresses[..i]], marks)
    {
      var info, payload, next := ReadElement(table, pointer, list[i]);
      PushOne(p, memreg, info.pushed, addresses, i, cols, marks);
      pointer := pointer + next;
    }
    assert addresses[..count] == addresses;
  }

  method PushOne(p: nat, memreg: MemoryRegister, address: int, ghost addresses: seq<int>, ghost i: nat,
                 ghost cols: seq<seq<int>>, ghost marks: seq<bool>)
    requires p < |cols| && i < |addresses| && addresses[i] == address
    requires memreg.Is(cols[p := cols[p] + addresses[..i]], marks)
    modifies memreg, memreg.table, memreg.table.used, memreg.table.data, memreg.removed
    ensures memreg.Grown()
    ensures memreg.Is(cols[p := cols[p] + addresses[..i + 1]], marks)
  {
    ghost var now := cols[p := cols[p] + addresses[..i]];
    memreg.Push(p, address, now, marks);
    assert addresses[..i + 1] == addresses[..i] + [address];
    assert now[p] + [address] == cols[p] + addresses[..i + 1];
    assert now[p := now[p] + [address]] == cols[p := cols[p] + addresses[..i + 1]];
  }

  ghost predicate AllSends(list: seq<Record>) {
    forall k | 0 <= k < |list| :: list[k].info.Send?
  }

  lemma SelectSends(recs: seq<Record>)
    ensures AllSends(Select(recs, SendItem))
  {
    var list := Select(recs, SendItem);
    forall k | 0 <= k < |list| ensures list[k].info.Send? {
      assert list[k].info.Kind() == SendItem;
    }
  }

  ghost predicate Ascending(at: seq<nat>) {
    forall k, l | 0 <= k < l < |at| :: at[k] < at[l]
  }

  /** Positions of headers between two bounds. */
  ghost predicate Within(at: seq<nat>, lo: nat, hi: nat) {
    forall k | 0 <= k < |at| :: lo <= at[k] < hi
  }

  lemma AscendingConcat(a: seq<nat>, b: seq<nat>, bound: nat, hi: nat)
    requires Ascending(a) && Ascending(b) && Within(a, 0, bound) && Within(b, bound, hi) && bound <= hi
    ensures Ascending(a + b) && Within(a + b, 0, hi)
  {
  }

  /** The sends linked so far: where they are, and that nothing else has changed. */
  ghost predicate Linked(table: DeliveryTable, original: seq<Slot>, at: seq<nat>, list: seq<Record>,
                         message: Option<nat>, bound: nat)
    reads table, table.data
  {
    && SameButSends(original, table.data[..])
    && Threaded(table.data[..], at, list)
    && AllSends(list) && Ascending(at) && Within(at, 0, bound)
    && message == (if at == [] then None else Some(at[|at| - 1]))
    && bound <= |original| == table.data.Length
    && forall k | bound <= k < |original| :: table.data[k] == original[k]
  }

  /** Let the last message lead to `pointer`. The offset is relative to the message. */
  method Relink(table: DeliveryTable, message: nat, pointer: nat, ghost original: seq<Slot>, ghost at: seq<nat>,
                ghost list: seq<Record>, ghost bound: nat)
    requires Linked(table, original, at, list, Some(message), bound) && bound <= pointer
    modifies table.data
    ensures Linked(table, original, at, list, Some(message), bound)
    ensures message + Next(table.data[..], message) == pointer
  {
    ghost var before := table.data[..];
    assert Holds(before, message, list[|list| - 1]);
    table.data[message] := table.data[message].(hi := pointer - message);
    ThreadedRelink(before, table.data[..], at, list, pointer - message);
    SameTransitive(original, before, table.data[..]);
  }

  /** Walk over the sends of one column, counting them. */
  method CountSends(table: DeliveryTable, start: nat, count: nat, mesgq: MessageQueue, ghost at: seq<nat>,
                    ghost list: seq<Record>)
    returns (message: Option<nat>)
    requires Threaded(table.data[..], at, list) && count == |at| && (count > 0 ==> start == at[0])
    modifies mesgq`nMesg, mesgq`accumSize
    ensures message == if at == [] then None else Some(at[|at| - 1])
    ensures mesgq.nMesg == old(mesgq.nMesg) + |list| && mesgq.accumSize == old(mesgq.accumSize) + Bytes(list)
  {
    message := None;
    var pointer := start;
    for i := 0 to count
      invariant i < count ==> pointer == at[i]
      invariant message == if i == 0 then None else Some(at[i - 1])
      invariant mesgq.nMesg == old(mesgq.nMesg) + i && mesgq.accumSize == old(mesgq.accumSize) + Bytes(list[..i])
    {
      assert list[..i + 1][..i] == list[..i];
      message := Some(pointer);
      var info, payload, next := ReadElement(table, pointer, list[i]);
      mesgq.accumSize := mesgq.accumSize + |payload|;
      mesgq.nMesg := mesgq.nMesg + 1;
      pointer := pointer + next;
    }
    assert list[..count] == list;
  }

  /** The queue so far and the sends of the next column, as one queue. */
  lemma JoinLinked(table: DeliveryTable, original: seq<Slot>, at: seq<nat>, list: seq<Record>, message: Option<nat>,
                   bound: nat,
                   spots: seq<nat>, sends: seq<Record>, bound': nat)
    requires Linked(table, original, at, list, message, bound)
    requires Threaded(table.data[..], spots, sends) && AllSends(sends)
    requires at != [] && spots != [] ==> at[|at| - 1] + Next(table.data[..], at[|at| - 1]) == spots[0]
    requires bound <= bound' <= |original|
    requires Ascending(spots) && Within(spots, bound, bound')
    ensures Linked(table, original, at + spots, list + sends, if spots == [] then message
      else Some(spots[|spots| - 1]), bound')
  {
    ThreadedConcat(table.data[..], at, list, spots, sends);
    AscendingConcat(at, spots, bound, bound');
  }

  /** Lines 77-82: find the sends of a column and let the last message lead there. */
  method LinkColumn(table: DeliveryTable, bound: nat, message: Option<nat>, ghost original: seq<Slot>,
                    ghost recs: seq<Record>,
                    ghost at: seq<nat>, ghost list: seq<Record>)
    returns (pointer: nat, count: nat, ghost spots: seq<nat>)
    requires ReceivedColumn(original, bound, recs)
    requires Linked(table, original, at, list, message, bound)
    modifies table.data
    ensures Linked(table, original, at, list, message, bound)
    ensures spots == Spots(bound, recs, SendItem)
    ensures Threaded(table.data[..], spots, Select(recs, SendItem)) && count == |spots|
    ensures count > 0 ==> pointer == spots[0]
    ensures at != [] ==> at[|at| - 1] + Next(table.data[..], at[|at| - 1]) == pointer
    ensures Ascending(spots) && Within(spots, bound, bound + Size(recs))
  {
    pointer, count := ListHead(table, bound, SendItem, original, recs);
    if message.Some? {
      Relink(table, message.value, pointer, original, at, list, bound);
    }
    spots := Spots(bound, recs, SendItem);
    ghost var at, list, col := ReceivedList(original, bound, recs, SendItem);
    ThreadedBeyond(original, table.data[..], bound, spots, list);
  }

  /** Lines 84-90: count the sends of a column that the queue already leads to. */
  method AppendSends(table: DeliveryTable, pointer: nat, count: nat, mesgq: MessageQueue, message: Option<nat>,
                     ghost original: seq<Slot>, ghost at: seq<nat>, ghost list: seq<Record>, ghost bound: nat,
                     ghost spots: seq<nat>, ghost sends: seq<Record>, ghost bound': nat)
    returns (last: Option<nat>)
    requires Linked(table, original, at, list, message, bound)
    requires Threaded(table.data[..], spots, sends) && count == |spots| && AllSends(sends)
    requires count > 0 ==> pointer == spots[0]
    requires at != [] ==> at[|at| - 1] + Next(table.data[..], at[|at| - 1]) == pointer
    requires bound <= bound' <= |original|
    requires Ascending(spots) && Within(spots, bound, bound')
    modifies mesgq`nMesg, mesgq`accumSize
    ensures Linked(table, original, at + spots, list + sends, last, bound')
    ensures mesgq.nMesg == old(mesgq.nMesg) + |sends|
    ensures mesgq.accumSize == old(mesgq.accumSize) + Bytes(sends)
  {
    JoinLinked(table, original, at, list, message, bound, spots, sends, bound');
    last := CountSends(table, pointer, count, mesgq, spots, sends);
    if count == 0 {
      last := message;
    }
  }

  /** "gather data about send's" for one column: the column's sends are appended to the
    * queue, and a column without sends leaves no gap in it. */
  method LinkSends(table: DeliveryTable, bound: nat, mesgq: MessageQueue, message: Option<nat>,
                   ghost original: seq<Slot>, ghost recs: seq<Record>, ghost at: seq<nat>, ghost list: seq<Record>,
                   ghost bound': nat)
    returns (last: Option<nat>, ghost at': seq<nat>)
    requires ReceivedColumn(original, bound, recs) && bound + Size(recs) <= bound' <= |original|
    requires Linked(table, original, at, list, message, bound)
    modifies table.data, mesgq`nMesg, mesgq`accumSize
    ensures at' == at + Spots(bound, recs, SendItem)
    ensures Linked(table, original, at', list + Select(recs, SendItem), last, bound')
    ensures mesgq.nMesg == old(mesgq.nMesg) + |Select(recs, SendItem)|
    ensures mesgq.accumSize == old(mesgq.accumSize) + Bytes(Select(recs, SendItem))
  {
    SelectSends(recs);
    var pointer, count, spots := LinkColumn(table, bound, message, original, recs, at, list);
    last := AppendSends(table, pointer, count, mesgq, message, original, at, list, bound, spots, Select(recs, SendItem),
      bound');
    at' := at + spots;
  }
}
