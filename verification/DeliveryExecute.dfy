/** The whole of deliveryTable_execute: all columns, then the local removals and tag
  * sizes, then the head of the message queue. */
module DeliveryExecute {
  import opened Columns
  import opened ExpandableTables
  import opened DeliveryTables
  import opened Threads
  import opened Memories
  import opened Registers
  import opened MemoryRegisters
  import opened MessageQueues
  import opened Delivery

  method PopOne(rank: nat, memreg: MemoryRegister, address: int, ghost addresses: seq<int>, ghost i: nat,
                ghost cols: seq<seq<int>>, ghost marks: seq<bool>, ghost now: seq<bool>)
    returns (ok: bool, ghost now': seq<bool>)
    requires memreg.Is(cols, now) && rank < memreg.table.nprocs && |cols[rank]| <= |marks|
    requires i < |addresses| && addresses[i] == address && PopMarks(cols[rank], marks, addresses[..i]) == Some(now)
    modifies memreg, memreg.removed
    ensures memreg.removed == old(memreg.removed)
    ensures ok ==> PopMarks(cols[rank], marks, addresses[..i + 1]) == Some(now') && memreg.Is(cols, now')
    ensures !ok ==> PopMarks(cols[rank], marks, addresses) == None
  {
    PopMarksStep(cols[rank], marks, addresses, i);
    ok := memreg.Pop(rank, address, cols, now);
    if !ok {
      PopMarksFails(cols[rank], marks, addresses, i + 1);
      now' := now;
    } else {
      now' := now[LastLive(cols[rank], now, address).value := true];
    }
  }

  /** "do popreg's": mark the rows, or abort. */
  method RunPops(table: DeliveryTable, start: nat, count: nat, rank: nat, memreg: MemoryRegister,
                 ghost at: seq<nat>, ghost list: seq<Record>, ghost cols: seq<seq<int>>, ghost marks: seq<bool>)
    returns (ok: bool)
    requires Threaded(table.data[..], at, list) && count == |at| && (count > 0 ==> start == at[0])
    requires forall k | 0 <= k < |list| :: list[k].info.PopReg?
    requires memreg.Is(cols, marks) && rank < memreg.table.nprocs && |cols[rank]| <= |marks|
    requires {table, table.data} !! memreg.Footprint()
    modifies memreg, memreg.removed
    ensures memreg.removed == old(memreg.removed)
    ensures ok == PopMarks(cols[rank], marks, Addresses(list)).Some?
    ensures ok ==> memreg.Is(cols, PopMarks(cols[rank], marks, Addresses(list)).value)
  {
    var pointer := start;
    ghost var addresses, data, now := Addresses(list), table.data[..], marks;
    for i := 0 to count
      invariant i < count ==> pointer == at[i]
      invariant table.data[..] == data && memreg.removed == old(memreg.removed)
      invariant PopMarks(cols[rank], marks, addresses[..i]) == Some(now) && memreg.Is(cols, now)
    {
      var info, payload, next := ReadElement(table, pointer, list[i]);
      ok, now := PopOne(rank, memreg, info.popped, addresses, i, cols, marks, now);
      if !ok {
        return;
      }
      pointer := pointer + next;
    }
    assert addresses[..count] == addresses;
    return true;
  }

  /** The tag size in force after a list of settags. */
  function LastTag(list: seq<Record>, size: nat): nat {
    if list == [] || !list[|list| - 1].info.SetTag? then size else list[|list| - 1].info.tagSize
  }

  /** "do settag's" */
  method RunSetTags(table: DeliveryTable, start: nat, count: nat, mesgq: MessageQueue, ghost at: seq<nat>,
                    ghost list: seq<Record>)
    requires Threaded(table.data[..], at, list) && count == |at| && (count > 0 ==> start == at[0])
    requires forall k | 0 <= k < |list| :: list[k].info.SetTag?
    modifies mesgq`sendTagSize
    ensures mesgq.sendTagSize == LastTag(list, old(mesgq.sendTagSize))
  {
    var pointer := start;
    for i := 0 to count
      invariant i < count ==> pointer == at[i]
      invariant mesgq.sendTagSize == LastTag(list[..i], old(mesgq.sendTagSize))
    {
      var info, payload, next := ReadElement(table, pointer, list[i]);
      mesgq.sendTagSize := info.tagSize;
      pointer := pointer + next;
    }
    assert list[..count] == list;
  }

  /** The register columns once the first n columns of registrations are executed. */
  function Pushed(cols: seq<seq<int>>, logs: seq<seq<Record>>, n: nat): (r: seq<seq<int>>)
    requires n <= |logs| == |cols|
    ensures |r| == |cols|
  {
    seq(|cols|, q requires 0 <= q < |cols| =>
      if q < n then cols[q] + Addresses(Select(logs[q], PushRegItem)) else cols[q])
  }

  /** Where the sends of the first n columns are, in queue order. */
  function SendSpots(rows: nat, logs: seq<seq<Record>>, n: nat): (at: seq<nat>)
    requires n <= |logs|
  {
    if n == 0 then []
    else SendSpots(rows, logs, n - 1) + Spots(Base(rows, n - 1), logs[n - 1], SendItem)
  }

  /** Where column p begins. */
  function Base(rows: nat, p: nat): nat {
    ColumnFits(p, p + 1, rows);
    p * rows
  }

  /** A received table: each column begins with the slots of its records. */
  ghost predicate Received(d: seq<Slot>, rows: nat, logs: seq<seq<Record>>) {
    && |d| == Base(rows, |logs|)
    && forall p: nat | p < |logs| :: ReceivedAt(d, rows, logs, p)
  }

  ghost predicate ReceivedAt(d: seq<Slot>, rows: nat, logs: seq<seq<Record>>, p: nat)
    requires p < |logs|
  {
    Size(logs[p]) <= rows && ReceivedColumn(d, Base(rows, p), logs[p])
  }

  lemma BaseStep(rows: nat, p: nat, n: nat)
    requires p < n
    ensures Base(rows, p + 1) == Base(rows, p) + rows <= Base(rows, n)
  {
    ColumnFits(p, n, rows);
  }

  lemma {:induction false} BytesConcat(a: seq<Record>, b: seq<Record>)
    ensures Bytes(a + b) == Bytes(a) + Bytes(b)
  {
    if b == [] {
      assert a + b == a;
    } else {
      var last := |b| - 1;
      BytesConcat(a, b[..last]);
      assert (a + b)[..|a| + last] == a + b[..last];
    }
  }

  /** The first two actions of an iteration leave the table and the queue alone. */
  method PutAndRegister(table: DeliveryTable, base: nat, p: nat, memreg: MemoryRegister, ram: Ram,
                        ghost original: seq<Slot>, ghost recs: seq<Record>, ghost cols: seq<seq<int>>,
                        ghost marks: seq<bool>)
    requires ReceivedColumn(original, base, recs) && SameButSends(original, table.data[..])
    requires memreg.Is(cols, marks) && p < |cols|
    requires {table, table.data} !! memreg.Footprint()
    modifies ram, memreg, memreg.table, memreg.table.used, memreg.table.data, memreg.removed
    ensures memreg.Grown()
    ensures ram.bytes == PutAll(old(ram.bytes), Select(recs, PutItem))
    ensures memreg.Is(cols[p := cols[p] + Addresses(Select(recs, PushRegItem))], marks)
  {
    DoPuts(table, base, ram, original, recs);
    DoPushRegs(table, base, p, memreg, original, recs, cols, marks);
  }

  /** One iteration of the loop over the columns. */
  method ExecuteColumn(table: DeliveryTable, base: nat, p: nat, memreg: MemoryRegister, mesgq: MessageQueue, ram: Ram,
                       message: Option<nat>,
                       ghost original: seq<Slot>, ghost recs: seq<Record>, ghost at: seq<nat>, ghost list: seq<Record>,
                       ghost bound: nat,
                       ghost cols: seq<seq<int>>, ghost marks: seq<bool>)
    returns (last: Option<nat>)
    requires ReceivedColumn(original, base, recs) && base + Size(recs) <= bound <= |original|
    requires Linked(table, original, at, list, message, base)
    requires memreg.Is(cols, marks) && p < |cols|
    requires {table, table.data} !! memreg.Footprint()
    modifies table.data, ram, mesgq`nMesg, mesgq`accumSize
    modifies memreg, memreg.table, memreg.table.used, memreg.table.data, memreg.removed
    ensures memreg.Grown()
    ensures ram.bytes == PutAll(old(ram.bytes), Select(recs, PutItem))
    ensures memreg.Is(cols[p := cols[p] + Addresses(Select(recs, PushRegItem))], marks)
    ensures Linked(table, original, at + Spots(base, recs, SendItem), list + Select(recs, SendItem), last, bound)
    ensures mesgq.nMesg == old(mesgq.nMesg) + |Select(recs, SendItem)|
    ensures mesgq.accumSize == old(mesgq.accumSize) + Bytes(Select(recs, SendItem))
  {
    PutAndRegister(table, base, p, memreg, ram, original, recs, cols, marks);
    ghost var at';
    last, at' := LinkSends(table, base, mesgq, message, original, recs, at, list, bound);
  }

  /** What the first n columns amount to. */
  datatype Outcome = Outcome(mem: Memory, cols: seq<seq<int>>, at: seq<nat>, sends: seq<Record>)

  function Outcomes(rows: nat, logs: seq<seq<Record>>, n: nat, mem: Memory, cols: seq<seq<int>>): Outcome
    requires n <= |logs| == |cols|
  {
    Outcome(PutAll(mem, AllOf(logs[..n], PutItem)), Pushed(cols, logs, n), SendSpots(rows, logs, n),
      AllOf(logs[..n], SendItem))
  }

  /** What one column adds. */
  ghost predicate Adds(o: Outcome, o': Outcome, base: nat, p: nat, recs: seq<Record>) {
    && p < |o.cols|
    && o'.mem == PutAll(o.mem, Select(recs, PutItem))
    && o'.cols == o.cols[p := o.cols[p] + Addresses(Select(recs, PushRegItem))]
    && o'.at == o.at + Spots(base, recs, SendItem) && o'.sends == o.sends + Select(recs, SendItem)
    && Bytes(o'.sends) == Bytes(o.sends) + Bytes(Select(recs, SendItem))
  }

  lemma OutcomeStep(rows: nat, logs: seq<seq<Record>>, p: nat, mem: Memory, cols: seq<seq<int>>)
    requires p < |logs| == |cols|
    ensures Adds(Outcomes(rows, logs, p, mem, cols), Outcomes(rows, logs, p + 1, mem, cols), Base(rows, p), p, logs[p])
  {
    AllOfStep(logs, p, PutItem);
    AllOfStep(logs, p, SendItem);
    PutAllConcat(mem, AllOf(logs[..p], PutItem), Select(logs[p], PutItem));
    BytesConcat(AllOf(logs[..p], SendItem), Select(logs[p], SendItem));
  }

  /** Everything one iteration needs to know about column p. */
  ghost predicate StepAt(original: seq<Slot>, rows: nat, logs: seq<seq<Record>>, os: seq<Outcome>, p: nat) {
    && p < |logs| && p + 1 < |os|
    && ReceivedColumn(original, Base(rows, p), logs[p])
    && Base(rows, p) + Size(logs[p]) <= Base(rows, p + 1) <= |original|
    && Adds(os[p], os[p + 1], Base(rows, p), p, logs[p])
  }

  /** The outcomes after 0, 1, 2, ... columns. */
  lemma AllSteps(original: seq<Slot>, rows: nat, logs: seq<seq<Record>>, mem: Memory, cols: seq<seq<int>>)
    returns (os: seq<Outcome>)
    requires |logs| == |cols| && Received(original, rows, logs)
    ensures |os| == |logs| + 1 && os[0] == Outcome(mem, cols, [], [])
    ensures os[|logs|] == Outcomes(rows, logs, |logs|, mem, cols)
    ensures forall p: nat | p < |logs| :: StepAt(original, rows, logs, os, p)
    ensures Base(rows, 0) == 0 && Base(rows, |logs|) == |original|
  {
    os := seq(|logs| + 1, n requires 0 <= n <= |logs| => Outcomes(rows, logs, n, mem, cols));
    forall p: nat | p < |logs| ensures StepAt(original, rows, logs, os, p) {
      assert ReceivedAt(original, rows, logs, p);
      OutcomeStep(rows, logs, p, mem, cols);
      BaseStep(rows, p, |logs|);
    }
    assert Pushed(cols, logs, 0) == cols;
  }

  /** The objects are as these columns have left them; the queue ends below `bound`. */
  ghost predicate After(table: DeliveryTable, memreg: MemoryRegister, mesgq: MessageQueue, ram: Ram,
                        message: Option<nat>,
                        original: seq<Slot>, marks: seq<bool>, o: Outcome, bound: nat)
    reads table, table.data, memreg, memreg.table, memreg.table.used, memreg.table.data, memreg.removed, mesgq, ram
  {
    && ram.bytes == o.mem && memreg.Is(o.cols, marks)
    && Linked(table, original, o.at, o.sends, message, bound)
    && mesgq.nMesg == |o.sends| && mesgq.accumSize == Bytes(o.sends)
  }

  /** One iteration, with what it adds to the outcome. */
  method ColumnStep(table: DeliveryTable, base: nat, p: nat, memreg: MemoryRegister, mesgq: MessageQueue, ram: Ram,
                    message: Option<nat>,
                    ghost original: seq<Slot>, ghost recs: seq<Record>, ghost marks: seq<bool>,
                    ghost o: Outcome, ghost o': Outcome, ghost bound: nat)
    returns (last: Option<nat>)
    requires ReceivedColumn(original, base, recs) && base + Size(recs) <= bound <= |original|
    requires After(table, memreg, mesgq, ram, message, original, marks, o, base)
    requires {table, table.data} !! memreg.Footprint()
    requires Adds(o, o', base, p, recs)
    modifies table.data, ram, mesgq`nMesg, mesgq`accumSize
    modifies memreg, memreg.table, memreg.table.used, memreg.table.data, memreg.removed
    ensures memreg.Grown()
    ensures After(table, memreg, mesgq, ram, last, original, marks, o', bound)
  {
    last := ExecuteColumn(table, base, p, memreg, mesgq, ram, message, original, recs, o.at, o.sends, bound, o.cols,
      marks);
  }

  method ColumnStepAt(table: DeliveryTable, p: nat, memreg: MemoryRegister, mesgq: MessageQueue, ram: Ram,
                      message: Option<nat>,
                      ghost original: seq<Slot>, ghost logs: seq<seq<Record>>, ghost marks: seq<bool>,
                      ghost os: seq<Outcome>)
    returns (last: Option<nat>)
    requires StepAt(original, table.rows, logs, os, p)
    requires After(table, memreg, mesgq, ram, message, original, marks, os[p], Base(table.rows, p))
    requires {table, table.data} !! memreg.Footprint()
    modifies table.data, ram, mesgq`nMesg, mesgq`accumSize
    modifies memreg, memreg.table, memreg.table.used, memreg.table.data, memreg.removed
    ensures memreg.Grown()
    ensures After(table, memreg, mesgq, ram, last, original, marks, os[p + 1], Base(table.rows, p + 1))
  {
    last := ColumnStep(table, Base(table.rows, p), p, memreg, mesgq, ram, message, original, logs[p], marks,
                       os[p], os[p + 1], Base(table.rows, p + 1));
  }

  lemma BeforeAll(table: DeliveryTable, memreg: MemoryRegister, mesgq: MessageQueue, ram: Ram, marks: seq<bool>,
                  o: Outcome)
    requires o.mem == ram.bytes && memreg.Is(o.cols, marks) && o.at == [] && o.sends == []
    requires mesgq.nMesg == mesgq.accumSize == 0
    ensures After(table, memreg, mesgq, ram, None, table.data[..], marks, o, 0)
  {
  }

  /** The loop over the columns. */
  method ExecuteColumns(table: DeliveryTable, memreg: MemoryRegister, mesgq: MessageQueue, ram: Ram,
                        ghost original: seq<Slot>, ghost logs: seq<seq<Record>>, ghost marks: seq<bool>,
                        ghost os: seq<Outcome>)
    returns (message: Option<nat>)
    requires |os| == table.nprocs + 1 && forall p: nat | p < table.nprocs :: StepAt(original, table.rows, logs, os, p)
    requires {table, table.data} !! memreg.Footprint()
    requires After(table, memreg, mesgq, ram, None, original, marks, os[0], Base(table.rows, 0))
    modifies table.data, ram, mesgq`nMesg, mesgq`accumSize
    modifies memreg, memreg.table, memreg.table.used, memreg.table.data, memreg.removed
    ensures memreg.Grown()
    ensures After(table, memreg, mesgq, ram, message, original, marks, os[table.nprocs], Base(table.rows, table.nprocs))
  {
    message := None;
    for p := 0 to table.nprocs
      invariant After(table, memreg, mesgq, ram, message, original, marks, os[p], Base(table.rows, p))
      invariant memreg.Grown()
    {
      message := ColumnStepAt(table, p, memreg, mesgq, ram, message, original, logs, marks, os);
    }
  }

  lemma {:induction false} SendSpotsPrefix(rows: nat, logs: seq<seq<Record>>, p: nat, n: nat)
    requires p <= n <= |logs|
    ensures SendSpots(rows, logs, p) <= SendSpots(rows, logs, n)
    decreases n
  {
    if p < n { SendSpotsPrefix(rows, logs, p, n - 1); }
  }

  lemma SendsStartAt(rows: nat, logs: seq<seq<Record>>, p: nat, spots: seq<nat>)
    requires p < |logs| && SendSpots(rows, logs, p) == [] && spots != []
    requires spots == Spots(Base(rows, p), logs[p], SendItem)
    ensures |SendSpots(rows, logs, |logs|)| > 0 && SendSpots(rows, logs, |logs|)[0] == spots[0]
  {
    var at, all := SendSpots(rows, logs, p + 1), SendSpots(rows, logs, |logs|);
    assert at == spots by { SendSpotsStep(rows, logs, p); }
    SendSpotsPrefix(rows, logs, p + 1, |logs|);
    assert at <= all;
  }

  lemma SendSpotsStep(rows: nat, logs: seq<seq<Record>>, p: nat)
    requires p < |logs|
    ensures SendSpots(rows, logs, p + 1) == SendSpots(rows, logs, p) + Spots(Base(rows, p), logs[p], SendItem)
  {
  }

  method SendsOfColumn(table: DeliveryTable, p: nat, ghost original: seq<Slot>, ghost logs: seq<seq<Record>>)
    returns (pointer: nat, count: nat)
    requires p < |logs| && ReceivedAt(original, table.rows, logs, p)
    requires SameButSends(original, table.data[..])
    requires SendSpots(table.rows, logs, p) == []
    ensures count == 0 ==> SendSpots(table.rows, logs, p + 1) == []
    ensures count > 0 ==> var at := SendSpots(table.rows, logs, |logs|);
                          at != [] && pointer == at[0]
  {
    pointer, count := ListHead(table, Base(table.rows, p), SendItem, original, logs[p]);
    if count > 0 {
      SendsStartAt(table.rows, logs, p, Spots(Base(table.rows, p), logs[p], SendItem));
    }
  }

  /** "look for the first message in the message queue" */
  method FindHead(table: DeliveryTable, mesgq: MessageQueue, ghost original: seq<Slot>, ghost logs: seq<seq<Record>>)
    requires |logs| == table.nprocs && Received(original, table.rows, logs)
    requires SameButSends(original, table.data[..])
    modifies mesgq`head
    ensures var at := SendSpots(table.rows, logs, |logs|);
            mesgq.head == if at == [] then old(mesgq.head) else Some(at[0])
  {
    for p := 0 to table.nprocs
      invariant SendSpots(table.rows, logs, p) == [] && mesgq.head == old(mesgq.head)
    {
      assert ReceivedAt(original, table.rows, logs, p);
      var pointer, count := SendsOfColumn(table, p, original, logs);
      if count > 0 {
        mesgq.head := Some(pointer);
        break;
      }
    }
  }

  /** The removals of the processor's own column. */
  method ExecutePops(table: DeliveryTable, memreg: MemoryRegister, rank: nat, base: nat,
                     ghost original: seq<Slot>, ghost recs: seq<Record>, ghost cols: seq<seq<int>>,
                     ghost marks: seq<bool>)
    returns (ok: bool, ghost after: seq<bool>)
    requires ReceivedColumn(original, base, recs) && SameButSends(original, table.data[..])
    requires memreg.Is(cols, marks) && rank < memreg.table.nprocs && |cols[rank]| <= |marks|
    requires {table, table.data} !! memreg.Footprint()
    modifies memreg, memreg.removed
    ensures memreg.removed == old(memreg.removed)
    ensures PopMarks(cols[rank], marks, Addresses(Select(recs, PopRegItem))) == if ok then Some(after) else None
    ensures ok ==> memreg.Is(cols, after)
  {
    var pointer, count, at := OpenList(table, base, PopRegItem, original, recs);
    ok := RunPops(table, pointer, count, rank, memreg, at, Select(recs, PopRegItem), cols, marks);
    after := PopMarks(cols[rank], marks, Addresses(Select(recs, PopRegItem))).GetOr([]);
  }

  /** The tag sizes of the processor's own column. */
  method ExecuteSetTags(table: DeliveryTable, mesgq: MessageQueue, base: nat, ghost original: seq<Slot>,
                        ghost recs: seq<Record>)
    requires ReceivedColumn(original, base, recs) && SameButSends(original, table.data[..])
    modifies mesgq`sendTagSize
    ensures mesgq.sendTagSize == LastTag(Select(recs, SetTagItem), old(mesgq.sendTagSize))
  {
    var pointer, count, at := OpenList(table, base, SetTagItem, original, recs);
    RunSetTags(table, pointer, count, mesgq, at, Select(recs, SetTagItem));
  }

  /** The objects are as deliveryTable_execute leaves them. */
  ghost predicate Executed(table: DeliveryTable, memreg: MemoryRegister, mesgq: MessageQueue, ram: Ram, o: Outcome,
                           marks: seq<bool>)
    reads table, table.data, memreg, memreg.table, memreg.table.used, memreg.table.data, memreg.removed, mesgq, ram
  {
    && ram.bytes == o.mem && memreg.Is(o.cols, marks)
    && mesgq.Queued(table, o.at, o.sends) && mesgq.accumSize == Bytes(o.sends)
  }

  /** What the loop over the columns leaves to the rest. */
  lemma AfterColumns(table: DeliveryTable, memreg: MemoryRegister, mesgq: MessageQueue, ram: Ram, message: Option<nat>,
                     original: seq<Slot>, o: Outcome, bound: nat)
    requires After(table, memreg, mesgq, ram, message, original, [], o, bound) && memreg.rank < |o.cols|
    ensures SameButSends(original, table.data[..]) && Threaded(table.data[..], o.at, o.sends)
    ensures memreg.Is(o.cols, NoneRemoved(|o.cols[memreg.rank]|))
    ensures ram.bytes == o.mem && mesgq.nMesg == |o.sends| && mesgq.accumSize == Bytes(o.sends)
  {
  }

  /** The local removals and tag sizes, and the head of the queue. */
  method ExecuteLocal(table: DeliveryTable, memreg: MemoryRegister, mesgq: MessageQueue, rank: nat,
                      ghost original: seq<Slot>, ghost logs: seq<seq<Record>>, ghost cols: seq<seq<int>>,
                      ghost marks: seq<bool>)
    returns (ok: bool, ghost after: seq<bool>)
    requires |logs| == |cols| == table.nprocs && Received(original, table.rows, logs)
      && SameButSends(original, table.data[..])
    requires {table, table.data} !! memreg.Footprint() && rank < |logs|
    requires memreg.Is(cols, marks) && |cols[rank]| <= |marks| && mesgq.head == None
    modifies memreg, memreg.removed, mesgq`sendTagSize, mesgq`head
    ensures memreg.removed == old(memreg.removed)
    ensures PopMarks(cols[rank], marks, Addresses(Select(logs[rank], PopRegItem))) == if ok then Some(after) else None
    ensures ok ==> memreg.Is(cols, after)
    ensures ok ==> mesgq.sendTagSize == LastTag(Select(logs[rank], SetTagItem), old(mesgq.sendTagSize))
    ensures ok ==> var at := SendSpots(table.rows, logs, |logs|);
                   mesgq.head == if at == [] then None else Some(at[0])
  {
    assert ReceivedAt(original, table.rows, logs, rank);
    ok, after := ExecutePops(table, memreg, rank, Base(table.rows, rank), original, logs[rank], cols, marks);
    if ok {
      ExecuteSetTags(table, mesgq, Base(table.rows, rank), original, logs[rank]);
      FindHead(table, mesgq, original, logs);
    }
  }

  /** The part of deliveryTable_execute behind the loop over the columns. */
  method ExecuteTail(table: DeliveryTable, memreg: MemoryRegister, mesgq: MessageQueue, ram: Ram, rank: nat,
                     message: Option<nat>,
                     ghost original: seq<Slot>, ghost logs: seq<seq<Record>>, ghost o: Outcome, ghost bound: nat)
    returns (ok: bool, ghost after: seq<bool>)
    requires |logs| == |o.cols| == table.nprocs && Received(original, table.rows, logs)
    requires {table, table.data} !! memreg.Footprint() && memreg.rank == rank < |logs|
    requires After(table, memreg, mesgq, ram, message, original, [], o, bound)
    requires o.at == SendSpots(table.rows, logs, |logs|) && mesgq.head == None
    modifies memreg, memreg.removed, mesgq`sendTagSize, mesgq`head
    ensures memreg.removed == old(memreg.removed)
    ensures PopMarks(o.cols[rank], NoneRemoved(|o.cols[rank]|), Addresses(Select(logs[rank], PopRegItem))) == if ok
      then Some(after) else None
    ensures ok ==> Executed(table, memreg, mesgq, ram, o, after)
    ensures ok ==> mesgq.sendTagSize == LastTag(Select(logs[rank], SetTagItem), old(mesgq.sendTagSize))
  {
    AfterColumns(table, memreg, mesgq, ram, message, original, o, bound);
    ghost var data := table.data[..];
    ok, after := ExecuteLocal(table, memreg, mesgq, rank, original, logs, o.cols, NoneRemoved(|o.cols[rank]|));
    assert table.data[..] == data;
  }

  /** deliveryTable_execute, given the outcomes of its columns. */
  method ExecuteWith(table: DeliveryTable, memreg: MemoryRegister, mesgq: MessageQueue, ram: Ram, rank: nat,
                     ghost original: seq<Slot>, ghost logs: seq<seq<Record>>, ghost os: seq<Outcome>, ghost o: Outcome)
    returns (ok: bool, ghost after: seq<bool>)
    requires |os| == table.nprocs + 1 && forall p: nat | p < table.nprocs :: StepAt(original, table.rows, logs, os, p)
    requires After(table, memreg, mesgq, ram, None, original, [], os[0], Base(table.rows, 0))
    requires |logs| == |o.cols| == table.nprocs && Received(original, table.rows, logs)
    requires {table, table.data} !! memreg.Footprint() && memreg.rank == rank < |logs|
    requires o == os[table.nprocs] && o.at == SendSpots(table.rows, logs, |logs|) && mesgq.head == None
    modifies table.data, ram, mesgq
    modifies memreg, memreg.table, memreg.table.used, memreg.table.data, memreg.removed
    ensures memreg.Grown()
    ensures mesgq.recvTagSize == old(mesgq.recvTagSize)
    ensures PopMarks(o.cols[rank], NoneRemoved(|o.cols[rank]|), Addresses(Select(logs[rank], PopRegItem))) == if ok
      then Some(after) else None
    ensures ok ==> Executed(table, memreg, mesgq, ram, o, after)
    ensures ok ==> mesgq.sendTagSize == LastTag(Select(logs[rank], SetTagItem), old(mesgq.sendTagSize))
  {
    var message := ExecuteColumns(table, memreg, mesgq, ram, original, logs, [], os);
    ok, after := ExecuteTail(table, memreg, mesgq, ram, rank, message, original, logs, o,
      Base(table.rows, table.nprocs));
  }

  /** deliveryTable_execute. What it computes is the Outcome of all columns; then the
    * rows of the local removals are marked, the tag size of the next messages is set and
    * the queue leads to all sends, by sender and then in the order of the calls. */
  method Execute(table: DeliveryTable, memreg: MemoryRegister, mesgq: MessageQueue, ram: Ram, rank: nat,
                 ghost logs: seq<seq<Record>>, ghost cols: seq<seq<int>>)
    returns (ok: bool, ghost after: seq<bool>)
    requires |logs| == |cols| == table.nprocs && Received(table.data[..], table.rows, logs)
    requires {table, table.data} !! memreg.Footprint() && memreg.Is(cols, []) && memreg.rank == rank
    requires mesgq.nMesg == mesgq.accumSize == 0 && mesgq.head == None
    modifies table.data, ram, mesgq
    modifies memreg, memreg.table, memreg.table.used, memreg.table.data, memreg.removed
    ensures memreg.Grown()
    ensures mesgq.recvTagSize == old(mesgq.recvTagSize)
    ensures var o := Outcomes(table.rows, logs, |logs|, old(ram.bytes), cols);
            && PopMarks(o.cols[rank], NoneRemoved(|o.cols[rank]|), Addresses(Select(logs[rank], PopRegItem))) ==
              (if ok then Some(after) else None)
            && (ok ==> Executed(table, memreg, mesgq, ram, o, after))
    ensures ok ==> mesgq.sendTagSize == LastTag(Select(logs[rank], SetTagItem), old(mesgq.sendTagSize))
  {
    ghost var original := table.data[..];
    ghost var os := AllSteps(original, table.rows, logs, ram.bytes, cols);
    BeforeAll(table, memreg, mesgq, ram, [], os[0]);
    ok, after := ExecuteWith(table, memreg, mesgq, ram, rank, original, logs, os, os[|logs|]);
  }
}
