/** One column of a delivery table: an index of eighteen counters in nine slots,
  * followed by variable-length records that are threaded into six linked lists
  * by offsets relative to the record itself (src/bsp_delivtable.h).
  *
  * A slot is one ALIGNED_TYPE of eight bytes. It is modelled as a cell that says
  * how its eight bytes are used: two 32-bit words, the union of a record header,
  * or up to eight payload bytes.
  */
module Columns {

  newtype byte = x: int | 0 <= x < 256

  const SLOT_SIZE: nat := 8

  /** no_slots(bytes, 8): the slots needed for a number of bytes. */
  function NoSlots(bytes: nat): nat {
    (bytes + SLOT_SIZE - 1) / SLOT_SIZE
  }

  /** Slots of the index: no_slots(3 * 6 * sizeof(unsigned int), 8). */
  const INDEX_SLOTS: nat := 9

  /** sizeof(DelivElement): size, next and the union of a pointer. */
  const ELEMENT_BYTES: nat := 16

  /** Slots of a record header: no_slots(ELEMENT_BYTES, 8). */
  const TAG_SLOTS: nat := 2

  datatype ItemType = PopRegItem | PushRegItem | PutItem | GetItem | SendItem | SetTagItem
  {
    function Ord(): (u: nat)
      ensures u < 6
    {
      match this
      case PopRegItem => 0
      case PushRegItem => 1
      case PutItem => 2
      case GetItem => 3
      case SendItem => 4
      case SetTagItem => 5
    }
  }

  /** The union _DInfo. The C union is untagged: which member is meant follows
    * from the list a record is in. Here the constructor says it. */
  datatype Info =
    | Put(dst: int)
    | Send(payloadSize: nat)
    | PushReg(pushed: int)
    | PopReg(popped: int)
    | SetTag(tagSize: nat)
  {
    function Kind(): ItemType {
      match this
      case Put(_) => PutItem
      case Send(_) => SendItem
      case PushReg(_) => PushRegItem
      case PopReg(_) => PopRegItem
      case SetTag(_) => SetTagItem
    }
  }

  datatype Slot =
    | Word(lo: nat, hi: nat)
    | Union(info: Info)
    | Data(bytes: seq<byte>)

  /** What one push adds to a column: the list it goes to, and its bytes. */
  datatype Record = Record(info: Info, payload: seq<byte>)
  {
    function Slots(): (n: nat)
      ensures n >= TAG_SLOTS
    {
      TAG_SLOTS + NoSlots(|payload|)
    }
  }

  // ----- bytes in slots -----

  /** memcpy of a byte string into consecutive slots. */
  function Pack(bytes: seq<byte>): (slots: seq<Slot>)
    ensures |slots| == NoSlots(|bytes|)
  {
    if |bytes| == 0 then []
    else if |bytes| <= SLOT_SIZE then [Data(bytes)]
    else [Data(bytes[..SLOT_SIZE])] + Pack(bytes[SLOT_SIZE..])
  }

  /** memcpy of `size` bytes out of the slots from `pos` on. */
  function Unpack(slots: seq<Slot>, pos: nat, size: nat): seq<byte>
    decreases size
  {
    if size == 0 || pos >= |slots| || !slots[pos].Data? then []
    else if size <= SLOT_SIZE then slots[pos].bytes
    else slots[pos].bytes + Unpack(slots, pos + 1, size - SLOT_SIZE)
  }

  lemma {:induction false} UnpackPack(before: seq<Slot>, bytes: seq<byte>, after: seq<Slot>)
    ensures Unpack(before + Pack(bytes) + after, |before|, |bytes|) == bytes
    decreases |bytes|
  {
    var all := before + Pack(bytes) + after;
    if |bytes| > SLOT_SIZE {
      var first, rest := Data(bytes[..SLOT_SIZE]), bytes[SLOT_SIZE..];
      assert all == (before + [first]) + Pack(rest) + after;
      UnpackPack(before + [first], rest, after);
      assert bytes == bytes[..SLOT_SIZE] + rest;
    } else if |bytes| > 0 {
      assert all[|before|] == Data(bytes);
    }
  }

  /** Unpack reads only the slots it is told to read. */
  lemma {:induction false} UnpackFrame(a: seq<Slot>, i: nat, b: seq<Slot>, j: nat, size: nat)
    requires i + NoSlots(size) <= |a| && j + NoSlots(size) <= |b|
    requires a[i..i + NoSlots(size)] == b[j..j + NoSlots(size)]
    ensures Unpack(a, i, size) == Unpack(b, j, size)
    decreases size
  {
    if size > 0 {
      var n := NoSlots(size);
      assert a[i] == a[i..i + n][0] == b[j..j + n][0] == b[j];
      if size > SLOT_SIZE {
        assert NoSlots(size - SLOT_SIZE) == n - 1;
        assert a[i + 1..i + n] == a[i..i + n][1..];
        assert b[j + 1..j + n] == b[j..j + n][1..];
        UnpackFrame(a, i + 1, b, j + 1, size - SLOT_SIZE);
      }
    }
  }

  // ----- the index at the top of a column -----

  /** The column's first nine slots can be read as eighteen words. */
  predicate HasIndex(col: seq<Slot>) {
    |col| >= INDEX_SLOTS && forall k | 0 <= k < INDEX_SLOTS :: col[k].Word?
  }

  function IndexWord(col: seq<Slot>, u: nat): nat
    requires HasIndex(col) && u < 18
  {
    if u % 2 == 0 then col[u / 2].lo else col[u / 2].hi
  }

  function SetIndexWord(col: seq<Slot>, u: nat, v: nat): (r: seq<Slot>)
    requires HasIndex(col) && u < 18
    ensures HasIndex(r) && |r| == |col|
    ensures forall k | INDEX_SLOTS <= k < |col| :: r[k] == col[k]
    ensures forall w: nat | w < 18 :: IndexWord(r, w) == if w == u then v else IndexWord(col, w)
  {
    var s := col[u / 2];
    var r := col[u / 2 := if u % 2 == 0 then s.(lo := v) else s.(hi := v)];
    assert forall w: nat | w < 18 :: w != u ==> w / 2 != u / 2 || w % 2 != u % 2;
    r
  }

  /** The arrays `start`, `count` and `end` of DelivInfo begin at words 0, 6, 12. */
  function Start(col: seq<Slot>, t: ItemType): nat
    requires HasIndex(col)
  {
    IndexWord(col, t.Ord())
  }

  function Count(col: seq<Slot>, t: ItemType): nat
    requires HasIndex(col)
  {
    IndexWord(col, 6 + t.Ord())
  }

  function End(col: seq<Slot>, t: ItemType): nat
    requires HasIndex(col)
  {
    IndexWord(col, 12 + t.Ord())
  }

  // ----- what a well-formed column stands for -----

  /** The used slots of a column holding these records. */
  function Size(recs: seq<Record>): (n: nat)
    ensures n >= INDEX_SLOTS
  {
    if recs == [] then INDEX_SLOTS
    else Size(recs[..|recs| - 1]) + recs[|recs| - 1].Slots()
  }

  /** The records of one type, in push order. */
  function Select(recs: seq<Record>, t: ItemType): (r: seq<Record>)
    ensures forall k | 0 <= k < |r| :: r[k].info.Kind() == t
  {
    if recs == [] then []
    else
      var n := |recs| - 1;
      Select(recs[..n], t) + if recs[n].info.Kind() == t then [recs[n]] else []
  }

  /** Where the records of one type begin, when all records are laid end to end. */
  function Places(recs: seq<Record>, t: ItemType): (at: seq<nat>)
    ensures |at| == |Select(recs, t)|
    ensures forall k | 0 <= k < |at| :: INDEX_SLOTS <= at[k] < Size(recs)
    ensures forall k, l | 0 <= k < l < |at| :: at[k] < at[l]
  {
    if recs == [] then []
    else
      var n := |recs| - 1;
      Places(recs[..n], t) + if recs[n].info.Kind() == t then [Size(recs[..n])] else []
  }

  /** The slots from `pos` on hold this record, whatever its `next` is. */
  predicate Holds(col: seq<Slot>, pos: nat, rec: Record) {
    && pos + rec.Slots() <= |col|
    && col[pos].Word? && col[pos].lo == |rec.payload|
    && col[pos + 1] == Union(rec.info)
    && Unpack(col, pos + TAG_SLOTS, |rec.payload|) == rec.payload
  }

  /** The field `next` of the record at `pos`. */
  function Next(col: seq<Slot>, pos: nat): nat {
    if pos < |col| && col[pos].Word? then col[pos].hi else 0
  }

  /** A list of the column: its entries in the index, its records, and its links.
    * The `next` of the last record is whatever was on the caller's stack. */
  ghost predicate ListOk(col: seq<Slot>, t: ItemType, at: seq<nat>, list: seq<Record>)
  {
    && HasIndex(col) && |at| == |list| == Count(col, t)
    && (|at| > 0 ==> Start(col, t) == at[0] && End(col, t) == at[|at| - 1])
    && (forall k | 0 <= k < |at| :: INDEX_SLOTS <= at[k] && Holds(col, at[k], list[k]))
    && (forall k | 0 <= k < |at| - 1 :: at[k] + Next(col, at[k]) == at[k + 1])
  }

  /** The representation invariant of a column: the index, then the records end to
    * end, and every list correctly threaded. */
  ghost predicate ColumnOk(col: seq<Slot>, recs: seq<Record>) {
    && HasIndex(col) && |col| == Size(recs)
    && forall t: ItemType :: ListOk(col, t, Places(recs, t), Select(recs, t))
  }

  lemma Append(recs: seq<Record>, rec: Record, t: ItemType)
    ensures Size(recs + [rec]) == Size(recs) + rec.Slots()
    ensures Select(recs + [rec], t) == Select(recs, t) + if rec.info.Kind() == t then [rec] else []
    ensures Places(recs + [rec], t) == Places(recs, t) + if rec.info.Kind() == t then [Size(recs)] else []
  {
    assert (recs + [rec])[..|recs|] == recs;
  }

  // ----- deliveryTable_push on one column -----

  /** The record's slots as they are written at the end of the column. */
  function Image(rec: Record, next: nat): (slots: seq<Slot>)
    ensures |slots| == rec.Slots()
  {
    [Word(|rec.payload|, next), Union(rec.info)] + Pack(rec.payload)
  }

  /** The last record of the list, if there is one, is in the column. */
  predicate Linkable(col: seq<Slot>, t: ItemType) {
    && HasIndex(col)
    && (Count(col, t) > 0 ==> INDEX_SLOTS <= End(col, t) < |col| && col[End(col, t)].Word?)
  }

  /** Lines 238-248 of src/bsp_delivtable.h: link the new record into its list. */
  function Link(col: seq<Slot>, t: ItemType): (r: seq<Slot>)
    requires Linkable(col, t)
    ensures HasIndex(r) && |r| == |col|
  {
    var used := |col|;
    var c := if Count(col, t) == 0 then SetIndexWord(col, t.Ord(), used)
             else
               var e := End(col, t);
               col[e := col[e].(hi := used - e)];
    SetIndexWord(SetIndexWord(c, 12 + t.Ord(), used), 6 + t.Ord(), Count(col, t) + 1)
  }

  lemma ListEnd(col: seq<Slot>, recs: seq<Record>, t: ItemType)
    requires ColumnOk(col, recs)
    ensures Linkable(col, t)
  {
    var at := Places(recs, t);
    assert ListOk(col, t, at, Select(recs, t));
    if |at| > 0 {
      assert Holds(col, at[|at| - 1], Select(recs, t)[|at| - 1]);
    }
  }

  /** A column whose slots are those of `col` up to the link field of headers. */
  ghost predicate SameRecords(col: seq<Slot>, r: seq<Slot>)
  {
    && |col| == |r|
    && forall k | INDEX_SLOTS <= k < |col| ::
         r[k] == col[k] || (r[k].Word? && col[k].Word? && r[k].lo == col[k].lo)
  }

  lemma {:induction false} UnpackSame(col: seq<Slot>, r: seq<Slot>, pos: nat, size: nat)
    requires SameRecords(col, r) && pos >= INDEX_SLOTS
    ensures Unpack(r, pos, size) == Unpack(col, pos, size)
    decreases size
  {
    if pos < |col| && size > SLOT_SIZE {
      UnpackSame(col, r, pos + 1, size - SLOT_SIZE);
    }
  }

  lemma HoldsSame(col: seq<Slot>, r: seq<Slot>, pos: nat, rec: Record)
    requires SameRecords(col, r) && Holds(col, pos, rec) && pos >= INDEX_SLOTS
    ensures Holds(r, pos, rec)
  {
    UnpackSame(col, r, pos + TAG_SLOTS, |rec.payload|);
  }

  lemma HoldsExtend(col: seq<Slot>, more: seq<Slot>, pos: nat, rec: Record)
    requires Holds(col, pos, rec)
    ensures Holds(col + more, pos, rec)
  {
    var r, n := col + more, NoSlots(|rec.payload|);
    assert r[pos + 2..pos + 2 + n] == col[pos + 2..pos + 2 + n];
    UnpackFrame(r, pos + 2, col, pos + 2, |rec.payload|);
  }

  lemma HoldsImage(col: seq<Slot>, rec: Record, next: nat)
    ensures Holds(col + Image(rec, next), |col|, rec)
  {
    var head := [Word(|rec.payload|, next), Union(rec.info)];
    assert col + Image(rec, next) == (col + head) + Pack(rec.payload) + [];
    UnpackPack(col + head, rec.payload, []);
  }
}
