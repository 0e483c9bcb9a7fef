/** The queue of received messages (src/bsp_mesgqueue.h) and the calls that read it:
  * bspx_qsize, bspx_get_tag, bspx_move and bspx_hpmove (src/bspx.c). */
module MessageQueues {
  import opened Columns
  import opened ExpandableTables
  import opened Threads
  import opened Registers

  /** What a receiver sees of a message: tag and payload. */
  datatype Message = Message(tag: seq<byte>, payload: seq<byte>)

  /** bspx_send: the tag is written in front of the payload, in one record. */
  function SendRecord(m: Message): Record {
    Record(Send(|m.payload|), m.tag + m.payload)
  }

  /** Reading a record with the receiver's tag size. */
  function Decode(rec: Record, tagSize: nat): Message
    requires rec.info.Send? && tagSize + rec.info.payloadSize <= |rec.payload|
  {
    Message(rec.payload[..tagSize], rec.payload[tagSize..tagSize + rec.info.payloadSize])
  }

  /** Sender and receiver that agree on the tag size agree on the message. */
  lemma DecodeSend(m: Message)
    ensures Decode(SendRecord(m), |m.tag|) == m
  {
  }

  function Encode(ms: seq<Message>): (r: seq<Record>)
    ensures |r| == |ms| && forall k | 0 <= k < |ms| :: r[k] == SendRecord(ms[k])
  {
    seq(|ms|, k requires 0 <= k < |ms| => SendRecord(ms[k]))
  }

  /** Sum of the sizes of the records: tags and payloads. */
  function Bytes(list: seq<Record>): nat {
    if list == [] then 0 else Bytes(list[..|list| - 1]) + |list[|list| - 1].payload|
  }

  /** The documented meaning of what bspx_qsize reports: the sum of the payload sizes. */
  function Payloads(list: seq<Record>): int {
    if list == [] then 0
    else
      var last := list[|list| - 1];
      Payloads(list[..|list| - 1]) + if last.info.Send? then last.info.payloadSize else 0
  }

  lemma PayloadsStep(list: seq<Record>, n: nat)
    requires n < |list| && list[n].info.Send?
    ensures Payloads(list[..n + 1]) == Payloads(list[..n]) + list[n].info.payloadSize
  {
    assert list[..n + 1][..n] == list[..n];
  }

  /** Messages that were sent with this tag size. */
  ghost predicate Tagged(list: seq<Record>, tagSize: nat) {
    forall k | 0 <= k < |list| :: list[k].info.Send? && tagSize + list[k].info.payloadSize == |list[k].payload|
  }

  /** The sync counts the tags as well: it reports the sum of the payload sizes if and only if tags are
    * empty or there are no messages. What it counts too much is what draining the queue leaves over. */
  lemma {:induction false} TagsAreCounted(list: seq<Record>, tagSize: nat)
    requires Tagged(list, tagSize)
    ensures Bytes(list) == Payloads(list) + tagSize * |list|
    ensures Bytes(list) == Payloads(list) <==> tagSize == 0 || list == []
  {
    if list != [] {
      var n := |list| - 1;
      TagsAreCounted(list[..n], tagSize);
      assert tagSize * |list| == tagSize * n + tagSize;
    }
  }

  /** One message of no payload, with a tag of one byte, is reported as one byte. */
  lemma OneTagCounted()
    ensures Bytes([SendRecord(Message([7], []))]) == 1 && Payloads([SendRecord(Message([7], []))]) == 0
  {
    var rec := SendRecord(Message([7], []));
    assert [rec][..0] == [];
  }

  /** What of the places i to j lies within the bytes. */
  function Excerpt(bytes: seq<byte>, i: nat, j: nat): seq<byte>
    requires i <= j
  {
    if |bytes| <= i then [] else bytes[i..if j < |bytes| then j else |bytes|]
  }

  class MessageQueue {
    var recvTagSize: nat
    var sendTagSize: nat
    var nMesg: nat
    var accumSize: int
    /** Index of the head in the data of the received table; None is null. */
    var head: Option<nat>

    constructor ()
      ensures recvTagSize == sendTagSize == nMesg == accumSize == 0 && head == None
    {
      recvTagSize, sendTagSize, nMesg, accumSize, head := 0, 0, 0, 0, None;
    }

    /** messageQueue_sync */
    method Sync()
      modifies this
      ensures recvTagSize == old(sendTagSize) == sendTagSize
      ensures nMesg == accumSize == 0 && head == None
    {
      recvTagSize := sendTagSize;
      nMesg, accumSize, head := 0, 0, None;
    }

    /** The queue leads to these records, in this order, in the received table. */
    ghost predicate Queued(table: ExpandableTable<Slot>, at: seq<nat>, list: seq<Record>)
      reads this, table, table.data
    {
      && Threaded(table.data[..], at, list) && nMesg == |list|
      && (forall k | 0 <= k < |list| :: list[k].info.Send?)
      && (at != [] ==> head == Some(at[0]))
    }

    /** bspx_qsize: the number of messages, and, on the queue that the sync leaves, the sum of the payload
      * sizes with a tag counted for every message. */
    method QSize(table: ExpandableTable<Slot>, ghost at: seq<nat>, ghost list: seq<Record>, ghost tagSize: nat)
      returns (messages: nat, bytes: int)
      requires Queued(table, at, list)
      ensures messages == |list| && bytes == accumSize
      ensures accumSize == Bytes(list) && Tagged(list, tagSize) ==> bytes == Payloads(list) + tagSize * messages
    {
      if Tagged(list, tagSize) { TagsAreCounted(list, tagSize); }
      messages, bytes := nMesg, accumSize;
    }

    /** bspx_hpmove: -1 on an empty queue, otherwise the payload size; tag and payload are what the two returned
      * pointers lead to, within the record. */
    method HpMove(table: ExpandableTable<Slot>, ghost at: seq<nat>, ghost list: seq<Record>)
      returns (size: int, message: Message)
      requires Queued(table, at, list)
      modifies this
      ensures recvTagSize == old(recvTagSize) && sendTagSize == old(sendTagSize)
      ensures list == [] ==> size == -1 && Queued(table, at, list) && accumSize == old(accumSize)
      ensures list != [] ==> size == list[0].info.payloadSize && Queued(table, at[1..], list[1..])
      ensures list != [] ==> accumSize == old(accumSize) - size
      ensures list != [] && Tagged(list, recvTagSize) ==> message == Decode(list[0], recvTagSize)
    {
      if nMesg == 0 {
        return -1, Message([], []);
      }
      var pos := head.value;
      assert Holds(table.data[..], at[0], list[0]);
      var bytes := Unpack(table.data[..], pos + TAG_SLOTS, table.data[pos].lo);
      size := table.data[pos + 1].info.payloadSize;
      message := Message(Excerpt(bytes, 0, recvTagSize), Excerpt(bytes, recvTagSize, recvTagSize + size));
      head := Some(pos + table.data[pos].hi);
      nMesg := nMesg - 1;
      accumSize := accumSize - size;
    }

    /** bspx_hpmove with the first n messages gone. */
    method HpMoveAt(table: ExpandableTable<Slot>, ghost at: seq<nat>, ghost list: seq<Record>, ghost n: nat)
      returns (size: int, message: Message)
      requires n <= |at| == |list| && Queued(table, at[n..], list[n..]) && Tagged(list, recvTagSize)
      modifies this
      ensures recvTagSize == old(recvTagSize) && sendTagSize == old(sendTagSize)
      ensures n == |list| ==> size == -1 && Queued(table, at[n..], list[n..]) && accumSize == old(accumSize)
      ensures n < |list| ==> size >= 0 && Queued(table, at[n + 1..], list[n + 1..])
      ensures n < |list| ==> message == Decode(list[n], recvTagSize)
      ensures n < |list| ==> accumSize == old(accumSize) + Payloads(list[..n]) - Payloads(list[..n + 1])
    {
      size, message := HpMove(table, at[n..], list[n..]);
      if n < |list| {
        PayloadsStep(list, n);
        assert at[n..][1..] == at[n + 1..] && list[n..][1..] == list[n + 1..];
      }
    }

    /** bspx_hpmove until it returns -1: every message once, in order. */
    method Drain(table: ExpandableTable<Slot>, ghost at: seq<nat>, ghost list: seq<Record>)
      returns (messages: seq<Message>)
      requires Queued(table, at, list) && Tagged(list, recvTagSize)
      modifies this
      ensures |messages| == |list| && forall k | 0 <= k < |list| :: messages[k] == Decode(list[k], old(recvTagSize))
      ensures Queued(table, [], []) && recvTagSize == old(recvTagSize) && sendTagSize == old(sendTagSize)
      ensures accumSize == old(accumSize) - Payloads(list)
    {
      messages := [];
      ghost var n := 0;
      while true
        invariant n <= |list| && Queued(table, at[n..], list[n..])
        invariant recvTagSize == old(recvTagSize) && sendTagSize == old(sendTagSize)
        invariant |messages| == n && forall k | 0 <= k < n :: messages[k] == Decode(list[k], recvTagSize)
        invariant accumSize == old(accumSize) - Payloads(list[..n])
        decreases |list| - n
      {
        var size, m := HpMoveAt(table, at, list, n);
        if size == -1 {
          assert list[..n] == list && list[n..] == [] && at[n..] == [];
          return;
        }
        messages := messages + [m];
        n := n + 1;
      }
    }
  }
}
