/** The calls of a program (src/bspx.c) on a BSPObject, one method for each and one that chooses. */
module BspCalls {
  import opened Memories
  import opened MessageQueues
  import opened Supersteps
  import opened BspObjects
  import opened BspSync

  /** The call is legal in state st and leads to state next. */
  ghost predicate Leads(st: Proc, rank: nat, n: nat, call: Call, next: Proc) {
    Shaped(st, n) && rank < n && Legal(st, rank, n, call) && next == Apply(st, rank, call)
  }

  method Put(obj: BspObject, pid: nat, src: int, dst: int, offset: int, nbytes: nat, ghost st: Proc, ghost next: Proc)
    requires Stands(obj, st) && Leads(st, obj.rank, obj.nprocs, PutCall(pid, src, dst, offset, nbytes), next)
    modifies obj.Repr()
    ensures Stands(obj, next) && Kept(obj)
  {
    assert obj.Is(st);
    obj.Put(pid, src, dst, offset, nbytes, st);
  }

  method Get(obj: BspObject, pid: nat, src: int, offset: int, dst: int, nbytes: nat, ghost st: Proc, ghost next: Proc)
    requires Stands(obj, st) && Leads(st, obj.rank, obj.nprocs, GetCall(pid, src, offset, dst, nbytes), next)
    modifies obj.Repr()
    ensures Stands(obj, next) && Kept(obj)
  {
    assert obj.Is(st);
    obj.Get(pid, src, offset, dst, nbytes, st);
  }

  method Send(obj: BspObject, pid: nat, message: Message, ghost st: Proc, ghost next: Proc)
    requires Stands(obj, st) && Leads(st, obj.rank, obj.nprocs, SendCall(pid, message), next)
    modifies obj.Repr()
    ensures Stands(obj, next) && Kept(obj)
  {
    assert obj.Is(st);
    obj.Send(pid, message, st);
  }

  method PushReg(obj: BspObject, ident: int, ghost st: Proc, ghost next: Proc)
    requires Stands(obj, st) && Leads(st, obj.rank, obj.nprocs, PushRegCall(ident), next)
    modifies obj.Repr()
    ensures Stands(obj, next) && Kept(obj)
  {
    assert obj.Is(st);
    obj.PushReg(ident, st);
  }

  method PopReg(obj: BspObject, ident: int, ghost st: Proc, ghost next: Proc)
    requires Stands(obj, st) && Leads(st, obj.rank, obj.nprocs, PopRegCall(ident), next)
    modifies obj.Repr()
    ensures Stands(obj, next) && Kept(obj)
  {
    assert obj.Is(st);
    obj.PopReg(ident, st);
  }

  method SetTagSize(obj: BspObject, size: nat, ghost st: Proc, ghost next: Proc)
    requires Stands(obj, st) && Leads(st, obj.rank, obj.nprocs, SetTagSizeCall(size), next)
    modifies obj.Repr()
    ensures Stands(obj, next) && Kept(obj)
  {
    assert obj.Is(st);
    var current := obj.SetTagSize(size, st);
  }

  method HpMove(obj: BspObject, ghost st: Proc, ghost next: Proc) returns (size: int, message: Message)
    requires Stands(obj, st) && Leads(st, obj.rank, obj.nprocs, HpMoveCall, next)
    modifies obj.Repr()
    ensures Stands(obj, next) && Kept(obj)
    ensures if st.queue == [] then size == -1 else st.queue[0].info.Send? && size == st.queue[0].info.payloadSize
    ensures st.queue != [] && Tagged(st.queue, st.recvTag) ==> message == Decode(st.queue[0], st.recvTag)
  {
    assert obj.Is(st);
    size, message := obj.HpMove(st);
  }

  method QSize(obj: BspObject, ghost st: Proc) returns (messages: nat, bytes: int)
    requires Stands(obj, st)
    ensures messages == |st.queue| && bytes == st.queued
  {
    assert obj.Is(st);
    messages, bytes := obj.QSize(st);
  }

  method Drain(obj: BspObject, ghost st: Proc) returns (messages: seq<Message>)
    requires Stands(obj, st) && Tagged(st.queue, st.recvTag)
    modifies obj.Repr()
    ensures Stands(obj, st.(queue := [], queued := st.queued - Payloads(st.queue))) && Kept(obj)
    ensures |messages| == |st.queue| && forall k | 0 <= k < |messages| :: messages[k] == Decode(st.queue[k], st.recvTag)
  {
    assert obj.Is(st);
    messages := obj.Drain(st);
  }

  method Compute(obj: BspObject, result: Memory, ghost st: Proc, ghost next: Proc)
    requires Stands(obj, st) && Leads(st, obj.rank, obj.nprocs, ComputeCall(result), next)
    modifies obj.Repr()
    ensures Stands(obj, next) && Kept(obj)
  {
    assert obj.Is(st);
    obj.Compute(result, st);
  }

  method Do(obj: BspObject, call: Call, ghost st: Proc, ghost next: Proc)
    requires Stands(obj, st) && Leads(st, obj.rank, obj.nprocs, call, next)
    modifies obj.Repr()
    ensures Stands(obj, next) && Kept(obj)
  {
    match call
    case PutCall(pid, src, dst, offset, nbytes) => Put(obj, pid, src, dst, offset, nbytes, st, next);
    case GetCall(pid, src, offset, dst, nbytes) => Get(obj, pid, src, offset, dst, nbytes, st, next);
    case SendCall(pid, message) => Send(obj, pid, message, st, next);
    case PushRegCall(ident) => PushReg(obj, ident, st, next);
    case PopRegCall(ident) => PopReg(obj, ident, st, next);
    case SetTagSizeCall(size) => SetTagSize(obj, size, st, next);
    case HpMoveCall => var size, message := HpMove(obj, st, next);
    case ComputeCall(result) => Compute(obj, result, st, next);
  }
}
