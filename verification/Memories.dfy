/** The byte-addressed memory of one processor. Reading an address that was never
  * written gives 0, where the C program's behaviour is undefined. */
module Memories {
  import opened Columns

  type Memory = map<int, byte>

  /** memcpy into memory. */
  function WriteBytes(m: Memory, a: int, bytes: seq<byte>): (r: Memory)
    ensures forall k :: k in r <==> k in m || a <= k < a + |bytes|
    ensures forall k | k in r :: r[k] == if a <= k < a + |bytes| then bytes[k - a] else m[k]
  {
    if bytes == [] then m
    else
      var last := |bytes| - 1;
      WriteBytes(m, a, bytes[..last])[a + last := bytes[last]]
  }

  /** memcpy out of memory. */
  function ReadBytes(m: Memory, a: int, n: nat): (bytes: seq<byte>)
    ensures |bytes| == n
  {
    seq(n, i => if a + i in m then m[a + i] else 0)
  }

  function Put(m: Memory, rec: Record): Memory
  {
    if rec.info.Put? then WriteBytes(m, rec.info.dst, rec.payload) else m
  }

  /** The puts of a list, executed from left to right. */
  function PutAll(m: Memory, puts: seq<Record>): Memory
  {
    if puts == [] then m
    else Put(PutAll(m, puts[..|puts| - 1]), puts[|puts| - 1])
  }

  lemma {:induction false} PutAllConcat(m: Memory, a: seq<Record>, b: seq<Record>)
    ensures PutAll(m, a + b) == PutAll(PutAll(m, a), b)
  {
    if b == [] {
      assert a + b == a;
    } else {
      var last := |b| - 1;
      PutAllConcat(m, a, b[..last]);
      assert (a + b)[..|a| + last] == a + b[..last];
    }
  }

  class Ram {
    var bytes: Memory
    constructor () ensures bytes == map[] { bytes := map[]; }
  }
}
