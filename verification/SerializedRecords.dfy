/** The layout of a serialized dataset (src/bsp_cpp/SerializedDataset.h): a table of offsets, then one record
  * per element, with its name and its data. Words are cells: numbers, or up to eight bytes copied together. */
module SerializedRecords {

  import opened Threads

  type Byte = b: nat | b < 256

  datatype Word = Number(value: nat) | Bytes(bytes: seq<Byte>)

  /** A named element. */
  datatype Elem = Elem(name: seq<Byte>, data: seq<Byte>)

  /** The words that n bytes take. */
  function WordsFor(n: nat): nat { (n + 7) / 8 }

  /** The words that memcpy of these bytes fills; what the last one holds beyond them is not represented. */
  function Chunks(s: seq<Byte>): (ws: seq<Word>)
    ensures |ws| == WordsFor(|s|)
  {
    seq(WordsFor(|s|), k requires 0 <= k < WordsFor(|s|) => Bytes(s[8 * k..if 8 * k + 8 < |s| then 8 * k + 8 else |s|]))
  }

  /** The bytes in the first n words. */
  function Joined(ws: seq<Word>, n: nat): seq<Byte>
    requires n <= |ws|
  {
    if n == 0 then [] else Joined(ws, n - 1) + if ws[n - 1].Bytes? then ws[n - 1].bytes else []
  }

  lemma {:induction false} JoinedPrefix(s: seq<Byte>, n: nat)
    requires n <= WordsFor(|s|)
    ensures Joined(Chunks(s), n) == s[..if 8 * n < |s| then 8 * n else |s|]
  {
    if n > 0 {
      JoinedPrefix(s, n - 1);
      assert s[..8 * (n - 1)] + s[8 * (n - 1)..if 8 * n < |s| then 8 * n else |s|] ==
        s[..if 8 * n < |s| then 8 * n else |s|];
    }
  }

  /** Reading back what was copied. */
  lemma JoinedChunks(s: seq<Byte>)
    ensures Joined(Chunks(s), WordsFor(|s|)) == s
  {
    JoinedPrefix(s, WordsFor(|s|));
    assert s[..|s|] == s;
  }

  /** What add_elem writes. */
  function RecordOf(e: Elem): (ws: seq<Word>)
    ensures |ws| == 2 + WordsFor(|e.name|) + WordsFor(|e.data|)
  {
    [Number(|e.name|)] + Chunks(e.name) + [Number(|e.data|)] + Chunks(e.data)
  }

  /** How far add_elem moves on: at least the words of the record. */
  function Stride(e: Elem): (n: nat)
    ensures |RecordOf(e)| <= n
  {
    (|e.data| + 16 + |e.name| + 31) / 8
  }

  /** Where record k begins; the table and two spare words come first. */
  function Position(elems: seq<Elem>, nelem: nat, k: nat): (p: nat)
    requires k <= |elems|
    ensures p >= 2 + nelem
  {
    if k == 0 then 2 + nelem else Position(elems, nelem, k - 1) + Stride(elems[k - 1])
  }

  lemma {:induction false} PositionsGrow(elems: seq<Elem>, nelem: nat, j: nat, k: nat)
    requires j < k <= |elems|
    ensures Position(elems, nelem, j) + Stride(elems[j]) <= Position(elems, nelem, k)
  {
    if j < k - 1 { PositionsGrow(elems, nelem, j, k - 1); }
  }

  /** The position of a record depends only on the elements before it. */
  lemma {:induction false} PositionsStay(elems: seq<Elem>, e: Elem, nelem: nat, k: nat)
    requires k <= |elems|
    ensures Position(elems + [e], nelem, k) == Position(elems, nelem, k)
  {
    if k > 0 { PositionsStay(elems, e, nelem, k - 1); }
  }

  /** The words from `at` on are this record. */
  predicate RecordAt(d: seq<Word>, at: nat, e: Elem) {
    at + |RecordOf(e)| <= |d| && d[at..at + |RecordOf(e)|] == RecordOf(e)
  }

  /** Entry k of the table leads to record k. */
  predicate EntryAt(d: seq<Word>, nelem: nat, elems: seq<Elem>, k: nat)
    requires k < |elems|
  {
    && k < |d| && d[k] == Number(Position(elems, nelem, k))
    && RecordAt(d, Position(elems, nelem, k), elems[k])
  }

  /** The dataset holds these elements; the unused entries are zero. */
  ghost predicate Holds(d: seq<Word>, nelem: nat, elems: seq<Elem>) {
    && |elems| <= nelem && Position(elems, nelem, |elems|) <= |d|
    && (forall k: nat :: k < |elems| ==> EntryAt(d, nelem, elems, k))
    && (forall k: nat :: |elems| <= k <= nelem ==> d[k] == Number(0))
  }

  /** Records do not overlap: writing behind the last one, and the next entry, adds an element and changes no other. */
  lemma HoldsOneMore(d: seq<Word>, d': seq<Word>, nelem: nat, elems: seq<Elem>, e: Elem)
    requires Holds(d, nelem, elems) && |elems| < nelem
    requires var p := Position(elems, nelem, |elems|);
      && p + Stride(e) <= |d'| && RecordAt(d', p, e) && d'[|elems|] == Number(p)
      && (forall i :: 0 <= i < p && i != |elems| ==> d'[i] == d[i])
    ensures Holds(d', nelem, elems + [e])
  {
    var elems' := elems + [e];
    forall k: nat | k < |elems'| ensures EntryAt(d', nelem, elems', k) {
      PositionsStay(elems, e, nelem, k);
      if k < |elems| {
        assert EntryAt(d, nelem, elems, k);
        PositionsGrow(elems, nelem, k, |elems|);
        var at, n := Position(elems, nelem, k), |RecordOf(elems[k])|;
        assert d'[at..at + n] == d[at..at + n];
      }
    }
    PositionsStay(elems, e, nelem, |elems|);
  }

  // ----- on the wire -----

  /** What the master sends: the first entry makes way for the number of elements, and the second spare word
    * is how many there are. */
  function Displaced(d: seq<Word>, nelem: nat, current: nat): seq<Word>
    requires nelem + 1 < |d|
  {
    d[nelem := d[0]][0 := Number(nelem)][nelem + 1 := Number(current)]
  }

  /** What a receiver makes of it. */
  function Restored(d: seq<Word>, nelem: nat): seq<Word>
    requires nelem + 1 < |d|
  {
    d[0 := d[nelem]][nelem := Number(0)]
  }

  /** The displaced entry returns to its place; only the second spare word differs. */
  lemma DisplacedRestored(d: seq<Word>, nelem: nat, elems: seq<Elem>)
    requires Holds(d, nelem, elems)
    ensures Displaced(d, nelem, |elems|)[0] == Number(nelem)
    ensures Displaced(d, nelem, |elems|)[nelem + 1] == Number(|elems|)
    ensures Restored(Displaced(d, nelem, |elems|), nelem) == d[nelem + 1 := Number(|elems|)]
  {
  }

  /** The elements only depend on what is in front of the end of the last record, less the second spare word. */
  lemma HoldsSame(d: seq<Word>, d': seq<Word>, nelem: nat, elems: seq<Elem>)
    requires Holds(d, nelem, elems) && Position(elems, nelem, |elems|) <= |d'|
    requires forall i :: 0 <= i < Position(elems, nelem, |elems|) && i != nelem + 1 ==> d'[i] == d[i]
    ensures Holds(d', nelem, elems)
  {
    forall k: nat | k < |elems| ensures EntryAt(d', nelem, elems, k) {
      assert EntryAt(d, nelem, elems, k);
      PositionsGrow(elems, nelem, k, |elems|);
      var at, n := Position(elems, nelem, k), |RecordOf(elems[k])|;
      assert d'[at..at + n] == d[at..at + n];
    }
  }

  /** What the reader finds at a record. */
  lemma FieldsOf(d: seq<Word>, at: nat, e: Elem)
    requires RecordAt(d, at, e)
    ensures var w := WordsFor(|e.name|);
      && d[at] == Number(|e.name|) && d[at + 1..at + 1 + w] == Chunks(e.name)
      && d[at + 1 + w] == Number(|e.data|) && d[at + 2 + w..at + 2 + w + WordsFor(|e.data|)] == Chunks(e.data)
  {
    var r, w := RecordOf(e), WordsFor(|e.name|);
    SliceOfSlice(d, at, |r|, 1, 1 + w);
    SliceOfSlice(d, at, |r|, 2 + w, |r|);
    assert r[1..1 + w] == Chunks(e.name) && r[2 + w..|r|] == Chunks(e.data);
    assert d[at..at + |r|][0] == d[at] && d[at..at + |r|][1 + w] == d[at + 1 + w];
  }
}
