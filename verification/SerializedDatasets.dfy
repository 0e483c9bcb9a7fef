/** SerializedDataset (src/bsp_cpp/SerializedDataset.h): the writer, the broadcast and the reader. */
module SerializedDatasets {
  import opened Avectors
  import opened SerializedRecords
  import opened Threads

  /** memcpy of whole words. */
  method StoreWords(d: array<Word>, at: nat, ws: seq<Word>)
    requires at + |ws| <= d.Length
    modifies d
    ensures forall i :: 0 <= i < d.Length ==> d[i] == if at <= i < at + |ws| then ws[i - at] else old(d[i])
  {
    for k := 0 to |ws|
      invariant forall i :: 0 <= i < d.Length ==> d[i] == if at <= i < at + k then ws[i - at] else old(d[i])
    {
      d[at + k] := ws[k];
    }
  }

  /** The four parts of a record, written one behind the other. */
  method StoreRecord(d: array<Word>, at: nat, e: Elem)
    requires at + |RecordOf(e)| <= d.Length
    modifies d
    ensures RecordAt(d[..], at, e)
    ensures forall i :: 0 <= i < d.Length && !(at <= i < at + |RecordOf(e)|) ==> d[i] == old(d[i])
  {
    var p := at;
    d[p] := Number(|e.name|);
    p := p + 1;
    StoreWords(d, p, Chunks(e.name));
    p := p + (|e.name| + 7) / 8;
    d[p] := Number(|e.data|);
    p := p + 1;
    StoreWords(d, p, Chunks(e.data));
    assert d[..][at..at + |RecordOf(e)|] == RecordOf(e);
  }

  /** A length, and that many bytes behind it. */
  method ReadString(d: array<Word>, at: nat, ghost entries: seq<Word>, ghost s: seq<Byte>) returns (r: seq<Byte>)
    requires |entries| <= d.Length && d[..|entries|] == entries && at + 1 + WordsFor(|s|) <= |entries|
    requires entries[at] == Number(|s|) && entries[at + 1..at + 1 + WordsFor(|s|)] == Chunks(s)
    ensures r == s
  {
    var len := d[at].value;
    var words := d[at + 1..at + 1 + (len + 7) / 8];
    SliceOfSlice(d[..], 0, |entries|, at + 1, at + 1 + WordsFor(|s|));
    assert words == Chunks(s);
    JoinedChunks(s);
    r := Joined(words, |words|);
  }

  /** The name in a record. */
  method ReadName(d: array<Word>, at: nat, ghost entries: seq<Word>, ghost e: Elem) returns (name: seq<Byte>)
    requires |entries| <= d.Length && d[..|entries|] == entries && RecordAt(entries, at, e)
    ensures name == e.name
  {
    FieldsOf(entries, at, e);
    name := ReadString(d, at, entries, e.name);
  }

  /** The data in a record: behind the name. */
  method ReadData(d: array<Word>, at: nat, ghost entries: seq<Word>, ghost e: Elem) returns (payload: seq<Byte>)
    requires |entries| <= d.Length && d[..|entries|] == entries && RecordAt(entries, at, e)
    ensures payload == e.data
  {
    FieldsOf(entries, at, e);
    var start := at;
    var idlen := d[start].value;
    start := start + 1;
    start := start + (idlen + 7) / 8;
    payload := ReadString(d, start, entries, e.data);
  }

  class SerializedDataset {
    const data: AVector<Word>
    var dataPos: nat
    var nelem: nat
    var currentEl: nat

    /** These elements have been added. */
    ghost predicate Stores(elems: seq<Elem>)
      reads this, data, data.data
    {
      && data.Valid() && data.mine && Holds(data.Entries(), nelem, elems)
      && currentEl == |elems| && dataPos == Position(elems, nelem, |elems|)
    }

    /** k of these elements have been read. */
    ghost predicate Reads(elems: seq<Elem>, k: nat)
      reads this, data, data.data
    {
      && data.Valid() && Holds(data.Entries(), nelem, elems)
      && k <= |elems| && currentEl == k && dataPos == if k < |elems| then Position(elems, nelem, k) else 0
    }

    constructor (nelem: nat)
      ensures Stores([]) && this.nelem == nelem && fresh(data) && fresh(data.data)
    {
      currentEl, this.nelem, dataPos := 0, nelem, 2 + nelem;
      data := new AVector<Word>(2 + nelem);
      new;
      data.Resize(2 + nelem, 1);
      for i := 0 to nelem + 2
        invariant data.Valid() && data.size == nelem + 2 && fresh(data.data)
        invariant data.mine && currentEl == 0 && this.nelem == nelem && dataPos == 2 + nelem
        invariant forall k :: 0 <= k < i ==> data.data[k] == Number(0)
      {
        data.data[i] := Number(0);
      }
    }

    /** Room for the record that ends at `next`, and one word more. */
    method MakeRoom(next: nat, ghost elems: seq<Elem>)
      requires Stores(elems)
      modifies data
      ensures Stores(elems) && next < data.size
      ensures data.data == old(data.data) || fresh(data.data)
      ensures unchanged(old(data.data))
    {
      ghost var d := data.Entries();
      if next >= data.size {
        data.Resize(next + 1, 1);
      }
      HoldsSame(d, data.Entries(), nelem, elems);
    }

    /** add_elem, for the number of elements the dataset was made for */
    method AddElem(name: seq<Byte>, payload: seq<Byte>, ghost elems: seq<Elem>)
      requires Stores(elems) && |elems| < nelem
      modifies this, data, data.data
      ensures Stores(elems + [Elem(name, payload)]) && nelem == old(nelem)
      ensures data.data == old(data.data) || fresh(data.data)
    {
      var e := Elem(name, payload);
      var total := |payload| + 16 + |name|;
      var next := dataPos + (total + 31) / 8;
      MakeRoom(next, elems);
      Write(e, elems);
      currentEl := currentEl + 1;
      dataPos := next;
      PositionsStay(elems, e, nelem, |elems|);
    }

    /** The record and its entry in the table. */
    method Write(e: Elem, ghost elems: seq<Elem>)
      requires Stores(elems) && |elems| < nelem && dataPos + Stride(e) <= data.size
      modifies data.data
      ensures data.Valid() && Holds(data.Entries(), nelem, elems + [e])
    {
      ghost var d := data.Entries();
      StoreRecord(data.data, dataPos, e);
      data.data[currentEl] := Number(dataPos);
      Added(d, elems, e);
    }

    /** What add_elem has written is one element more. */
    lemma Added(d: seq<Word>, elems: seq<Elem>, e: Elem)
      requires Holds(d, nelem, elems) && |elems| < nelem && data.Valid() && currentEl == |elems|
      requires dataPos == Position(elems, nelem, |elems|) && dataPos + Stride(e) <= |d| == data.size
      requires data.data[currentEl] == Number(dataPos)
      requires forall i :: 0 <= i < dataPos && i != |elems| ==> data.data[i] == d[i]
      requires RecordAt(data.Entries(), dataPos, e)
      ensures Holds(data.Entries(), nelem, elems + [e])
    {
      HoldsOneMore(d, data.Entries(), nelem, elems, e);
    }

    /** restart */
    method Restart(ghost elems: seq<Elem>)
      requires data.Valid() && Holds(data.Entries(), nelem, elems)
      modifies this
      ensures Reads(elems, 0) && nelem == old(nelem)
    {
      currentEl := 0;
      assert |elems| > 0 ==> EntryAt(data.Entries(), nelem, elems, 0);
      dataPos := data.data[0].value;
    }

    /** next_name */
    method NextName(ghost elems: seq<Elem>, ghost k: nat) returns (name: seq<Byte>)
      requires Reads(elems, k) && k < |elems|
      ensures name == elems[k].name
    {
      assert EntryAt(data.Entries(), nelem, elems, k);
      name := ReadName(data.data, dataPos, data.Entries(), elems[k]);
    }

    /** get_elem */
    method GetElem(ghost elems: seq<Elem>, ghost k: nat) returns (payload: seq<Byte>)
      requires Reads(elems, k) && k < |elems|
      modifies this
      ensures payload == elems[k].data && Reads(elems, k + 1) && nelem == old(nelem)
    {
      payload := CurrentData(elems, k);
      currentEl := currentEl + 1;
      assert k + 1 < |elems| ==> EntryAt(data.Entries(), nelem, elems, k + 1);
      dataPos := data.data[currentEl].value;
    }

    method CurrentData(ghost elems: seq<Elem>, ghost k: nat) returns (payload: seq<Byte>)
      requires Reads(elems, k) && k < |elems|
      ensures payload == elems[k].data
    {
      assert EntryAt(data.Entries(), nelem, elems, k);
      payload := ReadData(data.data, data.data[currentEl].value, data.Entries(), elems[k]);
    }

    // ----- broadcast -----

    /** The master makes the first entry tell the number of elements. */
    method Displace(ghost elems: seq<Elem>)
      requires Stores(elems)
      modifies data.data
      ensures data.Valid() && data.Entries() == Displaced(old(data.Entries()), nelem, |elems|)
    {
      data.data[nelem] := data.data[0];
      data.data[0] := Number(nelem);
      data.data[nelem + 1] := Number(currentEl);
    }

    /** The words that the master sends: the elements, displaced, and one word behind them. */
    method Wire(ghost elems: seq<Elem>) returns (words: seq<Word>)
      requires Stores(elems)
      modifies data, data.data
      ensures OnWire(words, nelem, elems) && |words| == dataPos + 1 && data.Valid()
      ensures data.data == old(data.data) || fresh(data.data)
    {
      ghost var d := data.Entries();
      Displace(elems);
      if data.size < dataPos + 1 {
        data.Resize(dataPos + 1, 1);
      }
      words := data.data[..dataPos + 1];
      assert SentAs(words, d, nelem, elems);
    }

    /** One node receives the words and puts the displaced entry back. */
    method Receive(pos: nat, words: seq<Word>, ghost n: nat, ghost elems: seq<Elem>)
      requires data.Valid() && data.mine && OnWire(words, n, elems) && |words| == pos + 1
      modifies this, data, data.data
      ensures Stores(elems) && nelem == n
      ensures data.data == old(data.data) || fresh(data.data)
    {
      ghost var d :| SentAs(words, d, n, elems);
      dataPos := pos;
      Fill(words);
      Restore(words, d, n, elems);
    }

    method Fill(words: seq<Word>)
      requires data.Valid() && data.mine
      modifies data, data.data
      ensures data.Valid() && words <= data.Entries()
      ensures data.data == old(data.data) || fresh(data.data)
    {
      if data.size < |words| {
        data.Resize(|words|, 1);
      }
      StoreWords(data.data, 0, words);
    }

    method Restore(ghost words: seq<Word>, ghost d: seq<Word>, ghost n: nat, ghost elems: seq<Elem>)
      requires data.Valid() && data.mine && SentAs(words, d, n, elems) && words <= data.Entries()
      requires dataPos == Position(elems, n, |elems|)
      modifies this`nelem, this`currentEl, data.data
      ensures Stores(elems) && nelem == n
    {
      assert words[0] == Number(n) && words[n + 1] == Number(|elems|) by { DisplacedRestored(d, n, elems); }
      nelem := data.data[0].value;
      data.data[0] := data.data[nelem];
      data.data[nelem] := Number(0);
      currentEl := data.data[nelem + 1].value;
      forall i | 0 <= i < dataPos && i != n + 1 ensures data.Entries()[i] == d[i] {
        DisplacedRestored(d, n, elems);
        assert Restored(Displaced(d, n, |elems|), n)[i] == d[i];
        assert words[i] == Displaced(d, n, |elems|)[i];
      }
      HoldsSame(d, data.Entries(), n, elems);
    }
  }

  /** The words are what the master makes of d, up to the end of the last record. */
  ghost predicate SentAs(words: seq<Word>, d: seq<Word>, nelem: nat, elems: seq<Elem>) {
    && Holds(d, nelem, elems) && |words| == Position(elems, nelem, |elems|) + 1
    && forall i :: 0 <= i < Position(elems, nelem, |elems|) ==> words[i] == Displaced(d, nelem, |elems|)[i]
  }

  ghost predicate OnWire(words: seq<Word>, nelem: nat, elems: seq<Elem>) {
    exists d :: SentAs(words, d, nelem, elems)
  }
}
