/** A dataset on its way from the master to every node: written, broadcast and read. */
module DatasetRuns {
  import opened SerializedRecords
  import opened SerializedDatasets

  /** The memory of the nodes. */
  ghost function Vectors(nodes: seq<SerializedDataset>): set<object> {
    set x | x in nodes :: x.data
  }

  ghost function Arrays(nodes: seq<SerializedDataset>): set<object>
    reads Vectors(nodes)
  {
    set x | x in nodes :: x.data.data
  }

  /** Two nodes share nothing. */
  ghost predicate Apart(x: SerializedDataset, y: SerializedDataset)
    reads x.data, y.data
  {
    x != y && x.data != y.data && x.data.data != y.data.data
  }

  ghost predicate Nodes(nodes: seq<SerializedDataset>)
    reads Vectors(nodes)
  {
    && (forall i :: 0 <= i < |nodes| ==> nodes[i].data.Valid() && nodes[i].data.mine)
    && (forall i, j :: 0 <= i < j < |nodes| ==> Apart(nodes[i], nodes[j]))
  }

  /** The node stores these elements, of n. */
  ghost predicate Has(node: SerializedDataset, elems: seq<Elem>, n: nat)
    reads node, node.data, node.data.data
  {
    node.nelem == n && forall s :: s == elems ==> node.Stores(s)
  }

  /** One node receives; the others keep what they have. */
  method ReceiveAt(nodes: seq<SerializedDataset>, i: nat, pos: nat, words: seq<Word>, ghost n: nat,
                   ghost elems: seq<Elem>)
    requires Nodes(nodes) && i < |nodes| && OnWire(words, n, elems) && |words| == pos + 1
    modifies nodes[i], nodes[i].data, nodes[i].data.data
    ensures Nodes(nodes) && Has(nodes[i], elems, n)
    ensures nodes[i].data.data == old(nodes[i].data.data) || fresh(nodes[i].data.data)
    ensures forall j :: 0 <= j < |nodes| && j != i ==>
      nodes[j].data.data == old(nodes[j].data.data) && (old(Has(nodes[j], elems, n)) ==> Has(nodes[j], elems, n))
  {
    forall j | 0 <= j < |nodes| && j != i
      ensures nodes[j] != nodes[i] && nodes[j].data != nodes[i].data && nodes[j].data.data != nodes[i].data.data {
      assert Apart(nodes[if i < j then i else j], nodes[if i < j then j else i]);
    }
    nodes[i].Receive(pos, words, n, elems);
    forall j, k | 0 <= j < k < |nodes| ensures Apart(nodes[j], nodes[k]) {
      assert old(Apart(nodes[j], nodes[k]));
    }
  }

  /** broadcast, run by all nodes: what the master sends is what everybody receives. */
  method Broadcast(nodes: seq<SerializedDataset>, master: nat, ghost elems: seq<Elem>)
    requires Nodes(nodes) && master < |nodes| && nodes[master].Stores(elems)
    modifies nodes, Vectors(nodes), Arrays(nodes)
    ensures Nodes(nodes)
    ensures forall i :: 0 <= i < |nodes| ==> Has(nodes[i], elems, old(nodes[master].nelem))
  {
    ghost var n := nodes[master].nelem;
    var pos := nodes[master].dataPos;
    var words := SendFrom(nodes, master, elems);
    for i := 0 to |nodes|
      invariant Nodes(nodes)
      invariant forall j :: 0 <= j < |nodes| ==>
        nodes[j].data.data == old(nodes[j].data.data) || fresh(nodes[j].data.data)
      invariant forall j :: 0 <= j < i ==> Has(nodes[j], elems, n)
    {
      ReceiveAt(nodes, i, pos, words, n, elems);
    }
  }

  /** The master sends; nothing else changes. */
  method SendFrom(nodes: seq<SerializedDataset>, master: nat, ghost elems: seq<Elem>) returns (words: seq<Word>)
    requires Nodes(nodes) && master < |nodes| && nodes[master].Stores(elems)
    modifies nodes[master].data, nodes[master].data.data
    ensures Nodes(nodes) && OnWire(words, nodes[master].nelem, elems) && |words| == nodes[master].dataPos + 1
    ensures forall j :: 0 <= j < |nodes| ==> nodes[j].data.data == old(nodes[j].data.data) || fresh(nodes[j].data.data)
  {
    forall j | 0 <= j < |nodes| && j != master ensures nodes[j].data != nodes[master].data {
      assert Apart(nodes[if master < j then master else j], nodes[if master < j then j else master]);
    }
    words := nodes[master].Wire(elems);
    forall j, k | 0 <= j < k < |nodes| ensures Apart(nodes[j], nodes[k]) {
      assert old(Apart(nodes[j], nodes[k]));
    }
  }

  /** The writer's loop. */
  method WriteAll(node: SerializedDataset, elems: seq<Elem>)
    requires node.Stores([]) && |elems| <= node.nelem
    modifies node, node.data, node.data.data
    ensures node.Stores(elems) && node.nelem == old(node.nelem)
    ensures node.data.data == old(node.data.data) || fresh(node.data.data)
  {
    for k := 0 to |elems|
      invariant node.Stores(elems[..k]) && node.nelem == old(node.nelem)
      invariant node.data.data == old(node.data.data) || fresh(node.data.data)
    {
      node.AddElem(elems[k].name, elems[k].data, elems[..k]);
      assert elems[..k + 1] == elems[..k] + [Elem(elems[k].name, elems[k].data)];
    }
    assert elems[..|elems|] == elems;
  }

  /** The reader's loop. */
  method ReadAll(node: SerializedDataset, ghost elems: seq<Elem>) returns (read: seq<Elem>)
    requires node.Stores(elems)
    modifies node
    ensures read == elems
  {
    var n := node.currentEl;
    node.Restart(elems);
    read := [];
    for k := 0 to n
      invariant node.Reads(elems, k) && read == elems[..k]
    {
      var name := node.NextName(elems, k);
      var payload := node.GetElem(elems, k);
      read := read + [Elem(name, payload)];
    }
  }

  /** Every element the master adds is read by every node, in order. */
  method Deliver(nodes: seq<SerializedDataset>, master: nat, reader: nat, elems: seq<Elem>) returns (read: seq<Elem>)
    requires Nodes(nodes) && master < |nodes| && reader < |nodes|
    requires nodes[master].Stores([]) && |elems| <= nodes[master].nelem
    modifies nodes, Vectors(nodes), Arrays(nodes)
    ensures read == elems
  {
    WriteAll(nodes[master], elems);
    forall i, j | 0 <= i < j < |nodes| ensures Apart(nodes[i], nodes[j]) {
      assert old(Apart(nodes[i], nodes[j]));
    }
    forall i | 0 <= i < |nodes| ensures nodes[i].data.Valid() {
      if i != master {
        assert old(Apart(nodes[if i < master then i else master], nodes[if i < master then master else i]));
      }
    }
    Broadcast(nodes, master, elems);
    assert Has(nodes[reader], elems, nodes[reader].nelem);
    assert nodes[reader].Stores(elems);
    read := ReadAll(nodes[reader], elems);
  }
}
