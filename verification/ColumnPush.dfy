/** deliveryTable_push keeps a column well formed, and a walk along a list meets
  * exactly the records that were pushed onto it. */
module ColumnPush {
  import opened Columns

  /** The first step of Link: the new record becomes the list's head, or the
    * successor of its last record. */
  function Thread(col: seq<Slot>, t: ItemType): (c: seq<Slot>)
    requires Linkable(col, t)
    ensures HasIndex(c) && |c| == |col|
    ensures Link(col, t) == SetIndexWord(SetIndexWord(c, 12 + t.Ord(), |col|), 6 + t.Ord(), Count(col, t) + 1)
  {
    if Count(col, t) == 0 then SetIndexWord(col, t.Ord(), |col|)
    else col[End(col, t) := col[End(col, t)].(hi := |col| - End(col, t))]
  }

  lemma ThreadIndex(col: seq<Slot>, t: ItemType, u: nat)
    requires Linkable(col, t) && u < 18
    ensures IndexWord(Thread(col, t), u) == if Count(col, t) == 0 && u == t.Ord() then |col| else IndexWord(col, u)
  {
    if Count(col, t) > 0 {
      assert Thread(col, t)[u / 2] == col[u / 2];
    }
  }

  lemma LinkIndex(col: seq<Slot>, t: ItemType, s: ItemType)
    requires Linkable(col, t)
    ensures Count(Link(col, t), s) == Count(col, s) + if s == t then 1 else 0
    ensures End(Link(col, t), s) == if s == t then |col| else End(col, s)
    ensures Start(Link(col, t), s) == if s == t && Count(col, t) == 0 then |col| else Start(col, s)
  {
    var c := Thread(col, t);
    var d := SetIndexWord(c, 12 + t.Ord(), |col|);
    ThreadIndex(col, t, s.Ord());
    ThreadIndex(col, t, 6 + s.Ord());
    ThreadIndex(col, t, 12 + s.Ord());
    assert s != t ==> s.Ord() != t.Ord();
    forall u | u in {s.Ord(), 6 + s.Ord(), 12 + s.Ord()}
      ensures IndexWord(Link(col, t), u) ==
                if u == 6 + t.Ord() then Count(col, t) + 1 else if u == 12 + t.Ord() then |col| else IndexWord(c, u)
    {
      assert IndexWord(d, u) == if u == 12 + t.Ord() then |col| else IndexWord(c, u);
    }
  }

  /** Of the slots behind the index, Link changes one `next` at most. */
  lemma LinkFrame(col: seq<Slot>, t: ItemType)
    requires Linkable(col, t)
    ensures SameRecords(col, Link(col, t))
    ensures forall k | INDEX_SLOTS <= k < |col| && !(Count(col, t) > 0 && k == End(col, t)) :: Link(col, t)[k] == col[k]
    ensures Count(col, t) > 0 ==> End(col, t) + Next(Link(col, t), End(col, t)) == |col|
  {
    var c := Thread(col, t);
    var d := SetIndexWord(c, 12 + t.Ord(), |col|);
    forall k | INDEX_SLOTS <= k < |col| ensures Link(col, t)[k] == c[k] {
      assert d[k] == c[k];
    }
  }

  /** One push onto a column: the new contents of its used slots. */
  function PushColumn(col: seq<Slot>, rec: Record, next: nat): (r: seq<Slot>)
    requires Linkable(col, rec.info.Kind())
  {
    Link(col, rec.info.Kind()) + Image(rec, next)
  }

  lemma IndexAppend(col: seq<Slot>, more: seq<Slot>, t: ItemType)
    requires HasIndex(col)
    ensures HasIndex(col + more)
    ensures Start(col + more, t) == Start(col, t)
    ensures Count(col + more, t) == Count(col, t)
    ensures End(col + more, t) == End(col, t)
  {
  }

  /** The record a push of this kind links to is of this kind. */
  predicate EndIsOfKind(col: seq<Slot>, kind: ItemType)
    requires HasIndex(col)
  {
    var e := End(col, kind);
    Count(col, kind) > 0 ==> e + 1 < |col| && col[e + 1].Union? && col[e + 1].info.Kind() == kind
  }

  /** The records of a list are still there, and where its links lead does not
    * change: only the last record of the pushed type gets a new `next`. */
  lemma ListKept(col: seq<Slot>, kind: ItemType, t: ItemType, at: seq<nat>, list: seq<Record>)
    requires Linkable(col, kind) && ListOk(col, t, at, list)
    requires forall k | 0 <= k < |list| :: list[k].info.Kind() == t
    requires forall k, l | 0 <= k < l < |at| :: at[k] < at[l]
    requires EndIsOfKind(col, kind)
    ensures var r := Link(col, kind);
            && (forall k | 0 <= k < |at| :: Holds(r, at[k], list[k]))
            && (forall k | 0 <= k < |at| - 1 :: at[k] + Next(r, at[k]) == at[k + 1])
  {
    var r := Link(col, kind);
    LinkFrame(col, kind);
    forall k | 0 <= k < |at| ensures Holds(r, at[k], list[k]) {
      HoldsSame(col, r, at[k], list[k]);
    }
    forall k | 0 <= k < |at| - 1 ensures at[k] + Next(r, at[k]) == at[k + 1] {
      assert Holds(col, at[k], list[k]);
      assert at[k] < at[|at| - 1];
      assert r[at[k]] == col[at[k]];
    }
  }

  /** A list to which one record was added behind the old end of the column. */
  lemma ListExtended(col: seq<Slot>, r: seq<Slot>, t: ItemType, at: seq<nat>, list: seq<Record>, rec: Record)
    requires ListOk(col, t, at, list) && HasIndex(r)
    requires Count(r, t) == Count(col, t) + 1 && End(r, t) == |col|
    requires Start(r, t) == if Count(col, t) == 0 then |col| else Start(col, t)
    requires forall k | 0 <= k < |at| :: Holds(r, at[k], list[k])
    requires forall k | 0 <= k < |at| - 1 :: at[k] + Next(r, at[k]) == at[k + 1]
    requires |at| > 0 ==> at[|at| - 1] + Next(r, at[|at| - 1]) == |col|
    requires Holds(r, |col|, rec)
    ensures ListOk(r, t, at + [|col|], list + [rec])
  {
  }

  /** The index, records and links of a list once the image of `rec` is written. */
  lemma PushedLists(col: seq<Slot>, rec: Record, next: nat, t: ItemType, at: seq<nat>, list: seq<Record>)
    returns (r: seq<Slot>)
    requires Linkable(col, rec.info.Kind()) && ListOk(col, t, at, list)
    requires var l := Link(col, rec.info.Kind());
             && (forall k | 0 <= k < |at| :: Holds(l, at[k], list[k]))
             && (forall k | 0 <= k < |at| - 1 :: at[k] + Next(l, at[k]) == at[k + 1])
    ensures r == PushColumn(col, rec, next) && HasIndex(r)
    ensures var mine := rec.info.Kind() == t;
            && Count(r, t) == Count(col, t) + (if mine then 1 else 0)
            && End(r, t) == (if mine then |col| else End(col, t))
            && Start(r, t) == (if mine && Count(col, t) == 0 then |col| else Start(col, t))
            && (mine && |at| > 0 ==> at[|at| - 1] + Next(r, at[|at| - 1]) == |col|)
    ensures Holds(r, |col|, rec)
    ensures forall k | 0 <= k < |at| :: Holds(r, at[k], list[k])
    ensures forall k | 0 <= k < |at| - 1 :: at[k] + Next(r, at[k]) == at[k + 1]
  {
    var l, image := Link(col, rec.info.Kind()), Image(rec, next);
    r := l + image;
    LinkIndex(col, rec.info.Kind(), t);
    LinkFrame(col, rec.info.Kind());
    IndexAppend(l, image, t);
    HoldsImage(l, rec, next);
    forall k | 0 <= k < |at|
      ensures Holds(r, at[k], list[k]) && Next(r, at[k]) == Next(l, at[k])
    {
      HoldsExtend(l, image, at[k], list[k]);
    }
  }

  /** One list, threaded well before a push, is threaded well after it. */
  lemma ListAfterPush(col: seq<Slot>, rec: Record, next: nat, t: ItemType, at: seq<nat>, list: seq<Record>)
    requires Linkable(col, rec.info.Kind()) && ListOk(col, t, at, list)
    requires EndIsOfKind(col, rec.info.Kind())
    requires forall k | 0 <= k < |list| :: list[k].info.Kind() == t
    requires forall k, l | 0 <= k < l < |at| :: at[k] < at[l]
    ensures rec.info.Kind() == t ==> ListOk(PushColumn(col, rec, next), t, at + [|col|], list + [rec])
    ensures rec.info.Kind() != t ==> ListOk(PushColumn(col, rec, next), t, at, list)
  {
    ListKept(col, rec.info.Kind(), t, at, list);
    var r := PushedLists(col, rec, next, t, at, list);
    if rec.info.Kind() == t {
      ListExtended(col, r, t, at, list, rec);
    }
  }

  lemma LastRecord(col: seq<Slot>, recs: seq<Record>, t: ItemType)
    requires ColumnOk(col, recs)
    ensures EndIsOfKind(col, t)
  {
    var at, list := Places(recs, t), Select(recs, t);
    assert ListOk(col, t, at, list);
    if Count(col, t) > 0 {
      assert Holds(col, at[|at| - 1], list[|at| - 1]);
    }
  }

  lemma ListsAfterPush(col: seq<Slot>, recs: seq<Record>, rec: Record, next: nat, r: seq<Slot>)
    requires ColumnOk(col, recs) && Linkable(col, rec.info.Kind()) && r == PushColumn(col, rec, next)
    ensures forall t: ItemType :: ListOk(r, t, Places(recs + [rec], t), Select(recs + [rec], t))
  {
    LastRecord(col, recs, rec.info.Kind());
    forall t: ItemType
      ensures ListOk(r, t, Places(recs + [rec], t), Select(recs + [rec], t))
    {
      assert ListOk(col, t, Places(recs, t), Select(recs, t));
      ListAfterPush(col, rec, next, t, Places(recs, t), Select(recs, t));
      Append(recs, rec, t);
    }
  }

  /** Every push keeps the representation invariant and appends one record. */
  lemma PushKeepsColumn(col: seq<Slot>, recs: seq<Record>, rec: Record, next: nat)
    requires ColumnOk(col, recs)
    ensures Linkable(col, rec.info.Kind())
    ensures ColumnOk(PushColumn(col, rec, next), recs + [rec])
  {
    ListEnd(col, recs, rec.info.Kind());
    var r := PushColumn(col, rec, next);
    ListsAfterPush(col, recs, rec, next, r);
    Append(recs, rec, PutItem);
    assert ListOk(r, PutItem, Places(recs + [rec], PutItem), Select(recs + [rec], PutItem));
  }

  /** What deliveryTable_reset and deliveryTable_initialize leave in a column. */
  const EMPTY_COLUMN: seq<Slot> := seq(INDEX_SLOTS, _ => Word(0, 0))

  lemma EmptyColumnOk()
    ensures ColumnOk(EMPTY_COLUMN, [])
  {
  }

  // ----- walking a list -----

  function RecordAt(col: seq<Slot>, pos: nat): Record
    requires pos + 1 < |col| && col[pos].Word? && col[pos + 1].Union?
  {
    Record(col[pos + 1].info, Unpack(col, pos + TAG_SLOTS, col[pos].lo))
  }

  /** Read `n` records, following `next` from each to the one after it. */
  function Walk(col: seq<Slot>, pos: nat, n: nat): seq<Record>
    decreases n
  {
    if n == 0 || pos + 1 >= |col| || !col[pos].Word? || !col[pos + 1].Union? then []
    else [RecordAt(col, pos)] + Walk(col, pos + Next(col, pos), n - 1)
  }

  lemma {:induction false} WalkList(col: seq<Slot>, t: ItemType, at: seq<nat>, list: seq<Record>, k: nat)
    requires ListOk(col, t, at, list) && k < |at|
    ensures Walk(col, at[k], |at| - k) == list[k..]
    decreases |at| - k
  {
    assert Holds(col, at[k], list[k]);
    if k + 1 < |at| {
      WalkList(col, t, at, list, k + 1);
    }
    assert list[k..] == [list[k]] + list[k + 1..];
  }

  /** Following `next` from `start` for `count` records yields exactly the records of
    * that type, payloads included, in push order. */
  lemma WalkYieldsList(col: seq<Slot>, recs: seq<Record>, t: ItemType)
    requires ColumnOk(col, recs)
    ensures Walk(col, Start(col, t), Count(col, t)) == Select(recs, t)
  {
    var at, list := Places(recs, t), Select(recs, t);
    assert ListOk(col, t, at, list);
    if |at| > 0 {
      WalkList(col, t, at, list, 0);
    }
  }
}
