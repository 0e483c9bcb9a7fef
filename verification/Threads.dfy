/** Lists seen from the array of a whole table: absolute positions of records, each
  * leading to the one after it. */
module Threads {
  import opened Columns

  /** Records at these positions, each one's `next` leading to the next position. */
  ghost predicate Threaded(data: seq<Slot>, at: seq<nat>, list: seq<Record>) {
    && |at| == |list|
    && (forall k | 0 <= k < |at| :: Holds(data, at[k], list[k]))
    && (forall k | 0 <= k < |at| - 1 :: at[k] + Next(data, at[k]) == at[k + 1])
  }

  function Shift(at: seq<nat>, base: nat): (r: seq<nat>)
    ensures |r| == |at| && forall k | 0 <= k < |at| :: r[k] == base + at[k]
  {
    seq(|at|, k requires 0 <= k < |at| => base + at[k])
  }

  lemma SliceOfSlice<T>(d: seq<T>, base: nat, n: nat, i: nat, j: nat)
    requires i <= j <= n && base + n <= |d|
    ensures d[base..base + n][i..j] == d[base + i..base + j]
  {
    var x, y := d[base..base + n][i..j], d[base + i..base + j];
    forall k | 0 <= k < |x| ensures x[k] == y[k] {
      assert x[k] == d[base..base + n][i + k];
    }
  }

  lemma HoldsInside(data: seq<Slot>, base: nat, n: nat, pos: nat, rec: Record)
    requires base + n <= |data| && Holds(data[base..base + n], pos, rec)
    ensures Holds(data, base + pos, rec)
  {
    var col, m := data[base..base + n], NoSlots(|rec.payload|);
    SliceOfSlice(data, base, n, pos + 2, pos + 2 + m);
    UnpackFrame(col, pos + 2, data, base + pos + 2, |rec.payload|);
  }

  lemma ListInside(data: seq<Slot>, base: nat, n: nat, t: ItemType, at: seq<nat>, list: seq<Record>)
    requires base + n <= |data| && ListOk(data[base..base + n], t, at, list)
    ensures Threaded(data, Shift(at, base), list)
  {
    var col, at' := data[base..base + n], Shift(at, base);
    forall k | 0 <= k < |at| ensures Holds(data, at'[k], list[k]) && Next(data, at'[k]) == Next(col, at[k]) {
      assert Holds(col, at[k], list[k]);
      HoldsInside(data, base, n, at[k], list[k]);
    }
  }

  /** Two lists become one when the last record of the first leads to the second. */
  lemma ThreadedConcat(data: seq<Slot>, at: seq<nat>, list: seq<Record>, at': seq<nat>, list': seq<Record>)
    requires Threaded(data, at, list) && Threaded(data, at', list')
    requires at != [] && at' != [] ==> at[|at| - 1] + Next(data, at[|at| - 1]) == at'[0]
    ensures Threaded(data, at + at', list + list')
  {
    var both, all := at + at', list + list';
    forall k | 0 <= k < |both| ensures Holds(data, both[k], all[k]) {
      if k < |at| {
        assert both[k] == at[k] && all[k] == list[k];
      } else {
        assert both[k] == at'[k - |at|] && all[k] == list'[k - |at|];
      }
    }
    forall k | 0 <= k < |both| - 1 ensures both[k] + Next(data, both[k]) == both[k + 1] {
      if k < |at| - 1 {
        assert both[k] == at[k] && both[k + 1] == at[k + 1];
      } else if k >= |at| {
        assert both[k] == at'[k - |at|] && both[k + 1] == at'[k + 1 - |at|];
      }
    }
  }

  /** The two arrays differ in the `next` of headers of sends at most. */
  ghost predicate SameButSends(a: seq<Slot>, b: seq<Slot>) {
    && |a| == |b|
    && forall k: nat | k < |a| && b[k] != a[k] ::
         && a[k].Word? && b[k].Word? && b[k].lo == a[k].lo
         && k + 1 < |a| && a[k + 1].Union? && a[k + 1].info.Send?
  }

  lemma SameTransitive(a: seq<Slot>, b: seq<Slot>, c: seq<Slot>)
    requires SameButSends(a, b) && SameButSends(b, c)
    ensures SameButSends(a, c)
  {
    forall k: nat | k < |a| && c[k] != a[k]
      ensures a[k].Word? && c[k].Word? && c[k].lo == a[k].lo
      ensures k + 1 < |a| && a[k + 1].Union? && a[k + 1].info.Send?
    {
      assert b[k] != a[k] || c[k] != b[k];
      if k + 1 < |a| { assert b[k + 1].Union? ==> b[k + 1] == a[k + 1]; }
    }
  }

  lemma {:induction false} UnpackKept(a: seq<Slot>, b: seq<Slot>, pos: nat, size: nat)
    requires SameButSends(a, b)
    ensures Unpack(a, pos, size) == Unpack(b, pos, size)
    decreases size
  {
    if pos < |a| && size > SLOT_SIZE { UnpackKept(a, b, pos + 1, size - SLOT_SIZE); }
  }

  lemma HoldsKept(a: seq<Slot>, b: seq<Slot>, pos: nat, rec: Record)
    requires SameButSends(a, b) && Holds(a, pos, rec)
    ensures Holds(b, pos, rec)
  {
    UnpackKept(a, b, pos + TAG_SLOTS, |rec.payload|);
  }

  /** Relinking sends leaves every other list alone. */
  lemma ThreadedKept(a: seq<Slot>, b: seq<Slot>, at: seq<nat>, list: seq<Record>)
    requires SameButSends(a, b) && Threaded(a, at, list)
    requires forall k | 0 <= k < |list| :: !list[k].info.Send?
    ensures Threaded(b, at, list)
  {
    forall k | 0 <= k < |at| ensures Holds(b, at[k], list[k]) && Next(b, at[k]) == Next(a, at[k]) {
      HoldsKept(a, b, at[k], list[k]);
    }
  }

  /** Relinking sends below `bound` leaves every list beyond it alone. */
  lemma ThreadedBeyond(a: seq<Slot>, b: seq<Slot>, bound: nat, at: seq<nat>, list: seq<Record>)
    requires SameButSends(a, b) && Threaded(a, at, list)
    requires forall k | bound <= k < |a| :: b[k] == a[k]
    requires forall k | 0 <= k < |at| :: bound <= at[k]
    ensures Threaded(b, at, list)
  {
    forall k | 0 <= k < |at| ensures Holds(b, at[k], list[k]) && Next(b, at[k]) == Next(a, at[k]) {
      HoldsKept(a, b, at[k], list[k]);
    }
  }

  /** Relinking the last record of a list leaves the list alone. */
  lemma ThreadedRelink(a: seq<Slot>, b: seq<Slot>, at: seq<nat>, list: seq<Record>, next: nat)
    requires Threaded(a, at, list) && at != []
    requires forall k | 0 <= k < |list| :: list[k].info.Send?
    requires forall k, l | 0 <= k < l < |at| :: at[k] < at[l]
    requires at[|at| - 1] < |a| && a[at[|at| - 1]].Word?
    requires b == a[at[|at| - 1] := a[at[|at| - 1]].(hi := next)]
    ensures SameButSends(a, b) && Threaded(b, at, list) && Next(b, at[|at| - 1]) == next
  {
    var last := |at| - 1;
    assert Holds(a, at[last], list[last]);
    forall k | 0 <= k < |at| ensures Holds(b, at[k], list[k]) {
      HoldsKept(a, b, at[k], list[k]);
    }
    forall k | 0 <= k < |at| - 1 ensures Next(b, at[k]) == Next(a, at[k]) {
      assert at[k] < at[last];
    }
  }

  /** The records of one type over several columns, by column and then push order. */
  function AllOf(logs: seq<seq<Record>>, t: ItemType): (r: seq<Record>)
    ensures forall k | 0 <= k < |r| :: r[k].info.Kind() == t
  {
    if logs == [] then [] else AllOf(logs[..|logs| - 1], t) + Select(logs[|logs| - 1], t)
  }

  lemma AllOfStep(logs: seq<seq<Record>>, p: nat, t: ItemType)
    requires p < |logs|
    ensures AllOf(logs[..p + 1], t) == AllOf(logs[..p], t) + Select(logs[p], t)
  {
    assert logs[..p + 1][..p] == logs[..p];
  }
}
