/** The meaning of the memory register (src/bsp_memreg.h): equal rows of all columns
  * were registered together, and a row can be marked as removed. */
module Registers {

  datatype Option<+T> = None | Some(value: T)
  {
    function GetOr(default: T): T {
      match this
      case None => default
      case Some(v) => v
    }
  }

  /** The last row of a column that holds this address and is not removed. */
  function LastLive(col: seq<int>, removed: seq<bool>, address: int): (row: Option<nat>)
    requires |col| <= |removed|
    ensures row.Some? ==> row.value < |col| && col[row.value] == address && !removed[row.value]
    ensures row.Some? ==> forall k | row.value < k < |col| :: col[k] == address ==> removed[k]
    ensures row.None? ==> forall k | 0 <= k < |col| :: col[k] == address ==> removed[k]
  {
    if col == [] then None
    else
      var n := |col| - 1;
      if col[n] == address && !removed[n] then Some(n) else LastLive(col[..n], removed, address)
  }

  /** A backward search may go on below a row that is not the one. */
  lemma LastLiveBelow(col: seq<int>, removed: seq<bool>, address: int, k: nat)
    requires k < |col| <= |removed|
    requires col[k] != address || removed[k]
    ensures LastLive(col[..k + 1], removed, address) == LastLive(col[..k], removed, address)
  {
    assert col[..k + 1][..k] == col[..k];
  }

  /** It ends at a row that is. */
  lemma LastLiveHere(col: seq<int>, removed: seq<bool>, address: int, k: nat)
    requires k < |col| <= |removed|
    requires col[k] == address && !removed[k]
    ensures LastLive(col[..k + 1], removed, address) == Some(k)
  {
  }

  /** The address that processor dp registered together with `address` on sp. */
  function Translate(cols: seq<seq<int>>, removed: seq<bool>, sp: nat, dp: nat, address: int): Option<int>
    requires sp < |cols| && dp < |cols| && |cols[sp]| <= |removed| && |cols[dp]| == |cols[sp]|
  {
    match LastLive(cols[sp], removed, address)
    case Some(row) => Some(cols[dp][row])
    case None => None
  }

  /** The rows that are not removed, in order. */
  function Keep(col: seq<int>, removed: seq<bool>): (r: seq<int>)
    requires |col| <= |removed|
    ensures |r| == |col| - Removals(removed[..|col|])
  {
    if col == [] then []
    else
      var n := |col| - 1;
      assert removed[..|col|][..n] == removed[..n];
      Keep(col[..n], removed) + if removed[n] then [] else [col[n]]
  }

  /** How many rows are removed. */
  function Removals(removed: seq<bool>): (n: nat)
    ensures n <= |removed|
  {
    if removed == [] then 0
    else Removals(removed[..|removed| - 1]) + if removed[|removed| - 1] then 1 else 0
  }

  function KeepAll(cols: seq<seq<int>>, removed: seq<bool>): (r: seq<seq<int>>)
    requires forall p | 0 <= p < |cols| :: |cols[p]| <= |removed|
    ensures |r| == |cols|
  {
    seq(|cols|, p requires 0 <= p < |cols| => Keep(cols[p], removed))
  }

  /** Columns of equal length stay so. */
  lemma KeepAllLevel(cols: seq<seq<int>>, removed: seq<bool>)
    requires forall p | 0 <= p < |cols| :: |cols[p]| == |removed|
    ensures forall p | 0 <= p < |cols| :: |KeepAll(cols, removed)[p]| == |removed| - Removals(removed)
  {
    assert removed[..|removed|] == removed;
  }

  function NoneRemoved(n: nat): seq<bool> {
    seq(n, _ => false)
  }

  lemma {:induction false} RemovalsAppend(removed: seq<bool>, n: nat)
    requires n < |removed|
    ensures Removals(removed[..n + 1]) == Removals(removed[..n]) + if removed[n] then 1 else 0
  {
    assert removed[..n + 1][..n] == removed[..n];
  }

  lemma {:induction false} KeepAppend(col: seq<int>, removed: seq<bool>, n: nat)
    requires n < |col| <= |removed|
    ensures Keep(col[..n + 1], removed) == Keep(col[..n], removed) + if removed[n] then [] else [col[n]]
  {
    assert col[..n + 1][..n] == col[..n];
  }

  lemma {:induction false} RemovalsNone(removed: seq<bool>)
    requires forall k | 0 <= k < |removed| :: !removed[k]
    ensures Removals(removed) == 0
  {
    if removed != [] { RemovalsNone(removed[..|removed| - 1]); }
  }

  lemma {:induction false} RemovalsSet(removed: seq<bool>, k: nat)
    requires k < |removed| && !removed[k]
    ensures Removals(removed[k := true]) == Removals(removed) + 1
  {
    var n := |removed| - 1;
    if k < n {
      RemovalsSet(removed[..n], k);
      assert removed[k := true][..n] == removed[..n][k := true];
    } else {
      assert removed[k := true][..n] == removed[..n];
    }
  }

  lemma {:induction false} RemovalsExtend(removed: seq<bool>, more: seq<bool>)
    requires forall k | 0 <= k < |more| :: !more[k]
    ensures Removals(removed + more) == Removals(removed)
  {
    if more == [] {
      assert removed + more == removed;
    } else {
      var n := |more| - 1;
      RemovalsExtend(removed, more[..n]);
      assert (removed + more)[..|removed| + n] == removed + more[..n];
    }
  }

  lemma {:induction false} LastLiveExtend(col: seq<int>, removed: seq<bool>, other: seq<bool>, address: int)
    requires |col| <= |removed| && |col| <= |other|
    requires forall k | 0 <= k < |col| :: removed[k] == other[k]
    ensures LastLive(col, removed, address) == LastLive(col, other, address)
  {
    if col != [] { LastLiveExtend(col[..|col| - 1], removed, other, address); }
  }

  lemma {:induction false} KeepExtend(col: seq<int>, removed: seq<bool>, other: seq<bool>)
    requires |col| <= |removed| && |col| <= |other|
    requires forall k | 0 <= k < |col| :: removed[k] == other[k]
    ensures Keep(col, removed) == Keep(col, other)
  {
    if col != [] { KeepExtend(col[..|col| - 1], removed, other); }
  }

  /** Packing moves row k to the number of rows kept below it, in every column alike,
    * and the last live row stays the last live row. */
  lemma {:induction false} KeepLastLive(col: seq<int>, other: seq<int>, removed: seq<bool>, address: int,
                                        some: seq<bool>)
    requires |col| == |other| <= |removed| && |some| >= |col|
    requires forall k | 0 <= k < |some| :: !some[k]
    ensures |Keep(col, removed)| == |Keep(other, removed)| <= |col|
    ensures var before := LastLive(col, removed, address);
            var after := LastLive(Keep(col, removed), some, address);
            && before.Some? == after.Some?
            && (before.Some? ==> Keep(other, removed)[after.value] == other[before.value])
  {
    if col != [] {
      var n := |col| - 1;
      KeepLastLive(col[..n], other[..n], removed, address, some);
      var kept := Keep(col, removed);
      if !removed[n] {
        assert kept[..|kept| - 1] == Keep(col[..n], removed);
      }
    }
  }

  /** Every translation is the same before and after packing. */
  lemma PackKeepsTranslations(cols: seq<seq<int>>, removed: seq<bool>, sp: nat, dp: nat, address: int)
    requires sp < |cols| && dp < |cols|
    requires forall p | 0 <= p < |cols| :: |cols[p]| == |cols[sp]| <= |removed|
    ensures |KeepAll(cols, removed)[sp]| == |KeepAll(cols, removed)[dp]| <= |removed|
    ensures Translate(KeepAll(cols, removed), NoneRemoved(|removed|), sp, dp, address)
         == Translate(cols, removed, sp, dp, address)
  {
    KeepLastLive(cols[sp], cols[dp], removed, address, NoneRemoved(|removed|));
  }

  /** Marks after a list of removals, each of the last live row of its address; None
    * where the source aborts. */
  function PopMarks(col: seq<int>, marks: seq<bool>, pops: seq<int>): (r: Option<seq<bool>>)
    requires |col| <= |marks|
    ensures r.Some? ==> |r.value| == |marks|
  {
    if pops == [] then Some(marks)
    else
      match PopMarks(col, marks, pops[..|pops| - 1])
      case None => None
      case Some(m) =>
        match LastLive(col, m, pops[|pops| - 1])
        case None => None
        case Some(row) => Some(m[row := true])
  }

  lemma PopMarksStep(col: seq<int>, marks: seq<bool>, pops: seq<int>, i: nat)
    requires |col| <= |marks| && i < |pops|
    ensures PopMarks(col, marks, pops[..i + 1]) ==
              match PopMarks(col, marks, pops[..i])
              case None => None
              case Some(m) => (match LastLive(col, m, pops[i])
                               case None => None
                               case Some(row) => Some(m[row := true]))
  {
    assert pops[..i + 1][..i] == pops[..i];
  }

  /** After a failed removal the rest does not matter. */
  lemma {:induction false} PopMarksFails(col: seq<int>, marks: seq<bool>, pops: seq<int>, i: nat)
    requires |col| <= |marks| && i <= |pops| && PopMarks(col, marks, pops[..i]) == None
    ensures PopMarks(col, marks, pops) == None
    decreases |pops| - i
  {
    if i < |pops| {
      PopMarksStep(col, marks, pops, i);
      PopMarksFails(col, marks, pops, i + 1);
    } else {
      assert pops[..i] == pops;
    }
  }
}
