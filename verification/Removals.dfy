/** What removing registrations does to the columns of a register: the rows that the marks and the packing of
  * src/bsp_memreg.c leave over, without marks and without packing. */
module Removals {
  import opened Registers

  /** The rows of `there` that are left when, walking from the last row of `here` to the first, a row is dropped for
    * every removal of its address. */
  function Kept(here: seq<int>, there: seq<int>, removed: multiset<int>): (r: seq<int>)
    requires |here| == |there|
  {
    if here == [] then []
    else
      var n := |here| - 1;
      if here[n] in removed then Kept(here[..n], there[..n], removed - multiset{here[n]})
      else Kept(here[..n], there[..n], removed) + [there[n]]
  }

  /** A row with this address, behind which there are m more. */
  predicate IsRow(here: seq<int>, address: int, m: nat, row: int) {
    0 <= row < |here| && here[row] == address && multiset(here[row + 1..])[address] == m
  }

  // ----- how often an address stands in the last rows -----

  lemma FirstOfSuffix(col: seq<int>, k: nat)
    requires k < |col|
    ensures multiset(col[k..]) == multiset{col[k]} + multiset(col[k + 1..])
  {
    assert col[k..] == [col[k]] + col[k + 1..];
  }

  lemma LastOfSuffix(col: seq<int>, k: nat)
    requires k < |col|
    ensures multiset(col[k..]) == multiset(col[..|col| - 1][k..]) + multiset{col[|col| - 1]}
  {
    var n := |col| - 1;
    assert col[k..] == col[..n][k..] + [col[n]];
  }

  lemma EarlierHasMore(col: seq<int>, k: nat, row: nat)
    requires k < row < |col| && col[k] == col[row]
    ensures multiset(col[k..])[col[k]] >= multiset(col[row..])[col[k]] + 1
  {
    assert col[k..] == col[k..row] + col[row..];
    assert col[k] == col[k..row][0];
    assert col[k] in multiset(col[k..row]);
  }

  /** If every later row with this address has at most b of them behind and including it, there are at most b. */
  lemma {:induction false} AtMost(col: seq<int>, address: int, j: nat, b: nat)
    requires j <= |col|
    requires forall k :: j <= k < |col| && col[k] == address ==> multiset(col[k..])[address] <= b
    ensures multiset(col[j..])[address] <= b
    decreases |col| - j
  {
    if j < |col| && col[j] != address {
      FirstOfSuffix(col, j);
      AtMost(col, address, j + 1, b);
    }
  }

  // ----- the marks -----

  /** Row k is marked exactly if the removals reach it. */
  predicate MarkedAt(col: seq<int>, marks: seq<bool>, removed: multiset<int>, k: nat)
    requires k < |col| <= |marks|
  {
    marks[k] <==> multiset(col[k..])[col[k]] <= removed[col[k]]
  }

  ghost predicate Marked(col: seq<int>, marks: seq<bool>, removed: multiset<int>)
    requires |col| <= |marks|
  {
    forall k: nat :: k < |col| ==> MarkedAt(col, marks, removed, k)
  }

  lemma NoneMarked(col: seq<int>)
    ensures Marked(col, NoneRemoved(|col|), multiset{})
  {
    forall k: nat | k < |col| ensures MarkedAt(col, NoneRemoved(|col|), multiset{}, k) {
      FirstOfSuffix(col, k);
    }
  }

  /** One more removal marks one more row, or there is none left. */
  lemma OneMoreMark(col: seq<int>, marks: seq<bool>, removed: multiset<int>, address: int)
    requires |col| <= |marks| && Marked(col, marks, removed)
    ensures LastLive(col, marks, address).Some? <==> removed[address] < multiset(col)[address]
    ensures LastLive(col, marks, address).Some? ==>
      Marked(col, marks[LastLive(col, marks, address).value := true], removed + multiset{address})
  {
    assert col[0..] == col;
    match LastLive(col, marks, address)
    case None =>
      forall k | 0 <= k < |col| && col[k] == address ensures multiset(col[k..])[address] <= removed[address] {
        assert MarkedAt(col, marks, removed, k);
      }
      AtMost(col, address, 0, removed[address]);
    case Some(row) =>
      NextMark(col, marks, removed, address, row);
      assert col == col[..row] + col[row..];
  }

  lemma NextMark(col: seq<int>, marks: seq<bool>, removed: multiset<int>, address: int, row: nat)
    requires |col| <= |marks| && Marked(col, marks, removed) && LastLive(col, marks, address) == Some(row)
    ensures multiset(col[row..])[address] == removed[address] + 1
    ensures Marked(col, marks[row := true], removed + multiset{address})
  {
    forall k | row + 1 <= k < |col| && col[k] == address ensures multiset(col[k..])[address] <= removed[address] {
      assert MarkedAt(col, marks, removed, k);
    }
    AtMost(col, address, row + 1, removed[address]);
    FirstOfSuffix(col, row);
    assert MarkedAt(col, marks, removed, row);
    var now, all := marks[row := true], removed + multiset{address};
    forall k: nat | k < |col| ensures MarkedAt(col, now, all, k) {
      assert MarkedAt(col, marks, removed, k);
      if k < row && col[k] == address {
        EarlierHasMore(col, k, row);
      }
    }
  }

  /** The removals succeed exactly if no address is removed more often than it is registered, and then they mark the
    * last rows of every address. */
  lemma {:induction false} RemovalsMark(col: seq<int>, pops: seq<int>)
    ensures PopMarks(col, NoneRemoved(|col|), pops).Some? <==> multiset(pops) <= multiset(col)
    ensures PopMarks(col, NoneRemoved(|col|), pops).Some? ==>
      Marked(col, PopMarks(col, NoneRemoved(|col|), pops).value, multiset(pops))
  {
    if pops == [] {
      NoneMarked(col);
    } else {
      var last := |pops| - 1;
      RemovalsMark(col, pops[..last]);
      assert pops == pops[..last] + [pops[last]];
      var before := PopMarks(col, NoneRemoved(|col|), pops[..last]);
      if before.Some? {
        OneMoreMark(col, before.value, multiset(pops[..last]), pops[last]);
      }
    }
  }

  /** Packing the marked rows away leaves the kept ones. */
  lemma {:induction false} KeepIsKept(here: seq<int>, there: seq<int>, marks: seq<bool>, removed: multiset<int>)
    requires |here| == |there| <= |marks| && Marked(here, marks, removed)
    ensures Keep(there, marks) == Kept(here, there, removed)
  {
    if here != [] {
      var n := |here| - 1;
      var x := here[n];
      assert MarkedAt(here, marks, removed, n) && multiset(here[n..])[x] == 1 by { assert here[n..] == [x]; }
      var rest := if x in removed then removed - multiset{x} else removed;
      forall k: nat | k < n ensures MarkedAt(here[..n], marks, rest, k) {
        assert MarkedAt(here, marks, removed, k);
        LastOfSuffix(here, k);
        FirstOfSuffix(here[..n], k);
      }
      KeepIsKept(here[..n], there[..n], marks, rest);
    }
  }

  // ----- what is left -----

  lemma {:induction false} KeptLength(here: seq<int>, there: seq<int>, removed: multiset<int>)
    requires |here| == |there|
    ensures |Kept(here, there, removed)| == |Kept(here, here, removed)|
  {
    if here != [] {
      var n := |here| - 1;
      var rest := if here[n] in removed then removed - multiset{here[n]} else removed;
      KeptLength(here[..n], there[..n], rest);
    }
  }

  /** Every address loses as many rows as it has removals, if it has that many. */
  lemma {:induction false} KeptOften(here: seq<int>, removed: multiset<int>, address: int)
    ensures multiset(Kept(here, here, removed))[address]
         == if multiset(here)[address] <= removed[address] then 0 else multiset(here)[address] - removed[address]
  {
    if here != [] {
      var n := |here| - 1;
      var rest := if here[n] in removed then removed - multiset{here[n]} else removed;
      KeptOften(here[..n], rest, address);
      assert here == here[..n] + [here[n]];
    }
  }

  /** The row with as many rows behind it as there are removals becomes the last row with its address. */
  lemma {:induction false} KeptRow(here: seq<int>, there: seq<int>, removed: multiset<int>, address: int, row: nat)
    returns (r: nat)
    requires |here| == |there| && IsRow(here, address, removed[address], row)
    ensures |Kept(here, there, removed)| == |Kept(here, here, removed)|
    ensures IsRow(Kept(here, here, removed), address, 0, r) && Kept(here, there, removed)[r] == there[row]
  {
    KeptLength(here, there, removed);
    var n := |here| - 1;
    var x := here[n];
    if x in removed {
      if row < n {
        LastOfSuffix(here, row + 1);
      }
      r := KeptRow(here[..n], there[..n], removed - multiset{x}, address, row);
    } else if row == n {
      r := |Kept(here, here, removed)| - 1;
    } else {
      LastOfSuffix(here, row + 1);
      r := KeptRow(here[..n], there[..n], removed, address, row);
      var kept := Kept(here[..n], here[..n], removed);
      assert (kept + [x])[r + 1..] == kept[r + 1..] + [x];
    }
  }

  lemma {:induction false} KeptAll(here: seq<int>, there: seq<int>)
    requires |here| == |there|
    ensures Kept(here, there, multiset{}) == there
  {
    if here != [] {
      KeptAll(here[..|here| - 1], there[..|here| - 1]);
    }
  }

  /** A single removal drops exactly the last row with its address. */
  lemma {:induction false} OneDropped(here: seq<int>, there: seq<int>, address: int, row: nat)
    requires |here| == |there| && IsRow(here, address, 0, row)
    ensures Kept(here, there, multiset{address}) == there[..row] + there[row + 1..]
  {
    var n := |here| - 1;
    if row == n {
      assert multiset{address} - multiset{here[n]} == multiset{};
      KeptAll(here[..n], there[..n]);
    } else {
      LastOfSuffix(here, row + 1);
      assert here[n] != address;
      OneDropped(here[..n], there[..n], address, row);
      assert there[..row] + there[row + 1..] == there[..n][..row] + there[..n][row + 1..] + [there[n]];
    }
  }
}
