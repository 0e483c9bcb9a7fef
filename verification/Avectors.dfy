/** The resizable array of include/bsp_tools/Avector.h. */
module Avectors {
  import opened Arithmetic

  /** The size that resize rounds up to. */
  function Rounded(n: nat, grow: nat): nat {
    if n != 0 && grow > 1 then n + grow - n % grow else n
  }

  /** Without a growth step the size is as asked; with one it is the next multiple behind n, so at least one entry
    * is spare. */
  lemma RoundedIsNext(n: nat, grow: nat)
    ensures n == 0 || grow <= 1 ==> Rounded(n, grow) == n
    ensures n > 0 && grow > 1 ==> n < Rounded(n, grow) <= n + grow && Rounded(n, grow) % grow == 0
  {
    if n > 0 && grow > 1 {
      var q := n / grow;
      assert n == q * grow + n % grow && (q + 1) * grow == q * grow + grow;
      DivModUnique(Rounded(n, grow), grow, q + 1, 0);
    }
  }

  class AVector<T(0)> {
    var data: array<T>
    var size: nat
    var grow: nat
    const mine: bool

    /** The block is at least as large as the vector; an own block is exactly so. */
    ghost predicate Valid()
      reads this
    {
      size <= data.Length && (mine ==> size == data.Length)
    }

    /** The entries of the vector. */
    ghost function Entries(): (s: seq<T>)
      requires Valid()
      reads this, data
      ensures |s| == size
    {
      data[..size]
    }

    constructor (size: nat)
      ensures Valid() && fresh(data) && mine && this.size == size
    {
      this.size, grow, mine := size, 1, true;
      data := new T[size];
    }

    /** resize: the new size is n, or with a growth step the next multiple of g behind n; the entries up to the
      * smaller of the two sizes stay; a block that is not the vector's own must be large enough already. */
    method Resize(n: nat, g: nat)
      requires Valid() && (!mine ==> Rounded(n, g) <= data.Length)
      modifies this
      ensures Valid()
      ensures n == 0 || g <= 1 ==> size == n
      ensures n != 0 && g > 1 ==> n < size <= n + g && size % g == 0
      ensures grow == if g == 0 then 1 else g
      ensures data == old(data) || fresh(data)
      ensures forall i :: 0 <= i < size && i < old(size) ==> data[i] == old(data[i])
      ensures unchanged(old(data))
    {
      RoundedIsNext(n, g);
      var oldSize, block := size, data;
      grow := g;
      if grow < 1 {
        grow := 1;
      }
      var n' := n;
      if n' != 0 && grow != 1 {
        n' := n' + grow - n' % grow;
      }
      if size == n' {
        return;
      }
      size := n';
      if mine {
        var newData := new T[size];
        var tcount := if oldSize < size then oldSize else size;
        for i := 0 to tcount
          invariant forall k :: 0 <= k < i ==> newData[k] == block[k]
          invariant unchanged(block) && size == n' && grow == if g == 0 then 1 else g
        {
          newData[i] := block[i];
        }
        data := newData;
      }
    }
  }
}
