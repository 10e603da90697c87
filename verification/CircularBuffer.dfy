/** The ring buffer of Utils.java: an array that is written round and round, read as the
    last frames that were added. */
module CircularBuffer {
  import opened Text

  class Ring<T> {
    const circ: array<T>
    const size: nat
    var ptr: nat
    /** The padding the ring starts with, followed by everything added since. */
    ghost var padded: seq<T>

    /** Everything that was added. */
    ghost function Added(): seq<T>
      requires size <= |padded|
      reads this
    {
      padded[size..]
    }

    /** The last `windowsize` items, padding included. */
    ghost function Last(windowsize: nat): (w: seq<T>)
      requires windowsize <= size <= |padded|
      reads this
      ensures |w| == windowsize
    {
      padded[|padded| - windowsize..]
    }

    /** As long as the window is no longer than what was added, it holds no padding. */
    lemma LastIsAdded(windowsize: nat)
      requires windowsize <= size <= |padded| && windowsize <= |Added()|
      ensures Last(windowsize) == Added()[|Added()| - windowsize..]
    {
    }

    /** The cell that is `j` places after the oldest. */
    function Cell(j: nat): (k: nat)
      requires j < size && ptr < size
      reads this
      ensures k < size
    {
      if ptr + j < size then ptr + j else ptr + j - size
    }

    ghost predicate Valid()
      reads this, circ
    {
      circ.Length == size && ptr < size && size <= |padded| &&
      forall j :: 0 <= j < size ==> circ[Cell(j)] == padded[|padded| - size + j]
    }

    constructor (size: nat, init: T)
      requires size > 0
      ensures Valid() && this.size == size && fresh(circ)
      ensures |padded| == size && (forall k :: 0 <= k < size ==> padded[k] == init) && Added() == []
    {
      this.size := size;
      var c := new T[size](_ => init);
      circ, ptr, padded := c, 0, seq(size, _ => init);
    }

    method Add(f: T)
      requires Valid()
      modifies this, circ
      ensures Valid() && padded == old(padded) + [f] && Added() == old(Added()) + [f]
    {
      ghost var p := ptr;
      circ[ptr] := f;
      ptr := ptr + 1;
      if ptr >= size {
        ptr := ptr - size;
      }
      padded := padded + [f];
      forall j | 0 <= j < size ensures circ[Cell(j)] == padded[|padded| - size + j] {
        if j < size - 1 {
          assert Cell(j) == old(Cell(j + 1)) != p;
          assert old(circ[Cell(j + 1)]) == padded[|padded| - size + j];
        }
      }
    }

    /** Item `index` of the last `windowsize` that were added; null outside. */
    method Get(windowsize: int, index: int) returns (f: Option<T>)
      requires Valid()
      ensures f == if windowsize > size || index < 0 || index >= windowsize then None
                   else Some(Last(windowsize)[index])
    {
      if windowsize < 0 || windowsize > size || index < 0 || index >= windowsize {
        return None;
      }
      var pos := ptr - windowsize + index;
      if pos < 0 {
        pos := pos + size;
      }
      assert pos == Cell(size - windowsize + index);
      return Some(circ[pos]);
    }
  }
}
