/**
 * The size arithmetic of a gap in the reduced model, as its unit test pins
 * it down: growing and shrinking by a positive amount, ignoring amounts that
 * are not positive, and ignoring a shrink larger than the gap.
 */
module Gaps {

  /** The size after grow(delta): only a positive change applies. */
  function Grown(size: int, delta: int): (r: int)
    ensures r >= size
    ensures r != size <==> delta > 0
  {
    if delta > 0 then size + delta else size
  }

  /** The size after shrink(delta): only a positive change no larger than the size applies. */
  function Shrunk(size: int, delta: int): (r: int)
    ensures r <= size
    ensures r != size <==> 0 < delta <= size
    ensures size >= 0 ==> r >= 0
  {
    if 0 < delta <= size then size - delta else size
  }

  /** Shrinking by what was just grown restores the size. */
  lemma ShrinkUndoesGrow(size: int, delta: int)
    requires size >= 0
    ensures Shrunk(Grown(size, delta), delta) == size
  {
  }

  /** Growing by what was just shrunk restores the size, when the shrink applied. */
  lemma GrowUndoesShrink(size: int, delta: int)
    requires 0 < delta <= size
    ensures Grown(Shrunk(size, delta), delta) == size
  {
  }

  class Gap {
    var size: int

    ghost predicate Valid()
      reads this
    {
      size >= 0
    }

    constructor (size: int)
      requires size >= 0
      ensures Valid() && this.size == size
    {
      this.size := size;
    }

    /** getSize: a gap is never negative in size. */
    function GetSize(): (r: int)
      requires Valid()
      reads this
      ensures r >= 0
    {
      size
    }

    method Grow(delta: int)
      requires Valid()
      modifies this
      ensures Valid()
      ensures size == Grown(old(size), delta)
    {
      if delta > 0 {
        size := size + delta;
      }
    }

    method Shrink(delta: int)
      requires Valid()
      modifies this
      ensures Valid()
      ensures size == Shrunk(old(size), delta)
    {
      if delta <= size && delta > 0 {
        size := size - delta;
      }
    }
  }

  /** testGrow: the sizes read back after grow(5) and grow(0) on an empty gap, and grow(-6) on a gap of 1. */
  method TestGrow() returns (sizes: seq<int>)
    ensures sizes == [5, 5, 1]
  {
    var gap0 := new Gap(0);
    var gap1 := new Gap(1);
    gap0.Grow(5);
    var a := gap0.GetSize();
    gap0.Grow(0);
    var b := gap0.GetSize();
    gap1.Grow(-6);
    var c := gap1.GetSize();
    sizes := [a, b, c];
  }

  /** testShrink: the sizes read back after shrink(3) and shrink(0) on a gap of 5, and shrink(3) and shrink(-1) on a gap of 1. */
  method TestShrink() returns (sizes: seq<int>)
    ensures sizes == [2, 2, 1, 1]
  {
    var gap0 := new Gap(5);
    var gap1 := new Gap(1);
    gap0.Shrink(3);
    var a := gap0.GetSize();
    gap0.Shrink(0);
    var b := gap0.GetSize();
    gap1.Shrink(3);
    var c := gap1.GetSize();
    gap1.Shrink(-1);
    var d := gap1.GetSize();
    sizes := [a, b, c, d];
  }
}
