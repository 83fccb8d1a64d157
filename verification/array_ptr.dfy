/**
 * The owned buffer of array_ptr.h: a move-only handle to one heap block of
 * element slots, or to none. Ownership is only ever transferred (move,
 * swap, release), never duplicated, so the class offers no copy.
 */
module ArrayPtrs {

  class ArrayPtr {
    /** The raw handle; `null` when no block is held. */
    var raw: array?<int>

    /** Default construction holds no block. */
    constructor ()
      ensures raw == null
    {
      raw := null;
    }

    /** `ArrayPtr(size)`: a fresh block of exactly `n` slots, or none when `n` is 0. */
    constructor Allocate(n: nat)
      ensures n == 0 <==> raw == null
      ensures raw != null ==> fresh(raw) && raw.Length == n
    {
      if n > 0 {
        raw := new int[n];
      } else {
        raw := null;
      }
    }

    /** `ArrayPtr(Type*)`: adopts the given handle as it is, allocating nothing. */
    constructor Adopt(p: array?<int>)
      ensures raw == p
    {
      raw := p;
    }

    /** Move construction: takes the handle over and leaves the source empty. */
    constructor Move(other: ArrayPtr)
      modifies other
      ensures raw == old(other.raw)
      ensures other.raw == null
    {
      raw := other.raw;
      other.raw := null;
    }

    /** Move assignment is a swap: the source receives this instance's former handle. */
    method MoveAssign(other: ArrayPtr)
      modifies this, other
      ensures raw == old(other.raw)
      ensures other.raw == old(raw)
    {
      Swap(other);
    }

    /** `release`: hands the held handle to the caller and holds none afterwards. */
    method Release() returns (p: array?<int>)
      modifies this
      ensures p == old(raw)
      ensures raw == null
    {
      p := raw;
      raw := null;
    }

    /** Reading `operator[]`: only defined while a block is held. */
    function Read(i: nat): (v: int)
      reads this, raw
      requires raw != null && i < raw.Length
      ensures v == raw[..][i]
    {
      raw[i]
    }

    /** Writing through `operator[]`: one slot changes, the handle does not. */
    method Write(i: nat, v: int)
      requires raw != null && i < raw.Length
      modifies raw
      ensures raw[..] == old(raw[..])[i := v]
    {
      raw[i] := v;
    }

    /** `operator bool`: whether a block is held. */
    predicate IsAllocated()
      reads this
      ensures IsAllocated() <==> Get() != null
    {
      raw != null
    }

    /** `get`: the held handle, without giving it up. */
    function Get(): (p: array?<int>)
      reads this
      ensures p == raw
    {
      raw
    }

    /** `swap`: exchanges the two handles; no element moves. */
    method Swap(other: ArrayPtr)
      modifies this, other
      ensures raw == old(other.raw)
      ensures other.raw == old(raw)
    {
      raw, other.raw := other.raw, raw;
    }
  }
}
