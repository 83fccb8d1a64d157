/**
 * The growable array of simple_vector.h: a `size`/`capacity` pair over an
 * owned buffer. Elements are `int`s, `Type{}` is `Algorithms.Default`, and
 * iterators are slot indices (`begin() + i` is `i`).
 */
module SimpleVectors {
  import opened ArrayPtrs
  import opened Algorithms

  /** The recoverable error of the checked access path. */
  datatype Error = OutOfRange

  datatype Result<T> = Ok(value: T) | Err(error: Error)

  datatype Outcome = Pass | Fail(error: Error)

  /**
   * `ReserveProxyObj`: a tag carrying a slot count, which the vector's
   * constructor takes as "reserve this many slots" rather than "create
   * this many elements". Its `operator size_t` is the field.
   */
  datatype ReserveProxyObj = ReserveProxyObj(sizeToReserve: nat)

  /** `Reserve(k)`: the tag for a reservation of `k` slots. */
  function Reserve(k: nat): (r: ReserveProxyObj)
    ensures r.sizeToReserve == k
  {
    ReserveProxyObj(k)
  }

  function Max(a: nat, b: nat): nat
  {
    if a < b then b else a
  }

  /** `s` with `v` placed at position `p`: what `insert` promises. */
  function Inserted(s: seq<int>, p: nat, v: int): seq<int>
    requires p <= |s|
  {
    s[..p] + [v] + s[p..]
  }

  /** `s` without the element at position `p`: what `erase` promises. */
  function Erased(s: seq<int>, p: nat): seq<int>
    requires p < |s|
  {
    s[..p] + s[p + 1..]
  }

  /**
   * The capacity `emplace` moves to when the buffer is full: 1 from an empty
   * buffer, twice the old capacity otherwise. It is the same growth that
   * `emplace_back` asks `reserve` for, `max(2 * capacity, 1)`.
   */
  function GrownCapacity(capacity: nat): (r: nat)
    ensures r == Max(2 * capacity, 1)
    ensures r > capacity
  {
    if capacity == 0 then 1 else capacity * 2
  }

  /** The capacity `resize(n)` ends with: unchanged while `n` fits, else `max(n, 2 * capacity)`. */
  function ResizedCapacity(n: nat, capacity: nat): (r: nat)
    ensures r >= n && r >= capacity
    ensures n <= capacity ==> r == capacity
    ensures n > capacity ==> r >= 2 * capacity && (r == n || r == 2 * capacity)
  {
    if n > capacity then Max(n, capacity * 2) else capacity
  }

  /** Inserting a value and erasing it again at the same position gives back the sequence. */
  lemma EraseUndoesInsert(s: seq<int>, p: nat, v: int)
    requires p <= |s|
    ensures |Inserted(s, p, v)| == |s| + 1
    ensures Inserted(s, p, v)[p] == v
    ensures Erased(Inserted(s, p, v), p) == s
  {
    var t := Inserted(s, p, v);
    assert t[..p] == s[..p];
    assert t[p + 1..] == s[p..];
    assert s == s[..p] + s[p..];
  }

  /** `push_back` is `insert` at `end()`. */
  lemma PushBackIsInsertAtEnd(s: seq<int>, v: int)
    ensures Inserted(s, |s|, v) == s + [v]
  {
    assert s[..|s|] == s;
  }

  /**
   * A sequence built from three regions, `s[..p]`, then `v`, then `s[p..]`,
   * is `Inserted(s, p, v)`; both insertion paths end in this shape.
   */
  lemma InsertedFromRegions(t: seq<int>, s: seq<int>, p: nat, v: int)
    requires p <= |s| && |t| == |s| + 1
    requires t[..p] == s[..p] && t[p] == v && t[p + 1..] == s[p..]
    ensures t == Inserted(s, p, v)
  {
    assert t == t[..p] + [t[p]] + t[p + 1..];
  }

  class SimpleVector {
    /** Number of live elements, the slots `[0, size)`. */
    var size: nat
    /** Number of allocated slots. */
    var capacity: nat
    /** The owned buffer; the object is never replaced, only its handle. */
    const items: ArrayPtr

    /** The object invariant kept on every path. */
    ghost predicate Valid()
      reads this, items
    {
      && size <= capacity
      && (items.raw == null <==> capacity == 0)
      && (items.raw != null ==> items.raw.Length == capacity)
    }

    /** The elements `[begin(), end())`. */
    function Elems(): seq<int>
      reads this, items, items.raw
      requires Valid()
    {
      Span(items.raw, 0, size)
    }

    /** Default construction: empty, with no buffer (`begin() == nullptr`). */
    constructor ()
      ensures Valid() && fresh(items)
      ensures size == 0 && capacity == 0 && items.raw == null
      ensures Elems() == []
    {
      size, capacity := 0, 0;
      items := new ArrayPtr();
    }

    /** `SimpleVector(size)`: `n` elements `Type{}` in a buffer of exactly `n` slots. */
    constructor WithSize(n: nat)
      ensures Valid() && fresh(items) && (n > 0 ==> fresh(items.raw))
      ensures size == n && capacity == n
      ensures Elems() == Repeat(Default, n)
    {
      size, capacity := n, n;
      items := new ArrayPtr.Allocate(n);
      new;
      Fill(items.Get(), 0, n, Default);
    }

    /** `SimpleVector(size, value)`: `n` copies of `value` in exactly `n` slots. */
    constructor Filled(n: nat, value: int)
      ensures Valid() && fresh(items) && (n > 0 ==> fresh(items.raw))
      ensures size == n && capacity == n
      ensures Elems() == Repeat(value, n)
    {
      size, capacity := n, n;
      items := new ArrayPtr.Allocate(n);
      new;
      Fill(items.Get(), 0, n, value);
    }

    /** The copy constructor: equal elements in fresh storage of the source's capacity. */
    constructor Copy(other: SimpleVector)
      requires other.Valid()
      ensures Valid() && fresh(items) && (capacity > 0 ==> fresh(items.raw))
      ensures size == other.size && capacity == other.capacity
      ensures Elems() == other.Elems()
    {
      size, capacity := other.size, other.capacity;
      items := new ArrayPtr.Allocate(other.capacity);
      new;
      MoveInto(other.items.Get(), 0, other.size, items.Get(), 0);
    }

    /** The initializer-list constructor: the listed elements, in order, in exactly that many slots. */
    constructor FromList(init: seq<int>)
      ensures Valid() && fresh(items) && (|init| > 0 ==> fresh(items.raw))
      ensures size == |init| && capacity == |init|
      ensures Elems() == init
    {
      size, capacity := |init|, |init|;
      items := new ArrayPtr.Allocate(|init|);
      new;
      CopyList(init, items.Get());
    }

    /** `SimpleVector(Reserve(k))`: no elements, `k` reserved slots. */
    constructor Reserved(hint: ReserveProxyObj)
      ensures Valid() && fresh(items) && (hint.sizeToReserve > 0 ==> fresh(items.raw))
      ensures size == 0 && capacity == hint.sizeToReserve
      ensures Elems() == []
    {
      size, capacity := 0, 0;
      items := new ArrayPtr();
      new;
      Reserve(hint.sizeToReserve);
    }

    /** The move constructor: takes the source's storage over and leaves the source empty. */
    constructor Move(other: SimpleVector)
      requires other.Valid()
      modifies other, other.items
      ensures Valid() && fresh(items)
      ensures size == old(other.size) && capacity == old(other.capacity)
      ensures items.raw == old(other.items.raw)
      ensures Elems() == old(other.Elems())
      ensures other.Valid() && other.size == 0 && other.capacity == 0 && other.items.raw == null
    {
      size, capacity := other.size, other.capacity;
      other.size, other.capacity := 0, 0;
      items := new ArrayPtr.Move(other.items);
    }

    /** Copy assignment by copy-and-swap; self-assignment changes nothing. */
    method CopyAssign(rhs: SimpleVector)
      requires Valid() && rhs.Valid()
      requires rhs == this || rhs.items != items
      modifies this, items
      ensures Valid()
      ensures size == old(rhs.size) && capacity == old(rhs.capacity)
      ensures Elems() == old(rhs.Elems())
      ensures rhs != this && capacity > 0 ==> fresh(items.raw)
      ensures rhs == this ==> items.raw == old(items.raw)
      ensures rhs != this ==> unchanged(rhs, rhs.items)
    {
      if this != rhs {
        var temp := new SimpleVector.Copy(rhs);
        Swap(temp);
      }
    }

    /** Move assignment: unless it is self-assignment, a swap with the source. */
    method MoveAssign(rhs: SimpleVector)
      requires Valid() && rhs.Valid()
      requires rhs == this || rhs.items != items
      modifies this, items, rhs, rhs.items
      ensures Valid() && rhs.Valid()
      ensures size == old(rhs.size) && capacity == old(rhs.capacity)
      ensures items.raw == old(rhs.items.raw)
      ensures Elems() == old(rhs.Elems())
      ensures rhs.size == old(size) && rhs.capacity == old(capacity)
      ensures rhs.items.raw == old(items.raw)
      ensures rhs.Elems() == old(Elems())
    {
      if this != rhs {
        Swap(rhs);
      }
    }

    /** `push_back`: appends `v`, growing as `emplace_back` does. */
    method PushBack(v: int)
      requires Valid()
      modifies this, items, items.raw
      ensures Valid()
      ensures Elems() == old(Elems()) + [v]
      ensures capacity == if old(size) < old(capacity) then old(capacity) else Max(2 * old(capacity), 1)
      ensures old(size) < old(capacity) ==> items.raw == old(items.raw)
      ensures old(size) == old(capacity) ==> fresh(items.raw)
    {
      EmplaceBack(v);
    }

    /** `pop_back`: drops the last element; storage and capacity stay. */
    method PopBack()
      requires Valid() && size > 0
      modifies this
      ensures Valid()
      ensures Elems() == old(Elems())[..old(size) - 1]
      ensures capacity == old(capacity) && items.raw == old(items.raw)
    {
      size := size - 1;
    }

    /**
     * `erase(begin() + p)`: shifts the tail left over the slot `p` and returns
     * the position `p`, where the following element now is. Storage and
     * capacity stay.
     */
    method Erase(p: nat) returns (r: nat)
      requires Valid() && p < size
      modifies this, items.raw
      ensures Valid()
      ensures r == p
      ensures Elems() == Erased(old(Elems()), p)
      ensures capacity == old(capacity) && items.raw == old(items.raw)
    {
      ghost var s := Elems();
      var a := items.Get();
      MoveLeft(a, p, size);
      size := size - 1;
      r := p;
      assert Elems() == a[..p] + a[p..size];
    }

    /** `insert(begin() + p, v)`: what `emplace` does. */
    method Insert(p: nat, v: int) returns (r: nat)
      requires Valid() && p <= size
      modifies this, items, items.raw
      ensures Valid()
      ensures r == p
      ensures Elems() == Inserted(old(Elems()), p, v)
      ensures capacity == if old(size) < old(capacity) then old(capacity) else GrownCapacity(old(capacity))
      ensures old(size) < old(capacity) ==> items.raw == old(items.raw)
      ensures old(size) == old(capacity) ==> fresh(items.raw)
    {
      r := Emplace(p, v);
    }

    /** `swap`: exchanges storage, size and capacity with `other`, and nothing else. */
    method Swap(other: SimpleVector)
      requires Valid() && other.Valid()
      requires other == this || other.items != items
      modifies this, other, items, other.items
      ensures Valid() && other.Valid()
      ensures items.raw == old(other.items.raw) && other.items.raw == old(items.raw)
      ensures size == old(other.size) && other.size == old(size)
      ensures capacity == old(other.capacity) && other.capacity == old(capacity)
      ensures Elems() == old(other.Elems()) && other.Elems() == old(Elems())
    {
      items.Swap(other.items);
      size, other.size := other.size, size;
      capacity, other.capacity := other.capacity, capacity;
    }

    /** `clear`: no elements; storage and capacity stay for reuse. */
    method Clear()
      requires Valid()
      modifies this
      ensures Valid()
      ensures Elems() == []
      ensures capacity == old(capacity) && items.raw == old(items.raw)
    {
      size := 0;
    }

    /** `size()`. */
    function Size(): (n: nat)
      reads this, items, items.raw
      requires Valid()
      ensures n == |Elems()|
    {
      size
    }

    /** `capacity()`: never below `size()`, and 0 exactly when no buffer is held. */
    function Capacity(): (c: nat)
      reads this, items, items.raw
      requires Valid()
      ensures |Elems()| <= c
      ensures c == 0 <==> !items.IsAllocated()
    {
      capacity
    }

    /** `empty()`. */
    predicate Empty()
      reads this, items, items.raw
      requires Valid()
      ensures Empty() <==> Elems() == []
    {
      size == 0
    }

    /** Reading `operator[]`: unchecked, so the index must be below `size()`. */
    function Get(i: nat): (v: int)
      reads this, items, items.raw
      requires Valid() && i < size
      ensures v == Elems()[i]
    {
      items.Read(i)
    }

    /** Writing through `operator[]`: one element changes, nothing else. */
    method Set(i: nat, v: int)
      requires Valid() && i < size
      modifies items.raw
      ensures Valid()
      ensures Elems() == old(Elems())[i := v]
    {
      items.Write(i, v);
    }

    /** Reading `at`: `OutOfRange` exactly when `i >= size()`, otherwise the element `[i]` reads. */
    function At(i: nat): (r: Result<int>)
      reads this, items, items.raw
      requires Valid()
      ensures r.Err? <==> i >= |Elems()|
      ensures r.Err? ==> r.error == OutOfRange
      ensures r.Ok? ==> r.value == Elems()[i]
    {
      if i >= size then Err(OutOfRange) else Ok(Get(i))
    }

    /** Writing through `at`: `OutOfRange` and no change when `i >= size()`, else as `[i]`. */
    method SetAt(i: nat, v: int) returns (r: Outcome)
      requires Valid()
      modifies items.raw
      ensures Valid()
      ensures r == if i < old(size) then Pass else Fail(OutOfRange)
      ensures Elems() == if i < old(size) then old(Elems())[i := v] else old(Elems())
    {
      if i >= size {
        return Fail(OutOfRange);
      }
      Set(i, v);
      r := Pass;
    }

    /**
     * `resize(n)`: keeps the first `min(n, size())` elements, gives the new
     * slots `[size(), n)` the value `Type{}`, and reallocates only when `n`
     * exceeds the capacity, to `max(n, 2 * capacity())`.
     */
    method Resize(n: nat)
      requires Valid()
      modifies this, items, items.raw
      ensures Valid()
      ensures size == n
      ensures n <= old(size) ==> Elems() == old(Elems())[..n]
      ensures n > old(size) ==> Elems() == old(Elems()) + Repeat(Default, n - old(size))
      ensures capacity == ResizedCapacity(n, old(capacity))
      ensures n <= old(capacity) ==> items.raw == old(items.raw)
      ensures n > old(capacity) ==> fresh(items.raw)
    {
      if n > capacity {
        Reserve(Max(n, capacity * 2));
        FillDefault(size, n);
      } else if n > size {
        FillDefault(size, n);
      }
      size := n;
    }

    /**
     * `reserve(k)`: a larger `k` moves the elements into a fresh buffer of
     * exactly `k` slots; a `k` no larger than the capacity changes nothing.
     */
    method Reserve(k: nat)
      requires Valid()
      modifies this, items
      ensures Valid()
      ensures size == old(size) && Elems() == old(Elems())
      ensures capacity == if k > old(capacity) then k else old(capacity)
      ensures k > old(capacity) ==> fresh(items.raw)
      ensures k <= old(capacity) ==> items.raw == old(items.raw)
    {
      if k > capacity {
        var newItems := new ArrayPtr.Allocate(k);
        MoveInto(items.Get(), 0, size, newItems.Get(), 0);
        items.Swap(newItems);
        capacity := k;
      }
    }

    /**
     * The private `emplace`. With a full buffer it allocates `GrownCapacity`
     * slots and fills them in one pass: the prefix, the new value, then the
     * tail. Otherwise it shifts the tail one slot right from the back and
     * stores the value in the freed slot.
     */
    method Emplace(p: nat, v: int) returns (r: nat)
      requires Valid() && p <= size
      modifies this, items, items.raw
      ensures Valid()
      ensures r == p
      ensures Elems() == Inserted(old(Elems()), p, v)
      ensures capacity == if old(size) < old(capacity) then old(capacity) else GrownCapacity(old(capacity))
      ensures old(size) < old(capacity) ==> items.raw == old(items.raw)
      ensures old(size) == old(capacity) ==> fresh(items.raw)
    {
      if size == capacity {
        EmplaceIntoGrown(p, v);
      } else {
        EmplaceInPlace(p, v);
      }
      r := p;
    }

    /** The full-buffer path of `emplace`: a one-pass copy into `GrownCapacity` fresh slots. */
    method EmplaceIntoGrown(p: nat, v: int)
      requires Valid() && p <= size == capacity
      modifies this, items
      ensures Valid()
      ensures Elems() == Inserted(old(Elems()), p, v)
      ensures capacity == GrownCapacity(old(capacity))
      ensures fresh(items.raw)
    {
      ghost var s := Elems();
      var newCapacity := if capacity == 0 then 1 else capacity * 2;
      var newItems := new ArrayPtr.Allocate(newCapacity);
      var src := items.Get();
      var dst := newItems.Get();
      MoveInto(src, 0, p, dst, 0);
      assert dst[..p] == s[..p];
      newItems.Write(p, v);
      assert dst[..p] == s[..p] && dst[p] == v;
      MoveInto(src, p, size, dst, p + 1);
      assert dst[..p] == s[..p] && dst[p] == v;
      assert dst[p + 1..size + 1] == s[p..];
      ghost var t := dst[..size + 1];
      InsertedFromRegions(t, s, p, v);
      items.Swap(newItems);
      capacity := newCapacity;
      size := size + 1;
      assert Elems() == t;
    }

    /** The spare-capacity path of `emplace`: a backward shift of the tail, then a store. */
    method EmplaceInPlace(p: nat, v: int)
      requires Valid() && p <= size < capacity
      modifies this, items.raw
      ensures Valid()
      ensures Elems() == Inserted(old(Elems()), p, v)
      ensures capacity == old(capacity) && items.raw == old(items.raw)
    {
      ghost var s := Elems();
      var a := items.Get();
      size := size + 1;
      MoveBackward(a, p, size - 1);
      assert a[..p] == s[..p];
      assert a[p + 1..size] == s[p..];
      items.Write(p, v);
      assert a[..p] == s[..p] && a[p] == v;
      assert a[p + 1..size] == s[p..];
      InsertedFromRegions(a[..size], s, p, v);
      assert Elems() == a[..size];
    }

    /** The private `emplace_back`: grows to `max(2 * capacity, 1)` when full, then stores at `end()`. */
    method EmplaceBack(v: int)
      requires Valid()
      modifies this, items, items.raw
      ensures Valid()
      ensures Elems() == old(Elems()) + [v]
      ensures capacity == if old(size) < old(capacity) then old(capacity) else Max(2 * old(capacity), 1)
      ensures old(size) < old(capacity) ==> items.raw == old(items.raw)
      ensures old(size) == old(capacity) ==> fresh(items.raw)
    {
      if size == capacity {
        Reserve(Max(capacity * 2, 1));
      }
      ghost var s := Elems();
      items.Write(size, v);
      size := size + 1;
      assert Elems() == s + [v];
    }

    /**
     * `insert(begin() + p, (*this)[j])` as the source runs it: the argument
     * is a reference to slot `j` of the vector's own buffer, and `emplace`
     * reads it only after it has moved elements. With a full buffer the old
     * block still holds every element when the reference is read (moving an
     * `int` leaves it as it was), so the value is element `j`. With spare
     * capacity the backward shift has already run, so the value is whatever
     * slot `j` holds after the shift.
     */
    method InsertOwnElementAsWritten(p: nat, j: nat) returns (r: nat)
      requires Valid() && p <= size && j < size
      modifies this, items, items.raw
      ensures Valid()
      ensures r == p
      ensures old(size) == old(capacity) ==> Elems() == Inserted(old(Elems()), p, old(Elems())[j])
      ensures old(size) < old(capacity) ==> Elems() == Inserted(old(Elems()), p, SlotAfterShift(old(Elems()), p, j))
      ensures capacity == if old(size) < old(capacity) then old(capacity) else GrownCapacity(old(capacity))
    {
      if size == capacity {
        var v := Get(j);
        r := Emplace(p, v);
      } else {
        ghost var s := Elems();
        var a := items.Get();
        size := size + 1;
        MoveBackward(a, p, size - 1);
        assert a[..p] == s[..p];
        assert a[p + 1..size] == s[p..];
        var v := a[j];
        assert j <= p ==> v == old(a[..p + 1])[j];
        assert p < j ==> v == a[p + 1..size][j - p - 1];
        assert v == SlotAfterShift(s, p, j);
        items.Write(p, v);
        assert a[..p] == s[..p] && a[p] == v;
        assert a[p + 1..size] == s[p..];
        InsertedFromRegions(a[..size], s, p, v);
        assert Elems() == a[..size];
        r := p;
      }
    }

    /**
     * `insert(begin() + p, (*this)[j])` as intended: the element is copied
     * before anything moves, so the new element is the former element `j`
     * on both paths.
     */
    method InsertOwnElement(p: nat, j: nat) returns (r: nat)
      requires Valid() && p <= size && j < size
      modifies this, items, items.raw
      ensures Valid()
      ensures r == p
      ensures Elems() == Inserted(old(Elems()), p, old(Elems())[j])
      ensures capacity == if old(size) < old(capacity) then old(capacity) else GrownCapacity(old(capacity))
    {
      var v := Get(j);
      r := Emplace(p, v);
    }

    /**
     * `push_back((*this)[j])` as intended: the element is copied before a
     * full buffer is replaced, so the appended element is the former
     * element `j`.
     */
    method PushBackOwnElement(j: nat)
      requires Valid() && j < size
      modifies this, items, items.raw
      ensures Valid()
      ensures Elems() == old(Elems()) + [old(Elems())[j]]
      ensures capacity == if old(size) < old(capacity) then old(capacity) else Max(2 * old(capacity), 1)
    {
      var v := Get(j);
      EmplaceBack(v);
    }

    /** The private `fill`: gives the slots `[from, to)` the value `Type{}`. */
    method FillDefault(from: nat, to: nat)
      requires Valid() && from <= to <= capacity
      modifies items.raw
      ensures Valid()
      ensures items.raw != null ==> items.raw[..from] == old(items.raw[..from])
      ensures items.raw != null ==> items.raw[from..to] == Repeat(Default, to - from)
      ensures items.raw != null ==> items.raw[to..] == old(items.raw[to..])
    {
      Fill(items.Get(), from, to, Default);
    }
  }

  /** The erase guard as written: `pos >= cbegin() && pos <= cend()`, i.e. `p <= size`. */
  predicate EraseGuardAsWritten(p: nat, size: nat)
  {
    p <= size
  }

  /**
   * Whether `std::move(begin() + p + 1, end(), begin() + p)` names a range:
   * its first position must not lie past its last.
   */
  predicate EraseShiftIsRange(p: nat, size: nat)
  {
    p + 1 <= size
  }

  /** `--size_` on the 64-bit `size_t` of the source. */
  function DecrementSize64(size: nat): nat
  {
    (size - 1) % 0x1_0000_0000_0000_0000
  }

  /**
   * The written guard admits `erase(cend())`, a position that names no
   * element. The shift that follows is then given a reversed range, the
   * first undefined step; if that move leaves the buffer alone, the
   * `--size_` on an empty vector wraps to the largest `size_t`, above every
   * capacity an allocation can have.
   */
  lemma EraseAtEndAsWritten(size: nat, capacity: nat)
    requires size <= capacity < 0x1_0000_0000_0000_0000
    ensures EraseGuardAsWritten(size, size) && !EraseShiftIsRange(size, size)
    ensures size == 0 ==> DecrementSize64(size) == 0xFFFF_FFFF_FFFF_FFFF
    ensures size == 0 && capacity < 0xFFFF_FFFF_FFFF_FFFF ==> DecrementSize64(size) > capacity
  {
    if size == 0 {
      assert -1 == -1 * 0x1_0000_0000_0000_0000 + 0xFFFF_FFFF_FFFF_FFFF;
      assert DecrementSize64(size) == 0xFFFF_FFFF_FFFF_FFFF;
    }
  }

  /**
   * The value slot `j` holds once `insert`'s backward shift has moved the
   * slots `[p, |s|)` of `s` one place right: the slots up to `p` are as they
   * were, and a slot after `p` holds its left neighbour's former element.
   */
  function SlotAfterShift(s: seq<int>, p: nat, j: nat): int
    requires p <= |s| && j < |s|
  {
    if j <= p then s[j] else s[j - 1]
  }

  /**
   * With spare capacity, inserting a reference to one of the vector's own
   * elements that lies after the insertion point stores that element's left
   * neighbour instead: `{1, 2, 3}` with `insert(begin(), v[1])` gives
   * `{1, 1, 2, 3}`, not `{2, 1, 2, 3}`. The two results differ exactly when
   * the neighbours differ.
   */
  lemma InsertOwnElementAsWrittenDiffers(s: seq<int>, p: nat, j: nat)
    requires p < j < |s|
    ensures Inserted(s, p, SlotAfterShift(s, p, j))[p] == s[j - 1]
    ensures Inserted(s, p, SlotAfterShift(s, p, j)) == Inserted(s, p, s[j]) <==> s[j - 1] == s[j]
  {
    var written, intended := Inserted(s, p, SlotAfterShift(s, p, j)), Inserted(s, p, s[j]);
    assert written[p] == s[j - 1] && intended[p] == s[j];
  }
}
