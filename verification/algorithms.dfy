/**
 * The element loops that simple_vector.h runs over its buffers through the
 * standard algorithms (`std::fill`, `std::generate`, `std::copy`,
 * `std::move`, `std::move_backward`). Positions are slot indices; a buffer
 * is `null` when nothing is allocated, and then only the empty range of
 * slots may be named, as with a pair of null pointers in the source.
 */
module Algorithms {

  /** The value-initialised element `Type{}` for the element type `int`. */
  const Default: int := 0

  /** `n` copies of `v`. */
  function Repeat(v: int, n: nat): seq<int>
  {
    seq(n, _ => v)
  }

  /** A well-formed range of slots `[from, to)` of a possibly absent buffer. */
  ghost predicate IsRange(a: array?<int>, from: nat, to: nat)
  {
    from <= to && (a == null ==> from == to) && (a != null ==> to <= a.Length)
  }

  /** The elements in the slots `[from, to)`; an absent buffer has only the empty range. */
  function Span(a: array?<int>, from: nat, to: nat): (s: seq<int>)
    reads a
    requires IsRange(a, from, to)
    ensures |s| == to - from
    ensures forall i :: 0 <= i < |s| ==> s[i] == a[from + i]
  {
    if a == null then [] else a[from..to]
  }

  /** `std::fill(first, last, v)` (and `std::generate` with a constant generator). */
  method Fill(a: array?<int>, from: nat, to: nat, v: int)
    requires IsRange(a, from, to)
    modifies a
    ensures a != null ==> a[..from] == old(a[..from])
    ensures a != null ==> a[from..to] == Repeat(v, to - from)
    ensures a != null ==> a[to..] == old(a[to..])
  {
    var i := from;
    while i < to
      invariant from <= i <= to
      invariant a != null ==> forall k :: from <= k < i ==> a[k] == v
      invariant a != null ==> forall k :: 0 <= k < a.Length && !(from <= k < i) ==> a[k] == old(a[k])
    {
      a[i] := v;
      i := i + 1;
    }
  }

  /** `std::copy(init.begin(), init.end(), dst)` from an initializer list. */
  method CopyList(init: seq<int>, dst: array?<int>)
    requires dst == null ==> init == []
    requires dst != null ==> |init| <= dst.Length
    modifies dst
    ensures dst != null ==> dst[..|init|] == init
    ensures dst != null ==> dst[|init|..] == old(dst[|init|..])
  {
    var i := 0;
    while i < |init|
      invariant 0 <= i <= |init|
      invariant dst != null ==> forall k :: 0 <= k < i ==> dst[k] == init[k]
      invariant dst != null ==> forall k :: i <= k < dst.Length ==> dst[k] == old(dst[k])
    {
      dst[i] := init[i];
      i := i + 1;
    }
  }

  /**
   * `std::move(first, last, out)` / `std::copy(first, last, out)` between two
   * different buffers: the slots `[from, to)` of `src` land at `[at, at + (to - from))`
   * of `dst`, and nothing else in `dst` changes.
   */
  method MoveInto(src: array?<int>, from: nat, to: nat, dst: array?<int>, at: nat)
    requires IsRange(src, from, to) && IsRange(dst, at, at + (to - from))
    requires src == null || src != dst
    modifies dst
    ensures dst != null ==> dst[..at] == old(dst[..at])
    ensures dst != null ==> dst[at..at + (to - from)] == old(Span(src, from, to))
    ensures dst != null ==> dst[at + (to - from)..] == old(dst[at + (to - from)..])
  {
    var i := 0;
    while i < to - from
      invariant 0 <= i <= to - from
      invariant dst != null ==> forall k :: at <= k < at + i ==> dst[k] == old(src[k - at + from])
      invariant dst != null ==> forall k :: 0 <= k < dst.Length && !(at <= k < at + i) ==> dst[k] == old(dst[k])
      invariant src != null ==> forall k :: 0 <= k < src.Length ==> src[k] == old(src[k])
    {
      dst[at + i] := src[from + i];
      i := i + 1;
    }
  }

  /**
   * `std::move(a + from + 1, a + to, a + from)` within one buffer, as `erase`
   * uses it: the slots `(from, to)` move one place left, the slot `to - 1`
   * keeps its (moved-from) value and the rest of the buffer is untouched.
   */
  method MoveLeft(a: array<int>, from: nat, to: nat)
    requires from < to <= a.Length
    modifies a
    ensures a[..from] == old(a[..from])
    ensures a[from..to - 1] == old(a[from + 1..to])
    ensures a[to - 1..] == old(a[to - 1..])
  {
    var i := from;
    while i < to - 1
      invariant from <= i <= to - 1
      invariant forall k :: from <= k < i ==> a[k] == old(a[k + 1])
      invariant forall k :: 0 <= k < a.Length && !(from <= k < i) ==> a[k] == old(a[k])
    {
      a[i] := a[i + 1];
      i := i + 1;
    }
  }

  /**
   * `std::move_backward(a + from, a + to, a + to + 1)` within one buffer, as
   * the non-reallocating `insert` uses it: the slots `[from, to)` move one
   * place right, copying from the back so that nothing is overwritten before
   * it is read; the slot `from` keeps its (moved-from) value.
   */
  method MoveBackward(a: array<int>, from: nat, to: nat)
    requires from <= to < a.Length
    modifies a
    ensures a[..from + 1] == old(a[..from + 1])
    ensures a[from + 1..to + 1] == old(a[from..to])
    ensures a[to + 1..] == old(a[to + 1..])
  {
    var i := to;
    while i > from
      invariant from <= i <= to
      invariant forall k :: i < k <= to ==> a[k] == old(a[k - 1])
      invariant forall k :: 0 <= k < a.Length && !(i < k <= to) ==> a[k] == old(a[k])
    {
      a[i] := a[i - 1];
      i := i - 1;
    }
  }
}
