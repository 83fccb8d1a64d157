# SimpleVector in Dafny

A model of a small C++ container library. It has two layers:

- `ArrayPtr` (array_ptr.h) is a move-only owner of one heap block of element slots. It may also hold no block.
- `SimpleVector` (simple_vector.h) is a growable array over that buffer. It tracks `size` (live elements, the slots `[0, size)`) and `capacity` (allocated slots).

The vector offers these operations:

- constructors: default, sized, sized-and-filled, initializer list, reservation hint (`Reserve(k)`), copy and move
- copy and move assignment
- `push_back`, `insert`, `erase`, `pop_back`, `clear` and `swap`
- `reserve` and `resize`, with doubling growth
- unchecked `operator[]` and checked `at`
- the six comparison operators

Files:

- `array_ptr.dfy`, module `ArrayPtrs`: class `ArrayPtr`. Its one field, `raw: array?<int>`, is the handle, and `null` means no block.
- `algorithms.dfy`, module `Algorithms`: the element loops the vector runs through `std::fill`/`std::generate`, `std::copy`/`std::move` into another buffer, the left shift of `erase` and the `std::move_backward` of `insert`. Each is a method over arrays whose `ensures` describes the written buffer afterwards region by region. `Fill`, `MoveLeft` and `MoveBackward` work in place on one buffer; `CopyList` and `MoveInto` read from a list or a different buffer and write into the destination.
- `simple_vector.dfy`, module `SimpleVectors`: class `SimpleVector` with fields `size`, `capacity` and the owned buffer `items`.
  - `Valid()` is the object invariant. It says `size <= capacity`, that `items` holds no block exactly when `capacity == 0`, and that a held block has exactly `capacity` slots.
  - `Elems()` is the element sequence `[begin(), end())`. Every mutating method states its new `Elems()` as an equation over the old one, using `Inserted(s, p, v) == s[..p] + [v] + s[p..]` and `Erased(s, p) == s[..p] + s[p+1..]`.
  - The module also holds the growth rules and the `ReserveProxyObj` tag.
- `comparison.dfy`, module `Comparison`: the free comparison operators, stated on the element sequences of the two vectors. `<` is proved equal to an independent definition of lexicographic order, and to be irreflexive, asymmetric, transitive and total. The four derived operators are proved consistent with `==` and `<`.
- `usage.dfy`, module `Usage`: client methods that restate the `int` scenarios of the repository's tests.h (`TestInitialization` and `TestMethods`) as assertions: construction, `at`, `clear`, `resize`, null and non-null storage, `push_back`, `pop_back`, copy, comparison, `swap`, assignment, `insert`, `erase`, `Reserve(5)`, and ten appends between two `reserve` calls. They follow from the contracts alone.

Modelling choices:

- Elements are `int`, and `Type{}` is `Algorithms.Default` (0).
- An iterator `begin() + i` is the index `i`.
- The checked access `at` reports `Err(OutOfRange)` instead of throwing `std::out_of_range`.
- The `const &` and `&&` overloads of `push_back`, `insert`, `operator[]` and `at` are one operation each, because elements are plain values. `Insert` and `PushBack` take the new element by value. The one case where the reference matters, an argument that refers to one of the vector's own elements, is modelled separately (see Findings).
- Each C++ vector owns its own `ArrayPtr` subobject. In the model that is `const items: ArrayPtr`, and every constructor returns a `fresh` one. So `Swap`, `MoveAssign` and `CopyAssign` ask that the two vectors be the same object or have different `items` objects, which is always the case in the source.

## Model

| member | source | states |
|---|---|---|
| `ArrayPtrs.ArrayPtr.constructor` | array_ptr.h:8 | default construction holds no block |
| `ArrayPtrs.ArrayPtr.Allocate` | array_ptr.h:10 | holds a fresh block of exactly `n` slots iff `n > 0`, and no block when `n == 0` |
| `ArrayPtrs.ArrayPtr.Adopt` | array_ptr.h:12-13 | adopts exactly the given handle and allocates nothing |
| `ArrayPtrs.ArrayPtr.Move` | array_ptr.h:24 | takes over the source's handle and leaves the source holding none |
| `ArrayPtrs.ArrayPtr.MoveAssign` | array_ptr.h:26-29 | is a swap: this instance gets the source's handle and the source gets this one's former handle |
| `ArrayPtrs.ArrayPtr.Release` | array_ptr.h:31-33 | returns the held handle and leaves the instance holding none |
| `ArrayPtrs.ArrayPtr.Read` | array_ptr.h:40-43 | reading a slot needs a held block and an index inside it, and gives that slot's element |
| `ArrayPtrs.ArrayPtr.Write` | array_ptr.h:35-38 | writing a slot needs a held block; exactly that slot changes |
| `ArrayPtrs.ArrayPtr.Get` | array_ptr.h:49-51 | the held handle, which stays held; `operator bool` is whether it is non-null |
| `ArrayPtrs.ArrayPtr.IsAllocated` | array_ptr.h:45-51 | `operator bool` is true exactly when `get()` returns a non-null handle |
| `ArrayPtrs.ArrayPtr.Swap` | array_ptr.h:53-55 | exchanges the two handles and changes nothing else |
| `Algorithms.Fill` | simple_vector.h:228-230 | the slots `[from, to)` all hold the given value; every other slot keeps its value |
| `Algorithms.CopyList` | simple_vector.h:44-46 | the first `\|init\|` slots hold the list in order; the rest keep their values |
| `Algorithms.MoveInto` | simple_vector.h:206-208 | the source range lands, in order, at the destination offset; the destination's other slots keep their values |
| `Algorithms.MoveLeft` | simple_vector.h:87 | the slots after `from` move one place left, up to `to`; slots before `from` and from `to - 1` on keep their values |
| `Algorithms.MoveBackward` | simple_vector.h:214 | the slots `[from, to)` move one place right; the slots up to `from` and after `to` keep their values |
| `SimpleVectors.Reserve` | simple_vector.h:9-21 | the tag carries exactly the requested slot count |
| `SimpleVectors.GrownCapacity` | simple_vector.h:199-204 | `emplace`'s new capacity (1 from 0, else doubled) is `max(2 * capacity, 1)`, which is what `emplace_back` reserves, and it exceeds the old capacity |
| `SimpleVectors.ResizedCapacity` | simple_vector.h:146-148 | `resize` keeps the capacity while `n` fits, and otherwise moves to `max(n, 2 * capacity)`, which holds `n` |
| `SimpleVectors.EraseUndoesInsert` | simple_vector.h:84-98 | `erase` at `p` after `insert` of `v` at `p` restores the sequence; the inserted element sits at `p` |
| `SimpleVectors.PushBackIsInsertAtEnd` | simple_vector.h:71-77 | appending is inserting at `end()` |
| `SimpleVectors.InsertedFromRegions` | simple_vector.h:205-215 | a buffer holding the prefix, then `v`, then the tail is the inserted sequence, which is the shape both insertion paths produce |
| `SimpleVectors.SimpleVector.constructor` | simple_vector.h:30 | empty, capacity 0, no storage (`begin() == nullptr`) |
| `SimpleVectors.SimpleVector.WithSize` | simple_vector.h:32-34 | `size == capacity == n` and every element is `Type{}` |
| `SimpleVectors.SimpleVector.Filled` | simple_vector.h:36-38 | `size == capacity == n` and every element is `value` |
| `SimpleVectors.SimpleVector.Copy` | simple_vector.h:40-42 | equal elements, the source's size and capacity, fresh storage |
| `SimpleVectors.SimpleVector.FromList` | simple_vector.h:44-46 | the list's elements in order, with `size == capacity == \|init\|` |
| `SimpleVectors.SimpleVector.Reserved` | simple_vector.h:48-50 | no elements, capacity exactly the reserved count |
| `SimpleVectors.SimpleVector.Move` | simple_vector.h:52-54 | takes the source's storage, size and capacity; the source is left valid with size 0, capacity 0 and no storage |
| `SimpleVectors.SimpleVector.CopyAssign` | simple_vector.h:56-62 | the source's elements and capacity in fresh storage, source unchanged; self-assignment changes nothing |
| `SimpleVectors.SimpleVector.MoveAssign` | simple_vector.h:64-69 | exchanges storage, size and capacity with the source, so the source receives the former contents |
| `SimpleVectors.SimpleVector.PushBack` | simple_vector.h:71-77 | appends `v`; capacity is kept when there was room, otherwise it becomes `max(2 * capacity, 1)` in fresh storage |
| `SimpleVectors.SimpleVector.PopBack` | simple_vector.h:79-82 | on a non-empty vector, drops the last element; capacity and storage address stay |
| `SimpleVectors.SimpleVector.Erase` | simple_vector.h:84-90 | for `p < size`, yields `s[..p] + s[p+1..]` and returns `p`; capacity and storage stay |
| `SimpleVectors.SimpleVector.Insert` | simple_vector.h:92-98 | for `p <= size`, yields `s[..p] + [v] + s[p..]` and returns `p`; capacity is kept when there was room, else grown in fresh storage |
| `SimpleVectors.SimpleVector.Swap` | simple_vector.h:100-104 | exchanges storage, size and capacity, and with them the elements, and nothing else |
| `SimpleVectors.SimpleVector.Clear` | simple_vector.h:106-108 | no elements; capacity and storage stay |
| `SimpleVectors.SimpleVector.Size` | simple_vector.h:110-112 | the number of elements |
| `SimpleVectors.SimpleVector.Capacity` | simple_vector.h:114-116 | at least the size, and 0 exactly when no block is held |
| `SimpleVectors.SimpleVector.Empty` | simple_vector.h:118-120 | true exactly when there are no elements |
| `SimpleVectors.SimpleVector.Get` | simple_vector.h:127-130 | needs `i < size`; gives element `i` |
| `SimpleVectors.SimpleVector.Set` | simple_vector.h:122-125 | needs `i < size`; element `i` becomes `v` and nothing else changes |
| `SimpleVectors.SimpleVector.At` | simple_vector.h:139-144 | `OutOfRange` exactly when `i >= size`, otherwise element `i`, the same one `[i]` reads |
| `SimpleVectors.SimpleVector.SetAt` | simple_vector.h:132-137 | `OutOfRange` and no change exactly when `i >= size`, otherwise writes element `i` |
| `SimpleVectors.SimpleVector.Resize` | simple_vector.h:146-154 | size becomes `n`; elements below `min(n, size)` are kept and new ones are `Type{}`; capacity is kept when `n` fits, else `max(n, 2 * capacity)` in fresh storage |
| `SimpleVectors.SimpleVector.Reserve` | simple_vector.h:156-163 | for `k > capacity`, capacity becomes exactly `k` in fresh storage with size and elements kept; otherwise nothing changes |
| `SimpleVectors.SimpleVector.Emplace` | simple_vector.h:194-218 | both paths (one-pass copy into a grown buffer, and backward shift in place) give `s[..p] + [v] + s[p..]`, return `p`, and grow the capacity only when full |
| `SimpleVectors.SimpleVector.EmplaceIntoGrown` | simple_vector.h:198-211 | the full-buffer path: the prefix, `v` and the tail land in `GrownCapacity` fresh slots, giving `s[..p] + [v] + s[p..]` |
| `SimpleVectors.SimpleVector.EmplaceInPlace` | simple_vector.h:212-216 | the spare-capacity path: the backward shift and the store give `s[..p] + [v] + s[p..]` in the same storage and capacity |
| `SimpleVectors.SimpleVector.EmplaceBack` | simple_vector.h:220-226 | appends `v`, reserving `max(2 * capacity, 1)` first when full |
| `SimpleVectors.SimpleVector.FillDefault` | simple_vector.h:228-230 | the slots `[from, to)` hold `Type{}`; the other slots keep their values |
| `SimpleVectors.EraseAtEndAsWritten` | simple_vector.h:85-88 | the guard as written lets through `p == size`, which names no element, and for that position the shift's range `[p + 1, size)` is reversed; on an empty vector the 64-bit decrement then wraps the size to 2^64 - 1, above the capacity |
| `SimpleVectors.SimpleVector.InsertOwnElementAsWritten` | simple_vector.h:92-94 | `insert(begin() + p, (*this)[j])` as written: a full buffer inserts the former element `j`; with spare capacity it inserts what slot `j` holds after the backward shift |
| `SimpleVectors.InsertOwnElementAsWrittenDiffers` | simple_vector.h:212-216 | for `p < j`, the value stored at `p` is the former element `j - 1`, and the result equals the intended one exactly when elements `j - 1` and `j` are equal |
| `SimpleVectors.SimpleVector.InsertOwnElement` | simple_vector.h:92-94 | inserting a copy of own element `j` at `p` gives `s[..p] + [s[j]] + s[p..]` on both paths |
| `SimpleVectors.SimpleVector.PushBackOwnElement` | simple_vector.h:71-73 | appending a copy of own element `j` gives `s + [s[j]]` whether or not the buffer is replaced |
| `Comparison.Equal` | simple_vector.h:233-236 | `==` holds iff the lengths are equal and the elements agree index by index |
| `Comparison.NotEqual` | simple_vector.h:238-241 | `!=` holds iff the sequences differ |
| `Comparison.Less` | simple_vector.h:243-246 | the `std::lexicographical_compare` recursion (end of `rhs` first, then end of `lhs`, then the two elements); a proper prefix is less; characterised by `LessIffFirstDifference` |
| `Comparison.LessIffFirstDifference` | simple_vector.h:243-246 | `<` holds iff at the first differing position the left element is smaller, or the left sequence is a proper prefix |
| `Comparison.LessIrreflexive` | simple_vector.h:243-246 | no vector is less than itself |
| `Comparison.LessAsymmetric` | simple_vector.h:243-246 | `<` never holds in both directions |
| `Comparison.LessTransitive` | simple_vector.h:243-246 | `<` is transitive |
| `Comparison.LessTrichotomy` | simple_vector.h:243-246 | any two vectors are equal or ordered one way |
| `Comparison.LessOrEqual` | simple_vector.h:248-251 | `a <= b` (written `!(b < a)`) holds iff `a < b` or `a == b` |
| `Comparison.Greater` | simple_vector.h:253-256 | `a > b` (written `b < a`) holds iff neither `a < b` nor `a == b` |
| `Comparison.GreaterOrEqual` | simple_vector.h:258-261 | `a >= b` (written `b <= a`) holds iff `b < a` or `a == b`, that is iff not `a < b` |
| `Comparison.EqualIffNeitherLess` | simple_vector.h:233-261 | `==` agrees with the derived operators: equal iff both `<=` and `>=` |

## Findings

| source | as written | input that shows it | evidently intended | confidence | as-written member | corrected member |
|---|---|---|---|---|---|---|
| simple_vector.h:85 | `erase` asserts `pos >= cbegin() && pos <= cend()`, so it admits `pos == cend()`. The body then moves the range `[begin() + size + 1, end())`, which is reversed, and decrements `size_` | `erase(cbegin())` on an empty vector passes the assertion. The first undefined step is then the `std::move` over a reversed range; if that leaves the buffer alone, `--size_` wraps to 2^64 - 1 | `pos < cend()`, so that `pos` names an element | not executed; high | `SimpleVectors.EraseAtEndAsWritten` | `SimpleVectors.SimpleVector.Erase`, which requires `p < size` and gives `s[..p] + s[p+1..]` |
| simple_vector.h:92-94, 212-216 | `insert` takes the element by `const Type&` and `emplace` reads that reference only after `std::move_backward` has shifted the tail | `{1, 2, 3}` with capacity 4 and `insert(begin(), v[1])` reads slot 1 after the shift and gives `{1, 1, 2, 3}` | the copy of the referenced element, `{2, 1, 2, 3}`, as the standard containers promise | not executed; high | `SimpleVectors.SimpleVector.InsertOwnElementAsWritten`, with `SimpleVectors.InsertOwnElementAsWrittenDiffers` | `SimpleVectors.SimpleVector.InsertOwnElement`, which copies the element before anything moves |

## Left out

- The `ArrayPtr` destructor and `delete[]`: memory is garbage-collected here, so releasing a block is not modelled.
- Allocation failure (`std::bad_alloc` from `new`): allocation always succeeds. So the strong guarantee of copy-and-swap assignment is not modelled beyond the fact that the copy is built before the swap.
- `ArrayPtrs.ArrayPtr.Allocate`: promises nothing about the contents of a new block. C++ leaves new `int` slots uninitialised. The vector always writes a slot before the slot becomes an element.
- Element types other than `int`, and element move semantics (a moved-from element being reset). Elements are plain values, so a moved-from slot keeps its value.
- The iterator accessors `begin`, `end`, `cbegin`, `cend` and pointer arithmetic: positions are indices. That default storage is null is stated by the default constructor's contract.
- `size_t` wrap-around of `capacity_ * 2` in `resize`, `emplace` and `emplace_back`: sizes and capacities are unbounded `nat`. Only the `erase` finding spells out the 64-bit decrement.
- Constant-time bounds for `swap` and amortised O(1) `push_back`: complexity is not modelled.
- `SimpleVectors.SimpleVector.Insert` and `SimpleVectors.SimpleVector.PushBack` take the element by value, so they do not show what the source does with a reference into the vector's own buffer. For `insert` that case is the second finding. For `push_back((*this)[j])` on a full vector, the source reads the reference at simple_vector.h:225 after `reserve` has swapped the buffers and freed the old block at array_ptr.h:18. That read is undefined, and blocks are never freed here, so it is not modelled. `PushBackOwnElement` gives the intended result.
- tests.h and main.cpp: the test driver and console output are not part of this model. The `int` scenarios of `TestInitialization` and `TestMethods` are restated as assertions in `usage.dfy`. The `std::iota` helper `GenerateVector`, the tests on the move-only element type `X`, and the `static_assert` on `noexcept` are not restated.
