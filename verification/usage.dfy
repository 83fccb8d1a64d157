/**
 * Client code written against the contracts alone: the scenarios of the
 * repository's test driver (tests.h), stated as assertions that follow
 * from the specifications of SimpleVector and the comparison operators.
 */
module Usage {
  import opened Algorithms
  import opened SimpleVectors
  import opened Comparison

  method InitializationScenarios()
  {
    var e := new SimpleVector();
    assert e.Size() == 0 && e.Empty() && e.Capacity() == 0;
    assert !e.items.IsAllocated();

    var z := new SimpleVector.WithSize(5);
    assert z.Size() == 5 && z.Capacity() == 5 && !z.Empty();
    assert forall i :: 0 <= i < 5 ==> z.Get(i) == 0;

    var f := new SimpleVector.Filled(10, 42);
    assert forall i :: 0 <= i < 10 ==> f.Get(i) == 42;
    assert f.items.IsAllocated() && f.Get(0) == 42;

    var l := new SimpleVector.FromList([1, 2, 3]);
    assert l.Size() == 3 && l.Capacity() == 3 && l.Get(2) == 3;
  }

  method AccessAndResizeScenarios()
  {
    var v := new SimpleVector.WithSize(3);
    assert v.At(2) == Ok(v.Get(2));
    assert v.At(3) == Err(OutOfRange);

    v.Set(2, 17);
    v.Resize(7);
    assert v.Size() == 7 && v.Capacity() >= v.Size();
    assert v.Get(2) == 17 && v.Get(3) == 0;
  }

  method ShrinkScenarios()
  {
    var w := new SimpleVector.WithSize(3);
    w.Set(0, 42);
    w.Set(1, 55);
    var capacity := w.Capacity();
    w.Resize(2);
    assert w.Size() == 2 && w.Capacity() == capacity;
    assert w.Get(0) == 42 && w.Get(1) == 55;
  }

  method RegrowScenario()
  {
    var u := new SimpleVector.WithSize(3);
    u.Resize(8);
    u.Set(3, 42);
    u.Resize(3);
    u.Resize(5);
    assert u.Get(3) == 0;
  }

  method GrowthScenarios()
  {
    var v := new SimpleVector.WithSize(2);
    v.Resize(1);
    var capacity := v.Capacity();
    v.PushBack(123);
    assert v.Size() == 2 && v.Capacity() == capacity;

    var r := new SimpleVector.Reserved(Reserve(5));
    assert r.Capacity() == 5 && r.Empty();
  }

  method InsertEraseScenarios()
  {
    var v := new SimpleVector.FromList([1, 2, 3, 4]);
    var i := v.Insert(2, 42);
    assert Equal(v.Elems(), [1, 2, 42, 3, 4]) && i == 2;

    var u := new SimpleVector.FromList([1, 2, 3, 4]);
    var j := u.Erase(2);
    assert Equal(u.Elems(), [1, 2, 4]) && j == 2;

    var w := new SimpleVector.FromList([0, 1, 2, 3]);
    var capacity, storage := w.Capacity(), w.items.Get();
    w.PopBack();
    assert w.Capacity() == capacity && w.items.Get() == storage;
    assert Equal(w.Elems(), [0, 1, 2]);
  }

  /** Inserting a copy of one of the vector's own elements, with a spare slot. */
  method InsertOwnElementScenario()
  {
    var v := new SimpleVector.FromList([1, 2, 3]);
    v.Reserve(4);
    var i := v.InsertOwnElementAsWritten(0, 1);
    assert v.Elems() == [1, 1, 2, 3];

    var w := new SimpleVector.FromList([1, 2, 3]);
    w.Reserve(4);
    var j := w.InsertOwnElement(0, 1);
    assert w.Elems() == [2, 1, 2, 3];
  }

  method ClearScenario()
  {
    var v := new SimpleVector.WithSize(10);
    var capacity := v.Capacity();
    v.Clear();
    assert v.Size() == 0 && v.Capacity() == capacity;
  }

  method PushBackScenario()
  {
    var v := new SimpleVector.WithSize(1);
    v.PushBack(42);
    assert v.Size() == 2 && v.Capacity() >= v.Size();
    assert v.Get(0) == 0 && v.Get(1) == 42;
  }

  /** `reserve(5)`, a `reserve(1)` that changes nothing, ten appends, then `reserve(100)`. */
  method ReserveAndAppendScenario()
  {
    var v := new SimpleVector();
    v.Reserve(5);
    assert v.Capacity() == 5 && v.Empty();
    v.Reserve(1);
    assert v.Capacity() == 5;
    for i := 0 to 10
      invariant v.Valid() && fresh(v.items) && v.items.raw != null && fresh(v.items.raw)
      invariant v.Elems() == seq(i, k => k)
      invariant v.capacity == if i <= 5 then 5 else 10
    {
      v.PushBack(i);
    }
    assert v.Size() == 10;
    v.Reserve(100);
    assert v.Size() == 10 && v.Capacity() == 100;
    assert forall i :: 0 <= i < 10 ==> v.Get(i) == i;
  }

  method CopyScenario()
  {
    var numbers := new SimpleVector.FromList([1, 2]);
    var copy := new SimpleVector.Copy(numbers);
    assert copy.items.Get() != numbers.items.Get();
    assert Equal(copy.Elems(), numbers.Elems());
  }

  method SwapScenario()
  {
    var v1 := new SimpleVector.FromList([42, 666]);
    var v2 := new SimpleVector();
    v2.PushBack(0);
    v2.PushBack(1);
    v2.PushBack(2);
    var storage1, storage2 := v1.items.Get(), v2.items.Get();
    var capacity1, capacity2 := v1.Capacity(), v2.Capacity();
    v1.Swap(v2);
    assert v1.items.Get() == storage2 && v2.items.Get() == storage1;
    assert v1.Size() == 3 && v2.Size() == 2;
    assert v1.Capacity() == capacity2 && v2.Capacity() == capacity1;
    assert v1.Elems() == [0, 1, 2] && v2.Elems() == [42, 666];
  }

  method AssignAndMoveScenario()
  {
    var src := new SimpleVector.FromList([1, 2, 3, 4]);
    var dst := new SimpleVector.FromList([1, 2, 3, 4, 5, 6]);
    dst.CopyAssign(src);
    assert Equal(dst.Elems(), src.Elems());

    var moved := new SimpleVector.Move(src);
    assert moved.Size() == 4 && src.Size() == 0;
  }

  method ComparisonScenarios()
  {
    assert Equal([1, 2, 3], [1, 2, 3]);
    assert NotEqual([1, 2, 3], [1, 2, 2]);
    assert Less([1, 2, 3], [1, 2, 3, 1]);
    assert Greater([1, 2, 3], [1, 2, 2, 1]);
    assert GreaterOrEqual([1, 2, 3], [1, 2, 3]);
    assert GreaterOrEqual([1, 2, 4], [1, 2, 3]);
    assert LessOrEqual([1, 2, 3], [1, 2, 3]);
    assert LessOrEqual([1, 2, 3], [1, 2, 4]);
  }
}
