/**
 The usage examples of the ArrayVec documentation, and the round trips between its
 operations, as client code that relies on the contracts alone.
 */
module DocTests {
  import opened ArrayVecs
  import opened Drains

  /** `push` onto an empty vector of capacity 5 gives length 1 and element 42. */
  method PushExample() returns (wasEmpty: bool, len: nat, first: int)
    ensures wasEmpty && len == 1 && first == 42
  {
    var v := new ArrayVec<int>(5);
    wasEmpty := v.IsEmpty();
    v.Push(42);
    len := v.Len();
    first := v.AsSlice()[0];
  }

  /** Capacity 2: pushing 1 and 2 fills it, and pushing 42 hands 42 back, contents intact. */
  method TryPushExample() returns (first: Result<(), CapacityError<int>>, second: Result<(), CapacityError<int>>,
                                   full: bool, third: Result<(), CapacityError<int>>, contents: seq<int>)
    ensures first == Ok(()) && second == Ok(()) && full
    ensures third == Err(CapacityError(42)) && contents == [1, 2]
  {
    var v := new ArrayVec<int>(2);
    first := v.TryPush(1);
    second := v.TryPush(2);
    full := v.IsFull();
    third := v.TryPush(42);
    contents := v.AsSlice();
  }

  /** Pushing 12 and 34, then popping, gives 34 and leaves one element. */
  method PopExample() returns (before: nat, got: Option<int>, after: nat)
    ensures before == 2 && got == Some(34) && after == 1
  {
    var v := new ArrayVec<int>(5);
    v.Push(12);
    v.Push(34);
    before := v.Len();
    got := v.Pop();
    after := v.Len();
  }

  /** Inserting 56 at index 1 of [12, 34] gives [12, 56, 34]. */
  method TryInsertExample() returns (r: Result<(), CapacityError<int>>, contents: seq<int>)
    ensures r == Ok(()) && contents == [12, 56, 34]
  {
    var v := new ArrayVec<int>(5);
    v.Push(12);
    v.Push(34);
    r := v.TryInsert(1, 56);
    contents := v.AsSlice();
  }

  /** A vector built from [1, 2, 3] is full; inserting 7 hands 7 back and changes nothing. */
  method TryInsertFullExample() returns (full: bool, got: Result<(), CapacityError<int>>, contents: seq<int>)
    ensures full && got == Err(CapacityError(7)) && contents == [1, 2, 3]
  {
    var v := ArrayVec.From([1, 2, 3]);
    full := v.IsFull();
    got := v.TryInsert(1, 7);
    contents := v.AsSlice();
  }

  /** Three values pushed are not destructed while the vector lives, and are destructed
      exactly once each when it is dropped. */
  method DropExample() returns (ghost before: seq<int>, ghost after: seq<int>)
    ensures before == [] && after == [1, 2, 3]
  {
    var v := new ArrayVec<int>(5);
    v.Push(1);
    v.Push(2);
    v.Push(3);
    before := v.Dropped;
    v.Drop();
    after := v.Dropped;
  }

  /** A push followed by a pop returns the pushed value and restores the contents. */
  method PushThenPop<T>(v: ArrayVec<T>, x: T) returns (r: Option<T>)
    requires v.Valid() && !v.IsFull()
    modifies v`length, v.items
    ensures v.Valid() && r == Some(x) && v.AsSlice() == old(v.AsSlice())
  {
    v.Push(x);
    r := v.Pop();
  }

  /** Truncating twice to the same length is the same as truncating once. */
  method TruncateTwice<T>(v: ArrayVec<T>, n: nat) returns (once: seq<T>, twice: seq<T>)
    requires v.Valid()
    modifies v`length, v`Dropped
    ensures once == twice && |once| <= n
    ensures once == if n < |old(v.AsSlice())| then old(v.AsSlice())[..n] else old(v.AsSlice())
  {
    v.Truncate(n);
    once := v.AsSlice();
    v.Truncate(n);
    twice := v.AsSlice();
  }

  /** A clone compares equal to its original, with element equality as Dafny's `==` and an
      element's clone as the element itself. */
  method CloneIsEqual<T(==)>(v: ArrayVec<T>) returns (c: ArrayVec<T>, eq: bool)
    requires v.Valid()
    ensures fresh(c) && c.Valid() && eq
  {
    c := v.Clone();
    eq := Equal(v, c);
  }

  /** Draining 1..3 of [10, 20, 30, 40, 50] yields 20 then 30; the drain's records are
      tail_length 3 and start_of_tail 3; and, since nothing compacts the vector afterwards,
      it still holds all five values. */
  method DrainExample() returns (a: Option<int>, b: Option<int>, c: Option<int>,
                                 tailLength: nat, startOfTail: nat, contents: seq<int>)
    ensures a == Some(20) && b == Some(30) && c == None
    ensures tailLength == 3 && startOfTail == 3
    ensures contents == [10, 20, 30, 40, 50]
  {
    var v := ArrayVec.From([10, 20, 30, 40, 50]);
    var d := DrainOf(v, 1, 3);
    tailLength, startOfTail := d.tailLength, d.startOfTail;
    a := d.Next();
    b := d.Next();
    c := d.NextBack();
    contents := v.AsSlice();
  }

  /** Values read out by a drain stay in live slots, so dropping the vector afterwards
      destructs them as well: 20 and 30 end up both with the caller and in `Dropped`. */
  method DrainThenDrop() returns (a: Option<int>, b: Option<int>, ghost dropped: seq<int>)
    ensures a == Some(20) && b == Some(30)
    ensures dropped == [10, 20, 30, 40, 50]
  {
    var v := ArrayVec.From([10, 20, 30, 40, 50]);
    var d := DrainOf(v, 1, 3);
    a := d.Next();
    b := d.Next();
    v.Drop();
    dropped := v.Dropped;
  }

  /** Consumed from the back, the same drain yields 30 then 20. */
  method DrainBackExample() returns (a: Option<int>, b: Option<int>, left: nat)
    ensures a == Some(30) && b == Some(20) && left == 0
  {
    var v := ArrayVec.From([10, 20, 30, 40, 50]);
    var d := DrainOf(v, 1, 3);
    a := d.NextBack();
    b := d.NextBack();
    left := d.Len();
  }
}
