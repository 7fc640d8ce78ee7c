/**
 The range iterator of an ArrayVec. Two cursors, `head` and `tail`, bound the part of the
 drained range not yet yielded; `next` takes from the front, `next_back` from the back.
 The iterator only reads slots and moves its cursors: it never changes the vector.
 */
module Drains {
  import opened ArrayVecs

  /** `s` in reverse order. */
  ghost function Reverse<T>(s: seq<T>): (r: seq<T>)
    ensures |r| == |s|
    ensures forall i :: 0 <= i < |s| ==> r[i] == s[|s| - 1 - i]
  {
    if s == [] then [] else Reverse(s[1..]) + [s[0]]
  }

  class Drain<T> {
    /** The exclusively borrowed vector. */
    const inner: ArrayVec<T>
    /** The first index after the drained range. */
    const startOfTail: nat
    /** Recorded at creation as the vector's length minus the size of the drained range. */
    const tailLength: nat
    /** The front of the part of the range still to be yielded. */
    var head: nat
    /** One past the back of the part of the range still to be yielded. */
    var tail: nat
    /** The first index of the drained range. */
    ghost const start: nat
    /** The values `Next` has yielded, in the order it yielded them. */
    ghost var Front: seq<T>
    /** The values `NextBack` has yielded, in the order it yielded them. */
    ghost var Back: seq<T>

    /** The cursors stay inside the range, in order, and what was yielded is exactly what
        the cursors have passed over. */
    ghost predicate Valid()
      reads this, inner, inner.items
    {
      && inner.Valid()
      && start <= head <= tail <= startOfTail <= inner.length
      && tailLength == inner.length - (startOfTail - start)
      && Front == inner.AsSlice()[start..head]
      && Reverse(Back) == inner.AsSlice()[tail..startOfTail]
    }

    /** `with_range`: the range must satisfy start <= end <= vector length (debug assertions
        of `with_range`). Both cursors start at the ends of the range. */
    constructor WithRange(vector: ArrayVec<T>, start: nat, end: nat)
      requires vector.Valid() && start <= end <= vector.Len()
      ensures Valid() && inner == vector && this.start == start
      ensures head == start && tail == end && startOfTail == end
      ensures tailLength == vector.Len() - (end - start)
      ensures Front == [] && Back == []
    {
      inner := vector;
      startOfTail := end;
      tailLength := vector.Len() - (end - start);
      head := start;
      tail := end;
      this.start := start;
      Front := [];
      Back := [];
    }

    /** `ExactSizeIterator::len`: how many values are still to come, the size of the range
        less what both ends have yielded so far. */
    function Len(): (r: nat)
      reads this, inner, inner.items
      requires Valid()
      ensures r == (startOfTail - start) - |Front| - |Back|
      ensures r == 0 <==> head == tail
    {
      tail - head
    }

    /** `size_hint`: an exact bound, the remaining count both below and above. */
    function SizeHint(): (r: (nat, Option<nat>))
      reads this, inner, inner.items
      requires Valid()
      ensures r.1 == Some(r.0)
      ensures r.0 + |Front| + |Back| == startOfTail - start
    {
      (Len(), Some(Len()))
    }

    /** `Iterator::next`: nothing once the cursors meet; otherwise the value at `head`,
        after which `head` moves up one. */
    method Next() returns (r: Option<T>)
      requires Valid()
      modifies this`head, this`Front
      ensures Valid() && tail == old(tail)
      ensures inner.length == old(inner.length) && inner.items[..] == old(inner.items[..])
      ensures old(head) == old(tail) ==> r == None && head == old(head)
      ensures old(head) != old(tail) ==> r == Some(inner.AsSlice()[old(head)]) && head == old(head) + 1
      ensures old(head) != old(tail) ==> Len() == old(Len()) - 1
      ensures r.Some? ==> Front == old(Front) + [r.value]
    {
      if head == tail {
        return None;
      }
      assert inner.items[..inner.length][head].Some?;
      var item := inner.items[head].value;
      head := head + 1;
      Front := Front + [item];
      r := Some(item);
    }

    /** `DoubleEndedIterator::next_back`: nothing once the cursors meet; otherwise `tail`
        moves down one and the value now under it is returned. */
    method NextBack() returns (r: Option<T>)
      requires Valid()
      modifies this`tail, this`Back
      ensures Valid() && head == old(head)
      ensures inner.length == old(inner.length) && inner.items[..] == old(inner.items[..])
      ensures old(head) == old(tail) ==> r == None && tail == old(tail)
      ensures old(head) != old(tail) ==> tail == old(tail) - 1 && r == Some(inner.AsSlice()[tail])
      ensures old(head) != old(tail) ==> Len() == old(Len()) - 1
      ensures r.Some? ==> Back == old(Back) + [r.value]
    {
      if head == tail {
        return None;
      }
      tail := tail - 1;
      assert inner.items[..inner.length][tail].Some?;
      var item := inner.items[tail].value;
      ghost var s := inner.AsSlice();
      assert Reverse(Back + [item]) == [item] + Reverse(Back);
      assert s[tail..startOfTail] == [item] + s[tail + 1..startOfTail];
      Back := Back + [item];
      r := Some(item);
    }
  }

  /** Once the cursors have met, the forward yields followed by the backward yields in
      reverse are exactly the drained range, and together they number its size. */
  lemma Exhausted<T>(d: Drain<T>)
    requires d.Valid() && d.head == d.tail
    ensures d.Front + Reverse(d.Back) == d.inner.AsSlice()[d.start..d.startOfTail]
    ensures |d.Front| + |d.Back| == d.startOfTail - d.start
  {
  }

  /** `ArrayVec::drain`: a drain over `start..end` of `v`. */
  method DrainOf<T>(v: ArrayVec<T>, start: nat, end: nat) returns (d: Drain<T>)
    requires v.Valid() && start <= end <= v.Len()
    ensures fresh(d) && d.Valid() && d.inner == v && d.start == start
    ensures d.head == start && d.tail == end && d.startOfTail == end
    ensures d.Front == [] && d.Back == []
  {
    d := new Drain.WithRange(v, start, end);
  }

  /** `FusedIterator`: once the cursors have met, either end keeps returning nothing and
      neither cursor moves. */
  method Fused<T>(d: Drain<T>) returns (front: Option<T>, back: Option<T>)
    requires d.Valid() && d.head == d.tail
    modifies d
    ensures d.Valid() && front == None && back == None
    ensures d.head == old(d.head) && d.tail == old(d.tail)
  {
    front := d.Next();
    back := d.NextBack();
  }
}
