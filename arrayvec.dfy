/**
 A fixed-capacity vector backed by an array of N inline slots and a length counter.
 Only the slots [0, length) hold live values; the others are uninitialised storage.
 */
module ArrayVecs {

  datatype Option<T> = None | Some(value: T)

  datatype Result<T, E> = Ok(value: T) | Err(error: E)

  /** The error of a capacity-bounded operation: it hands the rejected payload back. */
  datatype CapacityError<T> = CapacityError(payload: T)

  /** Every slot of `s` has been written (none is uninitialised). */
  ghost predicate AllInit<T>(s: seq<Option<T>>)
  {
    forall i :: 0 <= i < |s| ==> s[i].Some?
  }

  /** The values held by a run of initialised slots. */
  function Values<T>(s: seq<Option<T>>): (r: seq<T>)
    requires AllInit(s)
    ensures |r| == |s|
    ensures forall i :: 0 <= i < |s| ==> s[i] == Some(r[i])
  {
    seq(|s|, i requires 0 <= i < |s| => s[i].value)
  }

  /** The sequence `s` with `x` placed at position `i` and everything from `i` on moved up one. */
  ghost function Inserted<T>(s: seq<T>, i: nat, x: T): (r: seq<T>)
    requires i <= |s|
    ensures |r| == |s| + 1 && r[i] == x
    ensures forall k :: 0 <= k < i ==> r[k] == s[k]
    ensures forall k :: i < k < |r| ==> r[k] == s[k - 1]
  {
    s[..i] + [x] + s[i..]
  }

  /** `s` after `count` elements starting at `src` were moved to start at `dst`, as if through
      a temporary buffer (the two ranges may overlap). */
  ghost function Moved<T>(s: seq<T>, src: nat, dst: nat, count: nat): (r: seq<T>)
    requires src + count <= |s| && dst + count <= |s|
    ensures |r| == |s|
    ensures forall k :: 0 <= k < dst ==> r[k] == s[k]
    ensures forall k :: dst <= k < dst + count ==> r[k] == s[k - dst + src]
    ensures forall k :: dst + count <= k < |s| ==> r[k] == s[k]
  {
    s[..dst] + s[src..src + count] + s[dst + count..]
  }

  /** The overlap-safe bulk move `ptr::copy(src, dst, count)` inside one buffer. It walks
      backwards when the destination lies above the source, forwards otherwise, so that no
      slot is overwritten before it has been read. */
  method Copy<T>(a: array<T>, src: nat, dst: nat, count: nat)
    requires src + count <= a.Length && dst + count <= a.Length
    modifies a
    ensures a[..] == Moved(old(a[..]), src, dst, count)
  {
    if src < dst {
      CopyBackward(a, src, dst, count);
    } else {
      CopyForward(a, src, dst, count);
    }
  }

  /** The moving loop for a destination above the source: the highest element goes first. */
  method CopyBackward<T>(a: array<T>, src: nat, dst: nat, count: nat)
    requires src < dst && dst + count <= a.Length
    modifies a
    ensures a[..] == Moved(old(a[..]), src, dst, count)
  {
    var i := count;
    while i > 0
      invariant 0 <= i <= count
      invariant forall k :: 0 <= k < dst + i ==> a[k] == old(a[k])
      invariant forall k :: dst + i <= k < dst + count ==> a[k] == old(a[k - dst + src])
      invariant forall k :: dst + count <= k < a.Length ==> a[k] == old(a[k])
    {
      i := i - 1;
      a[dst + i] := a[src + i];
    }
    assert a[..] == Moved(old(a[..]), src, dst, count);
  }

  /** The moving loop for a destination at or below the source: the lowest element goes first. */
  method CopyForward<T>(a: array<T>, src: nat, dst: nat, count: nat)
    requires dst <= src && src + count <= a.Length
    modifies a
    ensures a[..] == Moved(old(a[..]), src, dst, count)
  {
    var i := 0;
    while i < count
      invariant 0 <= i <= count
      invariant forall k :: 0 <= k < dst ==> a[k] == old(a[k])
      invariant forall k :: dst <= k < dst + i ==> a[k] == old(a[k - dst + src])
      invariant forall k :: dst + i <= k < a.Length ==> a[k] == old(a[k])
    {
      a[dst + i] := a[src + i];
      i := i + 1;
    }
    assert a[..] == Moved(old(a[..]), src, dst, count);
  }

  /** `ptr::copy_nonoverlapping` from a separate buffer `src` into the slots of `dst` starting
      at `at`: each copied value initialises the slot it lands in. */
  method CopyNonoverlapping<T>(src: seq<T>, dst: array<Option<T>>, at: nat)
    requires at + |src| <= dst.Length
    modifies dst
    ensures forall k :: 0 <= k < at ==> dst[k] == old(dst[k])
    ensures forall k :: at <= k < at + |src| ==> dst[k] == Some(src[k - at])
    ensures forall k :: at + |src| <= k < dst.Length ==> dst[k] == old(dst[k])
  {
    var i := 0;
    while i < |src|
      invariant 0 <= i <= |src|
      invariant forall k :: 0 <= k < at ==> dst[k] == old(dst[k])
      invariant forall k :: at <= k < at + i ==> dst[k] == Some(src[k - at])
      invariant forall k :: at + i <= k < dst.Length ==> dst[k] == old(dst[k])
    {
      dst[at + i] := Some(src[i]);
      i := i + 1;
    }
  }

  /** Slots after the shift-and-write of `try_insert` hold the inserted sequence of values. */
  lemma InsertedSlots<T>(before: seq<Option<T>>, after: seq<Option<T>>, len: nat, index: nat, item: T)
    requires index <= len < |before| && AllInit(before[..len])
    requires after == Moved(before, index, index + 1, len - index)[index := Some(item)]
    ensures AllInit(after[..len + 1])
    ensures Values(after[..len + 1]) == Inserted(Values(before[..len]), index, item)
  {
    ghost var vals := Values(before[..len]);
    forall k | 0 <= k < len + 1
      ensures after[k] == Some(Inserted(vals, index, item)[k])
    {
      if k < index {
        assert after[k] == before[k] == before[..len][k];
      } else if k > index {
        assert after[k] == before[k - 1] == before[..len][k - 1];
      }
    }
    assert AllInit(after[..len + 1]);
  }

  class ArrayVec<T> {
    /** The capacity, fixed when the vector is created (the const generic N). */
    const N: nat
    /** The N inline slots; `None` is a slot that was never written. */
    const items: array<Option<T>>
    /** How many leading slots are live. */
    var length: nat
    /** Every value the vector has destructed in place, oldest first. */
    ghost var Dropped: seq<T>

    /** The vector's invariant: N slots, length at most N, and the live prefix initialised. */
    ghost predicate Valid()
      reads this, items
    {
      items.Length == N && length <= N && AllInit(items[..length])
    }

    /** The slice view `as_slice`/`Deref`: exactly the values in the live slots. */
    function AsSlice(): (s: seq<T>)
      reads this, items
      requires Valid()
      ensures |s| == length
      ensures forall i :: 0 <= i < length ==> items[i] == Some(s[i])
    {
      Values(items[..length])
    }

    function Len(): (r: nat)
      reads this, items
      requires Valid()
      ensures r == |AsSlice()|
    {
      length
    }

    function IsEmpty(): (r: bool)
      reads this, items
      requires Valid()
      ensures r <==> AsSlice() == []
    {
      Len() == 0
    }

    function Capacity(): (r: nat)
      reads this, items
      requires Valid()
      ensures r == items.Length && Len() <= r
    {
      N
    }

    function RemainingCapacity(): (r: nat)
      reads this, items
      requires Valid()
      ensures r + Len() == Capacity()
    {
      Capacity() - Len()
    }

    function IsFull(): (r: bool)
      reads this, items
      requires Valid()
      ensures r <==> RemainingCapacity() == 0
      ensures r <==> Len() == Capacity()
    {
      Len() >= Capacity()
    }

    /** `new`: an empty vector of capacity `n`; no slot is written. */
    constructor (n: nat)
      ensures Valid() && fresh(items)
      ensures N == n && AsSlice() == [] && Dropped == []
      ensures forall i :: 0 <= i < n ==> items[i] == None
    {
      N := n;
      items := new Option<T>[n](_ => None);
      length := 0;
      Dropped := [];
    }

    /** `set_len`: changes only the length; the caller answers for the slots it exposes. */
    method SetLen(newLength: nat)
      requires items.Length == N && newLength <= N
      modifies this`length
      ensures length == newLength
    {
      length := newLength;
    }

    /** `push_unchecked`: writes slot `length`, then extends the length over it. */
    method PushUnchecked(item: T)
      requires Valid() && !IsFull()
      modifies this`length, items
      ensures Valid()
      ensures AsSlice() == old(AsSlice()) + [item]
      ensures forall k :: 0 <= k < N && k != old(length) ==> items[k] == old(items[k])
    {
      var len := Len();
      items[len] := Some(item);
      SetLen(len + 1);
      assert AsSlice() == old(AsSlice()) + [item];
    }

    /** `try_push`: appends, or hands the item back when the vector is full. */
    method TryPush(item: T) returns (r: Result<(), CapacityError<T>>)
      requires Valid()
      modifies this`length, items
      ensures Valid()
      ensures old(IsFull()) ==> r == Err(CapacityError(item)) && length == old(length) && items[..] == old(items[..])
      ensures !old(IsFull()) ==> r == Ok(()) && AsSlice() == old(AsSlice()) + [item]
    {
      if IsFull() {
        return Err(CapacityError(item));
      }
      PushUnchecked(item);
      r := Ok(());
    }

    /** `push`: the panicking wrapper of `try_push`; a full vector is a caller error. */
    method Push(item: T)
      requires Valid() && !IsFull()
      modifies this`length, items
      ensures Valid()
      ensures AsSlice() == old(AsSlice()) + [item]
    {
      var _ := TryPush(item);
    }

    /** `pop`: shortens the length by one and moves the value out of the excluded slot. */
    method Pop() returns (r: Option<T>)
      requires Valid()
      modifies this`length
      ensures Valid()
      ensures old(length) == 0 ==> r == None && length == 0
      ensures old(length) > 0 ==> r == Some(old(AsSlice())[old(length) - 1])
      ensures old(length) > 0 ==> AsSlice() == old(AsSlice())[..old(length) - 1]
    {
      if IsEmpty() {
        return None;
      }
      var newLength := Len() - 1;
      assert items[..length][newLength].Some?;
      SetLen(newLength);
      r := Some(items[newLength].value);
      assert AsSlice() == old(AsSlice())[..newLength];
    }

    /** `truncate`: keeps the first `newLength` values and destructs the rest; a no-op when
        `newLength` is not below the length. */
    method Truncate(newLength: nat)
      requires Valid()
      modifies this`length, this`Dropped
      ensures Valid()
      ensures newLength < old(length) ==> AsSlice() == old(AsSlice())[..newLength]
      ensures newLength < old(length) ==> Dropped == old(Dropped) + old(AsSlice())[newLength..]
      ensures newLength >= old(length) ==> length == old(length) && Dropped == old(Dropped)
    {
      if newLength < Len() {
        ghost var tail := AsSlice()[newLength..];
        SetLen(newLength);
        assert AsSlice() == old(AsSlice())[..newLength];
        Dropped := Dropped + tail;
      }
    }

    /** `clear`: truncates to nothing. */
    method Clear()
      requires Valid()
      modifies this`length, this`Dropped
      ensures Valid()
      ensures AsSlice() == [] && Dropped == old(Dropped) + old(AsSlice())
    {
      Truncate(0);
    }

    /** `Drop for ArrayVec`: destructs every live value exactly once, by clearing. */
    method Drop()
      requires Valid()
      modifies this`length, this`Dropped
      ensures Valid()
      ensures length == 0 && Dropped == old(Dropped) + old(AsSlice())
    {
      Clear();
    }

    /** `try_insert`: an index past the length is a panic (hence the precondition); a full
        vector hands the item back; otherwise slots [index, length) move up one and the item
        goes into slot `index`. */
    method TryInsert(index: nat, item: T) returns (r: Result<(), CapacityError<T>>)
      requires Valid() && index <= Len()
      modifies this`length, items
      ensures Valid()
      ensures old(IsFull()) ==> r == Err(CapacityError(item)) && length == old(length) && items[..] == old(items[..])
      ensures !old(IsFull()) ==> r == Ok(()) && AsSlice() == Inserted(old(AsSlice()), index, item)
    {
      var len := Len();
      if IsFull() {
        return Err(CapacityError(item));
      }
      ghost var before := items[..];
      Copy(items, index, index + 1, len - index);
      ghost var moved := items[..];
      items[index] := Some(item);
      assert items[..] == moved[index := Some(item)];
      InsertedSlots(before, items[..], len, index, item);
      SetLen(len + 1);
      r := Ok(());
      assert items[..length] == items[..][..len + 1];
    }

    /** `insert`: the panicking wrapper of `try_insert`. */
    method Insert(index: nat, item: T)
      requires Valid() && index <= Len() && !IsFull()
      modifies this`length, items
      ensures Valid()
      ensures AsSlice() == Inserted(old(AsSlice()), index, item)
    {
      var _ := TryInsert(index, item);
    }

    /** `try_extend_from_slice`: all or nothing. Either every value of `other` is appended, or
        none is and the error carries no payload. */
    method TryExtendFromSlice(other: seq<T>) returns (r: Result<(), CapacityError<()>>)
      requires Valid()
      modifies this`length, items
      ensures Valid()
      ensures old(RemainingCapacity()) < |other| ==> r == Err(CapacityError(())) && length == old(length) && items[..] == old(items[..])
      ensures old(RemainingCapacity()) >= |other| ==> r == Ok(()) && AsSlice() == old(AsSlice()) + other
    {
      if RemainingCapacity() < |other| {
        return Err(CapacityError(()));
      }
      var selfLen := Len();
      CopyNonoverlapping(other, items, selfLen);
      SetLen(selfLen + |other|);
      r := Ok(());
      assert AsSlice() == old(AsSlice()) + other;
    }

    /** `Clone`: a fresh vector of the same capacity into which each live value is pushed in
        order (a value's own clone is modelled as the value itself). */
    method Clone() returns (other: ArrayVec<T>)
      requires Valid()
      ensures fresh(other) && fresh(other.items) && other.Valid()
      ensures other.N == N && other.AsSlice() == AsSlice() && other.Dropped == []
    {
      other := new ArrayVec(N);
      var s := AsSlice();
      var i := 0;
      while i < |s|
        invariant 0 <= i <= |s|
        invariant fresh(other) && fresh(other.items) && other.Valid() && other.N == N
        invariant other.AsSlice() == s[..i] && other.Dropped == []
      {
        other.PushUnchecked(s[i]);
        i := i + 1;
      }
      assert s[..i] == s;
    }

    /** `From<[T; N]>`: adopts a full array of values; capacity and length are its size. */
    static method From(other: seq<T>) returns (v: ArrayVec<T>)
      ensures fresh(v) && fresh(v.items) && v.Valid()
      ensures v.N == |other| && v.AsSlice() == other && v.Dropped == []
    {
      v := new ArrayVec(|other|);
      CopyNonoverlapping(other, v.items, 0);
      v.SetLen(|other|);
      assert v.AsSlice() == other;
    }
  }

  /** `PartialEq` between two vectors (of any capacities): slice equality. It compares the
      live slots only, never capacity or what lies past the length. */
  function Equal<T(==)>(a: ArrayVec<T>, b: ArrayVec<T>): (r: bool)
    reads a, a.items, b, b.items
    requires a.Valid() && b.Valid()
    ensures r <==> a.length == b.length && forall i :: 0 <= i < a.length ==> a.items[i] == b.items[i]
  {
    a.AsSlice() == b.AsSlice()
  }

  /** `PartialEq<[T]>`: a vector equals a slice when its live slots hold exactly its values. */
  function EqualsSlice<T(==)>(a: ArrayVec<T>, other: seq<T>): (r: bool)
    reads a, a.items
    requires a.Valid()
    ensures r <==> a.length == |other| && forall i :: 0 <= i < |other| ==> a.items[i] == Some(other[i])
  {
    a.AsSlice() == other
  }
}
