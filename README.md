# const-arrayvec in Dafny

A model of `ArrayVec<T, N>`, a vector with a fixed capacity whose storage is an inline array of
N slots plus a `length` counter, and of `Drain`, its two-ended range iterator.

- `arrayvec.dfy`, module `ArrayVecs` (src/lib.rs). It defines the class `ArrayVec<T>`: a
  `const N`, a `const items: array<Option<T>>` of N slots, and a `length` field. `None` stands
  for a `MaybeUninit` slot that was never written. `Valid()` is the invariant
  `length <= N` and "slots `[0, length)` are initialised". Slots past `length` are left
  unconstrained, because `pop` and `truncate` do not overwrite them. `AsSlice()` is the slice
  view `items[0..length]`, which every mutator's contract is stated against. The ghost field
  `Dropped` records the values destructed in place, by `truncate`, `clear` and the vector's
  `Drop`. The raw-pointer calls become index operations:
  - `ptr::copy` becomes `Copy`, a memmove over one array. It is specified by `Moved` and copies
    backwards when the destination lies above the source.
  - `ptr::copy_nonoverlapping` becomes `CopyNonoverlapping`.
  - `ptr::write` becomes a slot assignment.
  - `set_len` becomes `SetLen`.
- `drain.dfy`, module `Drains` (src/drain.rs). It defines the class `Drain<T>`, with
  `head`/`tail` as indices into the vector's slots and `start_of_tail`/`tail_length` as
  recorded at creation. Ghost `Front` and `Back` hold the values yielded from each end.
  `Valid()` keeps `start <= head <= tail <= end <= len`. It also ties `Front` to
  `v[start..head]` and the reverse of `Back` to `v[tail..end]`. `ArrayVec::drain` is
  `Drains.DrainOf`, because the vector's module cannot import the iterator's.
- `doc_tests.dfy`, module `DocTests`. It holds the usage examples from the documentation comments
  of src/lib.rs as client methods, with their outcomes as postconditions. It also holds the
  round trips between operations and three drain scenarios.

Panics and debug assertions become preconditions. These are: `push` and `insert` on a full
vector, `push_unchecked` on a full vector, `try_insert` with an index past the length,
`set_len` past the capacity, and `with_range` with a bad range.

## What the code does not do

- `Drain` records `start_of_tail` and `tail_length` (src/drain.rs:12-13, 38-42), but
  src/drain.rs has no `Drop` impl that uses them. Discarding a drain therefore moves no slot
  and leaves the length unchanged. `Next` and `NextBack` are proved to leave the vector's
  length and every slot untouched. `DocTests.DrainExample` shows that the vector still holds
  `[10, 20, 30, 40, 50]` after `drain(1..3)` has yielded 20 and 30; a compacting drain would
  have left `[10, 40, 50]`.
- The values that `next`/`next_back` read out with `ptr::read` stay in live slots. The
  vector's own `Drop` (src/lib.rs:357-360) therefore destructs them a second time, while the
  caller also holds them. `DocTests.DrainThenDrop` shows 20 and 30 yielded and then recorded
  in `Dropped` when the vector is dropped.
- `tail_length` is computed as `len - (end - start)` (src/drain.rs:38), which is not the
  length of the block after the range (`len - end`). `Drain.WithRange` records it as written.
  For `drain(1..3)` of five values it is 3.

## Model

| member | source | states |
|---|---|---|
| ArrayVecs.ArrayVec.constructor | src/lib.rs:38-50 | `new` gives an empty, valid vector of capacity n on a fresh slot array in which every slot is unwritten (`None`). |
| ArrayVecs.ArrayVec.AsSlice | src/lib.rs:305-311 | The slice view has exactly `length` values, and value i is the one held in slot i. |
| ArrayVecs.ArrayVec.Len | src/lib.rs:52 | `len` is the length of the slice view. |
| ArrayVecs.ArrayVec.IsEmpty | src/lib.rs:54 | `is_empty` holds exactly when the slice view is empty. |
| ArrayVecs.ArrayVec.Capacity | src/lib.rs:56 | `capacity` is the number of slots and is never below `len`. |
| ArrayVecs.ArrayVec.RemainingCapacity | src/lib.rs:58-60 | `remaining_capacity + len == capacity`. |
| ArrayVecs.ArrayVec.IsFull | src/lib.rs:62 | `is_full` holds exactly when no capacity remains, that is, when `len == capacity`. |
| ArrayVecs.ArrayVec.SetLen | src/lib.rs:143-146 | `set_len` (n at most the capacity) sets the length and changes nothing else, the slots included. |
| ArrayVecs.ArrayVec.PushUnchecked | src/lib.rs:124-134 | If not full: the contents become old ++ [item], the invariant is kept, and no slot except slot old `length` is written. |
| ArrayVecs.ArrayVec.TryPush | src/lib.rs:105-114 | Full: `Err(CapacityError(item))` with length and all slots unchanged. Otherwise: `Ok(())` and the contents become old ++ [item]. |
| ArrayVecs.ArrayVec.Push | src/lib.rs:83-88 | If not full (full panics): the contents become old ++ [item]. |
| ArrayVecs.ArrayVec.Pop | src/lib.rs:166-176 | Empty: `None`, nothing changed. Otherwise: `Some(last)`, the contents become old[..len-1], and no slot is written. |
| ArrayVecs.ArrayVec.Truncate | src/lib.rs:180-192 | If n < len: the contents become old[..n] and old[n..] is destructed, in order. Otherwise a no-op. |
| ArrayVecs.ArrayVec.Clear | src/lib.rs:195 | The contents become empty and every old value is destructed. |
| ArrayVecs.ArrayVec.Drop | src/lib.rs:357-360 | Dropping the vector destructs every live value exactly once and leaves length 0. |
| ArrayVecs.ArrayVec.TryInsert | src/lib.rs:241-270 | If index <= len (else panic): full gives `Err(CapacityError(item))` with length and slots unchanged. Otherwise `Ok(())` and the contents become old[..i] ++ [item] ++ old[i..]. |
| ArrayVecs.ArrayVec.Insert | src/lib.rs:203-208 | If index <= len and not full (else panic): the contents become old[..i] ++ [item] ++ old[i..]. |
| ArrayVecs.ArrayVec.TryExtendFromSlice | src/lib.rs:276-298 | All or nothing. Remaining capacity < `other.len()`: `Err(CapacityError(()))` with length and slots unchanged. Otherwise: `Ok(())` and the contents become old ++ other. |
| ArrayVecs.ArrayVec.Clone | src/lib.rs:429-442 | A fresh, valid vector of the same capacity whose slice equals the source's slice. |
| ArrayVecs.ArrayVec.From | src/lib.rs:444-467 | A fresh, valid vector with capacity and length N, holding the array's values in order. |
| ArrayVecs.Equal | src/lib.rs:377-383 | Two vectors are equal exactly when their lengths agree and their live slots agree pairwise. Capacity and stale slots play no part. |
| ArrayVecs.EqualsSlice | src/lib.rs:385-387 | A vector equals a slice exactly when its live slots hold that slice's values, one for one. |
| ArrayVecs.Copy | src/lib.rs:261 | The overlap-safe move. Afterwards the buffer equals the old buffer with [src, src+count) placed at dst, as if copied through a temporary. |
| ArrayVecs.CopyBackward | src/lib.rs:261 | With the destination above the source, moving from the highest element down gives the memmove result. |
| ArrayVecs.CopyForward | src/lib.rs:261 | With the destination at or below the source, moving from the lowest element up gives the memmove result. |
| ArrayVecs.Moved | src/lib.rs:261 | The memmove result, given position by position: below dst unchanged, [dst, dst+count) from the source range, above unchanged. |
| ArrayVecs.CopyNonoverlapping | src/lib.rs:294 | Slots [at, at+\|src\|) are initialised with src's values, in order. Every other slot is unchanged. |
| ArrayVecs.Inserted | src/lib.rs:259-264 | The insert result, given position by position: the item at i, the prefix kept, the rest shifted up by one. |
| ArrayVecs.InsertedSlots | src/lib.rs:256-267 | After shifting right by one and writing slot i, the first len+1 slots are initialised and hold the inserted sequence. |
| ArrayVecs.Values | src/lib.rs:309 | An initialised run of slots yields one value per slot, each the one that slot holds. |
| Drains.Drain.WithRange | src/drain.rs:21-48 | If start <= end <= len: head = start, tail = end, start_of_tail = end, tail_length = len - (end - start), nothing yielded, and the invariant holds. |
| Drains.Drain.Len | src/drain.rs:99-107 | The remaining count is the range size less everything yielded from both ends. It is 0 exactly when head == tail. |
| Drains.Drain.SizeHint | src/drain.rs:74-76 | The hint is exact: (n, Some(n)), where n plus the items yielded is the range size. |
| Drains.Drain.Next | src/drain.rs:58-72 | head == tail: `None`, cursors unchanged. Otherwise: the value at head, head + 1, `len` down by one. Tail, the vector's length and all its slots never change. |
| Drains.Drain.NextBack | src/drain.rs:80-93 | head == tail: `None`, cursors unchanged. Otherwise: tail - 1 first, then the value at the new tail, `len` down by one. Head, the vector's length and all its slots never change. |
| Drains.Reverse | src/drain.rs:86-91 | Reversal, given position by position. It describes the order in which `next_back` yields. |
| Drains.Exhausted | src/drain.rs:58-93 | Once head == tail, the forward yields followed by the reversed backward yields equal v[start..end], and they number end - start. |
| Drains.DrainOf | src/lib.rs:300-302 | `drain(start..end)` gives a fresh drain over that range of this vector, with the cursor state of `with_range`. |
| Drains.Fused | src/drain.rs:96 | After exhaustion both `next` and `next_back` return `None` and neither cursor moves. |
| DocTests.PushExample | src/lib.rs:72-82 | An empty capacity-5 vector, after `push(42)`, has length 1 and element 42. |
| DocTests.TryPushExample | src/lib.rs:95-103 | Capacity 2: pushes of 1 and 2 succeed and fill it, and `try_push(42)` gives `Err(CapacityError(42))` with the contents still [1, 2]. |
| DocTests.PopExample | src/lib.rs:152-165 | Pushing 12 and 34 gives length 2. `pop` then gives `Some(34)` and length 1. |
| DocTests.TryInsertExample | src/lib.rs:216-225 | `try_insert(1, 56)` into [12, 34] succeeds and gives [12, 56, 34]. |
| DocTests.TryInsertFullExample | src/lib.rs:230-239 | `ArrayVec::from([1, 2, 3])` is full. `try_insert(1, 7)` gives `Err(CapacityError(7))` and the contents stay [1, 2, 3]. |
| DocTests.DropExample | src/lib.rs:325-356 | Three pushed values are not destructed while the vector lives, and after dropping it each is destructed exactly once. |
| DocTests.PushThenPop | src/lib.rs:124-176 | On a vector that is not full, a push then a pop returns the pushed value and restores the contents. |
| DocTests.TruncateTwice | src/lib.rs:180-192 | `truncate(n)` is idempotent, and the result has at most n values. |
| DocTests.CloneIsEqual | src/lib.rs:377-442 | A clone compares equal to its original, for element types whose `eq` is reflexive and whose `clone` returns an equal value. |
| DocTests.DrainExample | src/drain.rs:58-72 | `drain(1..3)` of [10, 20, 30, 40, 50] yields 20, then 30, then nothing. It records tail_length 3 and start_of_tail 3, and the vector is unchanged afterwards. |
| DocTests.DrainThenDrop | src/lib.rs:357-360 | After a drain has yielded 20 and 30, dropping the vector destructs all five values, 20 and 30 included. |
| DocTests.DrainBackExample | src/drain.rs:80-93 | From the back, the same drain yields 30 then 20, and then `len` is 0. |

## Left out

- Deferred compaction on discarding a `Drain`: the source has no `Drop` for `Drain`, so the model has none.
- `Drain::as_slice` and `Drain::as_mut_slice`: their bodies are `unimplemented!()`.
- The exclusive borrow a `Drain` holds is not enforced. `Drain.Valid()` reads the vector's state,
  and that state holds only while nothing else mutates the vector.
- Moves of ownership are not tracked. `pop` and the drain's reads move values out, and `Dropped`
  records only in-place destruction. A value yielded by a drain thus stays in a live slot of
  the vector, as the code leaves it.
- `as_ptr`/`as_mut_ptr`, the `MaybeUninit` layout, `mem::forget` in `From`, and the byte-size
  division with its zero-sized-type assertion in `Drain::len`: these are pointer and layout
  concerns, and indices replace them.
- `as_slice_mut`/`DerefMut`, `AsRef`/`AsMut`, `Index`/`IndexMut`, `Hash`, `PartialOrd`/`Ord`,
  `Debug`, `Default`: each only forwards to a core slice operation, or to `new`. Reading
  `AsSlice()` covers them.
- The `Display` text of `CapacityError` and the panic messages: formatting only.
- Machine-word width (`usize`) is not modelled. Every sum the code forms is bounded by N under the invariant.
- ArrayVecs.ArrayVec.Clone: an element's own `clone()` is modelled as the value itself.
- ArrayVecs.Equal, ArrayVecs.EqualsSlice: an element's own `eq` is modelled as Dafny equality,
  which is an equivalence. `DocTests.CloneIsEqual` therefore holds only for element types whose
  `eq` is reflexive and whose `clone` returns an equal value. It does not hold for `f64` NaN,
  for example.
- Zero-sized element types are outside the model. `with_range` only debug-asserts against them
  (src/drain.rs:30-33). For such a type, `ptr::add` does not move the pointer, so a release
  build's drain starts with `head == tail` and yields nothing. The model's drain yields
  `end - start` values.
