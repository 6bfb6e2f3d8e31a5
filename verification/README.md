# Join iterator, modelled in Dafny

`join_container_t` holds its own copies of N containers and hands out a
read-only cursor, `join_iterator_t`, that walks them one after another as if
they were one sequence. Each element is projected to a common value type by
`extract_value`. The default projection is the element itself; a container
type can supply its own, as the demonstration does to map a map entry to its key.

The model represents these parts as follows:

- A source is a `seq<E>`, and a native iterator is a natural-number position into it.
- A source's iterator pair (`iterator_pair_t`) is a `Window(cur, end)`. Here `cur` is the field the C++ code calls `begin`.
- A cursor value is `Cursor(active, windows)`. `active` is `active_container_index`.
- The container (`join_container_impl` with its `indexed_ref_t` slots) is the datatype `JoinContainer(sources, project)`.
- The projection is a function of the source index and the native element. `ExtractValue` is the default projection.
- `begin()`, `end()`, `operator*` and `operator!=` are pure functions on cursor values.
- `operator++` updates the cursor in place. It is the method `JoinCursor.Increment` of the class `JoinCursor`, which has an `active` field and an array of windows. It is specified by the function `Advance`.
- The runtime dispatch `at_number` indexes a `std::array` with `.at`. An index of N or more therefore throws `std::out_of_range`, and the model returns `Err(OutOfRange(index, N))` without touching any window.
- Stepping or dereferencing a window that is already at its end is undefined behaviour in C++. Here it is a precondition, `ActiveNotExhausted`.

Files:

- `join_iterator.dfy` (module `JoinIterator`): the data model and the cursor operations.
- `traversal.dfy` (module `Traversal`): the logical joined sequence, the states a walk can reach (`Consistent`), and the full-traversal theorem. It also has `CollectAll`, the range-based `for` loop over the container, written with the in-place cursor.
- `demo.dfy` (module `Demo`): the demonstration program's three sources, and the behaviour on empty sources.

The code does not skip empty sources.

- If the first source is empty, `begin()` is active on it with its window already at its end. It still differs from `end()`, so a range-based `for` loop would dereference a past-the-end iterator. `Demo.EmptyFirstSourceNotSkipped` shows this.
- Promotion onto an empty source behaves the same way. `Demo.PromotionOntoEmptySource` shows this.
- So the traversal theorem is proved for containers whose sources are all non-empty. It also covers N = 0.
- A leading empty source followed by `[5, 6]` does not yield `5, 6`. `begin()` is active on the empty source and still differs from `end()`, so the first `*` reads past the end.

## Model

| member | source | states |
|---|---|---|
| `JoinIterator.Advance` | join-iterator.h:53-61 | `operator++` steps only the active window's current position, by exactly one. Every other window is unchanged. The active index goes up by one exactly when the stepped window reached its end, and never by more. An index of N or more gives the out-of-range error. |
| `JoinIterator.JoinCursor.Increment` | join-iterator.h:53-61 | The in-place `operator++` leaves the cursor in the state `Advance` computes. It reports the out-of-range error and leaves the state unchanged when the index is N or more. |
| `JoinIterator.JoinCursor.constructor` | join-iterator.h:50-51 | The cursor is built from one iterator pair per source, and its active index starts at 0 (join-iterator.h:77). |
| `JoinIterator.Deref` | join-iterator.h:70-75 | `operator*` fails with the out-of-range error exactly when the active index is N or more (the `.at` dispatch, join-iterator.h:92-106). Otherwise it yields a value. |
| `JoinIterator.AnyWindowDiffers` | join-iterator.h:63-68 | The fold of `!is_same` over the window pairs is true exactly when some pair differs. `is_same`, modelled by `SameWindow`, compares both positions (join-iterator.h:108-111). |
| `JoinIterator.NotEqual` | join-iterator.h:63-68 | Two cursors of the same type are unequal exactly when their active index or any of their windows differs. The comparison covers all windows, not only the active one. |
| `Traversal.BeginStartsTraversal` | join-iterator.h:121-126 | `Begin`, which models `begin()`, has active index 0 and window i equal to (start of source i, end of source i). It is a reachable state at position 0. |
| `Traversal.EndIsTerminal` | join-iterator.h:128-135 | `End`, which models `end()`, has active index N and window i equal to (end of source i, end of source i). It is the reachable state past every element. |
| `Traversal.NoSourcesBeginIsEnd` | join-iterator.h:121-135 | With no sources, `begin()` equals `end()` and the joined sequence is empty. |
| `Traversal.TerminalDispatchFails` | join-iterator.h:92-106 | Stepping or dereferencing a cursor whose index is N or more yields `OutOfRange(index, N)`. |
| `Traversal.ConsistentNotExhausted` | join-iterator.h:53-61 | When every source is non-empty, a reachable cursor can always be stepped and dereferenced, so no undefined access occurs. |
| `Traversal.AdvanceKeepsConsistent` | join-iterator.h:53-61 | `operator++` takes a reachable state that is not terminal to a reachable state exactly one element further on. |
| `Traversal.DerefAtPosition` | join-iterator.h:70-75 | `operator*` on a reachable cursor yields the element of the joined projected sequence at the cursor's position. That element is the active source's projection of its current element. |
| `Traversal.FlattenAt` | join-iterator.h:138-141 | Element p of source j is at position Offset(j) + p of the joined sequence, projected by source j's projection only. |
| `Traversal.NotEqualEndIffElementsLeft` | join-iterator.h:63-68 | When every source is non-empty, a reachable cursor differs from `end()` exactly when elements are left, which is exactly when its active index is below N. |
| `Traversal.NotEqualIffPositionsDiffer` | join-iterator.h:63-68 | When every source is non-empty, comparing all windows of two reachable cursors agrees with comparing how far they got. |
| `Traversal.AdvanceN` | join-iterator.h:53-61 | n calls of `operator++` from a reachable cursor give a reachable cursor exactly n elements further on. |
| `Traversal.TraversalYieldsJoined` | join-iterator.h:53-75 | When every source is non-empty, `begin()` equals `end()` after exactly as many steps as there are elements in all sources. Each cursor before that differs from `end()` and dereferences to the next element of the concatenated projected sources, in order. |
| `Traversal.DefaultProjectionIsConcat` | join-iterator.h:138-141 | With the default `extract_value`, modelled by `ExtractValue`, the joined sequence is the plain concatenation of the sources. |
| `Traversal.CollectAll` | main.cpp:31-33 | The range-based `for` loop over the container, which steps one cursor object in place, collects exactly the joined projected sequence. |
| `Traversal.PositionBound` | join-iterator.h:53-61 | A reachable cursor's position never passes the total element count, or the end of its active source. |
| `Demo.DemoJoined` | main.cpp:11-29 | The demonstration's sources are vector 1,2,3,4, the map keyed 15,16,17 projected to its keys, and vector 101,102. They join to the nine values 1,2,3,4,15,16,17,101,102. |
| `Demo.DemoTraversal` | main.cpp:29-33 | Walking the demonstration container yields those nine values in order, then equals `end()`. |
| `Demo.EmptyFirstSourceNotSkipped` | join-iterator.h:121-126 | With an empty first source, `begin()` is active on it with its window at its end, and it still differs from `end()`. |
| `Demo.PromotionOntoEmptySource` | join-iterator.h:53-61 | Finishing source k when source k+1 is empty promotes the cursor onto k+1 only. The cursor's window is then at its end and it still differs from `end()`. |

## Left out

- The C++ template machinery is not modelled: `std::index_sequence`, one base class per index, the `constexpr` array of member-function pointers and the deduction guides. Dispatch is an index test on a sequence of windows.
- Projection is not resolved by overload on `join_iterator_tag`. That selection happens by static type at compile time. Here it is a function of the source index, which is at least as general. A missing projection is a C++ compile error and has no counterpart.
- Native iterator types and their equality are abstracted to positions into a `seq`.
- Copying a container or a cursor is not modelled. Both are Dafny values, so copies are independent by construction. Only `JoinCursor` is an object, and it is never shared.
- `active_container_index` is a `uint32_t`, but the model uses `nat`. It only grows by one while below N, so it cannot wrap.
- With N = 0, `operator++` and `operator*` do not compile, because the dispatch table `std::array{}` cannot deduce its type from an empty list. The model answers out-of-range. Only `begin()`, `end()` and `!=` have C++ counterparts in that case.
- Behaviour on a past-the-end window (an empty source being active) is C++ undefined behaviour. It is excluded by the `ActiveNotExhausted` precondition and not modelled.
- The demonstration program's printing to standard output is not modelled.
