# Readiness watcher of tty-fork, in Dafny

tty-fork shares one terminal session between its owner and any number of local
clients. A single-threaded loop waits on a set of descriptors with `select`. The
readiness watcher (`watch.c`, struct in `watch.h`) keeps that set. It holds:

- a growable array `fds` whose prefix `fds[0..len)` is the membership, with capacity `max`;
- `highest`, the largest watched descriptor, or -1;
- two flag sets, one for readable descriptors and one for errored ones.

This project models the watcher as the class `Watch.Watcher`. It has an
`array<int>` field, the `len`, `max` and `highest` fields, and the flag sets as
`set<int>` fields. Its methods update these fields in place, as the C functions
do. Each method is proved against value-level functions in module `WatchSpec`:

- `Highest` is the tracked maximum, computed as the rescan loop computes it.
- `Find` is the first index holding a descriptor.
- `SwapRemove` and `Unwatched` give the membership after a removal.

Lemmas in `WatchSpec` prove what these functions mean.

- `watch_spec.dfy`: module `WatchSpec`, the specification functions and lemmas,
  plus the as-written model of the slot copy in `unwatch_fd`.
- `watch.dfy`: module `Watch`, the class and its methods.

`Valid()` is the struct's invariant:
- the capacity is positive and fits an `unsigned int`;
- `fds` has exactly `max` slots and `len <= max`;
- `highest == Highest(fds[..len])`.

Every method keeps it. Duplicates are allowed, because `watch_fd`
(watch.c:32-52) does not reject them. `DistinctPreserved` shows that the
membership stays duplicate-free as long as callers never add a descriptor that
is already watched.

`Highest` starts from -1 and takes each strictly larger element. So the tracked
value is the maximum of the membership and -1, exactly as both `watch_fd` and
the rescan in `unwatch_fd` compute it.

## Model

| member | source | states |
|---|---|---|
| `Watch.Watcher.constructor` | watch.c:7-24 | new_watcher(n) yields an empty, valid watcher: len 0, max n, highest -1, both flag sets empty, a fresh array of n slots |
| `Watch.Watcher.Watch` | watch.c:32-52 | watch_fd appends fd at old len and adds one to len; the earlier entries are unchanged; a full array is doubled, so max > old len and max never shrinks; without growth only slot old len changes; fd leaves both flag sets, other flags stay; highest becomes max(old highest, fd); Valid is kept |
| `Watch.Realloc` | watch.c:39-40 | the grown buffer is fresh, has the requested capacity and begins with every old entry |
| `Watch.Watcher.Unwatch` | watch.c:54-79 | unwatch_fd: membership becomes Unwatched(old membership, fd); for an absent fd the array, len, highest and both flag sets are unchanged; for a present fd len drops by one, only the first match's slot changes (it receives the last live element), fd leaves both flag sets; Valid (so highest is the new maximum) is kept |
| `Watch.Watcher.IndexOf` | watch.c:58-59 | the search loop stops at the first live slot holding fd, or at len when there is none |
| `Watch.Watcher.RemoveSlot` | watch.c:60-62 | the removal moves the last live element into the slot and shortens the prefix by one; no other slot changes |
| `Watch.Watcher.Rescan` | watch.c:68-74 | the rescan makes highest the tracked maximum of the live prefix again |
| `Watch.Watcher.ArmFlagSets` | watch.c:86-92 | before waiting, both flag sets become exactly the set of watched descriptors |
| `Watch.Watcher.WatchForData` | watch.c:81-100 | after the wait each flag set holds the watched descriptors that select reported, so both are subsets of the membership; the result counts the flags left set |
| `WatchSpec.Highest` | watch.c:68-74 | the tracked maximum is never below -1; it is the value both the update at watch.c:50-51 and the rescan compute (see `HighestBounds`, `HighestUnique`, `WatchedHighest`) |
| `WatchSpec.SwapRemove` | watch.c:60-62 | the copy the comment at line 60 describes: the last live element moves into slot i and the list is one shorter |
| `WatchSpec.Unwatched` | watch.c:54-79 | the membership after unwatch_fd: unchanged when fd is absent, one shorter when fd is present |
| `WatchSpec.Find` | watch.c:58-59 | the index is the first occurrence of fd, or the length exactly when fd is absent |
| `WatchSpec.HighestBounds` | watch.c:68-74 | the tracked maximum is at least -1, bounds every member, and is -1 or a member |
| `WatchSpec.HighestUnique` | watch.c:68-74 | any value with those three properties is the tracked maximum |
| `WatchSpec.HighestOfPermutation` | watch.c:68-74 | the tracked maximum depends only on the multiset of members, not on their order in the array |
| `WatchSpec.WatchedHighest` | watch.c:50-51 | appending fd makes the maximum fd if fd is larger than it, and otherwise leaves it; it is then at least fd |
| `WatchSpec.SwapRemovePositions` | watch.c:60-62 | swap-with-last removal shortens by one, puts the last element into the vacated slot, and keeps every other position |
| `WatchSpec.SwapRemoveMultiset` | watch.c:60-62 | swap-with-last removal takes away exactly one copy of the removed element |
| `WatchSpec.UnwatchedMultiset` | watch.c:54-79 | removal takes one copy of fd from the membership multiset, and nothing if fd is absent; the length drops by one exactly when fd was watched |
| `WatchSpec.UnwatchedMembership` | watch.c:58-77 | after removal, fd is still watched exactly when it was watched at least twice, since only the first match goes; every other descriptor's membership is unchanged |
| `WatchSpec.UnwatchedHighest` | watch.c:68-74 | removing a descriptor other than the tracked maximum leaves the maximum unchanged, which justifies rescanning only when the maximum is removed |
| `WatchSpec.DistinctPreserved` | watch.c:32-79 | with no duplicates to start with, adding an unwatched fd or removing any fd leaves no duplicates, and a removed fd is then no longer watched |
| `WatchSpec.RemoveAsWritten` | watch.c:61-62 | the slot copy as written reads past the array when it is full, and otherwise agrees with the intended removal exactly when the removed slot is the last live one or the stale slot repeats the last live value |
| `WatchSpec.RemoveAsWrittenCounterexample` | watch.c:61-62 | with 3 and 5 watched and a stale 9 behind them, removing 3 as written leaves {9} instead of {5}; with a full one-slot array it reads out of bounds |

## Findings

| source | as written | input that shows it | evidently intended | confidence | as-written member | corrected member |
|---|---|---|---|---|---|---|
| watch.c:61 | `fds[i] = fds[len]` copies the slot one past the last live element, before `len` is decremented | `fds = [3, 5, <stale 9>]`, `len = 2`, `unwatch_fd(3)`: the membership becomes `[9]` rather than `[5]`; with `len == max` the read is out of bounds | `fds[i] = fds[len - 1]`, as the comment on line 60 says | high (not executed) | `WatchSpec.RemoveAsWritten` | `WatchSpec.SwapRemoveMultiset` |

The class uses the corrected removal (`Watch.Watcher.RemoveSlot`). It is proved
to take exactly one copy of the removed descriptor out of the membership.

## Left out

- `select` and its retry on `EINTR` (watch.c:94-97) are operating-system calls. `WatchForData` takes the descriptors that select reports as readable and as errored as parameters.
- Watch.Watcher.WatchForData: does not model blocking until some descriptor is ready, nor the `-1` failure return of `select` for errors other than `EINTR`, because both depend on the operating system.
- `free_watcher` (watch.c:26-30) only releases memory, which Dafny does not model.
- The allocation-failure exits through `FORCE` (watch.c:11, 21, 40) are never taken, because allocation in Dafny does not fail.
- The `fd_set` bit layout and the `FD_SETSIZE` bound are not modelled. The flag sets are `set<int>`, so `FD_CLR`/`FD_SET` on a descriptor outside `[0, FD_SETSIZE)` is not the undefined behaviour it is in C.
- Descriptor values are unbounded integers rather than C `int`. `len` and `max` are bounded by `UINT_MAX`. `Watch` requires the condition checked by the `assert` at watch.c:37: the doubled `unsigned` capacity must not wrap around.
- `new_watcher` requires a positive capacity. A zero capacity can never be doubled past `len` (the assert at watch.c:37 would fail), and `malloc(0)` may return NULL.
- `watch.h` declares `new_watcher()` without a parameter and `unwatch_fd` as returning `int`. The model follows the definitions in `watch.c` (lines 7 and 54).
- The search loop of `unwatch_fd` performs the removal inside the loop and returns. The model searches first (`IndexOf`) and then removes. Both stop at the same first match, so the effect is the same.
- The multiset view of `unwatch_fd` is stated by `WatchSpec.UnwatchedMultiset` about `Unwatched`, which `Unwatch`'s postcondition names as the new membership.
- The session loop, PTY handling, socket listener and transcoding writers are not part of this model. tty-fork.c, tty-push.c, util.c and error.h hold them. util.h only declares the transcoders, without bodies.
