# ConSetQueue: a deduplicating FIFO queue, modelled in Dafny

`ConSetQueue<T>` (from the `csq` crate) is a FIFO queue that drops a pushed
value when an equal value is already pending, meaning pushed and not yet
popped. It has two parts. A queue fixes the order in which values come out. A
set records which values are pending. Every stored value sits once behind a
reference-counted pointer (`Arc`) that both structures share. A mutex
serialises each `push` and `pop`, so each one is a single atomic step. `pop`
gets back sole ownership of the value with `Arc::try_unwrap`, and panics if
that fails.

The model has three modules:

- `PendingQueue` (`pending_queue.dfy`) gives the abstract behaviour on
  values. The pending sequence is the state. `Pushed` and `Popped` give the
  effect of one call, and `Run` replays a single-threaded sequence of calls.
  The lemmas there state what callers get: no value is ever pending twice,
  the set is as large as the queue, values come out FIFO, repeated pushes
  collapse into one entry, and a popped value can be pushed again.
- `Csq` (`con_set_queue.dfy`) holds the class `ConSetQueue`. Its fields are
  the queue `q: seq<T>` and the set `s: set<T>`. A ghost map `holders` gives,
  for each stored value, the multiset of holders of its `Arc`: the queue
  slot, the set entry, or the local binding `ptr` of the running operation,
  one entry per reference. The multiset's size is the reference count.
  `Valid()` is the class invariant, stated as `Inv` on the three fields: `s`
  is exactly the elements of `q`, `q` has no duplicates, and every stored
  value is held by exactly one queue slot and one set entry. `Push` and `Pop`
  update the fields in place, and each step follows the source, holders
  included. `Pop` proves from the invariant that the reference count is 1
  when ownership is reclaimed, so the `Err(_) => panic!()` arm of
  `try_unwrap` can never run.
- `Scenarios` (`scenarios.dfy`) holds client methods that use the class. Each
  is proved from the operations' contracts alone.

## Model

| member | source | states |
|---|---|---|
| `Csq.ConSetQueue.constructor` | src/lib.rs:19-34 | `new()`/`default()` give an empty queue, an empty set and no stored values, and the invariant holds |
| `Csq.ConSetQueue.Push` | src/lib.rs:36-45 | keeps the invariant. An already-pending value changes neither queue, set nor holders. Otherwise the value goes at the back of the old queue, joins the set, and is held by exactly the queue and the set |
| `Csq.ConSetQueue.Pop` | src/lib.rs:47-60 | keeps the invariant. An empty queue gives `None` and nothing changes. Otherwise it returns the old front. The queue becomes the old tail, and the set and holders lose that value. The reference count at `try_unwrap` is 1, so the panic arm cannot be reached |
| `Csq.PopKeepsInv` | src/lib.rs:50-51 | removing the front from the queue, evicting it from the set and forgetting its holders keeps the invariant |
| `Csq.ReleaseBoth` | src/lib.rs:50-55 | a value held exactly by its queue slot and its set entry has exactly one holder, the local binding, once the queue hands its reference over and the set drops its own |
| `Csq.ConSetQueue.IsEmpty` | src/lib.rs:62-64 | true iff the queue has no entries, and likewise iff the set is empty |
| `Csq.ConSetQueue.Len` | src/lib.rs:66-68 | the queue's length, which equals the set's size. It is 0 iff `IsEmpty()` |
| `PendingQueue.Pushed` | src/lib.rs:39-44 | after a push the value is pending and the pending values are the old ones plus it. If it was already pending the sequence is unchanged, so its position is not refreshed. The old sequence stays a prefix, and the sequence grows by at most one |
| `PendingQueue.Popped` | src/lib.rs:50-59 | `None` iff the queue is empty, and then the sequence is unchanged. Otherwise the old sequence is the returned value followed by the remaining one |
| `PendingQueue.PushedKeepsNoDup` | src/lib.rs:39-44 | a push keeps the sequence free of duplicates |
| `PendingQueue.RunKeepsNoDup` | src/lib.rs:36-60 | after any sequence of pushes and pops, no value is pending twice |
| `PendingQueue.ElemsCard` | src/lib.rs:39-43 | with no duplicates, the membership set has as many elements as the queue has entries |
| `PendingQueue.OccursAtMostOnce` | src/lib.rs:39-43 | with no duplicates, each value occurs once in the queue if it is pending and not at all otherwise |
| `PendingQueue.RunFreshPushes` | src/lib.rs:39-44 | pushing distinct values, none of them pending, appends them in order. Any later calls then behave as on the appended sequence |
| `PendingQueue.RunPopsDrains` | src/lib.rs:50-54 | popping once per pending value returns them all, oldest first, and leaves the queue empty |
| `PendingQueue.FifoOfDistinctPushes` | src/lib.rs:36-60 | distinct pushes that collide with nothing pending, followed by enough pops, return the old pending values and then the pushed ones, in push order |
| `PendingQueue.RepeatedPushCollapses` | src/lib.rs:39 | pushing one value n times, n ≥ 1, has the effect of a single push |
| `PendingQueue.PopThenPushReenters` | src/lib.rs:39-54 | the value `pop` returns is no longer pending, so pushing it again puts it at the back |
| `PendingQueue.RunStaysInUniverse` | src/lib.rs:39-51 | if every pushed value comes from a universe `u`, every pending value stays in `u` and at most `\|u\|` values are pending |
| `Scenarios.EmptyPushPop` | src/lib.rs:32-68 | a new queue is empty with length 0. After one push it is non-empty with length 1. After the pop it is empty again, and the pop returned the value |
| `Scenarios.FifoOfThree` | src/lib.rs:36-60 | distinct pushes A, B, C, then three pops, return A, B, C |
| `Scenarios.DuplicateSuppressed` | src/lib.rs:36-60 | push A twice, then pop twice: A, then `None` |
| `Scenarios.ReentryAfterPop` | src/lib.rs:39-68 | push A, pop, push A again: the second push is accepted (length 1), and the next pop returns A |
| `Scenarios.DuplicateKeepsPosition` | src/lib.rs:39-44 | pushing A, B, A pops A, then B, then `None`. The duplicate does not move A's entry |

## Left out

- The `parking_lot::Mutex` and its guards (src/lib.rs:7, 37, 48). Each `push` and `pop` is one atomic sequential step. Interleavings, races and fairness are not modelled. Claims about concurrent pushes appear only in sequential form: `RepeatedPushCollapses` and `RunStaysInUniverse`.
- The lock-free and approximate reading of `is_empty` and `len` during concurrent mutation (src/lib.rs:62-68). Here they are exact readings of the state.
- The internals of `SegQueue` and `DashSet`, hashing, and real `Arc` memory management. What remains is a sequence, a set and a ghost map from each value to the multiset of its holders. `T`'s `Eq` is Dafny equality.
- Csq.ConSetQueue.Len: the result is an unbounded `nat`, not a `usize`. The queue cannot hold more entries than memory allows, so no wrap-around can happen.
- Csq.ConSetQueue.Pop: the `Err(_) => panic!()` arm is not a code path in the model. It is replaced by the proof that the reference count is 1 when `try_unwrap` is called.
- The `Debug` impl (src/lib.rs:12-17): formatting only.
- The crate's single-lock variant with `drain` is not in src/lib.rs and is not modelled.
- Source details with no effect on behaviour: the missing `Arc`/`Hash` imports, and `.unwrap()` on a `parking_lot` guard (src/lib.rs:37, 48).
