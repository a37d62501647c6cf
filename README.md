# pqueue in Dafny

A model of `pqueue`, a small Go priority queue. A `Queue` keeps its elements
in a growable slice, `collection`, and has a flag, `heaped`, that makes heap
construction lazy: the first heap-maintaining call (`Add`, `Remove`,
`AddSlice`) runs `heap.Init` and sets the flag, and nothing ever clears it.
The raw primitives `Len`, `Less`, `Swap`, `Push` (append) and `Pop` (take off
the last element) are the queue's `heap.Interface`; `Member` is a
bounds-checked read and `Collection` exposes the slice.

The project has three modules:

- `BinaryHeap` (`binary_heap.dfy`) states Go's `container/heap` routines as
  functions over the sequence of elements. `Down` and `Up` are the two sift
  loops. `Init` sifts down from index n/2−1 to 0. `Push` appends and sifts up.
  `Pop` swaps the root with the last element, sifts down over the others and
  takes the last element off. `Remove(i)` does the same for index i, sifting
  up when sifting down did not move anything. The lemmas prove what the
  library promises: the multiset of elements is kept, a min-heap results, and
  the root of a heap has the smallest priority. Repeated `Pop` (`Drain`)
  hands out the elements in priority order.
- `PQueue` (`pqueue.dfy`) is the `Queue` class with its two fields and its
  methods. The `container/heap` routines the queue calls are written there as
  loops built only from the queue's own `Less`/`Swap`/`Push`/`Pop`
  (`HeapDown`, `HeapUp`, `HeapInit`, `HeapPush`, `HeapPop`, `HeapRemove`).
  Each is proved to compute the `BinaryHeap` function of the same name.
- `Scenarios` (`scenarios.dfy`) is client code following the cases of
  `pqueue_test.go`: fresh queues built through the public operations, with what
  a caller can rely on afterwards.

An element is `Item(priority, handle)`. `priority` is the value `Priority()`
returns. `handle` stands for the identity of the caller's object that the Go
slice points to.

Because of the lazy flag, the heap guarantees are conditional. `Add` and
`Remove` are guaranteed to leave a heap when the collection was already one or
`heaped` was still false. `AddSlice` is guaranteed to leave a heap only when
`heaped` was still false: once the flag is set it only appends (see
"## Findings"). After a raw `Push` or `Swap` on a queue whose heap has been
built, none of them re-heapifies. The contracts of `Queue.Add`, `Queue.Remove`
and `Queue.AddSlice` state these guarantees.

An empty `Remove` or `Pop` has no error result: `heap.Pop` calls `Swap(0, −1)`
and panics. The model makes a non-empty queue a precondition of `Remove`,
`Pop`, `HeapPop` and `HeapRemove`.

The test at `pqueue_test.go:110-123` checks `x.Priority() != 128 && q.Len() != 2`
after the raw `Pop` of [128, 256, 512]. The raw `Pop` returns the last element,
512. `Scenarios.RawPop` proves that, and the `&&` lets the test pass anyway.

## Model

| member | source | states |
|---|---|---|
| BinaryHeap.Swap | pqueue.go:53-55 | positions i and j are exchanged, every other position and the length are unchanged, and the multiset of elements is kept |
| BinaryHeap.SmallerChild | pqueue.go:48-50 | the child down compares with: a child of i within the first n positions whose priority is no greater than that of any child of i; it is the right child exactly when that one is in range and strictly Less than the left |
| BinaryHeap.Down | pqueue.go:73 | sifting down keeps the length and the multiset and touches no position before i or from n on |
| BinaryHeap.Up | pqueue.go:81 | sifting up keeps the length and the multiset and touches no position after j |
| BinaryHeap.Init | pqueue.go:73 | heap.Init permutes the elements: same length, same multiset |
| BinaryHeap.Push | pqueue.go:81 | heap.Push gives one more element, and the multiset gains exactly x |
| BinaryHeap.Pop | pqueue.go:87 | heap.Pop returns the old root; what is left is one shorter and together with the returned element has the old multiset |
| BinaryHeap.Remove | pqueue_test.go:202 | heap.Remove(h, i) returns the element that was at i; what is left is one shorter and together with it has the old multiset |
| BinaryHeap.Drain | pqueue.go:85-88 | removing the root until nothing is left hands out every element exactly once (same length, same multiset) |
| BinaryHeap.DownOrders | pqueue.go:73 | down turns the almost-ordered state of its invariant into one where every parent/child pair from lo on is ordered, except the pair above the starting position when nothing moved |
| BinaryHeap.UpOrders | pqueue.go:81 | up turns a heap whose only disorder is above j into a heap |
| BinaryHeap.InitMakesHeap | pqueue.go:71-76 | heap.Init leaves a min-heap holding the same multiset of elements |
| BinaryHeap.InitOfHeap | pqueue.go:71-76 | heap.Init on a min-heap changes nothing |
| BinaryHeap.RootIsMinimum | pqueue.go:84-88 | the root of a min-heap has a priority no greater than any element's |
| BinaryHeap.PushKeepsHeap | pqueue.go:79-82 | heap.Push onto a min-heap gives a min-heap |
| BinaryHeap.PushSmallestReachesRoot | pqueue_test.go:169-186 | after an element is pushed onto a min-heap with a priority no greater than any already there, index 0 holds a priority equal to its own (on a tie the earlier element may stay there) |
| BinaryHeap.PopKeepsHeap | pqueue.go:85-88 | heap.Pop on a min-heap returns an element no greater than any left, and leaves a min-heap |
| BinaryHeap.RemoveKeepsHeap | pqueue_test.go:188-213 | heap.Remove(h, i) on a min-heap leaves a min-heap |
| BinaryHeap.DrainSorted | pqueue.go:85-88 | removing the root of a min-heap again and again hands out the elements in non-decreasing priority |
| PQueue.Queue.constructor | pqueue.go:38-40 | NewQueue: empty collection, heap not built |
| PQueue.Queue.Len | pqueue.go:43-45 | the number of elements in the collection |
| PQueue.Queue.Less | pqueue.go:48-50 | true exactly when the priority at i is strictly less than that at j |
| PQueue.Queue.Member | pqueue.go:107-114 | Ok with the element at i exactly when i < Len(); otherwise the out-of-bounds error |
| PQueue.Queue.Collection | pqueue.go:118-120 | the elements in storage order, Len() of them, each the one Member returns at its index |
| PQueue.Queue.Swap | pqueue.go:53-55 | positions i and j exchanged and nothing else changed, multiset and flag kept |
| PQueue.Queue.Push | pqueue.go:63-69 | x appended at the end, earlier positions and the flag unchanged |
| PQueue.Queue.Pop | pqueue.go:100-104 | on a non-empty queue, returns the last element and leaves the prefix before it; the flag is unchanged |
| PQueue.Queue.Heapify | pqueue.go:71-76 | sets the flag; if it was clear, the collection becomes Init of itself, a min-heap with the same multiset; if it was set, nothing changes |
| PQueue.Queue.Add | pqueue.go:79-82 | heapify then heap.Push: one more element, the multiset gains x, and the result is a min-heap when the queue was one or its heap had not been built |
| PQueue.Queue.Remove | pqueue.go:85-88 | on a non-empty queue, heapify then heap.Pop: one element fewer, multiset conserved, and when the queue was a heap or not yet heaped, the element returned is no greater than any left and what is left is a min-heap |
| PQueue.Queue.AddSlice | pqueue.go:92-95 | s appended, Len grows by len(s), multiset grows by s; the whole is heaped only when the flag was clear, and otherwise stays in append order |
| PQueue.Queue.AddSliceRestoringHeap | pqueue.go:90-91 | AddSlice as its comment describes it: always a min-heap of the old and new elements |
| PQueue.HeapDown | pqueue.go:73 | the sift-down loop over the queue's Less and Swap computes Down, and reports whether the element moved |
| PQueue.HeapUp | pqueue.go:81 | the sift-up loop, with Go's truncating parent index, computes Up |
| PQueue.HeapInit | pqueue.go:73 | heap.Init over the queue's primitives computes Init |
| PQueue.HeapPush | pqueue.go:81 | heap.Push over the queue's primitives computes Push |
| PQueue.HeapPop | pqueue.go:87 | heap.Pop over the queue's primitives computes Pop |
| PQueue.HeapRemove | pqueue_test.go:202 | heap.Remove over the queue's primitives computes Remove |
| Scenarios.FreshQueueOf | pqueue_test.go:27-33 | raw Push of every element leaves them in push order, heap not built |
| Scenarios.MemberBounds | pqueue_test.go:125-140 | Member succeeds at every index below Len with that element, and fails out of bounds at Len and Len + 1 |
| Scenarios.HeapifyTwice | pqueue.go:71-76 | heapify is idempotent: a second call leaves the min-heap the first built |
| Scenarios.LessThenSwap | pqueue_test.go:51-70 | with [132, 256], Less(0, 1) holds and Swap(0, 1) gives [256, 132] |
| Scenarios.RawPop | pqueue_test.go:110-123 | raw Pop of [128, 256, 512] returns 512 and leaves two elements |
| Scenarios.InitOfTestItems | pqueue_test.go:188-200 | heap.Init of [8, 3, 9, 1, 10, 2, 5, 6, 7, 4] gives [1, 3, 2, 6, 4, 9, 5, 8, 7, 10] |
| Scenarios.RemoveFromTestHeap | pqueue_test.go:202-212 | heap.Remove at index 5 of that heap returns priority 9 and leaves 1 at index 0 |
| Scenarios.HeapRemoveAtFive | pqueue_test.go:188-213 | the same through the queue: removed priority 9, Member(0) has priority 1, nine elements left |
| Scenarios.PushZeroAfterInit | pqueue_test.go:169-186 | heap.Init then heap.Push of priority 0 onto non-negative priorities: one more element and priority 0 at index 0 |
| Scenarios.PopAfterInit | pqueue_test.go:155-167 | heap.Init then heap.Pop returns an element no greater than any left, and nothing is lost |
| Scenarios.AddSliceThenPop | pqueue_test.go:91-108 | raw pushes, then AddSlice: Len is the sum of both lengths and the next heap.Pop returns an element of minimum priority among all of them |
| Scenarios.RemoveAll | pqueue.go:85-88 | Remove until empty yields every element exactly once, in non-decreasing priority |
| Scenarios.AddSliceAfterAdd | pqueue.go:90-95 | Add of priority 5 then AddSlice of priority 1: Remove returns 5 while 1 is still in the queue |
| Scenarios.AddSliceRestoringHeapAfterAdd | pqueue.go:90-95 | the same calls with the corrected AddSlice: Remove returns 1 |

## Left out

- The `QERR_NOT_QUEUEABLE` panic in `Push`: with a typed element, a value without a priority cannot be pushed.
- `Error.Error()` and the error message strings: only which error is returned is modelled.
- The capacity hint of 100 in `NewQueue`: it is not observable beyond "starts empty".
- `sort.Sort` over the queue: it is library code, not this repository's code. `Queue.Swap` keeps the multiset, which is all a sort needs from the queue.
- `example.go`: a demonstration program that only prints.
- Random test data, printing in the tests, and element payloads: only the integer priority and the object's identity (`handle`) are modelled.
- Tie-breaking among equal priorities: the code defines none, and the contracts determine the exact positions only where the functions do.
- Go's `int` width: priorities and indices are unbounded integers. The overflow guard `j1 < 0` in the library's sift-down cannot fire, so it is left out.
- Negative indices: `Member`, `Less` and `Swap` take naturals. In Go, a negative index passes `Member`'s `i < Len()` test and then panics on the slice access.
- Aliasing: `Collection()` returns the value of the sequence. In Go it returns the slice itself, which the caller could change behind the queue's back.
- Element priorities: an `Item`'s priority is fixed. In Go, `Less` calls `Priority()` on every comparison, and the slice holds the caller's objects (usually pointers), so changing a queued element's priority through the caller's pointer breaks heap order without notice; the heap and minimum guarantees of `Add` and `Remove` then no longer hold, and nothing in the model covers that.
- Panics on an empty `Pop`/`Remove` and on an out-of-range `Less`, `Swap` or `heap.Remove` index: these are preconditions, not error results.
- The source of `container/heap` is not part of this model. Its routines follow the library's documented algorithm, including `down` reporting whether it moved the element, and `Remove` sifting up only when `down` did not move it.
- PQueue.Queue.Remove: its heap and minimum guarantees are stated only when the queue was a heap or not yet heaped, because in any other state the code does not give them.
- PQueue.Queue.Add: its heap guarantee is stated only under the same condition, for the same reason.

## Findings

| source | as written | input that shows it | evidently intended | confidence | as-written member | corrected member |
|---|---|---|---|---|---|---|
| pqueue.go:90-95 | `AddSlice` appends and calls `heapify`, which does nothing once the heap has been built, so the new elements stay unheaped | `NewQueue()`, `Add` of priority 5, `AddSlice` of [priority 1], then `Remove` returns 5 while 1 remains | as its comment says, append and then min-heap all the elements, so `Remove` returns 1 | not executed | Scenarios.AddSliceAfterAdd | Scenarios.AddSliceRestoringHeapAfterAdd |
