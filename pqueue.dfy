/**
 The priority queue of pqueue.go. A Queue holds its elements in a growable
 slice, `collection`, and a flag, `heaped`, that makes heap construction lazy:
 the first heap-maintaining operation runs heap.Init and sets the flag, and
 nothing ever clears it again. Len, Less, Swap, Push and Pop are the raw
 primitives of Go's heap.Interface; Push and Pop only append and truncate.

 The container/heap routines the queue relies on (HeapDown, HeapUp, HeapInit,
 HeapPush, HeapPop, HeapRemove) are written here as loops over those
 primitives alone, and each is proved to compute the function of the same
 name in BinaryHeap, whose lemmas say what the result is.
 */
module PQueue {
  import opened BinaryHeap

  /** The queue's error values; only QERR_OUT_OF_BOUNDS can be returned. */
  datatype Error = OutOfBounds

  datatype Result<T> = Ok(value: T) | Err(error: Error)

  class Queue {
    var heaped: bool
    var collection: seq<Item>

    /** NewQueue: an empty queue whose heap has not been built. */
    constructor ()
      ensures !heaped && collection == []
    {
      heaped := false;
      collection := [];
    }

    function Len(): (r: nat)
      reads this
      ensures r == |collection|
    {
      |collection|
    }

    /** Less(i, j) compares the priorities at i and j, strictly. */
    function Less(i: nat, j: nat): (r: bool)
      reads this
      requires i < Len() && j < Len()
      ensures r <==> collection[i].priority < collection[j].priority
    {
      BinaryHeap.Less(collection, i, j)
    }

    /** Member(i): the element at i, or the out-of-bounds error past the end. */
    function Member(i: nat): (r: Result<Item>)
      reads this
      ensures r.Ok? <==> i < Len()
      ensures r.Ok? ==> r.value == collection[i]
      ensures r.Err? ==> r.error == OutOfBounds
    {
      if i < Len() then Ok(collection[i]) else Err(OutOfBounds)
    }

    /** Collection: the elements in storage order, which Member reads one by one. */
    function Collection(): (r: seq<Item>)
      reads this
      ensures |r| == Len()
      ensures forall i :: 0 <= i < |r| ==> Member(i) == Ok(r[i])
    {
      collection
    }

    /** Swap(i, j) exchanges exactly the elements at i and j. */
    method Swap(i: nat, j: nat)
      requires i < Len() && j < Len()
      modifies this
      ensures collection == BinaryHeap.Swap(old(collection), i, j)
      ensures multiset(collection) == multiset(old(collection))
      ensures heaped == old(heaped)
    {
      collection := collection[i := collection[j]][j := collection[i]];
    }

    /** Push(x) appends x, without restoring heap order. */
    method Push(x: Item)
      modifies this
      ensures collection == old(collection) + [x]
      ensures heaped == old(heaped)
    {
      collection := collection + [x];
    }

    /** Pop() takes off and returns the last element, without restoring heap order. */
    method Pop() returns (x: Item)
      requires Len() > 0
      modifies this
      ensures x == old(collection)[|old(collection)| - 1]
      ensures collection == old(collection)[..|old(collection)| - 1]
      ensures heaped == old(heaped)
    {
      x := collection[Len() - 1];
      collection := collection[0..Len() - 1];
    }

    /** heapify: build the heap the first time only. */
    method Heapify()
      modifies this
      ensures heaped
      ensures collection == if old(heaped) then old(collection) else Init(old(collection))
      ensures !old(heaped) ==> IsMinHeap(collection)
      ensures multiset(collection) == multiset(old(collection))
    {
      if !heaped {
        HeapInit(this);
        InitMakesHeap(old(collection));
        heaped := true;
      }
    }

    /** Add(x): heapify, then heap.Push. The result is a heap holding x as well
        when the queue was a heap already, or its heap had not been built yet. */
    method Add(x: Item)
      modifies this
      ensures heaped
      ensures collection == BinaryHeap.Push(if old(heaped) then old(collection) else Init(old(collection)), x)
      ensures |collection| == |old(collection)| + 1
      ensures multiset(collection) == multiset(old(collection)) + multiset{x}
      ensures !old(heaped) || IsMinHeap(old(collection)) ==> IsMinHeap(collection)
    {
      Heapify();
      ghost var before := collection;
      HeapPush(this, x);
      if IsMinHeap(before) {
        PushKeepsHeap(before, x);
      }
    }

    /** Remove(): heapify, then heap.Pop (which panics on an empty queue). When
        the queue was a heap, or its heap had not been built, the element
        returned has a priority no greater than any left, and what is left is
        a heap. */
    method Remove() returns (x: Item)
      requires Len() > 0
      modifies this
      ensures heaped
      ensures (x, collection) == BinaryHeap.Pop(if old(heaped) then old(collection) else Init(old(collection)))
      ensures |collection| == |old(collection)| - 1
      ensures multiset(collection) + multiset{x} == multiset(old(collection))
      ensures !old(heaped) || IsMinHeap(old(collection)) ==>
                IsMinHeap(collection) && forall y :: y in collection ==> x.priority <= y.priority
    {
      Heapify();
      ghost var before := collection;
      x := HeapPop(this);
      if IsMinHeap(before) {
        PopKeepsHeap(before);
      }
    }

    /** AddSlice(s) appends s, then heapifies; once the heap has been built,
        heapify does nothing, so the appended elements are left where they are. */
    method AddSlice(s: seq<Item>)
      modifies this
      ensures heaped
      ensures collection == if old(heaped) then old(collection) + s else Init(old(collection) + s)
      ensures |collection| == |old(collection)| + |s|
      ensures multiset(collection) == multiset(old(collection)) + multiset(s)
      ensures !old(heaped) ==> IsMinHeap(collection)
    {
      collection := collection + s;
      Heapify();
    }

    /** AddSlice as its comment describes it: append s, then min-heap all the
        elements, whatever the state of the flag. */
    method AddSliceRestoringHeap(s: seq<Item>)
      modifies this
      ensures heaped
      ensures collection == Init(old(collection) + s)
      ensures |collection| == |old(collection)| + |s|
      ensures multiset(collection) == multiset(old(collection)) + multiset(s)
      ensures IsMinHeap(collection)
    {
      collection := collection + s;
      HeapInit(this);
      InitMakesHeap(old(collection) + s);
      heaped := true;
    }
  }

  /** container/heap's down(h, i0, n) on the queue: reports whether the element moved. */
  method HeapDown(h: Queue, i0: nat, n: nat) returns (moved: bool)
    requires n <= h.Len()
    modifies h
    ensures h.collection == Down(old(h.collection), i0, n)
    ensures moved == Moves(old(h.collection), i0, n)
    ensures h.heaped == old(h.heaped)
  {
    var i := i0;
    while true
      invariant i0 <= i && |h.collection| == |old(h.collection)|
      invariant Down(h.collection, i, n) == Down(old(h.collection), i0, n)
      invariant i == i0 ==> h.collection == old(h.collection)
      invariant i0 < i ==> Moves(old(h.collection), i0, n)
      invariant h.heaped == old(h.heaped)
      decreases n - i
    {
      var j1 := 2 * i + 1;
      if j1 >= n {
        break;
      }
      var j := j1;
      if j1 + 1 < n && h.Less(j1 + 1, j1) {
        j := j1 + 1; // right child
      }
      ghost var s := h.collection;
      assert j == SmallerChild(s, i, n);
      if !h.Less(j, i) {
        break;
      }
      assert Moves(s, i, n) && Down(s, i, n) == Down(BinaryHeap.Swap(s, i, j), j, n);
      h.Swap(i, j);
      i := j;
    }
    moved := i > i0;
  }

  /** container/heap's up(h, j0) on the queue. */
  method HeapUp(h: Queue, j0: nat)
    requires j0 < h.Len()
    modifies h
    ensures h.collection == Up(old(h.collection), j0)
    ensures h.heaped == old(h.heaped)
  {
    var j: nat := j0;
    while true
      invariant j < |h.collection| == |old(h.collection)|
      invariant Up(h.collection, j) == Up(old(h.collection), j0)
      invariant h.heaped == old(h.heaped)
      decreases j
    {
      // Go's (j - 1) / 2 truncates toward zero: the root is its own parent.
      var i: nat := if j == 0 then 0 else (j - 1) / 2;
      if i == j || !h.Less(j, i) {
        break;
      }
      h.Swap(i, j);
      j := i;
    }
  }

  /** container/heap's Init on the queue. */
  method HeapInit(h: Queue)
    modifies h
    ensures h.collection == Init(old(h.collection))
    ensures h.heaped == old(h.heaped)
  {
    var n := h.Len();
    var i: int := (n / 2) as int - 1;
    while i >= 0
      invariant -1 <= i && |h.collection| == n
      invariant InitFrom(h.collection, i, n) == Init(old(h.collection))
      invariant h.heaped == old(h.heaped)
      decreases i + 1
    {
      var moved := HeapDown(h, i, n);
      i := i - 1;
    }
  }

  /** container/heap's Push on the queue. */
  method HeapPush(h: Queue, x: Item)
    modifies h
    ensures h.collection == BinaryHeap.Push(old(h.collection), x)
    ensures h.heaped == old(h.heaped)
  {
    h.Push(x);
    HeapUp(h, h.Len() - 1);
  }

  /** container/heap's Pop on the queue (it needs a non-empty queue). */
  method HeapPop(h: Queue) returns (x: Item)
    requires h.Len() > 0
    modifies h
    ensures (x, h.collection) == BinaryHeap.Pop(old(h.collection))
    ensures h.heaped == old(h.heaped)
  {
    var n := h.Len() - 1;
    h.Swap(0, n);
    var moved := HeapDown(h, 0, n);
    x := h.Pop();
  }

  /** container/heap's Remove(h, i) on the queue (it needs i < h.Len()). */
  method HeapRemove(h: Queue, i: nat) returns (x: Item)
    requires i < h.Len()
    modifies h
    ensures (x, h.collection) == BinaryHeap.Remove(old(h.collection), i)
    ensures h.heaped == old(h.heaped)
  {
    ghost var s0 := h.collection;
    var n := h.Len() - 1;
    assert n + 1 == |s0|;
    if n != i {
      h.Swap(i, n);
      var moved := HeapDown(h, i, n);
      if !moved {
        HeapUp(h, i);
      }
      assert h.collection == RemoveSift(s0, i, n);
      RemoveIsLast(s0, i, n, h.collection);
    } else {
      RemoveIsLast(s0, i, n, h.collection);
    }
    ghost var t := h.collection;
    assert |t| == n + 1;
    x := h.Pop();
    assert x == t[n] && h.collection == t[..n];
  }
}
