/**
 Client code for the queue, following the cases its test file exercises:
 each method builds a fresh queue and states what the caller can rely on
 afterwards. The methods use the public operations, except that HeapifyTwice
 and RemoveAll also call the package-internal heapify (unexported in Go,
 so only code inside the package can do the same).
 */
module Scenarios {
  import opened BinaryHeap
  import opened PQueue

  /** Fills a fresh queue with s through the raw Push, one element at a time
      (initCollection in the tests). */
  method FreshQueueOf(s: seq<Item>) returns (q: Queue)
    ensures fresh(q) && q.collection == s && !q.heaped
  {
    q := new Queue();
    var k := 0;
    while k < |s|
      invariant 0 <= k <= |s|
      invariant q.collection == s[..k] && !q.heaped
    {
      q.Push(s[k]);
      k := k + 1;
    }
    assert s[..k] == s;
  }

  /** Member on a queue filled with s: every index below the length yields its
      element, the length and the index past it yield the out-of-bounds error. */
  method MemberBounds(s: seq<Item>) returns (inside: seq<Result<Item>>, past: Result<Item>, beyond: Result<Item>)
    ensures |inside| == |s| && forall i :: 0 <= i < |s| ==> inside[i] == Ok(s[i])
    ensures past == Err(OutOfBounds) && beyond == Err(OutOfBounds)
  {
    var q := FreshQueueOf(s);
    inside := [];
    var i := 0;
    while i < q.Len()
      invariant 0 <= i <= |s| && |inside| == i
      invariant forall k :: 0 <= k < i ==> inside[k] == Ok(s[k])
    {
      inside := inside + [q.Member(i)];
      i := i + 1;
    }
    past := q.Member(q.Len());
    beyond := q.Member(q.Len() + 1);
  }

  /** heapify twice does what heapify once does: build the heap of s. */
  method HeapifyTwice(s: seq<Item>) returns (once: seq<Item>, twice: seq<Item>)
    ensures once == twice == Init(s) && IsMinHeap(twice)
  {
    var q := FreshQueueOf(s);
    q.Heapify();
    once := q.Collection();
    q.Heapify();
    twice := q.Collection();
  }

  /** Less, then Swap, on the two-element queue [132, 256]. */
  method LessThenSwap() returns (less: bool, first: Result<Item>, second: Result<Item>)
    ensures less
    ensures first.Ok? && first.value.priority == 256 && second.Ok? && second.value.priority == 132
  {
    var q := new Queue();
    q.Push(Item(132, 0));
    q.Push(Item(256, 1));
    less := q.Less(0, 1);
    q.Swap(0, 1);
    first := q.Member(0);
    second := q.Member(1);
  }

  /** The raw Pop on [128, 256, 512] returns the last element pushed, not the
      one with the smallest priority. */
  method RawPop() returns (x: Item, len: nat)
    ensures x.priority == 512 && len == 2
  {
    var q := new Queue();
    q.Push(Item(128, 0));
    q.Push(Item(256, 1));
    q.Push(Item(512, 2));
    x := q.Pop();
    len := q.Len();
  }

  /** Items with the given priorities, the k-th one with handle k. */
  function ItemsOf(p: seq<int>): (s: seq<Item>)
    ensures |s| == |p| && forall k :: 0 <= k < |p| ==> s[k] == Item(p[k], k)
  {
    seq(|p|, k requires 0 <= k < |p| => Item(p[k], k))
  }

  /** The ten items of the heap-remove test, in the order they are pushed. */
  function TestItems(): (s: seq<Item>)
    ensures |s| == 10
  {
    ItemsOf([8, 3, 9, 1, 10, 2, 5, 6, 7, 4])
  }

  /** The priorities of t, position by position, are p. */
  ghost predicate PrioritiesAre(t: seq<Item>, p: seq<int>)
  {
    |t| == |p| && forall k :: 0 <= k < |t| ==> t[k].priority == p[k]
  }

  /** Swap exchanges the priorities at i and j and no others. */
  lemma SwapPriorities(t: seq<Item>, p: seq<int>, q: seq<int>, i: nat, j: nat)
    requires PrioritiesAre(t, p) && i < |t| && j < |t| && q == p[i := p[j]][j := p[i]]
    ensures PrioritiesAre(Swap(t, i, j), q)
  {
    var u := Swap(t, i, j);
    forall k | 0 <= k < |u|
      ensures u[k].priority == q[k]
    {
    }
  }

  /** One step of down that swaps i with its smaller child j, read off the
      priorities p before and q after. */
  lemma DownSwapsAt(t: seq<Item>, p: seq<int>, q: seq<int>, i: nat, j: nat, n: nat)
    requires PrioritiesAre(t, p) && n == |t| && 2 * i + 1 < n
    requires if 2 * i + 2 < n && p[2 * i + 2] < p[2 * i + 1] then j == 2 * i + 2 else j == 2 * i + 1
    requires p[j] < p[i] && q == p[i := p[j]][j := p[i]]
    ensures Down(t, i, n) == Down(Swap(t, i, j), j, n)
    ensures PrioritiesAre(Swap(t, i, j), q)
  {
    assert SmallerChild(t, i, n) == j;
    SwapPriorities(t, p, q, i, j);
  }

  /** down at i does nothing: i has no child, or its smaller child is not less. */
  lemma DownStopsAt(t: seq<Item>, p: seq<int>, i: nat, n: nat)
    requires PrioritiesAre(t, p) && n <= |t|
    requires 2 * i + 1 < n ==>
               var j := if 2 * i + 2 < n && p[2 * i + 2] < p[2 * i + 1] then 2 * i + 2 else 2 * i + 1;
               p[i] <= p[j]
    ensures Down(t, i, n) == t
  {
  }

  /** heap.Init on the test items, sift by sift: 10 sinks below 4; 1 stays;
      9 sinks below 2; 3 sinks below 1; 8 sinks past 1, 3 and 6. */
  lemma InitOfTestItems()
    ensures PrioritiesAre(Init(TestItems()), [1, 3, 2, 6, 4, 9, 5, 8, 7, 10])
  {
    assert PrioritiesAre(TestItems(), [8, 3, 9, 1, 10, 2, 5, 6, 7, 4]);
    InitOfTestPriorities(TestItems());
  }

  lemma InitOfTestPriorities(t0: seq<Item>)
    requires PrioritiesAre(t0, [8, 3, 9, 1, 10, 2, 5, 6, 7, 4])
    ensures PrioritiesAre(Init(t0), [1, 3, 2, 6, 4, 9, 5, 8, 7, 10])
  {
    var t1 := SiftTestItemsAt4(t0);
    DownStopsAt(t1, [8, 3, 9, 1, 4, 2, 5, 6, 7, 10], 3, 10);
    var t2 := SiftTestItemsAt2(t1);
    var t3 := SiftTestItemsAt1(t2);
    var t6 := SiftTestItemsAt0(t3);
    assert InitFrom(t0, 4, 10) == InitFrom(t1, 3, 10) == InitFrom(t1, 2, 10);
    assert InitFrom(t1, 2, 10) == InitFrom(t2, 1, 10) == InitFrom(t3, 0, 10) == t6;
  }

  lemma SiftTestItemsAt4(t0: seq<Item>) returns (t1: seq<Item>)
    requires PrioritiesAre(t0, [8, 3, 9, 1, 10, 2, 5, 6, 7, 4])
    ensures Down(t0, 4, 10) == t1 && PrioritiesAre(t1, [8, 3, 9, 1, 4, 2, 5, 6, 7, 10])
  {
    DownSwapsAt(t0, [8, 3, 9, 1, 10, 2, 5, 6, 7, 4], [8, 3, 9, 1, 4, 2, 5, 6, 7, 10], 4, 9, 10);
    t1 := Swap(t0, 4, 9);
    DownStopsAt(t1, [8, 3, 9, 1, 4, 2, 5, 6, 7, 10], 9, 10);
  }

  lemma SiftTestItemsAt2(t1: seq<Item>) returns (t2: seq<Item>)
    requires PrioritiesAre(t1, [8, 3, 9, 1, 4, 2, 5, 6, 7, 10])
    ensures Down(t1, 2, 10) == t2 && PrioritiesAre(t2, [8, 3, 2, 1, 4, 9, 5, 6, 7, 10])
  {
    DownSwapsAt(t1, [8, 3, 9, 1, 4, 2, 5, 6, 7, 10], [8, 3, 2, 1, 4, 9, 5, 6, 7, 10], 2, 5, 10);
    t2 := Swap(t1, 2, 5);
    DownStopsAt(t2, [8, 3, 2, 1, 4, 9, 5, 6, 7, 10], 5, 10);
  }

  lemma SiftTestItemsAt1(t2: seq<Item>) returns (t3: seq<Item>)
    requires PrioritiesAre(t2, [8, 3, 2, 1, 4, 9, 5, 6, 7, 10])
    ensures Down(t2, 1, 10) == t3 && PrioritiesAre(t3, [8, 1, 2, 3, 4, 9, 5, 6, 7, 10])
  {
    DownSwapsAt(t2, [8, 3, 2, 1, 4, 9, 5, 6, 7, 10], [8, 1, 2, 3, 4, 9, 5, 6, 7, 10], 1, 3, 10);
    t3 := Swap(t2, 1, 3);
    DownStopsAt(t3, [8, 1, 2, 3, 4, 9, 5, 6, 7, 10], 3, 10);
  }

  lemma SiftTestItemsAt0(t3: seq<Item>) returns (t6: seq<Item>)
    requires PrioritiesAre(t3, [8, 1, 2, 3, 4, 9, 5, 6, 7, 10])
    ensures Down(t3, 0, 10) == t6 && PrioritiesAre(t6, [1, 3, 2, 6, 4, 9, 5, 8, 7, 10])
  {
    DownSwapsAt(t3, [8, 1, 2, 3, 4, 9, 5, 6, 7, 10], [1, 8, 2, 3, 4, 9, 5, 6, 7, 10], 0, 1, 10);
    t6 := SiftTestItemsOnFrom1(Swap(t3, 0, 1));
  }

  lemma SiftTestItemsOnFrom1(t4: seq<Item>) returns (t6: seq<Item>)
    requires PrioritiesAre(t4, [1, 8, 2, 3, 4, 9, 5, 6, 7, 10])
    ensures Down(t4, 1, 10) == t6 && PrioritiesAre(t6, [1, 3, 2, 6, 4, 9, 5, 8, 7, 10])
  {
    DownSwapsAt(t4, [1, 8, 2, 3, 4, 9, 5, 6, 7, 10], [1, 3, 2, 8, 4, 9, 5, 6, 7, 10], 1, 3, 10);
    t6 := SiftTestItemsOnFrom3(Swap(t4, 1, 3));
  }

  lemma SiftTestItemsOnFrom3(t5: seq<Item>) returns (t6: seq<Item>)
    requires PrioritiesAre(t5, [1, 3, 2, 8, 4, 9, 5, 6, 7, 10])
    ensures Down(t5, 3, 10) == t6 && PrioritiesAre(t6, [1, 3, 2, 6, 4, 9, 5, 8, 7, 10])
  {
    DownSwapsAt(t5, [1, 3, 2, 8, 4, 9, 5, 6, 7, 10], [1, 3, 2, 6, 4, 9, 5, 8, 7, 10], 3, 7, 10);
    t6 := Swap(t5, 3, 7);
    DownStopsAt(t6, [1, 3, 2, 6, 4, 9, 5, 8, 7, 10], 7, 10);
  }

  /** heap.Remove at index 5 of that heap: 9 swaps with the last element, 10,
      which neither sinks (index 5 has no child among the first nine) nor rises
      (its parent, at index 2, holds 2). */
  lemma RemoveFromTestHeap()
    ensures var (x, rest) := Remove(Init(TestItems()), 5);
            x.priority == 9 && |rest| == 9 && rest[0].priority == 1
  {
    InitOfTestItems();
    RemoveAtFive(Init(TestItems()));
  }

  lemma RemoveAtFive(h: seq<Item>)
    requires PrioritiesAre(h, [1, 3, 2, 6, 4, 9, 5, 8, 7, 10])
    ensures var (x, rest) := Remove(h, 5);
            x.priority == 9 && |rest| == 9 && rest[0].priority == 1
  {
    var w := Swap(h, 5, 9);
    SwapPriorities(h, [1, 3, 2, 6, 4, 9, 5, 8, 7, 10], [1, 3, 2, 6, 4, 10, 5, 8, 7, 9], 5, 9);
    DownStopsAt(w, [1, 3, 2, 6, 4, 10, 5, 8, 7, 9], 5, 9);
    assert !Moves(w, 5, 9);
    assert Parent(5) == 2 && !Less(w, 5, 2) && Up(w, 5) == w;
    assert RemoveSift(h, 5, 9) == w;
    RemoveIsLast(h, 5, 9, w);
  }

  /** The heap-remove test: after heap.Init of the ten test items, heap.Remove
      at index 5 returns priority 9 and the minimum, 1, stays at index 0. */
  method HeapRemoveAtFive() returns (r: Item, root: Result<Item>, len: nat)
    ensures r.priority == 9 && root.Ok? && root.value.priority == 1 && len == 9
  {
    var q := FreshQueueOf(TestItems());
    HeapInit(q);
    RemoveFromTestHeap();
    r := HeapRemove(q, 5);
    root := q.Member(0);
    len := q.Len();
  }

  /** The heap-push test: after heap.Init of elements with non-negative
      priorities, heap.Push of priority 0 lands at index 0. */
  method PushZeroAfterInit(s: seq<Item>, handle: nat) returns (len: nat, root: Result<Item>)
    requires forall y :: y in s ==> 0 <= y.priority
    ensures len == |s| + 1
    ensures root.Ok? && root.value.priority == 0
  {
    var q := FreshQueueOf(s);
    HeapInit(q);
    InitMakesHeap(s);
    ghost var h := q.collection;
    forall y | y in h
      ensures 0 <= y.priority
    {
      assert y in multiset(h);
    }
    HeapPush(q, Item(0, handle));
    PushSmallestReachesRoot(h, Item(0, handle));
    len := q.Len();
    root := q.Member(0);
  }

  /** The heap-pop test: heap.Init, then heap.Pop, returns an element no greater
      than any left in the collection. */
  method PopAfterInit(s: seq<Item>) returns (x: Item, rest: seq<Item>)
    requires 0 < |s|
    ensures forall y :: y in rest ==> x.priority <= y.priority
    ensures multiset(rest) + multiset{x} == multiset(s)
  {
    var q := FreshQueueOf(s);
    HeapInit(q);
    InitMakesHeap(s);
    PopKeepsHeap(q.collection);
    x := HeapPop(q);
    rest := q.Collection();
  }

  /** The push-slice test: elements pushed raw, then AddSlice of more; the length
      adds up and the next heap.Pop returns the minimum of everything. */
  method AddSliceThenPop(base: seq<Item>, extra: seq<Item>) returns (len: nat, x: Item)
    requires 0 < |base| + |extra|
    ensures len == |base| + |extra|
    ensures x in base + extra
    ensures forall y :: y in base + extra ==> x.priority <= y.priority
  {
    var q := FreshQueueOf(base);
    q.AddSlice(extra);
    len := q.Len();
    ghost var h := q.collection;
    PopKeepsHeap(h);
    x := HeapPop(q);
    assert x in multiset(base + extra);
    forall y | y in base + extra
      ensures x.priority <= y.priority
    {
      assert y in multiset(base + extra);
      if y != x {
        assert y in multiset(q.collection);
      }
    }
  }

  /** Remove until the queue is empty: the elements come out in order of
      priority, every one of them exactly once. */
  method RemoveAll(s: seq<Item>) returns (out: seq<Item>)
    ensures out == Drain(Init(s))
    ensures SortedByPriority(out) && multiset(out) == multiset(s)
  {
    var q := FreshQueueOf(s);
    q.Heapify();
    out := RemoveUntilEmpty(q);
    DrainInit(s);
  }

  /** The loop of RemoveAll, on a queue whose heap is built. */
  method RemoveUntilEmpty(q: Queue) returns (out: seq<Item>)
    requires q.heaped && IsMinHeap(q.collection)
    modifies q
    ensures out == Drain(old(q.collection))
  {
    out := [];
    ghost var target := Drain(q.collection);
    ConcatEmpty(out, target);
    while q.Len() > 0
      invariant q.heaped && IsMinHeap(q.collection)
      invariant out + Drain(q.collection) == target
      decreases q.Len()
    {
      var x := RemoveFromHeap(q);
      ConcatAssoc(out, [x], Drain(q.collection));
      out := out + [x];
    }
    ConcatEmpty(out, target);
  }

  /** Solver aids for RemoveUntilEmpty: sequence facts stated apart from the
      loop, where its Drain terms would make them costly to prove. */
  lemma ConcatAssoc(a: seq<Item>, b: seq<Item>, c: seq<Item>)
    ensures a + (b + c) == (a + b) + c
  {
  }

  lemma ConcatEmpty(a: seq<Item>, b: seq<Item>)
    ensures a == [] ==> a + b == b
    ensures b == [] ==> a + b == a
  {
  }

  /** One Remove on a queue whose heap is built hands out the head of the drain. */
  method RemoveFromHeap(q: Queue) returns (x: Item)
    requires q.heaped && IsMinHeap(q.collection) && q.Len() > 0
    modifies q
    ensures q.heaped && IsMinHeap(q.collection)
    ensures Drain(old(q.collection)) == [x] + Drain(q.collection)
    ensures q.Len() == old(q.Len()) - 1
  {
    x := q.Remove();
  }

  lemma DrainInit(s: seq<Item>)
    ensures SortedByPriority(Drain(Init(s))) && multiset(Drain(Init(s))) == multiset(s)
  {
    InitMakesHeap(s);
    DrainSorted(Init(s));
  }

  /** heap.Push onto the heap built from nothing leaves the one element. */
  lemma PushOntoEmpty(x: Item)
    ensures Push(Init([]), x) == [x]
  {
    assert Init([]) == [];
  }

  /** heap.Init of two elements puts the smaller one first. */
  lemma InitOfPair(a: Item, b: Item)
    requires b.priority < a.priority
    ensures Init([a, b]) == [b, a]
  {
    var s := [a, b];
    assert SmallerChild(s, 0, 2) == 1 && Less(s, 1, 0);
    var t := Swap(s, 0, 1);
    assert Down(t, 1, 2) == t;
    assert t == [b, a];
  }

  /** heap.Pop of two elements hands out the first. */
  lemma PopOfPair(a: Item, b: Item)
    ensures Pop([a, b]) == (a, [b])
  {
    var s := [a, b];
    var w := Swap(s, 0, 1);
    assert w == [b, a] && w[..1] == [b];
    assert Down(w, 0, 1) == w;
  }

  /** Counterexample to AddSlice's promise: once Add has built the heap, AddSlice
      of a smaller element leaves it behind, and Remove hands out 5 while 1 is
      still in the queue. */
  method AddSliceAfterAdd() returns (x: Item, rest: seq<Item>)
    ensures x == Item(5, 0) && rest == [Item(1, 1)]
    ensures exists y :: y in rest && y.priority < x.priority
  {
    var q := new Queue();
    PushOntoEmpty(Item(5, 0));
    q.Add(Item(5, 0));
    q.AddSlice([Item(1, 1)]);
    assert q.collection == [Item(5, 0), Item(1, 1)];
    PopOfPair(Item(5, 0), Item(1, 1));
    x := q.Remove();
    rest := q.Collection();
    assert rest[0] in rest;
  }

  /** The same sequence of calls with the corrected AddSlice: Remove hands out 1. */
  method AddSliceRestoringHeapAfterAdd() returns (x: Item, rest: seq<Item>)
    ensures x == Item(1, 1) && rest == [Item(5, 0)]
  {
    var q := new Queue();
    PushOntoEmpty(Item(5, 0));
    q.Add(Item(5, 0));
    InitOfPair(Item(5, 0), Item(1, 1));
    q.AddSliceRestoringHeap([Item(1, 1)]);
    assert q.collection == [Item(1, 1), Item(5, 0)];
    PopOfPair(Item(1, 1), Item(5, 0));
    x := q.Remove();
    rest := q.Collection();
  }
}
