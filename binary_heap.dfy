/**
 The binary min-heap algorithm that the queue delegates to (Go's container/heap),
 stated over the sequence of queue elements. Each function follows the library
 routine of the same name step by step: Down and Up are the sift loops, Init
 sifts down from the last inner node to the root, Push appends and sifts up,
 Pop moves the root to the end and sifts down over the rest, and Remove does
 the same for an arbitrary index, sifting up when sifting down did nothing.
 The lemmas prove what the library promises of them: they keep the multiset
 of elements, they leave a min-heap behind, and the element removed from a
 heap's root has the smallest priority.
 */
module BinaryHeap {

  /** A queue element as the queue sees it: its integer priority, and a handle
      that stands for the caller's object the queue refers to. */
  datatype Item = Item(priority: int, handle: nat)

  /** Index of the parent of position c (c > 0) in the array form of a binary tree. */
  function Parent(c: nat): (p: nat)
    requires 0 < c
    ensures p < c && (c == 2 * p + 1 || c == 2 * p + 2)
  {
    (c - 1) / 2
  }

  /** The queue's Less: strict comparison of priorities. */
  predicate Less(s: seq<Item>, i: nat, j: nat)
    requires i < |s| && j < |s|
  {
    s[i].priority < s[j].priority
  }

  /** The queue's Swap: positions i and j exchanged, nothing else changed. */
  function Swap(s: seq<Item>, i: nat, j: nat): (r: seq<Item>)
    requires i < |s| && j < |s|
    ensures |r| == |s| && r[i] == s[j] && r[j] == s[i]
    ensures forall k :: 0 <= k < |s| && k != i && k != j ==> r[k] == s[k]
    ensures multiset(r) == multiset(s)
  {
    s[i := s[j]][j := s[i]]
  }

  /** Heap order between position c and its parent. */
  ghost predicate Ordered(s: seq<Item>, c: nat)
    requires 0 < c < |s|
  {
    s[Parent(c)].priority <= s[c].priority
  }

  /** The first n positions of s form a binary min-heap. */
  ghost predicate IsHeapPrefix(s: seq<Item>, n: nat)
    requires n <= |s|
  {
    forall c :: 0 < c < n ==> Ordered(s, c)
  }

  ghost predicate IsMinHeap(s: seq<Item>)
  {
    IsHeapPrefix(s, |s|)
  }

  /** Priorities never decrease from left to right. */
  ghost predicate SortedByPriority(s: seq<Item>)
  {
    forall a, b :: 0 <= a < b < |s| ==> s[a].priority <= s[b].priority
  }

  /** The child of i (within the first n positions) that down compares with i:
      the right child only when it is strictly less than the left one. */
  function SmallerChild(s: seq<Item>, i: nat, n: nat): (j: nat)
    requires 2 * i + 1 < n <= |s|
    ensures 0 < j < n && Parent(j) == i
    ensures forall c :: 0 < c < n && Parent(c) == i ==> s[j].priority <= s[c].priority
    ensures j == 2 * i + 2 <==> 2 * i + 2 < n && s[2 * i + 2].priority < s[2 * i + 1].priority
  {
    var j1 := 2 * i + 1;
    if j1 + 1 < n && Less(s, j1 + 1, j1) then j1 + 1 else j1
  }

  /** down's first step swaps, so down reports that the element moved. */
  predicate Moves(s: seq<Item>, i: nat, n: nat)
    requires n <= |s|
  {
    2 * i + 1 < n && Less(s, SmallerChild(s, i, n), i)
  }

  /** container/heap's down(h, i, n): sift the element at i down within the
      first n positions while its smaller child is strictly less than it. */
  function Down(s: seq<Item>, i: nat, n: nat): (r: seq<Item>)
    requires n <= |s|
    ensures |r| == |s| && multiset(r) == multiset(s)
    ensures forall k :: 0 <= k < |s| && (k < i || n <= k) ==> r[k] == s[k]
    decreases n - i
  {
    var j1 := 2 * i + 1;
    if j1 >= n then s
    else
      var j := SmallerChild(s, i, n);
      if !Less(s, j, i) then s
      else Down(Swap(s, i, j), j, n)
  }

  /** container/heap's up(h, j): sift the element at j up while it is strictly
      less than its parent. */
  function Up(s: seq<Item>, j: nat): (r: seq<Item>)
    requires j < |s|
    ensures |r| == |s| && multiset(r) == multiset(s)
    ensures forall k :: j < k < |s| ==> r[k] == s[k]
    decreases j
  {
    if j == 0 then s
    else if !Less(s, j, Parent(j)) then s
    else Up(Swap(s, Parent(j), j), Parent(j))
  }

  /** The loop of container/heap's Init from index i down to 0. */
  function InitFrom(s: seq<Item>, i: int, n: nat): (r: seq<Item>)
    requires n <= |s|
    ensures |r| == |s| && multiset(r) == multiset(s)
    decreases i + 1
  {
    if i < 0 then s else InitFrom(Down(s, i, n), i - 1, n)
  }

  /** container/heap's Init: sift down every inner node, last one first. */
  function Init(s: seq<Item>): (r: seq<Item>)
    ensures |r| == |s| && multiset(r) == multiset(s)
  {
    InitFrom(s, |s| / 2 - 1, |s|)
  }

  /** container/heap's Push: append x, then sift it up. */
  function Push(s: seq<Item>, x: Item): (r: seq<Item>)
    ensures |r| == |s| + 1 && multiset(r) == multiset(s) + multiset{x}
  {
    Up(s + [x], |s|)
  }

  /** container/heap's Pop: swap the root with the last element, sift the new
      root down over the others, then take the last element off. The result is
      the element taken off and what remains. */
  function Pop(s: seq<Item>): (r: (Item, seq<Item>))
    requires 0 < |s|
    ensures r.0 == s[0]
    ensures |r.1| == |s| - 1 && multiset(r.1) + multiset{r.0} == multiset(s)
  {
    var n := |s| - 1;
    var t := Down(Swap(s, 0, n), 0, n);
    SplitLast(t, n);
    (t[n], t[..n])
  }

  /** The sifting part of container/heap's Remove(h, i), for i < n == |s| - 1:
      the element at i swapped with the last one, then sifted down within the
      first n positions, or up when sifting down did not move it. */
  function RemoveSift(s: seq<Item>, i: nat, n: nat): (t: seq<Item>)
    requires i < n && n + 1 == |s|
    ensures |t| == |s| && multiset(t) == multiset(s) && t[n] == s[i]
  {
    var w := Swap(s, i, n);
    var d := Down(w, i, n);
    if Moves(w, i, n) then d else Up(d, i)
  }

  /** container/heap's Remove(h, i): unless i is the last position, swap it with
      the last element and sift down; if that did not move it, sift it up. Then
      take the last element off. */
  function Remove(s: seq<Item>, i: nat): (r: (Item, seq<Item>))
    requires i < |s|
    ensures r.0 == s[i]
    ensures |r.1| == |s| - 1 && multiset(r.1) + multiset{r.0} == multiset(s)
  {
    var n := |s| - 1;
    var t := if n != i then RemoveSift(s, i, n) else s;
    SplitLast(t, n);
    (t[n], t[..n])
  }

  /** Taking the last element off a sequence splits its multiset in two. */
  lemma SplitLast(t: seq<Item>, n: nat)
    requires n + 1 == |t|
    ensures multiset(t[..n]) + multiset{t[n]} == multiset(t)
  {
    assert t == t[..n] + [t[n]];
  }

  /** heap.Remove hands back the last element of the sifted sequence and keeps the others. */
  lemma RemoveIsLast(s: seq<Item>, i: nat, n: nat, t: seq<Item>)
    requires i <= n && n + 1 == |s|
    requires t == if n != i then RemoveSift(s, i, n) else s
    ensures Remove(s, i) == (t[n], t[..n])
  {
  }

  /** Pop the root until nothing is left: the order in which a queue hands out
      its elements when they are removed one by one. */
  function Drain(s: seq<Item>): (r: seq<Item>)
    ensures |r| == |s| && multiset(r) == multiset(s)
    decreases |s|
  {
    if |s| == 0 then []
    else
      var (x, t) := Pop(s);
      [x] + Drain(t)
  }

  // ---------------------------------------------------------------------------
  // Heap order
  // ---------------------------------------------------------------------------

  /** What holds while down is at position i, having started at i0: every
      parent/child pair whose parent is at lo or beyond is in order, except the
      pairs below i and, before the first swap, the pair above i0; and the
      parent of i is no greater than the children of i. */
  ghost predicate DownInv(s: seq<Item>, lo: nat, i0: nat, i: nat, n: nat)
  {
    && lo <= i0 <= i && n <= |s|
    && (forall c :: 0 < c < n && lo <= Parent(c) && Parent(c) != i && (c != i0 || i0 < i) ==> Ordered(s, c))
    && (0 < i && lo <= Parent(i) ==>
          forall c :: 0 < c < n && Parent(c) == i ==> s[Parent(i)].priority <= s[c].priority)
  }

  /** What down establishes: every pair whose parent is at lo or beyond is in
      order, except the pair above i0 when the element did not move. */
  ghost predicate DownPost(s: seq<Item>, lo: nat, i0: nat, n: nat, moved: bool)
    requires n <= |s|
  {
    forall c :: 0 < c < n && lo <= Parent(c) && (c != i0 || moved) ==> Ordered(s, c)
  }

  lemma {:induction false} DownStep(s: seq<Item>, lo: nat, i0: nat, i: nat, n: nat)
    requires DownInv(s, lo, i0, i, n) && Moves(s, i, n)
    ensures DownInv(Swap(s, i, SmallerChild(s, i, n)), lo, i0, SmallerChild(s, i, n), n)
  {
    var j := SmallerChild(s, i, n);
    var t := Swap(s, i, j);
    forall c | 0 < c < n && lo <= Parent(c) && Parent(c) != j && (c != i0 || i0 < j)
      ensures Ordered(t, c)
    {
      if c == j {
      } else if c == i {
        assert s[Parent(i)].priority <= s[j].priority;
      } else if Parent(c) == i {
        assert s[j].priority <= s[c].priority;
      } else {
        assert Ordered(s, c);
      }
    }
    forall c | 0 < c < n && Parent(c) == j
      ensures t[Parent(j)].priority <= t[c].priority
    {
      assert Ordered(s, c);
    }
  }

  /** down leaves in order every pair that DownInv promised, and the pairs below
      the position it stopped at. */
  lemma {:induction false} DownOrders(s: seq<Item>, lo: nat, i0: nat, i: nat, n: nat)
    requires DownInv(s, lo, i0, i, n)
    ensures DownPost(Down(s, i, n), lo, i0, n, i0 < i || Moves(s, i, n))
    decreases n - i
  {
    if Moves(s, i, n) {
      var j := SmallerChild(s, i, n);
      DownStep(s, lo, i0, i, n);
      DownOrders(Swap(s, i, j), lo, i0, j, n);
    } else if 2 * i + 1 < n {
      var j := SmallerChild(s, i, n);
      forall c | 0 < c < n && lo <= Parent(c) && (c != i0 || i0 < i)
        ensures Ordered(s, c)
      {
        if Parent(c) == i {
          assert s[i].priority <= s[j].priority <= s[c].priority;
        }
      }
    }
  }

  /** What holds while up is at position j: the first n positions are a heap
      except for the pair above j, and the parent of j is no greater than the
      children of j. */
  ghost predicate UpInv(s: seq<Item>, j: nat, n: nat)
  {
    && j < n <= |s|
    && (forall c :: 0 < c < n && c != j ==> Ordered(s, c))
    && (0 < j ==> forall c :: 0 < c < n && Parent(c) == j ==> s[Parent(j)].priority <= s[c].priority)
  }

  lemma {:induction false} UpStep(s: seq<Item>, j: nat, n: nat)
    requires UpInv(s, j, n) && 0 < j && Less(s, j, Parent(j))
    ensures UpInv(Swap(s, Parent(j), j), Parent(j), n)
  {
    var p := Parent(j);
    var t := Swap(s, p, j);
    forall c | 0 < c < n && c != p
      ensures Ordered(t, c)
    {
      if c == j {
      } else if Parent(c) == j {
      } else if Parent(c) == p {
        assert Ordered(s, c);
      } else {
        assert Ordered(s, c);
      }
    }
    if 0 < p {
      forall c | 0 < c < n && Parent(c) == p
        ensures t[Parent(p)].priority <= t[c].priority
      {
        assert Ordered(s, p);
        if c != j {
          assert Ordered(s, c);
        }
      }
    }
  }

  /** up turns an almost-heap (UpInv) of the first n positions into a heap. */
  lemma {:induction false} UpOrders(s: seq<Item>, j: nat, n: nat)
    requires UpInv(s, j, n)
    ensures IsHeapPrefix(Up(s, j), n)
    decreases j
  {
    if 0 < j && Less(s, j, Parent(j)) {
      UpStep(s, j, n);
      UpOrders(Swap(s, Parent(j), j), Parent(j), n);
    }
  }

  lemma {:induction false} InitFromOrders(s: seq<Item>, i: int, n: nat)
    requires n <= |s|
    requires forall c :: 0 < c < n && i < Parent(c) ==> Ordered(s, c)
    ensures IsHeapPrefix(InitFrom(s, i, n), n)
    decreases i + 1
  {
    if 0 <= i {
      DownOrders(s, i, i, i, n);
      InitFromOrders(Down(s, i, n), i - 1, n);
    }
  }

  /** heap.Init leaves a min-heap holding the same elements. */
  lemma InitMakesHeap(s: seq<Item>)
    ensures IsMinHeap(Init(s)) && multiset(Init(s)) == multiset(s)
  {
    InitFromOrders(s, |s| / 2 - 1, |s|);
  }

  /** On a heap, down on any position does nothing. */
  lemma DownOfHeap(s: seq<Item>, i: nat, n: nat)
    requires n <= |s| && IsHeapPrefix(s, n)
    ensures !Moves(s, i, n) && Down(s, i, n) == s
  {
    if 2 * i + 1 < n {
      assert Ordered(s, SmallerChild(s, i, n));
    }
  }

  lemma {:induction false} InitFromOfHeap(s: seq<Item>, i: int, n: nat)
    requires n <= |s| && IsHeapPrefix(s, n)
    ensures InitFrom(s, i, n) == s
    decreases i + 1
  {
    if 0 <= i {
      DownOfHeap(s, i, n);
      InitFromOfHeap(s, i - 1, n);
    }
  }

  /** heap.Init on something that is already a heap changes nothing. */
  lemma InitOfHeap(s: seq<Item>)
    requires IsMinHeap(s)
    ensures Init(s) == s
  {
    InitFromOfHeap(s, |s| / 2 - 1, |s|);
  }

  /** The root of a heap has a priority no greater than that of position k. */
  lemma {:induction false} RootBelow(s: seq<Item>, k: nat)
    requires IsMinHeap(s) && k < |s|
    ensures s[0].priority <= s[k].priority
    decreases k
  {
    if 0 < k {
      assert Ordered(s, k);
      RootBelow(s, Parent(k));
    }
  }

  /** The root of a heap has the smallest priority of all its elements. */
  lemma RootIsMinimum(s: seq<Item>)
    requires IsMinHeap(s)
    ensures forall y :: y in s ==> s[0].priority <= y.priority
  {
    forall y | y in s
      ensures s[0].priority <= y.priority
    {
      var k :| 0 <= k < |s| && s[k] == y;
      RootBelow(s, k);
    }
  }

  /** heap.Push onto a heap gives a heap holding one more element. */
  lemma PushKeepsHeap(s: seq<Item>, x: Item)
    requires IsMinHeap(s)
    ensures IsMinHeap(Push(s, x))
  {
    var t := s + [x];
    assert UpInv(t, |s|, |t|) by {
      forall c | 0 < c < |t| && c != |s|
        ensures Ordered(t, c)
      {
        assert Ordered(s, c);
      }
    }
    UpOrders(t, |s|, |t|);
  }

  /** After pushing onto a heap an element with a priority no greater than any
      already there, index 0 holds a priority equal to its own. */
  lemma PushSmallestReachesRoot(s: seq<Item>, x: Item)
    requires IsMinHeap(s)
    requires forall y :: y in s ==> x.priority <= y.priority
    ensures Push(s, x)[0].priority == x.priority
  {
    var r := Push(s, x);
    PushKeepsHeap(s, x);
    RootIsMinimum(r);
    assert x in multiset(r);
    assert r[0] in multiset(s) + multiset{x};
  }

  /** A heap prefix, cut off, is a heap. */
  lemma HeapPrefixIsHeap(t: seq<Item>, n: nat)
    requires n <= |t| && IsHeapPrefix(t, n)
    ensures IsMinHeap(t[..n])
  {
    forall c | 0 < c < n
      ensures Ordered(t[..n], c)
    {
      assert Ordered(t, c);
    }
  }

  /** Every element of the smaller collection left by taking x off is no less than x. */
  lemma RemainderAboveMinimum(s: seq<Item>, x: Item, t: seq<Item>)
    requires forall y :: y in s ==> x.priority <= y.priority
    requires multiset(t) + multiset{x} == multiset(s)
    ensures forall y :: y in t ==> x.priority <= y.priority
  {
    forall y | y in t
      ensures x.priority <= y.priority
    {
      assert y in multiset(t);
      assert y in multiset(s);
    }
  }

  /** After heap.Pop's first swap, w, only the pairs below the root may be out
      of order among the first n positions. */
  lemma PopSwapInv(s: seq<Item>, w: seq<Item>, n: nat)
    requires IsMinHeap(s) && n + 1 == |s| && w == Swap(s, 0, n)
    ensures DownInv(w, 0, 0, 0, n)
  {
    forall c | 0 < c < n && Parent(c) != 0
      ensures Ordered(w, c)
    {
      assert Ordered(s, c);
    }
  }

  /** The sift in heap.Pop leaves its first n == |s| - 1 positions a heap. */
  lemma PopSiftOrders(s: seq<Item>, w: seq<Item>, n: nat)
    requires IsMinHeap(s) && n + 1 == |s| && w == Swap(s, 0, n)
    ensures IsHeapPrefix(Down(w, 0, n), n)
  {
    PopSwapInv(s, w, n);
    DownOrders(w, 0, 0, 0, n);
    RootPostIsHeap(Down(w, 0, n), n, Moves(w, 0, n));
  }

  /** A sift from the root that may leave only the pair above the root out of
      order leaves a heap, since the root has no parent. */
  lemma RootPostIsHeap(d: seq<Item>, n: nat, moved: bool)
    requires n <= |d| && DownPost(d, 0, 0, n, moved)
    ensures IsHeapPrefix(d, n)
  {
    forall c | 0 < c < n
      ensures Ordered(d, c)
    {
    }
  }

  /** heap.Pop on a heap returns an element no greater than any one left, and
      what is left is a heap. */
  lemma PopKeepsHeap(s: seq<Item>)
    requires IsMinHeap(s) && 0 < |s|
    ensures IsMinHeap(Pop(s).1)
    ensures forall y :: y in Pop(s).1 ==> Pop(s).0.priority <= y.priority
  {
    var n := |s| - 1;
    var w := Swap(s, 0, n);
    var t := Down(w, 0, n);
    var p := Pop(s);
    assert p.1 == t[..n];
    PopSiftOrders(s, w, n);
    HeapPrefixIsHeap(t, n);
    RootIsMinimum(s);
    RemainderAboveMinimum(s, p.0, p.1);
  }

  /** heap.Remove(h, i) on a heap returns the element at i and leaves a heap. */
  lemma RemoveKeepsHeap(s: seq<Item>, i: nat)
    requires IsMinHeap(s) && i < |s|
    ensures IsMinHeap(Remove(s, i).1)
  {
    var n := |s| - 1;
    var t: seq<Item>;
    if n != i {
      var w := Swap(s, i, n);
      assert DownInv(w, 0, i, i, n) by {
        forall c | 0 < c < n && Parent(c) != i && c != i
          ensures Ordered(w, c)
        {
          assert Ordered(s, c);
        }
        if 0 < i {
          forall c | 0 < c < n && Parent(c) == i
            ensures w[Parent(i)].priority <= w[c].priority
          {
            assert Ordered(s, i) && Ordered(s, c);
          }
        }
      }
      DownOrders(w, 0, i, i, n);
      var d := Down(w, i, n);
      if !Moves(w, i, n) {
        assert UpInv(d, i, n);
        UpOrders(d, i, n);
      }
      t := RemoveSift(s, i, n);
    } else {
      t := s;
      assert IsHeapPrefix(t, n);
    }
    assert Remove(s, i).1 == t[..n];
    HeapPrefixIsHeap(t, n);
  }

  /** Removing the root of a heap again and again hands out every element,
      in order of priority. */
  lemma {:induction false} DrainSorted(s: seq<Item>)
    requires IsMinHeap(s)
    ensures SortedByPriority(Drain(s))
    decreases |s|
  {
    if 0 < |s| {
      var p := Pop(s);
      PopKeepsHeap(s);
      DrainSorted(p.1);
      var rest := Drain(p.1);
      DrainUnfolds(s, p.0, p.1);
      forall y | y in rest
        ensures p.0.priority <= y.priority
      {
        assert y in multiset(rest);
      }
      SortedCons(p.0, rest);
    }
  }

  /** Drain hands out heap.Pop's element first, then drains what is left. */
  lemma DrainUnfolds(s: seq<Item>, x: Item, t: seq<Item>)
    requires 0 < |s| && (x, t) == Pop(s)
    ensures Drain(s) == [x] + Drain(t)
  {
  }

  lemma SortedCons(x: Item, rest: seq<Item>)
    requires SortedByPriority(rest)
    requires forall y :: y in rest ==> x.priority <= y.priority
    ensures SortedByPriority([x] + rest)
  {
    var r := [x] + rest;
    forall a, b | 0 <= a < b < |r|
      ensures r[a].priority <= r[b].priority
    {
      if a == 0 {
        assert r[b] == rest[b - 1] && r[b] in rest;
      } else {
        assert r[a] == rest[a - 1] && r[b] == rest[b - 1];
      }
    }
  }
}
