/**
 The informer's indexed priority queue: the repository's Less/Swap/Push/Pop/update under
 the standard library's container/heap algorithms (up, down, Push, Pop, Fix).

 Every item carries the position it occupies (`index`), which is what lets `Update` repair
 the heap around an item that is already queued.
 */
module PriorityQueues {

  class Item {
    var value: string
    var priority: int
    var index: int

    constructor (value: string, priority: int)
      ensures this.value == value && this.priority == priority
    {
      this.value := value;
      this.priority := priority;
      this.index := 0;
    }
  }

  // ---------- heap order, on the sequence of priorities ----------

  /** Position k does not precede its parent. */
  ghost predicate OrderedAt(p: seq<int>, k: int)
    requires 1 <= k < |p|
  {
    p[(k - 1) / 2] <= p[k]
  }

  ghost predicate IsHeap(p: seq<int>, n: int)
    requires n <= |p|
  {
    forall k :: 1 <= k < n ==> OrderedAt(p, k)
  }

  /** The grandchildren-to-be of a swap at `hole` are in order with the parent of `hole`. */
  ghost predicate Bridged(p: seq<int>, n: int, hole: int)
    requires n <= |p|
  {
    forall k :: 1 <= k < n && (k - 1) / 2 == hole && 1 <= hole ==> p[(hole - 1) / 2] <= p[k]
  }

  /** A heap except possibly between `hole` and its parent. */
  ghost predicate HeapBelow(p: seq<int>, n: int, hole: int)
    requires n <= |p|
  {
    (forall k :: 1 <= k < n && k != hole ==> OrderedAt(p, k)) && Bridged(p, n, hole)
  }

  /** A heap except possibly between `hole` and its parent and children. */
  ghost predicate HeapAround(p: seq<int>, n: int, hole: int)
    requires n <= |p|
  {
    && (forall k :: 1 <= k < n && k != hole && (k - 1) / 2 != hole ==> OrderedAt(p, k))
    && Bridged(p, n, hole)
  }

  ghost function Exchange<T>(s: seq<T>, i: int, j: int): seq<T>
    requires 0 <= i < |s| && 0 <= j < |s|
  {
    s[i := s[j]][j := s[i]]
  }

  lemma SiftUpStep(p: seq<int>, n: int, j: int)
    requires n <= |p| && 1 <= j < n && HeapBelow(p, n, j) && !OrderedAt(p, j)
    ensures HeapBelow(Exchange(p, (j - 1) / 2, j), n, (j - 1) / 2)
  {
    var i := (j - 1) / 2;
    var q := Exchange(p, i, j);
    forall k | 1 <= k < n && k != i
      ensures OrderedAt(q, k)
    {
      if k != j { assert OrderedAt(p, k); }
    }
    if 1 <= i {
      assert OrderedAt(p, i);
      forall k | 1 <= k < n && (k - 1) / 2 == i
        ensures q[(i - 1) / 2] <= q[k]
      {
        if k != j { assert OrderedAt(p, k); }
      }
    }
  }

  lemma SiftDownStep(p: seq<int>, n: int, i: int, j: int)
    requires n <= |p| && 0 <= i && 2 * i + 1 <= j <= 2 * i + 2 && j < n
    requires HeapAround(p, n, i) && p[j] < p[i]
    requires p[j] <= p[2 * i + 1] && (2 * i + 2 < n ==> p[j] <= p[2 * i + 2])
    ensures HeapAround(Exchange(p, i, j), n, j) && OrderedAt(Exchange(p, i, j), j)
  {
    var q := Exchange(p, i, j);
    assert (j - 1) / 2 == i;
    forall k | 1 <= k < n && k != j && (k - 1) / 2 != j
      ensures OrderedAt(q, k)
    {
      if (k - 1) / 2 == i {
        assert k == 2 * i + 1 || k == 2 * i + 2;
      } else if k != i {
        assert OrderedAt(p, k);
      }
    }
    forall k | 1 <= k < n && (k - 1) / 2 == j
      ensures q[(j - 1) / 2] <= q[k]
    {
      assert OrderedAt(p, k);
    }
  }

  lemma SiftDownDone(p: seq<int>, n: int, i: int)
    requires n <= |p| && 0 <= i && HeapAround(p, n, i)
    requires (2 * i + 1 < n ==> p[i] <= p[2 * i + 1]) && (2 * i + 2 < n ==> p[i] <= p[2 * i + 2])
    ensures HeapBelow(p, n, i)
    ensures 0 < i < n && OrderedAt(p, i) ==> IsHeap(p, n)
  {
    forall k | 1 <= k < n && k != i
      ensures OrderedAt(p, k)
    {
      if (k - 1) / 2 == i { assert k == 2 * i + 1 || k == 2 * i + 2; }
    }
  }

  lemma ChangedKeyIsAHole(p: seq<int>, n: int, i: int, key: int)
    requires n <= |p| && IsHeap(p, n) && 0 <= i < n
    ensures HeapAround(p[i := key], n, i)
  {
    var q := p[i := key];
    forall k | 1 <= k < n && k != i && (k - 1) / 2 != i
      ensures OrderedAt(q, k)
    {
      assert OrderedAt(p, k);
    }
    forall k | 1 <= k < n && (k - 1) / 2 == i && 1 <= i
      ensures q[(i - 1) / 2] <= q[k]
    {
      assert OrderedAt(p, k) && OrderedAt(p, i);
    }
  }

  /** With the last exchanged for the root, only the root may be out of order. */
  lemma RootExchanged(p: seq<int>, n: int)
    requires 0 <= n < |p| && IsHeap(p, n + 1)
    ensures HeapAround(Exchange(p, 0, n), n, 0)
  {
    var q := Exchange(p, 0, n);
    forall k | 1 <= k < n && (k - 1) / 2 != 0
      ensures OrderedAt(q, k)
    {
      assert OrderedAt(p, k);
    }
  }

  lemma BelowRoot(p: seq<int>, n: int)
    requires n <= |p| && HeapBelow(p, n, 0)
    ensures IsHeap(p, n)
  {
  }

  lemma HeapPrefix(p: seq<int>, n: int)
    requires 0 <= n <= |p| && IsHeap(p, n)
    ensures IsHeap(p[..n], n)
  {
    forall k | 1 <= k < n
      ensures OrderedAt(p[..n], k)
    {
      assert OrderedAt(p, k);
    }
  }

  /** The heap order relates only parents and children; it still makes the root a minimum. */
  lemma {:induction false} RootIsMinimal(p: seq<int>, n: int, k: int)
    requires n <= |p| && IsHeap(p, n) && 0 <= k < n
    ensures p[0] <= p[k]
    decreases k
  {
    if k > 0 {
      assert OrderedAt(p, k);
      RootIsMinimal(p, n, (k - 1) / 2);
    }
  }

  // ---------- the queue ----------

  class PriorityQueue {
    var pq: seq<Item>
    ghost var order: seq<int>  // the priorities of pq, position by position

    ghost function Items(): set<Item>
      reads this
    {
      set x | x in pq
    }

    /** Every item knows its position (so no item occurs twice) and `order` is up to date. */
    ghost predicate Indexed()
      reads this, pq
    {
      && |order| == |pq|
      && forall i :: 0 <= i < |pq| ==> pq[i].index == i && pq[i].priority == order[i]
    }

    ghost predicate Valid()
      reads this, pq
    {
      Indexed() && IsHeap(order, |pq|)
    }

    constructor ()
      ensures Valid() && pq == []
    {
      pq := [];
      order := [];
    }

    predicate Less(i: int, j: int): (r: bool)
      requires 0 <= i < |pq| && 0 <= j < |pq| && Indexed()
      reads this, pq
      ensures r <==> order[i] < order[j]
    {
      pq[i].priority < pq[j].priority
    }

    lemma Lengths()
      requires Indexed()
      ensures |order| == |pq|
    {
    }

    method Swap(i: int, j: int)
      requires 0 <= i < |pq| && 0 <= j < |pq|
      requires Indexed()
      modifies this, Items()`index
      ensures Indexed() && Items() == old(Items())
      ensures pq == Exchange(old(pq), i, j) && order == Exchange(old(order), i, j)
    {
      pq := pq[i := pq[j]][j := pq[i]];
      pq[i].index := i;
      pq[j].index := j;
      order := Exchange(order, i, j);
      assert forall x :: x in old(pq) ==> pq[old(x.index)] == x || x == old(pq[i]) || x == old(pq[j]);
    }

    method Up(start: int)
      requires 0 <= start < |pq|
      requires Indexed() && HeapBelow(order, |pq|, start)
      modifies this, Items()`index
      ensures Valid() && Items() == old(Items()) && |pq| == old(|pq|)
    {
      var j := start;
      while true
        invariant 0 <= j < |pq| == old(|pq|)
        invariant Items() == old(Items())
        invariant Indexed() && HeapBelow(order, |pq|, j)
        decreases j
      {
        var i := if j == 0 then 0 else (j - 1) / 2;
        if i == j || !Less(j, i) {
          break;
        }
        SiftUpStep(order, |pq|, j);
        Swap(i, j);
        j := i;
      }
    }

    /** Restores the order below `start` among the first n positions. */
    method Down(start: int, n: int) returns (moved: bool)
      requires 0 <= start <= n <= |pq|
      requires Indexed() && HeapAround(order, n, start)
      modifies this, Items()`index
      ensures Indexed() && Items() == old(Items()) && |pq| == old(|pq|)
      ensures forall k :: n <= k < |pq| ==> pq[k] == old(pq)[k]
      ensures moved ==> IsHeap(order, n)
      ensures !moved ==> pq == old(pq) && HeapBelow(order, n, start)
    {
      hide Indexed, OrderedAt, HeapAround, HeapBelow, IsHeap, Less;
      Lengths();
      var i := start;
      while true
        invariant start <= i <= n <= |pq| == |order| == old(|pq|)
        invariant Indexed() && HeapAround(order, n, i)
        invariant Items() == old(Items())
        invariant forall k :: n <= k < |pq| ==> pq[k] == old(pq)[k]
        invariant i == start ==> pq == old(pq)
        invariant i > start ==> i < n && OrderedAt(order, i)
        decreases n - i
      {
        var j1 := 2 * i + 1;
        if j1 >= n {
          SiftDownDone(order, n, i);
          break;
        }
        var j := if j1 + 1 < n && Less(j1 + 1, j1) then j1 + 1 else j1;
        if !Less(j, i) {
          SiftDownDone(order, n, i);
          break;
        }
        SiftDownStep(order, n, i, j);
        Swap(i, j);
        i := j;
      }
      moved := i > start;
    }

    /** heap.Push */
    method Push(item: Item)
      requires Valid() && item !in Items()
      modifies this, Items()`index, item`index
      ensures Valid() && Items() == old(Items()) + {item}
    {
      item.index := |pq|;
      ghost var p := order;
      pq := pq + [item];
      order := order + [item.priority];
      forall k | 1 <= k < |pq| && k != |pq| - 1
        ensures OrderedAt(order, k)
      {
        assert OrderedAt(p, k);
      }
      Up(|pq| - 1);
    }

    /** The repository's own Pop, which takes the last item off. */
    method TakeLast() returns (item: Item)
      requires Indexed() && pq != [] && IsHeap(order, |pq| - 1)
      modifies this, Items()`index
      ensures Valid() && Items() == old(Items()) - {item}
      ensures item == old(pq[|pq| - 1]) && item.index == -1
    {
      var n := |pq| - 1;
      item := pq[n];
      assert pq == pq[..n] + [item];
      item.index := -1;
      HeapPrefix(order, n);
      pq, order := pq[..n], order[..n];
    }

    /** heap.Pop: removes an item that no other queued item precedes. */
    method Pop() returns (item: Item)
      requires Valid() && pq != []
      modifies this, Items()`index
      ensures Valid() && Items() == old(Items()) - {item}
      ensures item == old(pq[0]) && item.index == -1
    {
      hide IsHeap, HeapAround, HeapBelow;
      var n := |pq| - 1;
      RootExchanged(order, n);
      Swap(0, n);
      var moved := Down(0, n);
      if !moved {
        BelowRoot(order, n);
      }
      item := TakeLast();
    }

    /** heap.Fix */
    method Fix(i: int)
      requires 0 <= i < |pq|
      requires Indexed() && HeapAround(order, |pq|, i)
      modifies this, Items()`index
      ensures Valid() && Items() == old(Items()) && |pq| == old(|pq|)
    {
      var moved := Down(i, |pq|);
      if !moved {
        Up(i);
      }
    }

    /** Changes the priority of a queued item and repairs the heap around it. */
    method Update(item: Item, value: string, priority: int)
      requires Valid() && item in Items()
      modifies this, Items()`index, item
      ensures Valid() && Items() == old(Items()) && |pq| == old(|pq|)
      ensures item.value == value && item.priority == priority
    {
      ghost var p := order;
      var i := item.index;
      item.value := value;
      item.priority := priority;
      order := order[i := priority];
      ChangedKeyIsAHole(p, |pq|, i, priority);
      Fix(i);
    }

    /** The root is due no later than any queued item. */
    lemma RootIsDue()
      requires Valid()
      ensures forall x :: x in Items() ==> pq[0].priority <= x.priority
    {
      forall x | x in Items()
        ensures pq[0].priority <= x.priority
      {
        RootIsMinimal(order, |pq|, x.index);
      }
    }
  }
}
