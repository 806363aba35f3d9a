/** The binary heap of Client/Assets/@Scripts/Utils/PriorityQueue.cs. */
module PriorityQueues {
  import opened Wrappers

  /** CompareTo: negative, zero or positive. */
  type Comparison<!T> = (T, T) -> int

  predicate Le<T>(compare: Comparison<T>, a: T, b: T) { compare(a, b) <= 0 }

  /** Any two values are comparable, and the order is transitive; different values may be equal
      in it. */
  ghost predicate TotalPreorder<T(!new)>(compare: Comparison<T>) {
    && (forall a, b :: compare(a, b) < 0 <==> compare(b, a) > 0)
    && (forall a, b, c :: Le(compare, a, b) && Le(compare, b, c) ==> Le(compare, a, c))
  }

  lemma Comparable<T(!new)>(compare: Comparison<T>, a: T, b: T)
    requires TotalPreorder(compare)
    ensures if compare(a, b) < 0 then Le(compare, a, b) else Le(compare, b, a)
    ensures Le(compare, a, a) && Le(compare, b, b)
  {}

  lemma LessTransitive<T(!new)>(compare: Comparison<T>, a: T, b: T, c: T)
    requires TotalPreorder(compare)
    ensures compare(a, b) < 0 && compare(b, c) < 0 ==> compare(a, c) < 0
  {
    if compare(a, b) < 0 && compare(a, c) >= 0 {
      Comparable(compare, a, c);
      assert Le(compare, c, a) && Le(compare, a, b);
    }
  }

  function Parent(i: int): int { (i - 1) / 2 }

  predicate Ordered<T>(compare: Comparison<T>, h: seq<T>, i: int)
    requires 0 < i < |h|
  {
    Le(compare, h[i], h[Parent(i)])
  }

  /** Every element is at most its parent. */
  ghost predicate IsHeap<T>(compare: Comparison<T>, h: seq<T>) {
    forall i :: 0 < i < |h| ==> Ordered(compare, h, i)
  }

  /** Heap order except between `now` and its parent. */
  ghost predicate HeapButUp<T>(compare: Comparison<T>, h: seq<T>, now: int)
    requires 0 <= now < |h|
  {
    && (forall i :: 0 < i < |h| && i != now ==> Ordered(compare, h, i))
    && (forall i :: 0 < i < |h| && Parent(i) == now && now > 0 ==> Le(compare, h[i], h[Parent(now)]))
  }

  /** Heap order except between `now` and its children. */
  ghost predicate HeapButDown<T>(compare: Comparison<T>, h: seq<T>, now: int) {
    && (forall i :: 0 < i < |h| && Parent(i) != now ==> Ordered(compare, h, i))
    && (forall i :: 0 < i < |h| && Parent(i) == now && now > 0 ==> Le(compare, h[i], h[Parent(now)]))
  }

  function Swap<T>(h: seq<T>, i: int, j: int): seq<T>
    requires 0 <= i < |h| && 0 <= j < |h|
  {
    h[i := h[j]][j := h[i]]
  }

  lemma SwapKeepsElements<T>(h: seq<T>, i: int, j: int)
    requires 0 <= i < |h| && 0 <= j < |h|
    ensures multiset(Swap(h, i, j)) == multiset(h)
  {
    var m := multiset(h);
    assert multiset(h[i := h[j]]) == m - multiset{h[i]} + multiset{h[j]};
    assert multiset(Swap(h, i, j)) == multiset(h[i := h[j]]) - multiset{h[i := h[j]][j]} + multiset{h[i]};
  }

  /** A larger child swapped with its parent moves the disorder up. */
  lemma SwapUp<T(!new)>(compare: Comparison<T>, h: seq<T>, now: int)
    requires TotalPreorder(compare) && 0 < now < |h| && HeapButUp(compare, h, now)
    requires !(compare(h[now], h[Parent(now)]) < 0)
    ensures HeapButUp(compare, Swap(h, now, Parent(now)), Parent(now))
  {
    var p, g := Parent(now), Swap(h, now, Parent(now));
    assert Le(compare, h[p], h[now]);
    forall i | 0 < i < |g| && i != p ensures Ordered(compare, g, i) {
      if i == now {
      } else if Parent(i) == now {
        assert Le(compare, h[i], h[p]);
      } else {
        assert Ordered(compare, h, i);
      }
    }
    forall i | 0 < i < |g| && Parent(i) == p && p > 0 ensures Le(compare, g[i], g[Parent(p)]) {
      assert Ordered(compare, h, p);
      if i != now {
        assert Ordered(compare, h, i);
      }
    }
  }

  /** The larger child swapped with its smaller parent moves the disorder down. */
  lemma SwapDown<T(!new)>(compare: Comparison<T>, h: seq<T>, now: int, next: int)
    requires TotalPreorder(compare) && 0 <= now < next < |h| && Parent(next) == now && HeapButDown(compare, h, now)
    requires compare(h[now], h[next]) < 0
    requires forall i :: 0 < i < |h| && Parent(i) == now ==> Le(compare, h[i], h[next])
    ensures HeapButDown(compare, Swap(h, now, next), next)
  {
    var g := Swap(h, now, next);
    forall i | 0 < i < |g| && Parent(i) != next ensures Ordered(compare, g, i) {
      if i == now {
        assert Le(compare, h[next], h[Parent(now)]);
      } else if Parent(i) != now {
        assert Ordered(compare, h, i);
      }
    }
    forall i | 0 < i < |g| && Parent(i) == next ensures Le(compare, g[i], g[Parent(next)]) {
      assert Ordered(compare, h, i);
    }
  }

  lemma HeapAtLast<T>(compare: Comparison<T>, h: seq<T>, now: nat)
    requires HeapButDown(compare, h, now) && (now < |h| || h == [])
    requires forall i :: 0 < i < |h| && Parent(i) == now ==> Le(compare, h[i], h[now])
    ensures IsHeap(compare, h)
  {}

  lemma {:induction false} RootIsMaximum<T(!new)>(compare: Comparison<T>, h: seq<T>, i: int)
    requires TotalPreorder(compare) && IsHeap(compare, h) && 0 <= i < |h|
    ensures Le(compare, h[i], h[0])
    decreases i
  {
    if i > 0 {
      RootIsMaximum(compare, h, Parent(i));
      assert Ordered(compare, h, i);
    }
  }

  class PriorityQueue<T(!new, ==)> {
    const compare: Comparison<T>
    var heap: seq<T>

    ghost predicate Valid()
      reads this
    {
      TotalPreorder(compare) && IsHeap(compare, heap)
    }

    constructor (compare: Comparison<T>)
      requires TotalPreorder(compare)
      ensures Valid() && heap == [] && this.compare == compare
    {
      this.compare, heap := compare, [];
    }

    method Push(data: T)
      requires Valid()
      modifies this
      ensures Valid() && multiset(heap) == old(multiset(heap)) + multiset{data}
    {
      heap := heap + [data];
      var now := |heap| - 1;
      forall i | 0 < i < |heap| && i != now ensures Ordered(compare, heap, i) {
        assert Ordered(compare, old(heap), i);
      }
      while now > 0
        invariant 0 <= now < |heap|
        invariant multiset(heap) == old(multiset(heap)) + multiset{data}
        invariant HeapButUp(compare, heap, now)
      {
        var next := (now - 1) / 2;
        if compare(heap[now], heap[next]) < 0 {
          assert Ordered(compare, heap, now);
          break;
        }
        SwapKeepsElements(heap, now, next);
        SwapUp(compare, heap, now);
        var temp := heap[now];
        heap := heap[now := heap[next]];
        heap := heap[next := temp];
        now := next;
      }
    }

    /** The answer is None where the source throws on an empty heap. */
    method Pop() returns (ret: Option<T>)
      requires Valid()
      modifies this
      ensures Valid()
      ensures ret == None <==> old(heap) == []
      ensures ret == None ==> heap == old(heap)
      ensures ret.Some? ==> multiset(heap) + multiset{ret.value} == old(multiset(heap))
                            && forall x :: x in old(heap) ==> compare(x, ret.value) <= 0
    {
      if heap == [] {
        return None;
      }
      forall x | x in heap ensures Le(compare, x, heap[0]) {
        var i :| 0 <= i < |heap| && heap[i] == x;
        RootIsMaximum(compare, heap, i);
      }
      ret := Some(heap[0]);
      RemoveRoot();
      SiftDown();
    }

    /** The last element replaces the root. */
    method RemoveRoot()
      requires Valid() && heap != []
      modifies this
      ensures |heap| == |old(heap)| - 1 && HeapButDown(compare, heap, 0)
      ensures multiset(heap) + multiset{old(heap)[0]} == old(multiset(heap))
    {
      ghost var before, last := heap, heap[|heap| - 1];
      var lastIndex := |heap| - 1;
      heap := heap[0 := heap[lastIndex]];
      heap := heap[..lastIndex];
      assert before == before[..lastIndex] + [last];
      assert multiset(before[..lastIndex]) == multiset(before) - multiset{last};
      if lastIndex > 0 {
        assert heap == before[..lastIndex][0 := last];
      } else {
        assert heap == [] && before == [last];
      }
      forall i | 0 < i < |heap| && Parent(i) != 0 ensures Ordered(compare, heap, i) {
        assert Ordered(compare, before, i);
      }
    }

    /** The comparison half of the loop body of Pop: the child to swap with, or `now` itself. */
    method LargerChild(now: nat, lastIndex: int) returns (next: nat)
      requires TotalPreorder(compare) && lastIndex == |heap| - 1 && (now < |heap| || heap == [])
      ensures next != now ==> now < next < |heap| && Parent(next) == now && compare(heap[now], heap[next]) < 0
      ensures forall i :: 0 < i < |heap| && Parent(i) == now ==> Le(compare, heap[i], heap[next])
    {
      var left, right := 2 * now + 1, 2 * now + 2;
      next := now;
      if left <= lastIndex && compare(heap[next], heap[left]) < 0 {
        next := left;
      }
      ghost var larger := next;
      if left <= lastIndex {
        Comparable(compare, heap[now], heap[left]);
        assert Le(compare, heap[left], heap[larger]);
      }
      if right <= lastIndex {
        Comparable(compare, heap[larger], heap[right]);
        LessTransitive(compare, heap[now], heap[larger], heap[right]);
      }
      if right <= lastIndex && compare(heap[next], heap[right]) < 0 {
        next := right;
      }
      assert forall i :: 0 < i < |heap| && Parent(i) == now ==> i == left || i == right;
    }

    method SiftDown()
      requires TotalPreorder(compare) && HeapButDown(compare, heap, 0)
      modifies this
      ensures Valid() && multiset(heap) == old(multiset(heap))
    {
      hide HeapButDown, IsHeap, TotalPreorder;
      var now, lastIndex := 0, |heap| - 1;
      while true
        invariant 0 <= now && (now < |heap| || heap == []) && lastIndex == |heap| - 1
        invariant multiset(heap) == old(multiset(heap))
        invariant HeapButDown(compare, heap, now)
        decreases |heap| - now
      {
        var next := LargerChild(now, lastIndex);
        if next == now {
          HeapAtLast(compare, heap, now);
          break;
        }
        SwapKeepsElements(heap, now, next);
        SwapDown(compare, heap, now, next);
        var temp := heap[now];
        heap := heap[now := heap[next]];
        heap := heap[next := temp];
        now := next;
      }
    }
  }

  ghost predicate Descending<T>(compare: Comparison<T>, s: seq<T>) {
    forall i, j :: 0 <= i < j < |s| ==> Le(compare, s[j], s[i])
  }

  /** Everything pushed and then popped comes out in descending order. */
  method PushAllPopAll<T(!new, ==)>(compare: Comparison<T>, xs: seq<T>) returns (out: seq<T>)
    requires TotalPreorder(compare)
    ensures Descending(compare, out) && multiset(out) == multiset(xs)
  {
    var queue := new PriorityQueue(compare);
    for i := 0 to |xs|
      invariant queue.Valid() && fresh(queue) && queue.compare == compare
      invariant multiset(queue.heap) == multiset(xs[..i])
    {
      queue.Push(xs[i]);
      assert xs[..i + 1] == xs[..i] + [xs[i]];
    }
    assert xs[..|xs|] == xs;
    out := [];
    while queue.heap != []
      invariant queue.Valid() && fresh(queue) && queue.compare == compare
      invariant multiset(out) + multiset(queue.heap) == multiset(xs)
      invariant Descending(compare, out)
      invariant forall x, y :: x in queue.heap && y in out ==> Le(compare, x, y)
      decreases |queue.heap|
    {
      ghost var before := queue.heap;
      var top := queue.Pop();
      assert |multiset(queue.heap)| + 1 == |multiset(before)|;
      assert forall x :: x in queue.heap ==> x in multiset(before);
      assert top.value in multiset(before);
      out := out + [top.value];
    }
  }
}
