/**
 * The binary min-heap the walking router's Dijkstra search keeps its
 * frontier in: items `{ node, priority }` in an array where every parent's
 * priority is at most its children's.
 */
module WalkHeap {
  import opened Common

  /** A queue entry: a node key and the tentative distance it was queued with. */
  datatype Item<K> = Item(node: K, priority: real)

  /** `Math.floor((i - 1) / 2)`, the parent slot of slot `i > 0`. */
  function Parent(i: nat): (p: nat)
    requires i > 0
    ensures 2 * p + 1 == i || 2 * p + 2 == i
  {
    (i - 1) / 2
  }

  /** The heap order: no slot has a smaller priority than its parent. */
  ghost predicate HeapOrdered<K>(a: seq<Item<K>>) {
    forall k :: 0 < k < |a| ==> a[Parent(k)].priority <= a[k].priority
  }

  /**
   * The order while slot `i` climbs: every link holds except the one from
   * `i` up to its parent, and `i`'s parent is no larger than `i`'s children.
   */
  ghost predicate OrderedAbove<K>(a: seq<Item<K>>, i: nat) {
    && (forall k :: 0 < k < |a| && k != i ==> a[Parent(k)].priority <= a[k].priority)
    && (0 < i < |a| ==> forall k :: 0 < k < |a| && Parent(k) == i ==> a[Parent(i)].priority <= a[k].priority)
  }

  /**
   * The order while slot `i` sinks: every link holds except those from `i`
   * down to its children, and `i`'s parent is no larger than `i`'s children.
   */
  ghost predicate OrderedBelow<K>(a: seq<Item<K>>, i: nat) {
    && (forall k :: 0 < k < |a| && Parent(k) != i ==> a[Parent(k)].priority <= a[k].priority)
    && (0 < i < |a| ==> forall k :: 0 < k < |a| && Parent(k) == i ==> a[Parent(i)].priority <= a[k].priority)
  }

  /** The root of a heap-ordered array has the minimum priority. */
  lemma {:induction false} RootIsMinimum<K>(a: seq<Item<K>>, k: nat)
    requires HeapOrdered(a) && k < |a|
    ensures a[0].priority <= a[k].priority
    decreases k
  {
    if k > 0 {
      RootIsMinimum(a, Parent(k));
    }
  }

  /** Swapping a climbing slot with a larger parent moves the exception up one level. */
  lemma {:induction false} ClimbStep<K>(a: seq<Item<K>>, i: nat)
    requires 0 < i < |a| && OrderedAbove(a, i) && a[i].priority < a[Parent(i)].priority
    ensures OrderedAbove(Swap(a, Parent(i), i), Parent(i))
  {
    var p := Parent(i);
    var b := Swap(a, p, i);
    forall k | 0 < k < |b| && k != p ensures b[Parent(k)].priority <= b[k].priority {
      if k == i {
      } else if Parent(k) == i {
      } else if Parent(k) == p {
        assert a[p].priority <= a[k].priority;
      }
    }
    if 0 < p {
      forall k | 0 < k < |b| && Parent(k) == p ensures b[Parent(p)].priority <= b[k].priority {
        assert a[Parent(p)].priority <= a[p].priority;
        if k != i {
          assert a[p].priority <= a[k].priority;
        }
      }
    }
  }

  /** Swapping a sinking slot with its smallest, strictly smaller child moves the exception down one level. */
  lemma {:induction false} SinkStep<K>(a: seq<Item<K>>, i: nat, c: nat)
    requires 0 < c < |a| && Parent(c) == i && OrderedBelow(a, i) && a[c].priority < a[i].priority
    requires forall k :: 0 < k < |a| && Parent(k) == i ==> a[c].priority <= a[k].priority
    ensures OrderedBelow(Swap(a, i, c), c)
  {
    var b := Swap(a, i, c);
    forall k | 0 < k < |b| && Parent(k) != c ensures b[Parent(k)].priority <= b[k].priority {
      if k == i {
        assert a[Parent(i)].priority <= a[c].priority;
      } else if Parent(k) == i {
      }
    }
    forall k | 0 < k < |b| && Parent(k) == c ensures b[Parent(c)].priority <= b[k].priority {
      assert a[c].priority <= a[k].priority;
    }
  }

  /** A sinking slot no larger than any of its children leaves the whole array ordered. */
  lemma {:induction false} SinkDone<K>(a: seq<Item<K>>, i: nat)
    requires i < |a| && OrderedBelow(a, i)
    requires forall k :: 0 < k < |a| && Parent(k) == i ==> a[i].priority <= a[k].priority
    ensures HeapOrdered(a)
  {
  }

  /** The array of items swapped at slots `i` and `j`. */
  function Swap<K>(a: seq<Item<K>>, i: nat, j: nat): (b: seq<Item<K>>)
    requires i < |a| && j < |a|
    ensures |b| == |a| && b[i] == a[j] && b[j] == a[i]
    ensures forall k :: 0 <= k < |a| && k != i && k != j ==> b[k] == a[k]
    ensures multiset(b) == multiset(a)
  {
    a[i := a[j]][j := a[i]]
  }

  class MinHeap<K> {
    var data: seq<Item<K>>

    ghost predicate Valid()
      reads this
    {
      HeapOrdered(data)
    }

    constructor()
      ensures data == [] && Valid()
    {
      data := [];
    }

    /** `isEmpty`. */
    predicate IsEmpty()
      reads this
      ensures IsEmpty() <==> multiset(data) == multiset{}
    {
      |data| == 0
    }

    /** `insert`: push the item, then let it climb; the heap gains exactly that item. */
    method Insert(item: Item<K>)
      modifies this
      requires Valid()
      ensures Valid()
      ensures multiset(data) == old(multiset(data)) + multiset{item}
      ensures |data| == old(|data|) + 1
    {
      data := data + [item];
      BubbleUp(|data| - 1);
    }

    /** `bubbleUp`: swap slot `index` with its parent while the parent is larger. */
    method BubbleUp(index: nat)
      modifies this
      requires index < |data| && OrderedAbove(data, index)
      ensures Valid()
      ensures multiset(data) == old(multiset(data)) && |data| == old(|data|)
    {
      var i: nat := index;
      while i > 0
        invariant i < |data| && OrderedAbove(data, i)
        invariant multiset(data) == old(multiset(data)) && |data| == old(|data|)
        decreases i
      {
        var parent := Parent(i);
        if data[parent].priority <= data[i].priority {
          break;
        }
        ClimbStep(data, i);
        data := Swap(data, parent, i);
        i := parent;
      }
    }

    /**
     * `extractMin`: `None` (the source's `null`) on an empty heap; otherwise
     * the root, an item of minimum priority, which leaves the heap.
     */
    method ExtractMin() returns (r: Option<Item<K>>)
      modifies this
      requires Valid()
      ensures Valid()
      ensures old(data) == [] ==> r == None && data == []
      ensures old(data) != [] ==> r == Some(old(data[0])) && |data| == old(|data|) - 1
      ensures r.Some? ==> forall k :: 0 <= k < |old(data)| ==> r.value.priority <= old(data[k].priority)
      ensures r.Some? ==> multiset(data) + multiset{r.value} == old(multiset(data))
    {
      if |data| == 0 {
        return None;
      }
      forall k | 0 <= k < |data| ensures data[0].priority <= data[k].priority {
        RootIsMinimum(data, k);
      }
      var min := data[0];
      var end := data[|data| - 1];
      data := data[..|data| - 1];
      assert old(data) == data + [end];
      if |data| > 0 {
        data := data[0 := end];
        SinkDown(0);
      }
      r := Some(min);
    }

    /** `sinkDown`: swap slot `index` with its smaller child while that child is strictly smaller. */
    method SinkDown(index: nat)
      modifies this
      requires index < |data| && OrderedBelow(data, index)
      ensures Valid()
      ensures multiset(data) == old(multiset(data)) && |data| == old(|data|)
    {
      var i := index;
      var length := |data|;
      while true
        invariant length == |data| && i < |data| && OrderedBelow(data, i)
        invariant multiset(data) == old(multiset(data))
        decreases |data| - i
      {
        var smallest := i;
        var left := 2 * i + 1;
        var right := 2 * i + 2;
        if left < length && data[left].priority < data[smallest].priority {
          smallest := left;
        }
        if right < length && data[right].priority < data[smallest].priority {
          smallest := right;
        }
        assert forall k :: 0 < k < |data| && Parent(k) == i ==>
                 (k == left || k == right) && data[smallest].priority <= data[k].priority;
        if smallest == i {
          SinkDone(data, i);
          break;
        }
        SinkStep(data, i, smallest);
        data := Swap(data, i, smallest);
        i := smallest;
      }
    }
  }
}
