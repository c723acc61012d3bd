/**
 * The back-end router's priority queue: an array of `{ element, priority }`
 * kept in non-decreasing priority order by inserting each new entry in
 * front of the first entry of strictly larger priority, and served from the
 * front.
 */
module AStarQueue {
  import opened Common

  datatype QueueElement<T> = QueueElement(element: T, priority: real)

  /** Priorities never decrease from front to back. */
  ghost predicate Sorted<T>(items: seq<QueueElement<T>>) {
    forall i, j :: 0 <= i < j < |items| ==> items[i].priority <= items[j].priority
  }

  /** Where `enqueue` puts an entry of priority `p`: before the first entry of strictly larger priority, else at the end. */
  function InsertionPoint<T>(items: seq<QueueElement<T>>, p: real): (k: nat)
    ensures k <= |items|
    ensures forall j :: 0 <= j < k ==> items[j].priority <= p
    ensures k < |items| ==> p < items[k].priority
    decreases |items|
  {
    if items == [] || p < items[0].priority then 0 else 1 + InsertionPoint(items[1..], p)
  }

  /** The queue after enqueueing `e`. */
  function Inserted<T>(items: seq<QueueElement<T>>, e: QueueElement<T>): seq<QueueElement<T>> {
    var k := InsertionPoint(items, e.priority);
    items[..k] + [e] + items[k..]
  }

  /** Enqueueing adds exactly the new entry and keeps every other one. */
  lemma InsertedContents<T>(items: seq<QueueElement<T>>, e: QueueElement<T>)
    ensures |Inserted(items, e)| == |items| + 1
    ensures multiset(Inserted(items, e)) == multiset(items) + multiset{e}
    ensures e in Inserted(items, e)
    ensures forall x :: x in Inserted(items, e) <==> x == e || x in items
  {
    var k := InsertionPoint(items, e.priority);
    assert items == items[..k] + items[k..];
    assert Inserted(items, e)[k] == e;
  }

  /** The entries of the enqueued queue: those before the insertion point, the new one, then the rest shifted by one. */
  lemma InsertedAt<T>(items: seq<QueueElement<T>>, e: QueueElement<T>, m: int)
    requires 0 <= m <= |items|
    ensures var k := InsertionPoint(items, e.priority);
      && |Inserted(items, e)| == |items| + 1
      && (m < k ==> Inserted(items, e)[m] == items[m])
      && (m == k ==> Inserted(items, e)[m] == e)
      && (m > k ==> Inserted(items, e)[m] == items[m - 1])
  {
  }

  /** Enqueueing keeps the order. */
  lemma InsertedSorted<T>(items: seq<QueueElement<T>>, e: QueueElement<T>)
    requires Sorted(items)
    ensures Sorted(Inserted(items, e))
  {
    var k := InsertionPoint(items, e.priority);
    var r := Inserted(items, e);
    forall i, j | 0 <= i < j < |r| ensures r[i].priority <= r[j].priority {
      InsertedAt(items, e, i);
      InsertedAt(items, e, j);
      if i < k && k < j {
        assert items[i].priority <= items[j - 1].priority;
      } else if i == k && k < j {
        assert e.priority < items[k].priority <= items[j - 1].priority;
      }
    }
  }

  /** An entry of equal priority already queued stays in front of the new one. */
  lemma InsertedAfterTies<T>(items: seq<QueueElement<T>>, e: QueueElement<T>)
    requires Sorted(items)
    ensures forall j :: 0 <= j < |items| && items[j].priority == e.priority ==>
              j < InsertionPoint(items, e.priority) && Inserted(items, e)[j] == items[j]
  {
    var k := InsertionPoint(items, e.priority);
    forall j | 0 <= j < |items| && items[j].priority == e.priority
      ensures j < k && Inserted(items, e)[j] == items[j]
    {
      InsertedAt(items, e, j);
    }
  }

  class PriorityQueue<T> {
    var items: seq<QueueElement<T>>

    ghost predicate Valid()
      reads this
    {
      Sorted(items)
    }

    constructor()
      ensures items == [] && Valid()
    {
      items := [];
    }

    /** `enqueue(element, priority)`: splice in before the first strictly larger priority, or push at the end. */
    method Enqueue(element: T, priority: real)
      modifies this
      ensures items == Inserted(old(items), QueueElement(element, priority))
      ensures old(Valid()) ==> Valid()
    {
      var queueElement := QueueElement(element, priority);
      var added := false;
      var i := 0;
      while i < |items|
        invariant i <= |items| && items == old(items) && !added
        invariant forall j :: 0 <= j < i ==> items[j].priority <= priority
        invariant InsertionPoint(items, priority) >= i
      {
        if queueElement.priority < items[i].priority {
          assert InsertionPoint(items, priority) == i;
          items := items[..i] + [queueElement] + items[i..];
          added := true;
          break;
        }
        i := i + 1;
      }
      if !added {
        assert items[..|items|] == items && items[|items|..] == [];
        items := items + [queueElement];
      }
      if old(Valid()) {
        InsertedSorted(old(items), queueElement);
      }
    }

    /** `dequeue()`: the front entry, removed (`None` for `undefined` on an empty queue). */
    method Dequeue() returns (r: Option<QueueElement<T>>)
      modifies this
      ensures old(items) == [] ==> r == None && items == []
      ensures old(items) != [] ==> r == Some(old(items)[0]) && items == old(items)[1..]
    {
      if items == [] {
        return None;
      }
      r := Some(items[0]);
      items := items[1..];
    }

    predicate IsEmpty()
      reads this
    {
      |items| == 0
    }
  }

  /** The front of a sorted queue has the minimum priority, and what remains is still sorted. */
  lemma FrontIsMinimum<T>(items: seq<QueueElement<T>>)
    requires Sorted(items) && items != []
    ensures forall j :: 0 <= j < |items| ==> items[0].priority <= items[j].priority
    ensures Sorted(items[1..])
  {
  }
}
