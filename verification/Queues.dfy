/**
 * The linked queues of the servers: elements from `start` to an empty one at `end`, which the next addition fills
 * before it links a new empty element behind it.
 */
module Queues {
  import opened Base

  class Element<T> {
    var item: Option<T>  // the source tells an empty element by a NULL field
    var next: Element?<T>

    constructor ()
      ensures item == None && next == null
    {
      item, next := None, null;
    }
  }

  class Queue<T> {
    var start: Element<T>
    var end: Element<T>
    var length: int
    ghost var cells: seq<Element<T>>  // from `start` to `end`

    ghost function Cells(): (r: set<object>)
      reads this
      ensures forall c <- cells :: c in r
    {
      set c | c in cells
    }

    ghost predicate Valid()
      reads this, Cells()
    {
      && cells != [] && start == cells[0] && end == cells[|cells| - 1]
      && (forall i, j {:trigger cells[i], cells[j]} :: 0 <= i < j < |cells| ==> cells[i] != cells[j])
      && (forall i, j {:trigger cells[i], cells[j]} :: 0 <= i < j < |cells| && j == i + 1 ==> cells[i].next == cells[j])
      && (forall i :: 0 <= i < |cells| - 1 ==> cells[i].item.Some?)
      && end.item == None
      && length == |cells| - 1
    }

    /** What is in the queue, oldest first. */
    ghost function Contents(): (r: seq<T>)
      reads this, Cells()
      requires Valid()
      ensures |r| == length
    {
      seq(|cells| - 1, i requires 0 <= i < |cells| - 1 reads this, Cells() requires cells[i].item.Some? => cells[i].item.value)
    }

    constructor ()
      ensures Valid() && fresh(Cells()) && Contents() == []
    {
      var e := new Element<T>();
      start, end, length, cells := e, e, 0, [e];
    }

    /** `cenq`, `dbenq`, `lenq` and `qenq`. */
    method Enqueue(x: T)
      requires Valid()
      modifies this, Cells()
      ensures Valid() && Contents() == old(Contents()) + [x]
      ensures fresh(Cells() - old(Cells()))
    {
      end.item := Some(x);
      var e := new Element<T>();
      end.next := e;
      cells := cells + [e];
      end := e;
      length := length + 1;
    }

    /** `cdeq`, `dbdeq`, `ldeq` and `qdeq`: NULL exactly when there is nothing in the queue. */
    method Dequeue() returns (r: Option<T>)
      requires Valid()
      modifies this
      ensures Valid() && Cells() <= old(Cells())
      ensures old(Contents()) == [] ==> r == None && Contents() == []
      ensures old(Contents()) != [] ==> r == Some(old(Contents())[0]) && Contents() == old(Contents())[1..]
    {
      if start.item.None? { return None; }
      r := start.item;
      assert start.next == cells[1];
      start := start.next;
      cells := cells[1..];
      length := length - 1;
    }
  }
}
