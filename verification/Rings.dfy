/**
 * The ring of triggers of one stock: nodes linked both ways in a circle, entered through `curr`.  The same shape
 * links the users and the stocks.
 */
module Rings {
  import opened Base

  class Node<T> {
    const item: T
    var next: Node?<T>
    var prev: Node?<T>

    constructor (item: T)
      ensures this.item == item
    {
      this.item := item;
    }
  }

  ghost predicate Linked<T>(a: Node<T>, b: Node<T>)
    reads a, b
  {
    a.next == b && b.prev == a
  }

  /** Neighbours in the sequence are linked to each other. */
  ghost predicate Chain<T>(s: seq<Node<T>>)
    reads s
  {
    forall i, j {:trigger s[i], s[j]} :: 0 <= i < j < |s| && j == i + 1 ==> Linked(s[i], s[j])
  }

  lemma DifferentWithout<T>(s: seq<Node<T>>, k: nat)
    requires AllDifferent(s) && k < |s|
    ensures var rest := s[..k] + s[k + 1..];
      && AllDifferent(rest) && (forall i :: 0 <= i < |rest| ==> rest[i] == s[if i < k then i else i + 1] && rest[i] != s[k])
  {
    var rest := s[..k] + s[k + 1..];
    assert forall i :: 0 <= i < |rest| ==> rest[i] == s[if i < k then i else i + 1];
  }

  class Ring<T> {
    var curr: Node?<T>
    ghost var nodes: seq<Node<T>>  // the circle, from `curr` on

    /** One circle through `curr`, in which `next` and `prev` are inverse to each other. */
    ghost predicate Valid()
      reads this, nodes
    {
      && AllDifferent(nodes)
      && Chain(nodes)
      && (if nodes == [] then curr == null else curr == nodes[0] && Linked(nodes[|nodes| - 1], nodes[0]))
    }

    /** The objects that the circle is made of. */
    ghost function Cells(): (cells: set<object>)
      reads this
      ensures forall n <- nodes :: n in cells
    {
      set n | n in nodes
    }

    constructor ()
      ensures Valid() && nodes == []
    {
      curr, nodes := null, [];
    }

    /** The ring part of `addTrigger`: the new node goes before `curr`, which is the end of the circle. */
    method Insert(n: Node<T>)
      requires Valid() && n !in nodes
      modifies this, Cells(), n
      ensures Valid() && nodes == old(nodes) + [n]
    {
      if curr == null {
        n.next, n.prev := n, n;
        curr := n;
      } else {
        n.next := curr;
        n.prev := curr.prev;
        n.next.prev := n;
        n.prev.next := n;
      }
      nodes := nodes + [n];
    }

    /** `curr` moves on. */
    method Advance()
      requires Valid() && curr != null
      modifies this
      ensures Valid() && nodes == old(nodes)[1..] + [old(nodes)[0]] && Cells() == old(Cells())
    {
      ghost var first, rest := nodes[0], nodes[1..];
      assert nodes == [first] + rest;
      curr := curr.next;
      nodes := rest + [first];
      assert forall n :: n in nodes <==> n in [first] + rest;
    }

    /** The ring part of `removeTrigger`. */
    method Remove(n: Node<T>, ghost k: nat)
      requires Valid() && k < |nodes| && nodes[k] == n
      modifies this, Cells()
      ensures Valid() && nodes == old(nodes)[..k] + old(nodes)[k + 1..] && Cells() <= old(Cells())
    {
      ghost var p := nodes[if k > 0 then k - 1 else |nodes| - 1];
      ghost var q := nodes[if k + 1 < |nodes| then k + 1 else 0];
      assert Linked(p, n) && Linked(n, q);
      if n.next == n {
        assert |nodes| == 1 && nodes[..k] + nodes[k + 1..] == [];
        curr := null;
      } else {
        assert |nodes| > 1;
        if curr == n { curr := n.next; }
        n.next.prev := n.prev;
        n.prev.next := n.next;
      }
      ghost var was, rest := nodes, nodes[..k] + nodes[k + 1..];
      DifferentWithout(was, k);
      hide AllDifferent;
      forall i, j {:trigger rest[i], rest[j]} | 0 <= i < j < |rest| && j == i + 1 ensures Linked(rest[i], rest[j]) {
        if j == k { assert rest[i] == p && rest[j] == q; } else { assert rest[i] != p && rest[j] != q; }
      }
      nodes := rest;
    }
  }
}
