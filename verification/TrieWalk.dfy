/** The two-pass enumeration of a trie: one recursive walk that counts, and the same walk filling an array. */
module TrieWalk {
  import opened Base
  import opened TrieSpec
  import opened TrieOrder
  import opened TrieHeap

  /** The array holds the objects of the keys from position `start` on, and elsewhere what it held. */
  ghost predicate Filled<V>(now: seq<Option<V>>, before: seq<Option<V>>, start: nat, ks: seq<Path>, t: Shape<V>) {
    && |now| == |before| && start + |ks| <= |now|
    && (forall j :: 0 <= j < |ks| ==> now[start + j] == Lookup(t, ks[j]))
    && (forall j :: 0 <= j < |now| && !(start <= j < start + |ks|) ==> now[j] == before[j])
  }

  lemma FilledTwice<V>(now: seq<Option<V>>, mid: seq<Option<V>>, before: seq<Option<V>>, start: nat,
                       ks: seq<Path>, more: seq<Path>, t: Shape<V>)
    requires Filled(mid, before, start, ks, t) && Filled(now, mid, start + |ks|, more, t)
    ensures Filled(now, before, start, ks + more, t)
  {
    forall j | 0 <= j < |ks + more| ensures now[start + j] == Lookup(t, (ks + more)[j]) {
      if j >= |ks| { assert now[start + |ks| + (j - |ks|)] == Lookup(t, more[j - |ks|]); }
    }
  }

  /**
   * `getAllTriggers` and `getAllUserStocks`: with no array the walk only counts, with one it also fills.
   * The count goes from call to call.
   */
  method GetAll<V>(t: Trie<V>, node: Node<V>, out: array?<Option<V>>, count0: nat, ghost p: Path, ghost height: nat)
    returns (count: nat)
    requires t.Valid() && p in t.at && t.at[p] == node && (forall q <- t.at :: |q| <= height)
    requires out != null ==> out !in t.Repr && count0 + |Keys(t.view, t.width, height, p)| <= out.Length
    modifies if out == null then {} else {out}
    ensures count == count0 + |Keys(t.view, t.width, height, p)|
    ensures out != null ==> Filled(out[..], old(out[..]), count0, Keys(t.view, t.width, height, p), t.view)
    ensures t.Valid()
    decreases height - |p|, 2
  {
    ghost var before := if out == null then [] else out[..];
    ghost var own := KeysParts(t.view, t.width, height, p);
    count := Own(t, node, out, count0, p);
    count := WalkSlots(t, node, out, count, p, height, count0, own, before);
  }

  /** A node's list is its own key, if it has an object, and then those of its children. */
  lemma KeysParts<V>(v: Shape<V>, width: nat, height: nat, p: Path) returns (own: seq<Path>)
    requires |p| <= height
    ensures own == if p in v.vals then [p] else []
    ensures Keys(v, width, height, p) == own + ChildKeys(v, width, height, p, 0)
  {
    own := if p in v.vals then [p] else [];
  }

  /** The loop over the slots of a node, if it has any, after `own` was reported. */
  method WalkSlots<V>(t: Trie<V>, node: Node<V>, out: array?<Option<V>>, count0: nat, ghost p: Path, ghost height: nat,
                      ghost start: nat, ghost own: seq<Path>, ghost before: seq<Option<V>>) returns (count: nat)
    requires t.Valid() && p in t.at && t.at[p] == node && (forall q <- t.at :: |q| <= height)
    requires count0 == start + |own|
    requires out != null ==>
      && out !in t.Repr && count0 + |ChildKeys(t.view, t.width, height, p, 0)| <= out.Length
      && Filled(out[..], before, start, own, t.view)
    modifies if out == null then {} else {out}
    ensures count == count0 + |ChildKeys(t.view, t.width, height, p, 0)|
    ensures out != null ==>
      Filled(out[..], before, start, own + ChildKeys(t.view, t.width, height, p, 0), t.view)
    ensures t.Valid()
    decreases height - |p|, 1
  {
    count := count0;
    if node.child == [] {
      NoChildKeys(t, p, height, 0);
      assert own + [] == own;
      return;
    }
    ghost var all := own + ChildKeys(t.view, t.width, height, p, 0);
    ghost var done := own;
    var i := 0;
    while i < t.width
      invariant 0 <= i <= t.width && t.Valid()
      invariant count == start + |done|
      invariant done + ChildKeys(t.view, t.width, height, p, i) == all
      invariant out != null ==> Filled(out[..], before, start, done, t.view)
    {
      count, done := VisitSlot(t, node, i, out, count, p, height, start, done, before);
      i := i + 1;
    }
    assert done + [] == done;
  }

  /** The part of the walk that reports the object of the node itself. */
  method Own<V>(t: Trie<V>, node: Node<V>, out: array?<Option<V>>, count0: nat, ghost p: Path) returns (count: nat)
    requires t.Valid() && p in t.at && t.at[p] == node
    requires out != null ==> out !in t.Repr && (p in t.view.vals ==> count0 < out.Length) && count0 <= out.Length
    modifies if out == null then {} else {out}
    ensures var own := if p in t.view.vals then [p] else [];
      && count == count0 + |own|
      && (out != null ==> Filled(out[..], old(out[..]), count0, own, t.view))
    ensures t.Valid()
  {
    count := count0;
    if node.obj.Some? {
      if out != null {
        out[count] := node.obj;
      }
      count := count + 1;
    }
  }

  /** One turn of the loop over the slots of a node, after `done` was reported. */
  method VisitSlot<V>(t: Trie<V>, node: Node<V>, i: nat, out: array?<Option<V>>, count0: nat, ghost p: Path, ghost height: nat,
                   ghost start: nat, ghost done: seq<Path>, ghost before: seq<Option<V>>)
    returns (count: nat, ghost done': seq<Path>)
    requires t.Valid() && p in t.at && t.at[p] == node && (forall q <- t.at :: |q| <= height)
    requires node.child != [] && i < t.width && count0 == start + |done|
    requires out != null ==>
      && out !in t.Repr && count0 + |ChildKeys(t.view, t.width, height, p, i)| <= out.Length
      && Filled(out[..], before, start, done, t.view)
    modifies if out == null then {} else {out}
    ensures count == start + |done'|
    ensures done' + ChildKeys(t.view, t.width, height, p, i + 1) == done + ChildKeys(t.view, t.width, height, p, i)
    ensures out != null ==> Filled(out[..], before, start, done', t.view)
    ensures t.Valid()
    decreases height - |p|, 0
  {
    ghost var more, rest := SplitTodo(t, p, height, i);
    assert done + (more + rest) == (done + more) + rest;
    done', count := done + more, count0;
    if node.child[i] != null {
      count := GetChild(t, node.child[i], out, count0, p + [i], height, start, done, before);
    } else {
      assert done' == done;
    }
  }

  method GetChild<V>(t: Trie<V>, child: Node<V>, out: array?<Option<V>>, count0: nat, ghost p: Path, ghost height: nat,
                  ghost start: nat, ghost done: seq<Path>, ghost before: seq<Option<V>>) returns (count: nat)
    requires t.Valid() && p in t.at && t.at[p] == child && (forall q <- t.at :: |q| <= height)
    requires count0 == start + |done|
    requires out != null ==>
      && out !in t.Repr && count0 + |Keys(t.view, t.width, height, p)| <= out.Length
      && Filled(out[..], before, start, done, t.view)
    modifies if out == null then {} else {out}
    ensures count == count0 + |Keys(t.view, t.width, height, p)|
    ensures out != null ==> Filled(out[..], before, start, done + Keys(t.view, t.width, height, p), t.view)
    ensures t.Valid()
    decreases height - |p|, 3
  {
    hide Filled, Keys;
    count := GetAll(t, child, out, count0, p, height);
    if out != null {
      FilledTwice(out[..], old(out[..]), before, start, done, Keys(t.view, t.width, height, p), t.view);
    }
  }

  /** The two passes of `DISPLAY_SUMMARY`: count, allocate, fill. */
  method ListAll<V>(t: Trie<V>, ghost height: nat) returns (a: array<Option<V>>)
    requires t.Valid() && (forall q <- t.at :: |q| <= height)
    ensures fresh(a)
    ensures var ks := Keys(t.view, t.width, height, []);
      a.Length == |ks| && forall j :: 0 <= j < |ks| ==> a[j] == Lookup(t.view, ks[j])
  {
    var n := GetAll(t, t.root, null, 0, [], height);
    a := new Option<V>[n](_ => None);
    n := GetAll(t, t.root, a, 0, [], height);
    assert forall j :: 0 <= j < a.Length ==> a[j] == a[..][j];
  }

  /** What is still to report splits into the child at slot `i` and the later ones. */
  lemma SplitTodo<V>(t: Trie<V>, p: Path, height: nat, i: nat) returns (more: seq<Path>, rest: seq<Path>)
    requires t.Valid() && p in t.at && |p| <= height && t.at[p].child != [] && i < t.width
    ensures ChildKeys(t.view, t.width, height, p, i) == more + rest
    ensures rest == ChildKeys(t.view, t.width, height, p, i + 1)
    ensures t.at[p].child[i] != null <==> p + [i] in t.at
    ensures more == if p + [i] in t.at then Keys(t.view, t.width, height, p + [i]) else []
  {
    rest := ChildKeys(t.view, t.width, height, p, i + 1);
    more := if p + [i] in t.at then Keys(t.view, t.width, height, p + [i]) else [];
  }

  lemma {:induction false} NoChildKeys<V>(t: Trie<V>, p: Path, height: nat, i: nat)
    requires t.Valid() && p in t.at && t.at[p].child == [] && |p| <= height && i <= t.width
    ensures ChildKeys(t.view, t.width, height, p, i) == []
    decreases t.width - i
  {
    if i < t.width {
      NoChildKeys(t, p, height, i + 1);
      assert p + [i] !in t.at by {
        assert !Inner(t.at.Keys, p) && p < p + [i];
      }
    }
  }
}
