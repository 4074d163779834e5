/**
 * The tries in the form the server keeps them: nodes with a parent pointer and a table of child pointers
 * that is allocated on the first add and freed when its last slot is cleared.  The table belongs to one node
 * alone, so it is a field of that node; the empty sequence is the NULL pointer.
 */
module TrieHeap {
  import opened Base
  import opened TrieSpec

  class Node<V> {
    const parent: Node?<V>  // set when the node is made, never again
    var child: seq<Node?<V>>
    var obj: Option<V>
    ghost const path: Path  // where the node was made

    constructor (parent: Node?<V>, ghost path: Path)
      ensures this.parent == parent && child == [] && obj == None && this.path == path
    {
      this.parent, this.path := parent, path;
      child, obj := [], None;
    }
  }

  class Trie<V> {
    const width: nat
    const root: Node<V>
    ghost var view: Shape<V>  // what the trie stands for
    ghost var at: map<Path, Node<V>>  // the node at each path
    ghost var inner: set<Path>  // the paths that have children
    ghost var Repr: set<object>

    ghost predicate Valid()
      reads this, Repr
      ensures Valid() ==> this in Repr
    {
      Core() && Slots()
    }

    /** Everything but the agreement of slots with paths. */
    ghost predicate Core()
      reads this, Repr
      ensures Core() ==> this in Repr && Owned()
    {
      && this in Repr
      && [] in at && at[[]] == root
      && view.nodes == at.Keys && view.vals.Keys <= view.nodes
      && Closed(at.Keys, width)
      && Branching(inner, at.Keys)
      && Parents()
      && Owned()
      && Objects()
      && (forall p {:trigger at[p].child} | p in at && p in inner :: at[p].child != [])
    }

    /** The nodes and their child tables belong to the trie and are not shared. */
    ghost predicate Owned()
      reads this, Repr
    {
      && (forall p {:trigger at[p]} | p in at :: at[p].path == p && at[p] in Repr)
      && (forall p {:trigger at[p].child} | p in at :: at[p].child == [] || |at[p].child| == width)
    }

    /** The objects are those of the abstract trie. */
    ghost predicate Objects()
      reads this, Repr
      requires Owned()
    {
      forall p {:trigger at[p].obj} | p in at :: at[p].obj == Lookup(view, p)
    }

    /** Parent pointers agree with paths. */
    ghost predicate Parents()
      reads this
      requires Closed(at.Keys, width)
    {
      forall p {:trigger at[p].parent} | p in at && p != [] :: at[p].parent == at[p[..|p| - 1]]
    }

    /** Slots agree with paths. */
    ghost predicate Slots()
      reads this, Repr
      requires Owned()
    {
      forall p, a: nat {:trigger at[p].child[a]} | p in at && a < width && at[p].child != [] ::
        at[p].child[a] == if p + [a] in at then at[p + [a]] else null
    }

    /** Slots agree with paths, except possibly one. */
    ghost predicate SlotsBut(q: Path, b: nat)
      reads this, Repr
      requires Owned()
    {
      forall p, a: nat {:trigger at[p].child[a]} | p in at && a < width && at[p].child != [] && (p != q || a != b) ::
        at[p].child[a] == if p + [a] in at then at[p + [a]] else null
    }

    /** No child table is empty, except possibly that of the node at `p`. */
    ghost predicate TightBut(p: Path)
      reads this, Repr
      requires Owned()
    {
      forall q {:trigger at[q].child} | q in at && q != p && at[q].child != [] :: q in inner
    }

    /** No child table is empty. */
    ghost predicate Tight()
      reads this, Repr
      requires Owned()
    {
      forall q {:trigger at[q].child} | q in at && at[q].child != [] :: q in inner
    }

    constructor (width: nat)
      ensures Valid() && Tight() && fresh(Repr) && this.width == width
      ensures view == Empty()
    {
      var r := new Node<V>(null, []);
      this.width, root := width, r;
      at, inner := map[[] := r], {};
      view := Empty();
      Repr := {this, r};
    }

    /** The walk down the trie that every lookup makes, on a key whose letters are in the alphabet. */
    method Seek(key: Path) returns (r: Node?<V>)
      requires Valid() && Letters(key, width)
      ensures r == if key in at then at[key] else null
    {
      var temp := root;
      var i := 0;
      assert key[..0] == [];
      while i < |key|
        invariant 0 <= i <= |key|
        invariant key[..i] in at && temp == at[key[..i]]
      {
        assert key[..i + 1] == key[..i] + [key[i]];
        if temp.child == [] || temp.child[key[i]] == null {
          assert key !in at by {
            if key in at { assert key[..i] < key && Inner(at.Keys, key[..i]); }
          }
          return null;
        }
        temp := temp.child[key[i]];
        i := i + 1;
      }
      assert key[..i] == key;
      return temp;
    }

    /** `getTrigger`, `getUserStock`, `getStock` and `getUser`. */
    method Get(key: Path) returns (r: Option<V>)
      requires Valid() && Letters(key, width)
      ensures r == Lookup(view, key)
    {
      var n := Seek(key);
      if n == null { return None; }
      assert at[key].obj == Lookup(view, key);
      return n.obj;
    }

    /** An update in place of a stored object. */
    method Assign(key: Path, v: V)
      requires Valid() && Tight() && key in view.vals && Letters(key, width)
      modifies Repr
      ensures Valid() && Tight() && Repr == old(Repr)
      ensures view == old(view).(vals := old(view).vals[key := v])
    {
      var n := Seek(key);
      assert key in at;
      Hang(n, v, key);
    }

    /** Removal of a stored object, whose node is found by walking down. */
    method Remove(key: Path, bound: nat)
      requires Valid() && Tight() && key in view.vals && Letters(key, width) && bound <= |key|
      modifies Repr
      ensures Valid() && Tight() && Repr == old(Repr)
      ensures view == Prune(Clear(old(view), key), key, bound, key)
    {
      var n := Seek(key);
      assert key in at;
      RemoveFrom(n, key, bound);
    }

    /** A node without a child table gets one with every slot empty. */
    method AllocateSlots(temp: Node<V>, ghost p: Path)
      requires Valid() && Tight() && p in at && at[p] == temp && temp.child == [] && width > 0
      modifies temp`child
      ensures Valid() && TightBut(p) && temp.child != []
    {
      assert !Inner(at.Keys, p);
      forall b: nat ensures p + [b] !in at { assert p < p + [b]; }
      temp.child := seq(width, _ => null);
      assert Owned();
      assert Objects();
      assert Slots();
    }

    /** A node that a slot already points to takes its place in the trie. */
    ghost method Attach(temp: Node<V>, a: nat, n: Node<V>, p: Path)
      requires Core() && SlotsBut(p, a) && TightBut(p) && p in at && at[p] == temp && a < width && temp.child != []
      requires n !in Repr && n.parent == temp && n.path == p + [a] && n.child == [] && n.obj == None
      requires temp.child[a] == n && p + [a] !in at
      modifies this
      ensures Valid() && Tight()
      ensures p + [a] in at && at[p + [a]] == n && Repr == old(Repr) + {n}
      ensures view == Shape(old(view).nodes + {p + [a]}, old(view).vals)
    {
      var q := p + [a];
      Repr := Repr + {n};
      at := at[q := n];
      view := Shape(view.nodes + {q}, view.vals);
      inner := inner + {p};
      BranchingGrows(old(inner), old(at.Keys), p, a, width);
      assert at.Keys == old(at.Keys) + {q};
      assert q[..|q| - 1] == p;
      ClosedGrows(old(at.Keys), p, a, width);
      assert Owned();
      assert Objects();
      assert Parents();
      assert Slots() by {
        forall r, b: nat | r in at && b < width && at[r].child != []
          ensures at[r].child[b] == if r + [b] in at then at[r + [b]] else null
        {
          AppendInjective(p, a, r, b);
        }
      }
    }

    /** An empty slot gets a node that was just made. */
    method LinkNode(temp: Node<V>, a: nat, n: Node<V>, ghost p: Path)
      requires Valid() && TightBut(p) && p in at && at[p] == temp && a < width
      requires temp.child != [] && temp.child[a] == null
      requires n !in Repr && n.parent == temp && n.path == p + [a] && n.child == [] && n.obj == None
      modifies this, temp`child
      ensures Valid() && Tight()
      ensures |temp.child| == width && p + [a] in at && at[p + [a]] == n == temp.child[a]
      ensures Repr == old(Repr) + {n}
      ensures view == Shape(old(view).nodes + {p + [a]}, old(view).vals)
    {
      temp.child := temp.child[a := n];
      assert Owned();
      Attach(temp, a, n, p);
    }

    /** One turn of the loop of the add functions: the child in slot `a`, made if it is not there. */
    method Child(temp: Node<V>, a: nat, ghost p: Path) returns (next: Node<V>)
      requires Valid() && Tight() && p in at && at[p] == temp && a < width
      modifies Repr
      ensures Valid() && Tight() && fresh(Repr - old(Repr)) && old(Repr) <= Repr
      ensures p + [a] in at && next == at[p + [a]]
      ensures view == Shape(old(view).nodes + {p + [a]}, old(view).vals)
    {
      if temp.child == [] {
        AllocateSlots(temp, p);
      }
      if temp.child[a] == null {
        var n := new Node<V>(temp, p + [a]);
        LinkNode(temp, a, n, p);
      } else {
        assert p + [a] in at && at[p + [a]] == temp.child[a];
        assert Inner(at.Keys, p) by { assert p < p + [a]; }
        assert view.nodes == view.nodes + {p + [a]};
      }
      next := temp.child[a];
    }

    method Hang(temp: Node<V>, v: V, ghost p: Path)
      requires Valid() && Tight() && p in at && at[p] == temp
      modifies this`view, temp`obj
      ensures Valid() && Tight()
      ensures view == old(view).(vals := old(view).vals[p := v])
    {
      temp.obj := Some(v);
      view := view.(vals := view.vals[p := v]);
      assert Owned();
      assert Slots();
    }

    method Unhang(temp: Node<V>, ghost p: Path)
      requires Valid() && Tight() && p in at && at[p] == temp
      modifies this`view, temp`obj
      ensures Valid() && Tight() && temp.obj == None
      ensures view == Clear(old(view), p)
    {
      temp.obj := None;
      view := Clear(view, p);
      assert Owned();
      assert Slots();
    }

    /** `addTrigger`, `addUserStock`, `addStock` and `addUser`: the loop that grows the path, then the hanging of the object. */
    method Add(key: Path, v: V) returns (r: V)
      requires Valid() && Tight() && Letters(key, width)
      modifies Repr
      ensures Valid() && Tight() && fresh(Repr - old(Repr))
      ensures view == Put(old(view), key, v)
      ensures Lookup(view, key) == Some(r)
    {
      var temp := root;
      var i := 0;
      ghost var before := view;
      assert key[..0] == [] && before.nodes == before.nodes + Prefixes([]);
      while i < |key|
        invariant 0 <= i <= |key|
        invariant Valid() && Tight() && fresh(Repr - old(Repr))
        invariant key[..i] in at && temp == at[key[..i]]
        invariant view == Shape(before.nodes + Prefixes(key[..i]), before.vals)
      {
        PrefixesGrow(key, i);
        temp := Child(temp, key[i], key[..i]);
        i := i + 1;
      }
      assert key[..i] == key;
      assert temp.obj.Some? <==> key in view.vals;
      if temp.obj.Some? {
        r := temp.obj.value;
      } else {
        Hang(temp, v, key);
        r := v;
      }
    }

    /** The subtree behind a slot that was cleared leaves the trie. */
    ghost method Detach(temp: Node<V>, a: nat, p: Path)
      requires Core() && SlotsBut(p, a) && Tight() && p in at && at[p] == temp && a < width
      requires temp.child != [] && temp.child[a] == null
      modifies this`at, this`inner, this`view
      ensures Valid() && TightBut(p)
      ensures p in at && at[p] == temp
      ensures view == Drop(old(view), p + [a])
    {
      var q, gone := p + [a], Under(p + [a], at.Keys);
      NodesShrink(inner, at.Keys, p, a, width);
      inner := inner - gone - (if Inner(at.Keys - gone, p) then {} else {p});
      at := at - gone;
      view := Drop(view, q);
      assert at.Keys == old(at.Keys) - gone;
      assert Owned();
      assert Objects();
      assert Parents();
      assert Slots() by {
        forall r, b: nat | r in at && b < width && at[r].child != []
          ensures at[r].child[b] == if r + [b] in at then at[r + [b]] else null
        {
          UnderStep(p, a, r, b);
        }
      }
    }

    /** Clearing a slot detaches the subtree behind it. */
    method ClearSlot(temp: Node<V>, a: nat, ghost p: Path)
      requires Valid() && Tight() && p in at && at[p] == temp && temp.child != [] && a < width
      modifies this`at, this`inner, this`view, temp`child
      ensures Valid() && TightBut(p)
      ensures p in at && at[p] == temp && temp.child != []
      ensures view == Drop(old(view), p + [a])
    {
      temp.child := temp.child[a := null];
      assert Owned();
      Detach(temp, a, p);
    }

    /** Whether no slot of the child table is in use, by the loop of the remove functions. */
    method AllSlotsEmpty(temp: Node<V>, ghost p: Path) returns (empty: bool)
      requires Valid() && p in at && at[p] == temp && temp.child != []
      ensures empty <==> !HasChild(view, p)
    {
      var j := 0;
      while j < width
        invariant 0 <= j <= width
        invariant forall b: nat :: b < j ==> temp.child[b] == null
      {
        if temp.child[j] != null {
          assert p + [j] in at && p < p + [j];
          return false;
        }
        j := j + 1;
      }
      InnerHasSlot(at.Keys, p, width);
      assert forall b: nat :: b < width && p + [b] in at ==> temp.child[b] != null;
      return true;
    }

    method FreeSlots(temp: Node<V>, ghost p: Path)
      requires Valid() && TightBut(p) && p in at && at[p] == temp && !HasChild(view, p)
      modifies temp`child
      ensures Valid() && Tight() && temp.child == []
    {
      temp.child := [];
      assert Owned();
      assert Objects();
    }

    /** One turn of the pruning loop: clear a slot of the parent, and free its array if that was the last. */
    method PruneStep(temp: Node<V>, a: nat, ghost p: Path) returns (empty: bool)
      requires Valid() && Tight() && p in at && at[p] == temp && temp.child != [] && a < width
      modifies this`at, this`inner, this`view, temp`child
      ensures Valid() && Tight() && Repr == old(Repr)
      ensures p in at && at[p] == temp
      ensures view == Drop(old(view), p + [a])
      ensures empty <==> !HasChild(view, p)
    {
      ClearSlot(temp, a, p);
      empty := AllSlotsEmpty(temp, p);
      if empty {
        FreeSlots(temp, p);
      }
    }

    /** An exhausted node is left for its parent, and the slot that the key selects there is cleared. */
    method Climb(temp: Node<V>, key: Path, i: nat, ghost cur: Path) returns (parent: Node<V>, empty: bool)
      requires Valid() && Tight() && cur in at && at[cur] == temp
      requires temp.obj == None && temp.child == [] && i < |key| && i < |cur| && Letters(key, width)
      modifies Repr
      ensures Valid() && Tight() && Repr == old(Repr)
      ensures var p := cur[..|cur| - 1];
        && p in at && at[p] == parent
        && Prune(old(view), key, i + 1, cur) == if empty then Prune(view, key, i, p) else view
    {
      ghost var p := cur[..|cur| - 1];
      assert p in at && p < cur && Inner(at.Keys, p) && !Inner(at.Keys, cur);
      parent := temp.parent;
      empty := PruneStep(parent, key[i], p);
    }

    /**
     * `removeTrigger` (bound one less than the length of the key) and `removeUserStock` (bound equal to it).
     * `temp0` is the node that the removed object points back to.
     */
    method RemoveFrom(temp0: Node<V>, key: Path, bound: nat)
      requires Valid() && Tight() && key in at && at[key] == temp0 && bound <= |key|
      modifies Repr
      ensures Valid() && Tight() && Repr == old(Repr)
      ensures view == Prune(Clear(old(view), key), key, bound, key)
    {
      var temp := temp0;
      Unhang(temp, key);
      ghost var result := Prune(view, key, bound, key);
      ghost var cur := key;
      var i := bound;
      while i > 0
        invariant 0 <= i <= bound && i <= |cur|
        invariant Valid() && Tight() && Repr == old(Repr)
        invariant cur in at && at[cur] == temp
        invariant Letters(key, width)
        invariant Prune(view, key, i, cur) == result
      {
        if temp.obj.Some? || temp.child != [] {
          assert cur in view.vals || Inner(at.Keys, cur);
          break;
        }
        i := i - 1;
        var empty;
        temp, empty := Climb(temp, key, i, cur);
        cur := cur[..|cur| - 1];
        if !empty {
          assert view == result;
          return;
        }
      }
    }
  }

  /** What is left of the nodes and of the inner ones when the subtree behind a slot goes. */
  lemma NodesShrink(inner: set<Path>, nodes: set<Path>, p: Path, a: nat, width: nat)
    requires Branching(inner, nodes) && Closed(nodes, width) && p in nodes && [] in nodes
    ensures var gone := Under(p + [a], nodes);
      && Branching(inner - gone - (if Inner(nodes - gone, p) then {} else {p}), nodes - gone)
      && Closed(nodes - gone, width) && p in nodes - gone && [] in nodes - gone
  {
    BranchingShrinks(inner, nodes, p, a);
    ClosedShrinks(nodes, p + [a], width);
    assert !(p + [a] <= p) && !(p + [a] <= []);
  }

  ghost predicate Closed(nodes: set<Path>, width: nat) {
    forall p | p in nodes ::
      Letters(p, width) && forall j {:trigger p[..j]} | 0 <= j <= |p| :: p[..j] in nodes
  }

  ghost predicate Branching(inner: set<Path>, nodes: set<Path>) {
    && inner <= nodes
    && forall p {:trigger Inner(nodes, p)} | p in nodes :: p in inner <==> Inner(nodes, p)
  }

  lemma InnerHasSlot(nodes: set<Path>, p: Path, width: nat)
    requires Closed(nodes, width)
    ensures Inner(nodes, p) ==> exists b: nat :: b < width && p + [b] in nodes
  {
    if Inner(nodes, p) {
      var x :| x in nodes && p < x;
      assert x[..|p| + 1] == p + [x[|p|]];
    }
  }

  lemma BranchingGrows(inner: set<Path>, nodes: set<Path>, p: Path, a: nat, width: nat)
    requires Branching(inner, nodes) && Closed(nodes, width) && p in nodes && p + [a] !in nodes
    ensures Branching(inner + {p}, nodes + {p + [a]})
  {
    var q := p + [a];
    assert p < q && q in nodes + {q};
    forall r | r in nodes + {q} ensures r in inner + {p} <==> Inner(nodes + {q}, r) {
      if Inner(nodes, r) {
        var x :| x in nodes && r < x;
        assert x in nodes + {q};
      }
      if r < q && r != p { assert r < p; }
      assert forall x :: x in nodes && q <= x ==> x[..|q|] == q;
    }
  }

  /** Dropping a subtree leaves every node elsewhere with the children it had, its own parent excepted. */
  lemma BranchingShrinks(inner: set<Path>, nodes: set<Path>, p: Path, a: nat)
    requires Branching(inner, nodes) && p in nodes
    ensures var gone := Under(p + [a], nodes);
      Branching(inner - gone - (if Inner(nodes - gone, p) then {} else {p}), nodes - gone)
  {
    var gone := Under(p + [a], nodes);
    var left := nodes - gone;
    forall r | r in left && r != p ensures r in inner <==> Inner(left, r) {
      if Inner(left, r) {
        var x :| x in left && r < x;
        assert x in nodes && Inner(nodes, r);
      }
      if Inner(nodes, r) {
        InnerAfterDrop(nodes, p, a, r);
      }
    }
    if Inner(left, p) {
      var x :| x in left && p < x;
      assert x in nodes && Inner(nodes, p);
    }
  }

  lemma InnerAfterDrop(nodes: set<Path>, p: Path, a: nat, r: Path)
    requires Inner(nodes, r) && p in nodes && r != p && !(p + [a] <= r)
    ensures Inner(nodes - Under(p + [a], nodes), r)
  {
    var x :| x in nodes && r < x;
    var left := nodes - Under(p + [a], nodes);
    assert p in left && (p + [a] <= x || x in left);
    PrefixesNest(p + [a], r, x);
    PrefixesNest(r, p + [a], x);
    assert p + [a] <= x ==> r < p + [a];
    assert r < p + [a] ==> r == (p + [a])[..|r|] == p[..|r|];
  }

  /** Of two prefixes of one path the shorter is a prefix of the longer. */
  lemma PrefixesNest(u: Path, v: Path, x: Path)
    ensures u <= x && v <= x && |u| <= |v| ==> u <= v
  {
  }

  lemma AppendInjective(p: Path, a: nat, r: Path, b: nat)
    ensures r + [b] == p + [a] ==> r == p && b == a
  {
    if r + [b] == p + [a] {
      assert r == (r + [b])[..|r|] && p == (p + [a])[..|p|];
      assert b == (r + [b])[|r|] && a == (p + [a])[|p|];
    }
  }

  lemma UnderStep(p: Path, a: nat, r: Path, b: nat)
    ensures p + [a] <= r + [b] && !(p + [a] <= r) ==> p == r && a == b
  {
    if p + [a] <= r + [b] && !(p + [a] <= r) {
      assert p + [a] == r + [b];
      AppendInjective(p, a, r, b);
    }
  }

  lemma PrefixesGrow(key: Path, i: nat)
    requires i < |key|
    ensures key[..i + 1] == key[..i] + [key[i]]
    ensures Prefixes(key[..i + 1]) == Prefixes(key[..i]) + {key[..i + 1]}
  {
    var longer, shorter := Prefixes(key[..i + 1]), Prefixes(key[..i]);
    forall p | p in longer ensures p in shorter || p == key[..i + 1] {
      if |p| <= i { assert p == key[..i + 1][..|p|] == key[..i][..|p|]; }
    }
    forall p | p in shorter ensures p in longer {
      assert p == key[..i][..|p|] == key[..i + 1][..|p|];
    }
  }

  lemma ClosedShrinks(nodes: set<Path>, root: Path, width: nat)
    requires Closed(nodes, width)
    ensures Closed(nodes - Under(root, nodes), width)
  {
    forall p, j | p in nodes - Under(root, nodes) && 0 <= j <= |p| ensures p[..j] in nodes - Under(root, nodes) {
      assert root <= p[..j] ==> root <= p;
    }
  }

  lemma ClosedGrows(nodes: set<Path>, p: Path, a: nat, width: nat)
    requires Closed(nodes, width) && p in nodes && a < width
    ensures Closed(nodes + {p + [a]}, width)
  {
    var q := p + [a];
    forall j | 0 <= j <= |q| ensures q[..j] in nodes + {q} {
      if j <= |p| { assert q[..j] == p[..j]; } else { assert q[..j] == q; }
    }
  }
}
