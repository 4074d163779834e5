/**
 * What the array-indexed tries of the transaction server mean.  A trie is the set of paths that have a
 * node, and the objects hung on some of them.  A key is the path of child indexes that its text spells.
 */
module TrieSpec {
  import opened Base

  type Path = seq<nat>

  datatype Shape<V> = Shape(nodes: set<Path>, vals: map<Path, V>)

  /** Nodes are linked from the root, indexes fit the child arrays, and objects hang on nodes. */
  ghost predicate WellFormed<V>(t: Shape<V>, width: nat) {
    && [] in t.nodes
    && (forall p <- t.nodes :: forall j :: 0 <= j <= |p| ==> p[..j] in t.nodes)
    && (forall p <- t.nodes :: Letters(p, width))
    && t.vals.Keys <= t.nodes
  }

  predicate Letters(p: Path, width: nat) {
    forall j :: 0 <= j < |p| ==> p[j] < width
  }

  /** Every node other than the root holds an object or leads to one. */
  ghost predicate Pruned<V>(t: Shape<V>) {
    forall p <- t.nodes :: p != [] ==> p in t.vals || HasChild(t, p)
  }

  ghost predicate HasChild<V>(t: Shape<V>, at: Path) {
    Inner(t.nodes, at)
  }

  /** Some node lies below the path. */
  ghost predicate Inner(nodes: set<Path>, at: Path) {
    exists p :: p in nodes && at < p
  }

  function Empty<V>(): (t: Shape<V>)
    ensures forall width: nat :: WellFormed(t, width)
    ensures Pruned(t)
  {
    Shape({[]}, map[])
  }

  /** `getTrigger`, `getUserStock`, `getStock`, `getUser`. */
  function Lookup<V>(t: Shape<V>, key: Path): Option<V> {
    if key in t.vals then Some(t.vals[key]) else None
  }

  function Prefixes(key: Path): (s: set<Path>)
    ensures forall j :: 0 <= j <= |key| ==> key[..j] in s
    ensures forall p :: p in s <==> p <= key
  {
    var s := set j | 0 <= j <= |key| :: key[..j];
    assert forall p :: p <= key ==> p == key[..|p|];
    s
  }

  /** `addTrigger`, `addUserStock`, `addStock`, `addUser`: an object already there stays. */
  function Put<V>(t: Shape<V>, key: Path, v: V): Shape<V> {
    Shape(t.nodes + Prefixes(key), if key in t.vals then t.vals else t.vals[key := v])
  }

  function Under(root: Path, nodes: set<Path>): (s: set<Path>)
    ensures forall p :: p in s <==> p in nodes && root <= p
  {
    set p | p in nodes && root <= p
  }

  /** Freeing a child and clearing its slot detaches everything below it. */
  function Drop<V>(t: Shape<V>, root: Path): Shape<V> {
    Shape(t.nodes - Under(root, t.nodes), t.vals - Under(root, t.nodes))
  }

  function Clear<V>(t: Shape<V>, key: Path): Shape<V> {
    t.(vals := t.vals - {key})
  }

  /**
   * The pruning loop of the remove functions.  `at` is the node in hand and `i` the loop counter; the slot
   * cleared in the parent is the one that the letter before position `i` of the key selects.
   */
  ghost function Prune<V>(t: Shape<V>, key: Path, i: nat, at: Path): Shape<V>
    requires i <= |key| && i <= |at|
    decreases i
  {
    if i == 0 || at in t.vals || HasChild(t, at) then t
    else
      var parent := at[..|at| - 1];
      var t' := Drop(t, parent + [key[i - 1]]);
      if HasChild(t', parent) then t' else Prune(t', key, i - 1, parent)
  }

  /** Removal with the loop counter started at the length of the key (`removeUserStock`). */
  ghost function Remove<V>(t: Shape<V>, key: Path): Shape<V> {
    Prune(Clear(t, key), key, |key|, key)
  }

  /** Removal with the loop counter started one lower (`removeTrigger`). */
  ghost function RemoveShort<V>(t: Shape<V>, key: Path): Shape<V>
    requires key != []
  {
    Prune(Clear(t, key), key, |key| - 1, key)
  }

  // ----- Adding and looking up -----

  lemma PutKeepsForm<V>(t: Shape<V>, key: Path, v: V, width: nat)
    requires WellFormed(t, width) && Letters(key, width)
    ensures WellFormed(Put(t, key, v), width)
    ensures Pruned(t) ==> Pruned(Put(t, key, v))
  {
    var t' := Put(t, key, v);
    forall p <- t'.nodes, j | 0 <= j <= |p| ensures p[..j] in t'.nodes {
      if p <= key { assert p[..j] <= key; }
    }
    if Pruned(t) {
      forall p <- t'.nodes | p != [] && p !in t'.vals ensures HasChild(t', p) {
        if p <= key && p != key { assert key in t'.nodes && p < key; }
        else if p in t.nodes {
          var q :| q in t.nodes && p < q;
          assert q in t'.nodes;
        }
      }
    }
  }

  /** A lookup after an add finds the added object, or the one that was there; no other key notices. */
  lemma LookupAfterPut<V>(t: Shape<V>, key: Path, v: V, other: Path)
    ensures Lookup(t, key) == None ==> Lookup(Put(t, key, v), key) == Some(v)
    ensures Lookup(t, key).Some? ==> Lookup(Put(t, key, v), key) == Lookup(t, key)
    ensures other != key ==> Lookup(Put(t, key, v), other) == Lookup(t, other)
    ensures forall w: V :: Put(Put(t, key, v), key, w) == Put(t, key, v)
  {
    forall w: V ensures Put(Put(t, key, v), key, w) == Put(t, key, v) {
      assert t.nodes + Prefixes(key) + Prefixes(key) == t.nodes + Prefixes(key);
    }
  }

  // ----- Removal with the right bound -----

  /** A node without children has only itself below it, so freeing it takes no other key. */
  lemma LeafAlone<V>(t: Shape<V>, at: Path)
    requires at in t.nodes && !HasChild(t, at)
    ensures Under(at, t.nodes) == {at}
    ensures at !in t.vals ==> Drop(t, at).vals == t.vals
  {
    forall p <- t.nodes | at <= p ensures p == at { assert !(at < p); }
  }

  /** Every node holds an object or leads to one, apart from the root and possibly `at`. */
  ghost predicate PrunedBut<V>(t: Shape<V>, at: Path) {
    forall p <- t.nodes :: p != [] && p != at ==> p in t.vals || HasChild(t, p)
  }

  lemma DropLeafPruned<V>(t: Shape<V>, at: Path, width: nat)
    requires WellFormed(t, width) && at in t.nodes && at != [] && at !in t.vals && !HasChild(t, at)
    requires PrunedBut(t, at)
    ensures PrunedBut(Drop(t, at), at[..|at| - 1])
  {
    var t', parent := Drop(t, at), at[..|at| - 1];
    LeafAlone(t, at);
    forall p <- t'.nodes | p != [] && p != parent && p !in t'.vals ensures HasChild(t', p) {
      assert p in t.nodes && p != at;
      var q :| q in t.nodes && p < q;
      if q == at {
        assert parent in t'.nodes && p < parent;
      } else {
        assert q in t'.nodes;
      }
    }
  }

  lemma {:induction false} PruneExact<V>(t: Shape<V>, key: Path, i: nat, width: nat)
    requires WellFormed(t, width) && i <= |key| && key[..i] in t.nodes && PrunedBut(t, key[..i])
    ensures var t' := Prune(t, key, i, key[..i]); t'.vals == t.vals && WellFormed(t', width) && Pruned(t')
    decreases i
  {
    var at := key[..i];
    if i != 0 && at !in t.vals && !HasChild(t, at) {
      var parent := key[..i - 1];
      assert at[..|at| - 1] == parent && parent + [key[i - 1]] == at;
      var t' := Drop(t, at);
      LeafAlone(t, at);
      DropLeafPruned(t, at, width);
      DropKeepsForm(t, at, width);
      assert parent in t'.nodes by { assert at[..i - 1] == parent; }
      if !HasChild(t', parent) {
        PruneExact(t', key, i - 1, width);
      }
    }
  }

  lemma DropKeepsForm<V>(t: Shape<V>, root: Path, width: nat)
    requires WellFormed(t, width) && root != []
    ensures WellFormed(Drop(t, root), width)
  {
    var t' := Drop(t, root);
    forall p <- t'.nodes, j | 0 <= j <= |p| ensures p[..j] in t'.nodes {
      assert root <= p[..j] ==> root <= p;
    }
    assert !(root <= []);
  }

  /** Removal with the right bound deletes exactly one key and leaves no empty node but the root. */
  lemma RemoveDeletesExactlyOneKey<V>(t: Shape<V>, key: Path, width: nat)
    requires WellFormed(t, width) && Pruned(t) && key in t.vals
    ensures Remove(t, key).vals == t.vals - {key}
    ensures WellFormed(Remove(t, key), width) && Pruned(Remove(t, key))
  {
    var c := Clear(t, key);
    assert key[..|key|] == key;
    forall p <- c.nodes | p != [] && p != key && p !in c.vals ensures HasChild(c, p) {
      var q :| q in t.nodes && p < q;
      assert q in c.nodes;
    }
    PruneExact(c, key, |key|, width);
  }

  /** In a pruned trie the nodes are exactly the prefixes of the stored keys. */
  lemma PrunedNodes<V>(t: Shape<V>, width: nat)
    requires WellFormed(t, width) && Pruned(t)
    ensures forall p :: p in t.nodes <==> p == [] || exists k :: k in t.vals && p <= k
  {
    forall p | p in t.nodes && p != [] ensures exists k :: k in t.vals && p <= k {
      var k := ReachObject(t, p, t.nodes);
    }
    forall p, k | k in t.vals && p <= k ensures p in t.nodes {
      assert p == k[..|p|];
    }
  }

  /** A pruned trie is determined by what it holds. */
  lemma PrunedDetermined<V>(t: Shape<V>, u: Shape<V>, width: nat)
    requires WellFormed(t, width) && Pruned(t) && WellFormed(u, width) && Pruned(u)
    requires t.vals == u.vals
    ensures t == u
  {
    PrunedNodes(t, width);
    PrunedNodes(u, width);
    assert forall p :: p in t.nodes <==> p in u.nodes;
  }

  /** Removing what was just added restores the whole trie, nodes included. */
  lemma RemoveUndoesPut<V>(t: Shape<V>, key: Path, v: V, width: nat)
    requires WellFormed(t, width) && Pruned(t) && key !in t.vals && Letters(key, width)
    ensures Remove(Put(t, key, v), key) == t
  {
    var t' := Put(t, key, v);
    PutKeepsForm(t, key, v, width);
    RemoveDeletesExactlyOneKey(t', key, width);
    assert t.vals[key := v] - {key} == t.vals;
    PrunedDetermined(Remove(t', key), t, width);
  }

  lemma {:induction false} ReachObject<V>(t: Shape<V>, p: Path, left: set<Path>) returns (k: Path)
    requires Pruned(t) && p in t.nodes && p != []
    requires forall q :: q in t.nodes && p <= q ==> q in left
    ensures k in t.vals && p <= k
    decreases left
  {
    if p in t.vals { return p; }
    var q :| q in t.nodes && p < q;
    k := ReachObject(t, q, left - {p});
  }

  // ----- Removal with the short bound -----

  /** Some node lies below the path, but not below its extension. */
  ghost predicate InnerBut(nodes: set<Path>, at: Path, but: Path) {
    exists p :: p in nodes && at < p && !(but <= p)
  }

  /**
   * The subtree that removal with the short bound detaches although it does not belong to the key.
   * Position `i` of the key goes astray when its letter differs from the letter before it.
   */
  ghost function Astray<V>(t: Shape<V>, key: Path, i: nat): Option<Path>
    requires i < |key|
  {
    if i == 0 then None
    else if key[i] != key[i - 1] then Some(key[..i] + [key[i - 1]])
    else if key[..i] in t.vals || InnerBut(t.nodes, key[..i], key[..i + 1]) then None
    else Astray(t, key, i - 1)
  }

  /** The keys that removal with the short bound takes away besides its own. */
  ghost function Casualties<V>(t: Shape<V>, key: Path): (s: set<Path>)
    requires key != []
    ensures s <= t.vals.Keys
  {
    var a := Astray(t, key, |key| - 1);
    if a.None? then {} else set p | p in t.vals && a.value <= p
  }

  /** Dropping the finished leaf itself, when the letters agree. */
  lemma DropFinished<V>(t: Shape<V>, key: Path, i: nat, width: nat)
    requires WellFormed(t, width) && 0 < i < |key| && key[..i + 1] in t.nodes
    requires key[..i + 1] !in t.vals && !HasChild(t, key[..i + 1])
    ensures var t' := Drop(t, key[..i + 1]);
      && WellFormed(t', width) && t'.vals == t.vals && key[..i] in t'.nodes
      && (HasChild(t', key[..i]) <==> InnerBut(t.nodes, key[..i], key[..i + 1]))
  {
    var at, parent := key[..i + 1], key[..i];
    LeafAlone(t, at);
    DropKeepsForm(t, at, width);
    SiblingsAfterDrop(t, parent, at);
    assert at[..i] == parent && !(at <= parent);
  }

  /** Dropping a neighbour's subtree instead, when the letters differ: the finished leaf stays. */
  lemma DropNeighbour<V>(t: Shape<V>, key: Path, i: nat, width: nat)
    requires WellFormed(t, width) && 0 < i < |key| && key[..i + 1] in t.nodes && key[i] != key[i - 1]
    ensures var t' := Drop(t, key[..i] + [key[i - 1]]); WellFormed(t', width) && HasChild(t', key[..i])
  {
    var at, slot := key[..i + 1], key[..i] + [key[i - 1]];
    DropKeepsForm(t, slot, width);
    assert at[i] != slot[i];
    assert at in Drop(t, slot).nodes && key[..i] < at;
  }

  /** Whatever slot the pruning clears, the nodes stay linked. */
  lemma {:induction false} PruneKeepsForm<V>(t: Shape<V>, key: Path, i: nat, at: Path, width: nat)
    requires WellFormed(t, width) && i <= |key| && i <= |at|
    ensures WellFormed(Prune(t, key, i, at), width)
    decreases i
  {
    if !(i == 0 || at in t.vals || HasChild(t, at)) {
      var parent := at[..|at| - 1];
      DropKeepsForm(t, parent + [key[i - 1]], width);
      PruneKeepsForm(Drop(t, parent + [key[i - 1]]), key, i - 1, parent, width);
    }
  }

  lemma {:induction false} PruneShort<V>(t: Shape<V>, key: Path, i: nat, width: nat)
    requires WellFormed(t, width) && i < |key| && key[..i + 1] in t.nodes
    requires key[..i + 1] !in t.vals && !HasChild(t, key[..i + 1])
    ensures Prune(t, key, i, key[..i + 1]).vals == Without(t.vals, Astray(t, key, i))
    decreases i
  {
    if i != 0 {
      var at, parent := key[..i + 1], key[..i];
      assert at[..|at| - 1] == parent && at == parent + [key[i]];
      if key[i] != key[i - 1] {
        DropNeighbour(t, key, i, width);
      } else {
        DropFinished(t, key, i, width);
        LeafAlone(t, at);
        var t' := Drop(t, at);
        if HasChild(t', parent) || parent in t.vals {
          assert Prune(t, key, i, at) == t';
        } else {
          PruneShort(t', key, i - 1, width);
          AstrayAfterDrop(t, at, key, i - 1);
        }
      }
    }
  }

  /** The stored objects without a subtree that may have gone astray. */
  ghost function Without<V>(vals: map<Path, V>, astray: Option<Path>): map<Path, V> {
    if astray.None? then vals else vals - Under(astray.value, vals.Keys)
  }

  /** A parent keeps a child after a leaf below it is dropped exactly when it has another one. */
  lemma SiblingsAfterDrop<V>(t: Shape<V>, parent: Path, leaf: Path)
    requires Under(leaf, t.nodes) == {leaf}
    ensures HasChild(Drop(t, leaf), parent) <==> InnerBut(t.nodes, parent, leaf)
  {
    var t' := Drop(t, leaf);
    if HasChild(t', parent) {
      var p :| p in t'.nodes && parent < p;
      assert p in t.nodes && !(leaf <= p);
    }
    if p :| p in t.nodes && parent < p && !(leaf <= p) {
      assert p in t'.nodes;
    }
  }

  /** Dropping a finished leaf below does not change what goes astray above. */
  lemma {:induction false} AstrayAfterDrop<V>(t: Shape<V>, leaf: Path, key: Path, i: nat)
    requires i + 1 < |key| && leaf == key[..i + 2] && leaf !in t.vals
    requires Under(leaf, t.nodes) == {leaf}
    ensures Astray(Drop(t, leaf), key, i) == Astray(t, key, i)
    decreases i
  {
    var t' := Drop(t, leaf);
    if i != 0 && key[i] == key[i - 1] {
      assert key[..i + 1] <= leaf;
      assert t'.vals == t.vals;
      if InnerBut(t.nodes, key[..i], key[..i + 1]) {
        var p :| p in t.nodes && key[..i] < p && !(key[..i + 1] <= p);
        assert p in t'.nodes;
      }
      AstrayHigher(t, leaf, key, i - 1);
    }
  }

  lemma {:induction false} AstrayHigher<V>(t: Shape<V>, leaf: Path, key: Path, i: nat)
    requires i < |key| && i + 1 < |leaf| && leaf <= key && leaf !in t.vals
    requires Under(leaf, t.nodes) == {leaf}
    ensures Astray(Drop(t, leaf), key, i) == Astray(t, key, i)
    decreases i
  {
    var t' := Drop(t, leaf);
    if i != 0 && key[i] == key[i - 1] {
      assert key[..i + 1] <= leaf;
      assert t'.vals == t.vals;
      if InnerBut(t.nodes, key[..i], key[..i + 1]) {
        var p :| p in t.nodes && key[..i] < p && !(key[..i + 1] <= p);
        assert p in t'.nodes;
      }
      AstrayHigher(t, leaf, key, i - 1);
    }
  }

  /** The exact effect of removal with the short bound, for any key that nothing extends. */
  lemma RemoveShortEffect<V>(t: Shape<V>, key: Path, width: nat)
    requires WellFormed(t, width) && key in t.vals && key != [] && !HasChild(t, key)
    ensures WellFormed(RemoveShort(t, key), width)
    ensures RemoveShort(t, key).vals == t.vals - {key} - Casualties(t, key)
    ensures key !in Casualties(t, key)
  {
    var c, n := Clear(t, key), |key| - 1;
    assert key[..n + 1] == key;
    PruneShort(c, key, n, width);
    PruneKeepsForm(c, key, n, key, width);
    AstrayAfterClear(t, key, n);
    var a := Astray(t, key, n);
    if a.Some? {
      AstrayIsElsewhere(t, key, n);
      assert c.vals - Under(a.value, c.vals.Keys) == t.vals - {key} - Casualties(t, key);
    } else {
      assert t.vals - {key} - {} == t.vals - {key};
    }
  }

  lemma {:induction false} AstrayAfterClear<V>(t: Shape<V>, key: Path, i: nat)
    requires i < |key|
    ensures Astray(Clear(t, key), key, i) == Astray(t, key, i)
    decreases i
  {
    if i != 0 && key[i] == key[i - 1] {
      AstrayAfterClear(t, key, i - 1);
      assert key[..i] != key;
    }
  }

  lemma {:induction false} AstrayIsElsewhere<V>(t: Shape<V>, key: Path, i: nat)
    requires i < |key| && Astray(t, key, i).Some?
    ensures !(Astray(t, key, i).value <= key)
    decreases i
  {
    if key[i] != key[i - 1] {
      var a := key[..i] + [key[i - 1]];
      assert a[i] != key[i];
    } else {
      AstrayIsElsewhere(t, key, i - 1);
    }
  }

  /** A key of three letters as the trigger trie holds it: no shorter key, none longer. */
  ghost predicate ThreeDeep<V>(t: Shape<V>) {
    && (forall k <- t.vals :: |k| == 3)
    && (forall p <- t.nodes :: |p| <= 3)
  }

  /** The two situations in which removing a trigger takes another key away. */
  ghost predicate LosesDoubledLetter<V>(t: Shape<V>, key: Path)
    requires |key| == 3
  {
    key[1] != key[2] && [key[0], key[1], key[1]] in t.vals
  }

  ghost predicate LosesDoubledStart<V>(t: Shape<V>, key: Path)
    requires |key| == 3
  {
    && key[1] == key[2] && key[0] != key[1]
    && Alone(t, key)
    && (exists a: nat, b: nat :: a == key[0] && [key[0], a, b] in t.vals)
  }

  /** The key is the only one under its first two letters. */
  ghost predicate Alone<V>(t: Shape<V>, key: Path)
    requires |key| == 3
  {
    forall a: nat :: [key[0], key[1], a] in t.nodes ==> a == key[2]
  }

  /** The key meets neither of the two situations. */
  ghost predicate SparesOthers<V>(t: Shape<V>, key: Path)
    requires |key| == 3
  {
    !LosesDoubledLetter(t, key) && !LosesDoubledStart(t, key)
  }

  /** The keys that go in the two situations. */
  ghost predicate GoesAlong<V>(t: Shape<V>, key: Path, p: Path)
    requires |key| == 3
  {
    && p in t.vals && |p| == 3 && p[0] == key[0]
    && if key[1] != key[2] then p[1] == p[2] == key[1]
       else key[0] != key[1] && Alone(t, key) && p[1] == key[0]
  }

  /**
   * `removeTrigger` deletes exactly one key if and only if it meets none of two situations.  Either the
   * last two letters differ and the key with its second letter doubled is stored; or they agree, the
   * first two differ, the trigger was alone under its first two letters, and some key starts with the
   * first letter doubled.
   */
  lemma RemoveTriggerExact<V>(t: Shape<V>, key: Path, width: nat)
    requires WellFormed(t, width) && ThreeDeep(t) && key in t.vals
    ensures RemoveShort(t, key).vals == t.vals - {key} <==> !LosesDoubledLetter(t, key) && !LosesDoubledStart(t, key)
  {
    assert !HasChild(t, key);
    RemoveShortEffect(t, key, width);
    NoCasualties(t, key);
    if key[1] != key[2] {
      CasualtiesDiffer(t, key);
    } else {
      CasualtiesAgree(t, key, width);
    }
  }

  lemma NoCasualties<V>(t: Shape<V>, key: Path)
    requires key in t.vals && key != [] && key !in Casualties(t, key)
    ensures t.vals - {key} - Casualties(t, key) == t.vals - {key} <==> Casualties(t, key) == {}
  {
    var cs := Casualties(t, key);
    if cs == {} {
      assert t.vals - {key} - {} == t.vals - {key};
    } else {
      var k :| k in cs;
      assert k in t.vals - {key} && k !in t.vals - {key} - cs;
    }
  }

  lemma CasualtiesDiffer<V>(t: Shape<V>, key: Path)
    requires ThreeDeep(t) && |key| == 3 && key[1] != key[2]
    ensures Casualties(t, key) == {} <==> !LosesDoubledLetter(t, key)
  {
    var a := key[..2] + [key[1]];
    assert Astray(t, key, 2) == Some(a) && a == [key[0], key[1], key[1]];
    assert forall p <- t.vals :: a <= p ==> p == a;
    if a in t.vals { assert a in Casualties(t, key); }
  }

  lemma CasualtiesAgree<V>(t: Shape<V>, key: Path, width: nat)
    requires WellFormed(t, width) && ThreeDeep(t) && key in t.vals && key[1] == key[2]
    ensures Casualties(t, key) == {} <==> !LosesDoubledStart(t, key)
  {
    AloneOrNot(t, key, width);
    if key[0] != key[1] && Alone(t, key) {
      var a := [key[0], key[0]];
      assert Astray(t, key, 2) == Some(a);
      forall p <- t.vals | a <= p ensures p == [key[0], key[0], p[2]] { }
      if x: nat, y: nat :| x == key[0] && [key[0], x, y] in t.vals {
        assert a <= [key[0], x, y];
        assert [key[0], x, y] in Casualties(t, key);
      }
    } else {
      assert Astray(t, key, 2) == None;
    }
  }

  /** Which keys `removeTrigger` takes away besides its own. */
  lemma CasualtiesExactly<V>(t: Shape<V>, key: Path, width: nat)
    requires WellFormed(t, width) && ThreeDeep(t) && key in t.vals
    ensures forall p :: p in Casualties(t, key) <==> GoesAlong(t, key, p)
  {
    if key[1] != key[2] {
      var a := key[..2] + [key[1]];
      assert Astray(t, key, 2) == Some(a) && a == [key[0], key[1], key[1]];
      forall p | p in t.vals ensures a <= p <==> GoesAlong(t, key, p) {
        if a <= p { assert p == a; }
        if GoesAlong(t, key, p) { assert p == a; }
      }
    } else {
      AloneOrNot(t, key, width);
      if key[0] != key[1] && Alone(t, key) {
        var a := [key[0], key[0]];
        assert Astray(t, key, 2) == Some(a);
        forall p | p in t.vals ensures a <= p <==> GoesAlong(t, key, p) {
          if a <= p { assert a[0] == p[0] && a[1] == p[1]; }
          if GoesAlong(t, key, p) { assert p[..2] == a; }
        }
      } else {
        assert Astray(t, key, 2) == None;
      }
    }
  }

  lemma AloneOrNot<V>(t: Shape<V>, key: Path, width: nat)
    requires WellFormed(t, width) && ThreeDeep(t) && |key| == 3 && key[1] == key[2]
    ensures Astray(t, key, 2) ==
      if Alone(t, key) then Astray(t, key, 1) else None
    ensures Astray(t, key, 1) == if key[0] != key[1] then Some([key[0], key[0]])
      else if key[..1] in t.vals || InnerBut(t.nodes, key[..1], key[..2]) then None
      else Astray(t, key, 0)
  {
    assert key == [key[0], key[1], key[2]] && key[..2] == [key[0], key[1]] && key[..3] == key;
    assert [key[0]] + [key[0]] == [key[0], key[0]] && key[..1] == [key[0]];
    forall p | p in t.nodes && key[..2] < p ensures p == [key[0], key[1], p[2]] { }
    if a: nat :| [key[0], key[1], a] in t.nodes && a != key[2] {
      assert key[..2] < [key[0], key[1], a] && !(key[..3] <= [key[0], key[1], a]);
    }
  }

  /** Removing the trigger on "ABC" loses the trigger on "ABB", if there is one. */
  lemma RemoveTriggerLosesDoubledLetter<V>(t: Shape<V>, key: Path, width: nat)
    requires WellFormed(t, width) && ThreeDeep(t) && key in t.vals && key[1] != key[2]
    requires [key[0], key[1], key[1]] in t.vals
    ensures Lookup(RemoveShort(t, key), [key[0], key[1], key[1]]) == None
  {
    var other := [key[0], key[1], key[1]];
    assert !HasChild(t, key);
    RemoveShortEffect(t, key, width);
    assert key[..2] + [key[1]] == other;
    assert other in Casualties(t, key);
  }

  lemma {:induction false} PruneShrinks<V>(t: Shape<V>, key: Path, i: nat, at: Path)
    requires i <= |key| && i <= |at|
    ensures Prune(t, key, i, at).nodes <= t.nodes && Prune(t, key, i, at).vals.Keys <= t.vals.Keys
    ensures forall k <- Prune(t, key, i, at).vals :: Prune(t, key, i, at).vals[k] == t.vals[k]
    decreases i
  {
    if !(i == 0 || at in t.vals || HasChild(t, at)) {
      var parent := at[..|at| - 1];
      PruneShrinks(Drop(t, parent + [key[i - 1]]), key, i - 1, parent);
    }
  }

  /** The trigger trie keeps its form when a trigger is removed. */
  lemma RemoveShortKeepsForm<V>(t: Shape<V>, key: Path, width: nat)
    requires WellFormed(t, width) && ThreeDeep(t) && key in t.vals
    ensures var t' := RemoveShort(t, key); WellFormed(t', width) && ThreeDeep(t') && key !in t'.vals
    ensures RemoveShort(t, key).vals == t.vals - {key} - Casualties(t, key)
  {
    assert !HasChild(t, key);
    RemoveShortEffect(t, key, width);
    PruneShrinks(Clear(t, key), key, |key| - 1, key);
  }

  lemma PutKeepsThreeDeep<V>(t: Shape<V>, key: Path, v: V)
    requires ThreeDeep(t) && |key| == 3
    ensures ThreeDeep(Put(t, key, v))
  {
  }

  /** That situation is two adds away from the empty trie. */
  lemma DoubledLetterReachable<V>(v: V, w: V)
    ensures var t := Put(Put(Empty(), [0, 1, 2], v), [0, 1, 1], w);
      Lookup(t, [0, 1, 1]) == Some(w) && Lookup(RemoveShort(t, [0, 1, 2]), [0, 1, 1]) == None
  {
    hide Put, WellFormed, ThreeDeep, RemoveShort;
    var e := Empty<V>();
    var t1 := Put(e, [0, 1, 2], v);
    TwoAdds(v, w);
    PutKeepsForm(e, [0, 1, 2], v, 52);
    PutKeepsForm(t1, [0, 1, 1], w, 52);
    PutKeepsThreeDeep(e, [0, 1, 2], v);
    PutKeepsThreeDeep(t1, [0, 1, 1], w);
    RemoveTriggerLosesDoubledLetter(Put(t1, [0, 1, 1], w), [0, 1, 2], 52);
  }

  lemma TwoAdds<V>(v: V, w: V)
    ensures WellFormed(Empty<V>(), 52) && ThreeDeep(Empty<V>())
    ensures var t := Put(Put(Empty(), [0, 1, 2], v), [0, 1, 1], w);
      [0, 1, 2] in t.vals && [0, 1, 1] in t.vals && t.vals[[0, 1, 1]] == w
  {
    var abc: Path, abb: Path := [0, 1, 2], [0, 1, 1];
    assert abc[2] != abb[2];
  }
}
