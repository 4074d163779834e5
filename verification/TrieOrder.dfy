/** The order in which a recursive walk lists a trie, and why it lists every key exactly once. */
module TrieOrder {
  import opened Base
  import opened TrieSpec

  /** The order in which a walk meets keys: a key before its extensions, then by the first difference. */
  predicate Less(p: Path, q: Path) {
    q != [] && (p == [] || p[0] < q[0] || (p[0] == q[0] && Less(p[1..], q[1..])))
  }

  /** The stored keys below a node in the order of the recursive walk. */
  function Keys<V>(t: Shape<V>, width: nat, height: nat, at: Path): seq<Path>
    decreases height + 1 - |at|, width + 1
  {
    (if at in t.vals then [at] else []) + if |at| <= height then ChildKeys(t, width, height, at, 0) else []
  }

  function ChildKeys<V>(t: Shape<V>, width: nat, height: nat, at: Path, a: nat): seq<Path>
    requires |at| <= height && a <= width
    decreases height + 1 - |at|, width - a
  {
    if a == width then []
    else (if at + [a] in t.nodes then Keys(t, width, height, at + [a]) else [])
         + ChildKeys(t, width, height, at, a + 1)
  }

  predicate Ascending(ks: seq<Path>) {
    forall i, j :: 0 <= i < j < |ks| ==> Less(ks[i], ks[j])
  }

  lemma {:induction false} LessBranches(at: Path, p: Path, q: Path)
    requires |at| < |p| && |at| < |q| && at <= p && at <= q && p[|at|] < q[|at|]
    ensures Less(p, q)
    decreases at
  {
    if at != [] {
      assert p[0] == at[0] == q[0];
      LessBranches(at[1..], p[1..], q[1..]);
    }
  }

  lemma {:induction false} LessExtension(at: Path, p: Path)
    requires at < p
    ensures Less(at, p)
    decreases at
  {
    if at != [] { LessExtension(at[1..], p[1..]); }
  }

  lemma {:induction false} NotLessItself(p: Path)
    ensures !Less(p, p)
  {
    if p != [] { NotLessItself(p[1..]); }
  }

  /** Two ascending lists, all of the first before all of the second, join to an ascending list. */
  lemma JoinAscending(xs: seq<Path>, ys: seq<Path>)
    requires Ascending(xs) && Ascending(ys)
    requires forall x, y | x in xs && y in ys :: Less(x, y)
    ensures Ascending(xs + ys)
  {
    var zs := xs + ys;
    forall i, j | 0 <= i < j < |zs| ensures Less(zs[i], zs[j]) {
      if i < |xs| <= j {
        assert zs[i] in xs && zs[j] in ys;
      }
    }
  }

  ghost predicate Below<V>(t: Shape<V>, at: Path, k: Path) {
    k in t.vals && at <= k
  }

  /** The keys strictly below `at` whose next letter is at least `a`. */
  ghost predicate From<V>(t: Shape<V>, at: Path, a: nat, k: Path) {
    k in t.vals && at < k && a <= k[|at|]
  }

  lemma {:induction false} KeysBelow<V>(t: Shape<V>, width: nat, height: nat, at: Path)
    requires WellFormed(t, width) && (forall p <- t.nodes :: |p| <= height)
    ensures Ascending(Keys(t, width, height, at))
    ensures forall k :: k in Keys(t, width, height, at) <==> Below(t, at, k)
    decreases height + 1 - |at|, width + 1
  {
    var own := if at in t.vals then [at] else [];
    if |at| <= height {
      ChildKeysBelow(t, width, height, at, 0);
      var cs := ChildKeys(t, width, height, at, 0);
      forall x, y | x in own && y in cs ensures Less(x, y) {
        assert From(t, at, 0, y);
        LessExtension(at, y);
      }
      JoinAscending(own, cs);
      forall k ensures k in own + cs <==> Below(t, at, k) {
        assert Below(t, at, k) <==> (k == at && at in t.vals) || From(t, at, 0, k);
      }
    } else {
      assert own == Keys(t, width, height, at);
      forall k ensures k in own <==> Below(t, at, k) {
        assert k in t.vals ==> k in t.nodes && |k| <= height;
      }
    }
  }

  lemma {:induction false} ChildKeysBelow<V>(t: Shape<V>, width: nat, height: nat, at: Path, a: nat)
    requires WellFormed(t, width) && (forall p <- t.nodes :: |p| <= height)
    requires |at| <= height && a <= width
    ensures Ascending(ChildKeys(t, width, height, at, a))
    ensures forall k :: k in ChildKeys(t, width, height, at, a) <==> From(t, at, a, k)
    decreases height + 1 - |at|, width - a
  {
    if a == width {
      forall k ensures !From(t, at, a, k) {
        assert k in t.vals ==> k in t.nodes && Letters(k, width);
      }
    } else {
      ChildKeysBelow(t, width, height, at, a + 1);
      var rest := ChildKeys(t, width, height, at, a + 1);
      var first := if at + [a] in t.nodes then Keys(t, width, height, at + [a]) else [];
      if at + [a] in t.nodes { KeysBelow(t, width, height, at + [a]); }
      forall k ensures k in first <==> Below(t, at + [a], k) {
        if Below(t, at + [a], k) { assert k[..|at| + 1] == at + [a] && k in t.nodes; }
      }
      forall x, y | x in first && y in rest ensures Less(x, y) {
        assert Below(t, at + [a], x) && From(t, at, a + 1, y);
        assert x[|at|] == (at + [a])[|at|] && at <= x;
        LessBranches(at, x, y);
      }
      JoinAscending(first, rest);
      forall k ensures k in first + rest <==> From(t, at, a, k) {
        SplitFrom(t, at, a, k);
      }
    }
  }

  lemma SplitFrom<V>(t: Shape<V>, at: Path, a: nat, k: Path)
    ensures From(t, at, a, k) <==> Below(t, at + [a], k) || From(t, at, a + 1, k)
  {
    if From(t, at, a, k) && k[|at|] == a {
      assert k[..|at| + 1] == at + [a];
    }
    if Below(t, at + [a], k) {
      assert k[|at|] == (at + [a])[|at|] && at < k;
    }
  }

  /** The walk from the root lists every stored key exactly once, in key order. */
  lemma WalkListsEveryKeyOnce<V>(t: Shape<V>, width: nat, height: nat)
    requires WellFormed(t, width) && (forall p <- t.nodes :: |p| <= height)
    ensures var ks := Keys(t, width, height, []);
      && Ascending(ks)
      && (forall i, j :: 0 <= i < j < |ks| ==> ks[i] != ks[j])
      && (forall k :: k in ks <==> k in t.vals)
  {
    KeysBelow(t, width, height, []);
    var ks := Keys(t, width, height, []);
    assert forall k :: Below(t, [], k) <==> k in t.vals;
    forall i, j | 0 <= i < j < |ks| ensures ks[i] != ks[j] { NotLessItself(ks[i]); }
  }
}
