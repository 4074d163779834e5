/** The sweep of one stock's triggers when no other thread touches the ring. */
module SweepAlone {
  import opened Base
  import opened Rings

  /**
   * What a visit meets: the user's lock is taken, the trigger stays (its price is not met, or nothing could be
   * bought or sold), or it fires.
   */
  datatype Verdict = Busy | Stays | Fires

  /** The visited items that did not fire, in order. */
  function Unfired<T>(visited: seq<T>, verdicts: seq<Verdict>): (r: seq<T>)
    requires |visited| == |verdicts|
    ensures |r| <= |visited|
  {
    if visited == [] then []
    else
      var n := |visited| - 1;
      Unfired(visited[..n], verdicts[..n]) + (if verdicts[n] == Fires then [] else [visited[n]])
  }

  function Count(verdicts: seq<Verdict>, v: Verdict): nat {
    if verdicts == [] then 0
    else Count(verdicts[..|verdicts| - 1], v) + (if verdicts[|verdicts| - 1] == v then 1 else 0)
  }

  lemma VisitOne<T>(start: seq<T>, verdicts: seq<Verdict>, k: nat)
    requires |start| == |verdicts| && k < |start|
    ensures Unfired(start[..k + 1], verdicts[..k + 1])
         == Unfired(start[..k], verdicts[..k]) + (if verdicts[k] == Fires then [] else [start[k]])
  {
    assert start[..k + 1][..k] == start[..k] && verdicts[..k + 1][..k] == verdicts[..k];
  }

  lemma {:induction false} UnfiredFirst<T>(visited: seq<T>, vs: seq<Verdict>)
    requires |visited| == |vs| && visited != []
    ensures Unfired(visited, vs) == (if vs[0] == Fires then [] else [visited[0]]) + Unfired(visited[1..], vs[1..])
  {
    var n := |visited| - 1;
    if n == 0 {
      assert visited[..0] == [] && visited[1..] == [];
    } else {
      UnfiredFirst(visited[..n], vs[..n]);
      assert visited[..n][1..] == visited[1..][..n - 1] && vs[..n][1..] == vs[1..][..n - 1];
      assert visited[1..][n - 1] == visited[n] && vs[1..][n - 1] == vs[n];
      Associative(if vs[0] == Fires then [] else [visited[0]], Unfired(visited[1..][..n - 1], vs[1..][..n - 1]),
        if vs[n] == Fires then [] else [visited[n]]);
    }
  }

  lemma Associative<T>(a: seq<T>, b: seq<T>, c: seq<T>)
    ensures (a + b) + c == a + (b + c)
  {
  }

  lemma CountOne(verdicts: seq<Verdict>, k: nat, v: Verdict)
    requires k < |verdicts|
    ensures Count(verdicts[..k + 1], v) == Count(verdicts[..k], v) + (if verdicts[k] == v then 1 else 0)
  {
    assert verdicts[..k + 1][..k] == verdicts[..k];
  }

  /** A mutex that can be unlocked although it is not held; such unlocks are counted. */
  class Mutex {
    var held: bool
    var bad: nat

    constructor ()
      ensures held && bad == 0
    {
      held, bad := true, 0;
    }

    method Lock()
      requires !held
      modifies this
      ensures held && bad == old(bad)
    {
      held := true;
    }

    method Unlock()
      modifies this
      ensures !held && bad == old(bad) + (if old(held) then 0 else 1)
    {
      if !held { bad := bad + 1; }
      held := false;
    }
  }

  /** One pass through the body of the loop; the sentinel moves on when it is the one to fire. */
  method Visit<T>(stock: Ring<T>, busy: Mutex, sTrigger: Node<T>, verdict: Verdict)
    returns (sNext: Node<T>, sTrigMod: bool)
    requires stock.Valid() && stock.curr != null && sTrigger in stock.nodes
    modifies stock, stock.Cells(), busy
    ensures stock.Valid() && stock.Cells() <= old(stock.Cells())
    ensures var x, rest := old(stock.nodes)[0], old(stock.nodes)[1..];
      && stock.nodes == (if verdict == Fires then rest else rest + [x])
      && sTrigMod == (verdict == Fires && sTrigger == x)
      && (sTrigMod && rest != [] ==> sNext == rest[0])
      && (!sTrigMod ==> sNext == sTrigger)
    ensures busy.held == (verdict != Busy) && busy.bad == old(busy.bad) + (if old(busy.held) then 0 else 1)
  {
    assert stock.nodes != [] && stock.nodes[0] == stock.curr;
    hide stock.Valid;
    sNext, sTrigMod := sTrigger, false;
    var cTrigger := stock.curr;
    stock.Advance();
    busy.Unlock();
    if verdict == Busy { return; }
    if verdict == Fires { sNext, sTrigMod := TakeOut(stock, busy, sTrigger, cTrigger); }
    busy.Lock();
  }

  /** The trigger that was passed has fired: the sentinel moves on if it is that one, and the trigger leaves the ring. */
  method TakeOut<T>(stock: Ring<T>, busy: Mutex, sTrigger: Node<T>, cTrigger: Node<T>)
    returns (sNext: Node<T>, sTrigMod: bool)
    requires stock.Valid() && stock.nodes != [] && stock.nodes[|stock.nodes| - 1] == cTrigger && !busy.held
    modifies stock, stock.Cells(), busy
    ensures stock.Valid() && stock.Cells() <= old(stock.Cells())
    ensures stock.nodes == old(stock.nodes)[..|old(stock.nodes)| - 1]
    ensures sTrigMod == (sTrigger == cTrigger)
    ensures sTrigMod && stock.nodes != [] ==> sNext == stock.nodes[0]
    ensures !sTrigMod ==> sNext == sTrigger
    ensures !busy.held && busy.bad == old(busy.bad)
  {
    sNext, sTrigMod := sTrigger, false;
    ghost var k := |stock.nodes| - 1;
    busy.Lock();
    if sNext == cTrigger {
      assert Linked(stock.nodes[k], stock.nodes[0]);
      sNext, sTrigMod := sNext.next, true;
    }
    busy.Unlock();
    stock.Remove(cTrigger, k);
  }

  /** After `k` visits: what is still to come, then what stayed; the sentinel is the first that stayed, if any. */
  ghost predicate Midway<T>(start: seq<T>, verdicts: seq<Verdict>, k: nat, ring: seq<T>, sentinel: T)
    requires |start| == |verdicts|
  {
    && k < |start|
    && var done := Unfired(start[..k], verdicts[..k]);
       ring == start[k..] + done && sentinel == (if done != [] then done[0] else start[k])
  }

  /** When the last trigger has been visited, only those that stayed are left. */
  ghost predicate Finished<T>(start: seq<T>, verdicts: seq<Verdict>, k: nat, ring: seq<T>)
    requires |start| == |verdicts|
  {
    k == |start| && ring == Unfired(start, verdicts)
  }

  ghost predicate Progress<T>(start: seq<T>, verdicts: seq<Verdict>, k: nat, ring: seq<T>, sentinel: T, again: bool)
    requires |start| == |verdicts|
  {
    if again then Midway(start, verdicts, k, ring, sentinel) else Finished(start, verdicts, k, ring)
  }

  lemma {:induction false} UnfiredWithin<T>(start: seq<T>, verdicts: seq<Verdict>, k: nat)
    requires |start| == |verdicts| && k <= |start|
    ensures forall i :: 0 <= i < |Unfired(start[..k], verdicts[..k])| ==> Unfired(start[..k], verdicts[..k])[i] in start[..k]
  {
    if k > 0 {
      UnfiredWithin(start, verdicts, k - 1);
      VisitOne(start, verdicts, k - 1);
      assert start[..k] == start[..k - 1] + [start[k - 1]];
    }
  }

  /** The loop condition is right: it fails exactly after the last trigger. */
  lemma AfterVisit<T>(start: seq<T>, verdicts: seq<Verdict>, k: nat, ring: seq<T>, sentinel: T, after: seq<T>, next: T)
    requires |start| == |verdicts| && AllDifferent(start) && Midway(start, verdicts, k, ring, sentinel)
    requires var x, rest := ring[0], ring[1..];
      && after == (if verdicts[k] == Fires then rest else rest + [x])
      && next == (if verdicts[k] == Fires && sentinel == x then (if rest != [] then rest[0] else next) else sentinel)
    ensures var again := after != [] && (next != after[0] || (verdicts[k] == Fires && sentinel == ring[0]));
      if again then Midway(start, verdicts, k + 1, after, next) else Finished(start, verdicts, k + 1, after)
  {
    hide Unfired;
    var done, done' := Unfired(start[..k], verdicts[..k]), Unfired(start[..k + 1], verdicts[..k + 1]);
    RingAfterVisit(start, verdicts, k, ring, sentinel, after);
    assert k + 1 == |start| ==> start[..k + 1] == start && verdicts[..k + 1] == verdicts;
    if done != [] {
      UnfiredWithin(start, verdicts, k);
      assert done[0] in start[..k] && done[0] == done'[0];
      assert k + 1 < |start| ==> done[0] != start[k + 1];
    }
  }

  lemma RingAfterVisit<T>(start: seq<T>, verdicts: seq<Verdict>, k: nat, ring: seq<T>, sentinel: T, after: seq<T>)
    requires |start| == |verdicts| && Midway(start, verdicts, k, ring, sentinel)
    requires after == if verdicts[k] == Fires then ring[1..] else ring[1..] + [ring[0]]
    ensures ring[0] == start[k] && ring[1..] == start[k + 1..] + Unfired(start[..k], verdicts[..k])
    ensures var done' := Unfired(start[..k + 1], verdicts[..k + 1]);
      && after == start[k + 1..] + done'
      && done' == Unfired(start[..k], verdicts[..k]) + (if verdicts[k] == Fires then [] else [start[k]])
  {
    VisitOne(start, verdicts, k);
  }

  /** One turn of the loop, condition included. */
  method Turn<T>(stock: Ring<T>, busy: Mutex, sTrigger: Node<T>, verdict: Verdict,
                 ghost start: seq<Node<T>>, ghost verdicts: seq<Verdict>, ghost k: nat)
    returns (sNext: Node<T>, again: bool)
    requires stock.Valid() && AllDifferent(start) && |start| == |verdicts|
    requires Midway(start, verdicts, k, stock.nodes, sTrigger) && verdicts[k] == verdict
    modifies stock, stock.Cells(), busy
    ensures stock.Valid() && stock.Cells() <= old(stock.Cells())
    ensures Progress(start, verdicts, k + 1, stock.nodes, sNext, again)
    ensures again ==> stock.nodes != [] && stock.curr == stock.nodes[0]
    ensures busy.held == (verdict != Busy) && busy.bad == old(busy.bad) + (if old(busy.held) then 0 else 1)
  {
    ghost var ring := stock.nodes;
    SentinelInRing(start, verdicts, k, ring, sTrigger);
    var sTrigMod;
    sNext, sTrigMod := Visit(stock, busy, sTrigger, verdict);
    AfterVisit(start, verdicts, k, ring, sTrigger, stock.nodes, sNext);
    again := stock.curr != null && (sNext != stock.curr || sTrigMod);
  }

  lemma SentinelInRing<T>(start: seq<T>, verdicts: seq<Verdict>, k: nat, ring: seq<T>, sentinel: T)
    requires |start| == |verdicts| && Midway(start, verdicts, k, ring, sentinel)
    ensures ring != [] && ring[0] == start[k] && sentinel in ring
  {
    assert ring[0] == start[k];
    var done := Unfired(start[..k], verdicts[..k]);
    if done != [] { assert ring[|start| - k] == done[0]; }
  }

  /**
   * The sweep visits every trigger that was in the ring, once, in the order of the ring; it leaves exactly those
   * that did not fire, in that order, even when the sentinel fires.  The stock's mutex is unlocked without being
   * held exactly as often as a user's lock was taken.
   */
  method Sweep<T>(stock: Ring<T>, busy: Mutex, verdicts: seq<Verdict>) returns (visited: seq<Node<T>>)
    requires stock.Valid() && stock.curr != null && |verdicts| == |stock.nodes| && busy.held && busy.bad == 0
    modifies stock, stock.Cells(), busy
    ensures stock.Valid()
    ensures visited == old(stock.nodes)
    ensures stock.nodes == Unfired(old(stock.nodes), verdicts)
    ensures !busy.held && busy.bad == Count(verdicts, Busy)
  {
    ghost var start := stock.nodes;
    visited := [];
    var sTrigger: Node<T> := stock.curr;
    var again := true;
    assert start[0..] + [] == start && start != [] && start[0] == sTrigger;
    hide stock.Valid, stock.Cells;
    while again
      invariant stock.Valid() && stock.Cells() <= old(stock.Cells())
      invariant visited <= start
      invariant Progress(start, verdicts, |visited|, stock.nodes, sTrigger, again)
      invariant again ==> stock.nodes != [] && stock.curr == stock.nodes[0]
      invariant busy.bad + (if busy.held then 0 else 1) == Count(verdicts[..|visited|], Busy)
      decreases |start| - |visited|
    {
      var k := |visited|;
      SentinelInRing(start, verdicts, k, stock.nodes, sTrigger);
      CountOne(verdicts, k, Busy);
      var cTrigger: Node<T> := stock.curr;
      visited := visited + [cTrigger];
      sTrigger, again := Turn(stock, busy, sTrigger, verdicts[k], start, verdicts, k);
    }
    assert verdicts[..|visited|] == verdicts;
    busy.Unlock();
  }
}
