/** The sweep of a stock as it acts on the accounts and on both indexes of triggers. */
module SweepWorld {
  import opened Base
  import opened Names
  import opened Accounts
  import opened AccountSafety
  import opened AccountRuns
  import opened AccountLosses
  import opened AccountEffects
  import opened Index
  import opened SweepAlone

  /** The entries of the stock agree; other stocks may have entries that do not. */
  ghost predicate Sweepable(w: World, stock: Text, price: int) {
    Sound(w) && ValidStock(stock) && price >= 1 && AgreeOn(w, stock)
  }

  /** The event that a visit to the trigger at `curr` is, if its user can be locked. */
  function VisitEvent(w: World, stock: Text, price: int): Event
    requires RingOf(w, stock) != []
  {
    Fire(RingOf(w, stock)[0].kind, stock, price)
  }

  function Visited(w: World, stock: Text): Text
    requires RingOf(w, stock) != []
  {
    RingOf(w, stock)[0].user
  }

  /** The trigger at `curr` is in its user's trie. */
  lemma CurrKnown(w: World, stock: Text)
    requires ValidStock(stock) && AgreeOn(w, stock) && RingOf(w, stock) != []
    ensures Visited(w, stock) in w.accounts
    ensures TriggerOf(w.accounts[Visited(w, stock)], RingOf(w, stock)[0].kind, stock).Some?
  {
    var id := RingOf(w, stock)[0];
    assert id in RingOf(w, stock);
    assert Indexed(w, id.user, id.kind, stock);
  }

  ghost function VerdictOf(w: World, stock: Text, price: int, busy: bool): Verdict
    requires Sweepable(w, stock, price) && RingOf(w, stock) != []
  {
    CurrKnown(w, stock);
    if busy then Busy
    else if Step(w.accounts[Visited(w, stock)], VisitEvent(w, stock, price)).reply == Done then Fires
    else Stays
  }

  /** One visit: `curr` moves on, and the trigger is examined unless its user is locked. */
  ghost function VisitCurr(w: World, stock: Text, price: int, busy: bool): World
    requires Sweepable(w, stock, price) && RingOf(w, stock) != []
  {
    CurrKnown(w, stock);
    if busy then Turned(w, stock)
    else WorldStep(Turned(w, stock), Visited(w, stock), VisitEvent(w, stock, price))
  }

  lemma {:induction false} WithoutLast(rest: seq<Id>, id: Id)
    requires id !in rest
    ensures Without(rest + [id], id) == rest
  {
    if rest == [] {
      assert [] + [id] == [id];
    } else {
      assert (rest + [id])[1..] == rest[1..] + [id];
      WithoutLast(rest[1..], id);
      assert rest == [rest[0]] + rest[1..];
    }
  }

  lemma VisitRing(w: World, stock: Text, price: int, busy: bool)
    requires Sweepable(w, stock, price) && RingOf(w, stock) != []
    ensures var r := RingOf(w, stock);
      RingOf(VisitCurr(w, stock, price, busy), stock)
      == if VerdictOf(w, stock, price, busy) == Fires then r[1..] else r[1..] + [r[0]]
  {
    hide Step, Formed, ProperKeys, TriggerOf;
    var r := RingOf(w, stock);
    CurrKnown(w, stock);
    assert r[0] !in r[1..];
    WithoutLast(r[1..], r[0]);
  }

  lemma VisitKeepsStock(w: World, stock: Text, price: int, busy: bool)
    requires Sweepable(w, stock, price) && RingOf(w, stock) != []
    ensures Sweepable(VisitCurr(w, stock, price, busy), stock, price)
  {
    var v := Turned(w, stock);
    CurrKnown(w, stock);
    TurningKeepsStock(w, stock, stock);
    if !busy {
      var u, e := Visited(w, stock), VisitEvent(w, stock, price);
      StepKeepsSound(v, u, e);
      StockAfter(v, u, e, stock);
      forall k ensures TriggerPath(k, stock) !in Step(v.accounts[u], e).lost { OwnStockKept(v.accounts[u], e, k); }
    }
  }

  /** A firing loses no trigger of its own stock. */
  lemma OwnStockKept(a: Account, e: Event, k: Kind)
    requires Formed(a) && Possible(e) && e.Fire?
    ensures TriggerPath(k, e.stock) !in Step(a, e).lost
  {
    if Step(a, e).reply == Done { LostAreOfOtherStocks(a, e, k); }
  }

  /**
   * A visit does to the ring what the heap's loop body does, and nothing to the accounts but the firing.  The
   * entries of the stock still agree, also if the firing takes a trigger of another stock along.
   */
  lemma VisitEffect(w: World, stock: Text, price: int, busy: bool)
    requires Sweepable(w, stock, price) && RingOf(w, stock) != []
    ensures Sweepable(VisitCurr(w, stock, price, busy), stock, price)
    ensures var r := RingOf(w, stock);
      RingOf(VisitCurr(w, stock, price, busy), stock)
      == if VerdictOf(w, stock, price, busy) == Fires then r[1..] else r[1..] + [r[0]]
  {
    VisitKeepsStock(w, stock, price, busy);
    VisitRing(w, stock, price, busy);
  }

  /**
   * The visited trigger fires exactly if its user could be locked and it is ripe at the price of the stock.  Then the
   * shares that its user gets or gives are paid at that price, out of the reserved amount or into the balance; of no
   * other user does anything change.
   */
  lemma VisitPaysPrice(w: World, stock: Text, price: int, busy: bool, other: Text)
    requires Sweepable(w, stock, price) && RingOf(w, stock) != []
    requires Visited(w, stock) in w.accounts && Safe(w.accounts[Visited(w, stock)])
    ensures var u, kind, v := Visited(w, stock), RingOf(w, stock)[0].kind, VisitCurr(w, stock, price, busy);
      && var a := w.accounts[u];
      && (VerdictOf(w, stock, price, busy) == Fires <==> !busy && Ripe(a, kind, stock, price))
      && u in v.accounts
      && (VerdictOf(w, stock, price, busy) != Fires ==> v.accounts[u] == a)
      && (VerdictOf(w, stock, price, busy) == Fires ==> Paid(a, v.accounts[u], kind, stock, price))
      && (other != u && other in w.accounts ==> other in v.accounts && v.accounts[other] == w.accounts[other])
  {
    var a, e := w.accounts[Visited(w, stock)], VisitEvent(w, stock, price);
    assert NamesStock(a);
    hide Step, TriggerPath, Safe, Formed, Ripe, Paid, ProperKeys;
    FiresExactly(a, e);
    if Step(a, e).reply == Done { FiringPaysPrice(a, e); }
  }

  // ----- The whole sweep -----

  /** The world after as many visits as there are answers of the trylock. */
  ghost function Swept(w: World, stock: Text, price: int, busy: seq<bool>): World
    requires Sweepable(w, stock, price)
    decreases |busy|
  {
    if busy == [] || RingOf(w, stock) == [] then w
    else VisitEffect(w, stock, price, busy[0]); Swept(VisitCurr(w, stock, price, busy[0]), stock, price, busy[1..])
  }

  ghost function Verdicts(w: World, stock: Text, price: int, busy: seq<bool>): (vs: seq<Verdict>)
    requires Sweepable(w, stock, price) && |busy| <= |RingOf(w, stock)|
    ensures |vs| == |busy|
    decreases |busy|
  {
    if busy == [] then []
    else
      VisitEffect(w, stock, price, busy[0]);
      [VerdictOf(w, stock, price, busy[0])] + Verdicts(VisitCurr(w, stock, price, busy[0]), stock, price, busy[1..])
  }

  /** After any number of visits the ring is what is still to come, then what was passed and did not fire. */
  lemma {:induction false} SweepSoFar(w: World, stock: Text, price: int, busy: seq<bool>)
    requires Sweepable(w, stock, price) && |busy| <= |RingOf(w, stock)|
    ensures Sweepable(Swept(w, stock, price, busy), stock, price)
    ensures var r := RingOf(w, stock);
      RingOf(Swept(w, stock, price, busy), stock) == r[|busy|..] + Unfired(r[..|busy|], Verdicts(w, stock, price, busy))
    decreases |busy|
  {
    hide VisitCurr, VerdictOf, Sweepable, RingOf;
    if busy != [] {
      VisitEffect(w, stock, price, busy[0]);
      var v, first := VisitCurr(w, stock, price, busy[0]), VerdictOf(w, stock, price, busy[0]);
      SweepSoFar(v, stock, price, busy[1..]);
      RingSoFar(RingOf(w, stock), RingOf(v, stock), |busy|, first, Verdicts(v, stock, price, busy[1..]));
    } else {
      assert RingOf(w, stock)[0..] + [] == RingOf(w, stock);
    }
  }

  lemma RingSoFar(r: seq<Id>, r': seq<Id>, k: nat, first: Verdict, vs: seq<Verdict>)
    requires 0 < k <= |r| && |vs| == k - 1
    requires r' == r[1..] + (if first == Fires then [] else [r[0]])
    ensures r'[k - 1..] + Unfired(r'[..k - 1], vs) == r[k..] + Unfired(r[..k], [first] + vs)
  {
    hide Unfired;
    var kept := if first == Fires then [] else [r[0]];
    UnfiredFirst(r[..k], [first] + vs);
    assert ([first] + vs)[1..] == vs;
    SplitAfterFirst(r, r', k, kept);
    Associative(r[k..], kept, Unfired(r[1..][..k - 1], vs));
  }

  lemma SplitAfterFirst(r: seq<Id>, r': seq<Id>, k: nat, kept: seq<Id>)
    requires 0 < k <= |r| && r' == r[1..] + kept
    ensures r[..k][1..] == r[1..][..k - 1] == r'[..k - 1] && r'[k - 1..] == r[k..] + kept
  {
  }

  /** No visit of the sweep fires a trigger that takes another along. */
  ghost predicate SparingSweep(w: World, stock: Text, price: int, busy: seq<bool>)
    requires Sweepable(w, stock, price)
    decreases |busy|
  {
    busy == [] || RingOf(w, stock) == [] ||
    (SparingVisit(w, stock, price, busy[0]) &&
     (VisitEffect(w, stock, price, busy[0]); SparingSweep(VisitCurr(w, stock, price, busy[0]), stock, price, busy[1..])))
  }

  ghost predicate SparingVisit(w: World, stock: Text, price: int, busy: bool)
    requires Sweepable(w, stock, price) && RingOf(w, stock) != []
  {
    CurrKnown(w, stock);
    busy || LosesNothing(w.accounts[Visited(w, stock)], VisitEvent(w, stock, price))
  }

  lemma VisitAgreesExactly(w: World, stock: Text, price: int, busy: bool)
    requires Sweepable(w, stock, price) && RingOf(w, stock) != [] && Agree(w)
    ensures Agree(VisitCurr(w, stock, price, busy)) <==> SparingVisit(w, stock, price, busy)
  {
    CurrKnown(w, stock);
    TurningKeepsAgreement(w, stock);
    if !busy { IndexesAgreeExactly(Turned(w, stock), Visited(w, stock), VisitEvent(w, stock, price)); }
  }

  /** A trigger in the ring of another stock that its user's trie no longer holds. */
  ghost predicate Stray(w: World, stock: Text, u: Text, k: Kind, s: Text) {
    s != stock && ValidStock(s) && u in w.accounts && Id(u, k) in RingOf(w, s) && !Listed(w.accounts[u], k, s)
  }

  /** A stray stays one: the sweep changes no other ring and adds to no trie. */
  lemma StrayStays(w: World, stock: Text, price: int, busy: bool, u: Text, k: Kind, s: Text)
    requires Sweepable(w, stock, price) && RingOf(w, stock) != [] && Stray(w, stock, u, k, s)
    ensures Stray(VisitCurr(w, stock, price, busy), stock, u, k, s)
  {
    CurrKnown(w, stock);
    if !busy { StepLists(w.accounts[Visited(w, stock)], VisitEvent(w, stock, price), k, s); }
  }

  lemma StrayDisagrees(w: World, stock: Text, u: Text, k: Kind, s: Text)
    requires Stray(w, stock, u, k, s)
    ensures !Agree(w)
  {
    assert AgreeOn(w, s) ==> Indexed(w, u, k, s);
  }

  lemma {:induction false} StraysRemain(w: World, stock: Text, price: int, busy: seq<bool>, u: Text, k: Kind, s: Text)
    requires Sweepable(w, stock, price) && Stray(w, stock, u, k, s)
    ensures !Agree(Swept(w, stock, price, busy))
    decreases |busy|
  {
    if busy == [] || RingOf(w, stock) == [] {
      StrayDisagrees(w, stock, u, k, s);
    } else {
      VisitEffect(w, stock, price, busy[0]);
      StrayStays(w, stock, price, busy[0], u, k, s);
      StraysRemain(VisitCurr(w, stock, price, busy[0]), stock, price, busy[1..], u, k, s);
    }
  }

  /** A visit that takes a trigger along makes a stray. */
  lemma StrayMade(w: World, stock: Text, price: int) returns (u: Text, k: Kind, s: Text)
    requires Sweepable(w, stock, price) && RingOf(w, stock) != [] && Agree(w) && !SparingVisit(w, stock, price, false)
    ensures Stray(VisitCurr(w, stock, price, false), stock, u, k, s)
  {
    CurrKnown(w, stock);
    u := Visited(w, stock);
    var a, e := w.accounts[u], VisitEvent(w, stock, price);
    LosesNothingExactly(a, e);
    var p :| p in Step(a, e).lost;
    LostAreOthers(a, e, p);
    k, s := KindOf(p), StockOf(p);
    OwnStockKept(a, e, k);
    assert AgreeOn(w, s) && Indexed(w, u, k, s);
    StepLists(a, e, k, s);
  }

  lemma {:induction false} SweepAgreesExactly(w: World, stock: Text, price: int, busy: seq<bool>)
    requires Sweepable(w, stock, price) && Agree(w)
    ensures Agree(Swept(w, stock, price, busy)) <==> SparingSweep(w, stock, price, busy)
    decreases |busy|
  {
    if busy != [] && RingOf(w, stock) != [] {
      VisitEffect(w, stock, price, busy[0]);
      VisitAgreesExactly(w, stock, price, busy[0]);
      if SparingVisit(w, stock, price, busy[0]) {
        SweepAgreesExactly(VisitCurr(w, stock, price, busy[0]), stock, price, busy[1..]);
      } else {
        var u, k, s := StrayMade(w, stock, price);
        StraysRemain(VisitCurr(w, stock, price, busy[0]), stock, price, busy[1..], u, k, s);
      }
    }
  }

  /**
   * A whole sweep examines every trigger of the ring against its user's account, in order, and leaves in the ring
   * exactly those whose firing did not go through.  All indexes agree afterwards if and only if no firing took
   * another trigger along.
   */
  lemma SweepOfAccounts(w: World, stock: Text, price: int, busy: seq<bool>)
    requires Sweepable(w, stock, price) && |busy| == |RingOf(w, stock)|
    ensures RingOf(Swept(w, stock, price, busy), stock) == Unfired(RingOf(w, stock), Verdicts(w, stock, price, busy))
    ensures Agree(w) ==> (Agree(Swept(w, stock, price, busy)) <==> SparingSweep(w, stock, price, busy))
  {
    var r, vs := RingOf(w, stock), Verdicts(w, stock, price, busy);
    SweepSoFar(w, stock, price, busy);
    assert r[..|busy|] == r && r[|busy|..] == [] && [] + Unfired(r, vs) == Unfired(r, vs);
    if Agree(w) { SweepAgreesExactly(w, stock, price, busy); }
  }
}
