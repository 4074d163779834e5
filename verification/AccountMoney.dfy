/** Conservation of money: what the steps move between the balance, the reserved amounts and the transaction rows. */
module AccountMoney {
  import opened Base
  import opened Names
  import opened Prices
  import opened TrieSpec
  import opened Accounts
  import opened AccountSafety
  import opened AccountRuns
  import opened AccountLosses

  // ----- Reserved amounts -----

  /** A buy trigger reserves its amount; a sell trigger reserves nothing. */
  function Share(key: Path, t: Trigger): int {
    if key != [] && key[0] < STOCK_CHARS then t.amount else 0
  }

  ghost function Pick(m: map<Path, Trigger>): (k: Path)
    requires m != map[]
    ensures k in m
  {
    var k :| k in m; k
  }

  /** The money reserved by a collection of triggers. */
  ghost function Reserved(m: map<Path, Trigger>): int
    decreases |m|
  {
    if m == map[] then 0 else var k := Pick(m); Fewer(m, k); Share(k, m[k]) + Reserved(m - {k})
  }

  lemma NoneReserved()
    ensures Reserved(map[]) == 0
  {
  }

  lemma Fewer(m: map<Path, Trigger>, k: Path)
    requires k in m
    ensures |m - {k}| < |m|
  {
    assert (m - {k}).Keys == m.Keys - {k};
  }

  lemma {:induction false} ReservedTake(m: map<Path, Trigger>, k: Path)
    requires k in m
    ensures Reserved(m) == Share(k, m[k]) + Reserved(m - {k})
    decreases |m|
  {
    var j := Pick(m);
    if j != k {
      Fewer(m, j);
      Fewer(m, k);
      ReservedTake(m - {j}, k);
      ReservedTake(m - {k}, j);
      assert m - {j} - {k} == m - {k} - {j};
    }
  }

  lemma ReservedPut(m: map<Path, Trigger>, k: Path, t: Trigger)
    ensures Reserved(m[k := t]) == Reserved(m - {k}) + Share(k, t)
  {
    ReservedTake(m[k := t], k);
    assert m[k := t] - {k} == m - {k};
  }

  lemma ReservedUpdate(m: map<Path, Trigger>, k: Path, t: Trigger)
    requires k in m && t.amount == m[k].amount
    ensures Reserved(m[k := t]) == Reserved(m)
  {
    ReservedPut(m, k, t);
    ReservedTake(m, k);
  }

  ghost function Only(m: map<Path, Trigger>, s: set<Path>): map<Path, Trigger> {
    map k | k in m && k in s :: m[k]
  }

  lemma {:induction false} ReservedSplit(m: map<Path, Trigger>, s: set<Path>)
    requires s <= m.Keys
    ensures Reserved(m) == Reserved(m - s) + Reserved(Only(m, s))
    decreases |s|
  {
    if s == {} {
      assert m - s == m && Only(m, s) == map[];
    } else {
      var k :| k in s;
      ReservedSplit(m, s - {k});
      ReservedTake(m - (s - {k}), k);
      ReservedTake(Only(m, s), k);
      assert m - (s - {k}) - {k} == m - s;
      assert Only(m, s) - {k} == Only(m, s - {k});
    }
  }

  lemma ShareOf(kind: Kind, stock: Text, t: Trigger)
    requires ValidStock(stock)
    ensures Share(TriggerPath(kind, stock), t) == if kind == Kind.Buy then t.amount else 0
  {
  }

  /** What becomes of the reserved money when a trigger is removed. */
  lemma ReservedAfterRemoval(a: Account, kind: Kind, stock: Text)
    requires Formed(a) && ValidStock(stock) && TriggerOf(a, kind, stock).Some?
    ensures var key, t := TriggerPath(kind, stock), TriggerOf(a, kind, stock).value;
      Reserved(WithoutTrigger(a, key).triggers.vals) + Reserved(LostWith(a, key)) + (if kind == Kind.Buy then t.amount else 0)
      == Reserved(a.triggers.vals)
  {
    hide WellFormed, ThreeDeep, TriggerPath, Share, Reserved, RemoveShort, Casualties;
    var key, vals := TriggerPath(kind, stock), a.triggers.vals;
    var lost := Casualties(a.triggers, key);
    RemoveShortKeepsForm(a.triggers, key, TRIGGER_WIDTH);
    NothingBelow(a, key);
    RemoveShortEffect(a.triggers, key, TRIGGER_WIDTH);
    ShareOf(kind, stock, vals[key]);
    ReservedTake(vals, key);
    ReservedSplit(vals - {key}, lost);
    assert Only(vals - {key}, lost) == LostWith(a, key);
  }

  // ----- Transaction rows -----

  /** The value of an amount in a statement as the server reads it; what the table then holds is in `Ledger`. */
  function Cents(m: Money): int {
    if m.Printed? then m.cents else Price(m.text)
  }

  function Sign(e: Entry): int {
    if e == CommittedBuy || e == FiredBuy then -1 else 1
  }

  /** What the statements of transaction rows add up to, so valued: deposits and sales, less purchases. */
  function Flow(writes: seq<Statement>): int {
    if writes == [] then 0
    else
      var w := writes[|writes| - 1];
      Flow(writes[..|writes| - 1]) + (if w.Record? then Sign(w.entry) * Cents(w.amount) else 0)
  }

  lemma {:induction false} FlowOfBoth(u: seq<Statement>, v: seq<Statement>)
    ensures Flow(u + v) == Flow(u) + Flow(v)
  {
    if v == [] {
      assert u + v == u;
    } else {
      assert (u + v)[..|u + v| - 1] == u + v[..|v| - 1];
      FlowOfBoth(u, v[..|v| - 1]);
    }
  }

  lemma FlowOfOne(w: Statement)
    ensures Flow([w]) == if w.Record? then Sign(w.entry) * Cents(w.amount) else 0
  {
    assert [w][..0] == [];
  }

  lemma FlowOfTwo(w: Statement, x: Statement)
    ensures Flow([w, x]) == Flow([w]) + Flow([x])
  {
    assert [w, x] == [w] + [x];
    FlowOfBoth([w], [x]);
  }

  lemma FlowOfThree(w: Statement, x: Statement, y: Statement)
    ensures Flow([w, x, y]) == Flow([w]) + Flow([x]) + Flow([y])
  {
    assert [w, x, y] == [w, x] + [y];
    FlowOfBoth([w, x], [y]);
    FlowOfTwo(w, x);
  }

  lemma FlowOfFour(w: Statement, x: Statement, y: Statement, z: Statement)
    ensures Flow([w, x, y, z]) == Flow([w]) + Flow([x]) + Flow([y]) + Flow([z])
  {
    assert [w, x, y, z] == [w, x, y] + [z];
    FlowOfBoth([w, x, y], [z]);
    FlowOfThree(w, x, y);
  }

  /** The flow of the statements of one step, whatever it was. */
  lemma FlowOfStep(writes: seq<Statement>)
    requires |writes| <= 4
    ensures Flow(writes) == (if |writes| > 0 then Flow([writes[0]]) else 0) + (if |writes| > 1 then Flow([writes[1]]) else 0)
                          + (if |writes| > 2 then Flow([writes[2]]) else 0) + (if |writes| > 3 then Flow([writes[3]]) else 0)
    ensures forall w <- writes :: Flow([w]) == if w.Record? then Sign(w.entry) * Cents(w.amount) else 0
  {
    forall w <- writes { FlowOfOne(w); }
    if |writes| == 1 { assert writes == [writes[0]]; }
    if |writes| == 2 { assert writes == [writes[0], writes[1]]; FlowOfTwo(writes[0], writes[1]); }
    if |writes| == 3 { assert writes == [writes[0], writes[1], writes[2]]; FlowOfThree(writes[0], writes[1], writes[2]); }
    if |writes| == 4 {
      assert writes == [writes[0], writes[1], writes[2], writes[3]];
      FlowOfFour(writes[0], writes[1], writes[2], writes[3]);
    }
  }

  // ----- Conservation -----

  /** All the money of an account. */
  ghost function Total(a: Account): int {
    a.balance + Reserved(a.triggers.vals)
  }

  ghost predicate Conserves(a: Account, o: Outcome) {
    Total(o.after) + Reserved(o.lost) == Total(a) + Flow(o.writes)
  }

  lemma OrdersConserve(a: Account, e: Event)
    requires Formed(a)
    requires e.Add? || e.Buy? || e.Sell? || e.CancelBuy? || e.CancelSell?
    ensures Conserves(a, Step(a, e))
  {
    hide WellFormed, ThreeDeep, CDiv, Sold, Price, Reserved, Flow, TriggerPath, StockPath;
    NoneReserved();
    FlowOfStep(Step(a, e).writes);
  }

  lemma CommitsConserve(a: Account, e: Event)
    requires Formed(a) && (e.CommitBuy? || e.CommitSell?)
    ensures Conserves(a, Step(a, e))
  {
    hide WellFormed, ThreeDeep, CDiv, Sold, Price, Reserved, Flow, TriggerPath, StockPath;
    NoneReserved();
    FlowOfStep(Step(a, e).writes);
  }

  /** Reserving moves the amount from the balance to the trigger. */
  lemma NewTriggerReserves(a: Account, kind: Kind, stock: Text, t: Trigger)
    requires ValidStock(stock) && TriggerOf(a, kind, stock) == None
    ensures Reserved(WithTrigger(a, kind, stock, t).triggers.vals)
         == Reserved(a.triggers.vals) + (if kind == Kind.Buy then t.amount else 0)
  {
    hide TriggerPath, Share, Reserved;
    ReservedPut(a.triggers.vals, TriggerPath(kind, stock), t);
    ShareOf(kind, stock, t);
    assert a.triggers.vals - {TriggerPath(kind, stock)} == a.triggers.vals;
  }

  lemma SettingConserves(a: Account, e: Event)
    requires Formed(a) && (e.SetBuyAmount? || e.SetSellAmount? || e.SetTriggerPrice?)
    ensures Conserves(a, Step(a, e))
  {
    hide WellFormed, ThreeDeep, CDiv, Sold, Price, Reserved, Flow, TriggerPath, StockPath, Put;
    NoneReserved();
    FlowOfStep(Step(a, e).writes);
    if ValidStock(e.stock) {
      if e.SetTriggerPrice? {
        var key := TriggerPath(e.kind, e.stock);
        if key in a.triggers.vals {
          ReservedUpdate(a.triggers.vals, key, a.triggers.vals[key].(trig := Price(e.text)));
        }
      } else {
        var kind := if e.SetBuyAmount? then Kind.Buy else Kind.Sell;
        if TriggerOf(a, kind, e.stock) == None {
          NewTriggerReserves(a, kind, e.stock, Trigger(e.transID, Price(e.text), 0));
        }
      }
    }
  }

  lemma CancellingConserves(a: Account, e: Event)
    requires Formed(a) && (e.CancelSetBuy? || e.CancelSetSell?)
    ensures Conserves(a, Step(a, e))
  {
    hide WellFormed, ThreeDeep, CDiv, Sold, Price, Reserved, Flow, TriggerPath, StockPath, RemoveShort, LostWith;
    NoneReserved();
    FlowOfStep(Step(a, e).writes);
    var kind := if e.CancelSetBuy? then Kind.Buy else Kind.Sell;
    if ValidStock(e.stock) && TriggerOf(a, kind, e.stock).Some? {
      ReservedAfterRemoval(a, kind, e.stock);
    }
  }

  lemma FiringConserves(a: Account, e: Event)
    requires Formed(a) && e.Fire? && Possible(e)
    ensures Conserves(a, Step(a, e))
  {
    hide WellFormed, ThreeDeep, CDiv, Sold, Price, Reserved, Flow, TriggerPath, StockPath, RemoveShort, LostWith;
    NoneReserved();
    FlowOfStep(Step(a, e).writes);
    if TriggerOf(a, e.kind, e.stock).Some? {
      ReservedAfterRemoval(a, e.kind, e.stock);
    }
  }

  /**
   * Every step moves money only as its statements of transaction rows say: reserving and cancelling leave the total alone.
   * The one leak is the triggers that a removal loses.  No amount need be positive for this.
   */
  lemma StepConserves(a: Account, e: Event)
    requires Formed(a) && Possible(e)
    ensures var o := Step(a, e); Total(o.after) + Reserved(o.lost) == Total(a) + Flow(o.writes)
  {
    hide Step, Reserved, Flow, Total, WellFormed, ThreeDeep;
    if e.Fire? {
      FiringConserves(a, e);
    } else if e.CancelSetBuy? || e.CancelSetSell? {
      CancellingConserves(a, e);
    } else if e.SetBuyAmount? || e.SetSellAmount? || e.SetTriggerPrice? {
      SettingConserves(a, e);
    } else if e.CommitBuy? || e.CommitSell? {
      CommitsConserve(a, e);
    } else {
      OrdersConserve(a, e);
    }
    assert Conserves(a, Step(a, e));
  }

  /** All the statements of a run, in order. */
  ghost function Writes(a: Account, es: seq<Event>): seq<Statement>
    requires Formed(a) && AllPossible(es)
  {
    if es == [] then [] else Writes(a, es[..|es| - 1]) + Step(Run(a, es[..|es| - 1]), es[|es| - 1]).writes
  }

  /** The reserved money that a run loses track of. */
  ghost function Lost(a: Account, es: seq<Event>): int
    requires Formed(a) && AllPossible(es)
  {
    if es == [] then 0
    else Lost(a, es[..|es| - 1]) + Reserved(Step(Run(a, es[..|es| - 1]), es[|es| - 1]).lost)
  }

  /**
   * On every run, balance plus reserved amounts equals its initial value plus deposits and sales less purchases, as the
   * server reads them, up to the triggers that removals lose.
   */
  lemma {:induction false} RunConserves(a: Account, es: seq<Event>)
    requires Formed(a) && AllPossible(es)
    ensures Total(Run(a, es)) + Lost(a, es) == Total(a) + Flow(Writes(a, es))
  {
    if es != [] {
      var init, e := es[..|es| - 1], es[|es| - 1];
      RunConserves(a, init);
      StepConserves(Run(a, init), e);
      FlowOfBoth(Writes(a, init), Step(Run(a, init), e).writes);
    }
  }

  // ----- When the books balance -----

  /** No event of the run loses a trigger. */
  ghost predicate NeverLoses(a: Account, es: seq<Event>)
    requires Formed(a) && AllPossible(es)
  {
    es != [] ==> NeverLoses(a, es[..|es| - 1]) && LosesNothing(Run(a, es[..|es| - 1]), es[|es| - 1])
  }

  /** Then the books balance, whatever the amounts. */
  lemma {:induction false} ExactRunsBalance(a: Account, es: seq<Event>)
    requires Formed(a) && AllPossible(es) && NeverLoses(a, es)
    ensures Total(Run(a, es)) == Total(a) + Flow(Writes(a, es))
  {
    hide Step, Reserved, Flow;
    NeverLosesMeansNone(a, es);
    RunConserves(a, es);
  }

  lemma {:induction false} NeverLosesMeansNone(a: Account, es: seq<Event>)
    requires Formed(a) && AllPossible(es) && NeverLoses(a, es)
    ensures Lost(a, es) == 0
  {
    if es != [] {
      NeverLosesMeansNone(a, es[..|es| - 1]);
      LosesNothingExactly(Run(a, es[..|es| - 1]), es[|es| - 1]);
    }
  }

  /** Triggers without negative amounts reserve nothing exactly if none of them reserves anything. */
  lemma {:induction false} NothingReserved(m: map<Path, Trigger>)
    requires forall k <- m :: m[k].amount >= 0
    ensures Reserved(m) >= 0
    ensures Reserved(m) == 0 <==> forall k <- m :: Share(k, m[k]) == 0
    decreases |m|
  {
    if m != map[] {
      var k := Pick(m);
      Fewer(m, k);
      NothingReserved(m - {k});
      assert forall j <- m :: j == k || j in m - {k};
      if Reserved(m) == 0 { assert forall j <- m - {k} :: Share(j, m[j]) == 0; }
    }
  }

  /** The event removes a trigger, and with it goes a buy trigger that reserves money. */
  ghost predicate LosesMoney(a: Account, e: Event)
    requires Possible(e)
  {
    GoneKey(a, e).Some? &&
    exists p <- a.triggers.vals :: GoesAlong(a.triggers, GoneKey(a, e).value, p) && Share(p, a.triggers.vals[p]) != 0
  }

  /** No amount of a trigger is negative. */
  ghost predicate AmountsNonNegative(a: Account) {
    forall p <- a.triggers.vals :: a.triggers.vals[p].amount >= 0
  }

  lemma LostMoneyExactly(a: Account, e: Event)
    requires Formed(a) && Possible(e) && AmountsNonNegative(a)
    ensures Reserved(Step(a, e).lost) >= 0
    ensures Reserved(Step(a, e).lost) == 0 <==> !LosesMoney(a, e)
  {
    var lost := Step(a, e).lost;
    LostByGuard(a, e);
    if GoneKey(a, e).Some? { CasualtiesExactly(a.triggers, GoneKey(a, e).value, TRIGGER_WIDTH); }
    assert forall k <- lost :: k in a.triggers.vals && lost[k] == a.triggers.vals[k];
    NothingReserved(lost);
  }

  /** The books of a step balance if and only if no reserved money goes with the trigger it removes. */
  lemma StepBalancesExactly(a: Account, e: Event)
    requires Formed(a) && Possible(e) && AmountsNonNegative(a)
    ensures Total(Step(a, e).after) == Total(a) + Flow(Step(a, e).writes) <==> !LosesMoney(a, e)
  {
    StepConserves(a, e);
    LostMoneyExactly(a, e);
  }

  ghost predicate NeverLosesMoney(a: Account, es: seq<Event>)
    requires Formed(a) && AllPossible(es)
  {
    es != [] ==> NeverLosesMoney(a, es[..|es| - 1]) && !LosesMoney(Run(a, es[..|es| - 1]), es[|es| - 1])
  }

  /** The event sets no amount of a trigger from a text that is read as negative. */
  predicate NonNegativeAmount(e: Event) {
    match e
    case SetBuyAmount(_, text, _) => !ReadsNegative(text)
    case SetSellAmount(_, text, _) => !ReadsNegative(text)
    case _ => true
  }

  lemma SettingKeepsAmounts(a: Account, e: Event)
    requires Formed(a) && (e.SetBuyAmount? || e.SetSellAmount?) && AmountsNonNegative(a) && NonNegativeAmount(e)
    ensures AmountsNonNegative(Step(a, e).after)
  {
    hide WellFormed, ThreeDeep, Price, TriggerPath, StockPath, ReadsNegative;
    var kind := if e.SetBuyAmount? then Kind.Buy else Kind.Sell;
    NegativeExactly(e.text);
    if ValidStock(e.stock) && TriggerOf(a, kind, e.stock) == None {
      AdditionKeepsAmounts(a, kind, e.stock, Trigger(e.transID, Price(e.text), 0));
    }
  }

  lemma RemovingKeepsAmounts(a: Account, e: Event)
    requires Formed(a) && Possible(e) && (e.CancelSetBuy? || e.CancelSetSell? || e.Fire?) && AmountsNonNegative(a)
    ensures AmountsNonNegative(Step(a, e).after)
  {
    hide WellFormed, ThreeDeep, CDiv, Sold, TriggerPath, StockPath, RemoveShort, LostWith, Casualties;
    var kind := if e.CancelSetBuy? then Kind.Buy else if e.CancelSetSell? then Kind.Sell else e.kind;
    if ValidStock(e.stock) && TriggerOf(a, kind, e.stock).Some? { RemovalKeepsAmounts(a, kind, e.stock); }
  }

  lemma StepKeepsAmounts(a: Account, e: Event)
    requires Formed(a) && Possible(e) && AmountsNonNegative(a) && NonNegativeAmount(e)
    ensures AmountsNonNegative(Step(a, e).after)
  {
    hide WellFormed, ThreeDeep, CDiv, Sold, Price, TriggerPath, StockPath, RemoveShort, LostWith, Casualties, Put;
    if e.SetBuyAmount? || e.SetSellAmount? {
      SettingKeepsAmounts(a, e);
    } else if e.CancelSetBuy? || e.CancelSetSell? || e.Fire? {
      RemovingKeepsAmounts(a, e);
    }
  }

  lemma {:induction false} RunKeepsAmounts(a: Account, es: seq<Event>)
    requires Formed(a) && AllPossible(es) && AmountsNonNegative(a) && forall e <- es :: NonNegativeAmount(e)
    ensures AmountsNonNegative(Run(a, es))
  {
    if es != [] {
      var init := es[..|es| - 1];
      assert forall e <- init :: e in es;
      RunKeepsAmounts(a, init);
      StepKeepsAmounts(Run(a, init), es[|es| - 1]);
    }
  }

  /**
   * The books of a whole run whose triggers are set with non-negative amounts balance if and only if reserved money
   * never goes along.  If it does, the run is meant up to the next examination of what was lost.
   */
  lemma {:induction false} RunBalancesExactly(a: Account, es: seq<Event>)
    requires Formed(a) && AllPossible(es) && AmountsNonNegative(a) && forall e <- es :: NonNegativeAmount(e)
    ensures Total(Run(a, es)) == Total(a) + Flow(Writes(a, es)) <==> NeverLosesMoney(a, es)
  {
    NoMoneyLost(a, es);
    RunConserves(a, es);
  }

  lemma {:induction false} NoMoneyLost(a: Account, es: seq<Event>)
    requires Formed(a) && AllPossible(es) && AmountsNonNegative(a) && forall e <- es :: NonNegativeAmount(e)
    ensures Lost(a, es) >= 0 && (Lost(a, es) == 0 <==> NeverLosesMoney(a, es))
  {
    if es != [] {
      var init := es[..|es| - 1];
      assert forall e <- init :: e in es;
      NoMoneyLost(a, init);
      RunKeepsAmounts(a, init);
      LostMoneyExactly(Run(a, init), es[|es| - 1]);
    }
  }
}
