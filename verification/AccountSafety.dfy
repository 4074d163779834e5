/** Safety of accounts: what each step keeps, exactly when, and what that says about whole runs. */
module AccountSafety {
  import opened Base
  import opened Names
  import opened Prices
  import opened TrieSpec
  import opened Accounts

  const TRIGGER_WIDTH := 2 * STOCK_CHARS

  /** The structure that every step keeps, whatever the amounts are. */
  ghost predicate Formed(a: Account) {
    && NamesStock(a)
    && WellFormed(a.triggers, TRIGGER_WIDTH)
    && ThreeDeep(a.triggers)
  }

  /** A sum of money is that many times a unit price of at least one cent. */
  predicate Priced(reserve: int, no: int) {
    no >= 1 && reserve >= no && reserve % no == 0
  }

  /** The pending order is covered, or absent and completely cleared. */
  predicate OrderSafe(a: Account)
    requires NamesStock(a)
  {
    if a.buysell == 0 then a == Cleared(a)
    else
      && Priced(a.reserve, a.no)
      && (a.buysell == 1 || a.buysell == -1)
      && (a.buysell == 1 ==> a.reserve <= a.balance)
      && (a.buysell == -1 ==> a.no <= HeldOrNone(a, a.stock.value))
  }

  ghost predicate Safe(a: Account) {
    && Formed(a)
    && a.balance >= 0
    && (forall p <- a.holdings :: a.holdings[p] >= 0)
    && (forall p <- a.triggers.vals :: a.triggers.vals[p].amount >= 0)
    && OrderSafe(a)
  }

  /** A new account is safe. */
  lemma EmptyAccountSafe()
    ensures Safe(EMPTY_ACCOUNT)
  {
  }

  /** A unit price of at least one cent can be recovered, and any such price and count qualify. */
  lemma PricedMeansUnitPrice(reserve: int, no: int, price: int)
    requires no >= 1
    ensures Priced(reserve, no) ==> reserve == (reserve / no) * no && reserve / no >= 1
    ensures price >= 1 && reserve == price * no ==> Priced(reserve, no)
  {
    if price >= 1 && reserve == price * no { MultipleOf(price, no); }
    if Priced(reserve, no) { DivSign(reserve, no); }
  }

  // ----- Form -----

  /** Every step keeps the form of the trigger trie and a valid stock in every pending order. */
  lemma StepKeepsForm(a: Account, e: Event)
    requires Formed(a) && Possible(e)
    ensures Formed(Step(a, e).after)
  {
    hide Price, CDiv, Sold, LostWith, Casualties, Lookup, Put, RemoveShort, WellFormed, ThreeDeep, TriggerPath, StockPath;
    if e.SetTriggerPrice? {
      NewPriceKeepsForm(a, e);
    } else if e.SetBuyAmount? {
      AdditionKeepsForm(a, Kind.Buy, e.stock, Trigger(e.transID, Price(e.text), 0));
    } else if e.SetSellAmount? {
      AdditionKeepsForm(a, Kind.Sell, e.stock, Trigger(e.transID, Price(e.text), 0));
    } else if e.CancelSetBuy? {
      RemovalKeepsForm(a, Kind.Buy, e.stock);
    } else if e.CancelSetSell? {
      RemovalKeepsForm(a, Kind.Sell, e.stock);
    } else if e.Fire? {
      RemovalKeepsForm(a, e.kind, e.stock);
    }
  }

  lemma NewPriceKeepsForm(a: Account, e: Event)
    requires Formed(a) && e.SetTriggerPrice?
    ensures Formed(Step(a, e).after)
  {
  }

  lemma AdditionKeepsForm(a: Account, kind: Kind, stock: Text, t: Trigger)
    requires Formed(a)
    ensures ValidStock(stock) ==> Formed(WithTrigger(a, kind, stock, t))
  {
    if ValidStock(stock) {
      PutKeepsForm(a.triggers, TriggerPath(kind, stock), t, TRIGGER_WIDTH);
      PutKeepsThreeDeep(a.triggers, TriggerPath(kind, stock), t);
    }
  }

  lemma RemovalKeepsForm(a: Account, kind: Kind, stock: Text)
    requires Formed(a)
    ensures ValidStock(stock) && TriggerOf(a, kind, stock).Some? ==>
      Formed(WithoutTrigger(a, TriggerPath(kind, stock)))
  {
    if ValidStock(stock) && TriggerOf(a, kind, stock).Some? {
      RemoveShortKeepsForm(a.triggers, TriggerPath(kind, stock), TRIGGER_WIDTH);
    }
  }

  /** No node is below a trigger's. */
  lemma NothingBelow(a: Account, key: Path)
    requires Formed(a) && |key| == 3
    ensures !HasChild(a.triggers, key)
  {
  }

  // ----- Exactly which steps are safe -----

  /** The guard of a firing sell trigger. */
  predicate FiresSell(a: Account, stock: Text, price: int)
    requires ValidStock(stock)
  {
    var t := TriggerOf(a, Kind.Sell, stock);
    t.Some? && price > t.value.trig && t.value.trig != 0 && HeldOrNone(a, stock) != 0
  }

  /**
   * What must be known before a step for it to be safe.  Only amounts below zero and a sell trigger that
   * takes shares out from under a pending sell of the same stock can do harm.
   */
  predicate Admissible(a: Account, e: Event)
    requires Possible(e)
  {
    match e
    case Add(text) =>
      Price(text) != -1 ==> a.balance + Price(text) >= (if a.buysell == 1 then a.reserve else 0)
    case Buy(stock, text, now, cached, fetched) =>
      (ValidStock(stock) && a.buysell == 0 && Price(text) != -1 && Current(now, cached, fetched).price >= 1) ==>
        Price(text) > -Current(now, cached, fetched).price
    case Sell(stock, text, now, cached, fetched) =>
      (ValidStock(stock) && a.buysell == 0 && Price(text) != -1 && Current(now, cached, fetched).price >= 1 &&
       HeldOrNone(a, stock) != 0) ==>
        Price(text) > -Current(now, cached, fetched).price
    case SetBuyAmount(stock, text, transID) =>
      (ValidStock(stock) && a.buysell == 0 && TriggerOf(a, Kind.Buy, stock) == None) ==> Price(text) >= -1
    case SetSellAmount(stock, text, transID) =>
      (ValidStock(stock) && a.buysell == 0 && TriggerOf(a, Kind.Sell, stock) == None && Held(a, stock).Some?) ==>
        Price(text) >= -1
    case Fire(kind, stock, price) =>
      (kind == Kind.Sell && FiresSell(a, stock, price) && a.buysell == -1 && a.stock == Some(stock)) ==>
        a.no <= HeldOrNone(a, stock) - Sold(TriggerOf(a, kind, stock).value.amount, price, HeldOrNone(a, stock))
    case _ => true
  }

  lemma BuyExact(a: Account, e: Event)
    requires Safe(a) && e.Buy?
    ensures Safe(Step(a, e).after) <==> Admissible(a, e)
  {
    var prc, q := Price(e.text), Current(e.now, e.cached, e.fetched);
    if q.price >= 1 {
      var n := CDiv(prc, q.price);
      DivSign(prc, q.price);
      if n >= 1 {
        DivBounds(prc, q.price);
        MultipleOf(q.price, n);
      }
    }
  }

  lemma SellExact(a: Account, e: Event)
    requires Safe(a) && e.Sell?
    ensures Safe(Step(a, e).after) <==> Admissible(a, e)
  {
    var prc, q := Price(e.text), Current(e.now, e.cached, e.fetched);
    if q.price >= 1 && ValidStock(e.stock) {
      var n := Sold(prc, q.price, HeldOrNone(a, e.stock));
      DivSign(prc, q.price);
      if n >= 1 { MultipleOf(q.price, n); }
    }
  }

  lemma CommitSafe(a: Account, e: Event)
    requires Safe(a) && (e.CommitBuy? || e.CommitSell? || e.CancelBuy? || e.CancelSell?)
    ensures Safe(Step(a, e).after)
  {
    hide WellFormed, ThreeDeep;
  }

  /** Adding a trigger where there is none keeps all amounts non-negative exactly if its own is. */
  lemma AdditionKeepsAmounts(a: Account, kind: Kind, stock: Text, t: Trigger)
    requires ValidStock(stock) && TriggerOf(a, kind, stock) == None
    requires forall p <- a.triggers.vals :: a.triggers.vals[p].amount >= 0
    ensures var vals := WithTrigger(a, kind, stock, t).triggers.vals;
      (forall p <- vals :: vals[p].amount >= 0) <==> t.amount >= 0
  {
    var key, vals := TriggerPath(kind, stock), WithTrigger(a, kind, stock, t).triggers.vals;
    assert key in vals && vals[key] == t;
    if t.amount >= 0 {
      forall p <- vals ensures vals[p].amount >= 0 { if p != key { assert p in a.triggers.vals; } }
    }
  }

  lemma SetBuyAmountExact(a: Account, e: Event)
    requires Safe(a) && e.SetBuyAmount?
    ensures Safe(Step(a, e).after) <==> Admissible(a, e)
  {
    StepKeepsForm(a, e);
    if ValidStock(e.stock) && TriggerOf(a, Kind.Buy, e.stock) == None {
      AdditionKeepsAmounts(a, Kind.Buy, e.stock, Trigger(e.transID, Price(e.text), 0));
    }
  }

  lemma SetSellAmountExact(a: Account, e: Event)
    requires Safe(a) && e.SetSellAmount?
    ensures Safe(Step(a, e).after) <==> Admissible(a, e)
  {
    StepKeepsForm(a, e);
    if ValidStock(e.stock) && TriggerOf(a, Kind.Sell, e.stock) == None {
      AdditionKeepsAmounts(a, Kind.Sell, e.stock, Trigger(e.transID, Price(e.text), 0));
    }
  }

  lemma SetTriggerSafe(a: Account, e: Event)
    requires Safe(a) && e.SetTriggerPrice?
    ensures Safe(Step(a, e).after)
  {
    StepKeepsForm(a, e);
  }

  /** Removing a trigger leaves the amounts of the others as they were. */
  lemma RemovalKeepsAmounts(a: Account, kind: Kind, stock: Text)
    requires Formed(a) && ValidStock(stock) && TriggerOf(a, kind, stock).Some?
    requires forall p <- a.triggers.vals :: a.triggers.vals[p].amount >= 0
    ensures var t := WithoutTrigger(a, TriggerPath(kind, stock)).triggers;
      forall p <- t.vals :: t.vals[p].amount >= 0
  {
    RemoveShortKeepsForm(a.triggers, TriggerPath(kind, stock), TRIGGER_WIDTH);
  }

  lemma CancelSetSafe(a: Account, e: Event)
    requires Safe(a) && (e.CancelSetBuy? || e.CancelSetSell?)
    ensures Safe(Step(a, e).after)
  {
    hide WellFormed, ThreeDeep, Casualties, LostWith, RemoveShort, TriggerPath, StockPath, Priced;
    StepKeepsForm(a, e);
    var kind := if e.CancelSetBuy? then Kind.Buy else Kind.Sell;
    if ValidStock(e.stock) && TriggerOf(a, kind, e.stock).Some? {
      RemovalKeepsAmounts(a, kind, e.stock);
    }
  }

  lemma FireBuySafe(a: Account, e: Event)
    requires Safe(a) && Possible(e) && e.Fire? && e.kind == Kind.Buy
    ensures Safe(Step(a, e).after)
  {
    hide CDiv, LostWith, Casualties, WellFormed, ThreeDeep, TriggerPath, RemoveShort, Priced;
    StepKeepsForm(a, e);
    var t := TriggerOf(a, Kind.Buy, e.stock);
    if t.Some? {
      RemovalKeepsAmounts(a, Kind.Buy, e.stock);
      DivBounds(t.value.amount, e.price);
    }
  }

  lemma FireSellExact(a: Account, e: Event)
    requires Safe(a) && Possible(e) && e.Fire? && e.kind == Kind.Sell
    ensures Safe(Step(a, e).after) <==> Admissible(a, e)
  {
    hide LostWith, Casualties, WellFormed, ThreeDeep, TriggerPath, RemoveShort, StockPath, Priced;
    StepKeepsForm(a, e);
    if FiresSell(a, e.stock, e.price) {
      var t, held := TriggerOf(a, Kind.Sell, e.stock).value, HeldOrNone(a, e.stock);
      RemovalKeepsAmounts(a, Kind.Sell, e.stock);
      DivBounds(t.amount, e.price);
      var n := Sold(t.amount, e.price, held);
      assert 1 <= n <= held;
      MultipleOf(e.price, n);
      if a.buysell == -1 && a.stock != Some(e.stock) && StockPath(a.stock.value) == StockPath(e.stock) {
        StockPathInjective(a.stock.value, e.stock);
      }
    }
  }

  /** From a safe account, a step is safe if and only if it is admissible. */
  lemma StepSafeExactly(a: Account, e: Event)
    requires Safe(a) && Possible(e)
    ensures Safe(Step(a, e).after) <==> Admissible(a, e)
  {
    hide WellFormed, ThreeDeep, Casualties, LostWith, RemoveShort, Lookup, Put, Sold, CDiv, Price, TriggerPath, StockPath;
    match e
    case Add(_) =>
    case Buy(_, _, _, _, _) => BuyExact(a, e);
    case Sell(_, _, _, _, _) => SellExact(a, e);
    case SetBuyAmount(_, _, _) => SetBuyAmountExact(a, e);
    case SetSellAmount(_, _, _) => SetSellAmountExact(a, e);
    case SetTriggerPrice(_, _, _) => SetTriggerSafe(a, e);
    case CancelSetBuy(_) => CancelSetSafe(a, e);
    case CancelSetSell(_) => CancelSetSafe(a, e);
    case Fire(kind, _, _) => if kind == Kind.Buy { FireBuySafe(a, e); } else { FireSellExact(a, e); }
    case _ => CommitSafe(a, e);
  }
}
