/** What the commands mean to the user: how many shares an order is for, what a refusal leaves, what a cancel undoes. */
module AccountMeaning {
  import opened Base
  import opened Names
  import opened Prices
  import opened TrieSpec
  import opened Accounts
  import opened AccountSafety
  import opened AccountLosses

  // ----- How many shares -----

  /** A buy is for as many shares as the amount pays for: it costs no more, and one more share would. */
  lemma BuySpendsMost(a: Account, e: Event)
    requires Safe(a) && e.Buy? && Step(a, e).reply == Done && Price(e.text) >= 0
    ensures var b, price := Step(a, e).after, Current(e.now, e.cached, e.fetched).price;
      b.no >= 1 && b.reserve == price * b.no && b.reserve <= Price(e.text) < b.reserve + price
  {
    assert NamesStock(a);
    hide Price, CDiv, Sold, StockPath, Safe, Formed, Current;
    PaidFor(Price(e.text), Current(e.now, e.cached, e.fetched).price);
  }

  lemma PaidFor(amount: int, price: int)
    requires amount >= 0
    ensures price >= 1 ==> CDiv(amount, price) >= 0 && price * CDiv(amount, price) <= amount < price * CDiv(amount, price) + price
  {
    if price >= 1 {
      DivBounds(amount, price);
      assert price * (CDiv(amount, price) + 1) == price * CDiv(amount, price) + price;
    }
  }

  /** A sale is of the fewest shares that bring in more than the amount, or of all there are. */
  lemma SoldMeans(amount: int, price: int, held: int)
    requires amount >= 0 && price >= 1 && held >= 1
    ensures var n := Sold(amount, price, held);
      && 1 <= n <= held && price * n - price <= amount
      && (price * n > amount || n == held)
  {
    var q, n := CDiv(amount, price), Sold(amount, price, held);
    DivBounds(amount, price);
    assert price * (q + 1) == price * q + price;
    if n <= q {
      assert price * q == price * n + price * (q - n);
      assert price * (q - n) >= 0;
    }
  }

  lemma SellRaisesEnough(a: Account, e: Event)
    requires Safe(a) && e.Sell? && Step(a, e).reply == Done && Price(e.text) >= 0
    ensures var b, price := Step(a, e).after, Current(e.now, e.cached, e.fetched).price;
      && b.reserve == price * b.no && 1 <= b.no <= HeldOrNone(a, e.stock) && b.reserve - price <= Price(e.text)
      && (b.reserve > Price(e.text) || b.no == HeldOrNone(a, e.stock))
  {
    SoldMeans(Price(e.text), Current(e.now, e.cached, e.fetched).price, HeldOrNone(a, e.stock));
  }

  /** A buy trigger that fires spends as much of its amount as makes whole shares, and gives back less than a price. */
  lemma FiringRefundsRest(a: Account, e: Event)
    requires Safe(a) && Possible(e) && e.Fire? && e.kind == Kind.Buy && Step(a, e).reply == Done
    ensures var t, b := TriggerOf(a, Kind.Buy, e.stock).value, Step(a, e).after;
      var n := HeldOrNone(b, e.stock) - HeldOrNone(a, e.stock);
      && n >= 1 && e.price < t.trig
      && b.balance - a.balance == t.amount - e.price * n && 0 <= b.balance - a.balance < e.price
  {
    hide CDiv, RemoveShort, Casualties, LostWith, TriggerPath, HoldingWrite;
    var t := TriggerOf(a, Kind.Buy, e.stock).value;
    var n := CDiv(t.amount, e.price);
    DivBounds(t.amount, e.price);
    assert e.price * (n + 1) == e.price * n + e.price;
  }

  // ----- Refusals -----

  /** A refused step changes nothing and writes nothing, except that an order that timed out is dropped. */
  lemma RefusalsLeaveAccount(a: Account, e: Event)
    requires Formed(a) && Possible(e) && Step(a, e).reply != Done
    ensures Step(a, e).writes == [] && Step(a, e).lost == map[]
    ensures Step(a, e).after == if Step(a, e).reply == Failed(-13) then Cleared(a) else a
    ensures Step(a, e).reply == Failed(-13) ==>
      ((e.CommitBuy? && a.buysell == 1) || (e.CommitSell? && a.buysell == -1)) && e.now - a.promptTime > QUOTE_TO
  {
    hide Price, CDiv, Sold, Lookup, Put, RemoveShort, Casualties, LostWith, WithoutTrigger, WithTrigger, SetHeld;
    hide TriggerPath, StockPath, WellFormed, ThreeDeep, HoldingWrite;
  }

  /** From a safe account a commit goes through exactly if an order of its side is pending and its quote still good. */
  lemma CommitsExactly(a: Account, e: Event)
    requires Safe(a) && (e.CommitBuy? || e.CommitSell?)
    ensures Step(a, e).reply == Done <==>
      a.buysell == (if e.CommitBuy? then 1 else -1) && e.now - a.promptTime <= QUOTE_TO
  {
  }

  // ----- What a cancel undoes -----

  /** Ordering and cancelling leaves the account as it was. */
  lemma CancelUndoesOrder(a: Account, e: Event)
    requires Safe(a) && (e.Buy? || e.Sell?) && Step(a, e).reply == Done
    ensures NamesStock(Step(a, e).after)
    ensures Step(Step(a, e).after, if e.Buy? then CancelBuy else CancelSell).after == a
  {
  }

  /** Cancelling a trigger that was just added, on the account's value. */
  lemma CancelUndoesAddition(a: Account, stock: Text, t: Trigger)
    requires Formed(a) && ValidStock(stock) && TriggerOf(a, Kind.Buy, stock) == None
    ensures var b := WithTrigger(a, Kind.Buy, stock, t).(balance := a.balance - t.amount);
      var o := CancelSetBuyStep(b, stock);
      && o.reply == Done && o.after.(triggers := a.triggers) == a
      && (o.after.triggers.vals == a.triggers.vals <==> SparesOthers(b.triggers, TriggerPath(Kind.Buy, stock)))
  {
    hide WellFormed, ThreeDeep, RemoveShort, Casualties, StockPath;
    var key := TriggerPath(Kind.Buy, stock);
    AdditionKeepsForm(a, Kind.Buy, stock, t);
    var b := WithTrigger(a, Kind.Buy, stock, t).(balance := a.balance - t.amount);
    assert b.triggers.vals - {key} == a.triggers.vals;
    RemovalKeepsOthersExactly(b, Kind.Buy, stock);
  }

  /**
   * Reserving and cancelling gives the money back and leaves holdings and order alone.  The other triggers are
   * all still there exactly if the key, once added, meets neither situation of the short bound.
   */
  lemma CancelUndoesSetBuy(a: Account, stock: Text, text: Text, transID: Text)
    requires Formed(a) && SetBuyAmountStep(a, stock, text, transID).reply == Done
    ensures var b := SetBuyAmountStep(a, stock, text, transID).after;
      var o := CancelSetBuyStep(b, stock);
      && o.reply == Done && o.after.(triggers := a.triggers) == a
      && (o.after.triggers.vals == a.triggers.vals <==> SparesOthers(b.triggers, TriggerPath(Kind.Buy, stock)))
  {
    CancelUndoesAddition(a, stock, Trigger(transID, Price(text), 0));
  }
}
