/** The user object of the transaction server: the account fields and the two tries, changed in place by the commands. */
module Users {
  import opened Base
  import opened Names
  import opened Prices
  import opened TrieSpec
  import opened TrieHeap
  import opened Accounts

  class User {
    var balance: int
    var promptTime: int
    var stockObj: Option<Text>
    var reserve: int
    var no: int
    var buysell: int
    const tTree: Trie<Trigger>
    const usTree: Trie<int>

    ghost predicate Valid()
      reads tTree, tTree.Repr, usTree, usTree.Repr
    {
      && this !in tTree.Repr && this !in usTree.Repr && tTree.Repr !! usTree.Repr
      && tTree.Valid() && tTree.Tight() && tTree.width == 2 * STOCK_CHARS
      && usTree.Valid() && usTree.Tight() && usTree.width == STOCK_CHARS
    }

    ghost function View(): Account
      reads this, tTree, usTree
    {
      Account(balance, promptTime, stockObj, reserve, no, buysell, usTree.view.vals, tTree.view)
    }

    constructor ()
      ensures Valid() && fresh(tTree.Repr) && fresh(usTree.Repr)
      ensures View() == EMPTY_ACCOUNT
    {
      var t := new Trie<Trigger>(2 * STOCK_CHARS);
      var us := new Trie<int>(STOCK_CHARS);
      tTree, usTree := t, us;
      balance, promptTime, stockObj, reserve, no, buysell := 0, 0, None, 0, 0, 0;
    }

    // ----- Commands that leave the tries alone -----

    /** ADD. */
    method Add(comm: Text) returns (reply: Reply, writes: seq<Statement>)
      modifies `balance
      ensures Outcome(View(), reply, writes, map[]) == AddStep(old(View()), comm)
    {
      var prc := ParsePrice(Some(comm));
      if prc == -1 { return Failed(-19), []; }
      balance := balance + prc;
      return Done, [SetBalance(Printed(balance)), Record(Deposit, Raw(comm))];
    }

    method ClearOrder()
      modifies `promptTime, `stockObj, `reserve, `no, `buysell
      ensures View() == Cleared(old(View()))
    {
      promptTime, reserve, no, buysell, stockObj := 0, 0, 0, 0, None;
    }

    method Order(stockID: Text, quote: Quote, numStock: int, side: int)
      modifies `promptTime, `stockObj, `reserve, `no, `buysell
      ensures View() == old(View()).(promptTime := quote.ts, stock := Some(stockID), reserve := quote.price * numStock,
                                     no := numStock, buysell := side)
    {
      promptTime, stockObj, reserve, no, buysell := quote.ts, Some(stockID), quote.price * numStock, numStock, side;
    }

    /** BUY; the quote is what the stock shows after a fetch if the cached one has timed out. */
    method Buy(stockID: Text, comm: Text, now: int, cached: Quote, fetched: Quote) returns (reply: Reply)
      modifies `promptTime, `stockObj, `reserve, `no, `buysell
      ensures Outcome(View(), reply, [], map[]) == BuyStep(old(View()), stockID, comm, now, cached, fetched)
    {
      var valid := CheckStock(Some(stockID));
      if valid == None { return Failed(-17); }
      var prc := ParsePrice(Some(comm));
      if prc == -1 { return Failed(-19); }
      if buysell != 0 { return Failed(-10); }
      if balance < prc { return Failed(-14); }
      var quote := cached;
      if now - cached.ts > QUOTE_TO { quote := fetched; }
      if quote.price < 1 { return Failed(-21); }
      var numStock := CDiv(prc, quote.price);
      if numStock == 0 { return Failed(-11); }
      Order(stockID, quote, numStock, 1);
      return Done;
    }

    /** One share more than the amount pays for, but not more than are held. */
    static method NumberToSell(amount: int, price: int, held: int) returns (numStock: int)
      requires price >= 1
      ensures numStock == Sold(amount, price, held)
    {
      numStock := CDiv(amount, price);
      numStock := numStock + 1;
      if held < numStock { numStock := held; }
    }

    /** SELL. */
    method Sell(stockID: Text, comm: Text, now: int, cached: Quote, fetched: Quote) returns (reply: Reply)
      requires Valid()
      modifies `promptTime, `stockObj, `reserve, `no, `buysell
      ensures Outcome(View(), reply, [], map[]) == SellStep(old(View()), stockID, comm, now, cached, fetched)
    {
      var valid := CheckStock(Some(stockID));
      if valid == None { return Failed(-17); }
      var prc := ParsePrice(Some(comm));
      if prc == -1 { return Failed(-19); }
      var held := Holding(stockID);
      if held.None? || held.value == 0 { return Failed(-15); }
      if buysell != 0 { return Failed(-10); }
      var quote := cached;
      if now - cached.ts > QUOTE_TO { quote := fetched; }
      if quote.price < 1 { return Failed(-21); }
      var numStock := NumberToSell(prc, quote.price, held.value);
      Order(stockID, quote, numStock, -1);
      return Done;
    }

    /** CANCEL_BUY and CANCEL_SELL. */
    method Cancel(side: int) returns (reply: Reply)
      modifies `promptTime, `stockObj, `reserve, `no, `buysell
      ensures Outcome(View(), reply, [], map[]) == CancelStep(old(View()), side)
    {
      if buysell != side { return Failed(-12); }
      ClearOrder();
      return Done;
    }

    // ----- Holdings -----

    /** `getUserStock`. */
    method Holding(stockID: Text) returns (r: Option<int>)
      requires Valid() && ValidStock(stockID)
      ensures r == Held(View(), stockID)
    {
      r := usTree.Get(StockPath(stockID));
    }

    /** The count of a holding is set, on a new object if there is none. */
    method Hold(stockID: Text, held: Option<int>, num: int) returns (write: Statement)
      requires Valid() && ValidStock(stockID) && held == Held(View(), stockID)
      modifies usTree.Repr
      ensures Valid() && fresh(usTree.Repr - old(usTree.Repr))
      ensures View() == SetHeld(old(View()), stockID, num)
      ensures write == HoldingWrite(old(View()), stockID, num)
    {
      if held.None? {
        var r := usTree.Add(StockPath(stockID), num);
        return NewHolding(stockID, num);
      } else {
        usTree.Assign(StockPath(stockID), num);
        return SetHolding(stockID, num);
      }
    }

    /** A pending order is settled: the balance and the holding change, and the order is cleared. */
    method Settle(stockID: Text, held: Option<int>, newBalance: int, num: int) returns (write: Statement)
      requires Valid() && ValidStock(stockID) && held == Held(View(), stockID)
      modifies this, usTree.Repr
      ensures Valid() && fresh(usTree.Repr - old(usTree.Repr))
      ensures View() == Cleared(SetHeld(old(View()), stockID, num)).(balance := newBalance)
      ensures write == HoldingWrite(old(View()), stockID, num)
    {
      balance := newBalance;
      write := Hold(stockID, held, num);
      ClearOrder();
    }

    /** COMMIT_BUY. */
    method CommitBuy(now: int) returns (reply: Reply, writes: seq<Statement>)
      requires Valid() && NamesStock(View())
      modifies this, usTree.Repr
      ensures Valid() && fresh(usTree.Repr - old(usTree.Repr))
      ensures Outcome(View(), reply, writes, map[]) == CommitBuyStep(old(View()), now)
    {
      hide StockPath, SetHeld, HoldingWrite;
      if buysell != 1 {
        reply, writes := Failed(-12), [];
      } else if now - promptTime > QUOTE_TO {
        ClearOrder();
        reply, writes := Failed(-13), [];
      } else {
        var cost, stockID := reserve, stockObj.value;
        var held := Holding(stockID);
        var num := if held.None? then no else held.value + no;
        var write := Settle(stockID, held, balance - reserve, num);
        reply, writes := Done, [write, SetBalance(Printed(balance)), Record(CommittedBuy, Printed(cost))];
      }
    }

    /** COMMIT_SELL. */
    method CommitSell(now: int) returns (reply: Reply, writes: seq<Statement>)
      requires Valid() && NamesStock(View())
      modifies this, usTree.Repr
      ensures Valid() && fresh(usTree.Repr - old(usTree.Repr))
      ensures Outcome(View(), reply, writes, map[]) == CommitSellStep(old(View()), now)
    {
      hide StockPath, SetHeld;
      if buysell != -1 {
        reply, writes := Failed(-12), [];
      } else if now - promptTime > QUOTE_TO {
        ClearOrder();
        reply, writes := Failed(-13), [];
      } else {
        var gain, stockID := reserve, stockObj.value;
        var held := Holding(stockID);
        if held.None? {
          reply, writes := Failed(-15), [];
        } else {
          var write := Settle(stockID, held, balance + reserve, held.value - no);
          reply, writes := Done, [SetBalance(Printed(balance)), write, Record(CommittedSell, Printed(gain))];
        }
      }
    }

    // ----- Triggers -----

    /** `getTrigger`. */
    method GetTrigger(kind: Kind, stockID: Text) returns (r: Option<Trigger>)
      requires Valid() && ValidStock(stockID)
      ensures r == TriggerOf(View(), kind, stockID)
    {
      r := tTree.Get(TriggerPath(kind, stockID));
    }

    /** The trie part of `addTrigger`. */
    method AddTrigger(kind: Kind, stockID: Text, t: Trigger)
      requires Valid() && ValidStock(stockID)
      modifies tTree.Repr
      ensures Valid() && fresh(tTree.Repr - old(tTree.Repr))
      ensures View() == WithTrigger(old(View()), kind, stockID, t)
    {
      var r := tTree.Add(TriggerPath(kind, stockID), t);
    }

    /** The trie part of `removeTrigger`, whose loop starts one short of the length of the stock's name. */
    method RemoveTrigger(kind: Kind, stockID: Text)
      requires Valid() && ValidStock(stockID) && TriggerOf(View(), kind, stockID).Some?
      modifies tTree.Repr
      ensures Valid() && tTree.Repr == old(tTree.Repr)
      ensures View() == WithoutTrigger(old(View()), TriggerPath(kind, stockID))
    {
      tTree.Remove(TriggerPath(kind, stockID), |stockID| - 1);
    }

    /** Money moves from the balance to a new trigger. */
    method Reserve(stockID: Text, prc: int, transID: Text)
      requires Valid() && ValidStock(stockID)
      modifies `balance, tTree.Repr
      ensures Valid() && fresh(tTree.Repr - old(tTree.Repr))
      ensures balance == old(balance) - prc
      ensures View() == WithTrigger(old(View()), Kind.Buy, stockID, Trigger(transID, prc, 0)).(balance := balance)
    {
      balance := balance - prc;
      AddTrigger(Kind.Buy, stockID, Trigger(transID, prc, 0));
    }

    /** Money moves from a removed trigger, less what was spent of it, to the balance. */
    method Release(kind: Kind, stockID: Text, gain: int)
      requires Valid() && ValidStock(stockID) && TriggerOf(View(), kind, stockID).Some?
      modifies `balance, tTree.Repr
      ensures Valid() && tTree.Repr == old(tTree.Repr)
      ensures balance == old(balance) + gain
      ensures View() == WithoutTrigger(old(View()), TriggerPath(kind, stockID)).(balance := balance)
    {
      balance := balance + gain;
      RemoveTrigger(kind, stockID);
    }

    /** SET_BUY_AMOUNT. */
    method SetBuyAmount(stockID: Text, comm: Text, transID: Text) returns (reply: Reply, writes: seq<Statement>)
      requires Valid()
      modifies `balance, tTree.Repr
      ensures Valid() && fresh(tTree.Repr - old(tTree.Repr))
      ensures Outcome(View(), reply, writes, map[]) == SetBuyAmountStep(old(View()), stockID, comm, transID)
    {
      hide Price, Put, TriggerPath, StockPath, WithTrigger;
      var refusal, prc := RefuseBuyAmount(stockID, comm);
      if refusal.Some? {
        reply, writes := Failed(refusal.value), [];
      } else {
        Reserve(stockID, prc, transID);
        reply, writes := Done, [SetBalance(Printed(balance)), NewTrigger(transID, stockID, Kind.Buy, Raw(comm))];
      }
    }

    /** The checks of SET_BUY_AMOUNT, in their order. */
    method RefuseBuyAmount(stockID: Text, comm: Text) returns (code: Option<int>, prc: int)
      requires Valid()
      ensures code.None? ==> prc == Price(comm) && SetBuyAmountStep(View(), stockID, comm, []).reply == Done
      ensures code.Some? ==> forall t :: SetBuyAmountStep(View(), stockID, comm, t) == Fail(View(), code.value)
    {
      prc := -1;
      var valid := CheckStock(Some(stockID));
      if valid == None { return Some(-17), prc; }
      prc := ParsePrice(Some(comm));
      if prc == -1 { return Some(-19), prc; }
      if buysell != 0 { return Some(-10), prc; }
      if balance < prc { return Some(-14), prc; }
      var t := GetTrigger(Kind.Buy, stockID);
      if t.Some? { return Some(-16), prc; }
      return None, prc;
    }

    /** SET_SELL_AMOUNT. */
    method SetSellAmount(stockID: Text, comm: Text, transID: Text) returns (reply: Reply, writes: seq<Statement>)
      requires Valid()
      modifies tTree.Repr
      ensures Valid() && fresh(tTree.Repr - old(tTree.Repr))
      ensures Outcome(View(), reply, writes, map[]) == SetSellAmountStep(old(View()), stockID, comm, transID)
    {
      var refusal, prc := RefuseSellAmount(stockID, comm);
      if refusal.Some? {
        reply, writes := Failed(refusal.value), [];
      } else {
        AddTrigger(Kind.Sell, stockID, Trigger(transID, prc, 0));
        reply, writes := Done, [NewTrigger(transID, stockID, Kind.Sell, Raw(comm))];
      }
    }

    /** The checks of SET_SELL_AMOUNT, in their order. */
    method RefuseSellAmount(stockID: Text, comm: Text) returns (code: Option<int>, prc: int)
      requires Valid()
      ensures code.None? ==> prc == Price(comm) && SetSellAmountStep(View(), stockID, comm, []).reply == Done
      ensures code.Some? ==> forall t :: SetSellAmountStep(View(), stockID, comm, t) == Fail(View(), code.value)
    {
      prc := -1;
      var valid := CheckStock(Some(stockID));
      if valid == None { return Some(-17), prc; }
      prc := ParsePrice(Some(comm));
      if prc == -1 { return Some(-19), prc; }
      if buysell != 0 { return Some(-10), prc; }
      var held := Holding(stockID);
      if held.None? { return Some(-15), prc; }
      var t := GetTrigger(Kind.Sell, stockID);
      if t.Some? { return Some(-16), prc; }
      return None, prc;
    }

    /** SET_BUY_TRIGGER and SET_SELL_TRIGGER. */
    method SetTriggerPrice(kind: Kind, stockID: Text, comm: Text) returns (reply: Reply, writes: seq<Statement>)
      requires Valid()
      modifies tTree.Repr
      ensures Valid() && tTree.Repr == old(tTree.Repr)
      ensures Outcome(View(), reply, writes, map[]) == SetTriggerStep(old(View()), kind, stockID, comm)
    {
      var valid := CheckStock(Some(stockID));
      if valid == None { return Failed(-17), []; }
      var prc := ParsePrice(Some(comm));
      if prc == -1 { return Failed(-19), []; }
      var t := GetTrigger(kind, stockID);
      if t.None? { return Failed(-22), []; }
      tTree.Assign(TriggerPath(kind, stockID), t.value.(trig := prc));
      return Done, [SetTrigger(stockID, kind, Raw(comm))];
    }

    /** CANCEL_SET_BUY. */
    method CancelSetBuy(stockID: Text) returns (reply: Reply, writes: seq<Statement>, ghost lost: map<Path, Trigger>)
      requires Valid()
      modifies `balance, tTree.Repr
      ensures Valid() && tTree.Repr == old(tTree.Repr)
      ensures Outcome(View(), reply, writes, lost) == CancelSetBuyStep(old(View()), stockID)
    {
      hide Price, RemoveShort, Casualties, LostWith, TriggerPath, StockPath, WithoutTrigger;
      lost := map[];
      var valid := CheckStock(Some(stockID));
      if valid == None { return Failed(-17), [], lost; }
      var t := GetTrigger(Kind.Buy, stockID);
      if t.None? { return Failed(-22), [], lost; }
      lost := LostWith(View(), TriggerPath(Kind.Buy, stockID));
      Release(Kind.Buy, stockID, t.value.amount);
      writes := [SetBalance(Printed(balance)), DropTrigger(stockID, Kind.Buy)];
      return Done, writes, lost;
    }

    /** CANCEL_SET_SELL. */
    method CancelSetSell(stockID: Text) returns (reply: Reply, writes: seq<Statement>, ghost lost: map<Path, Trigger>)
      requires Valid()
      modifies tTree.Repr
      ensures Valid() && tTree.Repr == old(tTree.Repr)
      ensures Outcome(View(), reply, writes, lost) == CancelSetSellStep(old(View()), stockID)
    {
      lost := map[];
      var valid := CheckStock(Some(stockID));
      if valid == None { return Failed(-17), [], lost; }
      var t := GetTrigger(Kind.Sell, stockID);
      if t.None? { return Failed(-22), [], lost; }
      lost := LostWith(View(), TriggerPath(Kind.Sell, stockID));
      RemoveTrigger(Kind.Sell, stockID);
      return Done, [DropTrigger(stockID, Kind.Sell)], lost;
    }

    // ----- The firing of a trigger, with the user's lock held -----

    /** What both kinds of firing do: the holding and the balance change, and the trigger goes. */
    method Exchange(kind: Kind, stockID: Text, held: Option<int>, num: int, gain: int) returns (write: Statement)
      requires Valid() && ValidStock(stockID) && held == Held(View(), stockID) && TriggerOf(View(), kind, stockID).Some?
      modifies this, tTree.Repr, usTree.Repr
      ensures Valid() && fresh(usTree.Repr - old(usTree.Repr)) && balance == old(balance) + gain
      ensures View() == WithoutTrigger(SetHeld(old(View()), stockID, num), TriggerPath(kind, stockID)).(balance := balance)
      ensures write == HoldingWrite(old(View()), stockID, num)
    {
      write := Hold(stockID, held, num);
      Release(kind, stockID, gain);
    }

    /** A buy trigger whose price is above the quote. */
    method FireBuy(stockID: Text, quotePrice: int, t: Trigger)
      returns (reply: Reply, writes: seq<Statement>, ghost lost: map<Path, Trigger>)
      requires Valid() && ValidStock(stockID) && quotePrice >= 1 && TriggerOf(View(), Kind.Buy, stockID) == Some(t)
      modifies this, tTree.Repr, usTree.Repr
      ensures Valid() && fresh(usTree.Repr - old(usTree.Repr))
      ensures Outcome(View(), reply, writes, lost) == FireBuyStep(old(View()), stockID, quotePrice)
    {
      hide Price, CDiv, RemoveShort, Casualties, LostWith, TriggerPath, StockPath, HoldingWrite, WithoutTrigger, SetHeld;
      var numStock := CDiv(t.amount, quotePrice);
      if quotePrice >= t.trig || numStock == 0 {
        reply, writes, lost := Skipped, [], map[];
      } else {
        var tbuy := quotePrice * numStock;
        lost := LostWith(View(), TriggerPath(Kind.Buy, stockID));
        var held := Holding(stockID);
        var num := if held.None? then numStock else held.value + numStock;
        var write := Exchange(Kind.Buy, stockID, held, num, t.amount - tbuy);
        reply := Done;
        writes := [write, SetBalance(Printed(balance)), Record(FiredBuy, Printed(tbuy)), DropTrigger(stockID, Kind.Buy)];
      }
    }

    /** A sell trigger whose price is set and below the quote. */
    method FireSell(stockID: Text, quotePrice: int, t: Trigger)
      returns (reply: Reply, writes: seq<Statement>, ghost lost: map<Path, Trigger>)
      requires Valid() && ValidStock(stockID) && quotePrice >= 1 && TriggerOf(View(), Kind.Sell, stockID) == Some(t)
      modifies this, tTree.Repr, usTree.Repr
      ensures Valid() && fresh(usTree.Repr - old(usTree.Repr))
      ensures Outcome(View(), reply, writes, lost) == FireSellStep(old(View()), stockID, quotePrice)
    {
      hide Price, CDiv, Sold, RemoveShort, Casualties, LostWith, TriggerPath, StockPath, WithoutTrigger, SetHeld;
      var held := Holding(stockID);
      if quotePrice <= t.trig || t.trig == 0 || held.None? || held.value == 0 {
        reply, writes, lost := Skipped, [], map[];
      } else {
        var numStock := NumberToSell(t.amount, quotePrice, held.value);
        var tsell, num := quotePrice * numStock, held.value - numStock;
        lost := LostWith(View(), TriggerPath(Kind.Sell, stockID));
        var write := Exchange(Kind.Sell, stockID, held, num, tsell);
        reply := Done;
        writes := [write, SetBalance(Printed(balance)), Record(FiredSell, Printed(tsell)), DropTrigger(stockID, Kind.Sell)];
      }
    }
  }
}
