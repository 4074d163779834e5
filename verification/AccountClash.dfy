/** The two ways in which an account comes to harm, as far as its own steps go. */
module AccountClash {
  import opened Base
  import opened Names
  import opened Prices
  import opened TrieSpec
  import opened Accounts
  import opened AccountSafety
  import opened AccountRuns

  /** Depositing "/.0" takes a dollar away. */
  lemma NegativeDeposit()
    ensures Step(EMPTY_ACCOUNT, Add([47, 46, 48])).after.balance == -100
  {
  }

  /**
   * Whenever a sell trigger fires that leaves fewer shares than a pending sell of the stock needs, a commit
   * in time goes through all the same and makes the holding negative.
   */
  lemma ClashOverdraws(a: Account, e: Event, now: int)
    requires Safe(a) && Possible(e) && e.Fire? && !Admissible(a, e) && now - a.promptTime <= QUOTE_TO
    ensures NamesStock(Step(a, e).after)
    ensures var c := Step(Step(a, e).after, CommitSell(now)); c.reply == Done && HeldOrNone(c.after, e.stock) < 0
  {
    StepKeepsForm(a, e);
  }

  const TWO_CENTS := Quote(2, 0)

  /** Deposit, buy one share, put a sell trigger on it, and order its sale: a clash waits to happen. */
  function BeforeClash(stock: Text, deposit: Text, order: Text, level: Text): (es: seq<Event>)
    ensures |es| == 6
  {
    [Add(deposit), Event.Buy(stock, order, 0, TWO_CENTS, TWO_CENTS), CommitBuy(0), SetSellAmount(stock, order, []),
     SetTriggerPrice(Kind.Sell, stock, level), Event.Sell(stock, order, 0, TWO_CENTS, TWO_CENTS)]
  }

  /** After the first three commands. */
  function ShareBought(stock: Text): Account
    requires ValidStock(stock)
  {
    EMPTY_ACCOUNT.(balance := 898, holdings := map[StockPath(stock) := 1])
  }

  function OrderedShare(stock: Text): Account
    requires ValidStock(stock)
  {
    Account(900, 0, Some(stock), 2, 1, 1, map[], Empty())
  }

  lemma BuyOneShare(stock: Text, deposit: Text, order: Text)
    requires ValidStock(stock) && Price(deposit) == 900 && Price(order) == 3
    ensures Step(EMPTY_ACCOUNT, Add(deposit)).after == EMPTY_ACCOUNT.(balance := 900)
    ensures Step(EMPTY_ACCOUNT.(balance := 900), Event.Buy(stock, order, 0, TWO_CENTS, TWO_CENTS)).after
         == OrderedShare(stock)
    ensures Step(OrderedShare(stock), CommitBuy(0)).after == ShareBought(stock)
  {
  }

  lemma OneShareOrdered(stock: Text, deposit: Text, order: Text, level: Text)
    requires ValidStock(stock) && Price(deposit) == 900 && Price(order) == 3
    ensures Formed(EMPTY_ACCOUNT) && AllPossible(BeforeClash(stock, deposit, order, level))
    ensures Run(EMPTY_ACCOUNT, BeforeClash(stock, deposit, order, level)[..2]) == OrderedShare(stock)
  {
    hide Step, WellFormed, ThreeDeep, Price, OrderSafe;
    var es := BeforeClash(stock, deposit, order, level);
    BuyOneShare(stock, deposit, order);
    EmptyAccountSafe();
    assert Run(EMPTY_ACCOUNT, es[..1]) == EMPTY_ACCOUNT.(balance := 900) by {
      assert es[..0] == [];
      RunOneMore(EMPTY_ACCOUNT, es, 0);
    }
    RunOneMore(EMPTY_ACCOUNT, es, 1);
  }

  lemma OneShareBought(stock: Text, deposit: Text, order: Text, level: Text)
    requires ValidStock(stock) && Price(deposit) == 900 && Price(order) == 3
    ensures Formed(EMPTY_ACCOUNT) && AllPossible(BeforeClash(stock, deposit, order, level))
    ensures Run(EMPTY_ACCOUNT, BeforeClash(stock, deposit, order, level)[..3]) == ShareBought(stock)
  {
    hide Step, WellFormed, ThreeDeep, Price;
    OneShareOrdered(stock, deposit, order, level);
    BuyOneShare(stock, deposit, order);
    RunOneMore(EMPTY_ACCOUNT, BeforeClash(stock, deposit, order, level), 2);
  }

  lemma TriggerOnShare(stock: Text, order: Text)
    requires ValidStock(stock) && Price(order) == 3
    ensures Step(ShareBought(stock), SetSellAmount(stock, order, [])).after
         == WithTrigger(ShareBought(stock), Kind.Sell, stock, Trigger([], 3, 0))
    ensures Safe(WithTrigger(ShareBought(stock), Kind.Sell, stock, Trigger([], 3, 0)))
  {
    assert Safe(ShareBought(stock));
    StepSafeExactly(ShareBought(stock), SetSellAmount(stock, order, []));
  }

  lemma TriggerPriced(stock: Text, level: Text) returns (a: Account)
    requires ValidStock(stock) && Price(level) == 1
    requires Safe(WithTrigger(ShareBought(stock), Kind.Sell, stock, Trigger([], 3, 0)))
    ensures var b := WithTrigger(ShareBought(stock), Kind.Sell, stock, Trigger([], 3, 0));
      a == Step(b, SetTriggerPrice(Kind.Sell, stock, level)).after
    ensures Safe(a) && a.buysell == 0 && Held(a, stock) == Some(1)
    ensures TriggerOf(a, Kind.Sell, stock) == Some(Trigger([], 3, 1))
  {
    var b := WithTrigger(ShareBought(stock), Kind.Sell, stock, Trigger([], 3, 0));
    StepSafeExactly(b, SetTriggerPrice(Kind.Sell, stock, level));
    a := Step(b, SetTriggerPrice(Kind.Sell, stock, level)).after;
  }

  /** A sale of the share is ordered; the trigger can now fire first. */
  lemma ClashWaits(a: Account, stock: Text, order: Text)
    requires Safe(a) && ValidStock(stock) && Price(order) == 3 && a.buysell == 0 && Held(a, stock) == Some(1)
    requires TriggerOf(a, Kind.Sell, stock) == Some(Trigger([], 3, 1))
    ensures var b := Step(a, Event.Sell(stock, order, 0, TWO_CENTS, TWO_CENTS)).after;
      Safe(b) && !Admissible(b, Fire(Kind.Sell, stock, 2))
  {
    StepSafeExactly(a, Event.Sell(stock, order, 0, TWO_CENTS, TWO_CENTS));
  }

  /** That situation is reachable from the empty account by six commands with ordinary amounts. */
  lemma ClashReachable(stock: Text, deposit: Text, order: Text, level: Text)
    requires ValidStock(stock) && Price(deposit) == 900 && Price(order) == 3 && Price(level) == 1
    ensures Formed(EMPTY_ACCOUNT) && AllPossible(BeforeClash(stock, deposit, order, level))
    ensures var a := Run(EMPTY_ACCOUNT, BeforeClash(stock, deposit, order, level));
      Safe(a) && !Admissible(a, Fire(Kind.Sell, stock, 2))
  {
    hide Step, WellFormed, ThreeDeep, Admissible, Put, Lookup, TriggerPath, StockPath;
    var es := BeforeClash(stock, deposit, order, level);
    OneShareBought(stock, deposit, order, level);
    TriggerOnShare(stock, order);
    var a := TriggerPriced(stock, level);
    RunOneMore(EMPTY_ACCOUNT, es, 3);
    RunOneMore(EMPTY_ACCOUNT, es, 4);
    RunOneMore(EMPTY_ACCOUNT, es, 5);
    assert es[..6] == es;
    ClashWaits(a, stock, order);
  }
}
