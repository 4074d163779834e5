/**
 * What every command and every firing that goes through leaves behind, said of the account before and after and not
 * in the terms that the steps are made of; how orders and commits work together; and why a command is refused.
 */
module AccountEffects {
  import opened Base
  import opened Names
  import opened Prices
  import opened TrieSpec
  import opened Accounts
  import opened AccountSafety
  import opened AccountMeaning
  import opened AccountMoney
  import opened Ledger

  /** The account has its order fields cleared. */
  predicate NoOrder(a: Account) {
    a.promptTime == 0 && a.stock == None && a.reserve == 0 && a.no == 0 && a.buysell == 0
  }

  predicate SameOrder(a: Account, b: Account) {
    b.promptTime == a.promptTime && b.stock == a.stock && b.reserve == a.reserve && b.no == a.no && b.buysell == a.buysell
  }

  /** Shares of the stock that are held; none if there is no holding. */
  function Shares(a: Account, stock: Text): int
    requires ValidStock(stock)
  {
    if StockPath(stock) in a.holdings then a.holdings[StockPath(stock)] else 0
  }

  /** The holding of the stock is that many shares, and all other holdings are as they were. */
  predicate OnlyHoldingSet(a: Account, b: Account, stock: Text, num: int)
    requires ValidStock(stock)
  {
    b.holdings == a.holdings[StockPath(stock) := num]
  }

  // ----- Orders -----

  /** The quote that was cached, or the one fetched anew when the cached one is older than 28 seconds. */
  predicate GoesBy(q: Quote, now: int, cached: Quote, fetched: Quote) {
    if now - cached.ts > 28000 then q == fetched else q == cached
  }

  /**
   * An order that goes through is at the price and time of the cached quote, if that is not older than 28 seconds,
   * and else of the quote fetched anew; the price is a cent at least.  It is all that changes.
   */
  lemma OrderGoesByQuote(a: Account, e: Event, q: Quote)
    requires NamesStock(a) && (e.Buy? || e.Sell?) && Step(a, e).reply == Done && GoesBy(q, e.now, e.cached, e.fetched)
    ensures var b := Step(a, e).after;
      && q.price >= 1 && b.promptTime == q.ts && b.reserve == q.price * b.no
      && b.stock == Some(e.stock) && ValidStock(e.stock) && b.buysell == (if e.Buy? then 1 else -1)
      && b.balance == a.balance && b.holdings == a.holdings && b.triggers == a.triggers
    ensures Step(a, e).writes == [] && Step(a, e).lost == map[] && a.buysell == 0
  {
    hide Price, CDiv, Sold;
  }

  // ----- Commits -----

  /** A commit of a buy adds the shares to what is held and takes the reserved sum from the balance. */
  lemma CommitBuyEffect(a: Account, e: Event)
    requires NamesStock(a) && e.CommitBuy? && Step(a, e).reply == Done
    ensures var o, b := Step(a, e), Step(a, e).after;
      && a.stock.Some? && ValidStock(a.stock.value)
      && OnlyHoldingSet(a, b, a.stock.value, Shares(a, a.stock.value) + a.no)
      && Shares(b, a.stock.value) == Shares(a, a.stock.value) + a.no
      && b.balance == a.balance - a.reserve && b.triggers == a.triggers && NoOrder(b)
      && RowsOf(o.writes) == [(CommittedBuy, a.reserve)] && o.lost == map[]
  {
    hide StockPath;
    var stock := a.stock.value;
    RowsOfThree(Step(a, e).writes[0], Step(a, e).writes[1], Step(a, e).writes[2]);
  }

  /** A commit of a sale takes the shares from what is held and adds the sum to the balance. */
  lemma CommitSellEffect(a: Account, e: Event)
    requires NamesStock(a) && e.CommitSell? && Step(a, e).reply == Done
    ensures var o, b := Step(a, e), Step(a, e).after;
      && a.stock.Some? && ValidStock(a.stock.value)
      && OnlyHoldingSet(a, b, a.stock.value, Shares(a, a.stock.value) - a.no)
      && Shares(b, a.stock.value) == Shares(a, a.stock.value) - a.no
      && b.balance == a.balance + a.reserve && b.triggers == a.triggers && NoOrder(b)
      && RowsOf(o.writes) == [(CommittedSell, a.reserve)] && o.lost == map[]
  {
    hide StockPath;
    RowsOfThree(Step(a, e).writes[0], Step(a, e).writes[1], Step(a, e).writes[2]);
  }

  lemma RowsOfThree(w: Statement, x: Statement, y: Statement)
    ensures RowsOf([w, x, y]) == RowsOf([w]) + RowsOf([x]) + RowsOf([y])
    ensures forall v: Statement :: RowsOf([v]) == if v.Record? then [(v.entry, Cents(v.amount))] else []
  {
    assert [w, x, y] == [w, x] + [y] && [w, x] == [w] + [x];
    RowsOfBoth([w, x], [y]);
    RowsOfBoth([w], [x]);
    forall v: Statement ensures RowsOf([v]) == if v.Record? then [(v.entry, Cents(v.amount))] else [] {
      var none: seq<Statement> := [v][..0];
      assert none == [] && RowsOf(none) == [];
    }
  }

  // ----- Order and commit -----

  /**
   * BUY and a COMMIT_BUY in time move, at the price of the quote, as many shares as the amount pays for: the money goes,
   * the shares come, and one row says so.
   */
  lemma BuyThenCommit(a: Account, e: Event, q: Quote, later: int)
    requires Safe(a) && e.Buy? && Step(a, e).reply == Done && GoesBy(q, e.now, e.cached, e.fetched) && later - q.ts <= 28000
    ensures var b := Step(a, e).after;
      && NamesStock(b)
      && var o, n := Step(b, CommitBuy(later)), b.no;
         && o.reply == Done && OnlyHoldingSet(a, o.after, e.stock, Shares(a, e.stock) + n)
         && o.after.balance == a.balance - q.price * n && o.after.triggers == a.triggers && NoOrder(o.after)
         && RowsOf(o.writes) == [(CommittedBuy, q.price * n)]
         && (Price(e.text) >= 0 ==> n >= 1 && q.price * n <= Price(e.text) < q.price * n + q.price)
  {
    OrderGoesByQuote(a, e, q);
    CommitGoesThrough(Step(a, e).after, CommitBuy(later));
    CommitBuyEffect(Step(a, e).after, CommitBuy(later));
    hide Step, Price, CDiv, Safe, StockPath;
    if Price(e.text) >= 0 { BuySpendsMost(a, e); }
  }

  /** SELL and a COMMIT_SELL in time move the fewest shares that bring in more than the amount, or all that are held. */
  lemma SellThenCommit(a: Account, e: Event, q: Quote, later: int)
    requires Safe(a) && e.Sell? && Step(a, e).reply == Done && GoesBy(q, e.now, e.cached, e.fetched) && later - q.ts <= 28000
    ensures var b := Step(a, e).after;
      && NamesStock(b)
      && var o, n := Step(b, CommitSell(later)), b.no;
         && o.reply == Done && OnlyHoldingSet(a, o.after, e.stock, Shares(a, e.stock) - n)
         && o.after.balance == a.balance + q.price * n && o.after.triggers == a.triggers && NoOrder(o.after)
         && RowsOf(o.writes) == [(CommittedSell, q.price * n)]
         && (Price(e.text) >= 0 ==>
               && 1 <= n <= Shares(a, e.stock) && q.price * n - q.price <= Price(e.text)
               && (q.price * n > Price(e.text) || n == Shares(a, e.stock)))
  {
    OrderGoesByQuote(a, e, q);
    SoldIsHeld(a, e);
    CommitGoesThrough(Step(a, e).after, CommitSell(later));
    CommitSellEffect(Step(a, e).after, CommitSell(later));
    hide Step, Price, CDiv, Sold, Safe, StockPath;
    if Price(e.text) >= 0 { SellRaisesEnough(a, e); }
  }

  lemma SoldIsHeld(a: Account, e: Event)
    requires NamesStock(a) && e.Sell? && Step(a, e).reply == Done
    ensures ValidStock(e.stock) && StockPath(e.stock) in a.holdings
  {
    hide Price, CDiv, Sold;
  }

  lemma CommitGoesThrough(a: Account, e: Event)
    requires NamesStock(a) && (e.CommitBuy? || e.CommitSell?) && e.now - a.promptTime <= 28000
    requires a.buysell == if e.CommitBuy? then 1 else -1
    requires StockPath(a.stock.value) in a.holdings || e.CommitBuy?
    ensures Step(a, e).reply == Done
  {
  }

  /** An order by a quote that is good when it is made can be committed at that very moment. */
  lemma FreshOrderCommits(a: Account, e: Event)
    requires Safe(a) && (e.Buy? || e.Sell?) && Step(a, e).reply == Done
    requires e.now - e.cached.ts > 28000 ==> e.now - e.fetched.ts <= 28000
    ensures var b := Step(a, e).after;
      NamesStock(b) && Step(b, if e.Buy? then CommitBuy(e.now) else CommitSell(e.now)).reply == Done
  {
    hide Step, Price, Safe;
    var q := if e.now - e.cached.ts > 28000 then e.fetched else e.cached;
    if e.Buy? { BuyThenCommit(a, e, q, e.now); } else { SellThenCommit(a, e, q, e.now); }
  }

  // ----- Firings -----

  /** A buy trigger is ripe below its price, if its amount pays for a share; a sell one above its price, if that is set. */
  predicate Ripe(a: Account, kind: Kind, stock: Text, price: int)
    requires ValidStock(stock)
  {
    var key := TriggerPath(kind, stock);
    && key in a.triggers.vals
    && var t := a.triggers.vals[key];
       if kind == Kind.Buy then price < t.trig && price <= t.amount
       else price > t.trig && t.trig != 0 && Shares(a, stock) != 0
  }

  /** A trigger fires exactly if it is there and ripe.  Otherwise nothing happens. */
  lemma FiresExactly(a: Account, e: Event)
    requires Safe(a) && Possible(e) && e.Fire?
    ensures var o := Step(a, e);
      && (o.reply == Done <==> Ripe(a, e.kind, e.stock, e.price))
      && (o.reply != Done ==> o == Outcome(a, Skipped, [], map[]))
  {
    hide TriggerPath, StockPath, RemoveShort, Casualties, LostWith, Sold, WellFormed, ThreeDeep;
    if TriggerPath(e.kind, e.stock) in a.triggers.vals {
      DivSign(a.triggers.vals[TriggerPath(e.kind, e.stock)].amount, e.price);
      DivBounds(a.triggers.vals[TriggerPath(e.kind, e.stock)].amount, e.price);
    }
  }

  /** Shares came or went, and were paid at the price, those bought out of the amount that their trigger reserved. */
  predicate Paid(a: Account, b: Account, kind: Kind, stock: Text, price: int)
    requires ValidStock(stock)
  {
    var key := TriggerPath(kind, stock);
    && key in a.triggers.vals
    && if kind == Kind.Buy then
         var n := Shares(b, stock) - Shares(a, stock);
         n >= 1 && b.balance == a.balance + (a.triggers.vals[key].amount - price * n)
       else
         var n := Shares(a, stock) - Shares(b, stock);
         n >= 1 && b.balance == a.balance + price * n
  }

  /** What a removal of a trigger leaves in the trie. */
  lemma RemovalEffect(a: Account, key: Path)
    requires Formed(a) && |key| == 3 && key in a.triggers.vals
    ensures WithoutTrigger(a, key).triggers.vals == a.triggers.vals - {key} - LostWith(a, key).Keys
  {
    hide WellFormed, ThreeDeep, RemoveShort;
    NothingBelow(a, key);
    RemoveShortEffect(a.triggers, key, TRIGGER_WIDTH);
    assert LostWith(a, key).Keys == Casualties(a.triggers, key);
  }

  /** A buy that fires turns its amount into whole shares at the quote, and gives back less than the price of one. */
  lemma FireBuyEffect(a: Account, e: Event)
    requires Safe(a) && Possible(e) && e.Fire? && e.kind == Kind.Buy && Step(a, e).reply == Done
    ensures var o, b, key := Step(a, e), Step(a, e).after, TriggerPath(Kind.Buy, e.stock);
      && key in a.triggers.vals
      && var t, n := a.triggers.vals[key], Shares(b, e.stock) - Shares(a, e.stock);
         && e.price < t.trig && n >= 1 && e.price * n <= t.amount < e.price * n + e.price
         && OnlyHoldingSet(a, b, e.stock, Shares(a, e.stock) + n) && b.balance == a.balance + (t.amount - e.price * n)
         && SameOrder(a, b) && b.triggers.vals == a.triggers.vals - {key} - o.lost.Keys
         && RowsOf(o.writes) == [(FiredBuy, e.price * n)]
    ensures Paid(a, Step(a, e).after, Kind.Buy, e.stock, e.price)
  {
    hide TriggerPath, StockPath, RemoveShort, Casualties, LostWith, CDiv, WellFormed, ThreeDeep;
    var t := TriggerOf(a, Kind.Buy, e.stock).value;
    var n := CDiv(t.amount, e.price);
    DivBounds(t.amount, e.price);
    assert e.price * (n + 1) == e.price * n + e.price;
    RemovalEffect(a, TriggerPath(Kind.Buy, e.stock));
    RowsOfFour(Step(a, e).writes[0], Step(a, e).writes[1], Step(a, e).writes[2], Step(a, e).writes[3]);
  }

  /**
   * A sale that fires sells the fewest shares that bring in more than its amount at the quote, or all that are held,
   * and is paid exactly the quote for each.
   */
  lemma FireSellEffect(a: Account, e: Event)
    requires Safe(a) && Possible(e) && e.Fire? && e.kind == Kind.Sell && Step(a, e).reply == Done
    ensures var o, b, key := Step(a, e), Step(a, e).after, TriggerPath(Kind.Sell, e.stock);
      && key in a.triggers.vals
      && var t, n := a.triggers.vals[key], Shares(a, e.stock) - Shares(b, e.stock);
         && e.price > t.trig != 0 && 1 <= n <= Shares(a, e.stock)
         && e.price * n - e.price <= t.amount && (e.price * n > t.amount || n == Shares(a, e.stock))
         && OnlyHoldingSet(a, b, e.stock, Shares(a, e.stock) - n) && b.balance == a.balance + e.price * n
         && SameOrder(a, b) && b.triggers.vals == a.triggers.vals - {key} - o.lost.Keys
         && RowsOf(o.writes) == [(FiredSell, e.price * n)]
    ensures Paid(a, Step(a, e).after, Kind.Sell, e.stock, e.price)
  {
    hide TriggerPath, StockPath, RemoveShort, Casualties, LostWith, CDiv, Sold, WellFormed, ThreeDeep;
    var t := TriggerOf(a, Kind.Sell, e.stock).value;
    SoldMeans(t.amount, e.price, HeldOrNone(a, e.stock));
    RemovalEffect(a, TriggerPath(Kind.Sell, e.stock));
    RowsOfFour(Step(a, e).writes[0], Step(a, e).writes[1], Step(a, e).writes[2], Step(a, e).writes[3]);
  }

  /** Whatever fires is paid at the quote. */
  lemma FiringPaysPrice(a: Account, e: Event)
    requires Safe(a) && Possible(e) && e.Fire? && Step(a, e).reply == Done
    ensures Paid(a, Step(a, e).after, e.kind, e.stock, e.price)
  {
    assert NamesStock(a);
    hide Step, Safe, Paid;
    if e.kind == Kind.Buy { FireBuyEffect(a, e); } else { FireSellEffect(a, e); }
  }

  lemma RowsOfFour(w: Statement, x: Statement, y: Statement, z: Statement)
    ensures RowsOf([w, x, y, z]) == RowsOf([w]) + RowsOf([x]) + RowsOf([y]) + RowsOf([z])
    ensures forall v: Statement :: RowsOf([v]) == if v.Record? then [(v.entry, Cents(v.amount))] else []
  {
    assert [w, x, y, z] == [w, x, y] + [z];
    RowsOfBoth([w, x, y], [z]);
    RowsOfThree(w, x, y);
  }

  // ----- Deposits, cancellations and triggers -----

  /** ADD raises the balance by what the text is read as; the cancels clear the order.  Nothing else changes. */
  lemma SimpleEffects(a: Account, e: Event)
    requires NamesStock(a) && (e.Add? || e.CancelBuy? || e.CancelSell?) && Step(a, e).reply == Done
    ensures var o, b := Step(a, e), Step(a, e).after;
      && b.balance == a.balance + (if e.Add? then Price(e.text) else 0)
      && b.holdings == a.holdings && b.triggers == a.triggers && (if e.Add? then SameOrder(a, b) else NoOrder(b))
      && RowsOf(o.writes) == if e.Add? then [(Deposit, Price(e.text))] else []
  {
    hide Price;
    if e.Add? { RowsOfTwo(Step(a, e).writes[0], Step(a, e).writes[1]); }
  }

  lemma RowsOfTwo(w: Statement, x: Statement)
    ensures RowsOf([w, x]) == RowsOf([w]) + RowsOf([x])
    ensures forall v: Statement :: RowsOf([v]) == if v.Record? then [(v.entry, Cents(v.amount))] else []
  {
    RowsOfThree(w, x, x);
    assert [w, x] == [w] + [x];
    RowsOfBoth([w], [x]);
  }

  /** A new trigger is under its key with the typed amount and no price; a buy's amount is taken from the balance. */
  lemma SetAmountEffect(a: Account, e: Event)
    requires NamesStock(a) && (e.SetBuyAmount? || e.SetSellAmount?) && Step(a, e).reply == Done
    ensures var kind, b := if e.SetBuyAmount? then Kind.Buy else Kind.Sell, Step(a, e).after;
      && ValidStock(e.stock) && TriggerPath(kind, e.stock) !in a.triggers.vals
      && b.triggers.vals == a.triggers.vals[TriggerPath(kind, e.stock) := Trigger(e.transID, Price(e.text), 0)]
      && b.balance == a.balance - (if e.SetBuyAmount? then Price(e.text) else 0)
      && b.holdings == a.holdings && SameOrder(a, b) && RowsOf(Step(a, e).writes) == []
  {
    hide Price, TriggerPath, StockPath;
    var ws := Step(a, e).writes;
    if e.SetBuyAmount? { RowsOfTwo(ws[0], ws[1]); } else { RowsOfTwo(ws[0], ws[0]); }
  }

  /** A trigger's price is replaced by the typed one, and nothing else of it. */
  lemma SetPriceEffect(a: Account, e: Event)
    requires NamesStock(a) && e.SetTriggerPrice? && Step(a, e).reply == Done
    ensures var b := Step(a, e).after;
      && ValidStock(e.stock) && TriggerPath(e.kind, e.stock) in a.triggers.vals
      && (var key, t := TriggerPath(e.kind, e.stock), a.triggers.vals[TriggerPath(e.kind, e.stock)];
          && b.triggers.vals == a.triggers.vals[key := Trigger(t.transID, t.amount, Price(e.text))]
          && b.triggers.nodes == a.triggers.nodes)
      && b.balance == a.balance && b.holdings == a.holdings && SameOrder(a, b) && RowsOf(Step(a, e).writes) == []
  {
    hide Price, TriggerPath, StockPath;
    RowsOfTwo(Step(a, e).writes[0], Step(a, e).writes[0]);
  }

  /** A cancelled trigger is gone, with those that it takes along; a buy's amount is back in the balance. */
  lemma CancelSetEffect(a: Account, e: Event)
    requires Formed(a) && (e.CancelSetBuy? || e.CancelSetSell?) && Step(a, e).reply == Done
    ensures var kind, o, b := if e.CancelSetBuy? then Kind.Buy else Kind.Sell, Step(a, e), Step(a, e).after;
      && ValidStock(e.stock) && TriggerPath(kind, e.stock) in a.triggers.vals
      && b.triggers.vals == a.triggers.vals - {TriggerPath(kind, e.stock)} - o.lost.Keys
      && b.balance == a.balance + (if e.CancelSetBuy? then a.triggers.vals[TriggerPath(kind, e.stock)].amount else 0)
      && b.holdings == a.holdings && SameOrder(a, b) && RowsOf(o.writes) == []
  {
    hide TriggerPath, StockPath, RemoveShort, Casualties, LostWith, WellFormed, ThreeDeep;
    var ws := Step(a, e).writes;
    RemovalEffect(a, TriggerPath(if e.CancelSetBuy? then Kind.Buy else Kind.Sell, e.stock));
    if e.CancelSetBuy? { RowsOfTwo(ws[0], ws[1]); } else { RowsOfTwo(ws[0], ws[0]); }
  }

  // ----- Replies -----

  /** A reason to refuse a command, and the code of the reply. */
  datatype Check = Check(fails: bool, code: int)

  /** Done if no check fails, else the code of the first that does. */
  predicate Answers(cs: seq<Check>, reply: Reply) {
    && (reply == Done <==> forall i :: 0 <= i < |cs| ==> !cs[i].fails)
    && (forall i :: 0 <= i < |cs| && cs[i].fails && (forall j :: 0 <= j < i ==> !cs[j].fails) ==> reply == Failed(cs[i].code))
  }

  /** The checks of each command, in their order; `price` is that of the quote that an order goes by. */
  function ChecksOf(a: Account, e: Event, price: int): (cs: seq<Check>)
    requires NamesStock(a)
  {
    match e
    case Add(text) => [Check(Price(text) == -1, -19)]
    case Buy(stock, text, _, _, _) =>
      [Check(!ValidStock(stock), -17), Check(Price(text) == -1, -19), Check(a.buysell != 0, -10),
       Check(a.balance < Price(text), -14), Check(price < 1, -21), Check(-price < Price(text) < price, -11)]
    case Sell(stock, text, _, _, _) =>
      [Check(!ValidStock(stock), -17), Check(Price(text) == -1, -19), Check(ValidStock(stock) && Shares(a, stock) == 0, -15),
       Check(a.buysell != 0, -10), Check(price < 1, -21)]
    case CommitBuy(now) => [Check(a.buysell != 1, -12), Check(now - a.promptTime > 28000, -13)]
    case CommitSell(now) =>
      [Check(a.buysell != -1, -12), Check(now - a.promptTime > 28000, -13),
       Check(a.buysell != 0 && StockPath(a.stock.value) !in a.holdings, -15)]
    case CancelBuy => [Check(a.buysell != 1, -12)]
    case CancelSell => [Check(a.buysell != -1, -12)]
    case SetBuyAmount(stock, text, _) =>
      [Check(!ValidStock(stock), -17), Check(Price(text) == -1, -19), Check(a.buysell != 0, -10),
       Check(a.balance < Price(text), -14), Check(ValidStock(stock) && TriggerPath(Kind.Buy, stock) in a.triggers.vals, -16)]
    case SetSellAmount(stock, text, _) =>
      [Check(!ValidStock(stock), -17), Check(Price(text) == -1, -19), Check(a.buysell != 0, -10),
       Check(ValidStock(stock) && StockPath(stock) !in a.holdings, -15),
       Check(ValidStock(stock) && TriggerPath(Kind.Sell, stock) in a.triggers.vals, -16)]
    case SetTriggerPrice(kind, stock, text) =>
      [Check(!ValidStock(stock), -17), Check(Price(text) == -1, -19),
       Check(ValidStock(stock) && TriggerPath(kind, stock) !in a.triggers.vals, -22)]
    case CancelSetBuy(stock) =>
      [Check(!ValidStock(stock), -17), Check(ValidStock(stock) && TriggerPath(Kind.Buy, stock) !in a.triggers.vals, -22)]
    case CancelSetSell(stock) =>
      [Check(!ValidStock(stock), -17), Check(ValidStock(stock) && TriggerPath(Kind.Sell, stock) !in a.triggers.vals, -22)]
    case Fire(_, _, _) => []
  }

  /** Every command is refused for the first of its checks that fails, and done if none does. */
  lemma RepliesByChecks(a: Account, e: Event, q: Quote)
    requires NamesStock(a) && !e.Fire? && (e.Buy? || e.Sell? ==> GoesBy(q, e.now, e.cached, e.fetched))
    ensures Answers(ChecksOf(a, e, q.price), Step(a, e).reply)
  {
    hide Step, ChecksOf, Answers;
    match e
    case Buy(_, _, _, _, _) => BuyByChecks(a, e, q);
    case Sell(_, _, _, _, _) => SellByChecks(a, e, q);
    case CommitBuy(_) => CommitByChecks(a, e, q);
    case CommitSell(_) => CommitByChecks(a, e, q);
    case SetBuyAmount(_, _, _) => SettingByChecks(a, e, q);
    case SetSellAmount(_, _, _) => SettingByChecks(a, e, q);
    case SetTriggerPrice(_, _, _) => SettingByChecks(a, e, q);
    case _ => OthersByChecks(a, e, q);
  }

  lemma SellByChecks(a: Account, e: Event, q: Quote)
    requires e.Sell? && GoesBy(q, e.now, e.cached, e.fetched) && NamesStock(a)
    ensures Answers(ChecksOf(a, e, q.price), Step(a, e).reply)
  {
    hide Price, CDiv, Sold, StockPath;
    FirstOfSix(ChecksOf(a, e, q.price), Step(a, e).reply);
  }

  lemma CommitByChecks(a: Account, e: Event, q: Quote)
    requires (e.CommitBuy? || e.CommitSell?) && NamesStock(a)
    ensures Answers(ChecksOf(a, e, q.price), Step(a, e).reply)
  {
    hide StockPath;
    FirstOfSix(ChecksOf(a, e, q.price), Step(a, e).reply);
  }

  lemma SettingByChecks(a: Account, e: Event, q: Quote)
    requires (e.SetBuyAmount? || e.SetSellAmount? || e.SetTriggerPrice?) && NamesStock(a)
    ensures Answers(ChecksOf(a, e, q.price), Step(a, e).reply)
  {
    hide Price, TriggerPath, StockPath, Put;
    FirstOfSix(ChecksOf(a, e, q.price), Step(a, e).reply);
  }

  lemma OthersByChecks(a: Account, e: Event, q: Quote)
    requires (e.Add? || e.CancelBuy? || e.CancelSell? || e.CancelSetBuy? || e.CancelSetSell?) && NamesStock(a)
    ensures Answers(ChecksOf(a, e, q.price), Step(a, e).reply)
  {
    hide Price, TriggerPath, RemoveShort, Casualties, LostWith;
    FirstOfSix(ChecksOf(a, e, q.price), Step(a, e).reply);
  }

  /** There are never more than six checks. */
  lemma FirstOfSix(cs: seq<Check>, reply: Reply)
    requires 0 < |cs| <= 6
    requires reply ==
      if cs[0].fails then Failed(cs[0].code)
      else if |cs| > 1 && cs[1].fails then Failed(cs[1].code)
      else if |cs| > 2 && cs[2].fails then Failed(cs[2].code)
      else if |cs| > 3 && cs[3].fails then Failed(cs[3].code)
      else if |cs| > 4 && cs[4].fails then Failed(cs[4].code)
      else if |cs| > 5 && cs[5].fails then Failed(cs[5].code)
      else Done
    ensures Answers(cs, reply)
  {
  }

  lemma BuyByChecks(a: Account, e: Event, q: Quote)
    requires e.Buy? && GoesBy(q, e.now, e.cached, e.fetched) && NamesStock(a)
    ensures Answers(ChecksOf(a, e, q.price), Step(a, e).reply)
  {
    hide Price, CDiv;
    var cs := ChecksOf(a, e, q.price);
    if q.price >= 1 { DivSign(Price(e.text), q.price); }
    assert cs[5].fails <==> -q.price < Price(e.text) < q.price;
    FirstOfSix(cs, Step(a, e).reply);
  }
}
