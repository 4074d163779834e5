/**
 * The account of one user and everything that changes it: the commands of `command_handler` and the firing of
 * a trigger by `trigger_handler`.  Each runs with the user's lock held, so each is one step.
 */
module Accounts {
  import opened Base
  import opened Names
  import opened Prices
  import opened TrieSpec

  /** How long a quote stays good, in milliseconds. */
  const QUOTE_TO := 28000

  datatype Trigger = Trigger(transID: Text, amount: int, trig: int)

  /** The pending order is spread over five fields: `buysell` is 1 for a buy, -1 for a sell, 0 for none. */
  datatype Account = Account(
    balance: int, promptTime: int, stock: Option<Text>, reserve: int, no: int, buysell: int,
    holdings: map<Path, int>, triggers: Shape<Trigger>)

  const EMPTY_ACCOUNT := Account(0, 0, None, 0, 0, 0, map[], Empty())

  datatype Quote = Quote(price: int, ts: int)

  /** An amount in an SQL statement: printed from a number of cents, or passed on as the user typed it. */
  datatype Money = Printed(cents: int) | Raw(text: Text)

  /** The kinds of transaction rows. */
  datatype Entry = Deposit | CommittedBuy | CommittedSell | FiredBuy | FiredSell

  datatype Statement =
    | SetBalance(balance: Money)
    | NewHolding(stock: Text, num: int)
    | SetHolding(stock: Text, num: int)
    | Record(entry: Entry, amount: Money)
    | NewTrigger(transID: Text, stock: Text, kind: Kind, reserved: Money)
    | SetTrigger(stock: Text, kind: Kind, value: Money)
    | DropTrigger(stock: Text, kind: Kind)

  datatype Reply = Done | Failed(code: int) | Skipped

  /**
   * What a step leaves behind: the account, the reply, the statements sent to the database, and the
   * triggers that the removal of another one took out of the trie.
   */
  datatype Outcome = Outcome(after: Account, reply: Reply, writes: seq<Statement>, lost: map<Path, Trigger>)

  datatype Event =
    | Add(text: Text)
    | Buy(stock: Text, text: Text, now: int, cached: Quote, fetched: Quote)
    | Sell(stock: Text, text: Text, now: int, cached: Quote, fetched: Quote)
    | CommitBuy(now: int)
    | CommitSell(now: int)
    | CancelBuy
    | CancelSell
    | SetBuyAmount(stock: Text, text: Text, transID: Text)
    | SetSellAmount(stock: Text, text: Text, transID: Text)
    | SetTriggerPrice(kind: Kind, stock: Text, text: Text)
    | CancelSetBuy(stock: Text)
    | CancelSetSell(stock: Text)
    | Fire(kind: Kind, stock: Text, price: int)

  // ----- Parts of the account -----

  function Cleared(a: Account): Account {
    a.(promptTime := 0, stock := None, reserve := 0, no := 0, buysell := 0)
  }

  function Held(a: Account, stock: Text): Option<int>
    requires ValidStock(stock)
  {
    var p := StockPath(stock);
    if p in a.holdings then Some(a.holdings[p]) else None
  }

  function SetHeld(a: Account, stock: Text, num: int): Account
    requires ValidStock(stock)
  {
    a.(holdings := a.holdings[StockPath(stock) := num])
  }

  function HoldingWrite(a: Account, stock: Text, num: int): Statement
    requires ValidStock(stock)
  {
    if Held(a, stock).None? then NewHolding(stock, num) else SetHolding(stock, num)
  }

  function HeldOrNone(a: Account, stock: Text): int
    requires ValidStock(stock)
  {
    if Held(a, stock).None? then 0 else Held(a, stock).value
  }

  function TriggerOf(a: Account, kind: Kind, stock: Text): Option<Trigger>
    requires ValidStock(stock)
  {
    Lookup(a.triggers, TriggerPath(kind, stock))
  }

  ghost function WithoutTrigger(a: Account, key: Path): Account
    requires key != []
  {
    a.(triggers := RemoveShort(a.triggers, key))
  }

  /** The triggers that the removal takes out of the trie besides the one it is for. */
  ghost function LostWith(a: Account, key: Path): map<Path, Trigger>
    requires key != []
  {
    map k | k in Casualties(a.triggers, key) :: a.triggers.vals[k]
  }

  /** The quote an order uses: a cached one that has timed out is fetched anew. */
  function Current(now: int, cached: Quote, fetched: Quote): Quote {
    if now - cached.ts > QUOTE_TO then fetched else cached
  }

  function Fail(a: Account, code: int): Outcome {
    Outcome(a, Failed(code), [], map[])
  }

  // ----- The commands -----

  function AddStep(a: Account, text: Text): Outcome {
    var prc := Price(text);
    if prc == -1 then Fail(a, -19)
    else
      var b := a.balance + prc;
      Outcome(a.(balance := b), Done, [SetBalance(Printed(b)), Record(Deposit, Raw(text))], map[])
  }

  function BuyStep(a: Account, stock: Text, text: Text, now: int, cached: Quote, fetched: Quote): Outcome {
    var prc, quote := Price(text), Current(now, cached, fetched);
    if !ValidStock(stock) then Fail(a, -17)
    else if prc == -1 then Fail(a, -19)
    else if a.buysell != 0 then Fail(a, -10)
    else if a.balance < prc then Fail(a, -14)
    else if quote.price < 1 then Fail(a, -21)
    else
      var n := CDiv(prc, quote.price);
      if n == 0 then Fail(a, -11)
      else
        Outcome(a.(promptTime := quote.ts, stock := Some(stock), reserve := quote.price * n, no := n, buysell := 1),
                Done, [], map[])
  }

  /** How many shares are sold: one more than the amount pays for, but not more than there are. */
  function Sold(amount: int, price: int, held: int): int
    requires price > 0
  {
    var n := CDiv(amount, price) + 1;
    if held < n then held else n
  }

  function SellStep(a: Account, stock: Text, text: Text, now: int, cached: Quote, fetched: Quote): Outcome {
    var prc, quote := Price(text), Current(now, cached, fetched);
    if !ValidStock(stock) then Fail(a, -17)
    else if prc == -1 then Fail(a, -19)
    else if HeldOrNone(a, stock) == 0 then Fail(a, -15)
    else if a.buysell != 0 then Fail(a, -10)
    else if quote.price < 1 then Fail(a, -21)
    else
      var n := Sold(prc, quote.price, HeldOrNone(a, stock));
      Outcome(a.(promptTime := quote.ts, stock := Some(stock), reserve := quote.price * n, no := n, buysell := -1),
              Done, [], map[])
  }

  /** A pending order names a stock that was validated when the order was made. */
  predicate NamesStock(a: Account) {
    a.buysell != 0 ==> a.stock.Some? && ValidStock(a.stock.value)
  }

  function CommitBuyStep(a: Account, now: int): Outcome
    requires NamesStock(a)
  {
    if a.buysell != 1 then Fail(a, -12)
    else if now - a.promptTime > QUOTE_TO then Outcome(Cleared(a), Failed(-13), [], map[])
    else
      var stock := a.stock.value;
      var b, num := a.balance - a.reserve, HeldOrNone(a, stock) + a.no;
      Outcome(Cleared(SetHeld(a, stock, num)).(balance := b), Done,
              [HoldingWrite(a, stock, num), SetBalance(Printed(b)), Record(CommittedBuy, Printed(a.reserve))], map[])
  }

  function CommitSellStep(a: Account, now: int): Outcome
    requires NamesStock(a)
  {
    if a.buysell != -1 then Fail(a, -12)
    else if now - a.promptTime > QUOTE_TO then Outcome(Cleared(a), Failed(-13), [], map[])
    else if Held(a, a.stock.value).None? then Fail(a, -15)
    else
      var stock := a.stock.value;
      var b, num := a.balance + a.reserve, HeldOrNone(a, stock) - a.no;
      Outcome(Cleared(SetHeld(a, stock, num)).(balance := b), Done,
              [SetBalance(Printed(b)), SetHolding(stock, num), Record(CommittedSell, Printed(a.reserve))], map[])
  }

  function CancelStep(a: Account, side: int): Outcome {
    if a.buysell != side then Fail(a, -12) else Outcome(Cleared(a), Done, [], map[])
  }

  function WithTrigger(a: Account, kind: Kind, stock: Text, t: Trigger): Account
    requires ValidStock(stock)
  {
    a.(triggers := Put(a.triggers, TriggerPath(kind, stock), t))
  }

  function SetBuyAmountStep(a: Account, stock: Text, text: Text, transID: Text): Outcome {
    var prc := Price(text);
    if !ValidStock(stock) then Fail(a, -17)
    else if prc == -1 then Fail(a, -19)
    else if a.buysell != 0 then Fail(a, -10)
    else if a.balance < prc then Fail(a, -14)
    else if TriggerOf(a, Kind.Buy, stock).Some? then Fail(a, -16)
    else
      var b := a.balance - prc;
      Outcome(WithTrigger(a, Kind.Buy, stock, Trigger(transID, prc, 0)).(balance := b), Done,
              [SetBalance(Printed(b)), NewTrigger(transID, stock, Kind.Buy, Raw(text))], map[])
  }

  function SetSellAmountStep(a: Account, stock: Text, text: Text, transID: Text): Outcome {
    var prc := Price(text);
    if !ValidStock(stock) then Fail(a, -17)
    else if prc == -1 then Fail(a, -19)
    else if a.buysell != 0 then Fail(a, -10)
    else if Held(a, stock).None? then Fail(a, -15)
    else if TriggerOf(a, Kind.Sell, stock).Some? then Fail(a, -16)
    else
      Outcome(WithTrigger(a, Kind.Sell, stock, Trigger(transID, prc, 0)), Done,
              [NewTrigger(transID, stock, Kind.Sell, Raw(text))], map[])
  }

  function SetTriggerStep(a: Account, kind: Kind, stock: Text, text: Text): Outcome {
    var prc := Price(text);
    if !ValidStock(stock) then Fail(a, -17)
    else if prc == -1 then Fail(a, -19)
    else if TriggerOf(a, kind, stock).None? then Fail(a, -22)
    else
      var key := TriggerPath(kind, stock);
      var t := a.triggers.vals[key].(trig := prc);
      Outcome(a.(triggers := a.triggers.(vals := a.triggers.vals[key := t])), Done,
              [SetTrigger(stock, kind, Raw(text))], map[])
  }

  ghost function CancelSetBuyStep(a: Account, stock: Text): Outcome {
    if !ValidStock(stock) then Fail(a, -17)
    else if TriggerOf(a, Kind.Buy, stock).None? then Fail(a, -22)
    else
      var key := TriggerPath(Kind.Buy, stock);
      var b := a.balance + a.triggers.vals[key].amount;
      Outcome(WithoutTrigger(a, key).(balance := b), Done,
              [SetBalance(Printed(b)), DropTrigger(stock, Kind.Buy)], LostWith(a, key))
  }

  ghost function CancelSetSellStep(a: Account, stock: Text): Outcome {
    if !ValidStock(stock) then Fail(a, -17)
    else if TriggerOf(a, Kind.Sell, stock).None? then Fail(a, -22)
    else
      var key := TriggerPath(Kind.Sell, stock);
      Outcome(WithoutTrigger(a, key), Done, [DropTrigger(stock, Kind.Sell)], LostWith(a, key))
  }

  // ----- The firing of a trigger -----

  function Ignore(a: Account): Outcome {
    Outcome(a, Skipped, [], map[])
  }

  ghost function FireBuyStep(a: Account, stock: Text, price: int): Outcome
    requires ValidStock(stock) && price >= 1
  {
    var t := TriggerOf(a, Kind.Buy, stock);
    if t.None? || price >= t.value.trig then Ignore(a)
    else
      var n := CDiv(t.value.amount, price);
      if n == 0 then Ignore(a)
      else
        var key := TriggerPath(Kind.Buy, stock);
        var cost, num := price * n, HeldOrNone(a, stock) + n;
        var b := a.balance + t.value.amount - cost;
        Outcome(WithoutTrigger(SetHeld(a, stock, num), key).(balance := b), Done,
                [HoldingWrite(a, stock, num), SetBalance(Printed(b)), Record(FiredBuy, Printed(cost)),
                 DropTrigger(stock, Kind.Buy)], LostWith(a, key))
  }

  ghost function FireSellStep(a: Account, stock: Text, price: int): Outcome
    requires ValidStock(stock) && price >= 1
  {
    var t := TriggerOf(a, Kind.Sell, stock);
    if t.None? || price <= t.value.trig || t.value.trig == 0 || HeldOrNone(a, stock) == 0 then Ignore(a)
    else
      var key := TriggerPath(Kind.Sell, stock);
      var n := Sold(t.value.amount, price, HeldOrNone(a, stock));
      var gain, num := price * n, HeldOrNone(a, stock) - n;
      var b := a.balance + gain;
      Outcome(WithoutTrigger(SetHeld(a, stock, num), key).(balance := b), Done,
              [SetHolding(stock, num), SetBalance(Printed(b)), Record(FiredSell, Printed(gain)),
               DropTrigger(stock, Kind.Sell)], LostWith(a, key))
  }

  /** A sweep only examines triggers of validated stocks, and only at a price of at least one cent. */
  predicate Possible(e: Event) {
    e.Fire? ==> ValidStock(e.stock) && e.price >= 1
  }

  ghost function Step(a: Account, e: Event): Outcome
    requires NamesStock(a) && Possible(e)
  {
    match e
    case Add(text) => AddStep(a, text)
    case Buy(stock, text, now, cached, fetched) => BuyStep(a, stock, text, now, cached, fetched)
    case Sell(stock, text, now, cached, fetched) => SellStep(a, stock, text, now, cached, fetched)
    case CommitBuy(now) => CommitBuyStep(a, now)
    case CommitSell(now) => CommitSellStep(a, now)
    case CancelBuy => CancelStep(a, 1)
    case CancelSell => CancelStep(a, -1)
    case SetBuyAmount(stock, text, transID) => SetBuyAmountStep(a, stock, text, transID)
    case SetSellAmount(stock, text, transID) => SetSellAmountStep(a, stock, text, transID)
    case SetTriggerPrice(kind, stock, text) => SetTriggerStep(a, kind, stock, text)
    case CancelSetBuy(stock) => CancelSetBuyStep(a, stock)
    case CancelSetSell(stock) => CancelSetSellStep(a, stock)
    case Fire(kind, stock, price) => if kind == Kind.Buy then FireBuyStep(a, stock, price) else FireSellStep(a, stock, price)
  }
}
