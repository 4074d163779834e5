/** The rows of one user in the database, and their agreement with the account in memory. */
module Mirror {
  import opened Base
  import opened Names
  import opened Prices
  import opened TrieSpec
  import opened Rows
  import opened Accounts
  import opened AccountSafety
  import opened AccountLosses

  /** How the database reads the short texts that are not plain decimals, such as "-.5"; nothing is assumed of it. */
  type Reader = Text -> Option<int>

  /**
   * The account row, the holding and trigger rows, and the transaction rows.  A stock column stands here as the
   * path that the name spells, which is different for different names.
   */
  datatype Tables = Tables(
    balance: Option<int>, holdings: seq<Row<Path, int>>, triggers: seq<Row<Path, Trigger>>, records: seq<(Entry, int)>,
    odd: Reader)

  /** Tables without any rows. */
  function NoRows(odd: Reader): Tables {
    Tables(None, [], [], [], odd)
  }

  /** A short text that is no plain decimal. */
  predicate Odd(text: Text) {
    Short(text) && !Digits([text[0], text[2]])
  }

  /** The number of cents that the database reads from a text, if it reads one. */
  function Reads(odd: Reader, text: Text): Option<int> {
    if Odd(text) then odd(text) else SqlCents(text)
  }

  /** A plain decimal with two decimals, or with one that is zero. */
  predicate TwoDecimals(text: Text) {
    SqlCents(text).Some? && (PointAt(text) == |text| - 3 || text[|text| - 1] == DIGIT_ZERO)
  }

  /** Any text but an odd one is read alike by database and server exactly if it is such a decimal. */
  lemma ReadAlikeExactly(odd: Reader, text: Text)
    requires !Odd(text)
    ensures Reads(odd, text) == Some(Price(text)) <==> TwoDecimals(text)
  {
    if SqlCents(text).Some? { SqlAgreement(text); }
  }

  /** The number that the database reads in a statement, if it reads one. */
  function Sql(odd: Reader, m: Money): Option<int> {
    Reads(odd, if m.Printed? then PriceText(m.cents) else m.text)
  }

  predicate NamesValidStock(w: Statement) {
    !w.SetBalance? && !w.Record? ==> ValidStock(w.stock)
  }

  /** INSERT INTO accounts, unless the row exists. */
  function InsertAccount(t: Tables): Tables {
    if t.balance.Some? then t else t.(balance := Some(0))
  }

  /** One statement; `None` is a statement the database refuses, which its worker repeats for ever. */
  function Exec(t: Tables, w: Statement): Option<Tables> {
    if !NamesValidStock(w) then None
    else
      match w
      case SetBalance(m) =>
        if Sql(t.odd, m).None? then None else Some(if t.balance.None? then t else t.(balance := Some(Sql(t.odd, m).value)))
      case NewHolding(stock, num) =>
        Some(t.(holdings := t.holdings + [Row(StockPath(stock), num)]))
      case SetHolding(stock, num) =>
        Some(t.(holdings := Modify(t.holdings, StockPath(stock), _ => num)))
      case Record(entry, m) =>
        if Sql(t.odd, m).None? then None else Some(t.(records := t.records + [(entry, Sql(t.odd, m).value)]))
      case NewTrigger(transID, stock, kind, reserved) =>
        if Sql(t.odd, reserved).None? then None
        else
          var r := Trigger(transID, Sql(t.odd, reserved).value, 0);
          Some(t.(triggers := t.triggers + [Row(TriggerPath(kind, stock), r)]))
      case SetTrigger(stock, kind, value) =>
        if Sql(t.odd, value).None? then None
        else
          Some(t.(triggers := Modify(t.triggers, TriggerPath(kind, stock), WithPrice(Sql(t.odd, value).value))))
      case DropTrigger(stock, kind) =>
        Some(t.(triggers := Delete(t.triggers, TriggerPath(kind, stock))))
  }

  function WithPrice(v: int): Trigger -> Trigger {
    (t: Trigger) => t.(trig := v)
  }

  function Next(r: Option<Tables>, w: Statement): Option<Tables> {
    if r.None? then None else Exec(r.value, w)
  }

  /** The statements of one request, in order. */
  function ExecAll(t: Tables, writes: seq<Statement>): Option<Tables> {
    if writes == [] then Some(t) else Next(ExecAll(t, writes[..|writes| - 1]), writes[|writes| - 1])
  }

  lemma {:induction false} ExecBoth(t: Tables, u: seq<Statement>, v: seq<Statement>)
    ensures ExecAll(t, u + v) == if ExecAll(t, u).None? then None else ExecAll(ExecAll(t, u).value, v)
  {
    if v == [] {
      assert u + v == u;
    } else {
      assert (u + v)[..|u + v| - 1] == u + v[..|v| - 1];
      ExecBoth(t, u, v[..|v| - 1]);
    }
  }

  /** The statements change rows and not how texts are read. */
  lemma {:induction false} ExecKeepsReader(t: Tables, writes: seq<Statement>)
    ensures ExecAll(t, writes).Some? ==> ExecAll(t, writes).value.odd == t.odd
  {
    if writes != [] { ExecKeepsReader(t, writes[..|writes| - 1]); }
  }

  lemma ExecMore(t: Tables, writes: seq<Statement>, w: Statement)
    ensures ExecAll(t, writes + [w]) == Next(ExecAll(t, writes), w)
  {
    assert (writes + [w])[..|writes|] == writes;
  }

  lemma ExecFew(t: Tables, w: Statement, x: Statement, y: Statement, z: Statement)
    ensures ExecAll(t, []) == Some(t)
    ensures ExecAll(t, [w]) == Next(Some(t), w)
    ensures ExecAll(t, [w, x]) == Next(Next(Some(t), w), x)
    ensures ExecAll(t, [w, x, y]) == Next(Next(Next(Some(t), w), x), y)
    ensures ExecAll(t, [w, x, y, z]) == Next(Next(Next(Next(Some(t), w), x), y), z)
  {
    assert ExecAll(t, []) == Some(t);
    hide ExecAll, Next, Exec;
    ExecMore(t, [], w);
    ExecMore(t, [w], x);
    ExecMore(t, [w, x], y);
    ExecMore(t, [w, x, y], z);
    assert [] + [w] == [w] && [w] + [x] == [w, x] && [w, x] + [y] == [w, x, y] && [w, x, y] + [z] == [w, x, y, z];
  }

  // ----- Agreement -----

  /** The tables hold exactly the account, apart from its pending order. */
  ghost predicate Mirrors(t: Tables, a: Account) {
    && t.balance == Some(a.balance)
    && Distinct(t.holdings) && Contents(t.holdings) == a.holdings
    && Distinct(t.triggers) && Contents(t.triggers) == a.triggers.vals
  }

  ghost predicate Agrees(r: Option<Tables>, a: Account) {
    r.Some? && Mirrors(r.value, a)
  }

  lemma PrintedRead(odd: Reader, c: int)
    requires c >= 0
    ensures Sql(odd, Printed(c)) == Some(c)
  {
    PriceRoundTrip(c);
  }

  lemma BalanceWritten(t: Tables, b: int)
    requires t.balance.Some? && b >= 0
    ensures Exec(t, SetBalance(Printed(b))) == Some(t.(balance := Some(b)))
  {
    PrintedRead(t.odd, b);
  }

  lemma RecordWritten(t: Tables, entry: Entry, c: int)
    requires c >= 0
    ensures Exec(t, Record(entry, Printed(c))) == Some(t.(records := t.records + [(entry, c)]))
  {
    PrintedRead(t.odd, c);
  }

  /** A holding is written where memory has it: a new row for a new one, an update for an old one. */
  lemma HoldingWritten(t: Tables, a: Account, stock: Text, num: int)
    requires Distinct(t.holdings) && Contents(t.holdings) == a.holdings && ValidStock(stock)
    ensures var r := Exec(t, HoldingWrite(a, stock, num));
      && r.Some? && r.value == t.(holdings := r.value.holdings)
      && Distinct(r.value.holdings) && Contents(r.value.holdings) == SetHeld(a, stock, num).holdings
  {
    var p := StockPath(stock);
    if p in a.holdings { ModifyRow(t.holdings, p, _ => num); } else { InsertRow(t.holdings, p, num); }
  }

  /** A trigger is dropped from the table together with its key. */
  lemma TriggerDropped(t: Tables, stock: Text, kind: Kind)
    requires Distinct(t.triggers) && ValidStock(stock)
    ensures var r := Exec(t, DropTrigger(stock, kind));
      && r.Some? && r.value == t.(triggers := r.value.triggers)
      && Distinct(r.value.triggers) && Contents(r.value.triggers) == Contents(t.triggers) - {TriggerPath(kind, stock)}
  {
    DeleteRow(t.triggers, TriggerPath(kind, stock));
  }

  // ----- Each step -----

  /**
   * What agreement asks of the typed amount.  The row of a deposit is only recorded, so it needs to be readable;
   * the amount and the price of a trigger must be read as the same number by database and server.
   */
  predicate TextAgrees(odd: Reader, e: Event) {
    match e
    case Add(text) => Reads(odd, text).Some?
    case SetBuyAmount(_, text, _) => Reads(odd, text) == Some(Price(text))
    case SetSellAmount(_, text, _) => Reads(odd, text) == Some(Price(text))
    case SetTriggerPrice(_, _, text) => Reads(odd, text) == Some(Price(text))
    case _ => true
  }

  /** The step is refused or sends agreeing text, and it removes no trigger that takes another along. */
  ghost predicate Faithful(odd: Reader, a: Account, e: Event)
    requires NamesStock(a) && Possible(e)
  {
    (Step(a, e).reply == Done ==> TextAgrees(odd, e)) && LosesNothing(a, e)
  }

  lemma DepositRecorded(t: Tables, text: Text)
    ensures var r := Exec(t, Record(Deposit, Raw(text)));
      (r.Some? <==> Reads(t.odd, text).Some?) && (r.Some? ==> r.value == t.(records := r.value.records))
  {
  }

  /** A deposit of readable text. */
  lemma DepositMirrors(t: Tables, a: Account, b: int, text: Text)
    requires Mirrors(t, a) && b >= 0
    ensures Agrees(ExecAll(t, [SetBalance(Printed(b)), Record(Deposit, Raw(text))]), a.(balance := b))
      <==> Reads(t.odd, text).Some?
  {
    var w := SetBalance(Printed(b));
    ExecFew(t, w, Record(Deposit, Raw(text)), w, w);
    BalanceWritten(t, b);
    DepositRecorded(t.(balance := Some(b)), text);
  }

  lemma AddMirrors(t: Tables, a: Account, e: Event)
    requires Mirrors(t, a) && Safe(a) && Possible(e) && Admissible(a, e) && e.Add?
    ensures Agrees(ExecAll(t, Step(a, e).writes), Step(a, e).after) <==> Faithful(t.odd, a, e)
  {
    hide WellFormed, ThreeDeep, Price, Reads, Exec, Distinct, Contents;
    if Step(a, e).reply == Done {
      var b := a.balance + Price(e.text);
      DepositMirrors(t, a, b, e.text);
    }
  }

  lemma OrderMirrors(t: Tables, a: Account, e: Event)
    requires Mirrors(t, a) && Safe(a) && (e.Buy? || e.Sell? || e.CancelBuy? || e.CancelSell?)
    ensures Agrees(ExecAll(t, Step(a, e).writes), Step(a, e).after) && Faithful(t.odd, a, e)
  {
    hide WellFormed, ThreeDeep, CDiv, Sold, Price, Distinct, Contents, Exec, Lookup, TriggerPath, StockPath;
  }

  /** The three statements that both commits send, in either order. */
  lemma SettlementMirrors(t: Tables, a: Account, stock: Text, num: int, b: int, entry: Entry, c: int)
    requires Mirrors(t, a) && NamesStock(a) && ValidStock(stock) && b >= 0 && c >= 0
    ensures var w, x, y := HoldingWrite(a, stock, num), SetBalance(Printed(b)), Record(entry, Printed(c));
      var after := Cleared(SetHeld(a, stock, num)).(balance := b);
      Agrees(ExecAll(t, [w, x, y]), after) && Agrees(ExecAll(t, [x, w, y]), after)
  {
    hide StockPath;
    var w, x, y := HoldingWrite(a, stock, num), SetBalance(Printed(b)), Record(entry, Printed(c));
    ExecFew(t, w, x, y, w);
    ExecFew(t, x, w, y, w);
    HoldingWritten(t, a, stock, num);
    var t1 := Exec(t, w).value;
    BalanceWritten(t1, b);
    RecordWritten(t1.(balance := Some(b)), entry, c);
    BalanceWritten(t, b);
    var t2 := t.(balance := Some(b));
    HoldingWritten(t2, a, stock, num);
    RecordWritten(Exec(t2, w).value, entry, c);
  }

  lemma CommitBuyMirrors(t: Tables, a: Account, e: Event)
    requires Mirrors(t, a) && Safe(a) && e.CommitBuy?
    ensures Agrees(ExecAll(t, Step(a, e).writes), Step(a, e).after) && Faithful(t.odd, a, e)
  {
    hide WellFormed, ThreeDeep, CDiv, Sold, Price, Distinct, Contents, Exec, StockPath;
    if Step(a, e).reply == Done {
      var stock, b, num, c := a.stock.value, a.balance - a.reserve, HeldOrNone(a, a.stock.value) + a.no, a.reserve;
      SettlementMirrors(t, a, stock, num, b, CommittedBuy, c);
    }
  }

  lemma CommitSellMirrors(t: Tables, a: Account, e: Event)
    requires Mirrors(t, a) && Safe(a) && e.CommitSell?
    ensures Agrees(ExecAll(t, Step(a, e).writes), Step(a, e).after) && Faithful(t.odd, a, e)
  {
    hide WellFormed, ThreeDeep, CDiv, Sold, Price, Distinct, Contents, Exec, StockPath;
    if Step(a, e).reply == Done {
      var stock, b, num, c := a.stock.value, a.balance + a.reserve, HeldOrNone(a, a.stock.value) - a.no, a.reserve;
      SettlementMirrors(t, a, stock, num, b, CommittedSell, c);
    }
  }

  /** A new trigger agrees with its row exactly when the typed amount is read alike. */
  lemma NewTriggerWritten(t: Tables, a: Account, kind: Kind, stock: Text, text: Text, transID: Text)
    requires Distinct(t.triggers) && Contents(t.triggers) == a.triggers.vals
    requires ValidStock(stock) && TriggerOf(a, kind, stock) == None
    ensures var r := Exec(t, NewTrigger(transID, stock, kind, Raw(text)));
      var vals := WithTrigger(a, kind, stock, Trigger(transID, Price(text), 0)).triggers.vals;
      && (r.Some? ==> r.value == t.(triggers := r.value.triggers))
      && (r.Some? && Distinct(r.value.triggers) && Contents(r.value.triggers) == vals <==> Reads(t.odd, text) == Some(Price(text)))
  {
    if Reads(t.odd, text).Some? {
      var key, mine, theirs := TriggerPath(kind, stock), Trigger(transID, Price(text), 0), Trigger(transID, Reads(t.odd, text).value, 0);
      InsertRow(t.triggers, key, theirs);
      assert a.triggers.vals[key := theirs][key] == theirs && a.triggers.vals[key := mine][key] == mine;
    }
  }

  lemma SetBuyAmountMirrors(t: Tables, a: Account, e: Event)
    requires Mirrors(t, a) && Safe(a) && Possible(e) && Admissible(a, e) && e.SetBuyAmount?
    ensures Agrees(ExecAll(t, Step(a, e).writes), Step(a, e).after) <==> Faithful(t.odd, a, e)
  {
    hide WellFormed, ThreeDeep, CDiv, Sold, Price, Distinct, Contents, Exec, TriggerPath, StockPath, Put;
    if Step(a, e).reply == Done {
      var b := Step(a, e).after.balance;
      var w, x := SetBalance(Printed(b)), NewTrigger(e.transID, e.stock, Kind.Buy, Raw(e.text));
      ExecFew(t, w, x, w, w);
      BalanceWritten(t, b);
      NewTriggerWritten(t.(balance := Some(b)), a, Kind.Buy, e.stock, e.text, e.transID);
    }
  }

  lemma SetSellAmountMirrors(t: Tables, a: Account, e: Event)
    requires Mirrors(t, a) && Safe(a) && e.SetSellAmount?
    ensures Agrees(ExecAll(t, Step(a, e).writes), Step(a, e).after) <==> Faithful(t.odd, a, e)
  {
    hide WellFormed, ThreeDeep, CDiv, Sold, Price, Distinct, Contents, Exec, TriggerPath, StockPath, Put;
    if Step(a, e).reply == Done {
      var w := NewTrigger(e.transID, e.stock, Kind.Sell, Raw(e.text));
      ExecFew(t, w, w, w, w);
      NewTriggerWritten(t, a, Kind.Sell, e.stock, e.text, e.transID);
    }
  }

  /** A new trigger price agrees with its row exactly when it is read alike. */
  lemma PriceWritten(t: Tables, a: Account, kind: Kind, stock: Text, text: Text)
    requires Distinct(t.triggers) && Contents(t.triggers) == a.triggers.vals
    requires ValidStock(stock) && TriggerOf(a, kind, stock).Some?
    ensures var r := Exec(t, SetTrigger(stock, kind, Raw(text)));
      var key := TriggerPath(kind, stock);
      var vals := a.triggers.vals[key := a.triggers.vals[key].(trig := Price(text))];
      && (r.Some? ==> r.value == t.(triggers := r.value.triggers))
      && (r.Some? && Distinct(r.value.triggers) && Contents(r.value.triggers) == vals <==> Reads(t.odd, text) == Some(Price(text)))
  {
    if Reads(t.odd, text).Some? {
      var key, v, vals := TriggerPath(kind, stock), Reads(t.odd, text).value, a.triggers.vals;
      ModifyRow(t.triggers, key, WithPrice(v));
      assert vals[key := vals[key].(trig := v)][key].trig == v;
      assert vals[key := vals[key].(trig := Price(text))][key].trig == Price(text);
    }
  }

  lemma SetTriggerMirrors(t: Tables, a: Account, e: Event)
    requires Mirrors(t, a) && Safe(a) && e.SetTriggerPrice?
    ensures Agrees(ExecAll(t, Step(a, e).writes), Step(a, e).after) <==> Faithful(t.odd, a, e)
  {
    hide WellFormed, ThreeDeep, CDiv, Sold, Price, Distinct, Contents, Exec, TriggerPath, StockPath;
    if Step(a, e).reply == Done {
      var w := SetTrigger(e.stock, e.kind, Raw(e.text));
      ExecFew(t, w, w, w, w);
      PriceWritten(t, a, e.kind, e.stock, e.text);
    }
  }

  /** The two statements of a refunded trigger. */
  lemma RefundMirrors(t: Tables, a: Account, stock: Text, b: int)
    requires Mirrors(t, a) && Formed(a) && ValidStock(stock) && TriggerOf(a, Kind.Buy, stock).Some? && b >= 0
    ensures var key := TriggerPath(Kind.Buy, stock);
      Agrees(ExecAll(t, [SetBalance(Printed(b)), DropTrigger(stock, Kind.Buy)]), WithoutTrigger(a, key).(balance := b))
      <==> SparesOthers(a.triggers, key)
  {
    var w := SetBalance(Printed(b));
    ExecFew(t, w, DropTrigger(stock, Kind.Buy), w, w);
    BalanceWritten(t, b);
    TriggerDropped(t.(balance := Some(b)), stock, Kind.Buy);
    RemovalKeepsOthersExactly(a, Kind.Buy, stock);
  }

  lemma CancelSetBuyMirrors(t: Tables, a: Account, e: Event)
    requires Mirrors(t, a) && Safe(a) && e.CancelSetBuy?
    ensures Agrees(ExecAll(t, Step(a, e).writes), Step(a, e).after) <==> Faithful(t.odd, a, e)
  {
    hide WellFormed, ThreeDeep, CDiv, Sold, Price, Distinct, Contents, Exec, RemoveShort, Casualties, LostWith, TriggerPath, StockPath;
    if Step(a, e).reply == Done {
      var b := a.balance + TriggerOf(a, Kind.Buy, e.stock).value.amount;
      RefundMirrors(t, a, e.stock, b);
    }
  }

  lemma CancelSetSellMirrors(t: Tables, a: Account, e: Event)
    requires Mirrors(t, a) && Safe(a) && e.CancelSetSell?
    ensures Agrees(ExecAll(t, Step(a, e).writes), Step(a, e).after) <==> Faithful(t.odd, a, e)
  {
    hide WellFormed, ThreeDeep, CDiv, Sold, Price, Distinct, Contents, Exec, RemoveShort, Casualties, LostWith, TriggerPath, StockPath;
    if Step(a, e).reply == Done {
      var w := DropTrigger(e.stock, Kind.Sell);
      ExecFew(t, w, w, w, w);
      TriggerDropped(t, e.stock, Kind.Sell);
      RemovalKeepsOthersExactly(a, Kind.Sell, e.stock);
    }
  }

  /** The four statements that both kinds of firing send. */
  lemma ExchangeMirrors(t: Tables, a: Account, kind: Kind, stock: Text, num: int, b: int, entry: Entry, c: int)
    requires Mirrors(t, a) && Formed(a) && ValidStock(stock) && TriggerOf(a, kind, stock).Some? && b >= 0 && c >= 0
    ensures var key := TriggerPath(kind, stock);
      Agrees(ExecAll(t, [HoldingWrite(a, stock, num), SetBalance(Printed(b)), Record(entry, Printed(c)), DropTrigger(stock, kind)]),
             WithoutTrigger(SetHeld(a, stock, num), key).(balance := b))
      <==> SparesOthers(a.triggers, key)
  {
    hide WellFormed, ThreeDeep, RemoveShort, Casualties, TriggerPath, StockPath;
    var w := HoldingWrite(a, stock, num);
    ExecFew(t, w, SetBalance(Printed(b)), Record(entry, Printed(c)), DropTrigger(stock, kind));
    HoldingWritten(t, a, stock, num);
    var t1 := Exec(t, w).value;
    BalanceWritten(t1, b);
    var t2 := t1.(balance := Some(b));
    RecordWritten(t2, entry, c);
    TriggerDropped(Exec(t2, Record(entry, Printed(c))).value, stock, kind);
    RemovalKeepsOthersExactly(a, kind, stock);
  }

  lemma CostWithin(amount: int, price: int)
    requires amount >= 0 && price >= 1
    ensures 0 <= price * CDiv(amount, price) <= amount
  {
    DivBounds(amount, price);
  }

  lemma FireBuyMirrors(t: Tables, a: Account, e: Event)
    requires Mirrors(t, a) && Safe(a) && Possible(e) && e.Fire? && e.kind == Kind.Buy
    ensures Agrees(ExecAll(t, Step(a, e).writes), Step(a, e).after) <==> Faithful(t.odd, a, e)
  {
    hide WellFormed, ThreeDeep, CDiv, Sold, Price, Distinct, Contents, Exec, RemoveShort, Casualties, LostWith, TriggerPath, StockPath;
    if Step(a, e).reply == Done {
      var amount := TriggerOf(a, Kind.Buy, e.stock).value.amount;
      var n, cost := CDiv(amount, e.price), e.price * CDiv(amount, e.price);
      CostWithin(amount, e.price);
      var b, num := a.balance + (amount - cost), HeldOrNone(a, e.stock) + n;
      ExchangeMirrors(t, a, Kind.Buy, e.stock, num, b, FiredBuy, cost);
    }
  }

  lemma FireSellMirrors(t: Tables, a: Account, e: Event)
    requires Mirrors(t, a) && Safe(a) && Possible(e) && e.Fire? && e.kind == Kind.Sell
    ensures Agrees(ExecAll(t, Step(a, e).writes), Step(a, e).after) <==> Faithful(t.odd, a, e)
  {
    hide WellFormed, ThreeDeep, CDiv, Price, Distinct, Contents, Exec, RemoveShort, Casualties, LostWith, TriggerPath, StockPath;
    if Step(a, e).reply == Done {
      var amount, held := TriggerOf(a, Kind.Sell, e.stock).value.amount, HeldOrNone(a, e.stock);
      DivBounds(amount, e.price);
      var n := Sold(amount, e.price, held);
      assert n >= 1;
      MultipleOf(e.price, n);
      var gain := e.price * n;
      var b, num := a.balance + gain, held - n;
      ExchangeMirrors(t, a, Kind.Sell, e.stock, num, b, FiredSell, gain);
    }
  }

  /**
   * From tables that agree with a safe account, the statements of an admissible step leave tables that agree
   * with the new account if and only if the step was refused or sent text that database and server read alike,
   * and removed no trigger besides its own.
   */
  lemma StepMirrorsExactly(t: Tables, a: Account, e: Event)
    requires Mirrors(t, a) && Safe(a) && Possible(e) && Admissible(a, e)
    ensures Agrees(ExecAll(t, Step(a, e).writes), Step(a, e).after) <==> Faithful(t.odd, a, e)
  {
    match e
    case Add(_) => AddMirrors(t, a, e);
    case CommitBuy(_) => CommitBuyMirrors(t, a, e);
    case CommitSell(_) => CommitSellMirrors(t, a, e);
    case SetBuyAmount(_, _, _) => SetBuyAmountMirrors(t, a, e);
    case SetSellAmount(_, _, _) => SetSellAmountMirrors(t, a, e);
    case SetTriggerPrice(_, _, _) => SetTriggerMirrors(t, a, e);
    case CancelSetBuy(_) => CancelSetBuyMirrors(t, a, e);
    case CancelSetSell(_) => CancelSetSellMirrors(t, a, e);
    case Fire(kind, _, _) => if kind == Kind.Buy { FireBuyMirrors(t, a, e); } else { FireSellMirrors(t, a, e); }
    case _ => OrderMirrors(t, a, e);
  }

  /**
   * The account row must be there first: a deposit that arrives before it is credited in memory and
   * recorded, but its balance is written nowhere, and the row that comes later starts at nothing.
   */
  lemma LateAccountRow(t: Tables, a: Account, text: Text)
    requires t.balance == None && a.balance + Price(text) > 0 && Reads(t.odd, text).Some? && Price(text) >= 0
    ensures var o := AddStep(a, text);
      && ExecAll(t, o.writes).Some?
      && InsertAccount(ExecAll(t, o.writes).value).balance == Some(0) != Some(o.after.balance)
  {
    var b := a.balance + Price(text);
    ExecFew(t, SetBalance(Printed(b)), Record(Deposit, Raw(text)), SetBalance(Printed(b)), SetBalance(Printed(b)));
    PrintedRead(t.odd, b);
  }
}
