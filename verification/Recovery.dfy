/** Agreement of tables and memory over whole runs, and the rebuilding of a user from the tables. */
module Recovery {
  import opened Base
  import opened Names
  import opened Prices
  import opened TrieSpec
  import opened TrieHeap
  import opened Rows
  import opened Accounts
  import opened AccountSafety
  import opened AccountRuns
  import opened AccountMoney
  import opened Mirror
  import opened Users

  // ----- Runs -----

  /** The tables after the first `k` events of a run agree with the account after them. */
  ghost predicate AgreesAfter(t: Tables, a: Account, es: seq<Event>, k: nat)
    requires Formed(a) && AllPossible(es) && k <= |es|
  {
    Agrees(ExecAll(t, Writes(a, es[..k])), Run(a, es[..k]))
  }

  ghost predicate FaithfulAt(odd: Reader, a: Account, es: seq<Event>, k: nat)
    requires Formed(a) && AllPossible(es) && k < |es|
  {
    Faithful(odd, Run(a, es[..k]), es[k])
  }

  lemma WritesOneMore(a: Account, es: seq<Event>, k: nat)
    requires Formed(a) && AllPossible(es) && k < |es|
    ensures Writes(a, es[..k + 1]) == Writes(a, es[..k]) + Step(Run(a, es[..k]), es[k]).writes
  {
    assert es[..k + 1][..k] == es[..k];
  }

  lemma AgreesOneMore(t: Tables, a: Account, es: seq<Event>, k: nat)
    requires Safe(a) && AllPossible(es) && k < |es| && AdmissibleThroughout(a, es)
    requires AgreesAfter(t, a, es, k)
    ensures AgreesAfter(t, a, es, k + 1) <==> FaithfulAt(t.odd, a, es, k)
  {
    var b, e := Run(a, es[..k]), es[k];
    SafeAfter(a, es, k);
    WritesOneMore(a, es, k);
    RunOneMore(a, es, k);
    ExecBoth(t, Writes(a, es[..k]), Step(b, e).writes);
    ExecKeepsReader(t, Writes(a, es[..k]));
    StepMirrorsExactly(ExecAll(t, Writes(a, es[..k])).value, b, e);
  }

  /**
   * Along an admissible run, tables and memory agree after every step if and only if every step is faithful:
   * it sends text that both sides read alike, and removes no trigger besides its own.
   */
  lemma RunsMirrorExactly(t: Tables, a: Account, es: seq<Event>)
    requires Mirrors(t, a) && Safe(a) && AllPossible(es) && AdmissibleThroughout(a, es)
    ensures (forall k :: 0 <= k <= |es| ==> AgreesAfter(t, a, es, k)) <==> (forall k :: 0 <= k < |es| ==> FaithfulAt(t.odd, a, es, k))
  {
    if forall k :: 0 <= k < |es| ==> FaithfulAt(t.odd, a, es, k) {
      forall k | 0 <= k <= |es| ensures AgreesAfter(t, a, es, k) { AgreesUpTo(t, a, es, k); }
    }
    if forall k :: 0 <= k <= |es| ==> AgreesAfter(t, a, es, k) {
      forall k | 0 <= k < |es| ensures FaithfulAt(t.odd, a, es, k) {
        assert AgreesAfter(t, a, es, k) && AgreesAfter(t, a, es, k + 1);
        AgreesOneMore(t, a, es, k);
      }
    }
  }

  lemma {:induction false} AgreesUpTo(t: Tables, a: Account, es: seq<Event>, k: nat)
    requires Mirrors(t, a) && Safe(a) && AllPossible(es) && AdmissibleThroughout(a, es) && k <= |es|
    requires forall j :: 0 <= j < |es| ==> FaithfulAt(t.odd, a, es, j)
    ensures AgreesAfter(t, a, es, k)
  {
    if k > 0 {
      AgreesUpTo(t, a, es, k - 1);
      assert FaithfulAt(t.odd, a, es, k - 1);
      AgreesOneMore(t, a, es, k - 1);
    } else {
      assert es[..0] == [];
    }
  }

  // ----- What the server reads back -----

  /** A trigger as `addUser` reads it: the amounts come as text of two decimals. */
  function AsRead(t: Trigger): Trigger {
    Trigger(t.transID, Price(PriceText(t.amount)), Price(PriceText(t.trig)))
  }

  /** The trie that adding the rows one by one makes. */
  function ReloadedTriggers(rows: seq<Row<Path, Trigger>>): Shape<Trigger> {
    if rows == [] then Empty()
    else Put(ReloadedTriggers(rows[..|rows| - 1]), rows[|rows| - 1].key, AsRead(rows[|rows| - 1].value))
  }

  function ReloadedHoldings(rows: seq<Row<Path, int>>): Shape<int> {
    if rows == [] then Empty()
    else Put(ReloadedHoldings(rows[..|rows| - 1]), rows[|rows| - 1].key, rows[|rows| - 1].value)
  }

  /** The account that `addUser` builds from the tables. */
  function Reloaded(t: Tables): Account {
    Account(if t.balance.None? then 0 else Price(PriceText(t.balance.value)), 0, None, 0, 0, 0,
            ReloadedHoldings(t.holdings).vals, ReloadedTriggers(t.triggers))
  }

  /** No trigger price is negative. */
  ghost predicate PricesReadable(a: Account) {
    forall p <- a.triggers.vals :: a.triggers.vals[p].trig >= 0
  }

  lemma {:induction false} HoldingsReload(rows: seq<Row<Path, int>>)
    ensures ReloadedHoldings(rows).vals == Contents(rows)
  {
    if rows != [] { HoldingsReload(rows[..|rows| - 1]); }
  }

  lemma AsReadIsSame(t: Trigger)
    requires t.amount >= 0 && t.trig >= 0
    ensures AsRead(t) == t
  {
    PriceRoundTrip(t.amount);
    PriceRoundTrip(t.trig);
  }

  predicate ReadableRow(t: Trigger) {
    t.amount >= 0 && t.trig >= 0
  }

  lemma {:induction false} TriggersReload(rows: seq<Row<Path, Trigger>>)
    requires Distinct(rows) && forall p <- Contents(rows) :: ReadableRow(Contents(rows)[p])
    ensures ReloadedTriggers(rows).vals == Contents(rows)
  {
    if rows != [] {
      var init, last := rows[..|rows| - 1], rows[|rows| - 1];
      assert Contents(rows) == Contents(init)[last.key := last.value];
      forall p <- Contents(init) ensures ReadableRow(Contents(init)[p]) {
        assert Contents(rows)[p] == Contents(init)[p];
      }
      TriggersReload(init);
      assert ReadableRow(Contents(rows)[last.key]);
      AsReadIsSame(last.value);
    }
  }

  /** From tables that agree with a safe account, the same account is rebuilt, apart from its pending order. */
  lemma ReloadRestores(t: Tables, a: Account)
    requires Mirrors(t, a) && Safe(a) && PricesReadable(a)
    ensures var r := Reloaded(t);
      && r.balance == a.balance && r.holdings == a.holdings && r.triggers.vals == a.triggers.vals
      && r == Cleared(r)
  {
    PriceRoundTrip(a.balance);
    HoldingsReload(t.holdings);
    TriggersReload(t.triggers);
  }

  // ----- Prices of triggers stay readable -----

  lemma RemovalKeepsPrices(a: Account, kind: Kind, stock: Text)
    requires Formed(a) && ValidStock(stock) && TriggerOf(a, kind, stock).Some? && PricesReadable(a)
    ensures PricesReadable(WithoutTrigger(a, TriggerPath(kind, stock)))
  {
    RemoveShortKeepsForm(a.triggers, TriggerPath(kind, stock), TRIGGER_WIDTH);
  }

  lemma CancellingKeepsPrices(a: Account, e: Event)
    requires Formed(a) && (e.CancelSetBuy? || e.CancelSetSell?) && PricesReadable(a)
    ensures PricesReadable(Step(a, e).after)
  {
    var kind := if e.CancelSetBuy? then Kind.Buy else Kind.Sell;
    if ValidStock(e.stock) && TriggerOf(a, kind, e.stock).Some? { RemovalKeepsPrices(a, kind, e.stock); }
  }

  lemma FiringKeepsPrices(a: Account, e: Event)
    requires Formed(a) && e.Fire? && Possible(e) && PricesReadable(a)
    ensures PricesReadable(Step(a, e).after)
  {
    if TriggerOf(a, e.kind, e.stock).Some? { RemovalKeepsPrices(a, e.kind, e.stock); }
  }

  lemma OthersKeepPrices(a: Account, e: Event)
    requires Formed(a) && !e.Fire? && !e.CancelSetBuy? && !e.CancelSetSell? && PricesReadable(a)
    requires e.SetTriggerPrice? && Step(a, e).reply == Done ==> Price(e.text) >= 0
    ensures PricesReadable(Step(a, e).after)
  {
    hide CDiv, Sold, Price, WellFormed, ThreeDeep, TriggerPath, StockPath;
  }

  /** The event sets no trigger price from a text that is read as negative. */
  predicate NonNegativePrice(e: Event) {
    e.SetTriggerPrice? ==> !ReadsNegative(e.text)
  }

  lemma StepKeepsPrices(a: Account, e: Event)
    requires Formed(a) && Possible(e) && PricesReadable(a) && NonNegativePrice(e)
    ensures PricesReadable(Step(a, e).after)
  {
    if e.Fire? {
      FiringKeepsPrices(a, e);
    } else if e.CancelSetBuy? || e.CancelSetSell? {
      CancellingKeepsPrices(a, e);
    } else {
      if e.SetTriggerPrice? { NegativeExactly(e.text); }
      OthersKeepPrices(a, e);
    }
  }

  lemma {:induction false} RunKeepsPrices(a: Account, es: seq<Event>)
    requires Formed(a) && AllPossible(es) && PricesReadable(a)
    requires forall e <- es :: NonNegativePrice(e)
    ensures PricesReadable(Run(a, es))
  {
    if es != [] {
      var init := es[..|es| - 1];
      assert forall e <- init :: e in es;
      RunKeepsPrices(a, init);
      StepKeepsPrices(Run(a, init), es[|es| - 1]);
    }
  }

  /**
   * After any admissible and faithful run of a new user, whose account row was inserted first, a server that
   * starts again from the tables has the same balance, holdings and triggers, and no pending order.
   */
  lemma RestartRestores(odd: Reader, es: seq<Event>)
    requires AllPossible(es) && AdmissibleThroughout(EMPTY_ACCOUNT, es)
    requires forall k :: 0 <= k < |es| ==> FaithfulAt(odd, EMPTY_ACCOUNT, es, k)
    requires forall e <- es :: NonNegativePrice(e)
    ensures var t := ExecAll(InsertAccount(NoRows(odd)), Writes(EMPTY_ACCOUNT, es));
      var a := Run(EMPTY_ACCOUNT, es);
      && t.Some?
      && var r := Reloaded(t.value);
         r.balance == a.balance && r.holdings == a.holdings && r.triggers.vals == a.triggers.vals && r == Cleared(r)
  {
    var t0 := InsertAccount(NoRows(odd));
    EmptyAccountSafe();
    AgreesUpTo(t0, EMPTY_ACCOUNT, es, |es|);
    SafeAfter(EMPTY_ACCOUNT, es, |es|);
    RunKeepsPrices(EMPTY_ACCOUNT, es);
    assert es[..|es|] == es;
    ReloadRestores(ExecAll(t0, Writes(EMPTY_ACCOUNT, es)).value, Run(EMPTY_ACCOUNT, es));
  }

  // ----- The loading loop -----

  /** The keys that a validated stock can have. */
  predicate HasKeys<V>(rows: seq<Row<Path, V>>, width: nat) {
    forall i :: 0 <= i < |rows| ==> |rows[i].key| == 3 && Letters(rows[i].key, width)
  }

  lemma {:induction false} ModifyKeepsKeys<V>(rows: seq<Row<Path, V>>, key: Path, f: V -> V, width: nat)
    requires HasKeys(rows, width)
    ensures HasKeys(Modify(rows, key, f), width) && HasKeys(Delete(rows, key), width)
  {
    if rows != [] { ModifyKeepsKeys(rows[..|rows| - 1], key, f, width); }
  }

  /** No statement of the server puts any other key into the tables. */
  lemma ExecKeepsKeys(t: Tables, w: Statement)
    requires HasKeys(t.triggers, TRIGGER_WIDTH) && HasKeys(t.holdings, STOCK_CHARS) && Exec(t, w).Some?
    ensures HasKeys(Exec(t, w).value.triggers, TRIGGER_WIDTH) && HasKeys(Exec(t, w).value.holdings, STOCK_CHARS)
  {
    match w
    case SetHolding(stock, num) => ModifyKeepsKeys(t.holdings, StockPath(stock), _ => num, STOCK_CHARS);
    case SetTrigger(stock, kind, value) =>
      ModifyKeepsKeys(t.triggers, TriggerPath(kind, stock), WithPrice(Sql(t.odd, value).value), TRIGGER_WIDTH);
    case DropTrigger(stock, kind) =>
      ModifyKeepsKeys(t.triggers, TriggerPath(kind, stock), WithPrice(0), TRIGGER_WIDTH);
    case _ =>
  }

  lemma OneMoreTrigger(rows: seq<Row<Path, Trigger>>, i: nat)
    requires i < |rows|
    ensures ReloadedTriggers(rows[..i + 1]) == Put(ReloadedTriggers(rows[..i]), rows[i].key, AsRead(rows[i].value))
  {
    assert rows[..i + 1][..i] == rows[..i];
  }

  lemma OneMoreHolding(rows: seq<Row<Path, int>>, i: nat)
    requires i < |rows|
    ensures ReloadedHoldings(rows[..i + 1]) == Put(ReloadedHoldings(rows[..i]), rows[i].key, rows[i].value)
  {
    assert rows[..i + 1][..i] == rows[..i];
  }

  method LoadTrigger(u: User, row: Row<Path, Trigger>)
    requires u.Valid() && |row.key| == 3 && Letters(row.key, TRIGGER_WIDTH)
    modifies u.tTree.Repr
    ensures u.Valid() && fresh(u.tTree.Repr - old(u.tTree.Repr))
    ensures u.tTree.view == Put(old(u.tTree.view), row.key, AsRead(row.value))
  {
    hide Price, PriceText;
    var amountPrc := ParsePrice(Some(PriceText(row.value.amount)));
    var trigPrc := ParsePrice(Some(PriceText(row.value.trig)));
    var added := u.tTree.Add(row.key, Trigger(row.value.transID, amountPrc, trigPrc));
  }

  method LoadTriggers(u: User, rows: seq<Row<Path, Trigger>>)
    requires u.Valid() && u.tTree.view == Empty() && HasKeys(rows, TRIGGER_WIDTH)
    modifies u.tTree.Repr
    ensures u.Valid() && fresh(u.tTree.Repr - old(u.tTree.Repr))
    ensures u.tTree.view == ReloadedTriggers(rows)
  {
    hide AsRead;
    var i := 0;
    while i < |rows|
      invariant 0 <= i <= |rows|
      invariant u.Valid() && fresh(u.tTree.Repr - old(u.tTree.Repr))
      invariant u.tTree.view == ReloadedTriggers(rows[..i])
    {
      LoadTrigger(u, rows[i]);
      OneMoreTrigger(rows, i);
      i := i + 1;
    }
    assert rows[..i] == rows;
  }

  method LoadHoldings(u: User, rows: seq<Row<Path, int>>)
    requires u.Valid() && u.usTree.view == Empty() && HasKeys(rows, STOCK_CHARS)
    modifies u.usTree.Repr
    ensures u.Valid() && fresh(u.usTree.Repr - old(u.usTree.Repr))
    ensures u.usTree.view == ReloadedHoldings(rows)
  {
    var i := 0;
    while i < |rows|
      invariant 0 <= i <= |rows|
      invariant u.Valid() && fresh(u.usTree.Repr - old(u.usTree.Repr))
      invariant u.usTree.view == ReloadedHoldings(rows[..i])
    {
      var added := u.usTree.Add(rows[i].key, rows[i].value);
      OneMoreHolding(rows, i);
      i := i + 1;
    }
    assert rows[..i] == rows;
  }

  /** The part of `addUser` that fills a new user from the answers of the database. */
  method Load(u: User, t: Tables)
    requires u.Valid() && u.tTree.view == Empty() && u.usTree.view == Empty()
    requires u.balance == 0 && u.View() == Cleared(u.View())
    requires HasKeys(t.triggers, TRIGGER_WIDTH) && HasKeys(t.holdings, STOCK_CHARS)
    modifies u, u.tTree.Repr, u.usTree.Repr
    ensures u.Valid() && u.View() == Reloaded(t)
  {
    hide Price, PriceText, ReloadedTriggers, ReloadedHoldings;
    LoadRows(u, t);
    LoadBalance(u, t.balance);
  }

  method LoadRows(u: User, t: Tables)
    requires u.Valid() && u.tTree.view == Empty() && u.usTree.view == Empty()
    requires HasKeys(t.triggers, TRIGGER_WIDTH) && HasKeys(t.holdings, STOCK_CHARS)
    modifies u.tTree.Repr, u.usTree.Repr
    ensures u.Valid()
    ensures u.View() == old(u.View()).(triggers := ReloadedTriggers(t.triggers), holdings := ReloadedHoldings(t.holdings).vals)
  {
    LoadTriggers(u, t.triggers);
    LoadHoldings(u, t.holdings);
  }

  method LoadBalance(u: User, balance: Option<int>)
    requires u.Valid()
    modifies u`balance
    ensures u.Valid()
    ensures u.View() == old(u.View()).(balance := if balance.None? then old(u.balance) else Price(PriceText(balance.value)))
  {
    if balance.Some? { u.balance := ParsePrice(Some(PriceText(balance.value))); }
  }
}
