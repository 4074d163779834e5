/** The transaction rows in the database against the accounts in memory, for each step and over whole runs. */
module Ledger {
  import opened Base
  import opened Names
  import opened Prices
  import opened TrieSpec
  import opened Accounts
  import opened AccountSafety
  import opened AccountRuns
  import opened AccountLosses
  import opened AccountMoney
  import opened Mirror
  import opened Recovery

  // ----- Rows -----

  /** What transaction rows add up to: deposits and sales, less purchases. */
  function Booked(rows: seq<(Entry, int)>): int {
    if rows == [] then 0
    else Booked(rows[..|rows| - 1]) + Sign(rows[|rows| - 1].0) * rows[|rows| - 1].1
  }

  lemma {:induction false} BookedBoth(r: seq<(Entry, int)>, s: seq<(Entry, int)>)
    ensures Booked(r + s) == Booked(r) + Booked(s)
  {
    if s == [] {
      assert r + s == r;
    } else {
      assert (r + s)[..|r + s| - 1] == r + s[..|s| - 1];
      BookedBoth(r, s[..|s| - 1]);
    }
  }

  /** The transaction rows that statements are meant to add: their amounts as the server values them. */
  function RowsOf(writes: seq<Statement>): seq<(Entry, int)> {
    if writes == [] then []
    else
      var w := writes[|writes| - 1];
      RowsOf(writes[..|writes| - 1]) + (if w.Record? then [(w.entry, Cents(w.amount))] else [])
  }

  lemma {:induction false} RowsOfBoth(u: seq<Statement>, v: seq<Statement>)
    ensures RowsOf(u + v) == RowsOf(u) + RowsOf(v)
  {
    if v == [] {
      assert u + v == u && RowsOf(u) + [] == RowsOf(u);
    } else {
      var w := v[|v| - 1];
      assert (u + v)[..|u + v| - 1] == u + v[..|v| - 1];
      RowsOfBoth(u, v[..|v| - 1]);
      var last := if w.Record? then [(w.entry, Cents(w.amount))] else [];
      assert RowsOf(u) + RowsOf(v[..|v| - 1]) + last == RowsOf(u) + (RowsOf(v[..|v| - 1]) + last);
    }
  }

  /** They add up to the flow of the statements. */
  lemma {:induction false} MeantRowsFlow(writes: seq<Statement>)
    ensures Booked(RowsOf(writes)) == Flow(writes)
  {
    if writes != [] {
      var init, w := writes[..|writes| - 1], writes[|writes| - 1];
      MeantRowsFlow(init);
      if w.Record? {
        BookedBoth(RowsOf(init), [(w.entry, Cents(w.amount))]);
        OneRow((w.entry, Cents(w.amount)));
      } else {
        assert RowsOf(init) + [] == RowsOf(init);
      }
    }
  }

  lemma OneRow(r: (Entry, int))
    ensures Booked([r]) == Sign(r.0) * r.1
  {
    assert [r][..0] == [];
  }

  // ----- Which statements the database takes -----

  /** The stock is spelled right, and the amount is read. */
  predicate Taken(odd: Reader, w: Statement) {
    && NamesValidStock(w)
    && match w
       case SetBalance(m) => Sql(odd, m).Some?
       case Record(_, m) => Sql(odd, m).Some?
       case NewTrigger(_, _, _, m) => Sql(odd, m).Some?
       case SetTrigger(_, _, m) => Sql(odd, m).Some?
       case _ => true
  }

  predicate AllTaken(odd: Reader, writes: seq<Statement>) {
    forall w <- writes :: Taken(odd, w)
  }

  /** The rows that the database adds: the amounts as it reads them. */
  function RowsRead(odd: Reader, writes: seq<Statement>): seq<(Entry, int)>
    requires AllTaken(odd, writes)
  {
    if writes == [] then []
    else
      var w := writes[|writes| - 1];
      assert Taken(odd, w);
      RowsRead(odd, writes[..|writes| - 1]) + (if w.Record? then [(w.entry, Sql(odd, w.amount).value)] else [])
  }

  lemma OneTaken(t: Tables, w: Statement)
    ensures Exec(t, w).Some? <==> Taken(t.odd, w)
    ensures Taken(t.odd, w) ==>
      Exec(t, w).value.records == t.records + (if w.Record? then [(w.entry, Sql(t.odd, w.amount).value)] else [])
  {
    assert t.records + [] == t.records;
  }

  /** A request is carried out exactly if all its statements are taken, and then the table has those rows more. */
  lemma {:induction false} RowsWritten(t: Tables, writes: seq<Statement>)
    ensures ExecAll(t, writes).Some? <==> AllTaken(t.odd, writes)
    ensures AllTaken(t.odd, writes) ==> ExecAll(t, writes).value.records == t.records + RowsRead(t.odd, writes)
  {
    hide Exec, Sql;
    if writes != [] {
      var init, w := writes[..|writes| - 1], writes[|writes| - 1];
      RowsWritten(t, init);
      ExecKeepsReader(t, init);
      assert writes == init + [w];
      assert AllTaken(t.odd, writes) <==> AllTaken(t.odd, init) && Taken(t.odd, w);
      if AllTaken(t.odd, init) { OneTaken(ExecAll(t, init).value, w); }
      if AllTaken(t.odd, writes) {
        var last := if w.Record? then [(w.entry, Sql(t.odd, w.amount).value)] else [];
        assert t.records + RowsRead(t.odd, init) + last == t.records + (RowsRead(t.odd, init) + last);
      }
    }
  }

  /** The rows are those that were meant if every amount in them is read as it was meant. */
  lemma {:induction false} MeantRowsRead(odd: Reader, writes: seq<Statement>)
    requires AllTaken(odd, writes) && forall w <- writes | w.Record? :: Sql(odd, w.amount) == Some(Cents(w.amount))
    ensures RowsRead(odd, writes) == RowsOf(writes)
  {
    if writes != [] {
      assert forall w <- writes[..|writes| - 1] :: w in writes;
      MeantRowsRead(odd, writes[..|writes| - 1]);
    }
  }

  // ----- One step -----

  /** The text of an amount in the event, if its statements pass it on. */
  function Typed(e: Event): Option<Text> {
    match e
    case Add(text) => Some(text)
    case SetBuyAmount(_, text, _) => Some(text)
    case SetSellAmount(_, text, _) => Some(text)
    case SetTriggerPrice(_, _, text) => Some(text)
    case _ => None
  }

  /** The database reads the text at all. */
  predicate IsRead(odd: Reader, e: Event) {
    Typed(e).Some? ==> Reads(odd, Typed(e).value).Some?
  }

  /** It reads it as the number that the server does. */
  predicate ReadAlike(odd: Reader, e: Event) {
    Typed(e).Some? ==> Reads(odd, Typed(e).value) == Some(Price(Typed(e).value))
  }

  /** No statement of the event prints a negative amount, and those that pass on text pass on the typed one. */
  predicate WellMeant(e: Event, w: Statement) {
    && NamesValidStock(w)
    && match w
       case SetBalance(m) => m.Printed? && m.cents >= 0
       case Record(_, m) => if m.Printed? then m.cents >= 0 else e.Add? && m.text == e.text
       case NewTrigger(_, _, _, m) => m.Raw? && Typed(e) == Some(m.text)
       case SetTrigger(_, _, m) => m.Raw? && Typed(e) == Some(m.text)
       case _ => true
  }

  lemma FiringWellMeant(a: Account, e: Event, w: Statement)
    requires Safe(a) && Possible(e) && e.Fire? && Safe(Step(a, e).after) && w in Step(a, e).writes
    ensures WellMeant(e, w)
  {
    hide WellFormed, ThreeDeep, RemoveShort, Casualties, LostWith, TriggerPath, StockPath, Priced;
    var t := TriggerOf(a, e.kind, e.stock).value;
    DivBounds(t.amount, e.price);
    if e.kind == Kind.Sell {
      hide CDiv;
      MultipleOf(e.price, Sold(t.amount, e.price, HeldOrNone(a, e.stock)));
    }
  }

  lemma OthersWellMeant(a: Account, e: Event, w: Statement)
    requires Safe(a) && Possible(e) && !e.Fire? && Safe(Step(a, e).after) && w in Step(a, e).writes
    ensures WellMeant(e, w)
  {
    hide WellFormed, ThreeDeep, RemoveShort, Casualties, LostWith, Put, TriggerPath, StockPath, Price, CDiv, Sold, Lookup;
  }

  lemma StepWellMeant(a: Account, e: Event, w: Statement)
    requires Safe(a) && Possible(e) && Admissible(a, e) && w in Step(a, e).writes
    ensures WellMeant(e, w)
  {
    hide Step, Admissible, WellMeant, WellFormed, ThreeDeep;
    StepSafeExactly(a, e);
    if e.Fire? { FiringWellMeant(a, e, w); } else { OthersWellMeant(a, e, w); }
  }

  /** A typed text that goes through is in some statement. */
  lemma TypedIsPassedOn(odd: Reader, a: Account, e: Event)
    requires NamesStock(a) && Possible(e) && Step(a, e).reply == Done && AllTaken(odd, Step(a, e).writes)
    ensures IsRead(odd, e)
  {
    hide WellFormed, ThreeDeep, RemoveShort, Casualties, LostWith, Put, TriggerPath, StockPath, Price, CDiv, Sold, Lookup;
    if Typed(e).Some? {
      var ws := Step(a, e).writes;
      assert Taken(odd, ws[|ws| - 1]);
    }
  }

  /** The statements of an admissible step are carried out if and only if the typed text is read. */
  lemma StepTaken(odd: Reader, a: Account, e: Event)
    requires Safe(a) && Possible(e) && Admissible(a, e)
    ensures AllTaken(odd, Step(a, e).writes) <==> (Step(a, e).reply == Done ==> IsRead(odd, e))
  {
    hide Admissible, WellFormed, ThreeDeep;
    if Step(a, e).reply != Done { RefusedWritesNothing(a, e); }
    if AllTaken(odd, Step(a, e).writes) && Step(a, e).reply == Done { TypedIsPassedOn(odd, a, e); }
    hide Step;
    if Step(a, e).reply == Done && IsRead(odd, e) {
      forall w <- Step(a, e).writes ensures Taken(odd, w) {
        StepWellMeant(a, e, w);
        PrintedTaken(odd, e, w);
      }
    }
  }

  lemma RefusedWritesNothing(a: Account, e: Event)
    requires NamesStock(a) && Possible(e) && Step(a, e).reply != Done
    ensures Step(a, e).writes == []
  {
  }

  lemma PrintedTaken(odd: Reader, e: Event, w: Statement)
    requires WellMeant(e, w) && IsRead(odd, e)
    ensures Taken(odd, w)
    ensures w.Record? && w.amount.Printed? ==> Sql(odd, w.amount) == Some(Cents(w.amount))
  {
    hide Reads, PriceText, Price;
    if w.SetBalance? { PrintedRead(odd, w.balance.cents); }
    if w.Record? && w.amount.Printed? { PrintedRead(odd, w.amount.cents); }
  }

  /** What the database reads of a deposit beyond what the server does. */
  function Misread(odd: Reader, done: bool, e: Event): int {
    if e.Add? && done && Reads(odd, e.text).Some? then Reads(odd, e.text).value - Price(e.text) else 0
  }

  /** The deposit, if it is one that goes through, is read alike. */
  predicate DepositExact(odd: Reader, done: bool, e: Event) {
    e.Add? && done ==> Reads(odd, e.text) == Some(Price(e.text))
  }

  lemma DepositRows(odd: Reader, b: int, text: Text)
    requires b >= 0 && Reads(odd, text).Some?
    ensures var ws := [SetBalance(Printed(b)), Record(Deposit, Raw(text))];
      && AllTaken(odd, ws)
      && RowsRead(odd, ws) == [(Deposit, Reads(odd, text).value)] && RowsOf(ws) == [(Deposit, Price(text))]
  {
    hide Reads, Price, PriceText;
    PrintedRead(odd, b);
    var w, x := SetBalance(Printed(b)), Record(Deposit, Raw(text));
    RowsOfOne(odd, w);
    assert [w, x][..1] == [w];
    assert Taken(odd, w) && Taken(odd, x);
    assert RowsRead(odd, [w, x]) == RowsRead(odd, [w]) + [(Deposit, Reads(odd, text).value)];
    assert RowsOf([w, x]) == RowsOf([w]) + [(Deposit, Price(text))];
  }

  lemma RowsOfOne(odd: Reader, w: Statement)
    requires !w.Record? && Taken(odd, w)
    ensures AllTaken(odd, [w]) && RowsOf([w]) == [] && RowsRead(odd, [w]) == []
  {
    var none: seq<Statement> := [w][..0];
    assert none == [] && RowsOf(none) == [] && RowsRead(odd, none) == [];
  }

  /** The rows of a step are the meant ones exactly if a deposit is read alike; else they add up to the difference more. */
  lemma StepRows(odd: Reader, a: Account, e: Event)
    requires Safe(a) && Possible(e) && Admissible(a, e) && AllTaken(odd, Step(a, e).writes)
    ensures var o := Step(a, e);
      && (RowsRead(odd, o.writes) == RowsOf(o.writes) <==> DepositExact(odd, o.reply == Done, e))
      && Booked(RowsRead(odd, o.writes)) == Flow(o.writes) + Misread(odd, o.reply == Done, e)
  {
    hide WellFormed, ThreeDeep, Reads, Price, PriceText, Flow, Booked, Admissible;
    var o := Step(a, e);
    if e.Add? && o.reply == Done {
      DepositStep(odd, a, e);
    } else {
      if o.reply != Done { RefusedWritesNothing(a, e); }
      hide Step;
      StepTaken(odd, a, e);
      forall w <- o.writes | w.Record? ensures Sql(odd, w.amount) == Some(Cents(w.amount)) {
        StepWellMeant(a, e, w);
        PrintedTaken(odd, e, w);
      }
      MeantRowsRead(odd, o.writes);
      MeantRowsFlow(o.writes);
    }
  }

  lemma DepositStep(odd: Reader, a: Account, e: Event)
    requires Safe(a) && e.Add? && Admissible(a, e) && Step(a, e).reply == Done && AllTaken(odd, Step(a, e).writes)
    ensures var o := Step(a, e);
      && (RowsRead(odd, o.writes) == RowsOf(o.writes) <==> DepositExact(odd, true, e))
      && Booked(RowsRead(odd, o.writes)) == Flow(o.writes) + Misread(odd, true, e)
  {
    hide WellFormed, ThreeDeep, Reads, Price, PriceText, Flow, Booked;
    var b, ws := a.balance + Price(e.text), Step(a, e).writes;
    assert ws == [SetBalance(Printed(b)), Record(Deposit, Raw(e.text))];
    TypedIsPassedOn(odd, a, e);
    DepositRows(odd, b, e.text);
    OneRow((Deposit, Reads(odd, e.text).value));
    OneRow((Deposit, Price(e.text)));
    MeantRowsFlow(ws);
    if RowsRead(odd, ws) == RowsOf(ws) { assert RowsRead(odd, ws)[0].1 == RowsOf(ws)[0].1; }
  }

  /**
   * From any tables: the request of an admissible step is carried out if and only if the typed text is read.  The
   * rows that it then adds come to what the account has more, in its balance and reserved with its triggers, the lost
   * ones counted, if and only if a deposit is read as the number that the server reads.
   */
  lemma StepBooked(t: Tables, a: Account, e: Event)
    requires Safe(a) && Possible(e) && Admissible(a, e)
    ensures var o, r := Step(a, e), ExecAll(t, Step(a, e).writes);
      && (r.Some? <==> (o.reply == Done ==> IsRead(t.odd, e)))
      && (r.Some? ==>
           && Booked(r.value.records) - Booked(t.records)
              == Total(o.after) + Reserved(o.lost) - Total(a) + Misread(t.odd, o.reply == Done, e)
           && (Misread(t.odd, o.reply == Done, e) == 0 <==> DepositExact(t.odd, o.reply == Done, e)))
  {
    hide Step, WellFormed, ThreeDeep, Reads, Price, Flow, Booked, Admissible, Total, Reserved;
    var o := Step(a, e);
    StepTaken(t.odd, a, e);
    RowsWritten(t, o.writes);
    if AllTaken(t.odd, o.writes) {
      StepRows(t.odd, a, e);
      BookedBoth(t.records, RowsRead(t.odd, o.writes));
      StepConserves(a, e);
    }
  }

  /** The books in the tables balance for a step exactly if, besides, no reserved money goes with a removed trigger. */
  lemma StepBooksExactly(t: Tables, a: Account, e: Event)
    requires Safe(a) && Possible(e) && Admissible(a, e) && ExecAll(t, Step(a, e).writes).Some?
    ensures var o, r := Step(a, e), ExecAll(t, Step(a, e).writes);
      Total(o.after) - Total(a) == Booked(r.value.records) - Booked(t.records)
      <==> DepositExact(t.odd, o.reply == Done, e) && !LosesMoney(a, e)
  {
    hide Step, WellFormed, ThreeDeep, Reads, Price, Flow, Booked, Admissible, Total, Reserved;
    StepBooked(t, a, e);
    LostMoneyExactly(a, e);
  }

  /** "12.5" is twelve dollars and five cents to the account, and twelve and a half in its row. */
  lemma TenthsBooked(t: Tables, a: Account)
    requires Safe(a)
    ensures var e := Add([49, 50, POINT, 53]);
      && Admissible(a, e) && Faithful(t.odd, a, e) && Step(a, e).after.balance == a.balance + 1205
      && var r := ExecAll(t, Step(a, e).writes);
         r.Some? && r.value.records == t.records + [(Deposit, 1250)]
  {
    TenthsRead();
    MisreadDeposit(t, a, [49, 50, POINT, 53], 1205, 1250);
  }

  /** A deposit is booked as the database reads it, whatever the server makes of it. */
  lemma MisreadDeposit(t: Tables, a: Account, text: Text, cents: int, read: int)
    requires Safe(a) && Price(text) == cents >= 0 && Reads(t.odd, text) == Some(read)
    ensures var e := Add(text);
      && Admissible(a, e) && Faithful(t.odd, a, e) && Step(a, e).after.balance == a.balance + cents
      && var r := ExecAll(t, Step(a, e).writes);
         r.Some? && r.value.records == t.records + [(Deposit, read)]
  {
    hide Price, Reads, WellFormed, ThreeDeep, PriceText;
    DepositedCents(a, text, cents);
    hide Step, Admissible, ExecAll, RowsRead, RowsOf, AllTaken;
    DepositRows(t.odd, a.balance + cents, text);
    RowsWritten(t, Step(a, Add(text)).writes);
  }

  lemma DepositedCents(a: Account, text: Text, cents: int)
    requires Safe(a) && Price(text) == cents >= 0
    ensures Admissible(a, Add(text)) && Step(a, Add(text)).after.balance == a.balance + cents
    ensures Step(a, Add(text)).writes == [SetBalance(Printed(a.balance + cents)), Record(Deposit, Raw(text))]
  {
    hide Price, WellFormed, ThreeDeep;
  }

  lemma TenthsRead()
    ensures var text: Text := [49, 50, POINT, 53]; Price(text) == 1205 && SqlCents(text) == Some(1250) && !Odd(text)
  {
    var text: Text := [49, 50, POINT, 53];
    assert text[..2] == [49, 50] && text[3..] == [53] && Digits([49, 50]) && Digits([53]);
    var one: Text, two: Text := [53], [49, 50];
    assert one[..0] == [] && two[..1] == [49] && two[..1][..0] == [];
    assert Value(one) == 5 && Value(two[..1]) == 1 && Value(two) == 12;
    assert PointAt(text) == 2;
  }

  // ----- Tables that agree in everything -----

  /** The tables hold the account, and the rows that the statements were meant to add. */
  ghost predicate AgreesWholly(t: Tables, r: Option<Tables>, a: Account, writes: seq<Statement>) {
    Agrees(r, a) && r.value.records == t.records + RowsOf(writes)
  }

  /**
   * From tables that agree with a safe account, an admissible step leaves tables that agree with the new one in all
   * four kinds of rows if and only if its typed text is read alike and it removes no trigger that takes another along.
   */
  lemma StepTablesExactly(t: Tables, a: Account, e: Event)
    requires Mirrors(t, a) && Safe(a) && Possible(e) && Admissible(a, e)
    ensures AgreesWholly(t, ExecAll(t, Step(a, e).writes), Step(a, e).after, Step(a, e).writes)
      <==> (Step(a, e).reply == Done ==> ReadAlike(t.odd, e)) && LosesNothing(a, e)
  {
    hide Step, WellFormed, ThreeDeep, Reads, Price, Admissible, LosesNothing, Mirrors;
    var ws := Step(a, e).writes;
    StepMirrorsExactly(t, a, e);
    RowsWritten(t, ws);
    if AllTaken(t.odd, ws) {
      StepRows(t.odd, a, e);
      SameRest(t.records, RowsRead(t.odd, ws), RowsOf(ws));
    }
  }

  lemma SameRest<T>(s: seq<T>, r: seq<T>, q: seq<T>)
    ensures s + r == s + q <==> r == q
  {
    if s + r == s + q { assert r == (s + r)[|s|..] && q == (s + q)[|s|..]; }
  }

  /** For a text that is not odd, that is decided by its decimals. */
  lemma StepTablesByText(t: Tables, a: Account, e: Event)
    requires Mirrors(t, a) && Safe(a) && Possible(e) && Admissible(a, e) && (Typed(e).Some? ==> !Odd(Typed(e).value))
    ensures AgreesWholly(t, ExecAll(t, Step(a, e).writes), Step(a, e).after, Step(a, e).writes)
      <==> (Step(a, e).reply == Done && Typed(e).Some? ==> TwoDecimals(Typed(e).value)) && LosesNothing(a, e)
  {
    hide Step, Reads, Price, TwoDecimals, Odd, Admissible, LosesNothing, Mirrors, AgreesWholly, WellFormed, ThreeDeep;
    StepTablesExactly(t, a, e);
    if Typed(e).Some? { ReadAlikeExactly(t.odd, Typed(e).value); }
  }

  // ----- Whole runs -----

  ghost predicate WhollyAfter(t: Tables, a: Account, es: seq<Event>, k: nat)
    requires Formed(a) && AllPossible(es) && k <= |es|
  {
    AgreesWholly(t, ExecAll(t, Writes(a, es[..k])), Run(a, es[..k]), Writes(a, es[..k]))
  }

  ghost predicate TrueAt(odd: Reader, a: Account, es: seq<Event>, k: nat)
    requires Formed(a) && AllPossible(es) && k < |es|
  {
    var b := Run(a, es[..k]);
    (Step(b, es[k]).reply == Done ==> ReadAlike(odd, es[k])) && LosesNothing(b, es[k])
  }

  lemma WhollyOneMore(t: Tables, a: Account, es: seq<Event>, k: nat)
    requires Safe(a) && AllPossible(es) && k < |es| && AdmissibleThroughout(a, es) && WhollyAfter(t, a, es, k)
    ensures WhollyAfter(t, a, es, k + 1) <==> TrueAt(t.odd, a, es, k)
  {
    hide Step, WellFormed, ThreeDeep, ReadAlike, Admissible, LosesNothing, Mirrors, RowsOf, ExecAll;
    var b, e, ws := Run(a, es[..k]), es[k], Writes(a, es[..k]);
    SafeAfter(a, es, k);
    WritesOneMore(a, es, k);
    RunOneMore(a, es, k);
    ExecBoth(t, ws, Step(b, e).writes);
    ExecKeepsReader(t, ws);
    var t1 := ExecAll(t, ws).value;
    StepTablesExactly(t1, b, e);
    WhollyMore(t, t1, ExecAll(t1, Step(b, e).writes), Step(b, e).after, ws, Step(b, e).writes);
  }

  lemma WhollyMore(t: Tables, t1: Tables, r: Option<Tables>, a: Account, ws: seq<Statement>, more: seq<Statement>)
    requires t1.records == t.records + RowsOf(ws)
    ensures AgreesWholly(t, r, a, ws + more) <==> AgreesWholly(t1, r, a, more)
  {
    hide RowsOf, Mirrors;
    RowsOfBoth(ws, more);
    assert t.records + RowsOf(ws) + RowsOf(more) == t.records + (RowsOf(ws) + RowsOf(more));
  }

  lemma {:induction false} WhollyUpTo(t: Tables, a: Account, es: seq<Event>, k: nat)
    requires Mirrors(t, a) && Safe(a) && AllPossible(es) && AdmissibleThroughout(a, es) && k <= |es|
    requires forall j :: 0 <= j < |es| ==> TrueAt(t.odd, a, es, j)
    ensures WhollyAfter(t, a, es, k)
  {
    hide Step, WellFormed, ThreeDeep, ReadAlike, Admissible, LosesNothing, Mirrors, TrueAt;
    if k > 0 {
      WhollyUpTo(t, a, es, k - 1);
      assert TrueAt(t.odd, a, es, k - 1);
      WhollyOneMore(t, a, es, k - 1);
    } else {
      assert es[..0] == [] && t.records + [] == t.records;
    }
  }

  /**
   * Along an admissible run, tables and memory agree after every step in balance, holdings, triggers and transaction
   * rows if and only if every typed text is read alike and no removed trigger takes another along.
   */
  lemma RunsTablesExactly(t: Tables, a: Account, es: seq<Event>)
    requires Mirrors(t, a) && Safe(a) && AllPossible(es) && AdmissibleThroughout(a, es)
    ensures (forall k :: 0 <= k <= |es| ==> WhollyAfter(t, a, es, k)) <==> (forall k :: 0 <= k < |es| ==> TrueAt(t.odd, a, es, k))
  {
    hide Step, WellFormed, ThreeDeep, ReadAlike, Admissible, LosesNothing, Mirrors, TrueAt, WhollyAfter;
    if forall k :: 0 <= k < |es| ==> TrueAt(t.odd, a, es, k) {
      forall k | 0 <= k <= |es| ensures WhollyAfter(t, a, es, k) { WhollyUpTo(t, a, es, k); }
    }
    if forall k :: 0 <= k <= |es| ==> WhollyAfter(t, a, es, k) {
      forall k | 0 <= k < |es| ensures TrueAt(t.odd, a, es, k) {
        assert WhollyAfter(t, a, es, k) && WhollyAfter(t, a, es, k + 1);
        WhollyOneMore(t, a, es, k);
      }
    }
  }

  // ----- The books of whole runs -----

  /** What the database reads of all deposits of a run beyond what the server does. */
  ghost function Misreadings(odd: Reader, a: Account, es: seq<Event>): int
    requires Formed(a) && AllPossible(es)
  {
    if es == [] then 0
    else
      var init, e := es[..|es| - 1], es[|es| - 1];
      Misreadings(odd, a, init) + Misread(odd, Step(Run(a, init), e).reply == Done, e)
  }

  lemma AdmissiblePrefix(a: Account, es: seq<Event>, n: nat)
    requires Formed(a) && AllPossible(es) && AdmissibleThroughout(a, es) && n <= |es|
    ensures AllPossible(es[..n]) && AdmissibleThroughout(a, es[..n])
  {
    hide Step, WellFormed, ThreeDeep, Admissible, Possible;
    forall k | 0 <= k < n ensures Admissible(Run(a, es[..n][..k]), es[..n][k]) { assert es[..n][..k] == es[..k]; }
  }

  /**
   * On every admissible run of a safe account that the database carries out, balance plus reserved amounts change by
   * exactly what the transaction rows in the table add up to, less the triggers lost and the deposits misread.
   */
  lemma {:induction false} RunBooked(t: Tables, a: Account, es: seq<Event>)
    requires Safe(a) && AllPossible(es) && AdmissibleThroughout(a, es) && ExecAll(t, Writes(a, es)).Some?
    ensures Total(Run(a, es)) + Lost(a, es) + Misreadings(t.odd, a, es)
      == Total(a) + Booked(ExecAll(t, Writes(a, es)).value.records) - Booked(t.records)
  {
    hide WellFormed, ThreeDeep, Admissible, Possible, Step, Total, Reserved, Booked, Misread, Mirrors;
    if es != [] {
      var init, e := es[..|es| - 1], es[|es| - 1];
      AdmissiblePrefix(a, es, |es| - 1);
      var b, ws := Run(a, init), Writes(a, init);
      ExecBoth(t, ws, Step(b, e).writes);
      RunBooked(t, a, init);
      SafeAfter(a, es, |es| - 1);
      ExecKeepsReader(t, ws);
      assert Admissible(Run(a, es[..|es| - 1]), es[|es| - 1]);
      StepBooked(ExecAll(t, ws).value, b, e);
    }
  }

  ghost predicate BalancedAfter(t: Tables, a: Account, es: seq<Event>, k: nat)
    requires Formed(a) && AllPossible(es) && k <= |es|
  {
    var r := ExecAll(t, Writes(a, es[..k]));
    r.Some? && Total(Run(a, es[..k])) - Total(a) == Booked(r.value.records) - Booked(t.records)
  }

  /** The text is read, a deposit alike, and no reserved money goes along. */
  ghost predicate ExactAt(odd: Reader, a: Account, es: seq<Event>, k: nat)
    requires Formed(a) && AllPossible(es) && k < |es|
  {
    var b := Run(a, es[..k]);
    (Step(b, es[k]).reply == Done ==> IsRead(odd, es[k]) && (es[k].Add? ==> ReadAlike(odd, es[k]))) && !LosesMoney(b, es[k])
  }

  lemma BalancedOneMore(t: Tables, a: Account, es: seq<Event>, k: nat)
    requires Safe(a) && AllPossible(es) && k < |es| && AdmissibleThroughout(a, es) && BalancedAfter(t, a, es, k)
    ensures BalancedAfter(t, a, es, k + 1) <==> ExactAt(t.odd, a, es, k)
  {
    hide Step, WellFormed, ThreeDeep, Admissible, LosesMoney, Total, Booked, Reserved, Reads, Price;
    var b, e, ws := Run(a, es[..k]), es[k], Writes(a, es[..k]);
    SafeAfter(a, es, k);
    WritesOneMore(a, es, k);
    RunOneMore(a, es, k);
    ExecBoth(t, ws, Step(b, e).writes);
    ExecKeepsReader(t, ws);
    var t1 := ExecAll(t, ws).value;
    StepBooked(t1, b, e);
    if ExecAll(t1, Step(b, e).writes).Some? { StepBooksExactly(t1, b, e); }
  }

  lemma {:induction false} BalancedUpTo(t: Tables, a: Account, es: seq<Event>, k: nat)
    requires Safe(a) && AllPossible(es) && AdmissibleThroughout(a, es) && k <= |es|
    requires forall j :: 0 <= j < |es| ==> ExactAt(t.odd, a, es, j)
    ensures BalancedAfter(t, a, es, k)
  {
    hide Step, WellFormed, ThreeDeep, Admissible, ExactAt, Total, Booked, Reserved;
    if k > 0 {
      BalancedUpTo(t, a, es, k - 1);
      assert ExactAt(t.odd, a, es, k - 1);
      BalancedOneMore(t, a, es, k - 1);
    } else {
      assert es[..0] == [];
    }
  }

  /**
   * Along an admissible run of a safe account, from any tables, the account and the transaction rows in the table
   * balance after every step if and only if every typed text is read, every deposit that goes through is read as the
   * number that the server reads, and no reserved money goes with a removed trigger.  If some goes, the run is meant up
   * to the next examination of what was lost.
   */
  lemma RunsBalanceExactly(t: Tables, a: Account, es: seq<Event>)
    requires Safe(a) && AllPossible(es) && AdmissibleThroughout(a, es)
    ensures (forall k :: 0 <= k <= |es| ==> BalancedAfter(t, a, es, k)) <==> (forall k :: 0 <= k < |es| ==> ExactAt(t.odd, a, es, k))
  {
    hide Step, WellFormed, ThreeDeep, Admissible, ExactAt, BalancedAfter;
    if forall k :: 0 <= k < |es| ==> ExactAt(t.odd, a, es, k) {
      forall k | 0 <= k <= |es| ensures BalancedAfter(t, a, es, k) { BalancedUpTo(t, a, es, k); }
    }
    if forall k :: 0 <= k <= |es| ==> BalancedAfter(t, a, es, k) {
      forall k | 0 <= k < |es| ensures ExactAt(t.odd, a, es, k) {
        assert BalancedAfter(t, a, es, k) && BalancedAfter(t, a, es, k + 1);
        BalancedOneMore(t, a, es, k);
      }
    }
  }
}
