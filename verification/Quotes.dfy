/** The quote cache of the load balancer, and the age of the quotes that orders are committed at. */
module Quotes {
  import opened Base
  import opened Names
  import opened Prices
  import opened TrieSpec
  import opened Accounts
  import opened AccountSafety

  const SLOTS := STOCK_CHARS * STOCK_CHARS * STOCK_CHARS

  /** The address of a stock in the cache, built letter by letter. */
  function Slot(stock: Text): (slot: nat)
    requires ValidStock(stock)
    ensures slot < SLOTS
  {
    var a, b, c := stock[0] as int - 65, stock[1] as int - 65, stock[2] as int - 65;
    ((a % STOCK_CHARS) * STOCK_CHARS + b % STOCK_CHARS) * STOCK_CHARS + c % STOCK_CHARS
  }

  lemma DigitsDiffer(a: nat, b: nat, c: nat, d: nat, n: nat)
    requires b < n && d < n && a * n + b == c * n + d
    ensures a == c && b == d
  {
    assert (a - c) * n == d - b;
    MoreByOne(a - c, n);
    MoreByOne(c - a, n);
  }

  lemma MoreByOne(k: int, n: nat)
    ensures k >= 1 ==> k * n >= n
  {
    if k >= 1 { assert k * n == (k - 1) * n + n; }
  }

  lemma SlotOfLetters(s: Text)
    requires ValidStock(s)
    ensures var a, b, c := s[0] as int - 65, s[1] as int - 65, s[2] as int - 65;
      0 <= a < 26 && 0 <= b < 26 && 0 <= c < 26 && Slot(s) == (a * 26 + b) * 26 + c
  {
    assert StockIndex(s[0]).Some? && StockIndex(s[1]).Some? && StockIndex(s[2]).Some?;
  }

  lemma SameLetters(a: nat, b: nat, c: nat, x: nat, y: nat, z: nat)
    requires b < 26 && c < 26 && y < 26 && z < 26 && (a * 26 + b) * 26 + c == (x * 26 + y) * 26 + z
    ensures a == x && b == y && c == z
  {
    DigitsDiffer(a * 26 + b, c, x * 26 + y, z, 26);
    DigitsDiffer(a, b, x, y, 26);
  }

  /** Different stocks have different slots. */
  lemma SlotInjective(s: Text, u: Text)
    requires ValidStock(s) && ValidStock(u) && Slot(s) == Slot(u)
    ensures s == u
  {
    SlotOfLetters(s);
    SlotOfLetters(u);
    SameLetters(s[0] as int - 65, s[1] as int - 65, s[2] as int - 65, u[0] as int - 65, u[1] as int - 65, u[2] as int - 65);
    assert forall i :: 0 <= i < 3 ==> s[i] == u[i];
  }

  // ----- The cache -----

  /** What a slot holds: the text of the price and the time of its storing.  A fresh slot has time zero. */
  datatype Entry = Entry(price: Text, ts: int)

  class Cache {
    const slots: array<Entry>

    ghost predicate Valid() {
      slots.Length == SLOTS
    }

    constructor ()
      ensures Valid() && fresh(slots) && forall i :: 0 <= i < SLOTS ==> slots[i] == Entry([], 0)
    {
      slots := new Entry[SLOTS](_ => Entry([], 0));
    }

    /** A "QCR" request, and the first half of a "QNR" one: a reply only from an entry that has not timed out. */
    method Ask(stock: Text, now: int) returns (reply: Option<Entry>)
      requires Valid() && ValidStock(stock)
      ensures var e := slots[Slot(stock)]; reply == if now - e.ts < QUOTE_TO then Some(e) else None
    {
      var address := (stock[0] as int - 65) % STOCK_CHARS;
      address := address * STOCK_CHARS + (stock[1] as int - 65) % STOCK_CHARS;
      address := address * STOCK_CHARS + (stock[2] as int - 65) % STOCK_CHARS;
      var q := slots[address];
      if now - q.ts < QUOTE_TO { return Some(q); }
      return None;
    }

    /** A fetched price is stored with the time of its storing; no other stock's entry changes. */
    method Store(stock: Text, price: Text, now: int)
      requires Valid() && ValidStock(stock)
      modifies slots
      ensures slots[Slot(stock)] == Entry(price, now)
      ensures forall u | ValidStock(u) && u != stock :: slots[Slot(u)] == old(slots[Slot(u)])
    {
      slots[Slot(stock)] := Entry(price, now);
      forall u | ValidStock(u) && u != stock ensures slots[Slot(u)] == old(slots[Slot(u)]) {
        if Slot(u) == Slot(stock) { SlotInjective(u, stock); }
      }
    }
  }

  // ----- The whole way of a quote -----

  /** A price that was stored for a stock, and when. */
  datatype Stored = Stored(stock: Text, price: Text, ts: int)

  /** One clock, the cache by slot, the stock objects of the server, the accounts, and all that was ever stored. */
  datatype World = World(
    clock: int, cache: map<nat, Entry>, stocks: map<Text, Quote>, accounts: map<Text, Account>, stored: set<Stored>)

  datatype Action =
    | Wait(time: nat)
    | Fetch(stock: Text, price: Text)        // the quote server answers, and the load balancer stores
    | Reply(stock: Text)                     // the server takes over the entry of the stock's slot
    | Act(user: Text, event: Event)          // a command or a firing
    | Enter(newcomer: Text, account: Account)  // `addUser`: a new account, or a reloaded one

  /** The quote that an order goes by is the stock's at that moment, and the moments are now. */
  predicate Timely(w: World, e: Event) {
    match e
    case Buy(stock, _, now, cached, fetched) => now == w.clock && AtHand(w, stock, Current(now, cached, fetched))
    case Sell(stock, _, now, cached, fetched) => now == w.clock && AtHand(w, stock, Current(now, cached, fetched))
    case CommitBuy(now) => now == w.clock
    case CommitSell(now) => now == w.clock
    case _ => true
  }

  /** A stock object shows what it was last given, or zero. */
  predicate AtHand(w: World, stock: Text, q: Quote) {
    q == if stock in w.stocks then w.stocks[stock] else Quote(0, 0)
  }

  ghost predicate Enabled(w: World, a: Action) {
    match a
    case Wait(_) => true
    case Fetch(stock, _) => ValidStock(stock)
    case Reply(stock) => ValidStock(stock) && Slot(stock) in w.cache
    case Act(u, e) => u in w.accounts && Formed(w.accounts[u]) && Possible(e) && Timely(w, e)
    case Enter(u, a) => u !in w.accounts && Formed(a) && a.buysell == 0
  }

  ghost function Do(w: World, a: Action): World
    requires Enabled(w, a)
  {
    match a
    case Wait(time) => w.(clock := w.clock + time)
    case Fetch(stock, price) =>
      w.(cache := w.cache[Slot(stock) := Entry(price, w.clock)], stored := w.stored + {Stored(stock, price, w.clock)})
    case Reply(stock) =>
      var e := w.cache[Slot(stock)];
      w.(stocks := w.stocks[stock := Quote(Price(e.price), e.ts)])
    case Act(u, e) => w.(accounts := w.accounts[u := Step(w.accounts[u], e).after])
    case Enter(u, a) => w.(accounts := w.accounts[u := a])
  }

  // ----- Where prices come from -----

  /** The slot of a stock holds something that was stored for that very stock. */
  ghost predicate CacheOwn(w: World) {
    forall stock | ValidStock(stock) && Slot(stock) in w.cache ::
      Stored(stock, w.cache[Slot(stock)].price, w.cache[Slot(stock)].ts) in w.stored
  }

  ghost predicate QuotedFrom(w: World, stock: Text, price: int, ts: int) {
    exists x :: x in w.stored && x.stock == stock && x.ts == ts && Price(x.price) == price
  }

  ghost predicate StocksOwn(w: World) {
    forall stock <- w.stocks :: QuotedFrom(w, stock, w.stocks[stock].price, w.stocks[stock].ts)
  }

  /** A pending order is so many shares at a price of at least a cent that was stored for its stock at its prompt time. */
  ghost predicate OrderPriced(w: World, a: Account) {
    a.buysell != 0 ==>
      && a.stock.Some?
      && exists price :: price >= 1 && a.reserve == price * a.no && QuotedFrom(w, a.stock.value, price, a.promptTime)
  }

  ghost predicate Traced(w: World) {
    && (forall x <- w.stored :: x.ts <= w.clock)
    && CacheOwn(w)
    && StocksOwn(w)
    && (forall u <- w.accounts :: Formed(w.accounts[u]) && OrderPriced(w, w.accounts[u]))
  }

  lemma QuotedStays(w: World, v: World, stock: Text, price: int, ts: int)
    requires w.stored <= v.stored && QuotedFrom(w, stock, price, ts)
    ensures QuotedFrom(v, stock, price, ts)
  {
    var x :| x in w.stored && x.stock == stock && x.ts == ts && Price(x.price) == price;
    assert x in v.stored;
  }

  lemma PricedStays(w: World, v: World, a: Account)
    requires w.stored <= v.stored && OrderPriced(w, a)
    ensures OrderPriced(v, a)
  {
    if a.buysell != 0 {
      var price :| price >= 1 && a.reserve == price * a.no && QuotedFrom(w, a.stock.value, price, a.promptTime);
      QuotedStays(w, v, a.stock.value, price, a.promptTime);
    }
  }

  /** The pending order after a step is the one before it, gone, or a new one at the quote at hand. */
  lemma OrderAfter(a: Account, e: Event)
    requires Formed(a) && Possible(e)
    ensures var b := Step(a, e).after;
      || b.buysell == 0
      || (b.buysell == a.buysell && b.stock == a.stock && b.reserve == a.reserve && b.no == a.no && b.promptTime == a.promptTime)
      || ((e.Buy? || e.Sell?) && b.stock == Some(e.stock) &&
          var q := Current(e.now, e.cached, e.fetched); q.price >= 1 && b.reserve == q.price * b.no && b.promptTime == q.ts)
  {
  }

  lemma ActKeepsPriced(w: World, u: Text, e: Event)
    requires Traced(w) && Enabled(w, Act(u, e))
    ensures OrderPriced(w, Step(w.accounts[u], e).after)
  {
    var a, b := w.accounts[u], Step(w.accounts[u], e).after;
    OrderAfter(a, e);
    assert OrderPriced(w, a);
    if b.buysell != 0 && (e.Buy? || e.Sell?) {
      var q := Current(e.now, e.cached, e.fetched);
      if b.stock == Some(e.stock) && q.price >= 1 && b.reserve == q.price * b.no && b.promptTime == q.ts {
        assert e.stock in w.stocks;
        assert QuotedFrom(w, e.stock, q.price, q.ts);
      }
    }
  }

  lemma FetchKeepsTraced(w: World, stock: Text, price: Text)
    requires Traced(w) && ValidStock(stock)
    ensures Traced(Do(w, Fetch(stock, price)))
  {
    var v := Do(w, Fetch(stock, price));
    forall s | ValidStock(s) && Slot(s) in v.cache ensures Stored(s, v.cache[Slot(s)].price, v.cache[Slot(s)].ts) in v.stored {
      if Slot(s) == Slot(stock) { SlotInjective(s, stock); }
    }
    RestStaysTraced(w, v);
  }

  /** What is stored stays stored, so prices stay traced as long as stocks and accounts do not change. */
  lemma RestStaysTraced(w: World, v: World)
    requires Traced(w) && w.stored <= v.stored
    ensures forall s <- w.stocks :: QuotedFrom(v, s, w.stocks[s].price, w.stocks[s].ts)
    ensures forall u <- w.accounts :: OrderPriced(v, w.accounts[u])
  {
    forall s <- w.stocks ensures QuotedFrom(v, s, w.stocks[s].price, w.stocks[s].ts) {
      QuotedStays(w, v, s, w.stocks[s].price, w.stocks[s].ts);
    }
    forall u <- w.accounts ensures OrderPriced(v, w.accounts[u]) { PricedStays(w, v, w.accounts[u]); }
  }

  /** Every action keeps all prices traced to what was stored for their stock. */
  lemma ActionKeepsTraced(w: World, a: Action)
    requires Traced(w) && Enabled(w, a)
    ensures Traced(Do(w, a))
  {
    var v := Do(w, a);
    match a
    case Fetch(stock, price) => FetchKeepsTraced(w, stock, price);
    case Act(u, e) =>
      StepKeepsForm(w.accounts[u], e);
      ActKeepsPriced(w, u, e);
      RestStaysTraced(w, v);
      PricedStays(w, v, Step(w.accounts[u], e).after);
    case Wait(_) => RestStaysTraced(w, v);
    case Enter(_, _) => RestStaysTraced(w, v);
    case Reply(stock) => ReplyKeepsTraced(w, stock);
  }

  lemma ReplyKeepsTraced(w: World, stock: Text)
    requires Traced(w) && Enabled(w, Reply(stock))
    ensures Traced(Do(w, Reply(stock)))
  {
    var v := Do(w, Reply(stock));
    var e := w.cache[Slot(stock)];
    assert Stored(stock, e.price, e.ts) in v.stored;
    assert QuotedFrom(v, stock, Price(e.price), e.ts);
    RestStaysTraced(w, v);
  }

  // ----- Whole runs -----

  ghost predicate Reaches(w: World, actions: seq<Action>, v: World)
    decreases |actions|
  {
    if actions == [] then w == v
    else Enabled(w, actions[0]) && Reaches(Do(w, actions[0]), actions[1..], v)
  }

  /** A system that has just started: slots of time zero in the cache, and nobody there. */
  ghost predicate Starting(w: World) {
    w.cache == map[] && w.stocks == map[] && w.accounts == map[] && w.stored == {}
  }

  lemma {:induction false} RunKeepsTraced(w: World, actions: seq<Action>, v: World)
    requires Traced(w) && Reaches(w, actions, v)
    ensures Traced(v)
    decreases |actions|
  {
    if actions != [] {
      ActionKeepsTraced(w, actions[0]);
      RunKeepsTraced(Do(w, actions[0]), actions[1..], v);
    }
  }

  /** From the start on, with any fetches, replies, users, commands and firings, every price is traced. */
  lemma ReachableTraced(w: World, actions: seq<Action>, v: World)
    requires Starting(w) && Reaches(w, actions, v)
    ensures Traced(v)
  {
    assert Traced(w);
    RunKeepsTraced(w, actions, v);
  }

  /**
   * In every reachable world, a commit that goes through pays for each share a price of at least one cent that
   * the load balancer stored for that very stock, at most 28 seconds before the commit.
   */
  lemma CommitsAtFreshPrice(w: World, u: Text, e: Event)
    requires Traced(w) && Enabled(w, Act(u, e)) && (e.CommitBuy? || e.CommitSell?)
    requires Step(w.accounts[u], e).reply == Done
    ensures var a := w.accounts[u];
      && a.stock.Some?
      && exists x :: x in w.stored && x.stock == a.stock.value && Price(x.price) >= 1
                     && a.reserve == Price(x.price) * a.no && w.clock - QUOTE_TO <= x.ts <= w.clock
  {
    var a := w.accounts[u];
    assert OrderPriced(w, a);
    var price :| price >= 1 && a.reserve == price * a.no && QuotedFrom(w, a.stock.value, price, a.promptTime);
    var x :| x in w.stored && x.stock == a.stock.value && x.ts == a.promptTime && Price(x.price) == price;
  }

  /** A reply from the cache, when the slot has not timed out, is younger than 28 seconds and of the stock asked for. */
  lemma HitIsFreshAndOwn(w: World, stock: Text)
    requires Traced(w) && ValidStock(stock) && Slot(stock) in w.cache && w.clock - w.cache[Slot(stock)].ts < QUOTE_TO
    ensures exists x :: x in w.stored && x.stock == stock && x.price == w.cache[Slot(stock)].price
                        && w.clock - QUOTE_TO < x.ts <= w.clock
  {
    var e := w.cache[Slot(stock)];
    assert Stored(stock, e.price, e.ts) in w.stored;
  }

  /** A price that was just fetched and taken over is the one that an order of its stock goes by, as of now. */
  lemma FetchedIsAtHand(w: World, stock: Text, price: Text, q: Quote)
    requires ValidStock(stock)
    ensures var v := Do(w, Fetch(stock, price));
      && Enabled(v, Reply(stock)) && Stored(stock, price, w.clock) in v.stored
      && (AtHand(Do(v, Reply(stock)), stock, q) <==> q == Quote(Price(price), w.clock))
      && forall u: Text | u != stock :: AtHand(Do(v, Reply(stock)), u, q) <==> AtHand(w, u, q)
  {
    hide Price;
  }
}
