/** The two indexes of triggers: the ring of each stock and the trie of each user. */
module Index {
  import opened Base
  import opened Names
  import opened Prices
  import opened TrieSpec
  import opened Accounts
  import opened AccountSafety
  import opened AccountRuns
  import opened AccountLosses

  /** A trigger in a stock's ring, as the two fields that its user and its type are. */
  datatype Id = Id(user: Text, kind: Kind)

  /** The accounts, and the ring of each stock from `curr` on. */
  datatype World = World(accounts: System, rings: map<Text, seq<Id>>)

  function RingOf(w: World, stock: Text): seq<Id> {
    if stock in w.rings then w.rings[stock] else []
  }

  function Without(ring: seq<Id>, id: Id): seq<Id> {
    if ring == [] then []
    else if ring[0] == id then ring[1..]
    else [ring[0]] + Without(ring[1..], id)
  }

  lemma {:induction false} WithoutOnlyThat(ring: seq<Id>, id: Id)
    requires AllDifferent(ring)
    ensures AllDifferent(Without(ring, id)) && forall x :: x in Without(ring, id) <==> x in ring && x != id
  {
    if ring != [] {
      WithoutOnlyThat(ring[1..], id);
      assert ring == [ring[0]] + ring[1..];
      assert forall i :: 0 <= i < |ring| - 1 ==> ring[1..][i] == ring[i + 1];
      assert ring[0] !in ring[1..];
    }
  }

  // ----- Keys -----

  /** A key of the trigger trie that some type and stock spell. */
  predicate IsTriggerPath(p: Path) {
    |p| == 3 && ((p[0] < 26 && p[1] < 26 && p[2] < 26) || (26 <= p[0] < 52 && 26 <= p[1] < 52 && 26 <= p[2] < 52))
  }

  function KindOf(p: Path): Kind
    requires IsTriggerPath(p)
  {
    if p[0] < 26 then Kind.Buy else Kind.Sell
  }

  function StockOf(p: Path): (stock: Text)
    requires IsTriggerPath(p)
    ensures ValidStock(stock) && TriggerPath(KindOf(p), stock) == p
  {
    var d := if p[0] < 26 then 65 else 39;
    [(p[0] + d) as Code, (p[1] + d) as Code, (p[2] + d) as Code]
  }

  lemma PathIsOne(kind: Kind, stock: Text)
    requires ValidStock(stock)
    ensures IsTriggerPath(TriggerPath(kind, stock))
  {
    forall i | 0 <= i < 3 { IndexesInjective(stock[i], stock[i], kind, kind); }
    var p := TriggerPath(kind, stock);
    assert forall i :: 0 <= i < 3 ==> p[i] == TriggerIndex(kind, stock[i]).value;
  }

  // ----- Agreement -----

  ghost predicate Indexed(w: World, u: Text, kind: Kind, stock: Text)
    requires u in w.accounts && ValidStock(stock)
  {
    Id(u, kind) in RingOf(w, stock) <==> TriggerOf(w.accounts[u], kind, stock).Some?
  }

  /** A stock's ring holds exactly the triggers that the tries of all users hold for it, each once. */
  ghost predicate AgreeOn(w: World, stock: Text)
    requires ValidStock(stock)
  {
    && AllDifferent(RingOf(w, stock))
    && (forall id <- RingOf(w, stock) :: id.user in w.accounts)
    && (forall u, kind | u in w.accounts :: Indexed(w, u, kind, stock))
  }

  /** So it is for every stock. */
  ghost predicate Agree(w: World) {
    forall stock | ValidStock(stock) :: AgreeOn(w, stock)
  }

  /** Every account has its structure, and only keys that a type and a stock spell. */
  ghost predicate Sound(w: World) {
    forall u <- w.accounts :: Formed(w.accounts[u]) && ProperKeys(w.accounts[u])
  }

  ghost predicate ProperKeys(a: Account) {
    forall p <- a.triggers.vals :: IsTriggerPath(p)
  }

  datatype RingChange = Unchanged | Join(kind: Kind) | Leave(kind: Kind)

  /** What a step does to the ring of the stock it names. */
  function ChangeOf(e: Event, reply: Reply): RingChange {
    if reply != Done then Unchanged
    else
      match e
      case SetBuyAmount(_, _, _) => Join(Kind.Buy)
      case SetSellAmount(_, _, _) => Join(Kind.Sell)
      case CancelSetBuy(_) => Leave(Kind.Buy)
      case CancelSetSell(_) => Leave(Kind.Sell)
      case Fire(kind, _, _) => Leave(kind)
      case _ => Unchanged
  }

  function Changed(ring: seq<Id>, u: Text, c: RingChange): seq<Id> {
    match c
    case Unchanged => ring
    case Join(kind) => ring + [Id(u, kind)]
    case Leave(kind) => Without(ring, Id(u, kind))
  }

  /** The step of one user, in both indexes: `addTrigger` and `removeTrigger` change them together. */
  ghost function WorldStep(w: World, u: Text, e: Event): World
    requires Sound(w) && u in w.accounts && Possible(e)
  {
    var o := Step(w.accounts[u], e);
    var c := ChangeOf(e, o.reply);
    World(w.accounts[u := o.after], if c == Unchanged then w.rings else w.rings[e.stock := Changed(RingOf(w, e.stock), u, c)])
  }

  /** `curr` moving on turns the ring and changes nothing else. */
  function Turned(w: World, stock: Text): World {
    var r := RingOf(w, stock);
    if r == [] then w else w.(rings := w.rings[stock := r[1..] + [r[0]]])
  }

  lemma TurnedRing(w: World, stock: Text, s: Text)
    requires AllDifferent(RingOf(w, s))
    ensures AllDifferent(RingOf(Turned(w, stock), s))
    ensures forall id :: id in RingOf(Turned(w, stock), s) <==> id in RingOf(w, s)
  {
    var r := RingOf(w, stock);
    if r != [] && s == stock {
      assert r == [r[0]] + r[1..];
    }
  }

  lemma TurningKeepsStock(w: World, stock: Text, s: Text)
    requires ValidStock(s) && AgreeOn(w, s)
    ensures AgreeOn(Turned(w, stock), s)
  {
    TurnedRing(w, stock, s);
    forall u, kind | u in w.accounts ensures Indexed(Turned(w, stock), u, kind, s) { assert Indexed(w, u, kind, s); }
  }

  lemma TurningKeepsAgreement(w: World, stock: Text)
    requires Agree(w)
    ensures Agree(Turned(w, stock))
  {
    forall s | ValidStock(s) ensures AgreeOn(Turned(w, stock), s) { TurningKeepsStock(w, stock, s); }
  }

  // ----- What a step does to the triggers of its user -----

  ghost predicate Listed(a: Account, kind: Kind, stock: Text)
    requires ValidStock(stock)
  {
    TriggerPath(kind, stock) in a.triggers.vals
  }

  lemma JoinLists(a: Account, kind: Kind, stock: Text, t: Trigger, k: Kind, s: Text)
    requires ValidStock(stock) && ValidStock(s)
    ensures Listed(WithTrigger(a, kind, stock, t), k, s) <==> Listed(a, k, s) || (k == kind && s == stock)
  {
    if TriggerPath(k, s) == TriggerPath(kind, stock) { TriggerPathInjective(k, s, kind, stock); }
  }

  lemma LeaveLists(a: Account, kind: Kind, stock: Text, k: Kind, s: Text)
    requires Formed(a) && ValidStock(stock) && ValidStock(s) && Listed(a, kind, stock)
    ensures Listed(WithoutTrigger(a, TriggerPath(kind, stock)), k, s)
      <==> Listed(a, k, s) && !(k == kind && s == stock) && TriggerPath(k, s) !in LostWith(a, TriggerPath(kind, stock))
  {
    var key := TriggerPath(kind, stock);
    RemoveShortKeepsForm(a.triggers, key, TRIGGER_WIDTH);
    if TriggerPath(k, s) == key { TriggerPathInjective(k, s, kind, stock); }
  }

  /** Where the step lists a trigger: as before, with the one that joined, without the one that left or any lost. */
  ghost predicate ListsAs(a: Account, o: Outcome, c: RingChange, stock: Text, k: Kind, s: Text)
    requires ValidStock(s)
  {
    Listed(o.after, k, s) <==>
      if c.Join? then Listed(a, k, s) || (k == c.kind && s == stock)
      else Listed(a, k, s) && !(c.Leave? && k == c.kind && s == stock) && TriggerPath(k, s) !in o.lost
  }

  lemma JoiningLists(a: Account, e: Event, k: Kind, s: Text)
    requires Formed(a) && (e.SetBuyAmount? || e.SetSellAmount?) && ValidStock(s)
    ensures var o := Step(a, e);
      var c := ChangeOf(e, o.reply);
      && (c != Unchanged ==> ValidStock(e.stock) && c.Join? && !Listed(a, c.kind, e.stock))
      && (if c == Unchanged then o.after == a && o.lost == map[] else ListsAs(a, o, c, e.stock, k, s))
  {
    hide CDiv, Sold, Price, WellFormed, ThreeDeep, TriggerPath, StockPath;
    if Step(a, e).reply == Done {
      JoinLists(a, if e.SetBuyAmount? then Kind.Buy else Kind.Sell, e.stock, Trigger(e.transID, Price(e.text), 0), k, s);
    }
  }

  lemma LeavingLists(a: Account, e: Event, k: Kind, s: Text)
    requires Formed(a) && Possible(e) && (e.CancelSetBuy? || e.CancelSetSell? || e.Fire?) && ValidStock(s)
    ensures var o := Step(a, e);
      var c := ChangeOf(e, o.reply);
      && (c != Unchanged ==> ValidStock(e.stock) && c.Leave? && Listed(a, c.kind, e.stock))
      && (if c == Unchanged then o.after == a && o.lost == map[] else ListsAs(a, o, c, e.stock, k, s))
  {
    hide CDiv, Sold, Price, WellFormed, ThreeDeep, TriggerPath, StockPath, Casualties;
    if Step(a, e).reply == Done {
      LeaveLists(a, if e.CancelSetBuy? then Kind.Buy else if e.CancelSetSell? then Kind.Sell else e.kind, e.stock, k, s);
    }
  }

  lemma OthersList(a: Account, e: Event, k: Kind, s: Text)
    requires Formed(a) && ValidStock(s)
    requires !(e.SetBuyAmount? || e.SetSellAmount? || e.CancelSetBuy? || e.CancelSetSell? || e.Fire?)
    ensures var o := Step(a, e);
      ChangeOf(e, o.reply) == Unchanged && o.lost == map[] && (Listed(o.after, k, s) <==> Listed(a, k, s))
  {
    hide CDiv, Sold, Price, WellFormed, ThreeDeep, TriggerPath, StockPath;
  }

  lemma StepLists(a: Account, e: Event, k: Kind, s: Text)
    requires Formed(a) && Possible(e) && ValidStock(s)
    ensures var o := Step(a, e);
      var c := ChangeOf(e, o.reply);
      && (c != Unchanged ==> ValidStock(e.stock))
      && (c.Join? ==> !Listed(a, c.kind, e.stock))
      && (c.Leave? ==> Listed(a, c.kind, e.stock))
      && (if c == Unchanged then o.lost == map[] && (Listed(o.after, k, s) <==> Listed(a, k, s))
          else ListsAs(a, o, c, e.stock, k, s))
  {
    if e.SetBuyAmount? || e.SetSellAmount? {
      JoiningLists(a, e, k, s);
    } else if e.CancelSetBuy? || e.CancelSetSell? || e.Fire? {
      LeavingLists(a, e, k, s);
    } else {
      OthersList(a, e, k, s);
    }
  }

  lemma StepKeepsKeys(a: Account, e: Event)
    requires Formed(a) && Possible(e) && ProperKeys(a)
    ensures ProperKeys(Step(a, e).after)
  {
    hide CDiv, Sold, Price, WellFormed, ThreeDeep, Casualties, LostWith;
    var o := Step(a, e);
    if e.SetBuyAmount? && ValidStock(e.stock) {
      PathIsOne(Kind.Buy, e.stock);
    } else if e.SetSellAmount? && ValidStock(e.stock) {
      PathIsOne(Kind.Sell, e.stock);
    } else if e.CancelSetBuy? && o.reply == Done {
      RemoveShortKeepsForm(a.triggers, TriggerPath(Kind.Buy, e.stock), TRIGGER_WIDTH);
    } else if e.CancelSetSell? && o.reply == Done {
      RemoveShortKeepsForm(a.triggers, TriggerPath(Kind.Sell, e.stock), TRIGGER_WIDTH);
    } else if e.Fire? && o.reply == Done {
      RemoveShortKeepsForm(a.triggers, TriggerPath(e.kind, e.stock), TRIGGER_WIDTH);
    }
  }

  lemma StepKeepsSound(w: World, u: Text, e: Event)
    requires Sound(w) && u in w.accounts && Possible(e)
    ensures Sound(WorldStep(w, u, e))
  {
    StepKeepsForm(w.accounts[u], e);
    StepKeepsKeys(w.accounts[u], e);
  }

  lemma RingChanges(ring: seq<Id>, u: Text, c: RingChange, id: Id)
    requires AllDifferent(ring) && (c.Join? ==> Id(u, c.kind) !in ring)
    ensures AllDifferent(Changed(ring, u, c))
    ensures id in Changed(ring, u, c) <==> match c
      case Unchanged => id in ring
      case Join(kind) => id in ring || id == Id(u, kind)
      case Leave(kind) => id in ring && id != Id(u, kind)
  {
    if c.Leave? { WithoutOnlyThat(ring, Id(u, c.kind)); }
  }

  /**
   * A trigger joins behind all others, as on the linked ring it goes before `curr`; one that leaves is taken from its
   * place, and the others keep their order.
   */
  lemma {:induction false} RingKeepsOrder(ring: seq<Id>, u: Text, c: RingChange)
    requires AllDifferent(ring)
    ensures c.Join? ==> |Changed(ring, u, c)| == |ring| + 1 && ring <= Changed(ring, u, c) && Changed(ring, u, c)[|ring|] == Id(u, c.kind)
    ensures c.Leave? && Id(u, c.kind) in ring ==>
      exists k :: 0 <= k < |ring| && ring[k] == Id(u, c.kind) && Changed(ring, u, c) == ring[..k] + ring[k + 1..]
    ensures c.Leave? && Id(u, c.kind) !in ring ==> Changed(ring, u, c) == ring
  {
    if c.Leave? { WithoutInPlace(ring, Id(u, c.kind)); }
  }

  lemma {:induction false} WithoutInPlace(ring: seq<Id>, id: Id)
    ensures id in ring ==> exists k :: 0 <= k < |ring| && ring[k] == id && Without(ring, id) == ring[..k] + ring[k + 1..]
    ensures id !in ring ==> Without(ring, id) == ring
  {
    if ring != [] {
      assert ring == [ring[0]] + ring[1..];
      if ring[0] == id {
        assert Without(ring, id) == ring[..0] + ring[1..];
      } else {
        WithoutInPlace(ring[1..], id);
        if id in ring {
          assert id in ring[1..];
          var k :| 0 <= k < |ring[1..]| && ring[1..][k] == id && Without(ring[1..], id) == ring[1..][..k] + ring[1..][k + 1..];
          BehindFirst(ring, k);
          assert ring[k + 1] == id && Without(ring, id) == ring[..k + 1] + ring[k + 2..];
        }
      }
    }
  }

  lemma BehindFirst(ring: seq<Id>, k: nat)
    requires k + 1 < |ring|
    ensures [ring[0]] + (ring[1..][..k] + ring[1..][k + 1..]) == ring[..k + 1] + ring[k + 2..]
  {
  }

  /** What a step loses was listed, and is not what it was meant to remove. */
  lemma LostAreOthers(a: Account, e: Event, p: Path)
    requires Formed(a) && Possible(e) && p in Step(a, e).lost
    ensures p in a.triggers.vals
    ensures var c := ChangeOf(e, Step(a, e).reply); c.Leave? && ValidStock(e.stock) && p != TriggerPath(c.kind, e.stock)
  {
    hide CDiv, Sold, Price, WellFormed, ThreeDeep, RemoveShort, StockPath;
    var kind := if e.CancelSetBuy? then Kind.Buy else if e.CancelSetSell? then Kind.Sell else e.kind;
    var key := TriggerPath(kind, e.stock);
    NothingBelow(a, key);
    RemoveShortEffect(a.triggers, key, TRIGGER_WIDTH);
  }

  lemma RingAfter(w: World, u: Text, e: Event, id: Id, s: Text)
    requires Sound(w) && u in w.accounts && Possible(e) && ValidStock(s) && AllDifferent(RingOf(w, s))
    requires var c := ChangeOf(e, Step(w.accounts[u], e).reply);
      (c.Join? && s == e.stock ==> Id(u, c.kind) !in RingOf(w, s))
    ensures var c := ChangeOf(e, Step(w.accounts[u], e).reply);
      && AllDifferent(RingOf(WorldStep(w, u, e), s))
      && (id in RingOf(WorldStep(w, u, e), s) <==>
            if c.Join? then id in RingOf(w, s) || (s == e.stock && id == Id(u, c.kind))
            else id in RingOf(w, s) && !(c.Leave? && s == e.stock && id == Id(u, c.kind)))
  {
    hide Step, WellFormed, ThreeDeep, ProperKeys, Changed;
    var c := ChangeOf(e, Step(w.accounts[u], e).reply);
    if c != Unchanged && s == e.stock { RingChanges(RingOf(w, s), u, c, id); }
  }

  /** A trigger only joins a ring that it is not in. */
  lemma JoinsOnlyIfAbsent(w: World, u: Text, e: Event, s: Text)
    requires Sound(w) && u in w.accounts && Possible(e) && ValidStock(s) && AgreeOn(w, s)
    ensures var c := ChangeOf(e, Step(w.accounts[u], e).reply);
      c.Join? && s == e.stock ==> Id(u, c.kind) !in RingOf(w, s)
  {
    var c := ChangeOf(e, Step(w.accounts[u], e).reply);
    StepLists(w.accounts[u], e, Kind.Buy, s);
    if c.Join? && s == e.stock { assert Indexed(w, u, c.kind, s); }
  }

  lemma OwnEntryAfter(w: World, u: Text, e: Event, k: Kind, s: Text)
    requires Sound(w) && u in w.accounts && Possible(e) && ValidStock(s) && AgreeOn(w, s)
    ensures Indexed(WorldStep(w, u, e), u, k, s) <==> TriggerPath(k, s) !in Step(w.accounts[u], e).lost
  {
    hide Step, TriggerPath, StockPath, WellFormed, ThreeDeep, ProperKeys, RingOf;
    var a := w.accounts[u];
    assert Indexed(w, u, k, s);
    StepLists(a, e, k, s);
    JoinsOnlyIfAbsent(w, u, e, s);
    RingAfter(w, u, e, Id(u, k), s);
    if TriggerPath(k, s) in Step(a, e).lost { LostAreOthers(a, e, TriggerPath(k, s)); }
    assert WorldStep(w, u, e).accounts[u] == Step(a, e).after;
  }

  lemma OtherEntryAfter(w: World, u: Text, e: Event, x: Text, k: Kind, s: Text)
    requires Sound(w) && u in w.accounts && x in w.accounts && x != u && Possible(e) && ValidStock(s) && AgreeOn(w, s)
    ensures Indexed(WorldStep(w, u, e), x, k, s)
  {
    hide Step, TriggerPath, StockPath, WellFormed, ThreeDeep, ProperKeys, RingOf;
    assert Indexed(w, x, k, s);
    JoinsOnlyIfAbsent(w, u, e, s);
    RingAfter(w, u, e, Id(x, k), s);
  }

  /** The entries of one stock still agree after a step exactly if the step lost none of its triggers. */
  lemma StockAfter(w: World, u: Text, e: Event, s: Text)
    requires Sound(w) && u in w.accounts && Possible(e) && ValidStock(s) && AgreeOn(w, s)
    ensures AgreeOn(WorldStep(w, u, e), s) <==> forall k :: TriggerPath(k, s) !in Step(w.accounts[u], e).lost
  {
    var w' := WorldStep(w, u, e);
    JoinsOnlyIfAbsent(w, u, e, s);
    RingAfter(w, u, e, Id(u, Kind.Buy), s);
    forall id <- RingOf(w', s) ensures id.user in w'.accounts { RingAfter(w, u, e, id, s); }
    forall x, k | x in w'.accounts && x != u ensures Indexed(w', x, k, s) { OtherEntryAfter(w, u, e, x, k, s); }
    forall k ensures Indexed(w', u, k, s) <==> TriggerPath(k, s) !in Step(w.accounts[u], e).lost { OwnEntryAfter(w, u, e, k, s); }
  }

  /** A step never loses a trigger of the stock that it names. */
  lemma LostAreOfOtherStocks(a: Account, e: Event, k: Kind)
    requires Formed(a) && Possible(e) && ChangeOf(e, Step(a, e).reply) != Unchanged
    ensures ValidStock(e.stock) && TriggerPath(k, e.stock) !in Step(a, e).lost
  {
    hide Step, TriggerPath, LosesNothing;
    StepLists(a, e, k, [65, 65, 65]);
    LostByGuard(a, e);
    if GoneKey(a, e).Some? {
      CasualtiesExactly(a.triggers, GoneKey(a, e).value, TRIGGER_WIDTH);
      NeverOfOneStock(a.triggers, if e.CancelSetBuy? then Kind.Buy else if e.CancelSetSell? then Kind.Sell else e.kind, k, e.stock);
    }
  }

  /** Neither of the two triggers of one stock takes the other along, nor itself. */
  lemma NeverOfOneStock<V>(t: Shape<V>, kind: Kind, k: Kind, stock: Text)
    requires ValidStock(stock)
    ensures !GoesAlong(t, TriggerPath(kind, stock), TriggerPath(k, stock))
  {
    IndexesInjective(stock[0], stock[0], k, kind);
  }

  /**
   * The two indexes agree after a step if and only if it removes no trigger that takes another along: then every
   * ring still holds exactly the triggers of all users for its stock, at most one for each user and type.
   */
  lemma IndexesAgreeExactly(w: World, u: Text, e: Event)
    requires Agree(w) && Sound(w) && u in w.accounts && Possible(e)
    ensures Sound(WorldStep(w, u, e))
    ensures Agree(WorldStep(w, u, e)) <==> LosesNothing(w.accounts[u], e)
  {
    var lost := Step(w.accounts[u], e).lost;
    StepKeepsSound(w, u, e);
    LosesNothingExactly(w.accounts[u], e);
    forall s | ValidStock(s) ensures AgreeOn(WorldStep(w, u, e), s) <==> forall k :: TriggerPath(k, s) !in lost {
      StockAfter(w, u, e, s);
    }
    if lost != map[] {
      var p :| p in lost;
      LostAreOthers(w.accounts[u], e, p);
      assert TriggerPath(KindOf(p), StockOf(p)) in lost;
    }
  }

  // ----- Users that join -----

  /** The keys of the triggers of an account, each once. */
  ghost predicate ListsKeys(order: seq<Path>, a: Account) {
    && (forall i, j :: 0 <= i < j < |order| ==> order[i] != order[j])
    && (forall p :: p in order <==> p in a.triggers.vals)
  }

  predicate AreTriggerPaths(order: seq<Path>) {
    forall p <- order :: IsTriggerPath(p)
  }

  /** The rings after the triggers of a user were added to them one by one. */
  function JoinRings(w: World, u: Text, order: seq<Path>): World
    requires AreTriggerPaths(order)
  {
    if order == [] then w
    else
      var p, before := order[|order| - 1], JoinRings(w, u, order[..|order| - 1]);
      before.(rings := before.rings[StockOf(p) := RingOf(before, StockOf(p)) + [Id(u, KindOf(p))]])
  }

  lemma {:induction false} JoinedRing(w: World, u: Text, order: seq<Path>, s: Text)
    requires AreTriggerPaths(order) && (forall i, j :: 0 <= i < j < |order| ==> order[i] != order[j])
    requires ValidStock(s) && AllDifferent(RingOf(w, s)) && forall id <- RingOf(w, s) :: id.user != u
    ensures JoinRings(w, u, order).accounts == w.accounts
    ensures AllDifferent(RingOf(JoinRings(w, u, order), s))
    ensures forall id: Id :: id in RingOf(JoinRings(w, u, order), s) <==>
      id in RingOf(w, s) || (id.user == u && TriggerPath(id.kind, s) in order)
  {
    hide TriggerPath;
    if order != [] {
      var init, p := order[..|order| - 1], order[|order| - 1];
      assert order == init + [p];
      JoinedRing(w, u, init, s);
      assert p !in init;
      var before := RingOf(JoinRings(w, u, init), s);
      if StockOf(p) == s {
        assert TriggerPath(KindOf(p), s) == p;
        assert Id(u, KindOf(p)) !in before;
        forall id: Id | id.user == u && TriggerPath(id.kind, s) == p ensures id == Id(u, KindOf(p)) {
          TriggerPathInjective(id.kind, s, KindOf(p), s);
        }
      } else {
        forall k ensures TriggerPath(k, s) != p {
          if TriggerPath(k, s) == p { TriggerPathInjective(k, s, KindOf(p), StockOf(p)); }
        }
      }
    }
  }

  /** `addUser`: the account is there, and its triggers are in the rings. */
  function WorldJoin(w: World, u: Text, a: Account, order: seq<Path>): World
    requires AreTriggerPaths(order)
  {
    var v := JoinRings(w, u, order);
    v.(accounts := v.accounts[u := a])
  }

  ghost predicate CanJoin(w: World, u: Text, a: Account, order: seq<Path>) {
    u !in w.accounts && Formed(a) && ProperKeys(a) && ListsKeys(order, a)
  }

  lemma JoiningKeepsAgreement(w: World, u: Text, a: Account, order: seq<Path>)
    requires Agree(w) && Sound(w) && CanJoin(w, u, a, order)
    ensures AreTriggerPaths(order) && Agree(WorldJoin(w, u, a, order)) && Sound(WorldJoin(w, u, a, order))
  {
    var v := WorldJoin(w, u, a, order);
    forall s | ValidStock(s) ensures AgreeOn(v, s) {
      assert AgreeOn(w, s);
      JoinedRing(w, u, order, s);
      forall x, k | x in v.accounts ensures Indexed(v, x, k, s) {
        if x != u { assert Indexed(w, x, k, s); }
      }
    }
    JoinKeepsAccounts(w, u, order);
  }

  lemma {:induction false} JoinKeepsAccounts(w: World, u: Text, order: seq<Path>)
    requires AreTriggerPaths(order)
    ensures JoinRings(w, u, order).accounts == w.accounts
  {
    if order != [] { JoinKeepsAccounts(w, u, order[..|order| - 1]); }
  }

  // ----- Whole runs -----

  datatype WorldEvent =
    | Happens(user: Text, event: Event)
    | Joins(newcomer: Text, account: Account, order: seq<Path>)
    | Turns(stock: Text)

  ghost predicate CanHappen(w: World, e: WorldEvent) {
    match e
    case Happens(u, event) => u in w.accounts && Possible(event)
    case Joins(u, a, order) => CanJoin(w, u, a, order)
    case Turns(_) => true
  }

  ghost function WorldDo(w: World, e: WorldEvent): World
    requires Sound(w) && CanHappen(w, e)
  {
    match e
    case Happens(u, event) => WorldStep(w, u, event)
    case Joins(u, a, order) => WorldJoin(w, u, a, order)
    case Turns(stock) => Turned(w, stock)
  }

  ghost predicate Spares(w: World, e: WorldEvent)
    requires CanHappen(w, e)
  {
    e.Happens? ==> LosesNothing(w.accounts[e.user], e.event)
  }

  lemma DoAgreesExactly(w: World, e: WorldEvent)
    requires Agree(w) && Sound(w) && CanHappen(w, e)
    ensures Agree(WorldDo(w, e)) <==> Spares(w, e)
  {
    match e
    case Happens(u, event) => IndexesAgreeExactly(w, u, event);
    case Joins(u, a, order) => JoiningKeepsAgreement(w, u, a, order);
    case Turns(stock) => TurningKeepsAgreement(w, stock);
  }

  lemma DoKeepsSound(w: World, e: WorldEvent)
    requires Sound(w) && CanHappen(w, e)
    ensures Sound(WorldDo(w, e))
  {
    match e
    case Happens(u, event) => StepKeepsSound(w, u, event);
    case Joins(u, a, order) => JoinKeepsAccounts(w, u, order);
    case Turns(_) =>
  }

  ghost predicate WorldRuns(w: World, es: seq<WorldEvent>)
    requires Sound(w)
    decreases |es|
  {
    es == [] || (CanHappen(w, es[0]) && (DoKeepsSound(w, es[0]); WorldRuns(WorldDo(w, es[0]), es[1..])))
  }

  /** The indexes agree before and after every event. */
  ghost predicate AgreeThroughout(w: World, es: seq<WorldEvent>)
    requires Sound(w) && WorldRuns(w, es)
    decreases |es|
  {
    Agree(w) && (es != [] ==> (DoKeepsSound(w, es[0]); AgreeThroughout(WorldDo(w, es[0]), es[1..])))
  }

  /** No event removes a trigger that takes another along. */
  ghost predicate SparesThroughout(w: World, es: seq<WorldEvent>)
    requires Sound(w) && WorldRuns(w, es)
    decreases |es|
  {
    es == [] || (Spares(w, es[0]) && (DoKeepsSound(w, es[0]); SparesThroughout(WorldDo(w, es[0]), es[1..])))
  }

  /**
   * Along every interleaving of commands and firings of all users, of users that join with their reloaded
   * triggers, and of rings that turn, the indexes agree throughout exactly if no trigger takes another along.  If one
   * does, the run is meant up to the next examination of what was lost.
   */
  lemma {:induction false} RunsAgreeExactly(w: World, es: seq<WorldEvent>)
    requires Agree(w) && Sound(w) && WorldRuns(w, es)
    ensures AgreeThroughout(w, es) <==> SparesThroughout(w, es)
    decreases |es|
  {
    if es != [] {
      DoKeepsSound(w, es[0]);
      DoAgreesExactly(w, es[0]);
      if Agree(WorldDo(w, es[0])) {
        RunsAgreeExactly(WorldDo(w, es[0]), es[1..]);
      } else {
        NotThroughout(WorldDo(w, es[0]), es[1..]);
      }
    }
  }

  lemma NotThroughout(w: World, es: seq<WorldEvent>)
    requires Sound(w) && WorldRuns(w, es) && !Agree(w)
    ensures !AgreeThroughout(w, es)
  {
  }

  /** A server that has just started, without users or triggers, is where such runs begin. */
  lemma EmptyWorldAgrees()
    ensures Agree(World(map[], map[])) && Sound(World(map[], map[]))
  {
  }
}
