/**
 * Which steps take a trigger out of the trie that they are not meant to remove.  Such a trigger is freed with its node
 * but stays in the ring of its stock, where the sweep may still examine it.  The steps here examine only triggers that
 * are in a trie, so what is said of runs that lose a trigger describes them up to its next examination.
 */
module AccountLosses {
  import opened Base
  import opened Names
  import opened TrieSpec
  import opened Accounts
  import opened AccountSafety

  /** The guard of a firing buy trigger. */
  predicate FiresBuy(a: Account, stock: Text, price: int)
    requires ValidStock(stock) && price >= 1
  {
    var t := TriggerOf(a, Kind.Buy, stock);
    t.Some? && price < t.value.trig && CDiv(t.value.amount, price) != 0
  }

  /** The key of the trigger that the event is going to remove, if it is going to remove one. */
  function GoneKey(a: Account, e: Event): (key: Option<Path>)
    requires Possible(e)
    ensures key.Some? ==> |key.value| == 3 && key.value in a.triggers.vals
  {
    match e
    case CancelSetBuy(stock) =>
      if ValidStock(stock) && TriggerOf(a, Kind.Buy, stock).Some? then Some(TriggerPath(Kind.Buy, stock)) else None
    case CancelSetSell(stock) =>
      if ValidStock(stock) && TriggerOf(a, Kind.Sell, stock).Some? then Some(TriggerPath(Kind.Sell, stock)) else None
    case Fire(kind, stock, price) =>
      if (kind == Kind.Buy && FiresBuy(a, stock, price)) || (kind == Kind.Sell && FiresSell(a, stock, price))
      then Some(TriggerPath(kind, stock)) else None
    case _ => None
  }

  /** The event removes no trigger, or one that meets neither situation in which another goes with it. */
  ghost predicate LosesNothing(a: Account, e: Event)
    requires Possible(e)
  {
    GoneKey(a, e).Some? ==> SparesOthers(a.triggers, GoneKey(a, e).value)
  }

  /** What a step loses is what goes with the key that its guards select. */
  lemma LostByGuard(a: Account, e: Event)
    requires NamesStock(a) && Possible(e)
    ensures Step(a, e).lost == if GoneKey(a, e).Some? then LostWith(a, GoneKey(a, e).value) else map[]
  {
  }

  lemma NothingLost(a: Account, key: Path)
    requires Formed(a) && key in a.triggers.vals
    ensures |key| == 3 && (LostWith(a, key) == map[] <==> SparesOthers(a.triggers, key))
    ensures a.triggers.vals - {key} == WithoutTrigger(a, key).triggers.vals <==> LostWith(a, key) == map[]
  {
    RemoveTriggerExact(a.triggers, key, TRIGGER_WIDTH);
    assert !HasChild(a.triggers, key);
    RemoveShortEffect(a.triggers, key, TRIGGER_WIDTH);
    NoCasualties(a.triggers, key);
    assert LostWith(a, key).Keys == Casualties(a.triggers, key);
    assert LostWith(a, key) == map[] <==> Casualties(a.triggers, key) == {};
  }

  /** A step loses no trigger if and only if what it is going to remove, if anything, meets neither situation. */
  lemma LosesNothingExactly(a: Account, e: Event)
    requires Formed(a) && Possible(e)
    ensures Step(a, e).lost == map[] <==> LosesNothing(a, e)
  {
    LostByGuard(a, e);
    if GoneKey(a, e).Some? { NothingLost(a, GoneKey(a, e).value); }
  }

  /** A removal leaves all other triggers in the trie exactly if it meets neither situation, and then it loses none. */
  lemma RemovalKeepsOthersExactly(a: Account, kind: Kind, stock: Text)
    requires Formed(a) && ValidStock(stock) && TriggerOf(a, kind, stock).Some?
    ensures var key := TriggerPath(kind, stock);
      && (a.triggers.vals - {key} == WithoutTrigger(a, key).triggers.vals <==> SparesOthers(a.triggers, key))
      && (LostWith(a, key) == map[] <==> SparesOthers(a.triggers, key))
  {
    NothingLost(a, TriggerPath(kind, stock));
  }
}
