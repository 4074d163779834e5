/** Whole runs of accounts, of one user and of all users interleaved. */
module AccountRuns {
  import opened Base
  import opened Names
  import opened Prices
  import opened TrieSpec
  import opened Accounts
  import opened AccountSafety

  ghost predicate AllPossible(es: seq<Event>) {
    forall i :: 0 <= i < |es| ==> Possible(es[i])
  }

  /** The account after a sequence of events. */
  ghost function Run(a: Account, es: seq<Event>): (r: Account)
    requires Formed(a) && AllPossible(es)
    ensures Formed(r)
  {
    if es == [] then a
    else
      var before, e := Run(a, es[..|es| - 1]), es[|es| - 1];
      StepKeepsForm(before, e);
      Step(before, e).after
  }

  lemma RunOneMore(a: Account, es: seq<Event>, k: nat)
    requires Formed(a) && AllPossible(es) && k < |es|
    ensures Run(a, es[..k + 1]) == Step(Run(a, es[..k]), es[k]).after
  {
    hide Step, Admissible, WellFormed, ThreeDeep, NamesStock, Possible;
    assert es[..k + 1][..k] == es[..k];
  }

  lemma RunGrows(a: Account, es: seq<Event>, e: Event)
    requires Formed(a) && AllPossible(es) && Possible(e)
    ensures Run(a, es + [e]) == Step(Run(a, es), e).after
  {
    hide Step, Admissible, WellFormed, ThreeDeep, NamesStock, Possible;
    assert (es + [e])[..|es|] == es;
  }

  ghost predicate SafeThroughout(a: Account, es: seq<Event>)
    requires Formed(a) && AllPossible(es)
  {
    forall k :: 0 <= k <= |es| ==> Safe(Run(a, es[..k]))
  }

  ghost predicate AdmissibleThroughout(a: Account, es: seq<Event>)
    requires Formed(a) && AllPossible(es)
  {
    forall k :: 0 <= k < |es| ==> Admissible(Run(a, es[..k]), es[k])
  }

  /** A run of a safe account stays safe to its end if and only if every one of its steps is admissible. */
  lemma RunsSafeExactly(a: Account, es: seq<Event>)
    requires Safe(a) && AllPossible(es)
    ensures SafeThroughout(a, es) <==> AdmissibleThroughout(a, es)
  {
    hide Step, Admissible, WellFormed, ThreeDeep, NamesStock, Possible;
    if AdmissibleThroughout(a, es) {
      forall k | 0 <= k <= |es| ensures Safe(Run(a, es[..k])) { SafeAfter(a, es, k); }
    }
    if SafeThroughout(a, es) {
      forall k | 0 <= k < |es| ensures Admissible(Run(a, es[..k]), es[k]) {
        AdmissibleBefore(a, es, k);
      }
    }
  }

  lemma AdmissibleBefore(a: Account, es: seq<Event>, k: nat)
    requires Safe(a) && AllPossible(es) && SafeThroughout(a, es) && k < |es|
    ensures Admissible(Run(a, es[..k]), es[k])
  {
    hide Step, Admissible, WellFormed, ThreeDeep, NamesStock, Possible;
    RunOneMore(a, es, k);
    StepSafeExactly(Run(a, es[..k]), es[k]);
  }

  lemma {:induction false} SafeAfter(a: Account, es: seq<Event>, k: nat)
    requires Safe(a) && AllPossible(es) && AdmissibleThroughout(a, es) && k <= |es|
    ensures Safe(Run(a, es[..k]))
  {
    hide Step, Admissible, WellFormed, ThreeDeep, NamesStock, Possible;
    if k > 0 {
      SafeAfter(a, es, k - 1);
      RunOneMore(a, es, k - 1);
      StepSafeExactly(Run(a, es[..k - 1]), es[k - 1]);
    }
  }

  // ----- What a caller can check beforehand -----

  /** No text in the event is one of those that are read as a negative amount. */
  predicate NonNegativeText(e: Event) {
    match e
    case Add(text) => !ReadsNegative(text)
    case Buy(_, text, _, _, _) => !ReadsNegative(text)
    case Sell(_, text, _, _, _) => !ReadsNegative(text)
    case SetBuyAmount(_, text, _) => !ReadsNegative(text)
    case SetSellAmount(_, text, _) => !ReadsNegative(text)
    case _ => true
  }

  /** The event is the examination of a sell trigger on a stock whose sell is pending. */
  predicate SellClash(a: Account, e: Event) {
    e.Fire? && e.kind == Kind.Sell && a.buysell == -1 && a.stock == Some(e.stock)
  }

  lemma CleanStepAdmissible(a: Account, e: Event)
    requires Safe(a) && Possible(e) && NonNegativeText(e) && !SellClash(a, e)
    ensures Admissible(a, e)
  {
    match e
    case Add(text) => NegativeExactly(text);
    case Buy(_, text, _, _, _) => NegativeExactly(text);
    case Sell(_, text, _, _, _) => NegativeExactly(text);
    case SetBuyAmount(_, text, _) => NegativeExactly(text);
    case SetSellAmount(_, text, _) => NegativeExactly(text);
    case _ =>
  }

  /**
   * Without negative amounts, and without a sell trigger examined while a sell of its stock is pending, no run
   * makes a balance or a holding negative or leaves an order uncovered.
   */
  lemma CleanRunsSafe(a: Account, es: seq<Event>)
    requires Safe(a) && AllPossible(es)
    requires forall k :: 0 <= k < |es| ==> NonNegativeText(es[k]) && !SellClash(Run(a, es[..k]), es[k])
    ensures SafeThroughout(a, es)
  {
    forall k | 0 <= k <= |es| ensures Safe(Run(a, es[..k])) { CleanAfter(a, es, k); }
  }

  lemma {:induction false} CleanAfter(a: Account, es: seq<Event>, k: nat)
    requires Safe(a) && AllPossible(es) && k <= |es|
    requires forall j :: 0 <= j < |es| ==> NonNegativeText(es[j]) && !SellClash(Run(a, es[..j]), es[j])
    ensures Safe(Run(a, es[..k]))
  {
    hide Step, Admissible, WellFormed, ThreeDeep, NamesStock, Possible;
    if k > 0 {
      CleanAfter(a, es, k - 1);
      CleanStepAdmissible(Run(a, es[..k - 1]), es[k - 1]);
      RunOneMore(a, es, k - 1);
      StepSafeExactly(Run(a, es[..k - 1]), es[k - 1]);
    }
  }

  // ----- All users -----

  type System = map<Text, Account>

  datatype UserEvent = UserEvent(user: Text, event: Event)

  ghost predicate SystemFormed(s: System) {
    forall u <- s :: Formed(s[u])
  }

  ghost predicate SystemPossible(s: System, es: seq<UserEvent>) {
    forall i :: 0 <= i < |es| ==> es[i].user in s && Possible(es[i].event)
  }

  /** The accounts after an interleaving of the events of many users. */
  ghost function SystemRun(s: System, es: seq<UserEvent>): (r: System)
    requires SystemFormed(s) && SystemPossible(s, es)
    ensures SystemFormed(r) && r.Keys == s.Keys
  {
    if es == [] then s
    else
      var before, e := SystemRun(s, es[..|es| - 1]), es[|es| - 1];
      StepKeepsForm(before[e.user], e.event);
      before[e.user := Step(before[e.user], e.event).after]
  }

  /** The events of one user, in order. */
  ghost function Of(u: Text, es: seq<UserEvent>): (r: seq<Event>)
    ensures (forall i :: 0 <= i < |es| ==> Possible(es[i].event)) ==> AllPossible(r)
  {
    if es == [] then []
    else Of(u, es[..|es| - 1]) + (if es[|es| - 1].user == u then [es[|es| - 1].event] else [])
  }

  /** However the events of the users are interleaved, each account sees exactly its own, in order. */
  lemma {:induction false} UsersIndependent(s: System, es: seq<UserEvent>, u: Text)
    requires SystemFormed(s) && SystemPossible(s, es) && u in s
    ensures SystemRun(s, es)[u] == Run(s[u], Of(u, es))
  {
    hide Step, Admissible, WellFormed, ThreeDeep, NamesStock, Possible;
    if es != [] {
      var init, last := es[..|es| - 1], es[|es| - 1];
      UsersIndependent(s, init, u);
      if last.user == u { RunGrows(s[u], Of(u, init), last.event); }
      else { assert Of(u, init) + [] == Of(u, init); }
    }
  }

  lemma UserSafe(s: System, es: seq<UserEvent>, u: Text)
    requires SystemFormed(s) && SystemPossible(s, es) && u in s
    requires Safe(s[u]) && AdmissibleThroughout(s[u], Of(u, es))
    ensures Safe(SystemRun(s, es)[u])
  {
    hide Step, Admissible, WellFormed, ThreeDeep, NamesStock, Possible;
    var own := Of(u, es);
    UsersIndependent(s, es, u);
    SafeAfter(s[u], own, |own|);
    assert own[..|own|] == own;
  }

  /** So under every interleaving all accounts stay safe if each user's own events are admissible in turn. */
  lemma SystemSafe(s: System, es: seq<UserEvent>)
    requires SystemFormed(s) && SystemPossible(s, es)
    requires forall u <- s :: Safe(s[u])
    requires forall u <- s :: OwnEventsAdmissible(s, es, u)
    ensures forall u <- s :: Safe(SystemRun(s, es)[u])
  {
    hide Step, Admissible, WellFormed, ThreeDeep, NamesStock, Possible;
    forall u <- s ensures Safe(SystemRun(s, es)[u]) {
      assert OwnEventsAdmissible(s, es, u);
      UserSafe(s, es, u);
    }
  }

  ghost predicate OwnEventsAdmissible(s: System, es: seq<UserEvent>, u: Text)
    requires SystemFormed(s) && SystemPossible(s, es) && u in s
  {
    AdmissibleThroughout(s[u], Of(u, es))
  }
}
