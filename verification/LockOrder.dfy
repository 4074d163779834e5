/** The mutexes of the transaction server, what each routine does with them, and why no threads wait in a circle. */
module LockOrder {
  import opened Base

  datatype Lock =
    | UserTree | User(user: Text) | StockTree | Stock(stock: Text)
    | UserList | StockList | CommandQueue(user: Text) | DbQueue | LogQueue | QuoteQueue

  /** Blocking acquires go upwards in rank. */
  function Rank(l: Lock): nat {
    match l
    case UserTree => 0
    case User(_) => 1
    case StockTree => 2
    case Stock(_) => 3
    case _ => 4
  }

  /** What is left of a routine: a lock, a trylock with its two outcomes, or an unlock comes next. */
  datatype Program =
    | End
    | Acquire(lock: Lock, next: Program)
    | Try(lock: Lock, ok: Program, failed: Program)
    | Release(lock: Lock, next: Program)

  /** Every blocking acquire is of a lock that ranks above all locks held at that point. */
  ghost predicate Ordered(held: set<Lock>, p: Program)
    decreases p
  {
    match p
    case End => true
    case Acquire(l, next) => (forall h <- held :: Rank(h) < Rank(l)) && Ordered(held + {l}, next)
    case Try(l, ok, failed) => Ordered(held + {l}, ok) && Ordered(held, failed)
    case Release(l, next) => Ordered(held - {l}, next)
  }

  /** Every unlock is of a lock that was taken and not given back. */
  ghost predicate OwnsReleases(held: set<Lock>, p: Program)
    decreases p
  {
    match p
    case End => true
    case Acquire(l, next) => OwnsReleases(held + {l}, next)
    case Try(l, ok, failed) => OwnsReleases(held + {l}, ok) && OwnsReleases(held, failed)
    case Release(l, next) => l in held && OwnsReleases(held - {l}, next)
  }

  // ----- The routines -----

  datatype Routine =
    | FindUser                              // `getUser`
    | AddNewUser(user: Text)                // `addUser` up to the point where the tree is released
    | FindAddedUser                         // `addUser` of a user that is there
    | LeaveUser(user: Text)
    | HuntUser(user: Text)                  // a worker's trylock
    | TurnUsers                             // `cUser = cUser->next`
    | AddCommand(user: Text)                // `cenq`
    | TakeCommand(user: Text)               // `cdeq`
    | FindStock(user: Text)                 // `getStock`, and `addStock` of a stock that is there
    | AddNewStock(user: Text, stock: Text)  // `addStock`
    | ChangeRing(user: Text, stock: Text)   // `addTrigger` and `removeTrigger`, and the sweep's look at the sentinel
    | AskDb(user: Text) | AskQuote(user: Text) | Log(user: Text)
    | TurnStocks                            // `cStock = cStock->next`
    | EnterStock(stock: Text) | LeaveStock(stock: Text)
    | LeaveStockLoose(stock: Text)          // the same when the last trylock failed
    | AskQuoteForSweep(stock: Text)
    | SweepUser(stock: Text, user: Text)    // the sweep's trylock, and the release of the stock after it
    | SweepUserLoose(stock: Text, user: Text)  // the same when the stock was given up by a failed trylock before
    | BackToStock(stock: Text, user: Text)  // the end of a visit
    | ServeDb | ServeLog | ServeQuotes      // the worker side of the queues

  /** What a thread holds when it begins a routine. */
  function Needs(r: Routine): set<Lock> {
    match r
    case LeaveUser(u) => {User(u)}
    case TakeCommand(u) => {User(u)}
    case FindStock(u) => {User(u)}
    case AddNewStock(u, _) => {User(u)}
    case ChangeRing(u, _) => {User(u)}
    case AskDb(u) => {User(u)}
    case AskQuote(u) => {User(u)}
    case Log(u) => {User(u)}
    case LeaveStock(s) => {Stock(s)}
    case AskQuoteForSweep(s) => {Stock(s)}
    case SweepUser(s, _) => {Stock(s)}
    case BackToStock(_, u) => {User(u)}
    case _ => {}
  }

  /** What a sweep goes on with when the trylock before it has failed, without taking its stock again. */
  predicate Loose(r: Routine) {
    r.SweepUserLoose? || r.LeaveStockLoose?
  }

  function Brief(l: Lock): Program {
    Acquire(l, Release(l, End))
  }

  function Code(r: Routine): Program {
    match r
    case FindUser => Brief(UserTree)
    case AddNewUser(u) =>
      Acquire(UserTree, Acquire(User(u), Acquire(UserList, Release(UserList, Release(UserTree, End)))))
    case FindAddedUser => Brief(UserTree)
    case LeaveUser(u) => Release(User(u), End)
    case HuntUser(u) => Try(User(u), End, End)
    case TurnUsers => Brief(UserList)
    case AddCommand(u) => Brief(CommandQueue(u))
    case TakeCommand(u) => Brief(CommandQueue(u))
    case FindStock(_) => Brief(StockTree)
    case AddNewStock(_, s) =>
      Acquire(StockTree, Acquire(Stock(s), Acquire(StockList, Release(StockList, Release(StockTree, Release(Stock(s), End))))))
    case ChangeRing(_, s) => Brief(Stock(s))
    case AskDb(_) => Brief(DbQueue)
    case AskQuote(_) => Brief(QuoteQueue)
    case Log(_) => Brief(LogQueue)
    case TurnStocks => Brief(StockList)
    case EnterStock(s) => Acquire(Stock(s), End)
    case LeaveStock(s) => Release(Stock(s), End)
    case LeaveStockLoose(s) => Release(Stock(s), End)
    case AskQuoteForSweep(_) => Brief(QuoteQueue)
    case SweepUser(s, u) => Try(User(u), Release(Stock(s), End), Release(Stock(s), End))
    case SweepUserLoose(s, u) => Try(User(u), Release(Stock(s), End), Release(Stock(s), End))
    case BackToStock(s, u) => Acquire(Stock(s), Release(User(u), End))
    case ServeDb => Brief(DbQueue)
    case ServeLog => Brief(LogQueue)
    case ServeQuotes => Brief(QuoteQueue)
  }

  lemma BriefOrdered(held: set<Lock>, l: Lock)
    requires forall h <- held :: Rank(h) < Rank(l)
    ensures Ordered(held, Brief(l))
  {
    assert Ordered(held + {l} - {l}, End);
  }

  lemma AddNewUserOrdered(u: Text)
    ensures Ordered({}, Code(AddNewUser(u)))
  {
    var inner := Release(UserList, Release(UserTree, End));
    var h1: set<Lock> := {} + {UserTree};
    var h2 := h1 + {User(u)};
    assert Ordered(h2 + {UserList}, inner);
    assert Ordered(h2, Acquire(UserList, inner));
    assert Ordered(h1, Acquire(User(u), Acquire(UserList, inner)));
  }

  lemma AddNewStockOrdered(u: Text, s: Text)
    ensures Ordered({User(u)}, Code(AddNewStock(u, s)))
  {
    var inner := Release(StockList, Release(StockTree, Release(Stock(s), End)));
    var h1 := {User(u)} + {StockTree};
    var h2 := h1 + {Stock(s)};
    assert Ordered(h2 + {StockList} - {StockList} - {StockTree}, Release(Stock(s), End));
    assert Ordered(h2 + {StockList} - {StockList}, Release(StockTree, Release(Stock(s), End)));
    assert Ordered(h2 + {StockList}, inner);
    assert Ordered(h2, Acquire(StockList, inner));
    assert Ordered(h1, Acquire(Stock(s), Acquire(StockList, inner)));
  }

  lemma SweepOrdered(held: set<Lock>, s: Text, u: Text)
    ensures Ordered(held, Code(SweepUser(s, u)))
  {
    assert Ordered(held + {User(u)} - {Stock(s)}, End) && Ordered(held - {Stock(s)}, End);
    assert Ordered(held + {User(u)}, Release(Stock(s), End)) && Ordered(held, Release(Stock(s), End));
  }

  /** Every routine acquires upwards; the one step down, from a stock to a user, is a trylock. */
  lemma RoutinesOrdered(r: Routine)
    ensures Ordered(Needs(r), Code(r))
  {
    match r
    case AddNewUser(u) => AddNewUserOrdered(u);
    case AddNewStock(u, s) => AddNewStockOrdered(u, s);
    case SweepUser(s, u) => SweepOrdered({Stock(s)}, s, u);
    case SweepUserLoose(s, u) => SweepOrdered({}, s, u);
    case BackToStock(_, _) => OneLockOrdered(r);
    case EnterStock(_) => OneLockOrdered(r);
    case LeaveStock(_) => OneLockOrdered(r);
    case LeaveStockLoose(_) => OneLockOrdered(r);
    case LeaveUser(_) => OneLockOrdered(r);
    case HuntUser(_) => OneLockOrdered(r);
    case _ => BriefRoutineOrdered(r);
  }

  /** Those that only take, try or give back one lock, and the end of a visit. */
  lemma OneLockOrdered(r: Routine)
    requires r.BackToStock? || r.EnterStock? || r.LeaveStock? || r.LeaveStockLoose? || r.LeaveUser? || r.HuntUser?
    ensures Ordered(Needs(r), Code(r))
  {
    match r
    case BackToStock(s, u) => assert Ordered({User(u)} + {Stock(s)} - {User(u)}, End);
    case EnterStock(s) => assert Ordered({} + {Stock(s)}, End);
    case LeaveStockLoose(s) => assert Ordered({} - {Stock(s)}, End);
    case LeaveStock(s) => assert Ordered({Stock(s)} - {Stock(s)}, End);
    case LeaveUser(u) => assert Ordered({User(u)} - {User(u)}, End);
    case HuntUser(u) => assert Ordered({} + {User(u)}, End);
  }

  lemma BriefRoutineOrdered(r: Routine)
    requires Code(r).Acquire? && Code(r) == Brief(Code(r).lock)
    requires !r.AddNewUser? && !r.AddNewStock? && !r.BackToStock? && !r.EnterStock?
    ensures Ordered(Needs(r), Code(r))
  {
    BriefOrdered(Needs(r), Code(r).lock);
  }

  lemma BriefOwns(held: set<Lock>, l: Lock)
    ensures OwnsReleases(held, Brief(l))
  {
    assert OwnsReleases(held + {l} - {l}, End);
  }

  lemma LongRoutinesOwn(u: Text, s: Text)
    ensures OwnsReleases({}, Code(AddNewUser(u))) && OwnsReleases({User(u)}, Code(AddNewStock(u, s)))
  {
    var h: set<Lock> := {} + {UserTree} + {User(u)} + {UserList};
    assert OwnsReleases(h - {UserList} - {UserTree}, End);
    assert OwnsReleases(h, Release(UserList, Release(UserTree, End)));
    assert OwnsReleases({} + {UserTree}, Acquire(User(u), Acquire(UserList, Release(UserList, Release(UserTree, End)))));
    var g := {User(u)} + {StockTree} + {Stock(s)} + {StockList};
    var inner := Release(StockList, Release(StockTree, Release(Stock(s), End)));
    assert OwnsReleases(g - {StockList} - {StockTree}, Release(Stock(s), End));
    assert OwnsReleases(g, inner);
    assert OwnsReleases({User(u)} + {StockTree}, Acquire(Stock(s), Acquire(StockList, inner)));
  }

  lemma SweepOwns(held: set<Lock>, s: Text, u: Text)
    ensures OwnsReleases(held, Code(SweepUser(s, u))) <==> Stock(s) in held
  {
    assert OwnsReleases(held + {User(u)} - {Stock(s)}, End) && OwnsReleases(held - {Stock(s)}, End);
  }

  /** The routines that unlock only what they own are exactly those that are not begun after a failed trylock. */
  lemma RoutinesOwn(r: Routine)
    ensures OwnsReleases(Needs(r), Code(r)) <==> !Loose(r)
  {
    match r
    case AddNewUser(u) => LongRoutinesOwn(u, []);
    case AddNewStock(u, s) => LongRoutinesOwn(u, s);
    case SweepUser(s, u) => SweepOwns({Stock(s)}, s, u);
    case SweepUserLoose(s, u) => SweepOwns({}, s, u);
    case LeaveStockLoose(_) =>
    case BackToStock(s, u) => assert OwnsReleases({User(u)} + {Stock(s)}, Release(User(u), End));
    case EnterStock(_) =>
    case LeaveStock(_) =>
    case LeaveUser(_) =>
    case HuntUser(_) =>
    case _ => BriefRoutineOwns(r);
  }

  lemma BriefRoutineOwns(r: Routine)
    requires Code(r).Acquire? && Code(r) == Brief(Code(r).lock)
    ensures OwnsReleases(Needs(r), Code(r))
  {
    BriefOwns(Needs(r), Code(r).lock);
  }

  /** The locks that are left when the routine is through, if its trylock, if any, went this way. */
  function LeftBy(held: set<Lock>, p: Program, ok: bool): set<Lock>
    decreases p
  {
    match p
    case End => held
    case Acquire(l, next) => LeftBy(held + {l}, next, ok)
    case Try(l, won, lost) => if ok then LeftBy(held + {l}, won, ok) else LeftBy(held, lost, ok)
    case Release(l, next) => LeftBy(held - {l}, next, ok)
  }

  /** The user or the stock that is locked after a routine; a sweep goes from its stock to a user and back. */
  function Leaves(r: Routine, ok: bool): set<Lock> {
    match r
    case AddNewUser(u) => {User(u)}
    case HuntUser(u) => if ok then {User(u)} else {}
    case LeaveUser(_) => {}
    case EnterStock(s) => {Stock(s)}
    case LeaveStock(_) => {}
    case SweepUser(_, u) => if ok then {User(u)} else {}
    case SweepUserLoose(_, u) => if ok then {User(u)} else {}
    case BackToStock(s, _) => {Stock(s)}
    case _ => Needs(r)
  }

  /** No routine keeps a lock that it took in passing, and none gives up what the next one needs. */
  lemma RoutinesLeave(r: Routine, ok: bool)
    ensures LeftBy(Needs(r), Code(r), ok) == Leaves(r, ok)
  {
    match r
    case AddNewUser(u) => LongRoutinesLeave(u, [], ok);
    case AddNewStock(u, s) => LongRoutinesLeave(u, s, ok);
    case SweepUser(s, u) => SweepLeaves({Stock(s)}, s, u, ok);
    case SweepUserLoose(s, u) => SweepLeaves({}, s, u, ok);
    case BackToStock(s, u) => assert LeftBy({User(u)} + {Stock(s)}, Release(User(u), End), ok) == {Stock(s)};
    case EnterStock(_) =>
    case LeaveStock(_) =>
    case LeaveStockLoose(_) =>
    case LeaveUser(_) =>
    case HuntUser(_) =>
    case _ => BriefLeaves(r, ok);
  }

  lemma BriefLeaves(r: Routine, ok: bool)
    requires Code(r).Acquire? && Code(r) == Brief(Code(r).lock) && Code(r).lock !in Needs(r)
    ensures LeftBy(Needs(r), Code(r), ok) == Needs(r)
  {
    var h, l := Needs(r), Code(r).lock;
    assert LeftBy(h + {l}, Release(l, End), ok) == h + {l} - {l};
  }

  lemma SweepLeaves(held: set<Lock>, s: Text, u: Text, ok: bool)
    requires held <= {Stock(s)}
    ensures LeftBy(held, Code(SweepUser(s, u)), ok) == if ok then {User(u)} else {}
  {
    assert LeftBy(held + {User(u)}, Release(Stock(s), End), ok) == held + {User(u)} - {Stock(s)};
    assert LeftBy(held, Release(Stock(s), End), ok) == held - {Stock(s)};
  }

  lemma LongRoutinesLeave(u: Text, s: Text, ok: bool)
    ensures LeftBy({}, Code(AddNewUser(u)), ok) == {User(u)}
    ensures LeftBy({User(u)}, Code(AddNewStock(u, s)), ok) == {User(u)}
  {
    var h: set<Lock> := {} + {UserTree} + {User(u)} + {UserList};
    assert LeftBy(h, Release(UserList, Release(UserTree, End)), ok) == h - {UserList} - {UserTree} == {User(u)};
    assert LeftBy({} + {UserTree} + {User(u)}, Acquire(UserList, Release(UserList, Release(UserTree, End))), ok) == {User(u)};
    var g := {User(u)} + {StockTree} + {Stock(s)} + {StockList};
    var inner := Release(StockList, Release(StockTree, Release(Stock(s), End)));
    var g' := g - {StockList} - {StockTree};
    assert LeftBy(g', Release(Stock(s), End), ok) == g' - {Stock(s)} == {User(u)};
    assert LeftBy(g - {StockList}, Release(StockTree, Release(Stock(s), End)), ok) == {User(u)};
    assert LeftBy(g, inner, ok) == {User(u)};
    assert LeftBy({User(u)} + {StockTree} + {Stock(s)}, Acquire(StockList, inner), ok) == {User(u)};
  }

  // ----- Threads -----

  /**
   * A thread goes by the locks that it has taken and not given back.  It may hold fewer: an unlock takes a mutex
   * away from whoever holds it, and the sweep unlocks a stock that it has already given up.
   */
  datatype Thread = Thread(held: set<Lock>, believed: set<Lock>, program: Program)

  type State = seq<Thread>

  ghost predicate HeldBy(s: State, l: Lock, t: nat) {
    t < |s| && l in s[t].held
  }

  ghost predicate IsFree(s: State, l: Lock) {
    forall t :: 0 <= t < |s| ==> !HeldBy(s, l, t)
  }

  function Took(t: Thread, l: Lock, next: Program): Thread {
    Thread(t.held + {l}, t.believed + {l}, next)
  }

  /** Nobody holds the lock any more. */
  function Unlocked(s: State, l: Lock): (r: State)
    ensures |r| == |s| && forall t :: 0 <= t < |s| ==> r[t] == s[t].(held := s[t].held - {l})
  {
    seq(|s|, t requires 0 <= t < |s| => s[t].(held := s[t].held - {l}))
  }

  /** One step of thread `t`, or the beginning of its next routine. */
  ghost predicate Moves(s: State, t: nat, s': State) {
    && t < |s|
    && match s[t].program
       case End => exists r :: Begins(s, t, r, s')
       case Acquire(l, next) => IsFree(s, l) && s' == s[t := Took(s[t], l, next)]
       case Try(l, ok, failed) =>
         s' == s[t := if IsFree(s, l) then Took(s[t], l, ok) else s[t].(program := failed)]
       case Release(l, next) =>
         s' == Unlocked(s, l)[t := Thread(s[t].held - {l}, s[t].believed - {l}, next)]
  }

  ghost predicate Begins(s: State, t: nat, r: Routine, s': State)
    requires t < |s|
  {
    Needs(r) == s[t].believed && s' == s[t := s[t].(program := Code(r))]
  }

  ghost predicate ThreadOrdered(s: State, t: nat)
    requires t < |s|
  {
    s[t].held <= s[t].believed && Ordered(s[t].believed, s[t].program)
  }

  ghost predicate Exclusive(s: State) {
    forall t, u, l :: HeldBy(s, l, t) && HeldBy(s, l, u) ==> t == u
  }

  ghost predicate Invariant(s: State) {
    (forall t :: 0 <= t < |s| ==> ThreadOrdered(s, t)) && Exclusive(s)
  }

  lemma MoveKeepsOrder(s: State, t: nat, s': State, u: nat)
    requires Invariant(s) && Moves(s, t, s') && u < |s'|
    ensures ThreadOrdered(s', u)
  {
    assert ThreadOrdered(s, u) && ThreadOrdered(s, t);
    if s[t].program.End? {
      var r :| Begins(s, t, r, s');
      RoutinesOrdered(r);
    }
  }

  /** Who holds a lock after a move held it before, or has just taken it while it was free. */
  lemma HolderBefore(s: State, t: nat, s': State, l: Lock, u: nat)
    requires Moves(s, t, s') && HeldBy(s', l, u)
    ensures HeldBy(s, l, u) || (u == t && IsFree(s, l))
  {
  }

  lemma MoveKeepsInvariant(s: State, t: nat, s': State)
    requires Invariant(s) && Moves(s, t, s')
    ensures Invariant(s')
  {
    forall u | 0 <= u < |s'| ensures ThreadOrdered(s', u) { MoveKeepsOrder(s, t, s', u); }
    forall u, v, l | HeldBy(s', l, u) && HeldBy(s', l, v) ensures u == v {
      HolderBefore(s, t, s', l, u);
      HolderBefore(s, t, s', l, v);
    }
  }

  // ----- Locks that are taken away -----

  /** Every thread holds what it goes by. */
  ghost predicate Honest(s: State) {
    forall t :: 0 <= t < |s| ==> s[t].held == s[t].believed
  }

  /** The thread is about to unlock what another one holds. */
  ghost predicate Steals(s: State, t: nat)
    requires t < |s|
  {
    s[t].program.Release? && exists u :: u != t && HeldBy(s, s[t].program.lock, u)
  }

  /** A move leaves each thread with the locks it goes by, so that no two go by the same one, unless it steals. */
  lemma HonestExactly(s: State, t: nat, s': State)
    requires Honest(s) && Moves(s, t, s')
    ensures Honest(s') <==> !Steals(s, t)
  {
    if s[t].program.Release? {
      var l := s[t].program.lock;
      forall u | 0 <= u < |s| && u != t ensures s'[u].held == s'[u].believed <==> !HeldBy(s, l, u) {
        if !HeldBy(s, l, u) { assert s[u].held - {l} == s[u].held; }
      }
      if u: nat :| u != t && HeldBy(s, l, u) {
        assert l in s'[u].believed && l !in s'[u].held;
      }
    }
  }

  // ----- Runs without a failed trylock -----

  ghost predicate ThreadOwns(s: State, t: nat)
    requires t < |s|
  {
    OwnsReleases(s[t].believed, s[t].program)
  }

  /** Whatever the threads are in the midst of, they will unlock only what they own. */
  ghost predicate Owning(s: State) {
    forall t :: 0 <= t < |s| ==> ThreadOwns(s, t)
  }

  /** The move begins what a sweep goes on with after a failed trylock. */
  ghost predicate BeginsLoose(s: State, t: nat, s': State)
    requires t < |s|
  {
    s[t].program.End? && exists r :: Loose(r) && Begins(s, t, r, s')
  }

  lemma OwnsAfter(s: State, t: nat, s': State)
    requires Owning(s) && Moves(s, t, s')
    ensures ThreadOwns(s', t) <==> !BeginsLoose(s, t, s')
  {
    assert ThreadOwns(s, t);
    if s[t].program.End? {
      forall r | Begins(s, t, r, s') ensures ThreadOwns(s', t) <==> !Loose(r) { RoutinesOwn(r); }
      if !BeginsLoose(s, t, s') { var r :| Begins(s, t, r, s'); assert !Loose(r); }
    }
  }

  /** A move lets every thread unlock only what it owns if and only if it does not begin such a routine. */
  lemma OwningExactly(s: State, t: nat, s': State)
    requires Owning(s) && Moves(s, t, s')
    ensures Owning(s') <==> !BeginsLoose(s, t, s')
  {
    OwnsAfter(s, t, s');
    forall u | 0 <= u < |s'| && u != t ensures ThreadOwns(s', u) { assert ThreadOwns(s, u); }
  }

  /** A thread that unlocks what it owns takes nothing away, as long as every thread holds what it goes by. */
  lemma OwningDoesNotSteal(s: State, t: nat)
    requires Owning(s) && Honest(s) && Exclusive(s) && t < |s|
    ensures !Steals(s, t)
  {
    assert ThreadOwns(s, t);
    if s[t].program.Release? { assert HeldBy(s, s[t].program.lock, t); }
  }

  /** No two threads go by the same lock. */
  ghost predicate Apart(s: State) {
    forall t, u, l :: 0 <= t < |s| && 0 <= u < |s| && l in s[t].believed && l in s[u].believed ==> t == u
  }

  lemma HonestApart(s: State)
    requires Honest(s) && Exclusive(s)
    ensures Apart(s)
  {
    forall t, u, l | 0 <= t < |s| && 0 <= u < |s| && l in s[t].believed && l in s[u].believed ensures t == u {
      assert HeldBy(s, l, t) && HeldBy(s, l, u);
    }
  }

  // ----- No circle of waiting threads -----

  /** Thread `t` wants to acquire a lock that `u` holds. */
  ghost predicate WaitsFor(s: State, t: nat, u: nat) {
    t < |s| && s[t].program.Acquire? && HeldBy(s, s[t].program.lock, u)
  }

  /** The rank of the lock that a thread wants next; above all ranks if it does not want one. */
  function Wanted(t: Thread): nat {
    if t.program.Acquire? then Rank(t.program.lock) else 5
  }

  lemma WaitingGoesUp(s: State, t: nat, u: nat)
    requires Invariant(s) && WaitsFor(s, t, u)
    ensures Wanted(s[t]) < Wanted(s[u])
  {
    assert ThreadOrdered(s, u);
  }

  ghost predicate Circle(s: State, ts: seq<nat>) {
    && ts != []
    && (forall i :: 0 <= i < |ts| - 1 ==> WaitsFor(s, ts[i], ts[i + 1]))
    && WaitsFor(s, ts[|ts| - 1], ts[0])
  }

  lemma {:induction false} RanksAlong(s: State, ts: seq<nat>, k: nat)
    requires Invariant(s) && Circle(s, ts) && k < |ts|
    ensures ts[0] < |s| && ts[k] < |s| && Wanted(s[ts[0]]) + k <= Wanted(s[ts[k]])
  {
    if k > 0 {
      RanksAlong(s, ts, k - 1);
      assert WaitsFor(s, ts[k - 1], ts[k]);
      WaitingGoesUp(s, ts[k - 1], ts[k]);
    } else {
      assert WaitsFor(s, ts[|ts| - 1], ts[0]);
    }
  }

  lemma NoCircle(s: State, ts: seq<nat>)
    requires Invariant(s)
    ensures !Circle(s, ts)
  {
    if Circle(s, ts) {
      RanksAlong(s, ts, |ts| - 1);
      WaitingGoesUp(s, ts[|ts| - 1], ts[0]);
    }
  }

  /** Behind every waiting thread there is one that holds a lock and is not waiting for any. */
  lemma {:induction false} SomeoneRuns(s: State, t: nat, u: nat) returns (v: nat)
    requires Invariant(s) && WaitsFor(s, t, u)
    ensures v < |s| && s[v].held != {} && forall x :: !WaitsFor(s, v, x)
    decreases 5 - Wanted(s[u])
  {
    WaitingGoesUp(s, t, u);
    if x :| WaitsFor(s, u, x) {
      WaitingGoesUp(s, u, x);
      v := SomeoneRuns(s, u, x);
    } else {
      v := u;
    }
  }

  const IDLE := Thread({}, {}, End)

  /** A run of the server: the states that threads move through, one at a time. */
  ghost predicate IsRun(states: seq<State>) {
    && states != []
    && (forall t :: 0 <= t < |states[0]| ==> states[0][t] == IDLE)
    && forall k :: 0 <= k < |states| - 1 ==> SomeoneMoves(states[k], states[k + 1])
  }

  ghost predicate SomeoneMoves(s: State, s': State) {
    exists t :: Moves(s, t, s')
  }

  lemma {:induction false} RunKeepsInvariant(states: seq<State>, k: nat)
    requires IsRun(states) && k < |states|
    ensures Invariant(states[k])
  {
    if k > 0 {
      RunKeepsInvariant(states, k - 1);
      assert SomeoneMoves(states[k - 1], states[k]);
      var t :| Moves(states[k - 1], t, states[k]);
      MoveKeepsInvariant(states[k - 1], t, states[k]);
    }
  }

  /** No move of the run begins what follows a failed trylock of the sweep. */
  ghost predicate Tidy(states: seq<State>) {
    forall k :: 0 <= k < |states| - 1 ==> MovesTidily(states[k], states[k + 1])
  }

  ghost predicate MovesTidily(s: State, s': State) {
    forall t: nat :: t < |s| && Moves(s, t, s') ==> !BeginsLoose(s, t, s')
  }

  ghost predicate OwningThroughout(states: seq<State>) {
    forall k :: 0 <= k < |states| ==> Owning(states[k])
  }

  lemma {:induction false} TidyOwns(states: seq<State>, k: nat)
    requires IsRun(states) && Tidy(states) && k < |states|
    ensures Owning(states[k]) && Honest(states[k])
  {
    if k > 0 {
      TidyOwns(states, k - 1);
      var s, s' := states[k - 1], states[k];
      assert SomeoneMoves(s, s') && MovesTidily(s, s');
      var t: nat :| Moves(s, t, s');
      RunKeepsInvariant(states, k - 1);
      OwningExactly(s, t, s');
      OwningDoesNotSteal(s, t);
      HonestExactly(s, t, s');
    }
  }

  /**
   * In a run every thread is at all times about to unlock only what it owns if and only if no sweep ever goes on
   * after a failed trylock.
   */
  lemma RunsOwnExactly(states: seq<State>)
    requires IsRun(states)
    ensures OwningThroughout(states) <==> Tidy(states)
  {
    if Tidy(states) {
      forall k | 0 <= k < |states| ensures Owning(states[k]) { TidyOwns(states, k); }
    }
    if OwningThroughout(states) {
      forall k | 0 <= k < |states| - 1 ensures MovesTidily(states[k], states[k + 1]) {
        var s, s' := states[k], states[k + 1];
        assert Owning(s) && Owning(s');
        forall t: nat | t < |s| && Moves(s, t, s') ensures !BeginsLoose(s, t, s') { OwningExactly(s, t, s'); }
      }
    }
  }

  /** In such a run mutexes do what they are for: no unlock takes one away, and no two threads go by the same one. */
  lemma TidyRunsExclude(states: seq<State>, k: nat, t: nat)
    requires IsRun(states) && Tidy(states) && k < |states|
    ensures Honest(states[k]) && Apart(states[k])
    ensures t < |states[k]| ==> !Steals(states[k], t)
  {
    TidyOwns(states, k);
    RunKeepsInvariant(states, k);
    HonestApart(states[k]);
    if t < |states[k]| { OwningDoesNotSteal(states[k], t); }
  }

  /** With any number of threads, in any interleaving, no reachable state has a circle of waiting threads. */
  lemma NoDeadlock(states: seq<State>, k: nat, ts: seq<nat>)
    requires IsRun(states) && k < |states|
    ensures !Circle(states[k], ts)
  {
    RunKeepsInvariant(states, k);
    NoCircle(states[k], ts);
  }

  // ----- The sweep takes a stock away -----

  lemma ToEnd(s: State, t: nat, r: Routine, s': State)
    requires t < |s| && s[t].program == End && Begins(s, t, r, s')
    ensures SomeoneMoves(s, s')
  {
    assert Moves(s, t, s');
  }

  lemma Takes(s: State, t: nat, next: Program, s': State)
    requires t < |s| && |s'| == |s| && (s[t].program.Acquire? || s[t].program.Try?) && IsFree(s, s[t].program.lock)
    requires next == if s[t].program.Acquire? then s[t].program.next else s[t].program.ok
    requires s'[t].held == s[t].held + {s[t].program.lock} && s'[t].believed == s[t].believed + {s[t].program.lock}
    requires s'[t].program == next && forall u :: 0 <= u < |s| && u != t ==> s'[u] == s[u]
    ensures SomeoneMoves(s, s')
  {
    assert s' == s[t := Took(s[t], s[t].program.lock, next)];
    assert Moves(s, t, s');
  }

  lemma Fails(s: State, t: nat, u: nat, s': State)
    requires t < |s| && s[t].program.Try? && HeldBy(s, s[t].program.lock, u)
    requires s' == s[t := s[t].(program := s[t].program.failed)]
    ensures SomeoneMoves(s, s')
  {
    assert Moves(s, t, s');
  }

  lemma GivesBack(s: State, t: nat, s': State)
    requires t < |s| && |s'| == |s| && s[t].program.Release? && s'[t].program == s[t].program.next
    requires s'[t].held == s[t].held - {s[t].program.lock} && s'[t].believed == s[t].believed - {s[t].program.lock}
    requires forall u :: 0 <= u < |s| && u != t ==>
      s'[u].held == s[u].held - {s[t].program.lock} && s'[u].believed == s[u].believed && s'[u].program == s[u].program
    ensures SomeoneMoves(s, s')
  {
    assert s' == Unlocked(s, s[t].program.lock)[t := s'[t]];
    assert Moves(s, t, s');
  }

  /** A thread that has locked a user, while a sweep goes on to that user's first trigger and gives up its stock. */
  ghost function SweepGivesUp(u: Text, k: Text): seq<State> {
    var S, U := {Stock(k)}, {User(u)};
    var inside := Thread(U, U, End);
    [ [IDLE, IDLE],
      [IDLE.(program := Code(HuntUser(u))), IDLE],
      [inside, IDLE],
      [inside, IDLE.(program := Code(EnterStock(k)))],
      [inside, Thread(S, S, End)],
      [inside, Thread(S, S, Code(SweepUser(k, u)))],
      [inside, Thread(S, S, Release(Stock(k), End))],
      [inside, IDLE] ]
  }

  /** The command goes on to lock the stock, and the sweep to that user's other trigger. */
  ghost function SweepTakesAway(u: Text, k: Text): seq<State> {
    var S, U := {Stock(k)}, {User(u)};
    var changing := Thread(U + S, U + S, Release(Stock(k), End));
    [ [Thread(U, U, Code(ChangeRing(u, k))), IDLE],
      [changing, IDLE],
      [changing, IDLE.(program := Code(SweepUserLoose(k, u)))],
      [changing, IDLE.(program := Release(Stock(k), End))],
      [changing.(held := U), IDLE] ]
  }

  lemma GivingUpMoves(u: Text, k: Text)
    ensures IsRun(SweepGivesUp(u, k))
  {
    var ss := SweepGivesUp(u, k);
    ToEnd(ss[0], 0, HuntUser(u), ss[1]);
    Takes(ss[1], 0, End, ss[2]);
    ToEnd(ss[2], 1, EnterStock(k), ss[3]);
    Takes(ss[3], 1, End, ss[4]);
    ToEnd(ss[4], 1, SweepUser(k, u), ss[5]);
    Fails(ss[5], 1, 0, ss[6]);
    GivesBack(ss[6], 1, ss[7]);
  }

  lemma TakingAwayMoves(u: Text, k: Text)
    ensures var ss := SweepTakesAway(u, k);
      && SomeoneMoves(SweepGivesUp(u, k)[7], ss[0])
      && forall i :: 0 <= i < |ss| - 1 ==> SomeoneMoves(ss[i], ss[i + 1])
  {
    var ss := SweepTakesAway(u, k);
    ToEnd(SweepGivesUp(u, k)[7], 0, ChangeRing(u, k), ss[0]);
    Takes(ss[0], 0, Release(Stock(k), End), ss[1]);
    ToEnd(ss[1], 1, SweepUserLoose(k, u), ss[2]);
    Fails(ss[2], 1, 0, ss[3]);
    GivesBack(ss[3], 1, ss[4]);
  }

  /**
   * When a sweep has given up its stock at one locked user and meets a locked user again, it unlocks the stock a
   * second time.  A command that has locked the stock in between is then inside with the mutex free.
   */
  lemma StealingReachable(u: Text, k: Text) returns (states: seq<State>)
    ensures IsRun(states) && |states| == 13
    ensures HeldBy(states[11], Stock(k), 0) && |states[11]| == 2 && Steals(states[11], 1)
    ensures |states[12]| == 2 && Stock(k) in states[12][0].believed && IsFree(states[12], Stock(k))
  {
    GivingUpMoves(u, k);
    TakingAwayMoves(u, k);
    states := SweepGivesUp(u, k) + SweepTakesAway(u, k);
    forall i | 0 <= i < 12 ensures SomeoneMoves(states[i], states[i + 1]) {
      if i >= 8 { assert states[i] == SweepTakesAway(u, k)[i - 8]; }
    }
    assert states[11] == SweepTakesAway(u, k)[3] && HeldBy(states[11], Stock(k), 0);
  }

  /** Were the sweep to wait for the user instead of trying, it could meet a command that waits for its stock. */
  lemma TryIsNeeded(user: Text, stock: Text)
    ensures var h, k := Needs(SweepUser(stock, user)), Needs(ChangeRing(user, stock));
      var sweep := Thread(h, h, Acquire(User(user), Release(Stock(stock), End)));
      var command := Thread(k, k, Code(ChangeRing(user, stock)));
      && Exclusive([sweep, command]) && Circle([sweep, command], [0, 1])
      && ThreadOrdered([sweep, command], 1) && !ThreadOrdered([sweep, command], 0)
  {
    RoutinesOrdered(ChangeRing(user, stock));
    var sweep := Thread({Stock(stock)}, {Stock(stock)}, Acquire(User(user), Release(Stock(stock), End)));
    var command := Thread({User(user)}, {User(user)}, Code(ChangeRing(user, stock)));
    var s := [sweep, command];
    assert WaitsFor(s, 0, 1) && WaitsFor(s, 1, 0);
    assert Stock(stock) in sweep.believed;
  }
}
