/**
 * The queues of commands: producers that add to a user's queue and post a permit, and workers that take a permit
 * and hunt around the ring of users for one that is unlocked and has a command waiting.
 */
module Workers {

  /**
   * Where a worker is in `command_handler`.  `at` is its `cUser`, as a position in the ring of users: users are
   * only ever added before `curr`, which stays the first, so positions do not change.
   */
  datatype Worker<C> =
    | Starting                      // before its first permit
    | WarmUp(at: nat)               // holds that permit and looks for any unlocked user
    | Warm(at: nat)                 // holds that user's lock as well
    | Holding(at: nat)              // has posted the permit again
    | Waiting(at: nat)              // holds nothing, wants a permit
    | Hunting(at: nat)              // holds a permit
    | Locked(at: nat)               // and the lock of the user it looks at
    | Taking(at: nat)               // has seen that the queue is not empty
    | Executing(at: nat, command: C)  // has taken a command, and with it used up the permit

  datatype Owner = Free | Taken(worker: nat) | Elsewhere  // by the sweep, or by the thread that adds the user

  datatype State<C> = State(
    queues: seq<seq<C>>,    // of each user
    enqueued: seq<seq<C>>,  // all commands ever added for a user
    done: seq<seq<C>>,      // those whose execution is over
    owner: seq<Owner>,      // of the user's lock
    avail: nat,             // the semaphore
    workers: seq<Worker<C>>,
    pushed: nat)            // producers that have added a command and not yet posted

  function Next(n: nat, at: nat): nat {
    if at + 1 < n then at + 1 else 0
  }

  // ----- Steps -----

  datatype Action<C> =
    | AddUser                          // ends up with the new user's lock held by the adder
    | Push(user: nat, command: C) | Post
    | TakeElsewhere(user: nat) | GiveElsewhere(user: nat)  // the sweep's trylock and unlock, the adder's unlock
    | FirstPermit(worker: nat) | WarmTry(worker: nat) | Repost(worker: nat)
    | Release(worker: nat) | Permit(worker: nat) | Try(worker: nat) | Look(worker: nat) | Take(worker: nat)

  /** The action can happen now; a wait for a permit can only end when there is one. */
  predicate Enabled<C>(s: State<C>, a: Action<C>) {
    match a
    case AddUser => true
    case Push(u, _) => u < |s.queues|
    case Post => s.pushed > 0
    case TakeElsewhere(u) => u < |s.owner| && s.owner[u] == Free
    case GiveElsewhere(u) => u < |s.owner| && s.owner[u] == Elsewhere
    case FirstPermit(w) => w < |s.workers| && s.workers[w].Starting? && s.avail > 0
    case WarmTry(w) => w < |s.workers| && s.workers[w].WarmUp?
    case Repost(w) => w < |s.workers| && s.workers[w].Warm?
    case Release(w) => w < |s.workers| && (s.workers[w].Holding? || s.workers[w].Executing?)
    case Permit(w) => w < |s.workers| && s.workers[w].Waiting? && s.avail > 0
    case Try(w) => w < |s.workers| && s.workers[w].Hunting?
    case Look(w) => w < |s.workers| && s.workers[w].Locked?
    case Take(w) => w < |s.workers| && s.workers[w].Taking?
  }

  // ----- What every step keeps -----

  /** Workers between getting a permit and using it up or posting it again. */
  predicate HasPermit<C>(w: Worker<C>) {
    w.WarmUp? || w.Warm? || w.Hunting? || w.Locked? || w.Taking?
  }

  predicate HasLock<C>(w: Worker<C>) {
    w.Warm? || w.Holding? || w.Locked? || w.Taking? || w.Executing?
  }

  function Permits<C>(ws: seq<Worker<C>>): nat {
    if ws == [] then 0 else Permits(ws[..|ws| - 1]) + (if HasPermit(ws[|ws| - 1]) then 1 else 0)
  }

  function Queued<C>(queues: seq<seq<C>>): nat {
    if queues == [] then 0 else Queued(queues[..|queues| - 1]) + |queues[|queues| - 1]|
  }

  /** Every queued command is matched by a permit: free, held by a worker, or about to be posted. */
  predicate PermitsAccounted<C>(s: State<C>) {
    Queued(s.queues) == s.avail + Permits(s.workers) + s.pushed
  }

  predicate Sized<C>(s: State<C>) {
    |s.queues| == |s.enqueued| == |s.done| == |s.owner|
  }

  /** Workers look at users that exist, and agree with the locks about who holds what. */
  predicate LocksAgree<C>(s: State<C>)
    requires Sized(s)
  {
    && (forall w :: 0 <= w < |s.workers| ==> PlaceAgrees(s, w))
    && (forall u :: 0 <= u < |s.owner| ==> OwnerAgrees(s, u))
  }

  predicate PlaceAgrees<C>(s: State<C>, w: nat)
    requires Sized(s) && w < |s.workers|
  {
    && (!s.workers[w].Starting? ==> s.workers[w].at < |s.owner|)
    && (HasLock(s.workers[w]) ==> s.owner[s.workers[w].at] == Taken(w))
    && (s.workers[w].Taking? ==> s.queues[s.workers[w].at] != [])
  }

  predicate OwnerAgrees<C>(s: State<C>, u: nat)
    requires Sized(s) && u < |s.owner|
  {
    s.owner[u].Taken? ==>
      var w := s.owner[u].worker;
      w < |s.workers| && HasLock(s.workers[w]) && s.workers[w].at == u
  }

  /** The command being executed for a user, if any. */
  function InHand<C>(s: State<C>, u: nat): seq<C>
    requires Sized(s) && u < |s.owner|
  {
    if s.owner[u].Taken? && s.owner[u].worker < |s.workers| && s.workers[s.owner[u].worker].Executing?
    then [s.workers[s.owner[u].worker].command] else []
  }

  predicate InOrder<C(==)>(s: State<C>, u: nat)
    requires Sized(s) && u < |s.owner|
  {
    s.done[u] + InHand(s, u) + s.queues[u] == s.enqueued[u]
  }

  /** For every user: what was executed, then what is executing, then what is queued, is what was enqueued. */
  predicate FirstInFirstOut<C(==)>(s: State<C>)
    requires Sized(s)
  {
    forall u :: 0 <= u < |s.owner| ==> InOrder(s, u)
  }

  predicate Invariant<C(==)>(s: State<C>) {
    Sized(s) && PermitsAccounted(s) && LocksAgree(s) && FirstInFirstOut(s)
  }

  // ----- The effect of each action -----

  function SetWorker<C>(s: State<C>, w: nat, x: Worker<C>): State<C>
    requires w < |s.workers|
  {
    s.(workers := s.workers[w := x])
  }

  function SetOwner<C>(s: State<C>, u: nat, o: Owner): State<C> {
    if u < |s.owner| then s.(owner := s.owner[u := o]) else s
  }

  function Do<C>(s: State<C>, a: Action<C>): State<C>
    requires Sized(s) && Enabled(s, a) && LocksAgree(s)
  {
    var n := |s.queues|;
    match a
    case AddUser =>
      s.(queues := s.queues + [[]], enqueued := s.enqueued + [[]], done := s.done + [[]], owner := s.owner + [Elsewhere])
    case Push(u, c) =>
      s.(queues := s.queues[u := s.queues[u] + [c]], enqueued := s.enqueued[u := s.enqueued[u] + [c]], pushed := s.pushed + 1)
    case Post => s.(pushed := s.pushed - 1, avail := s.avail + 1)
    case TakeElsewhere(u) => SetOwner(s, u, Elsewhere)
    case GiveElsewhere(u) => SetOwner(s, u, Free)
    case FirstPermit(w) => SetWorker(s, w, WarmUp(0)).(avail := s.avail - 1)
    case WarmTry(w) =>
      var at := s.workers[w].at;
      assert PlaceAgrees(s, w);
      if s.owner[at] != Free then SetWorker(s, w, WarmUp(Next(n, at)))
      else SetOwner(SetWorker(s, w, Warm(at)), at, Taken(w))
    case Repost(w) => SetWorker(s, w, Holding(s.workers[w].at)).(avail := s.avail + 1)
    case Release(w) =>
      var at := s.workers[w].at;
      assert PlaceAgrees(s, w);
      var s' := SetOwner(SetWorker(s, w, Waiting(Next(n, at))), at, Free);
      if s.workers[w].Executing? then s'.(done := s.done[at := s.done[at] + [s.workers[w].command]]) else s'
    case Permit(w) => SetWorker(s, w, Hunting(s.workers[w].at)).(avail := s.avail - 1)
    case Try(w) =>
      var at := s.workers[w].at;
      assert PlaceAgrees(s, w);
      if s.owner[at] != Free then SetWorker(s, w, Hunting(Next(n, at)))
      else SetOwner(SetWorker(s, w, Locked(at)), at, Taken(w))
    case Look(w) =>
      var at := s.workers[w].at;
      assert PlaceAgrees(s, w);
      if s.queues[at] != [] then SetWorker(s, w, Taking(at))
      else SetOwner(SetWorker(s, w, Hunting(Next(n, at))), at, Free)
    case Take(w) =>
      var at := s.workers[w].at;
      assert PlaceAgrees(s, w);
      SetWorker(s, w, Executing(at, s.queues[at][0])).(queues := s.queues[at := s.queues[at][1..]])
  }

  // ----- Permits -----

  /** The worker that acts, or none. */
  function Actor<C>(a: Action<C>): int {
    match a
    case FirstPermit(w) => w
    case WarmTry(w) => w
    case Repost(w) => w
    case Release(w) => w
    case Permit(w) => w
    case Try(w) => w
    case Look(w) => w
    case Take(w) => w
    case _ => -1
  }

  lemma {:induction false} PermitsUpdated<C>(ws: seq<Worker<C>>, w: nat, x: Worker<C>)
    requires w < |ws|
    ensures Permits(ws[w := x]) == Permits(ws) - (if HasPermit(ws[w]) then 1 else 0) + (if HasPermit(x) then 1 else 0)
  {
    var n := |ws| - 1;
    if w < n {
      PermitsUpdated(ws[..n], w, x);
      assert ws[w := x][..n] == ws[..n][w := x];
    } else {
      assert ws[w := x][..n] == ws[..n];
    }
  }

  lemma {:induction false} QueuedUpdated<C>(qs: seq<seq<C>>, u: nat, q: seq<C>)
    requires u < |qs|
    ensures Queued(qs[u := q]) == Queued(qs) - |qs[u]| + |q|
  {
    var n := |qs| - 1;
    if u < n {
      QueuedUpdated(qs[..n], u, q);
      assert qs[u := q][..n] == qs[..n][u := q];
    } else {
      assert qs[u := q][..n] == qs[..n];
    }
  }

  lemma OthersKeepPermits<C>(s: State<C>, a: Action<C>)
    requires Sized(s) && PermitsAccounted(s) && LocksAgree(s) && Enabled(s, a) && Actor(a) < 0
    ensures PermitsAccounted(Do(s, a))
  {
    match a
    case AddUser => assert (s.queues + [[]])[..|s.queues|] == s.queues;
    case Push(u, c) => QueuedUpdated(s.queues, u, s.queues[u] + [c]);
    case _ =>
  }

  lemma TakeKeepsPermits<C>(s: State<C>, w: nat)
    requires Sized(s) && PermitsAccounted(s) && LocksAgree(s) && Enabled(s, Take(w))
    ensures PermitsAccounted(Do(s, Take(w)))
  {
    assert PlaceAgrees(s, w);
    PermitsUpdated(s.workers, w, Do(s, Take(w)).workers[w]);
    QueuedUpdated(s.queues, s.workers[w].at, s.queues[s.workers[w].at][1..]);
  }

  /** Every action keeps the permits accounted for. */
  lemma KeepsPermits<C>(s: State<C>, a: Action<C>)
    requires Sized(s) && PermitsAccounted(s) && LocksAgree(s) && Enabled(s, a)
    ensures PermitsAccounted(Do(s, a))
  {
    hide Do, LocksAgree, HasPermit, HasLock;
    if Actor(a) < 0 {
      OthersKeepPermits(s, a);
    } else if a.Take? {
      TakeKeepsPermits(s, a.worker);
    } else {
      WorkerMoves(s, a);
      PermitsUpdated(s.workers, a.worker, Do(s, a).workers[a.worker]);
    }
  }

  /** A worker that moves without taking a command gets, keeps or gives back a permit, and leaves all queues alone. */
  lemma WorkerMoves<C>(s: State<C>, a: Action<C>)
    requires Sized(s) && LocksAgree(s) && Enabled(s, a) && Actor(a) >= 0 && !a.Take?
    ensures var s', w := Do(s, a), a.worker;
      && |s'.workers| == |s.workers| && s'.workers == s.workers[w := s'.workers[w]]
      && s'.queues == s.queues && s'.pushed == s.pushed && s'.enqueued == s.enqueued
      && s'.avail + (if HasPermit(s'.workers[w]) then 1 else 0) == s.avail + (if HasPermit(s.workers[w]) then 1 else 0)
  {
    assert PlaceAgrees(s, a.worker);
  }

  lemma {:induction false} SomeQueue<C>(qs: seq<seq<C>>) returns (u: nat)
    requires Queued(qs) > 0
    ensures u < |qs| && qs[u] != []
  {
    if qs[|qs| - 1] != [] { return |qs| - 1; }
    u := SomeQueue(qs[..|qs| - 1]);
  }

  lemma {:induction false} OnePermit<C>(ws: seq<Worker<C>>, w: nat)
    requires w < |ws| && HasPermit(ws[w])
    ensures Permits(ws) >= 1
  {
    if w < |ws| - 1 { OnePermit(ws[..|ws| - 1], w); }
  }

  /** A worker with a permit, or a free permit, means that some command is waiting to be found. */
  lemma PermitMeansCommand<C>(s: State<C>) returns (u: nat)
    requires PermitsAccounted(s) && (s.avail > 0 || exists w :: 0 <= w < |s.workers| && HasPermit(s.workers[w]))
    ensures u < |s.queues| && s.queues[u] != []
  {
    if s.avail == 0 {
      var w :| 0 <= w < |s.workers| && HasPermit(s.workers[w]);
      OnePermit(s.workers, w);
    }
    u := SomeQueue(s.queues);
  }

  // ----- Locks -----

  lemma KeepsSize<C>(s: State<C>, a: Action<C>)
    requires Sized(s) && LocksAgree(s) && Enabled(s, a)
    ensures Sized(Do(s, a)) && |Do(s, a).workers| == |s.workers| && |Do(s, a).owner| >= |s.owner|
  {
    match a
    case AddUser =>
    case Push(_, _) =>
    case Release(w) => assert PlaceAgrees(s, w);
    case Take(w) => assert PlaceAgrees(s, w);
    case _ =>
  }

  lemma OwnPlaceAfter<C>(s: State<C>, a: Action<C>, v: nat)
    requires Sized(s) && PermitsAccounted(s) && LocksAgree(s) && Enabled(s, a) && v < |s.workers| && Actor(a) == v
    ensures Sized(Do(s, a)) && v < |Do(s, a).workers| && PlaceAgrees(Do(s, a), v)
  {
    KeepsSize(s, a);
    assert PlaceAgrees(s, v);
    if a.FirstPermit? { var u := PermitMeansCommand(s); }
  }

  lemma OtherPlaceAfter<C>(s: State<C>, a: Action<C>, v: nat)
    requires Sized(s) && LocksAgree(s) && Enabled(s, a) && v < |s.workers| && Actor(a) != v
    ensures Sized(Do(s, a)) && v < |Do(s, a).workers| && PlaceAgrees(Do(s, a), v)
  {
    KeepsSize(s, a);
    assert PlaceAgrees(s, v);
    if Actor(a) >= 0 { assert PlaceAgrees(s, Actor(a)); }
  }

  lemma OwnerAfter<C>(s: State<C>, a: Action<C>, u: nat)
    requires Sized(s) && LocksAgree(s) && Enabled(s, a) && u < |Do(s, a).owner|
    ensures Sized(Do(s, a)) && OwnerAgrees(Do(s, a), u)
  {
    KeepsSize(s, a);
    if u < |s.owner| { assert OwnerAgrees(s, u); }
    if Actor(a) >= 0 { assert PlaceAgrees(s, Actor(a)); }
  }

  lemma KeepsLocks<C>(s: State<C>, a: Action<C>)
    requires Sized(s) && PermitsAccounted(s) && LocksAgree(s) && Enabled(s, a)
    ensures Sized(Do(s, a)) && LocksAgree(Do(s, a))
  {
    var s' := Do(s, a);
    KeepsSize(s, a);
    forall v | 0 <= v < |s'.workers| ensures PlaceAgrees(s', v) {
      if Actor(a) == v { OwnPlaceAfter(s, a, v); } else { OtherPlaceAfter(s, a, v); }
    }
    forall u | 0 <= u < |s'.owner| ensures OwnerAgrees(s', u) { OwnerAfter(s, a, u); }
  }

  /** No two workers are at the same user with its lock, and none is there while the sweep or the adder is. */
  lemma OneAtATime<C>(s: State<C>, v: nat, w: nat)
    requires Sized(s) && LocksAgree(s) && v < |s.workers| && w < |s.workers|
    requires HasLock(s.workers[v]) && HasLock(s.workers[w]) && s.workers[v].at == s.workers[w].at
    ensures v == w && s.workers[v].at < |s.owner| && s.owner[s.workers[v].at] != Elsewhere
  {
    assert PlaceAgrees(s, v) && PlaceAgrees(s, w);
  }

  // ----- Order -----

  lemma KeepsOrder<C>(s: State<C>, a: Action<C>)
    requires Invariant(s) && Enabled(s, a)
    ensures Sized(Do(s, a)) && FirstInFirstOut(Do(s, a))
  {
    var s' := Do(s, a);
    KeepsLocks(s, a);
    forall u | 0 <= u < |s'.owner| ensures InOrder(s', u) {
      if u < |s.owner| {
        assert InOrder(s, u) && OwnerAgrees(s, u);
        OrderOfOne(s, a, u);
      }
    }
  }

  lemma OrderAfterTake<C>(s: State<C>, w: nat, u: nat)
    requires Sized(s) && LocksAgree(s) && Enabled(s, Take(w)) && u < |s.owner| && InOrder(s, u) && OwnerAgrees(s, u)
    ensures Sized(Do(s, Take(w))) && InOrder(Do(s, Take(w)), u)
  {
    assert PlaceAgrees(s, w);
    if s.workers[w].at == u {
      assert s.done[u] + [] + s.queues[u] == s.done[u] + [s.queues[u][0]] + s.queues[u][1..];
    }
  }

  lemma OrderAfterRelease<C>(s: State<C>, w: nat, u: nat)
    requires Sized(s) && LocksAgree(s) && Enabled(s, Release(w)) && u < |s.owner| && InOrder(s, u) && OwnerAgrees(s, u)
    ensures Sized(Do(s, Release(w))) && InOrder(Do(s, Release(w)), u)
  {
    assert PlaceAgrees(s, w);
    if s.workers[w].at == u && s.workers[w].Executing? {
      var c := s.workers[w].command;
      assert InHand(s, u) == [c];
      assert s.done[u] + [c] + [] + s.queues[u] == s.done[u] + [c] + s.queues[u];
    }
  }

  lemma OrderOfOne<C>(s: State<C>, a: Action<C>, u: nat)
    requires Sized(s) && LocksAgree(s) && Enabled(s, a) && u < |s.owner| && InOrder(s, u) && OwnerAgrees(s, u)
    ensures Sized(Do(s, a)) && InOrder(Do(s, a), u)
  {
    if a.Take? {
      OrderAfterTake(s, a.worker, u);
    } else if a.Release? {
      OrderAfterRelease(s, a.worker, u);
    } else if Actor(a) >= 0 {
      OrderAfterMove(s, a, u);
    } else if a.Push? {
      OrderAfterPush(s, a, u);
    }
  }

  lemma OrderAfterMove<C>(s: State<C>, a: Action<C>, u: nat)
    requires Sized(s) && LocksAgree(s) && Enabled(s, a) && u < |s.owner| && InOrder(s, u) && OwnerAgrees(s, u)
    requires Actor(a) >= 0 && !a.Take? && !a.Release?
    ensures Sized(Do(s, a)) && InOrder(Do(s, a), u)
  {
    assert PlaceAgrees(s, a.worker);
  }

  lemma OrderAfterPush<C>(s: State<C>, a: Action<C>, u: nat)
    requires Sized(s) && LocksAgree(s) && Enabled(s, a) && u < |s.owner| && InOrder(s, u) && OwnerAgrees(s, u) && a.Push?
    ensures Sized(Do(s, a)) && InOrder(Do(s, a), u)
  {
    assert s.done[u] + InHand(s, u) + (s.queues[u] + [a.command]) == s.done[u] + InHand(s, u) + s.queues[u] + [a.command];
  }

  // ----- Runs -----

  ghost predicate Reaches<C>(s: State<C>, actions: seq<Action<C>>, t: State<C>)
    requires Invariant(s)
    decreases |actions|
  {
    if actions == [] then s == t
    else
      Enabled(s, actions[0]) && (StepKeepsInvariant(s, actions[0]); Reaches(Do(s, actions[0]), actions[1..], t))
  }

  lemma StepKeepsInvariant<C>(s: State<C>, a: Action<C>)
    requires Invariant(s) && Enabled(s, a)
    ensures Invariant(Do(s, a))
  {
    KeepsPermits(s, a);
    KeepsLocks(s, a);
    KeepsOrder(s, a);
  }

  /** No users, and any number of workers that have not begun. */
  predicate Initial<C(==)>(s: State<C>) {
    && s.queues == s.enqueued == s.done == [] && s.owner == []
    && s.avail == 0 && s.pushed == 0
    && forall w :: 0 <= w < |s.workers| ==> s.workers[w] == Starting
  }

  lemma {:induction false} NoPermitsYet<C>(ws: seq<Worker<C>>)
    requires forall w :: 0 <= w < |ws| ==> ws[w] == Starting
    ensures Permits(ws) == 0
  {
    if ws != [] { NoPermitsYet(ws[..|ws| - 1]); }
  }

  lemma InitiallyInvariant<C>(s: State<C>)
    requires Initial(s)
    ensures Invariant(s)
  {
    NoPermitsYet(s.workers);
  }

  /** The queue that the worker is about to take from holds a command, so `cdeq` does not return NULL. */
  predicate CommandWaits<C>(s: State<C>, w: nat)
    requires w < |s.workers| && s.workers[w].Taking?
  {
    s.workers[w].at < |s.queues| && s.queues[s.workers[w].at] != []
  }

  /**
   * In every reachable state, with any number of producers, workers, users and interleavings: the permits are
   * accounted for, a worker about to take a command finds one, and each user's commands run one at a time in the
   * order in which they were added.
   */
  lemma {:induction false} ReachableInvariant<C>(s: State<C>, actions: seq<Action<C>>, t: State<C>)
    requires Invariant(s) && Reaches(s, actions, t)
    ensures Invariant(t)
    ensures forall w :: 0 <= w < |t.workers| && t.workers[w].Taking? ==> CommandWaits(t, w)
    decreases |actions|
  {
    if actions == [] {
      forall w | 0 <= w < |t.workers| && t.workers[w].Taking? ensures CommandWaits(t, w) {
        assert PlaceAgrees(t, w);
      }
    } else {
      StepKeepsInvariant(s, actions[0]);
      ReachableInvariant(Do(s, actions[0]), actions[1..], t);
    }
  }

  // ----- The way around the ring -----

  /** The next user of the ring, going round. */
  function Onward(n: nat, at: nat, k: nat): nat
    requires n > 0
  {
    (at + k) % n
  }

  lemma OnwardFromNext(n: nat, at: nat, k: nat)
    requires at < n
    ensures Onward(n, Next(n, at), k) == Onward(n, at, k + 1)
  {
    if at + 1 < n {
      assert Next(n, at) + k == at + (k + 1);
    } else {
      assert Next(n, at) + k == k && at + (k + 1) == k + n;
      AddWhole(k, n);
    }
  }

  lemma OnwardNone(n: nat, at: nat)
    requires at < n
    ensures Onward(n, at, 0) == at
  {
  }

  lemma NextIsOnward(n: nat, at: nat)
    requires at < n
    ensures Next(n, at) == Onward(n, at, 1)
  {
    hide Onward;
    OnwardFromNext(n, at, 0);
    OnwardNone(n, Next(n, at));
  }

  lemma AddWhole(k: nat, n: nat)
    requires n > 0
    ensures (k + n) % n == k % n
  {
    var q := (k + n) / n - k / n - 1;
    assert k == n * (k / n) + k % n && k + n == n * ((k + n) / n) + (k + n) % n;
    assert n * q == n * ((k + n) / n) - n * (k / n) - n;
    AtLeastOnce(q, n);
    AtLeastOnce(-q, n);
  }

  lemma AtLeastOnce(q: int, n: nat)
    ensures q >= 1 ==> n * q >= n
    ensures n * -q == -(n * q)
  {
    if q >= 1 { assert n * q == n * (q - 1) + n && n * (q - 1) >= 0; }
  }

  /**
   * Where a worker is after its own action: still at its user when it has locked it or found a command there, and at
   * the next one when the lock was taken, the queue empty, or its command done.
   */
  lemma MovesOn<C>(s: State<C>, a: Action<C>)
    requires Invariant(s) && Enabled(s, a) && (a.WarmTry? || a.Try? || a.Look? || a.Release?)
    ensures var w, at, x := a.worker, s.workers[a.worker].at, Do(s, a).workers[a.worker];
      && at < |s.queues|
      && var next := Onward(|s.queues|, at, 1);
         if a.Look? then x == (if s.queues[at] != [] then Taking(at) else Hunting(next))
         else if a.Release? then x == Waiting(next)
         else if a.Try? then x == (if s.owner[at] == Free then Locked(at) else Hunting(next))
         else x == (if s.owner[at] == Free then Warm(at) else WarmUp(next))
  {
    hide Onward;
    assert PlaceAgrees(s, a.worker);
    NextIsOnward(|s.queues|, s.workers[a.worker].at);
  }

  // ----- The end of a hunt -----

  /** Nobody holds any user's lock. */
  predicate AllFree<C>(s: State<C>)
  {
    forall u :: 0 <= u < |s.owner| ==> s.owner[u] == Free
  }

  /** How many users the worker has still to pass before it comes to `u`, going round. */
  function Distance(n: nat, at: nat, u: nat): nat
    requires at < n && u < n
  {
    if at <= u then u - at else n - at + u
  }

  /** The actions of a worker that hunts while no other thread acts. */
  predicate Hunts<C(==)>(w: nat, actions: seq<Action<C>>) {
    forall a <- actions :: a == Try(w) || a == Look(w)
  }

  /** How many users it tries. */
  function Tried<C>(actions: seq<Action<C>>): nat {
    if actions == [] then 0 else (if actions[0].Try? then 1 else 0) + Tried(actions[1..])
  }

  /** The states differ at most in where that worker is; it holds no lock but possibly the one of its user. */
  predicate OnlyHunted<C(==)>(s: State<C>, t: State<C>, w: nat)
    requires w < |s.workers|
  {
    && |t.workers| == |s.workers| && t.workers == s.workers[w := t.workers[w]]
    && t.queues == s.queues && t.enqueued == s.enqueued && t.done == s.done && t.avail == s.avail && t.pushed == s.pushed
  }

  /** One try, and a look if the lock was free, bring the worker to a command or to the next user. */
  lemma HuntOne<C>(s: State<C>, w: nat) returns (actions: seq<Action<C>>, t: State<C>)
    requires Invariant(s) && w < |s.workers| && s.workers[w].Hunting? && s.workers[w].at < |s.queues|
    ensures Invariant(t) && Reaches(s, actions, t) && Hunts(w, actions) && Tried(actions) == 1 && OnlyHunted(s, t, w)
    ensures var at := s.workers[w].at;
      if s.owner[at] == Free && s.queues[at] != [] then t.workers[w] == Taking(at)
      else t.workers[w] == Hunting(Next(|s.queues|, at)) && t.owner == s.owner
  {
    var at := s.workers[w].at;
    assert PlaceAgrees(s, w);
    StepKeepsInvariant(s, Try(w));
    var s1 := Do(s, Try(w));
    if s.owner[at] != Free {
      actions, t := [Try(w)], s1;
      assert actions[1..] == [] && Tried(actions[1..]) == 0 && Reaches(s1, [], t);
    } else {
      StepKeepsInvariant(s1, Look(w));
      actions, t := [Try(w), Look(w)], Do(s1, Look(w));
      assert actions[1..] == [Look(w)] && actions[1..][1..] == [];
      assert Tried(actions[1..][1..]) == 0 && Tried(actions[1..]) == 0;
      assert Reaches(t, [], t) && Reaches(s1, [Look(w)], t);
      assert s.queues[at] == [] ==> t.owner == s.owner;
    }
  }

  lemma {:induction false} ReachesBoth<C>(s: State<C>, first: seq<Action<C>>, m: State<C>, rest: seq<Action<C>>, t: State<C>)
    requires Invariant(s) && Reaches(s, first, m) && Invariant(m) && Reaches(m, rest, t)
    ensures Reaches(s, first + rest, t)
    ensures Tried(first + rest) == Tried(first) + Tried(rest)
    decreases |first|
  {
    if first == [] {
      assert first + rest == rest;
    } else {
      StepKeepsInvariant(s, first[0]);
      assert (first + rest)[0] == first[0] && (first + rest)[1..] == first[1..] + rest;
      ReachesBoth(Do(s, first[0]), first[1..], m, rest, t);
    }
  }

  /**
   * A hunting worker that runs while no other thread acts comes to a queue that is not empty before it has gone past
   * any user that is free and has a command waiting, whatever locks others hold.
   */
  lemma {:induction false} HuntReaches<C>(s: State<C>, w: nat, u: nat) returns (actions: seq<Action<C>>, t: State<C>)
    requires Invariant(s) && w < |s.workers| && s.workers[w].Hunting? && s.workers[w].at < |s.queues|
    requires u < |s.queues| && s.owner[u] == Free && s.queues[u] != []
    ensures Reaches(s, actions, t) && Hunts(w, actions) && Tried(actions) <= Distance(|s.queues|, s.workers[w].at, u) + 1
    ensures OnlyHunted(s, t, w) && t.workers[w].Taking?
    decreases Distance(|s.queues|, s.workers[w].at, u)
  {
    hide Do, PermitsAccounted, FirstInFirstOut, LocksAgree, Reaches;
    var at := s.workers[w].at;
    var first, m := HuntOne(s, w);
    if s.owner[at] == Free && s.queues[at] != [] {
      actions, t := first, m;
    } else {
      var rest;
      rest, t := HuntReaches(m, w, u);
      ReachesBoth(s, first, m, rest, t);
      actions := first + rest;
    }
  }

  /**
   * A hunting worker that runs while no other thread acts, and any one user is free that has a command waiting, takes
   * a command within one lap of the ring, whatever locks others hold.
   */
  lemma HuntEnds<C>(s: State<C>, w: nat, u: nat) returns (actions: seq<Action<C>>, t: State<C>)
    requires Invariant(s) && w < |s.workers| && s.workers[w].Hunting?
    requires u < |s.queues| && s.owner[u] == Free && s.queues[u] != []
    ensures Reaches(s, actions, t) && Hunts(w, actions) && Tried(actions) <= |s.queues|
    ensures OnlyHunted(s, t, w) && t.workers[w].Taking? && CommandWaits(t, w)
  {
    assert PlaceAgrees(s, w);
    actions, t := HuntReaches(s, w, u);
    ReachableInvariant(s, actions, t);
  }

  /** When nobody holds a lock there always is such a user, since the worker has a permit. */
  lemma FreeHuntEnds<C>(s: State<C>, w: nat) returns (actions: seq<Action<C>>, t: State<C>)
    requires Invariant(s) && w < |s.workers| && s.workers[w].Hunting? && AllFree(s)
    ensures Reaches(s, actions, t) && Hunts(w, actions) && Tried(actions) <= |s.queues|
    ensures OnlyHunted(s, t, w) && t.workers[w].Taking? && CommandWaits(t, w)
  {
    assert HasPermit(s.workers[w]);
    var u := PermitMeansCommand(s);
    actions, t := HuntEnds(s, w, u);
  }

  // ----- A hunt without end -----

  /** Every user's lock is held by somebody. */
  predicate NoneFree<C>(s: State<C>) {
    forall u :: 0 <= u < |s.owner| ==> s.owner[u] != Free
  }

  function Tries<C>(w: nat, n: nat): seq<Action<C>> {
    if n == 0 then [] else [Try(w)] + Tries(w, n - 1)
  }

  lemma FailedTry<C>(s: State<C>, w: nat)
    requires Invariant(s) && w < |s.workers| && s.workers[w].Hunting? && NoneFree(s)
    ensures s.workers[w].at < |s.queues| && Do(s, Try(w)) == SetWorker(s, w, Hunting(Next(|s.queues|, s.workers[w].at)))
  {
    assert PlaceAgrees(s, w);
  }

  /** As long as others hold all locks, a worker goes on hunting, and each try brings it one user further round. */
  lemma {:induction false} HuntGoesOn<C>(s: State<C>, w: nat, n: nat) returns (t: State<C>)
    requires Invariant(s) && w < |s.workers| && s.workers[w].Hunting? && NoneFree(s)
    ensures s.workers[w].at < |s.queues| && t == SetWorker(s, w, Hunting(Onward(|s.queues|, s.workers[w].at, n)))
    ensures Reaches(s, Tries(w, n), t)
    decreases n
  {
    assert PlaceAgrees(s, w);
    hide Onward;
    if n == 0 {
      OnwardNone(|s.queues|, s.workers[w].at);
      return s;
    }
    OnwardFromNext(|s.queues|, s.workers[w].at, n - 1);
    hide Do, PermitsAccounted, FirstInFirstOut, OwnerAgrees;
    StepKeepsInvariant(s, Try(w));
    FailedTry(s, w);
    t := HuntGoesOn(Do(s, Try(w)), w, n - 1);
    assert Tries<C>(w, n)[0] == Try(w) && Tries<C>(w, n)[1..] == Tries(w, n - 1);
  }
}
