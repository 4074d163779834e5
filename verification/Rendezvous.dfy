/**
 * The exchange between a thread that needs the database and a database worker.  The element of the queue carries
 * two semaphores: the requester's, on which it waits for the answer, and the worker's, on which the worker waits
 * until the requester has read the answer before it frees the element.
 */
module Rendezvous {
  import opened Base

  /** How far the exchange about an element is.  From the answer on, the element points to its worker's semaphore. */
  datatype Phase =
    | Queued
    | Served(worker: nat)
    | Answered(worker: nat)   // the requester's semaphore was posted
    | Read(worker: nat)       // the requester has been woken
    | Dismissed(worker: nat)  // the worker's semaphore was posted
    | Freed

  datatype Element<Q, A> = Element(requester: nat, request: Q, answer: Option<A>, phase: Phase)

  datatype Requester = Away | Waiting(element: nat) | Reading(element: nat)
  datatype Worker = Idle | Permitted | Serving(element: nat) | Lingering(element: nat)

  datatype State<Q, A> = State(
    elements: seq<Element<Q, A>>,  // all that were ever made
    queue: seq<nat>,
    length: nat,                   // the semaphore of the queue
    requesters: seq<Requester>, answered: seq<nat>,  // each with its semaphore
    workers: seq<Worker>, dismissed: seq<nat>)       // each with its semaphore

  datatype Action<Q, A> =
    | Request(requester: nat, request: Q)  // `dbenq`
    | Permit(worker: nat)                  // the wait in `dbdeq`
    | Dequeue(worker: nat)                 // the rest of `dbdeq`
    | Answer(worker: nat, answer: A)       // result and semaphore are stored, then the requester is posted
    | Wake(requester: nat)                 // the requester's wait ends
    | Dismiss(requester: nat)              // it posts the semaphore that it finds in the element
    | Free(worker: nat)                    // the worker's wait ends and it frees the element

  predicate Enabled<Q, A>(s: State<Q, A>, a: Action<Q, A>) {
    && |s.answered| == |s.requesters| && |s.dismissed| == |s.workers|
    && match a
       case Request(r, _) => r < |s.requesters| && s.requesters[r] == Away
       case Permit(w) => w < |s.workers| && s.workers[w] == Idle && s.length > 0
       case Dequeue(w) => w < |s.workers| && s.workers[w] == Permitted
       case Answer(w, _) => w < |s.workers| && s.workers[w].Serving?
       case Wake(r) => r < |s.requesters| && s.requesters[r].Waiting? && s.answered[r] > 0
       case Dismiss(r) => r < |s.requesters| && s.requesters[r].Reading?
       case Free(w) => w < |s.workers| && s.workers[w].Lingering? && s.dismissed[w] > 0
  }

  /** The element whose memory the action touches, if it touches one that exists already. */
  function Touches<Q, A>(s: State<Q, A>, a: Action<Q, A>): Option<nat>
    requires Enabled(s, a)
  {
    match a
    case Request(_, _) => None
    case Permit(_) => None
    case Dequeue(_) => if s.queue == [] then None else Some(s.queue[0])
    case Answer(w, _) => Some(s.workers[w].element)
    case Wake(r) => Some(s.requesters[r].element)
    case Dismiss(r) => Some(s.requesters[r].element)
    case Free(w) => Some(s.workers[w].element)
  }

  // ----- What every step keeps -----

  function Permits(ws: seq<Worker>): nat {
    if ws == [] then 0 else Permits(ws[..|ws| - 1]) + (if ws[|ws| - 1] == Permitted then 1 else 0)
  }

  /** A requester's semaphore is at one exactly between the answer and its waking. */
  predicate RequesterAgrees<Q, A>(s: State<Q, A>, r: nat)
    requires r < |s.requesters| == |s.answered|
  {
    match s.requesters[r]
    case Away => s.answered[r] == 0
    case Waiting(e) =>
      && e < |s.elements| && s.elements[e].requester == r
      && (s.elements[e].phase.Queued? || s.elements[e].phase.Served? || s.elements[e].phase.Answered?)
      && s.answered[r] == (if s.elements[e].phase.Answered? then 1 else 0)
    case Reading(e) =>
      e < |s.elements| && s.elements[e].requester == r && s.elements[e].phase.Read? && s.answered[r] == 0
  }

  /** A worker's semaphore is at one exactly between the dismissal and the freeing. */
  predicate WorkerAgrees<Q, A>(s: State<Q, A>, w: nat)
    requires w < |s.workers| == |s.dismissed|
  {
    match s.workers[w]
    case Idle => s.dismissed[w] == 0
    case Permitted => s.dismissed[w] == 0
    case Serving(e) => e < |s.elements| && s.elements[e].phase == Served(w) && s.dismissed[w] == 0
    case Lingering(e) =>
      && e < |s.elements|
      && (s.elements[e].phase == Answered(w) || s.elements[e].phase == Read(w) || s.elements[e].phase == Dismissed(w))
      && s.dismissed[w] == (if s.elements[e].phase.Dismissed? then 1 else 0)
  }

  /** The two sides of an element are where its phase says. */
  predicate ElementAgrees<Q, A>(s: State<Q, A>, e: nat)
    requires e < |s.elements|
  {
    var x := s.elements[e];
    && x.requester < |s.requesters|
    && (match x.phase
        case Queued => s.requesters[x.requester] == Waiting(e) && e in s.queue
        case Served(w) => s.requesters[x.requester] == Waiting(e) && w < |s.workers| && s.workers[w] == Serving(e)
        case Answered(w) => s.requesters[x.requester] == Waiting(e) && w < |s.workers| && s.workers[w] == Lingering(e)
        case Read(w) => s.requesters[x.requester] == Reading(e) && w < |s.workers| && s.workers[w] == Lingering(e)
        case Dismissed(w) => w < |s.workers| && s.workers[w] == Lingering(e)
        case Freed => true)
    && (x.phase.Answered? || x.phase.Read? ==> x.answer.Some?)
  }

  predicate QueueAgrees<Q, A>(s: State<Q, A>) {
    && |s.queue| == s.length + Permits(s.workers)
    && (forall i :: 0 <= i < |s.queue| ==> s.queue[i] < |s.elements| && s.elements[s.queue[i]].phase.Queued?)
    && (forall i, j :: 0 <= i < j < |s.queue| ==> s.queue[i] != s.queue[j])
  }

  predicate Invariant<Q, A>(s: State<Q, A>) {
    && |s.answered| == |s.requesters| && |s.dismissed| == |s.workers|
    && (forall r :: 0 <= r < |s.requesters| ==> RequesterAgrees(s, r))
    && (forall w :: 0 <= w < |s.workers| ==> WorkerAgrees(s, w))
    && (forall e :: 0 <= e < |s.elements| ==> ElementAgrees(s, e))
    && QueueAgrees(s)
  }

  // ----- The steps -----

  function SetPhase<Q, A>(s: State<Q, A>, e: nat, p: Phase): State<Q, A>
    requires e < |s.elements|
  {
    s.(elements := s.elements[e := s.elements[e].(phase := p)])
  }

  function Do<Q, A>(s: State<Q, A>, a: Action<Q, A>): State<Q, A>
    requires Invariant(s) && Enabled(s, a)
  {
    match a
    case Request(r, q) =>
      var e := |s.elements|;
      s.(elements := s.elements + [Element(r, q, None, Queued)], queue := s.queue + [e], length := s.length + 1,
         requesters := s.requesters[r := Waiting(e)])
    case Permit(w) => s.(workers := s.workers[w := Permitted], length := s.length - 1)
    case Dequeue(w) =>
      PermitMeansElement(s.workers, w);
      var e := s.queue[0];
      SetPhase(s, e, Served(w)).(queue := s.queue[1..], workers := s.workers[w := Serving(e)])
    case Answer(w, v) =>
      assert WorkerAgrees(s, w);
      var e := s.workers[w].element;
      assert ElementAgrees(s, e);
      var r := s.elements[e].requester;
      s.(elements := s.elements[e := s.elements[e].(answer := Some(v), phase := Answered(w))],
         answered := s.answered[r := s.answered[r] + 1], workers := s.workers[w := Lingering(e)])
    case Wake(r) =>
      assert RequesterAgrees(s, r);
      var e := s.requesters[r].element;
      SetPhase(s, e, Read(s.elements[e].phase.worker)).(
        answered := s.answered[r := s.answered[r] - 1], requesters := s.requesters[r := Reading(e)])
    case Dismiss(r) =>
      assert RequesterAgrees(s, r);
      var e := s.requesters[r].element;
      var w := s.elements[e].phase.worker;
      assert ElementAgrees(s, e);
      SetPhase(s, e, Dismissed(w)).(
        dismissed := s.dismissed[w := s.dismissed[w] + 1], requesters := s.requesters[r := Away])
    case Free(w) =>
      assert WorkerAgrees(s, w);
      SetPhase(s, s.workers[w].element, Freed).(
        dismissed := s.dismissed[w := s.dismissed[w] - 1], workers := s.workers[w := Idle])
  }

  lemma {:induction false} PermitMeansElement(ws: seq<Worker>, w: nat)
    requires w < |ws| && ws[w] == Permitted
    ensures Permits(ws) >= 1
  {
    if w < |ws| - 1 { PermitMeansElement(ws[..|ws| - 1], w); }
  }

  lemma {:induction false} PermitsUpdated(ws: seq<Worker>, w: nat, x: Worker)
    requires w < |ws|
    ensures Permits(ws[w := x])
         == Permits(ws) - (if ws[w] == Permitted then 1 else 0) + (if x == Permitted then 1 else 0)
  {
    var n := |ws| - 1;
    if w < n {
      PermitsUpdated(ws[..n], w, x);
      assert ws[w := x][..n] == ws[..n][w := x];
    } else {
      assert ws[w := x][..n] == ws[..n];
    }
  }

  // ----- The proof, side by side -----

  /** The element and the two sides that an action is about. */
  lemma Focus<Q, A>(s: State<Q, A>, a: Action<Q, A>)
    requires Invariant(s) && Enabled(s, a)
    ensures match a
      case Request(r, _) => RequesterAgrees(s, r)
      case Permit(w) => WorkerAgrees(s, w)
      case Dequeue(w) => WorkerAgrees(s, w) && s.queue != [] && s.queue[0] < |s.elements| && ElementAgrees(s, s.queue[0])
      case Answer(w, _) => WorkerAgrees(s, w) && ElementAgrees(s, s.workers[w].element)
      case Wake(r) => RequesterAgrees(s, r) && ElementAgrees(s, s.requesters[r].element)
      case Dismiss(r) => RequesterAgrees(s, r) && ElementAgrees(s, s.requesters[r].element)
      case Free(w) => WorkerAgrees(s, w) && ElementAgrees(s, s.workers[w].element)
  {
    match a
    case Request(r, _) => assert RequesterAgrees(s, r);
    case Permit(w) => assert WorkerAgrees(s, w);
    case Dequeue(w) => PermitMeansElement(s.workers, w); assert WorkerAgrees(s, w);
    case Answer(w, _) => assert WorkerAgrees(s, w);
    case Wake(r) => assert RequesterAgrees(s, r);
    case Dismiss(r) => assert RequesterAgrees(s, r);
    case Free(w) => assert WorkerAgrees(s, w);
  }

  lemma RequesterAfter<Q, A>(s: State<Q, A>, a: Action<Q, A>, r: nat)
    requires Invariant(s) && Enabled(s, a) && r < |s.requesters|
    ensures r < |Do(s, a).requesters| == |Do(s, a).answered| && RequesterAgrees(Do(s, a), r)
  {
    Focus(s, a);
    assert RequesterAgrees(s, r);
  }

  lemma WorkerAfter<Q, A>(s: State<Q, A>, a: Action<Q, A>, w: nat)
    requires Invariant(s) && Enabled(s, a) && w < |s.workers|
    ensures w < |Do(s, a).workers| == |Do(s, a).dismissed| && WorkerAgrees(Do(s, a), w)
  {
    Focus(s, a);
    assert WorkerAgrees(s, w);
  }

  lemma ElementAfter<Q, A>(s: State<Q, A>, a: Action<Q, A>, e: nat)
    requires Invariant(s) && Enabled(s, a) && e < |Do(s, a).elements|
    ensures ElementAgrees(Do(s, a), e)
  {
    Focus(s, a);
    if e < |s.elements| { assert ElementAgrees(s, e); }
  }

  lemma QueueAfterRequest<Q, A>(s: State<Q, A>, a: Action<Q, A>)
    requires Invariant(s) && Enabled(s, a) && a.Request?
    ensures QueueAgrees(Do(s, a))
  {
  }

  lemma QueueAfterDequeue<Q, A>(s: State<Q, A>, a: Action<Q, A>)
    requires Invariant(s) && Enabled(s, a) && a.Dequeue?
    ensures QueueAgrees(Do(s, a))
  {
    Focus(s, a);
    PermitsUpdated(s.workers, a.worker, Serving(s.queue[0]));
    assert s.queue == [s.queue[0]] + s.queue[1..];
  }

  lemma QueueAfter<Q, A>(s: State<Q, A>, a: Action<Q, A>)
    requires Invariant(s) && Enabled(s, a)
    ensures QueueAgrees(Do(s, a))
  {
    Focus(s, a);
    match a
    case Request(_, _) => QueueAfterRequest(s, a);
    case Permit(w) => PermitsUpdated(s.workers, w, Permitted);
    case Dequeue(w) => QueueAfterDequeue(s, a);
    case Answer(w, _) => PermitsUpdated(s.workers, w, Lingering(s.workers[w].element));
    case Free(w) => PermitsUpdated(s.workers, w, Idle);
    case _ =>
  }

  lemma KeepsSizes<Q, A>(s: State<Q, A>, a: Action<Q, A>)
    requires Invariant(s) && Enabled(s, a)
    ensures var s' := Do(s, a);
      && |s'.requesters| == |s.requesters| == |s'.answered| && |s'.workers| == |s.workers| == |s'.dismissed|
      && |s.elements| <= |s'.elements|
  {
    Focus(s, a);
    match a
    case Request(_, _) =>
    case Answer(_, _) =>
    case _ =>
  }

  lemma StepKeepsInvariant<Q, A>(s: State<Q, A>, a: Action<Q, A>)
    requires Invariant(s) && Enabled(s, a)
    ensures Invariant(Do(s, a))
  {
    var s' := Do(s, a);
    KeepsSizes(s, a);
    forall r | 0 <= r < |s'.requesters| ensures RequesterAgrees(s', r) { RequesterAfter(s, a, r); }
    forall w | 0 <= w < |s'.workers| ensures WorkerAgrees(s', w) { WorkerAfter(s, a, w); }
    forall e | 0 <= e < |s'.elements| ensures ElementAgrees(s', e) { ElementAfter(s, a, e); }
    QueueAfter(s, a);
  }

  // ----- What the protocol promises -----

  /** No action touches an element that was freed, and a worker with a permit always finds one to take. */
  lemma NoUseAfterFree<Q, A>(s: State<Q, A>, a: Action<Q, A>)
    requires Invariant(s) && Enabled(s, a)
    ensures a.Dequeue? ==> Touches(s, a).Some?
    ensures Touches(s, a).Some? ==> var e := Touches(s, a).value; e < |s.elements| && s.elements[e].phase != Freed
  {
    Focus(s, a);
  }

  /** A woken requester reads the answer to its own request, and nobody else reads it. */
  lemma ReadsOwnAnswer<Q, A>(s: State<Q, A>, r: nat, other: nat)
    requires Invariant(s) && r < |s.requesters| && s.requesters[r].Reading?
    ensures var e := s.requesters[r].element;
      && e < |s.elements| && s.elements[e].requester == r && s.elements[e].answer.Some?
      && (other < |s.requesters| && s.requesters[other] == Reading(e) ==> other == r)
  {
    assert RequesterAgrees(s, r) && ElementAgrees(s, s.requesters[r].element);
    if other < |s.requesters| { assert RequesterAgrees(s, other); }
  }

  /** An element keeps its requester and its request, and its answer is written once, by the worker that serves it. */
  lemma AnswersStay<Q, A>(s: State<Q, A>, a: Action<Q, A>, e: nat)
    requires Invariant(s) && Enabled(s, a) && e < |s.elements|
    ensures e < |Do(s, a).elements|
    ensures var x, y := s.elements[e], Do(s, a).elements[e];
      && y.requester == x.requester && y.request == x.request
      && (y.answer != x.answer ==>
            a.Answer? && s.workers[a.worker] == Serving(e) && x.phase == Served(a.worker) && y.answer == Some(a.answer))
  {
    Focus(s, a);
    KeepsSizes(s, a);
  }

  /** Both semaphores are back at zero when their owners are between exchanges. */
  lemma SemaphoresBack<Q, A>(s: State<Q, A>, r: nat, w: nat)
    requires Invariant(s)
    ensures r < |s.requesters| && s.requesters[r] == Away ==> s.answered[r] == 0
    ensures w < |s.workers| && s.workers[w] == Idle ==> s.dismissed[w] == 0
  {
    if r < |s.requesters| { assert RequesterAgrees(s, r); }
    if w < |s.workers| { assert WorkerAgrees(s, w); }
  }

  lemma {:induction false} SomePermitted(ws: seq<Worker>) returns (w: nat)
    requires Permits(ws) > 0
    ensures w < |ws| && ws[w] == Permitted
  {
    if ws[|ws| - 1] == Permitted { return |ws| - 1; }
    w := SomePermitted(ws[..|ws| - 1]);
  }

  /** A worker that lingers over an element is never waiting in vain. */
  lemma LingeringGoesOn<Q, A>(s: State<Q, A>, w: nat) returns (a: Action<Q, A>)
    requires Invariant(s) && w < |s.workers| && s.workers[w].Lingering?
    ensures !a.Request? && Enabled(s, a)
  {
    assert WorkerAgrees(s, w);
    var e := s.workers[w].element;
    assert ElementAgrees(s, e);
    var r := s.elements[e].requester;
    assert RequesterAgrees(s, r);
    a := match s.elements[e].phase case Answered(_) => Wake(r) case Read(_) => Dismiss(r) case _ => Free(w);
  }

  /** As long as a requester is waiting or reading, and there is a worker at all, some exchange can go on. */
  lemma NeverStalls<Q, A>(s: State<Q, A>, r: nat, answer: A) returns (a: Action<Q, A>)
    requires Invariant(s) && r < |s.requesters| && s.requesters[r] != Away && |s.workers| > 0
    ensures !a.Request? && Enabled(s, a)
  {
    assert RequesterAgrees(s, r);
    var e := s.requesters[r].element;
    assert ElementAgrees(s, e);
    match s.elements[e].phase
    case Queued =>
      assert s.queue != [];
      if s.length == 0 {
        var w := SomePermitted(s.workers);
        return Dequeue(w);
      }
      if s.workers[0] == Idle { return Permit(0); }
      if s.workers[0] == Permitted { return Dequeue(0); }
      if s.workers[0].Serving? { return Action.Answer(0, answer); }
      a := LingeringGoesOn(s, 0);
    case Served(w) => return Action.Answer(w, answer);
    case Answered(w) => a := LingeringGoesOn(s, w);
    case Read(w) => a := LingeringGoesOn(s, w);
  }

  predicate Initial<Q, A>(s: State<Q, A>) {
    && |s.answered| == |s.requesters| && |s.dismissed| == |s.workers|
    && s.elements == [] && s.queue == [] && s.length == 0
    && (forall r :: 0 <= r < |s.requesters| ==> s.requesters[r] == Away && s.answered[r] == 0)
    && (forall w :: 0 <= w < |s.workers| ==> s.workers[w] == Idle && s.dismissed[w] == 0)
  }

  lemma {:induction false} NoPermits(ws: seq<Worker>)
    requires forall w :: 0 <= w < |ws| ==> ws[w] == Idle
    ensures Permits(ws) == 0
  {
    if ws != [] { NoPermits(ws[..|ws| - 1]); }
  }

  ghost predicate Reaches<Q(!new), A(!new)>(s: State<Q, A>, actions: seq<Action<Q, A>>, t: State<Q, A>)
    requires Invariant(s)
    decreases |actions|
  {
    if actions == [] then s == t
    else
      Enabled(s, actions[0]) && (StepKeepsInvariant(s, actions[0]); Reaches(Do(s, actions[0]), actions[1..], t))
  }

  /** So all of this holds in every state that any number of requesters and workers can reach. */
  lemma {:induction false} ReachableInvariant<Q(!new), A(!new)>(s: State<Q, A>, actions: seq<Action<Q, A>>, t: State<Q, A>)
    requires Invariant(s) && Reaches(s, actions, t)
    ensures Invariant(t)
    decreases |actions|
  {
    if actions != [] {
      StepKeepsInvariant(s, actions[0]);
      ReachableInvariant(Do(s, actions[0]), actions[1..], t);
    }
  }

  lemma InitiallyInvariant<Q, A>(s: State<Q, A>)
    requires Initial(s)
    ensures Invariant(s)
  {
    NoPermits(s.workers);
  }

  // ----- In which order requests are served -----

  /** The queue is in the order in which the elements were made. */
  predicate InTurn<Q, A>(s: State<Q, A>) {
    forall i, j :: 0 <= i < j < |s.queue| ==> s.queue[i] < s.queue[j]
  }

  lemma StaysInTurn<Q, A>(s: State<Q, A>, a: Action<Q, A>)
    requires Invariant(s) && Enabled(s, a) && InTurn(s)
    ensures InTurn(Do(s, a))
  {
    Focus(s, a);
  }

  /** A worker takes the oldest request that has not been taken, and the requests of all others stay as they were. */
  lemma TakesOldest<Q, A>(s: State<Q, A>, w: nat, x: nat)
    requires Invariant(s) && InTurn(s) && Enabled(s, Dequeue(w))
    ensures var s' := Do(s, Dequeue(w));
      && s'.workers[w].Serving? && s'.workers[w].element < |s.elements|
      && var e := s'.workers[w].element;
         && s.elements[e].phase == Queued && s'.elements[e].phase == Served(w)
         && (x < |s.elements| && s.elements[x].phase == Queued ==> e <= x)
         && (x < |s.elements| && x != e ==> s'.elements[x] == s.elements[x])
  {
    Focus(s, Dequeue(w));
    if x < |s.elements| { assert ElementAgrees(s, x); }
  }

  /** So requests are served in the order in which they were made, in every reachable state. */
  lemma {:induction false} ReachableInTurn<Q(!new), A(!new)>(s: State<Q, A>, actions: seq<Action<Q, A>>, t: State<Q, A>)
    requires Initial(s) && Invariant(s) && Reaches(s, actions, t)
    ensures Invariant(t) && InTurn(t)
  {
    KeepsTurn(s, actions, t);
  }

  lemma {:induction false} KeepsTurn<Q(!new), A(!new)>(s: State<Q, A>, actions: seq<Action<Q, A>>, t: State<Q, A>)
    requires Invariant(s) && InTurn(s) && Reaches(s, actions, t)
    ensures Invariant(t) && InTurn(t)
    decreases |actions|
  {
    if actions != [] {
      StepKeepsInvariant(s, actions[0]);
      StaysInTurn(s, actions[0]);
      KeepsTurn(Do(s, actions[0]), actions[1..], t);
    }
  }
}
