/**
 * The sweep while other users add triggers.  A visit gives up the stock's mutex, so triggers can be added before
 * `curr` in three windows: before the sentinel is looked at, between that and the removal, and after the removal.
 */
module SweepCrowd {
  import opened Base
  import opened Rings
  import opened SweepAlone

  /** The ring from `curr` on, the sentinel, and whether the visit just made moved the sentinel. */
  datatype State<T> = State(ring: seq<T>, sentinel: T, moved: bool)

  /** A visit with what is added in its windows; a trigger that does not fire has only one window. */
  datatype Visit<T> = Visit(verdict: Verdict, a: seq<T>, b: seq<T>, c: seq<T>)

  /** The first pass through the loop is unconditional, as if the sentinel had just moved. */
  function Start<T>(ring: seq<T>): State<T>
    requires ring != []
  {
    State(ring, ring[0], true)
  }

  /** The condition of the loop. */
  predicate Again<T(==)>(s: State<T>) {
    s.ring != [] && (s.sentinel != s.ring[0] || s.moved)
  }

  function Added<T>(v: Visit<T>): seq<T> {
    v.a + v.b + v.c
  }

  /** One pass through the body of the loop. */
  function Turn<T(==)>(s: State<T>, v: Visit<T>): State<T>
    requires s.ring != []
  {
    var x, rest := s.ring[0], s.ring[1..];
    if v.verdict != Fires then State(rest + [x] + Added(v), s.sentinel, false)
    else if s.sentinel != x then State(rest + Added(v), s.sentinel, false)
    else State(rest + Added(v), if v.a != [] then v.a[0] else if rest != [] then rest[0] else x, true)
  }

  /** A whole sequence of visits, each of which the loop condition lets happen. */
  predicate Runs<T(==)>(s: State<T>, vs: seq<Visit<T>>)
    decreases |vs|
  {
    vs == [] || (Again(s) && Runs(Turn(s, vs[0]), vs[1..]))
  }

  function After<T(==)>(s: State<T>, vs: seq<Visit<T>>): State<T>
    requires Runs(s, vs)
    decreases |vs|
  {
    if vs == [] then s else After(Turn(s, vs[0]), vs[1..])
  }

  /** The triggers visited, in order. */
  function Visited<T(==)>(s: State<T>, vs: seq<Visit<T>>): seq<T>
    requires Runs(s, vs)
    decreases |vs|
  {
    if vs == [] then [] else [s.ring[0]] + Visited(Turn(s, vs[0]), vs[1..])
  }

  function AllAdded<T>(vs: seq<Visit<T>>): seq<T> {
    if vs == [] then [] else Added(vs[0]) + AllAdded(vs[1..])
  }

  /** The triggers that fired. */
  function Fired<T(==)>(s: State<T>, vs: seq<Visit<T>>): seq<T>
    requires Runs(s, vs)
    decreases |vs|
  {
    if vs == [] then []
    else (if vs[0].verdict == Fires then [s.ring[0]] else []) + Fired(Turn(s, vs[0]), vs[1..])
  }

  lemma TurnKeepsTriggers<T>(s: State<T>, v: Visit<T>)
    requires s.ring != []
    ensures multiset(Turn(s, v).ring) + (if v.verdict == Fires then multiset{s.ring[0]} else multiset{})
         == multiset(s.ring) + multiset(Added(v))
  {
    var x, rest := s.ring[0], s.ring[1..];
    assert s.ring == [x] + rest;
    assert multiset(s.ring) == multiset{x} + multiset(rest);
  }

  /** Nothing is lost or doubled: what was there or was added has fired or is in the ring. */
  lemma {:induction false} RingHoldsTheRest<T>(s: State<T>, vs: seq<Visit<T>>)
    requires Runs(s, vs)
    ensures multiset(After(s, vs).ring) + multiset(Fired(s, vs)) == multiset(s.ring) + multiset(AllAdded(vs))
    decreases |vs|
  {
    if vs != [] {
      var s', f := Turn(s, vs[0]), if vs[0].verdict == Fires then [s.ring[0]] else [];
      TurnKeepsTriggers(s, vs[0]);
      RingHoldsTheRest(s', vs[1..]);
      assert multiset(f) == if vs[0].verdict == Fires then multiset{s.ring[0]} else multiset{};
      Books(multiset(After(s, vs).ring), multiset(Fired(s', vs[1..])), multiset(s'.ring), multiset(AllAdded(vs[1..])),
            multiset(f), multiset(s.ring), multiset(Added(vs[0])));
    }
  }

  lemma Books<T>(after: multiset<T>, fired: multiset<T>, next: multiset<T>, more: multiset<T>,
                 f: multiset<T>, now: multiset<T>, added: multiset<T>)
    requires after + fired == next + more && next + f == now + added
    ensures after + (f + fired) == now + (added + more)
  {
    assert after + (f + fired) == next + more + f;
    assert next + more + f == now + added + more;
  }

  /** No repeats means that nothing is counted twice. */
  lemma {:induction false} DifferentCounts<T>(s: seq<T>)
    ensures AllDifferent(s) <==> forall x :: multiset(s)[x] <= 1
  {
    if s != [] {
      var init, last := s[..|s| - 1], s[|s| - 1];
      DifferentCounts(init);
      assert s == init + [last];
      if AllDifferent(s) {
        assert last !in init;
        assert multiset(init)[last] == 0;
      }
      if forall x :: multiset(s)[x] <= 1 {
        assert multiset(s)[last] == multiset(init)[last] + 1;
        assert last !in init;
        assert forall x :: multiset(init)[x] <= multiset(s)[x];
      }
    }
  }

  lemma FewerDifferent<T>(s: seq<T>, t: seq<T>)
    requires AllDifferent(t) && multiset(s) <= multiset(t)
    ensures AllDifferent(s)
  {
    DifferentCounts(s);
    DifferentCounts(t);
  }

  // ----- What is still to come -----

  /**
   * The ring is what is still to come followed by what has been passed.  The sentinel is the first that was
   * passed; if none was, the visit has just moved it to the first that is to come.
   */
  ghost predicate OnCourse<T>(s: State<T>, todo: seq<T>) {
    && todo <= s.ring
    && AllDifferent(s.ring)
    && var passed := s.ring[|todo|..];
       && (passed != [] ==> s.sentinel == passed[0] && (todo == [] ==> !s.moved))
       && (passed == [] && todo != [] ==> s.sentinel == todo[0] && s.moved)
  }

  /** The lone trigger fires as the sentinel, and triggers are added only after the sentinel was looked at. */
  predicate Dangles<T(==)>(s: State<T>, v: Visit<T>)
    requires s.ring != []
  {
    v.verdict == Fires && s.ring == [s.sentinel] && v.a == [] && v.b + v.c != []
  }

  /** What is to come after a visit.  Triggers added join it only when all that were passed have fired. */
  function ToCome<T(==)>(s: State<T>, todo: seq<T>, v: Visit<T>): seq<T>
    requires todo != []
  {
    var rest := todo[1..];
    if v.verdict != Fires || s.sentinel != todo[0] || (v.a != [] && rest != []) then rest else rest + Added(v)
  }

  /** On course, the loop goes on exactly while something is to come. */
  lemma GoesOnExactly<T>(s: State<T>, todo: seq<T>)
    requires OnCourse(s, todo)
    ensures Again(s) <==> todo != []
  {
    if todo != [] {
      assert s.ring[0] == todo[0];
      if |todo| < |s.ring| { assert s.ring[|todo|] == s.ring[|todo|..][0]; }
    }
  }

  /** The added triggers are new. */
  predicate Fresh<T(==)>(s: State<T>, v: Visit<T>) {
    AllDifferent(s.ring + Added(v))
  }

  lemma DifferentAfter<T>(s: State<T>, v: Visit<T>)
    requires s.ring != [] && Fresh(s, v)
    ensures AllDifferent(Turn(s, v).ring)
  {
    TurnKeepsTriggers(s, v);
    FewerDifferent(Turn(s, v).ring, s.ring + Added(v));
  }

  /** A visit that does not dangle keeps the sweep on course. */
  lemma StaysOnCourse<T>(s: State<T>, todo: seq<T>, v: Visit<T>)
    requires OnCourse(s, todo) && todo != [] && Fresh(s, v) && !Dangles(s, v)
    ensures OnCourse(Turn(s, v), ToCome(s, todo, v))
  {
    var passed := s.ring[|todo|..];
    var s', todo' := Turn(s, v), ToCome(s, todo, v);
    DifferentAfter(s, v);
    assert s.ring == todo + passed && s.ring[0] == todo[0];
    assert s.ring[1..] == todo[1..] + passed;
    if passed != [] {
      assert s.sentinel == s.ring[|todo|];
      assert s'.ring[|todo'|] == passed[0];
    } else if v.verdict != Fires {
      assert s'.ring[|todo'|] == todo[0];
    } else if v.a != [] && todo[1..] != [] {
      assert s'.ring[|todo'|] == v.a[0];
    } else {
      assert s'.ring == todo';
    }
  }

  // ----- Whole sweeps -----

  /** Each trigger that is added is a new one, also compared with those that have gone. */
  predicate AllNew<T(==)>(s: State<T>, vs: seq<Visit<T>>) {
    AllDifferent(s.ring + AllAdded(vs))
  }

  /** No visit dangles. */
  predicate NeverDangles<T(==)>(s: State<T>, vs: seq<Visit<T>>)
    requires Runs(s, vs)
    decreases |vs|
  {
    vs == [] || (!Dangles(s, vs[0]) && NeverDangles(Turn(s, vs[0]), vs[1..]))
  }

  lemma NewNow<T>(s: State<T>, vs: seq<Visit<T>>)
    requires vs != [] && s.ring != [] && AllNew(s, vs)
    ensures Fresh(s, vs[0]) && AllNew(Turn(s, vs[0]), vs[1..])
  {
    var now, later := Added(vs[0]), AllAdded(vs[1..]);
    TurnKeepsTriggers(s, vs[0]);
    assert AllAdded(vs) == now + later;
    FewerDifferent(s.ring + now, s.ring + AllAdded(vs));
    FewerDifferent(Turn(s, vs[0]).ring + later, s.ring + AllAdded(vs));
  }

  lemma {:induction false} SweepOnCourse<T>(s: State<T>, todo: seq<T>, vs: seq<Visit<T>>) returns (left: seq<T>)
    requires OnCourse(s, todo) && Runs(s, vs) && NeverDangles(s, vs) && AllNew(s, vs)
    ensures OnCourse(After(s, vs), left)
    ensures todo <= Visited(s, vs) + left
    ensures multiset(Visited(s, vs) + left) <= multiset(todo) + multiset(AllAdded(vs))
    ensures |vs| + |left| <= |todo| + |AllAdded(vs)|
    decreases |vs|
  {
    if vs == [] {
      assert Visited(s, vs) + todo == todo;
      return todo;
    }
    GoesOnExactly(s, todo);
    NewNow(s, vs);
    StaysOnCourse(s, todo, vs[0]);
    var next := ToCome(s, todo, vs[0]);
    left := SweepOnCourse(Turn(s, vs[0]), next, vs[1..]);
    var visited := Visited(Turn(s, vs[0]), vs[1..]);
    PrefixGrows(s.ring[0], todo, next, visited, left);
    VisitedGrows(s.ring[0], todo, next, Added(vs[0]), AllAdded(vs[1..]), visited, left);
  }

  lemma PrefixGrows<T>(x: T, todo: seq<T>, next: seq<T>, visited: seq<T>, left: seq<T>)
    requires todo != [] && todo[0] == x && todo[1..] <= next && next <= visited + left
    ensures todo <= [x] + visited + left
  {
    assert todo == [x] + todo[1..];
    assert [x] + visited + left == [x] + (visited + left);
  }

  lemma VisitedGrows<T>(x: T, todo: seq<T>, next: seq<T>, added: seq<T>, more: seq<T>, visited: seq<T>, left: seq<T>)
    requires todo != [] && todo[0] == x && (next == todo[1..] || next == todo[1..] + added)
    requires multiset(visited + left) <= multiset(next) + multiset(more)
    ensures multiset([x] + visited + left) <= multiset(todo) + multiset(added + more)
  {
    assert todo == [x] + todo[1..];
    assert [x] + visited + left == [x] + (visited + left);
    assert multiset(next) <= multiset(todo[1..]) + multiset(added);
    assert multiset(added + more) == multiset(added) + multiset(more);
  }

  // ----- Who stays, and in what order -----

  /** The elements that are among those of another sequence, in order. */
  function Among<T(==)>(s: seq<T>, of: seq<T>): seq<T> {
    if s == [] then [] else (if s[0] in of then [s[0]] else []) + Among(s[1..], of)
  }

  lemma {:induction false} AmongBoth<T>(s: seq<T>, t: seq<T>, of: seq<T>)
    ensures Among(s + t, of) == Among(s, of) + Among(t, of)
  {
    if s == [] {
      assert s + t == t;
    } else {
      assert (s + t)[1..] == s[1..] + t && (s + t)[0] == s[0];
      AmongBoth(s[1..], t, of);
      Associative(if s[0] in of then [s[0]] else [], Among(s[1..], of), Among(t, of));
    }
  }

  lemma {:induction false} AmongNone<T>(s: seq<T>, of: seq<T>)
    requires forall x <- s :: x !in of
    ensures Among(s, of) == []
  {
    if s != [] { AmongNone(s[1..], of); }
  }

  /** The visited triggers of the start that did not fire. */
  function Kept<T(==)>(s: State<T>, vs: seq<Visit<T>>, start: seq<T>): seq<T>
    requires Runs(s, vs)
    decreases |vs|
  {
    if vs == [] then []
    else
      (if vs[0].verdict != Fires && s.ring[0] in start then [s.ring[0]] else []) + Kept(Turn(s, vs[0]), vs[1..], start)
  }

  /** What a visit does to the triggers of the start among those that were passed. */
  lemma PassedAfter<T>(s: State<T>, todo: seq<T>, v: Visit<T>, start: seq<T>)
    requires OnCourse(s, todo) && todo != [] && Fresh(s, v) && !Dangles(s, v)
    requires forall x <- Added(v) :: x !in start
    ensures |ToCome(s, todo, v)| <= |Turn(s, v).ring|
    ensures Among(Turn(s, v).ring[|ToCome(s, todo, v)|..], start)
         == Among(s.ring[|todo|..], start) + (if v.verdict != Fires && s.ring[0] in start then [s.ring[0]] else [])
  {
    hide Turn, ToCome, Dangles, Fresh;
    var passed, x, more := s.ring[|todo|..], s.ring[0], Added(v);
    PassedNow(s, todo, v);
    AmongNone(more, start);
    AmongBoth([x], more, start);
    AmongBoth(passed, [x] + more, start);
    AmongBoth(passed, more, start);
    assert [x][1..] == [] && Among([x], start) + Among([x][1..], start) == Among([x], start);
    assert passed + [] == passed && Among(passed, start) + [] == Among(passed, start);
    assert (if x in start then [x] else []) + [] == if x in start then [x] else [];
  }

  lemma PassedNow<T>(s: State<T>, todo: seq<T>, v: Visit<T>)
    requires OnCourse(s, todo) && todo != [] && Fresh(s, v) && !Dangles(s, v)
    ensures |todo| <= |s.ring| && s.ring != [] && |ToCome(s, todo, v)| <= |Turn(s, v).ring|
    ensures Turn(s, v).ring[|ToCome(s, todo, v)|..]
         == s.ring[|todo|..] + (if v.verdict != Fires then [s.ring[0]] + Added(v)
                                else if ToCome(s, todo, v) == todo[1..] then Added(v) else [])
  {
    var passed := s.ring[|todo|..];
    StaysOnCourse(s, todo, v);
    FirstPassed(s, todo);
    assert s.ring == todo + passed && s.ring[1..] == todo[1..] + passed;
    assert v.verdict != Fires ==> Turn(s, v).ring == todo[1..] + (passed + ([s.ring[0]] + Added(v)));
  }

  /** Passed triggers mean that the sentinel is not the next to be visited. */
  lemma FirstPassed<T>(s: State<T>, todo: seq<T>)
    requires OnCourse(s, todo) && todo != []
    ensures s.sentinel == todo[0] <==> s.ring[|todo|..] == []
  {
    if |todo| < |s.ring| { assert s.sentinel == s.ring[|todo|] && todo[0] == s.ring[0]; }
  }

  lemma {:induction false} PassedInOrder<T>(s: State<T>, todo: seq<T>, vs: seq<Visit<T>>, start: seq<T>) returns (left: seq<T>)
    requires OnCourse(s, todo) && Runs(s, vs) && NeverDangles(s, vs) && AllNew(s, vs)
    requires forall x <- AllAdded(vs) :: x !in start
    ensures OnCourse(After(s, vs), left)
    ensures Among(After(s, vs).ring[|left|..], start) == Among(s.ring[|todo|..], start) + Kept(s, vs, start)
    decreases |vs|
  {
    if vs == [] {
      assert Kept(s, vs, start) == [];
      return todo;
    }
    GoesOnExactly(s, todo);
    NewNow(s, vs);
    assert AllAdded(vs) == Added(vs[0]) + AllAdded(vs[1..]);
    assert forall x <- Added(vs[0]) :: x in AllAdded(vs);
    assert forall x <- AllAdded(vs[1..]) :: x in AllAdded(vs);
    StaysOnCourse(s, todo, vs[0]);
    PassedAfter(s, todo, vs[0], start);
    left := PassedInOrder(Turn(s, vs[0]), ToCome(s, todo, vs[0]), vs[1..], start);
    Associative(Among(s.ring[|todo|..], start), if vs[0].verdict != Fires && s.ring[0] in start then [s.ring[0]] else [],
                Kept(Turn(s, vs[0]), vs[1..], start));
  }

  function Verdicts<T>(vs: seq<Visit<T>>): (r: seq<Verdict>)
    ensures |r| == |vs|
  {
    if vs == [] then [] else [vs[0].verdict] + Verdicts(vs[1..])
  }

  /** As the start is visited first, those kept are the unfired ones of the start in its own order. */
  lemma {:induction false} KeptAreUnfired<T>(s: State<T>, vs: seq<Visit<T>>, first: seq<T>, start: seq<T>)
    requires Runs(s, vs) && first <= Visited(s, vs) && |Visited(s, vs)| == |vs|
    requires forall x <- first :: x in start
    requires forall x <- Visited(s, vs)[|first|..] :: x !in start
    ensures Kept(s, vs, start) == Unfired(first, Verdicts(vs)[..|first|])
    decreases |vs|
  {
    hide Turn, Fresh;
    if vs != [] {
      var s', visited := Turn(s, vs[0]), Visited(Turn(s, vs[0]), vs[1..]);
      assert Visited(s, vs) == [s.ring[0]] + visited;
      if first == [] {
        assert Visited(s, vs)[0..] == Visited(s, vs);
        NoneKept(s, vs, start);
        assert Verdicts(vs)[..0] == [];
      } else {
        assert first[0] == s.ring[0] && first[1..] <= visited;
        assert Visited(s, vs)[|first|..] == visited[|first| - 1..];
        KeptAreUnfired(s', vs[1..], first[1..], start);
        var verdicts := Verdicts(vs)[..|first|];
        assert verdicts[1..] == Verdicts(vs[1..])[..|first| - 1];
        UnfiredFirst(first, verdicts);
      }
    }
  }

  lemma {:induction false} NoneKept<T>(s: State<T>, vs: seq<Visit<T>>, start: seq<T>)
    requires Runs(s, vs) && forall x <- Visited(s, vs) :: x !in start
    ensures Kept(s, vs, start) == []
    decreases |vs|
  {
    hide Turn, Fresh;
    if vs != [] {
      var visited := Visited(Turn(s, vs[0]), vs[1..]);
      assert Visited(s, vs) == [s.ring[0]] + visited;
      assert s.ring[0] == Visited(s, vs)[0] && forall x <- visited :: x in Visited(s, vs);
      NoneKept(Turn(s, vs[0]), vs[1..], start);
    }
  }

  lemma {:induction false} VisitedLength<T>(s: State<T>, vs: seq<Visit<T>>)
    requires Runs(s, vs)
    ensures |Visited(s, vs)| == |vs|
    decreases |vs|
  {
    if vs != [] { VisitedLength(Turn(s, vs[0]), vs[1..]); }
  }

  /** Neither the rest of what was visited nor anything added is among the first. */
  lemma RestIsOther<T>(first: seq<T>, all: seq<T>, added: seq<T>)
    requires first <= all && AllDifferent(all) && AllDifferent(first + added)
    ensures forall x <- all[|first|..] :: x !in first
    ensures forall x <- added :: x !in first
  {
    forall x <- all[|first|..] ensures x !in first {
      var i :| 0 <= i < |all| - |first| && all[|first|..][i] == x;
      assert all[i + |first|] == x;
    }
    forall x <- added ensures x !in first {
      var i :| 0 <= i < |added| && added[i] == x;
      assert (first + added)[|first| + i] == x;
      assert forall j :: 0 <= j < |first| ==> (first + added)[j] == first[j];
    }
  }

  /**
   * However many new triggers are added meanwhile, a sweep none of whose visits dangles visits no trigger twice.
   * When it ends it has visited all triggers of its start, in order and before any that was added, and of them
   * exactly those that did not fire are in the ring, in their original order.  It makes at most as many visits
   * as there were triggers, counting the added ones.
   */
  lemma OrderlySweep<T>(ring: seq<T>, vs: seq<Visit<T>>)
    requires ring != [] && AllDifferent(ring + AllAdded(vs))
    requires Runs(Start(ring), vs) && NeverDangles(Start(ring), vs)
    ensures |vs| <= |ring| + |AllAdded(vs)|
    ensures AllDifferent(Visited(Start(ring), vs))
    ensures !Again(After(Start(ring), vs)) ==>
      && ring <= Visited(Start(ring), vs) && |ring| <= |vs|
      && Among(After(Start(ring), vs).ring, ring) == Unfired(ring, Verdicts(vs)[..|ring|])
  {
    var s, visited := Start(ring), Visited(Start(ring), vs);
    FewerDifferent(ring, ring + AllAdded(vs));
    var left := SweepOnCourse(s, ring, vs);
    VisitedLength(s, vs);
    FewerDifferent(visited, ring + AllAdded(vs));
    GoesOnExactly(After(s, vs), left);
    if left == [] {
      assert visited + left == visited;
      RestIsOther(ring, visited, AllAdded(vs));
      KeptAreUnfired(s, vs, ring, ring);
      SurvivorsInOrder(ring, vs);
    }
  }

  lemma SurvivorsInOrder<T>(ring: seq<T>, vs: seq<Visit<T>>)
    requires ring != [] && AllDifferent(ring + AllAdded(vs))
    requires Runs(Start(ring), vs) && NeverDangles(Start(ring), vs) && !Again(After(Start(ring), vs))
    ensures Among(After(Start(ring), vs).ring, ring) == Kept(Start(ring), vs, ring)
  {
    var s := Start(ring);
    FewerDifferent(ring, ring + AllAdded(vs));
    RestIsOther(ring, ring, AllAdded(vs));
    var left := PassedInOrder(s, ring, vs, ring);
    GoesOnExactly(After(s, vs), left);
    assert After(s, vs).ring[0..] == After(s, vs).ring && ring[|ring|..] == [];
    assert Among([], ring) + Kept(s, vs, ring) == Kept(s, vs, ring);
  }

  // ----- Sweeps that never end -----

  /** A visit made on course sets the sweep adrift exactly when it dangles. */
  lemma DanglesExactly<T>(s: State<T>, todo: seq<T>, v: Visit<T>)
    requires OnCourse(s, todo) && todo != [] && Fresh(s, v)
    ensures Dangles(s, v) <==> Turn(s, v).ring != [] && Turn(s, v).sentinel !in Turn(s, v).ring
  {
    if Dangles(s, v) {
      SentinelLeft(s, v);
    } else {
      StaysOnCourse(s, todo, v);
      SentinelPresent(Turn(s, v), ToCome(s, todo, v));
    }
  }

  lemma SentinelLeft<T>(s: State<T>, v: Visit<T>)
    requires s.ring != [] && Fresh(s, v) && Dangles(s, v)
    ensures Turn(s, v).ring != [] && Turn(s, v).sentinel !in Turn(s, v).ring
  {
    var all, ring := s.ring + Added(v), Turn(s, v).ring;
    assert ring == v.b + v.c;
    forall i | 0 <= i < |ring| ensures ring[i] != s.sentinel { assert ring[i] == all[i + 1] && all[0] == s.sentinel; }
  }

  lemma SentinelPresent<T>(s: State<T>, todo: seq<T>)
    requires OnCourse(s, todo)
    ensures s.ring == [] || s.sentinel in s.ring
  {
    if |todo| < |s.ring| { assert s.sentinel == s.ring[|todo|]; }
    else if s.ring != [] { assert todo == s.ring && s.sentinel == s.ring[0]; }
  }

  /** Once the sentinel has left the ring, the loop goes on as long as there is any trigger at all. */
  lemma {:induction false} AdriftGoesOn<T>(s: State<T>, vs: seq<Visit<T>>)
    requires s.sentinel !in s.ring && s.ring != [] && Runs(s, vs) && s.sentinel !in AllAdded(vs)
    ensures After(s, vs).sentinel == s.sentinel && s.sentinel !in After(s, vs).ring
    ensures Again(After(s, vs)) <==> After(s, vs).ring != []
    decreases |vs|
  {
    if vs != [] {
      var s' := Turn(s, vs[0]);
      assert s.ring[0] in s.ring;
      assert s'.sentinel == s.sentinel && !s'.moved;
      assert s.sentinel !in Added(vs[0]) && s.sentinel !in AllAdded(vs[1..]);
      assert s.sentinel !in s'.ring;
      if s'.ring == [] { assert vs[1..] == []; } else { AdriftGoesOn(s', vs[1..]); }
    }
  }

  /** In particular, if nothing fires any more it never ends. */
  lemma {:induction false} AdriftForEver<T>(s: State<T>, vs: seq<Visit<T>>)
    requires s.sentinel !in s.ring && s.ring != [] && s.sentinel !in AllAdded(vs)
    requires forall v <- vs :: v.verdict != Fires
    ensures Runs(s, vs) && Again(After(s, vs))
    decreases |vs|
  {
    if vs != [] {
      var s' := Turn(s, vs[0]);
      assert s.sentinel !in Added(vs[0]) && s.sentinel !in AllAdded(vs[1..]);
      assert s.ring[0] in s.ring && s.sentinel !in s'.ring;
      AdriftForEver(s', vs[1..]);
    }
  }

  // ----- Triggers cancelled meanwhile -----

  /**
   * `removeTrigger` on behalf of a command of another user, after a visit and before its loop condition: `curr`
   * moves on if it is the one to go.
   */
  function Cancel<T>(s: State<T>, k: nat): State<T>
    requires k < |s.ring|
  {
    s.(ring := s.ring[..k] + s.ring[k + 1..])
  }

  /** What is to come after a cancellation. */
  function ToComeWithout<T>(s: State<T>, todo: seq<T>, k: nat): seq<T>
    requires k < |s.ring|
  {
    var todo' := if k < |todo| then todo[..k] + todo[k + 1..] else todo;
    if todo' == [] && s.moved then Cancel(s, k).ring else todo'
  }

  lemma WithoutOneDifferent<T>(s: seq<T>, k: nat)
    requires AllDifferent(s) && k < |s|
    ensures AllDifferent(s[..k] + s[k + 1..]) && s[k] !in s[..k] + s[k + 1..]
    ensures forall x <- s :: x == s[k] || x in s[..k] + s[k + 1..]
  {
    var t := s[..k] + s[k + 1..];
    assert forall i :: 0 <= i < |t| ==> t[i] == s[if i < k then i else i + 1];
    forall x <- s | x != s[k] ensures x in t {
      var i :| 0 <= i < |s| && s[i] == x;
      assert t[if i < k then i else i - 1] == x;
    }
  }

  /**
   * A cancellation sets a sweep that is on course adrift exactly when it takes the sentinel and leaves some other
   * trigger.
   */
  lemma CancelDriftsExactly<T>(s: State<T>, todo: seq<T>, k: nat)
    requires OnCourse(s, todo) && k < |s.ring|
    ensures Cancel(s, k).ring != [] && s.sentinel !in Cancel(s, k).ring <==> |s.ring| > 1 && s.ring[k] == s.sentinel
  {
    SentinelPresent(s, todo);
    WithoutOneDifferent(s.ring, k);
  }

  /** Any other cancellation keeps it on course, with the same triggers to come but for the one that went. */
  lemma CancelKeepsCourse<T>(s: State<T>, todo: seq<T>, k: nat)
    requires OnCourse(s, todo) && k < |s.ring| && s.ring[k] != s.sentinel
    ensures OnCourse(Cancel(s, k), ToComeWithout(s, todo, k))
  {
    var passed, t := s.ring[|todo|..], Cancel(s, k);
    assert s.ring == todo + passed;
    WithoutOneDifferent(s.ring, k);
    if k < |todo| {
      assert t.ring == (todo[..k] + todo[k + 1..]) + passed;
      if k > 0 { assert (todo[..k] + todo[k + 1..])[0] == todo[0]; }
      FirstPassed(s, todo);
    } else {
      var j := k - |todo|;
      assert s.ring[k] == passed[j] && s.ring[|todo|] == passed[0];
      assert t.ring == todo + (passed[..j] + passed[j + 1..]);
      assert j > 0 && (passed[..j] + passed[j + 1..])[0] == passed[0];
    }
  }

  /** When the sentinel's trigger is cancelled beside others, the loop goes on as long as there is any trigger. */
  lemma CancelledSentinelGoesOn<T>(s: State<T>, todo: seq<T>, k: nat, vs: seq<Visit<T>>)
    requires OnCourse(s, todo) && k < |s.ring| && |s.ring| > 1 && s.ring[k] == s.sentinel && s.sentinel !in AllAdded(vs)
    ensures Runs(Cancel(s, k), vs) ==>
      var t := After(Cancel(s, k), vs); Again(t) <==> t.ring != []
    ensures (forall v <- vs :: v.verdict != Fires) ==> Runs(Cancel(s, k), vs) && Again(After(Cancel(s, k), vs))
  {
    CancelDriftsExactly(s, todo, k);
    if Runs(Cancel(s, k), vs) { AdriftGoesOn(Cancel(s, k), vs); }
    if forall v <- vs :: v.verdict != Fires { AdriftForEver(Cancel(s, k), vs); }
  }

  /**
   * A stock with one trigger can dangle: it fires while another trigger is added after the sentinel was looked at.
   * As long as nothing fires after that, the sweep that began there goes on.
   */
  lemma DanglingReachable<T>(x: T, y: T, vs: seq<Visit<T>>)
    requires x != y && x !in AllAdded(vs) && forall v <- vs :: v.verdict != Fires
    ensures var s, v := Start([x]), Visit(Fires, [], [], [y]);
      OnCourse(s, [x]) && Fresh(s, v) && Dangles(s, v) && Runs(s, [v] + vs) && Again(After(s, [v] + vs))
  {
    var s, v := Start([x]), Visit(Fires, [], [], [y]);
    assert Turn(s, v) == State([y], x, true);
    AdriftForEver(State([y], x, false), vs);
    MovedOnlyNow(State([y], x, false), vs);
    assert ([v] + vs)[0] == v && ([v] + vs)[1..] == vs;
  }

  /** Whether the sentinel was moved by the last visit matters to the next loop condition only. */
  lemma MovedOnlyNow<T>(s: State<T>, vs: seq<Visit<T>>)
    requires s.ring != [] && s.sentinel !in s.ring && Runs(s, vs) && Again(After(s, vs))
    ensures Runs(s.(moved := true), vs) && Again(After(s.(moved := true), vs))
  {
    if vs != [] { assert Turn(s.(moved := true), vs[0]) == Turn(s, vs[0]); }
  }

  // ----- Sweeps among additions and cancellations -----

  /** A visit, or a cancellation between two visits. */
  datatype Happening<T> = Passes(visit: Visit<T>) | Cancels(k: nat)

  /** The loop condition lets the visit happen, or the trigger that is cancelled is there. */
  predicate May<T(==)>(s: State<T>, h: Happening<T>) {
    match h
    case Passes(_) => Again(s)
    case Cancels(k) => k < |s.ring|
  }

  function Next<T(==)>(s: State<T>, h: Happening<T>): State<T>
    requires May(s, h)
  {
    match h
    case Passes(v) => Turn(s, v)
    case Cancels(k) => Cancel(s, k)
  }

  predicate Happen<T(==)>(s: State<T>, hs: seq<Happening<T>>)
    decreases |hs|
  {
    hs == [] || (May(s, hs[0]) && Happen(Next(s, hs[0]), hs[1..]))
  }

  function Afterwards<T(==)>(s: State<T>, hs: seq<Happening<T>>): State<T>
    requires Happen(s, hs)
    decreases |hs|
  {
    if hs == [] then s else Afterwards(Next(s, hs[0]), hs[1..])
  }

  function AddedBy<T>(h: Happening<T>): seq<T> {
    if h.Passes? then Added(h.visit) else []
  }

  function AddedIn<T>(hs: seq<Happening<T>>): seq<T> {
    if hs == [] then [] else AddedBy(hs[0]) + AddedIn(hs[1..])
  }

  function VisitedIn<T(==)>(s: State<T>, hs: seq<Happening<T>>): seq<T>
    requires Happen(s, hs)
    decreases |hs|
  {
    if hs == [] then []
    else (if hs[0].Passes? then [s.ring[0]] else []) + VisitedIn(Next(s, hs[0]), hs[1..])
  }

  function CancelledIn<T(==)>(s: State<T>, hs: seq<Happening<T>>): seq<T>
    requires Happen(s, hs)
    decreases |hs|
  {
    if hs == [] then []
    else (if hs[0].Cancels? then [s.ring[hs[0].k]] else []) + CancelledIn(Next(s, hs[0]), hs[1..])
  }

  /** The visit dangles, or the cancellation takes the sentinel and leaves others. */
  predicate Harms<T(==)>(s: State<T>, h: Happening<T>)
    requires May(s, h)
  {
    match h
    case Passes(v) => Dangles(s, v)
    case Cancels(k) => |s.ring| > 1 && s.ring[k] == s.sentinel
  }

  predicate Harmless<T(==)>(s: State<T>, hs: seq<Happening<T>>)
    requires Happen(s, hs)
    decreases |hs|
  {
    hs == [] || (!Harms(s, hs[0]) && Harmless(Next(s, hs[0]), hs[1..]))
  }

  ghost predicate HasCourse<T(!new)>(s: State<T>) {
    exists todo :: OnCourse(s, todo)
  }

  ghost predicate CourseThroughout<T(!new)>(s: State<T>, hs: seq<Happening<T>>)
    requires Happen(s, hs)
    decreases |hs|
  {
    HasCourse(s) && (hs == [] || CourseThroughout(Next(s, hs[0]), hs[1..]))
  }

  /** What is to come afterwards. */
  function ToComeAfter<T(==)>(s: State<T>, todo: seq<T>, h: Happening<T>): seq<T>
    requires May(s, h) && (h.Passes? ==> todo != [])
  {
    match h
    case Passes(v) => ToCome(s, todo, v)
    case Cancels(k) => if |s.ring| == 1 then [] else ToComeWithout(s, todo, k)
  }

  lemma KeepsCourse<T>(s: State<T>, todo: seq<T>, h: Happening<T>)
    requires OnCourse(s, todo) && May(s, h) && AllDifferent(s.ring + AddedBy(h)) && !Harms(s, h)
    ensures (h.Passes? ==> todo != []) && OnCourse(Next(s, h), ToComeAfter(s, todo, h))
  {
    GoesOnExactly(s, todo);
    if h.Passes? {
      StaysOnCourse(s, todo, h.visit);
    } else if |s.ring| > 1 {
      CancelKeepsCourse(s, todo, h.k);
    } else {
      assert Cancel(s, h.k).ring == [];
    }
  }

  lemma LosesCourse<T(!new)>(s: State<T>, todo: seq<T>, h: Happening<T>)
    requires OnCourse(s, todo) && May(s, h) && AllDifferent(s.ring + AddedBy(h)) && Harms(s, h)
    ensures !HasCourse(Next(s, h))
  {
    GoesOnExactly(s, todo);
    var s' := Next(s, h);
    if h.Passes? { DanglesExactly(s, todo, h.visit); } else { CancelDriftsExactly(s, todo, h.k); }
    assert s'.ring != [] && s'.sentinel !in s'.ring;
    forall next ensures !OnCourse(s', next) { if OnCourse(s', next) { SentinelPresent(s', next); } }
  }

  lemma NewThen<T>(s: State<T>, hs: seq<Happening<T>>)
    requires hs != [] && May(s, hs[0]) && AllDifferent(s.ring + AddedIn(hs))
    ensures AllDifferent(s.ring + AddedBy(hs[0])) && AllDifferent(Next(s, hs[0]).ring + AddedIn(hs[1..]))
  {
    var now, later, s' := AddedBy(hs[0]), AddedIn(hs[1..]), Next(s, hs[0]);
    assert AddedIn(hs) == now + later;
    if hs[0].Passes? {
      TurnKeepsTriggers(s, hs[0].visit);
    } else {
      assert s.ring == s.ring[..hs[0].k] + [s.ring[hs[0].k]] + s.ring[hs[0].k + 1..];
    }
    assert multiset(s'.ring) <= multiset(s.ring) + multiset(now);
    FewerDifferent(s.ring + now, s.ring + AddedIn(hs));
    FewerDifferent(s'.ring + later, s.ring + AddedIn(hs));
  }

  /**
   * Among new additions and cancellations, a sweep is on course before and after everything that happens if and only
   * if no visit dangles and no cancellation takes the sentinel and leaves others.
   */
  lemma {:induction false} CourseExactly<T(!new)>(s: State<T>, todo: seq<T>, hs: seq<Happening<T>>)
    requires OnCourse(s, todo) && Happen(s, hs) && AllDifferent(s.ring + AddedIn(hs))
    ensures CourseThroughout(s, hs) <==> Harmless(s, hs)
    decreases |hs|
  {
    if hs != [] {
      NewThen(s, hs);
      if Harms(s, hs[0]) {
        LosesCourse(s, todo, hs[0]);
      } else {
        KeepsCourse(s, todo, hs[0]);
        CourseExactly(Next(s, hs[0]), ToComeAfter(s, todo, hs[0]), hs[1..]);
      }
    }
  }

  /** What was seen is not to come, and is not in the ring at all when the sentinel has just moved. */
  ghost predicate Unseen<T>(s: State<T>, todo: seq<T>, seen: set<T>) {
    (forall x <- todo :: x !in seen) && (s.moved ==> forall x <- s.ring :: x !in seen)
  }

  lemma UnseenAfterVisit<T>(s: State<T>, todo: seq<T>, v: Visit<T>, seen: set<T>)
    requires OnCourse(s, todo) && todo != [] && Fresh(s, v) && !Dangles(s, v) && Unseen(s, todo, seen)
    requires forall x <- Added(v) :: x !in seen
    ensures s.ring[0] !in seen && Unseen(Turn(s, v), ToCome(s, todo, v), seen + {s.ring[0]})
  {
    var x, all := s.ring[0], s.ring + Added(v);
    FirstPassed(s, todo);
    assert x == todo[0] && all[0] == x;
    assert forall y <- s.ring[1..] + Added(v) :: y != x by {
      forall i | 0 <= i < |s.ring[1..] + Added(v)| ensures (s.ring[1..] + Added(v))[i] != x {
        assert (s.ring[1..] + Added(v))[i] == all[i + 1];
      }
    }
    assert forall y <- todo[1..] :: y in todo && y in s.ring[1..] + Added(v) by {
      forall i | 0 <= i < |todo| - 1 ensures todo[1..][i] == (s.ring[1..] + Added(v))[i] { }
    }
    assert forall y <- Added(v) :: y in s.ring[1..] + Added(v);
    assert forall y <- ToCome(s, todo, v) :: y in todo[1..] || y in Added(v);
    if Turn(s, v).moved {
      assert s.ring == todo;
      assert forall y <- Turn(s, v).ring :: y in todo[1..] || y in Added(v);
    }
  }

  lemma UnseenAfterCancel<T>(s: State<T>, todo: seq<T>, k: nat, seen: set<T>)
    requires OnCourse(s, todo) && k < |s.ring| && Unseen(s, todo, seen)
    ensures Unseen(Cancel(s, k), ToComeAfter(s, todo, Cancels(k)), seen)
    ensures forall x <- todo :: x == s.ring[k] || x in ToComeAfter(s, todo, Cancels(k))
  {
    var rest := if k < |todo| then todo[..k] + todo[k + 1..] else todo;
    forall x <- todo | x != s.ring[k] ensures x in rest {
      var i :| 0 <= i < |todo| && todo[i] == x;
      assert s.ring[i] == x;
      if k < |todo| { assert rest[if i < k then i else i - 1] == x; }
    }
    if |s.ring| == 1 { assert forall x <- todo :: x == s.ring[0]; }
  }

  lemma {:induction false} SeenOnce<T>(s: State<T>, todo: seq<T>, hs: seq<Happening<T>>, seen: set<T>) returns (left: seq<T>)
    requires OnCourse(s, todo) && Happen(s, hs) && Harmless(s, hs) && AllDifferent(s.ring + AddedIn(hs))
    requires Unseen(s, todo, seen) && forall x <- AddedIn(hs) :: x !in seen
    ensures OnCourse(Afterwards(s, hs), left)
    ensures AllDifferent(VisitedIn(s, hs)) && forall x <- VisitedIn(s, hs) :: x !in seen
    ensures forall x <- VisitedIn(s, hs) :: x in s.ring || x in AddedIn(hs)
    ensures forall x <- todo :: x in VisitedIn(s, hs) || x in CancelledIn(s, hs) || x in left
    decreases |hs|
  {
    if hs == [] { return todo; }
    hide Dangles, ToCome, OnCourse, Unseen;
    var h, s', next := hs[0], Next(s, hs[0]), todo;
    NewThen(s, hs);
    KeepsCourse(s, todo, h);
    next := ToComeAfter(s, todo, h);
    SplitAdded(hs);
    if h.Passes? {
      UnseenAfterVisit(s, todo, h.visit, seen);
      ToComeKeeps(s, todo, h.visit);
      NewAreNotFirst(s, hs);
      left := SeenOnce(s', next, hs[1..], seen + {s.ring[0]});
      StepSeen(s.ring[0], VisitedIn(s', hs[1..]));
      RingGrows(s, h.visit);
    } else {
      UnseenAfterCancel(s, todo, h.k, seen);
      left := SeenOnce(s', next, hs[1..], seen);
    }
  }

  lemma SplitAdded<T>(hs: seq<Happening<T>>)
    requires hs != []
    ensures forall x <- AddedBy(hs[0]) :: x in AddedIn(hs)
    ensures forall x <- AddedIn(hs[1..]) :: x in AddedIn(hs)
  {
    assert AddedIn(hs) == AddedBy(hs[0]) + AddedIn(hs[1..]);
  }

  lemma ToComeKeeps<T>(s: State<T>, todo: seq<T>, v: Visit<T>)
    requires OnCourse(s, todo) && todo != []
    ensures forall x <- todo :: x == s.ring[0] || x in ToCome(s, todo, v)
  {
    assert todo == [s.ring[0]] + todo[1..];
    assert todo[1..] <= ToCome(s, todo, v);
  }

  lemma NewAreNotFirst<T>(s: State<T>, hs: seq<Happening<T>>)
    requires s.ring != [] && AllDifferent(s.ring + AddedIn(hs))
    ensures forall x <- AddedIn(hs) :: x != s.ring[0]
  {
    var all := s.ring + AddedIn(hs);
    forall i | 0 <= i < |AddedIn(hs)| ensures AddedIn(hs)[i] != s.ring[0] { assert all[|s.ring| + i] != all[0]; }
  }

  lemma StepSeen<T>(x: T, visited: seq<T>)
    requires AllDifferent(visited) && x !in visited
    ensures AllDifferent([x] + visited) && forall y :: y in [x] + visited <==> y == x || y in visited
  {
  }

  lemma RingGrows<T>(s: State<T>, v: Visit<T>)
    requires s.ring != []
    ensures forall x <- Turn(s, v).ring :: x in s.ring || x in Added(v)
  {
  }

  lemma {:induction false} DifferentWithin<T>(s: seq<T>, t: seq<T>)
    requires AllDifferent(s) && forall x <- s :: x in t
    ensures |s| <= |t|
  {
    if s != [] {
      var n := |s| - 1;
      assert s[n] in t;
      var k :| 0 <= k < |t| && t[k] == s[n];
      var rest := t[..k] + t[k + 1..];
      forall i | 0 <= i < n ensures s[i] in rest {
        assert s[i] in s && s[i] != s[n];
        var j :| 0 <= j < |t| && t[j] == s[i];
        assert rest[if j < k then j else j - 1] == s[i];
      }
      DifferentWithin(s[..n], rest);
    }
  }

  /**
   * Among any new additions and cancellations, a sweep that is never harmed visits no trigger twice and makes no more
   * visits than there are triggers, the added ones counted.  When it ends, every trigger of its start has been visited
   * or was cancelled.
   */
  lemma SweepAmongAll<T>(ring: seq<T>, hs: seq<Happening<T>>)
    requires ring != [] && AllDifferent(ring + AddedIn(hs)) && Happen(Start(ring), hs) && Harmless(Start(ring), hs)
    ensures AllDifferent(VisitedIn(Start(ring), hs)) && |VisitedIn(Start(ring), hs)| <= |ring| + |AddedIn(hs)|
    ensures !Again(Afterwards(Start(ring), hs)) ==>
      forall x <- ring :: x in VisitedIn(Start(ring), hs) || x in CancelledIn(Start(ring), hs)
  {
    FewerDifferent(ring, ring + AddedIn(hs));
    var left := SeenOnce(Start(ring), ring, hs, {});
    DifferentWithin(VisitedIn(Start(ring), hs), ring + AddedIn(hs));
    GoesOnExactly(Afterwards(Start(ring), hs), left);
  }

  // ----- The loop body on the linked ring -----

  /** Other threads add triggers before `curr`. */
  method AddAll<T>(stock: Ring<T>, ns: seq<Node<T>>)
    requires stock.Valid() && AllDifferent(stock.nodes + ns)
    modifies stock, stock.Cells(), ns
    ensures stock.Valid() && stock.nodes == old(stock.nodes) + ns
  {
    var i := 0;
    while i < |ns|
      invariant 0 <= i <= |ns| && stock.Valid() && stock.nodes == old(stock.nodes) + ns[..i]
    {
      assert (old(stock.nodes) + ns)[|stock.nodes|] == ns[i];
      assert forall j :: 0 <= j < |stock.nodes| ==> stock.nodes[j] == (old(stock.nodes) + ns)[j];
      stock.Insert(ns[i]);
      assert ns[..i + 1] == ns[..i] + [ns[i]];
      i := i + 1;
    }
    assert ns[..i] == ns;
  }

  /** What is added in the windows is new in each of them. */
  lemma NewInWindows<T>(ring: seq<T>, a: seq<T>, b: seq<T>, c: seq<T>)
    requires ring != [] && AllDifferent(ring + (a + b + c))
    ensures var turned, rest := ring[1..] + [ring[0]], ring[1..];
      && AllDifferent(turned + (a + b + c)) && AllDifferent(turned + a) && AllDifferent(turned + a + b)
      && AllDifferent(rest + a + b + c)
  {
    var turned, rest, all := ring[1..] + [ring[0]], ring[1..], ring + (a + b + c);
    assert ring == [ring[0]] + rest;
    FewerDifferent(turned + (a + b + c), all);
    FewerDifferent(turned + a, all);
    FewerDifferent(turned + a + b, all);
    FewerDifferent(rest + a + b + c, all);
  }

  /** One turn of the loop, condition included, with the triggers that others add in its windows. */
  method TurnAmong<T>(stock: Ring<T>, sTrigger: Node<T>, verdict: Verdict, a: seq<Node<T>>, b: seq<Node<T>>, c: seq<Node<T>>,
                      ghost moved: bool) returns (sNext: Node<T>, again: bool)
    requires stock.Valid() && stock.curr != null && AllDifferent(stock.nodes + (a + b + c))
    modifies stock, stock.Cells(), a, b, c
    ensures stock.Valid()
    ensures var s := Turn(State(old(stock.nodes), sTrigger, moved), Visit(verdict, a, b, c));
      stock.nodes == s.ring && sNext == s.sentinel && again == Again(s)
  {
    NewInWindows(stock.nodes, a, b, c);
    var sTrigMod;
    sNext, sTrigMod := sTrigger, false;
    var cTrigger := stock.curr;
    stock.Advance();
    if verdict != Fires {
      AddAll(stock, a + b + c);
    } else {
      sNext, sTrigMod := TakeOutAmong(stock, sTrigger, cTrigger, a, b, c);
    }
    again := stock.curr != null && (sNext != stock.curr || sTrigMod);
  }

  /** The trigger that was passed has fired, and others add triggers before and after it leaves the ring. */
  method TakeOutAmong<T>(stock: Ring<T>, sTrigger: Node<T>, cTrigger: Node<T>, a: seq<Node<T>>, b: seq<Node<T>>, c: seq<Node<T>>)
    returns (sNext: Node<T>, sTrigMod: bool)
    requires stock.Valid() && stock.nodes != [] && stock.nodes[|stock.nodes| - 1] == cTrigger
    requires AllDifferent(stock.nodes + a) && AllDifferent(stock.nodes + a + b)
    requires AllDifferent(stock.nodes[..|stock.nodes| - 1] + a + b + c)
    modifies stock, stock.Cells(), a, b, c
    ensures stock.Valid() && stock.nodes == old(stock.nodes)[..|old(stock.nodes)| - 1] + (a + b + c)
    ensures sTrigMod == (sTrigger == cTrigger)
    ensures sNext == if sTrigMod then (old(stock.nodes) + a + [old(stock.nodes)[0]])[|old(stock.nodes)|] else sTrigger
  {
    hide stock.Valid, AllDifferent;
    ghost var ring := stock.nodes;
    ghost var k := |ring| - 1;
    sNext, sTrigMod := sTrigger, false;
    AddAll(stock, a);
    if sNext == cTrigger {
      sNext := Following(stock, sNext, k);
      sTrigMod := true;
    }
    AddAll(stock, b);
    assert stock.nodes == ring + a + b && stock.nodes[k] == cTrigger;
    stock.Remove(cTrigger, k);
    assert stock.nodes == ring[..k] + a + b;
    AddAll(stock, c);
    assert stock.nodes == ring[..k] + (a + b + c);
  }

  /** The next node of the circle. */
  method Following<T>(stock: Ring<T>, n: Node<T>, ghost k: nat) returns (next: Node<T>)
    requires stock.Valid() && k < |stock.nodes| && stock.nodes[k] == n
    ensures next == (stock.nodes + [stock.nodes[0]])[k + 1]
  {
    assert k + 1 < |stock.nodes| ==> Linked(stock.nodes[k], stock.nodes[k + 1]);
    next := n.next;
  }
}
