/**
 Why an issued command is never picked again: the cleanup callback of the next cycle always runs
 before anything in that cycle that can issue a command. One controller is seen here as a user of
 the event kernel: what matters of it is whether some queue head has been issued and not removed
 yet, and when its last command was issued. Everything else is an arbitrary environment `E`, other
 controllers on the same event queue included, whose cleanup callbacks have the same priority.
 */
module CleanupOrder {
  import opened EventQueues

  const CLEANUP_PRIORITY := -10

  // The cleanup callback of the controller.
  const CLEANUP: Event := Event(0, CLEANUP_PRIORITY)

  /** `stale`: an issued command still sits at the head of its queue; `twice`: some command was
      issued while one was. */
  datatype Controller<E> = Controller(stale: bool, lastIssue: nat, twice: bool, env: E)

  /** Cleanup callbacks, the controller's own and others', store the priority they are inserted
      with and go to a later cycle; all other events are inserted with and store priorities of at
      least 0. Nobody removes the controller's cleanup. */
  predicate Allowed(a: Action, now: nat) {
    match a
    case Insert(e, when, p) =>
      (e.priority == p == CLEANUP_PRIORITY && now < when) || (e.priority >= 0 && p >= 0)
    case Remove(e, _) => e != CLEANUP
  }

  predicate AllAllowed(acts: seq<Action>, now: nat) {
    acts == [] || (Allowed(acts[0], now) && AllAllowed(acts[1..], now))
  }

  /** The controller's part of the world is left alone, but for removing issued commands. */
  predicate Leaves<E>(w: Controller<E>, w': Controller<E>) {
    (w'.stale ==> w.stale) && w'.lastIssue == w.lastIssue && w'.twice == w.twice
  }

  /** A command is issued, and the cleanup inserted for the next cycle. */
  predicate Issues<E>(w: Controller<E>, now: nat, w': Controller<E>, acts: seq<Action>) {
    && w.lastIssue != now && w'.stale && w'.lastIssue == now && w'.twice == (w.twice || w.stale)
    && now + 1 < MAX && Insert(CLEANUP, now + 1, CLEANUP_PRIORITY) in acts
  }

  /** One event, from world `w` to world `w'` with the given actions on the event queue. Any event
      but a cleanup may issue a command: the command-queue callback does, and so does the cycle
      event of a controller. */
  predicate Callback<E>(w: Controller<E>, e: Event, now: nat, w': Controller<E>, acts: seq<Action>) {
    && AllAllowed(acts, now)
    && (Leaves(w, w') || (e.priority > CLEANUP_PRIORITY && Issues(w, now, w', acts)))
    && (e == CLEANUP ==> !w'.stale)
  }

  /** When an event that is no cleanup runs while a head is stale, it was issued in the same cycle. */
  predicate Timely<E>(w: Controller<E>, e: Event, now: nat) {
    e.priority > CLEANUP_PRIORITY && w.stale ==> w.lastIssue == now
  }

  /** A simulator whose callbacks behave like the controller's and those around it, whenever they are
      timely; that they always are is what is proved. */
  ghost predicate ControllerLike<E(!new)>(sys: System<Controller<E>>) {
    && WellBehaved(sys)
    && forall w, e, now: nat, delta: nat
      {:trigger Callback(w, e, now, sys.handle(w, e, now, delta).0, sys.handle(w, e, now, delta).1)}
      | Timely(w, e, now) ::
      Callback(w, e, now, sys.handle(w, e, now, delta).0, sys.handle(w, e, now, delta).1)
  }

  // ------------------------------------------------------------------ invariant

  ghost predicate ListOk(l: seq<Event>) {
    FrontBlock(l, CLEANUP_PRIORITY)
  }

  ghost predicate ListsOk<W>(s: State<W>) {
    forall k {:trigger ListOk(s.events[k])} | k in s.events :: ListOk(s.events[k])
  }

  ghost predicate HasFrom(l: seq<Event>, lo: nat) {
    exists j | lo <= j < |l| :: l[j] == CLEANUP
  }

  /** While a head is stale, its cleanup is still to come: in a later cycle, or at position `lo`
      or later in the list of the current cycle. */
  ghost predicate Armed<E>(s: State<Controller<E>>, lo: nat) {
    s.world.stale ==>
      var c := s.world.lastIssue + 1;
      c in s.events && HasFrom(s.events[c], if c == s.current then lo else 0)
  }

  ghost predicate Good<E>(s: State<Controller<E>>, lo: nat) {
    ListsOk(s) && Armed(s, lo) && !s.world.twice
  }

  // ------------------------------------------------------------------ actions

  lemma InsertedListOk(l: seq<Event>, e: Event, p: int)
    requires ListOk(l) && (e.priority == p == CLEANUP_PRIORITY || (e.priority >= 0 && p >= 0))
    ensures ListOk(Inserted(l, e, p))
  {
    FrontBlockKept(l, e, p, CLEANUP_PRIORITY);
  }

  lemma InsertedHas(l: seq<Event>, e: Event, p: int, lo: nat, lo': nat)
    requires HasFrom(l, lo)
    requires lo' == lo || (lo' == lo + 1 && InsertPos(l, p) < lo)
    ensures HasFrom(Inserted(l, e, p), lo')
  {
    var j :| lo <= j < |l| && l[j] == CLEANUP;
    var k, r := InsertPos(l, p), Inserted(l, e, p);
    if j < k {
      assert r[j] == CLEANUP;
    } else {
      assert r[j + 1] == CLEANUP;
    }
  }

  lemma {:induction false} RemovedFacts(l: seq<Event>, e: Event)
    requires e != CLEANUP && ListOk(l)
    ensures ListOk(Removed(l, e)) && |Removed(l, e)| <= |l|
    ensures forall x :: x in Removed(l, e) ==> x in l
    ensures CLEANUP in l ==> CLEANUP in Removed(l, e)
  {
    if l != [] {
      assert ListOk(l[1..]) by {
        assert forall i | 0 <= i < |l[1..]| :: l[1..][i] == l[i + 1];
      }
      if l[0] != e {
        RemovedFacts(l[1..], e);
        var r, t := Removed(l, e), Removed(l[1..], e);
        assert forall i | 0 < i < |r| :: r[i] == t[i - 1] && r[i] in l[1..];
        forall i, j | 0 <= i < j < |r| && r[j].priority == CLEANUP_PRIORITY ensures r[i].priority == CLEANUP_PRIORITY {
          if i == 0 {
            assert r[j] in l[1..];
            var m :| 0 <= m < |l[1..]| && l[1..][m] == r[j];
            assert l[m + 1].priority == CLEANUP_PRIORITY;
          }
        }
      }
    }
  }

  /** One action of a running callback keeps the invariant, the iterator moving with it. */
  lemma DoGood<E>(s: State<Controller<E>>, a: Action, i: nat)
    requires s.Valid() && s.current == s.next && s.next in s.events && Permitted(a, s.current)
    requires Allowed(a, s.current) && Good(s, i + 1)
    ensures Good(Do(s, a), Shift(s, a, i) + 1)
  {
    match a {
      case Insert(e, when, p) => InsertGood(s, e, when, p, i);
      case Remove(e, when) => RemoveGood(s, e, when, i);
    }
  }

  lemma InsertGood<E>(s: State<Controller<E>>, e: Event, when: nat, p: int, i: nat)
    requires s.Valid() && s.current == s.next && s.next in s.events && Permitted(Insert(e, when, p), s.current)
    requires Allowed(Insert(e, when, p), s.current) && Good(s, i + 1)
    ensures Good(DoInsert(s, e, when, p), Shift(s, Insert(e, when, p), i) + 1)
  {
    var s' := DoInsert(s, e, when, p);
    assert forall k | k in s'.events && k != when :: k in s.events && s'.events[k] == s.events[k];
    if when in s.events {
      assert ListOk(s.events[when]);
      InsertedListOk(s.events[when], e, p);
    } else {
      assert ListOk([e]);
    }
    var c := s.world.lastIssue + 1;
    if s.world.stale && c == when {
      InsertedHas(s.events[c], e, p, if c == s.current then i + 1 else 0,
                  if c == s.current then Shift(s, Insert(e, when, p), i) + 1 else 0);
    }
  }

  lemma RemoveGood<E>(s: State<Controller<E>>, e: Event, when: nat, i: nat)
    requires s.Valid() && s.current == s.next && s.next in s.events && Permitted(Remove(e, when), s.current)
    requires Allowed(Remove(e, when), s.current) && Good(s, i + 1)
    ensures Good(DoRemove(s, e, when), i + 1)
  {
    var s' := DoRemove(s, e, when);
    assert forall k | k in s'.events && k != when :: k in s.events && s'.events[k] == s.events[k];
    if when in s.events {
      assert ListOk(s.events[when]);
      RemovedFacts(s.events[when], e);
      if s.world.stale && s.world.lastIssue + 1 == when {
        var j :| 0 <= j < |s.events[when]| && s.events[when][j] == CLEANUP;
        var j' :| 0 <= j' < |Removed(s.events[when], e)| && Removed(s.events[when], e)[j'] == CLEANUP;
        assert HasFrom(s'.events[when], 0);
      }
    }
  }

  lemma {:induction false} DoAllGood<E>(s: State<Controller<E>>, acts: seq<Action>, i: nat)
    requires s.Valid() && s.current == s.next && s.next in s.events && i < |s.events[s.current]|
    requires AllPermitted(acts, s.current) && AllAllowed(acts, s.current)
    requires Good(s, i + 1)
    ensures var (r, j) := DoAll(s, acts, i); Good(r, j + 1)
    decreases acts
  {
    if acts != [] {
      DoRunning(s, acts[0]);
      DoGood(s, acts[0], i);
      var s1, j := Do(s, acts[0]), Shift(s, acts[0], i);
      assert DoAll(s, acts, i) == DoAll(s1, acts[1..], j);
      DoAllGood(s1, acts[1..], j);
    }
  }

  /** One action of a callback that issues: the lists stay in order, and its own cleanup arms it. */
  lemma ArmingStep<E>(s: State<Controller<E>>, a: Action, i: nat)
    requires s.Valid() && s.current == s.next && s.next in s.events && Permitted(a, s.current)
    requires Allowed(a, s.current) && ListsOk(s) && !s.world.twice && s.world.lastIssue == s.current
    ensures ListsOk(Do(s, a)) && Do(s, a).world == s.world
    ensures a == Insert(CLEANUP, s.current + 1, CLEANUP_PRIORITY) ==> Good(Do(s, a), Shift(s, a, i) + 1)
  {
    var s1 := Do(s, a);
    var calm := s.(world := s.world.(stale := false));
    DoGood(calm, a, i);
    assert Do(calm, a).events == s1.events;
    if a == Insert(CLEANUP, s.current + 1, CLEANUP_PRIORITY) {
      var l := s1.events[s.current + 1];
      var at := if s.current + 1 in s.events then InsertPos(s.events[s.current + 1], CLEANUP_PRIORITY) else 0;
      assert l[at] == CLEANUP;
      assert HasFrom(l, 0);
    }
  }

  /** After its actions a callback that issues has its cleanup in the list of the next cycle. */
  lemma {:induction false} InsertedByActs<E>(s: State<Controller<E>>, acts: seq<Action>, i: nat)
    requires s.Valid() && s.current == s.next && s.next in s.events && i < |s.events[s.current]|
    requires AllPermitted(acts, s.current) && AllAllowed(acts, s.current)
    requires ListsOk(s) && !s.world.twice && s.world.lastIssue == s.current
    requires Insert(CLEANUP, s.current + 1, CLEANUP_PRIORITY) in acts || Good(s, i + 1)
    ensures var (r, j) := DoAll(s, acts, i); Good(r, j + 1)
    decreases acts
  {
    if Good(s, i + 1) {
      DoAllGood(s, acts, i);
    } else {
      DoRunning(s, acts[0]);
      ArmingStep(s, acts[0], i);
      var s1, j := Do(s, acts[0]), Shift(s, acts[0], i);
      assert DoAll(s, acts, i) == DoAll(s1, acts[1..], j);
      InsertedByActs(s1, acts[1..], j);
    }
  }

  /** The event at position `i` is run while a head is stale: unless it is the cleanup, that is
      still to come; and unless it is some cleanup, the command was issued in this very cycle. */
  lemma StaleMeansCleanup<E>(s: State<Controller<E>>, i: nat)
    requires s.Valid() && s.current == s.next && s.next in s.events && i < |s.events[s.current]|
    requires Good(s, i) && s.world.stale
    ensures s.events[s.current][i].priority > CLEANUP_PRIORITY ==> s.world.lastIssue >= s.current
    ensures s.events[s.current][i] != CLEANUP ==> Armed(s, i + 1)
  {
    assert ListOk(s.events[s.current]);
  }

  lemma HandlerGood<E>(s: State<Controller<E>>, w: Controller<E>, acts: seq<Action>, i: nat)
    requires s.Valid() && s.current == s.next && s.next in s.events && i < |s.events[s.current]|
    requires Good(s, i) && s.world.lastIssue <= s.current
    requires AllPermitted(acts, s.current)
    requires Callback(s.world, s.events[s.current][i], s.current, w, acts)
    ensures var s1 := Handling(s, i, w);
      var (r, j) := DoAll(s1, acts, i);
      Good(r, j + 1) && r.world.lastIssue <= s.current
  {
    var e := s.events[s.current][i];
    var s1 := Handling(s, i, w);
    if s.world.stale { StaleMeansCleanup(s, i); }
    assert ListsOk(s1);
    if Leaves(s.world, w) {
      assert Good(s1, i + 1);
      DoAllGood(s1, acts, i);
    } else {
      InsertedByActs(s1, acts, i);
    }
  }

  lemma RunOneGood<E(!new)>(sys: System<Controller<E>>, s: State<Controller<E>>, i: nat)
    requires ControllerLike(sys) && s.Valid() && s.current == s.next && s.next in s.events
    requires i < |s.events[s.current]| && Good(s, i) && s.world.lastIssue <= s.current
    ensures var (r, j) := RunOne(sys, s, i); Good(r, j + 1) && r.world.lastIssue <= s.current
  {
    if s.world.stale { StaleMeansCleanup(s, i); }
    CallbackOf(sys, s.world, s.events[s.current][i], s.current, s.next - s.last);
    AskedFacts(sys, s, i);
    HandlerGood(s, Asked(sys, s, i).0, Asked(sys, s, i).1, i);
  }

  lemma CallbackOf<E(!new)>(sys: System<Controller<E>>, w: Controller<E>, e: Event, now: nat, delta: nat)
    requires ControllerLike(sys) && Timely(w, e, now)
    ensures var h := sys.handle(w, e, now, delta);
      Callback(w, e, now, h.0, h.1) && AllPermitted(h.1, now)
  {
    var (_, acts) := sys.handle(w, e, now, delta);
    assert Callback(w, e, now, sys.handle(w, e, now, delta).0, sys.handle(w, e, now, delta).1);
  }

  lemma {:induction false} RunFromGood<E(!new)>(sys: System<Controller<E>>, s: State<Controller<E>>, i: nat)
    requires ControllerLike(sys) && s.Valid() && s.current == s.next && s.next in s.events
    requires i <= |s.events[s.current]| && Good(s, i) && s.world.lastIssue <= s.current
    ensures var r := RunFrom(sys, s, i);
      Good(r, |r.events[r.current]|) && r.world.lastIssue <= s.current
    decreases |s.events[s.current]| - i + sys.rank(s.world, s.current)
  {
    if i < |s.events[s.current]| {
      RunOneGood(sys, s, i);
      var (s1, j) := RunOne(sys, s, i);
      RunFromGood(sys, s1, j + 1);
      assert RunFrom(sys, s, i) == RunFrom(sys, s1, j + 1);
    } else {
      assert RunFrom(sys, s, i) == s;
    }
  }

  lemma ProcessGood<E(!new)>(sys: System<Controller<E>>, s: State<Controller<E>>)
    requires ControllerLike(sys) && s.Valid() && s.current == s.next && s.next in s.events
    requires Good(s, 0) && s.world.lastIssue <= s.current
    ensures Good(Process(sys, s), 0) && Process(sys, s).world.lastIssue <= s.current
  {
    RunFromGood(sys, s, 0);
  }

  /** Over every advance of the simulator, however long and whatever the other components
      schedule, no command is issued while an issued one still heads its queue. */
  lemma {:induction false} AdvanceGood<E(!new)>(sys: System<Controller<E>>, s: State<Controller<E>>, t: nat)
    requires ControllerLike(sys) && s.Valid() && s.current <= t < MAX
    requires Good(s, 0) && s.world.lastIssue <= s.current
    ensures Good(Advance(sys, s, t), 0) && Advance(sys, s, t).world.lastIssue <= t
    decreases t + 1 - s.next
  {
    var s0 := s.(current := s.next);
    if s.next <= t {
      ProcessGood(sys, s0);
      AdvanceGood(sys, Process(sys, s0), t);
    }
  }

  // ------------------------------------------------------------------ runs

  /** The clock is advanced, or, between two advances, something outside the events inserts or
      removes an event or changes the world, as the arrival of a request does. */
  datatype Move<E> = AdvanceTo(t: nat) | FromOutside(act: Action) | Arrival(world: Controller<E>)

  ghost predicate CanMove<E>(s: State<Controller<E>>, m: Move<E>) {
    match m
    case AdvanceTo(t) => s.current <= t < MAX
    case FromOutside(a) => s.current <= a.when < MAX && Allowed(a, s.current)
    case Arrival(w) => Leaves(s.world, w)
  }

  ghost function Moved<E(!new)>(sys: System<Controller<E>>, s: State<Controller<E>>, m: Move<E>)
    : (r: State<Controller<E>>)
    requires WellBehaved(sys) && s.Valid() && CanMove(s, m)
    ensures r.Valid()
  {
    match m
    case AdvanceTo(t) => Advance(sys, s, t)
    case FromOutside(a) => DoKeepsValid(s, a); Do(s, a)
    case Arrival(w) => s.(world := w)
  }

  lemma OutsideGood<E>(s: State<Controller<E>>, a: Action)
    requires s.Valid() && s.current <= a.when < MAX && Allowed(a, s.current) && Good(s, 0)
    ensures Do(s, a).Valid() && Good(Do(s, a), 0)
  {
    DoKeepsValid(s, a);
    match a {
      case Insert(e, when, p) => InsertedAnywhere(s, e, when, p);
      case Remove(e, when) => RemovedAnywhere(s, e, when);
    }
  }

  lemma InsertedAnywhere<E>(s: State<Controller<E>>, e: Event, when: nat, p: int)
    requires Allowed(Insert(e, when, p), s.current) && Good(s, 0)
    ensures Good(DoInsert(s, e, when, p), 0)
  {
    var s' := DoInsert(s, e, when, p);
    assert forall k | k in s'.events && k != when :: k in s.events && s'.events[k] == s.events[k];
    if when in s.events {
      assert ListOk(s.events[when]);
      InsertedListOk(s.events[when], e, p);
    } else {
      assert ListOk([e]);
    }
    if s.world.stale && s.world.lastIssue + 1 == when { InsertedHas(s.events[when], e, p, 0, 0); }
  }

  lemma RemovedAnywhere<E>(s: State<Controller<E>>, e: Event, when: nat)
    requires e != CLEANUP && Good(s, 0)
    ensures Good(DoRemove(s, e, when), 0)
  {
    var s' := DoRemove(s, e, when);
    assert forall k | k in s'.events && k != when :: k in s.events && s'.events[k] == s.events[k];
    if when in s.events {
      assert ListOk(s.events[when]);
      RemovedFacts(s.events[when], e);
      if s.world.stale && s.world.lastIssue + 1 == when {
        var j :| 0 <= j < |s.events[when]| && s.events[when][j] == CLEANUP;
        var j' :| 0 <= j' < |Removed(s.events[when], e)| && Removed(s.events[when], e)[j'] == CLEANUP;
        assert HasFrom(s'.events[when], 0);
      }
    }
  }

  /** The moves of a run are possible one after the other. */
  ghost predicate CanRun<E(!new)>(sys: System<Controller<E>>, s: State<Controller<E>>, ms: seq<Move<E>>)
    requires WellBehaved(sys) && s.Valid()
    decreases |ms|
  {
    ms == [] || (CanMove(s, ms[0]) && CanRun(sys, Moved(sys, s, ms[0]), ms[1..]))
  }

  ghost function Ran<E(!new)>(sys: System<Controller<E>>, s: State<Controller<E>>, ms: seq<Move<E>>)
    : State<Controller<E>>
    requires WellBehaved(sys) && s.Valid() && CanRun(sys, s, ms)
    decreases |ms|
  {
    if ms == [] then s else Ran(sys, Moved(sys, s, ms[0]), ms[1..])
  }

  /** In every run of advances and of insertions, removals and arrivals from outside between them,
      whatever the other components and controllers do, no command is issued while an issued one
      still heads its queue: each is issued once. */
  lemma {:induction false} NeverIssuedTwice<E(!new)>(sys: System<Controller<E>>, s: State<Controller<E>>,
                                                     ms: seq<Move<E>>)
    requires ControllerLike(sys) && s.Valid() && CanRun(sys, s, ms)
    requires Good(s, 0) && s.world.lastIssue <= s.current
    ensures Good(Ran(sys, s, ms), 0) && !Ran(sys, s, ms).world.twice
    decreases |ms|
  {
    if ms != [] {
      var s1 := Moved(sys, s, ms[0]);
      match ms[0] {
        case AdvanceTo(t) => AdvanceGood(sys, s, t);
        case FromOutside(a) => OutsideGood(s, a);
        case Arrival(w) => assert ListsOk(s1);
      }
      NeverIssuedTwice(sys, s1, ms[1..]);
    }
  }
}
