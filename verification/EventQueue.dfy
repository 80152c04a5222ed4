/**
 The event kernel of the simulator: a cycle-keyed map of event lists, the insertion and
 removal of events, the processing of one cycle, and the two ways of advancing the clock
 (one cycle at a time, or jumping from event to event).

 The rest of the simulator is an opaque `world`. An event handler is a function from the
 world, the event, the current cycle and the time since the last processed cycle to the new
 world and the insertions and removals it performs on the queue.
 */
module EventQueues {

  // The largest `ncycle_t`; as `nextEventCycle` it means that no event is pending.
  const MAX: nat := 0xFFFF_FFFF_FFFF_FFFF

  // An event is known by its identity (its address in memory) and its stored priority.
  datatype Event = Event(id: nat, priority: int)

  datatype Action =
    | Insert(event: Event, when: nat, priority: int)
    | Remove(event: Event, when: nat)

  /** An event that was run, the cycle it was run in, and the elapsed time its handler was given. */
  datatype Entry = Entry(cycle: nat, event: Event, elapsed: nat)

  datatype System<!W> = System(
    handle: (W, Event, nat, nat) -> (W, seq<Action>),
    rank: (W, nat) -> nat)

  /** Handlers never touch the past, cancel only events of later cycles, and the number of
      events they add to the running cycle is bounded by the rank of the world. */
  ghost predicate WellBehaved<W(!new)>(sys: System<W>)
  {
    forall w, e, now, delta ::
      var (w', acts) := sys.handle(w, e, now, delta);
      && AllPermitted(acts, now)
      && SameCycle(acts, now) + sys.rank(w', now) <= sys.rank(w, now)
  }

  predicate Permitted(a: Action, now: nat) {
    now <= a.when < MAX && (a.Remove? ==> now < a.when)
  }

  predicate AllPermitted(acts: seq<Action>, now: nat) {
    acts == [] || (Permitted(acts[0], now) && AllPermitted(acts[1..], now))
  }

  /** How many actions insert into the running cycle. */
  function SameCycle(acts: seq<Action>, now: nat): nat {
    if acts == [] then 0
    else (if acts[0].Insert? && acts[0].when == now then 1 else 0) + SameCycle(acts[1..], now)
  }

  // ------------------------------------------------------------------ event lists

  /** The insertion point the list walk finds: before the first event whose stored priority
      is greater than `p`, or the end. */
  function InsertPos(l: seq<Event>, p: int): (k: nat)
    ensures k <= |l|
    ensures k < |l| ==> l[k].priority > p
    ensures forall i | 0 <= i < k :: l[i].priority <= p
  {
    if l == [] || l[0].priority > p then 0 else 1 + InsertPos(l[1..], p)
  }

  function Inserted(l: seq<Event>, e: Event, p: int): seq<Event> {
    var k := InsertPos(l, p); l[..k] + [e] + l[k..]
  }

  function Removed(l: seq<Event>, e: Event): seq<Event> {
    if l == [] then []
    else if l[0] == e then l[1..]
    else [l[0]] + Removed(l[1..], e)
  }

  /** Exactly the first occurrence goes, and the rest keeps its order. */
  lemma {:induction false} RemovedIs(l: seq<Event>, e: Event) returns (i: nat)
    ensures i <= |l| && e !in l[..i] && (i < |l| <==> e in l) && (i < |l| ==> l[i] == e)
    ensures Removed(l, e) == if i < |l| then l[..i] + l[i + 1..] else l
  {
    if l == [] || l[0] == e {
      i := 0;
    } else {
      var j := RemovedIs(l[1..], e);
      i := j + 1;
      PrependFacts(l[0], l[1..], j);
      assert l == [l[0]] + l[1..];
    }
  }

  lemma PrependFacts(x: Event, l: seq<Event>, j: nat)
    requires j <= |l|
    ensures ([x] + l)[..j + 1] == [x] + l[..j]
    ensures j < |l| ==> ([x] + l)[j + 1] == l[j] && ([x] + l)[j + 2..] == l[j + 1..]
  {
  }

  // ------------------------------------------------------------------ queue states

  datatype State<W> = State(
    events: map<nat, seq<Event>>,
    next: nat,
    last: nat,
    current: nat,
    world: W,
    trace: seq<Entry>)
  {
    /** `next` is the least key of the map, or MAX when nothing is pending; nothing pending
        lies in the past, and no list is empty. */
    ghost predicate Valid() {
      && IsLeast(events, next)
      && last <= current <= next
      && (forall k <- events :: events[k] != [] && k < MAX)
    }
  }

  ghost predicate IsLeast(events: map<nat, seq<Event>>, k: nat) {
    (forall j <- events :: k <= j) && (k in events || (k == MAX && forall j :: j !in events))
  }

  /** The first key in the order of the map (`eventMap.begin()->first`), or MAX. */
  function LeastKey(events: map<nat, seq<Event>>): (k: nat)
    ensures IsLeast(events, k)
  {
    if events == map[] then MAX
    else
      LeastExists(events.Keys);
      var k :| k in events && forall j <- events :: k <= j; k
  }

  lemma LeastExists(s: set<nat>)
    requires s != {}
    ensures exists k :: k in s && forall j <- s :: k <= j
  {
    var k := LeastOf(s);
  }

  lemma {:induction false} LeastOf(s: set<nat>) returns (k: nat)
    requires s != {}
    ensures k in s && forall j <- s :: k <= j
  {
    k :| k in s;
    if s - {k} != {} {
      var y := LeastOf(s - {k});
      assert forall j <- s :: j == k || j in s - {k};
      k := if k <= y then k else y;
    } else {
      assert s == {k};
    }
  }

  function DoInsert<W>(s: State<W>, e: Event, when: nat, p: int): State<W> {
    s.(next := if when < s.next then when else s.next,
       events := s.events[when := if when in s.events then Inserted(s.events[when], e, p) else [e]])
  }

  function DoRemove<W>(s: State<W>, e: Event, when: nat): State<W> {
    if when !in s.events then s
    else
      var l := Removed(s.events[when], e);
      var events := if l == [] then s.events - {when} else s.events[when := l];
      s.(events := events, next := LeastKey(events))
  }

  function Do<W>(s: State<W>, a: Action): State<W> {
    match a
    case Insert(e, when, p) => DoInsert(s, e, when, p)
    case Remove(e, when) => DoRemove(s, e, when)
  }

  lemma DoKeepsValid<W>(s: State<W>, a: Action)
    requires s.Valid() && s.current <= a.when < MAX
    ensures Do(s, a).Valid()
  {
    var s' := Do(s, a);
    if a.Insert? {
      assert s'.events != map[] by { assert a.when in s'.events; }
    } else if a.when in s.events {
      assert forall k <- s'.events :: k in s.events;
      if s'.events != map[] { assert s'.next in s.events; }
    }
  }

  // ------------------------------------------------------------------ one cycle

  /** Where the running iterator stands after an action: an event inserted in front of the
      running one shifts it. */
  function Shift<W>(s: State<W>, a: Action, i: nat): nat
    requires s.current in s.events
  {
    if a.Insert? && a.when == s.current && InsertPos(s.events[s.current], a.priority) <= i then i + 1 else i
  }

  /** The state and iterator position after the actions of a running handler. */
  function DoAll<W>(s: State<W>, acts: seq<Action>, i: nat): (r: (State<W>, nat))
    requires s.Valid() && s.current == s.next && s.next in s.events
    requires i < |s.events[s.current]|
    requires AllPermitted(acts, s.current)
    ensures r.0.Valid()
    ensures r.0.current == s.current && r.0.next == s.next && r.0.last == s.last
    ensures r.0.trace == s.trace && r.0.world == s.world
    ensures r.0.next in r.0.events
    ensures i <= r.1 < |r.0.events[s.current]|
    ensures |r.0.events[s.current]| - r.1 <= |s.events[s.current]| - i + SameCycle(acts, s.current)
    decreases acts
  {
    if acts == [] then (s, i)
    else
      DoRunning(s, acts[0]);
      DoAll(Do(s, acts[0]), acts[1..], Shift(s, acts[0], i))
  }

  lemma DoRunning<W>(s: State<W>, a: Action)
    requires s.Valid() && s.current == s.next && s.next in s.events && Permitted(a, s.current)
    ensures var s' := Do(s, a);
      && s'.Valid() && s'.next == s.next && s'.next in s'.events
      && |s'.events[s.current]| == |s.events[s.current]| + SameCycle([a], s.current)
  {
    DoKeepsValid(s, a);
    assert SameCycle([a], s.current) == if a.Insert? && a.when == s.current then 1 else 0;
    if a.Remove? && a.when in s.events {
      assert s.next in Do(s, a).events;
    }
  }

  /** An action that does not go in front leaves the events up to the running one in place. */
  lemma DoPrefix<W>(s: State<W>, a: Action, i: nat)
    requires s.Valid() && s.current == s.next && s.next in s.events && i < |s.events[s.current]|
    requires Permitted(a, s.current)
    ensures var s1 := Do(s, a); s.current in s1.events && i < |s1.events[s.current]|
    ensures Shift(s, a, i) == i ==> Do(s, a).events[s.current][..i + 1] == s.events[s.current][..i + 1]
  {
    DoRunning(s, a);
  }

  /** Runs the events of the current cycle from list position `i` on. */
  function RunFrom<W(!new)>(sys: System<W>, s: State<W>, i: nat): (r: State<W>)
    requires WellBehaved(sys) && s.Valid() && s.current == s.next && s.next in s.events
    requires i <= |s.events[s.current]|
    ensures r.Valid() && r.current == s.current && r.next == s.next && r.next in r.events
    ensures r.last == s.last
    decreases |s.events[s.current]| - i + sys.rank(s.world, s.current)
  {
    if i == |s.events[s.current]| then s
    else
      RunFrom(sys, RunOne(sys, s, i).0, RunOne(sys, s, i).1 + 1)
  }

  /** Runs the event at list position `i` and applies what its handler asks for. */
  function RunOne<W(!new)>(sys: System<W>, s: State<W>, i: nat): (r: (State<W>, nat))
    requires WellBehaved(sys) && s.Valid() && s.current == s.next && s.next in s.events
    requires i < |s.events[s.current]|
    ensures r.0.Valid() && r.0.current == s.current && r.0.next == s.next && r.0.next in r.0.events
    ensures r.0.last == s.last
    ensures i <= r.1 < |r.0.events[s.current]|
    ensures |r.0.events[s.current]| - r.1 + sys.rank(r.0.world, s.current)
         <= |s.events[s.current]| - i + sys.rank(s.world, s.current)
  {
    AskedFacts(sys, s, i);
    DoAll(Handling(s, i, Asked(sys, s, i).0), Asked(sys, s, i).1, i)
  }

  /** What the handler of the event at position `i` answers: the new world and its actions. */
  function Asked<W>(sys: System<W>, s: State<W>, i: nat): (W, seq<Action>)
    requires s.current in s.events && i < |s.events[s.current]| && s.last <= s.next
  {
    sys.handle(s.world, s.events[s.current][i], s.current, s.next - s.last)
  }

  /** The state in which the actions of the event at position `i` are performed. */
  function Handling<W>(s: State<W>, i: nat, w: W): State<W>
    requires s.current in s.events && i < |s.events[s.current]| && s.last <= s.next
  {
    s.(world := w, trace := s.trace + [Entry(s.current, s.events[s.current][i], s.next - s.last)])
  }

  lemma AskedFacts<W(!new)>(sys: System<W>, s: State<W>, i: nat)
    requires WellBehaved(sys) && s.Valid() && s.current in s.events && i < |s.events[s.current]|
    ensures var (w, acts) := Asked(sys, s, i);
      && AllPermitted(acts, s.current) && Handling(s, i, w).Valid()
      && SameCycle(acts, s.current) + sys.rank(w, s.current) <= sys.rank(s.world, s.current)
  {
    var (w, acts) := sys.handle(s.world, s.events[s.current][i], s.current, s.next - s.last);
  }

  /** Runs every event of the next event cycle, which must be the current one, then drops the
      whole list and finds the next event cycle. */
  function Process<W(!new)>(sys: System<W>, s: State<W>): (r: State<W>)
    requires WellBehaved(sys) && s.Valid() && s.current == s.next && s.next in s.events
    ensures r.Valid() && r.current == s.current < r.next
  {
    var s1 := RunFrom(sys, s, 0);
    var events := s1.events - {s1.next};
    s1.(events := events, last := s1.next, next := LeastKey(events))
  }

  // ------------------------------------------------------------------ advancing the clock

  /** One call of the single-step loop. */
  function Step<W(!new)>(sys: System<W>, s: State<W>): (r: State<W>)
    requires WellBehaved(sys) && s.Valid() && s.current + 1 < MAX
    ensures r.Valid() && r.current == s.current + 1
  {
    var r := Settle(sys, s); r.(current := s.current + 1)
  }

  function Steps<W(!new)>(sys: System<W>, s: State<W>, n: nat): (r: State<W>)
    requires WellBehaved(sys) && s.Valid() && s.current + n < MAX
    ensures r.Valid() && r.current == s.current + n
    decreases n
  {
    if n == 0 then s else Steps(sys, Step(sys, s), n - 1)
  }

  /** The jumping loop called with zero steps: only what is due now. */
  function Settle<W(!new)>(sys: System<W>, s: State<W>): (r: State<W>)
    requires WellBehaved(sys) && s.Valid() && s.current < MAX
    ensures r.Valid() && r.current == s.current < r.next
  {
    if s.next == s.current then Process(sys, s) else s
  }

  /** Everything due up to and including cycle `t`, jumping from event to event. */
  function Advance<W(!new)>(sys: System<W>, s: State<W>, t: nat): (r: State<W>)
    requires WellBehaved(sys) && s.Valid() && s.current <= t < MAX
    ensures r.Valid() && r.current == t < r.next && s.next <= r.next
    decreases t + 1 - s.next
  {
    if s.next > t then s.(current := t)
    else Advance(sys, Process(sys, s.(current := s.next)), t)
  }

  // ------------------------------------------------------------------ main results

  /** Where the clock stood before a jump does not matter. */
  lemma AdvanceFromAnyClock<W(!new)>(sys: System<W>, s: State<W>, c: nat, t: nat)
    requires WellBehaved(sys) && s.Valid() && s.current <= c <= t < MAX && c <= s.next
    ensures Advance(sys, s.(current := c), t) == Advance(sys, s, t)
  {
    assert s.(current := c).(current := t) == s.(current := t);
    assert s.(current := c).(current := s.next) == s.(current := s.next);
  }

  /** The jumping loop refines single-stepping: same final state, same events in the same order. */
  lemma {:induction false} FastRefinesSlow<W(!new)>(sys: System<W>, s: State<W>, n: nat)
    requires WellBehaved(sys) && s.Valid() && s.current + n < MAX
    ensures Advance(sys, s, s.current + n) == Settle(sys, Steps(sys, s, n))
    decreases n
  {
    if n == 0 {
      assert s.(current := s.current) == s;
    } else {
      var t := s.current + n;
      var s1 := Settle(sys, s);
      FastRefinesSlow(sys, Step(sys, s), n - 1);
      AdvanceFromAnyClock(sys, s1, s.current + 1, t);
      if s.next == s.current {
        assert s.(current := s.next) == s;
      }
    }
  }

  /** Advancing in two legs is advancing once. */
  lemma {:induction false} AdvanceComposes<W(!new)>(sys: System<W>, s: State<W>, t: nat, u: nat)
    requires WellBehaved(sys) && s.Valid() && s.current <= t <= u < MAX
    ensures Advance(sys, Advance(sys, s, t), u) == Advance(sys, s, u)
    decreases t + 1 - s.next
  {
    if s.next > t {
      AdvanceFromAnyClock(sys, s, t, u);
    } else {
      AdvanceComposes(sys, Process(sys, s.(current := s.next)), t, u);
    }
  }

  // ------------------------------------------------------------------ what gets run

  /** The trace entries of a list of events run at cycle `t`, `d` after the last one. */
  function Due(t: nat, d: nat, l: seq<Event>): seq<Entry> {
    seq(|l|, i requires 0 <= i < |l| => Entry(t, l[i], d))
  }

  /** No handler, from position `i` on, inserts an event in front of the running one. */
  ghost predicate NeverInFront<W(!new)>(sys: System<W>, s: State<W>, i: nat)
    requires WellBehaved(sys) && s.Valid() && s.current == s.next && s.next in s.events
    requires i <= |s.events[s.current]|
    decreases |s.events[s.current]| - i + sys.rank(s.world, s.current)
  {
    i == |s.events[s.current]| || (RunOne(sys, s, i).1 == i && NeverInFront(sys, RunOne(sys, s, i).0, i + 1))
  }

  lemma {:induction false} DoAllPrefix<W>(s: State<W>, acts: seq<Action>, i: nat)
    requires s.Valid() && s.current == s.next && s.next in s.events
    requires i < |s.events[s.current]|
    requires AllPermitted(acts, s.current)
    ensures var (r, j) := DoAll(s, acts, i);
      j == i ==> r.events[s.current][..i + 1] == s.events[s.current][..i + 1]
    decreases acts
  {
    if acts != [] {
      DoRunning(s, acts[0]);
      DoPrefix(s, acts[0], i);
      if Shift(s, acts[0], i) == i { DoAllPrefix(Do(s, acts[0]), acts[1..], i); }
    }
  }

  /** Without an insertion in front the events up to the running one stay where they are. */
  lemma RunOnePrefix<W(!new)>(sys: System<W>, s: State<W>, i: nat)
    requires WellBehaved(sys) && s.Valid() && s.current == s.next && s.next in s.events
    requires i < |s.events[s.current]|
    ensures var (s1, j) := RunOne(sys, s, i);
      j == i ==> s1.events[s.current][..i + 1] == s.events[s.current][..i + 1]
  {
    AskedFacts(sys, s, i);
    DoAllPrefix(Handling(s, i, Asked(sys, s, i).0), Asked(sys, s, i).1, i);
  }

  lemma Lengths(a: seq<Entry>, b: seq<Entry>, x: Entry)
    requires b == a + [x]
    ensures |b| == |a| + 1
  {
  }

  lemma {:induction false} RunCount<W(!new)>(sys: System<W>, s: State<W>, i: nat)
    requires WellBehaved(sys) && s.Valid() && s.current == s.next && s.next in s.events
    requires i <= |s.events[s.current]|
    ensures CountsOf(sys, s, i)
    decreases |s.events[s.current]| - i + sys.rank(s.world, s.current)
  {
    if i < |s.events[s.current]| {
      RunCount(sys, RunOne(sys, s, i).0, RunOne(sys, s, i).1 + 1);
      CountsOfStep(sys, s, i);
    }
  }

  lemma CountsOfStep<W(!new)>(sys: System<W>, s: State<W>, i: nat)
    requires WellBehaved(sys) && s.Valid() && s.current == s.next && s.next in s.events
    requires i < |s.events[s.current]|
    requires CountsOf(sys, RunOne(sys, s, i).0, RunOne(sys, s, i).1 + 1)
    ensures CountsOf(sys, s, i)
  {
    var (s1, j) := RunOne(sys, s, i);
    Lengths(s.trace, s1.trace, Entry(s.current, s.events[s.current][i], s.next - s.last));
    RunFromStep(sys, s, i);
    InFrontStep(sys, s, i);
    var r := RunFrom(sys, s, i);
    CountsStep(|s.trace|, |r.trace|, |r.events[s.current]|, i, j, NeverInFront(sys, s, i),
               NeverInFront(sys, s1, j + 1));
  }

  ghost predicate CountsOf<W(!new)>(sys: System<W>, s: State<W>, i: nat)
    requires WellBehaved(sys) && s.Valid() && s.current == s.next && s.next in s.events
    requires i <= |s.events[s.current]|
  {
    var r := RunFrom(sys, s, i);
    Counts(|s.trace|, |r.trace|, |r.events[s.current]|, i, NeverInFront(sys, s, i))
  }

  /** From position `i` a run made the trace grow from `a` to `c` entries and the list to `l` events: at
      most one entry per event, and one for each exactly when no handler inserted in front. */
  predicate Counts(a: nat, c: nat, l: nat, i: nat, never: bool) {
    c - a <= l - i && (never <==> c - a == l - i)
  }

  lemma CountsStep(a: nat, c: nat, l: nat, i: nat, j: nat, never: bool, never1: bool)
    requires i <= j && Counts(a + 1, c, l, j + 1, never1)
    requires j != i ==> !never
    requires j == i ==> never == never1
    ensures Counts(a, c, l, i, never)
  {
  }

  lemma RunFromStep<W(!new)>(sys: System<W>, s: State<W>, i: nat)
    requires WellBehaved(sys) && s.Valid() && s.current == s.next && s.next in s.events
    requires i < |s.events[s.current]|
    ensures RunFrom(sys, s, i) == RunFrom(sys, RunOne(sys, s, i).0, RunOne(sys, s, i).1 + 1)
  {
  }

  lemma InFrontStep<W(!new)>(sys: System<W>, s: State<W>, i: nat)
    requires WellBehaved(sys) && s.Valid() && s.current == s.next && s.next in s.events
    requires i < |s.events[s.current]|
    ensures RunOne(sys, s, i).1 != i ==> !NeverInFront(sys, s, i)
    ensures RunOne(sys, s, i).1 == i ==> NeverInFront(sys, s, i) == NeverInFront(sys, RunOne(sys, s, i).0, i + 1)
  {
  }

  /** A run at cycle `t` from position `i` of list `m` kept what is in front, and appended to the
      trace `a` the rest of the list as it was in the end. */
  ghost predicate RanRest(t: nat, d: nat, m: seq<Event>, i: nat, a: seq<Entry>, l: seq<Event>, c: seq<Entry>) {
    i <= |m| && i <= |l| && l[..i] == m[..i] && c == a + Due(t, d, l[i..])
  }

  lemma RanRestStep(t: nat, d: nat, m: seq<Event>, m1: seq<Event>, i: nat,
                    a: seq<Entry>, b: seq<Entry>, l: seq<Event>, c: seq<Entry>)
    requires i < |m| && i < |m1| && m1[..i + 1] == m[..i + 1] && b == a + [Entry(t, m[i], d)]
    requires RanRest(t, d, m1, i + 1, b, l, c)
    ensures RanRest(t, d, m, i, a, l, c)
  {
    assert l[..i] == l[..i + 1][..i] == m[..i + 1][..i] == m[..i];
    assert l[i] == l[..i + 1][i] == m[..i + 1][i] == m[i];
    assert Due(t, d, l[i..]) == [Entry(t, m[i], d)] + Due(t, d, l[i + 1..]);
  }

  lemma {:induction false} RunContents<W(!new)>(sys: System<W>, s: State<W>, i: nat)
    requires WellBehaved(sys) && s.Valid() && s.current == s.next && s.next in s.events
    requires i <= |s.events[s.current]| && NeverInFront(sys, s, i)
    ensures RanRestOf(s, i, RunFrom(sys, s, i))
    decreases |s.events[s.current]| - i + sys.rank(s.world, s.current)
  {
    if i < |s.events[s.current]| {
      var s1 := RunOne(sys, s, i).0;
      InFrontStep(sys, s, i);
      RunContents(sys, s1, i + 1);
      RunFromStep(sys, s, i);
      ContentsStep(sys, s, i, s1, RunFrom(sys, s1, i + 1));
    }
  }

  ghost predicate RanRestOf<W>(s: State<W>, i: nat, r: State<W>) {
    && s.current in s.events && s.current in r.events
    && s.last <= s.next
    && RanRest(s.current, s.next - s.last, s.events[s.current], i, s.trace, r.events[s.current], r.trace)
  }

  lemma ContentsStep<W(!new)>(sys: System<W>, s: State<W>, i: nat, s1: State<W>, r: State<W>)
    requires WellBehaved(sys) && s.Valid() && s.current == s.next && s.next in s.events
    requires i < |s.events[s.current]| && RunOne(sys, s, i) == (s1, i) && RanRestOf(s1, i + 1, r)
    ensures RanRestOf(s, i, r)
  {
    RunOnePrefix(sys, s, i);
    RanRestStep(s.current, s.next - s.last, s.events[s.current], s1.events[s.current], i, s.trace, s1.trace,
                r.events[s.current], r.trace);
  }

  /** Processing a cycle runs every event its list ever held, once and in list order, exactly
      when no handler inserts in front of the running event; such an event is erased unrun. */
  lemma RunsWholeList<W(!new)>(sys: System<W>, s: State<W>)
    requires WellBehaved(sys) && s.Valid() && s.current == s.next && s.next in s.events
    ensures var r := RunFrom(sys, s, 0);
      NeverInFront(sys, s, 0) <==> r.trace == s.trace + Due(s.current, s.next - s.last, r.events[s.current])
  {
    RunCount(sys, s, 0);
    var r := RunFrom(sys, s, 0);
    if NeverInFront(sys, s, 0) {
      RunContents(sys, s, 0);
      FromTheStart(s, r);
    } else {
      Longer(s.trace, r.trace, Due(s.current, s.next - s.last, r.events[s.current]));
    }
  }

  lemma FromTheStart<W>(s: State<W>, r: State<W>)
    requires RanRestOf(s, 0, r)
    ensures r.trace == s.trace + Due(s.current, s.next - s.last, r.events[s.current])
  {
    var l := r.events[s.current];
    assert l[0..] == l;
  }

  lemma Longer(a: seq<Entry>, c: seq<Entry>, due: seq<Entry>)
    requires |c| - |a| != |due|
    ensures c != a + due
  {
  }

  ghost predicate StrictlyLater<W(!new)>(sys: System<W>) {
    forall w, e, now: nat, delta: nat :: AllLater(sys.handle(w, e, now, delta).1, now)
  }

  predicate AllLater(acts: seq<Action>, now: nat) {
    acts == [] || (now < acts[0].when && AllLater(acts[1..], now))
  }

  /** Handlers that schedule strictly later cycles see the list as it stood, whole. */
  lemma {:induction false} LaterHandlersRunTheList<W(!new)>(sys: System<W>, s: State<W>, i: nat)
    requires WellBehaved(sys) && StrictlyLater(sys) && s.Valid() && s.current == s.next && s.next in s.events
    requires i <= |s.events[s.current]|
    ensures NeverInFront(sys, s, i) && RunFrom(sys, s, i).events[s.current] == s.events[s.current]
    decreases |s.events[s.current]| - i + sys.rank(s.world, s.current)
  {
    if i < |s.events[s.current]| {
      RunOneLater(sys, s, i);
      var s1 := RunOne(sys, s, i).0;
      LaterHandlersRunTheList(sys, s1, i + 1);
      LaterStep(sys, s, i, s1);
    }
  }

  lemma LaterStep<W(!new)>(sys: System<W>, s: State<W>, i: nat, s1: State<W>)
    requires WellBehaved(sys) && s.Valid() && s.current == s.next && s.next in s.events
    requires i < |s.events[s.current]| && RunOne(sys, s, i) == (s1, i)
    requires s1.events[s.current] == s.events[s.current] && NeverInFront(sys, s1, i + 1)
    requires RunFrom(sys, s1, i + 1).events[s.current] == s1.events[s.current]
    ensures NeverInFront(sys, s, i) && RunFrom(sys, s, i).events[s.current] == s.events[s.current]
  {
    RunFromOne(sys, s, i, s1);
  }

  /** Running from position `i`, when its event stays in place. */
  lemma RunFromOne<W(!new)>(sys: System<W>, s: State<W>, i: nat, s1: State<W>)
    requires WellBehaved(sys) && s.Valid() && s.current == s.next && s.next in s.events
    requires i < |s.events[s.current]| && RunOne(sys, s, i) == (s1, i)
    ensures RunFrom(sys, s, i) == RunFrom(sys, s1, i + 1)
    ensures NeverInFront(sys, s, i) == NeverInFront(sys, s1, i + 1)
  {
    RunFromStep(sys, s, i);
    InFrontStep(sys, s, i);
  }

  lemma RunOneLater<W(!new)>(sys: System<W>, s: State<W>, i: nat)
    requires WellBehaved(sys) && StrictlyLater(sys) && s.Valid() && s.current == s.next && s.next in s.events
    requires i < |s.events[s.current]|
    ensures var (s1, j) := RunOne(sys, s, i); j == i && s1.events[s.current] == s.events[s.current]
  {
    AskedFacts(sys, s, i);
    LaterActionsKeepList(Handling(s, i, Asked(sys, s, i).0), Asked(sys, s, i).1, i);
  }

  lemma {:induction false} LaterActionsKeepList<W>(s: State<W>, acts: seq<Action>, i: nat)
    requires s.Valid() && s.current == s.next && s.next in s.events && i < |s.events[s.current]|
    requires AllPermitted(acts, s.current) && AllLater(acts, s.current)
    ensures var (r, j) := DoAll(s, acts, i); j == i && r.events[s.current] == s.events[s.current]
    decreases acts
  {
    if acts != [] {
      DoRunning(s, acts[0]);
      LaterActionsKeepList(Do(s, acts[0]), acts[1..], i);
    }
  }

  /** What a run appends to the trace is in time order and within the advanced interval. */
  ghost predicate Chronological(before: seq<Entry>, after: seq<Entry>, lo: nat, hi: nat) {
    && before <= after
    && (forall i | |before| <= i < |after| :: lo <= after[i].cycle <= hi)
    && (forall i, j | |before| <= i <= j < |after| :: after[i].cycle <= after[j].cycle)
  }

  /** Everything appended was run at cycle `t`, `d` after the last cycle. */
  ghost predicate RanAt(before: seq<Entry>, after: seq<Entry>, t: nat, d: nat) {
    before <= after && forall i | |before| <= i < |after| :: after[i].cycle == t && after[i].elapsed == d
  }

  lemma {:induction false} RunFromTrace<W(!new)>(sys: System<W>, s: State<W>, i: nat)
    requires WellBehaved(sys) && s.Valid() && s.current == s.next && s.next in s.events
    requires i <= |s.events[s.current]|
    ensures RanAt(s.trace, RunFrom(sys, s, i).trace, s.current, s.next - s.last)
    ensures i < |s.events[s.current]| ==> |s.trace| < |RunFrom(sys, s, i).trace|
    decreases |s.events[s.current]| - i + sys.rank(s.world, s.current)
  {
    if i < |s.events[s.current]| {
      var (s1, j) := RunOne(sys, s, i);
      RanAtOne(s.trace, s.current, s.events[s.current][i], s.next - s.last);
      RunFromTrace(sys, s1, j + 1);
      RunFromStep(sys, s, i);
      RanAtStep(s.trace, s1.trace, RunFrom(sys, s1, j + 1).trace, s.current, s.next - s.last);
    }
  }

  lemma RanAtOne(a: seq<Entry>, t: nat, e: Event, d: nat)
    ensures RanAt(a, a + [Entry(t, e, d)], t, d) && |a| < |a + [Entry(t, e, d)]|
  {
  }

  lemma RanAtStep(a: seq<Entry>, b: seq<Entry>, c: seq<Entry>, t: nat, d: nat)
    requires RanAt(a, b, t, d) && RanAt(b, c, t, d)
    ensures RanAt(a, c, t, d) && (|a| < |b| ==> |a| < |c|)
  {
    assert forall i | |a| <= i < |b| :: c[i] == b[i];
  }

  /** Every event runs at the cycle it was scheduled for, in time order, and nothing due is left. */
  lemma {:induction false} AdvanceIsChronological<W(!new)>(sys: System<W>, s: State<W>, t: nat)
    requires WellBehaved(sys) && s.Valid() && s.current <= t < MAX
    ensures Chronological(s.trace, Advance(sys, s, t).trace, s.next, t)
    ensures forall k <- Advance(sys, s, t).events :: t < k
    decreases t + 1 - s.next
  {
    if s.next <= t {
      var s0 := s.(current := s.next);
      var s1 := Process(sys, s0);
      RunFromTrace(sys, s0, 0);
      AdvanceIsChronological(sys, s1, t);
      ChronologicalStep(s.trace, s1.trace, Advance(sys, s1, t).trace, s.next, s.next - s.last, s1.next, t);
    }
  }

  lemma ChronologicalStep(a: seq<Entry>, b: seq<Entry>, c: seq<Entry>, lo: nat, d: nat, mid: nat, hi: nat)
    requires RanAt(a, b, lo, d) && Chronological(b, c, mid, hi) && lo <= mid && lo <= hi
    ensures Chronological(a, c, lo, hi)
  {
    assert forall i | |a| <= i < |b| :: c[i] == b[i];
  }

  // ------------------------------------------------------------------ elapsed time

  /** The last cycle before cycle `c` that the entries from `from` up to `i` were run in; `start` when
      there is none. */
  function CycleBefore(tr: seq<Entry>, from: nat, i: nat, start: nat, c: nat): nat
    requires i <= |tr|
  {
    if i <= from then start else if tr[i - 1].cycle < c then tr[i - 1].cycle else CycleBefore(tr, from, i - 1, start, c)
  }

  /** Each handler was given the time since the last earlier cycle in which an event was run. */
  ghost predicate ElapsedOk(before: seq<Entry>, after: seq<Entry>, start: nat) {
    before <= after && forall i | |before| <= i < |after| ::
      after[i].elapsed == after[i].cycle - CycleBefore(after, |before|, i, start, after[i].cycle)
  }

  /** The cycle of the last entry that was appended; `start` when none was. */
  function LastRun(before: seq<Entry>, after: seq<Entry>, start: nat): nat {
    if |before| < |after| then after[|after| - 1].cycle else start
  }

  lemma {:induction false} BeforeInBlock(tr: seq<Entry>, from: nat, i: nat, start: nat, c: nat)
    requires i <= |tr| && forall j | from <= j < i :: tr[j].cycle == c
    ensures CycleBefore(tr, from, i, start, c) == start
    decreases i
  {
    if i > from { BeforeInBlock(tr, from, i - 1, start, c); }
  }

  lemma {:induction false} BeforeAcross(tr: seq<Entry>, from: nat, mid: nat, i: nat, start: nat, t: nat, c: nat)
    requires from < mid <= i <= |tr| && tr[mid - 1].cycle == t < c
    ensures CycleBefore(tr, from, i, start, c) == CycleBefore(tr, mid, i, t, c)
    decreases i
  {
    if i > mid && tr[i - 1].cycle >= c { BeforeAcross(tr, from, mid, i - 1, start, t, c); }
  }

  lemma ElapsedStep(a: seq<Entry>, b: seq<Entry>, c: seq<Entry>, start: nat, t: nat)
    requires start <= t && RanAt(a, b, t, t - start) && |a| < |b| && ElapsedOk(b, c, t)
    requires forall i | |b| <= i < |c| :: t < c[i].cycle
    ensures ElapsedOk(a, c, start) && LastRun(a, c, start) == LastRun(b, c, t)
  {
    assert forall i | |a| <= i < |b| :: c[i] == b[i];
    forall i | |a| <= i < |c| ensures c[i].elapsed == c[i].cycle - CycleBefore(c, |a|, i, start, c[i].cycle) {
      if i < |b| {
        BeforeInBlock(c, |a|, i, start, t);
      } else {
        BeforeAcross(c, |a|, |b|, i, start, t, c[i].cycle);
      }
    }
  }

  /** Over every advance, each handler is given the time since the last earlier cycle in which an
      event was run, and the queue remembers the last of those cycles. */
  lemma {:induction false} ElapsedTimes<W(!new)>(sys: System<W>, s: State<W>, t: nat)
    requires WellBehaved(sys) && s.Valid() && s.current <= t < MAX
    ensures
      var r := Advance(sys, s, t);
      ElapsedOk(s.trace, r.trace, s.last) && r.last == LastRun(s.trace, r.trace, s.last)
    decreases t + 1 - s.next
  {
    if s.next <= t {
      var s0 := s.(current := s.next);
      var s1 := Process(sys, s0);
      RunFromTrace(sys, s0, 0);
      ElapsedTimes(sys, s1, t);
      AdvanceIsChronological(sys, s1, t);
      ElapsedStep(s.trace, s1.trace, Advance(sys, s1, t).trace, s.last, s.next);
    }
  }

  // A system whose handlers write down what they are given.

  ghost predicate Logs<W(!new)>(sys: System<(W, seq<Entry>)>) {
    forall w, e, now: nat, delta: nat {:trigger sys.handle(w, e, now, delta)} ::
      sys.handle(w, e, now, delta).0.1 == w.1 + [Entry(now, e, delta)]
  }

  lemma RunOneLogs<W(!new)>(sys: System<(W, seq<Entry>)>, s: State<(W, seq<Entry>)>, i: nat)
    requires WellBehaved(sys) && Logs(sys) && s.Valid() && s.current == s.next && s.next in s.events
    requires i < |s.events[s.current]| && s.world.1 == s.trace
    ensures var r := RunOne(sys, s, i).0; r.world.1 == r.trace
  {
    AskedFacts(sys, s, i);
    assert Asked(sys, s, i) == sys.handle(s.world, s.events[s.current][i], s.current, s.next - s.last);
  }

  lemma {:induction false} RunFromLogs<W(!new)>(sys: System<(W, seq<Entry>)>, s: State<(W, seq<Entry>)>, i: nat)
    requires WellBehaved(sys) && Logs(sys) && s.Valid() && s.current == s.next && s.next in s.events
    requires i <= |s.events[s.current]| && s.world.1 == s.trace
    ensures var r := RunFrom(sys, s, i); r.world.1 == r.trace
    decreases |s.events[s.current]| - i + sys.rank(s.world, s.current)
  {
    if i < |s.events[s.current]| {
      RunOneLogs(sys, s, i);
      RunFromLogs(sys, RunOne(sys, s, i).0, RunOne(sys, s, i).1 + 1);
    }
  }

  /** The trace is what the handlers are given: event, cycle and elapsed time, in the order of their
      calls. */
  lemma {:induction false} HandlersSeeTheTrace<W(!new)>(sys: System<(W, seq<Entry>)>, s: State<(W, seq<Entry>)>, t: nat)
    requires WellBehaved(sys) && Logs(sys) && s.Valid() && s.current <= t < MAX && s.world.1 == s.trace
    ensures var r := Advance(sys, s, t); r.world.1 == r.trace
    decreases t + 1 - s.next
  {
    if s.next <= t {
      var s0 := s.(current := s.next);
      RunFromLogs(sys, s0, 0);
      HandlersSeeTheTrace(sys, Process(sys, s0), t);
    }
  }

  // ------------------------------------------------------------------ order within a cycle

  ghost predicate Sorted(l: seq<Event>) {
    forall i, j | 0 <= i < j < |l| :: l[i].priority <= l[j].priority
  }

  /** Inserting with argument `p` an event that stores another priority (as `InsertEvent` by
      type does, which stores the default) keeps a list sorted exactly when the stored priority
      fits between the neighbours of the insertion point. */
  lemma InsertSorted(l: seq<Event>, e: Event, p: int)
    requires Sorted(l)
    ensures var k := InsertPos(l, p);
      Sorted(Inserted(l, e, p)) <==>
      (k > 0 ==> l[k - 1].priority <= e.priority) && (k < |l| ==> e.priority <= l[k].priority)
  {
    var k, r := InsertPos(l, p), Inserted(l, e, p);
    InsertedIs(l, e, p);
    assert forall i {:trigger r[i]} | 0 <= i < |r| :: r[i] == At(l, e, k, i);
    assert r[k] == e && (k > 0 ==> r[k - 1] == l[k - 1]) && (k < |l| ==> r[k + 1] == l[k]);
  }

  /** Element `i` of a list with `e` inserted at position `k`. */
  function At(l: seq<Event>, e: Event, k: nat, i: nat): Event
    requires k <= |l| && i <= |l|
  {
    if i < k then l[i] else if i == k then e else l[i - 1]
  }

  lemma InsertedIs(l: seq<Event>, e: Event, p: int)
    ensures |Inserted(l, e, p)| == |l| + 1
    ensures forall i {:trigger Inserted(l, e, p)[i]} | 0 <= i <= |l| ::
      Inserted(l, e, p)[i] == At(l, e, InsertPos(l, p), i)
  {
  }

  /** It can fail: a transaction wake-up is inserted with priority 30 but stores 0, which puts it
      behind a refresh callback. */
  lemma StoredPriorityUnsorts()
    ensures Sorted([Event(0, 20)]) && !Sorted(Inserted([Event(0, 20)], Event(1, 0), 30))
  {
    var l := [Event(0, 20)];
    assert InsertPos(l, 30) == 1 + InsertPos(l[1..], 30);
    InsertedIs(l, Event(1, 0), 30);
    assert Inserted(l, Event(1, 0), 30)[0].priority > Inserted(l, Event(1, 0), 30)[1].priority;
  }

  /** A callback stores the priority it is inserted with: the list stays sorted, and the callback
      goes behind every event of the same priority. */
  lemma CallbackIsStable(l: seq<Event>, e: Event)
    requires Sorted(l)
    ensures Sorted(Inserted(l, e, e.priority))
    ensures var k := InsertPos(l, e.priority);
      && Inserted(l, e, e.priority)[k] == e
      && (forall i | 0 <= i < |l| :: l[i].priority <= e.priority <==> i < k)
  {
    InsertSorted(l, e, e.priority);
  }

  // Callbacks below every other priority run first.
  ghost predicate FrontBlock(l: seq<Event>, low: int) {
    && (forall i | 0 <= i < |l| :: low <= l[i].priority)
    && (forall i, j | 0 <= i < j < |l| && l[j].priority == low :: l[i].priority == low)
  }

  /** Whatever else is inserted, with whatever stored priority above `low`, the events of
      priority `low` stay in front of all others. */
  lemma FrontBlockKept(l: seq<Event>, e: Event, p: int, low: int)
    requires FrontBlock(l, low)
    requires (p == e.priority == low) || (p > low && e.priority > low)
    ensures FrontBlock(Inserted(l, e, p), low)
  {
    InsertedIs(l, e, p);
  }

  // ------------------------------------------------------------------ insertions in front

  /** An event that a handler inserts in front of the one that is running is erased unrun: here the
      handler of an event of priority 40 inserts one of priority 0 into the same cycle, once. */
  function OnceInFront(): System<bool> {
    System(
      (fresh_: bool, e: Event, now: nat, delta: nat) =>
        if fresh_ && now < MAX then (false, [Insert(Event(1, 0), now, 0)]) else (fresh_, []),
      (fresh_: bool, now: nat) => if fresh_ then 1 else 0)
  }

  lemma InsertedInFrontIsLost()
    ensures WellBehaved(OnceInFront())
    ensures var s := State(map[5 := [Event(0, 40)]], 5, 0, 5, true, []);
      && s.Valid() && !NeverInFront(OnceInFront(), s, 0)
      && RunFrom(OnceInFront(), s, 0).events[5] == [Event(1, 0), Event(0, 40)]
      && Process(OnceInFront(), s).trace == [Entry(5, Event(0, 40), 5)] && Process(OnceInFront(), s).events == map[]
  {
    var sys := OnceInFront();
    OnceIsWellBehaved();
    var l := [Event(0, 40)];
    var s := State(map[5 := l], 5, 0, 5, true, []);
    var a := Insert(Event(1, 0), 5, 0);
    var s0 := s.(world := false, trace := s.trace + [Entry(5, l[0], 5)]);
    assert sys.handle(true, l[0], 5, 5) == (false, [a]);
    assert InsertPos(l, 0) == 0 && Inserted(l, Event(1, 0), 0) == [Event(1, 0), Event(0, 40)];
    var s1 := Do(s0, a);
    assert s1.events[5] == [Event(1, 0), Event(0, 40)];
    DoOne(s0, a, 0);
    assert RunOne(sys, s, 0) == (s1, 1);
    assert RunFrom(sys, s1, 2) == s1;
    assert RunFrom(sys, s, 0) == s1;
    assert s1.events - {5} == map[];
  }

  lemma OnceIsWellBehaved()
    ensures WellBehaved(OnceInFront())
  {
    var sys := OnceInFront();
    forall w, e, now: nat, delta: nat
      ensures var (w', acts) := sys.handle(w, e, now, delta);
        AllPermitted(acts, now) && SameCycle(acts, now) + sys.rank(w', now) <= sys.rank(w, now)
    {
      var (_, acts) := sys.handle(w, e, now, delta);
      if acts != [] { assert acts[1..] == [] && SameCycle(acts[1..], now) == 0 && AllPermitted(acts[1..], now); }
    }
  }

  lemma DoOne<W>(s: State<W>, a: Action, i: nat)
    requires s.Valid() && s.current == s.next && s.next in s.events && i < |s.events[s.current]|
    requires Permitted(a, s.current)
    ensures DoAll(s, [a], i) == (Do(s, a), Shift(s, a, i))
  {
    DoRunning(s, a);
    assert [a][1..] == [];
  }

  /** An action of the running event that the caller can tell stays behind it: an insertion into
      the running cycle stores its argument as its priority, and that is not below the priority of
      the running event. */
  predicate Behind(a: Action, now: nat, running: int) {
    a.Insert? && a.when == now ==> a.event.priority == a.priority && a.priority >= running
  }

  /** Insertions into the running cycle store the priority they are inserted with. */
  predicate StoresArgument(a: Action, now: nat) {
    a.Insert? && a.when == now ==> a.event.priority == a.priority
  }

  predicate AllBehind(acts: seq<Action>, now: nat, running: int) {
    acts == [] || (Behind(acts[0], now, running) && AllBehind(acts[1..], now, running))
  }

  predicate AllStore(acts: seq<Action>, now: nat) {
    acts == [] || (StoresArgument(acts[0], now) && AllStore(acts[1..], now))
  }

  ghost predicate Running<W>(s: State<W>, i: nat) {
    s.Valid() && s.current == s.next && s.next in s.events && i < |s.events[s.current]|
  }

  /** On a sorted list an action goes in front exactly when its priority is below the running
      event's; the list stays sorted if the priority is stored. */
  lemma InFrontIff<W>(s: State<W>, a: Action, i: nat)
    requires Running(s, i) && Sorted(s.events[s.current]) && Permitted(a, s.current) && StoresArgument(a, s.current)
    ensures Shift(s, a, i) == i <==> Behind(a, s.current, s.events[s.current][i].priority)
    ensures s.current in Do(s, a).events && Sorted(Do(s, a).events[s.current])
    ensures Shift(s, a, i) == i ==>
      i < |Do(s, a).events[s.current]| && Do(s, a).events[s.current][i] == s.events[s.current][i]
  {
    DoRunning(s, a);
    var l := s.events[s.current];
    if a.Insert? && a.when == s.current {
      InsertedIs(l, a.event, a.priority);
      InsertSorted(l, a.event, a.priority);
    }
  }

  /** The actions of a handler leave the running event in place exactly when each stays behind. */
  lemma {:induction false} AllBehindIff<W>(s: State<W>, acts: seq<Action>, i: nat)
    requires Running(s, i) && Sorted(s.events[s.current])
    requires AllPermitted(acts, s.current) && AllStore(acts, s.current)
    ensures var (r, j) := DoAll(s, acts, i); var p := s.events[s.current][i].priority;
      (j == i <==> AllBehind(acts, s.current, p)) && (j == i ==> Sorted(r.events[s.current]))
    decreases acts
  {
    if acts != [] {
      DoRunning(s, acts[0]);
      InFrontIff(s, acts[0], i);
      var s1, k := Do(s, acts[0]), Shift(s, acts[0], i);
      if k == i { AllBehindIff(s1, acts[1..], i); }
    }
  }

  /** What a handler does stays behind its event, for all worlds, events and times. */
  ghost predicate Polite<W(!new)>(sys: System<W>) {
    forall w, e, now: nat, delta: nat {:trigger sys.handle(w, e, now, delta)} | delta <= now < MAX ::
      AllBehind(sys.handle(w, e, now, delta).1, now, e.priority)
  }

  ghost predicate StoresArguments<W(!new)>(sys: System<W>) {
    forall w, e, now: nat, delta: nat {:trigger sys.handle(w, e, now, delta)} ::
      AllStore(sys.handle(w, e, now, delta).1, now)
  }

  lemma HandlerFacts<W(!new)>(sys: System<W>, w: W, e: Event, now: nat, delta: nat)
    requires WellBehaved(sys) && StoresArguments(sys)
    ensures var acts := sys.handle(w, e, now, delta).1; AllPermitted(acts, now) && AllStore(acts, now)
  {
    var (_, acts) := sys.handle(w, e, now, delta);
  }

  /** One handler on a sorted list. */
  lemma RunOneBehind<W(!new)>(sys: System<W>, s: State<W>, i: nat)
    requires WellBehaved(sys) && StoresArguments(sys) && Running(s, i) && Sorted(s.events[s.current])
    ensures var (r, j) := RunOne(sys, s, i);
      && (j == i <==> AllBehind(Asked(sys, s, i).1, s.current, s.events[s.current][i].priority))
      && (j == i ==> Sorted(r.events[s.current]))
  {
    AskedFacts(sys, s, i);
    HandlerFacts(sys, s.world, s.events[s.current][i], s.current, s.next - s.last);
    AllBehindIff(Handling(s, i, Asked(sys, s, i).0), Asked(sys, s, i).1, i);
  }

  lemma {:induction false} PoliteStaysBehind<W(!new)>(sys: System<W>, s: State<W>, i: nat)
    requires WellBehaved(sys) && StoresArguments(sys) && Polite(sys)
    requires s.Valid() && s.current == s.next && s.next in s.events && i <= |s.events[s.current]|
    requires Sorted(s.events[s.current])
    ensures NeverInFront(sys, s, i)
    decreases |s.events[s.current]| - i + sys.rank(s.world, s.current)
  {
    if i < |s.events[s.current]| {
      RunOneBehind(sys, s, i);
      var (s1, j) := RunOne(sys, s, i);
      PoliteStaysBehind(sys, s1, i + 1);
    }
  }

  /** Every sorted cycle is run whole. */
  ghost predicate SortedCyclesRunWhole<W(!new)>(sys: System<W>)
    requires WellBehaved(sys)
  {
    forall s: State<W> {:trigger NeverInFront(sys, s, 0)}
      | s.Valid() && s.current == s.next && s.next in s.events && Sorted(s.events[s.current]) :: NeverInFront(sys, s, 0)
  }

  /** Exactly when: no handler inserts into its own cycle with a priority below that of its event.
      With `RunsWholeList` this is when no event of any sorted cycle is lost. */
  lemma PoliteIff<W(!new)>(sys: System<W>)
    requires WellBehaved(sys) && StoresArguments(sys)
    ensures SortedCyclesRunWhole(sys) <==> Polite(sys)
  {
    if Polite(sys) {
      forall s: State<W> | s.Valid() && s.current == s.next && s.next in s.events && Sorted(s.events[s.current])
        ensures NeverInFront(sys, s, 0)
      {
        PoliteStaysBehind(sys, s, 0);
      }
    }
    if SortedCyclesRunWhole(sys) {
      forall w, e, now: nat, delta: nat | delta <= now < MAX
        ensures AllBehind(sys.handle(w, e, now, delta).1, now, e.priority)
      {
        var s := State(map[now := [e]], now, now - delta, now, w, []);
        assert s.events[now] == [e] && s.events != map[] && s.Valid();
        RunOneBehind(sys, s, 0);
        assert NeverInFront(sys, s, 0);
      }
    }
  }
}
