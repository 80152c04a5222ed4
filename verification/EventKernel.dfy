/**
 The event queue object and the driver of several queues running at different clock
 frequencies. Every method is proved against the value-level account in `EventQueues`.
 */
module EventKernel {
  import opened EventQueues

  class EventQueue<W(!new)> {
    const sys: System<W>
    var eventMap: map<nat, seq<Event>>
    var nextEventCycle: nat
    var lastEventCycle: nat
    var currentCycle: nat
    var world: W
    ghost var trace: seq<Entry>

    ghost function View(): State<W>
      reads this
    {
      State(eventMap, nextEventCycle, lastEventCycle, currentCycle, world, trace)
    }

    ghost predicate Valid()
      reads this
    {
      WellBehaved(sys) && View().Valid()
    }

    constructor (sys: System<W>, world: W)
      requires WellBehaved(sys)
      ensures Valid() && this.sys == sys
      ensures View() == State(map[], MAX, 0, 0, world, [])
    {
      this.sys, this.world := sys, world;
      eventMap, nextEventCycle, lastEventCycle, currentCycle, trace := map[], MAX, 0, 0, [];
    }

    method InsertEvent(event: Event, when: nat, priority: int)
      modifies this
      ensures View() == DoInsert(old(View()), event, when, priority)
    {
      if when < nextEventCycle {
        nextEventCycle := when;
      }
      if when !in eventMap {
        eventMap := eventMap[when := [event]];
      } else {
        var eventList := eventMap[when];
        var it := 0;
        while it < |eventList| && eventList[it].priority <= priority
          invariant it <= |eventList|
          invariant InsertPos(eventList, priority) == it + InsertPos(eventList[it..], priority)
        {
          it := it + 1;
        }
        eventMap := eventMap[when := eventList[..it] + [event] + eventList[it..]];
      }
    }

    /** A callback stores the priority it is inserted with. */
    method InsertCallback(id: nat, when: nat, priority: int)
      modifies this
      ensures View() == DoInsert(old(View()), Event(id, priority), when, priority)
    {
      InsertEvent(Event(id, priority), when, priority);
    }

    method RemoveEvent(event: Event, when: nat) returns (found: bool)
      requires Valid()
      modifies this
      ensures View() == DoRemove(old(View()), event, when)
      ensures found <==> when in old(eventMap) && event in old(eventMap)[when]
    {
      found := false;
      if when in eventMap {
        var eventList := eventMap[when];
        var it := Find(eventList, event);
        if it < |eventList| {
          found := true;
          var rest := eventList[..it] + eventList[it + 1..];
          eventMap := if rest == [] then eventMap - {when} else eventMap[when := rest];
        } else {
          assert eventMap[when := eventList] == eventMap;
        }
        nextEventCycle := LeastKey(eventMap);
      }
    }

    /** The position of an event in a list, or the length of the list. */
    static method Find(eventList: seq<Event>, event: Event) returns (it: nat)
      ensures it <= |eventList| && (it < |eventList| <==> event in eventList)
      ensures event !in eventList[..it] && (it < |eventList| ==> eventList[it] == event)
      ensures Removed(eventList, event) == if it < |eventList| then eventList[..it] + eventList[it + 1..] else eventList
    {
      it := 0;
      while it < |eventList| && eventList[it] != event
        invariant it <= |eventList|
        invariant event !in eventList[..it]
        invariant Removed(eventList, event) == eventList[..it] + Removed(eventList[it..], event)
      {
        it := it + 1;
      }
      if it < |eventList| {
        assert eventList[it..][1..] == eventList[it + 1..];
      } else {
        assert eventList[..it] == eventList;
      }
    }

    method Process()
      requires Valid() && currentCycle == nextEventCycle && nextEventCycle in eventMap
      modifies this
      ensures Valid() && View() == EventQueues.Process(sys, old(View()))
    {
      RunList();
      eventMap := eventMap - {nextEventCycle};
      lastEventCycle := nextEventCycle;
      nextEventCycle := LeastKey(eventMap);
    }

    /** Runs the events of the current cycle, those that handlers append to the list included. */
    method RunList()
      requires Valid() && currentCycle == nextEventCycle && nextEventCycle in eventMap
      modifies this
      ensures View() == RunFrom(sys, old(View()), 0)
    {
      var it: nat := 0;
      ghost var finally := RunFrom(sys, View(), 0);
      while it < |eventMap[nextEventCycle]|
        invariant nextEventCycle in eventMap && Leads(sys, View(), it, finally)
        decreases |eventMap[nextEventCycle]| - it + sys.rank(world, currentCycle)
      {
        it := RunEvent(it, finally);
      }
    }

    /** Runs the handler of one event and performs what it asks for; `j` is the next position. */
    method RunEvent(i: nat, ghost finally: State<W>) returns (j: nat)
      requires nextEventCycle in eventMap && Leads(sys, View(), i, finally) && i < |eventMap[nextEventCycle]|
      modifies this
      ensures nextEventCycle in eventMap && Leads(sys, View(), j, finally)
      ensures |eventMap[nextEventCycle]| - j + sys.rank(world, currentCycle)
        < old(|eventMap[nextEventCycle]| - i + sys.rank(world, currentCycle))
    {
      var event := eventMap[nextEventCycle][i];
      var (w, acts) := sys.handle(world, event, currentCycle, nextEventCycle - lastEventCycle);
      ghost var s := View();
      AskedFacts(sys, s, i);
      assert (w, acts) == Asked(sys, s, i);
      world := w;
      trace := trace + [Entry(currentCycle, event, nextEventCycle - lastEventCycle)];
      j := PerformAll(acts, i);
      LeadsOn(sys, s, i, finally, View(), j);
      j := j + 1;
    }

    /** Performs the actions of the running handler one at a time. */
    method PerformAll(acts: seq<Action>, i: nat) returns (j: nat)
      requires Valid() && currentCycle == nextEventCycle && nextEventCycle in eventMap && i < |eventMap[currentCycle]|
      requires AllPermitted(acts, currentCycle)
      modifies this
      ensures (View(), j) == DoAll(old(View()), acts, i)
    {
      j := i;
      ghost var s0 := View();
      var k := 0;
      while k < |acts|
        invariant k <= |acts|
        invariant Valid() && currentCycle == nextEventCycle == s0.current && nextEventCycle in eventMap
        invariant j < |eventMap[currentCycle]|
        invariant AllPermitted(acts[k..], currentCycle)
        invariant DoAll(View(), acts[k..], j) == DoAll(s0, acts, i)
      {
        assert acts[k..][0] == acts[k] && acts[k..][1..] == acts[k + 1..];
        j := Perform(acts[k], j);
        k := k + 1;
      }
    }

    /** One insertion or removal by the running handler; `j` is where the iterator then stands. */
    method Perform(a: Action, i: nat) returns (j: nat)
      requires Valid() && currentCycle == nextEventCycle && nextEventCycle in eventMap
      requires Permitted(a, currentCycle) && i < |eventMap[currentCycle]|
      modifies this
      ensures Valid() && View() == Do(old(View()), a) && j == Shift(old(View()), a, i)
      ensures currentCycle == nextEventCycle == old(currentCycle) && nextEventCycle in eventMap
      ensures j < |eventMap[currentCycle]|
    {
      DoRunning(View(), a);
      j := i;
      match a {
        case Insert(e, when, p) =>
          if when == currentCycle && InsertPos(eventMap[currentCycle], p) <= j {
            j := j + 1;
          }
          InsertEvent(e, when, p);
        case Remove(e, when) =>
          var _ := RemoveEvent(e, when);
      }
    }

    /** `Loop( )`: one cycle. */
    method Loop()
      requires Valid() && currentCycle + 1 < MAX
      modifies this
      ensures Valid() && View() == Step(sys, old(View()))
    {
      if nextEventCycle == currentCycle {
        Process();
      }
      currentCycle := currentCycle + 1;
    }

    /** `Loop( steps )`: jumps from event to event. */
    method LoopSteps(steps: nat)
      requires Valid() && currentCycle + steps < MAX
      modifies this
      ensures Valid() && View() == Advance(sys, old(View()), old(currentCycle) + steps)
    {
      if steps == 0 && nextEventCycle == currentCycle {
        Process();
        return;
      }
      ghost var target := currentCycle + steps;
      ghost var finally := Advance(sys, View(), target);
      var stepCycles: nat := steps;
      while stepCycles > 0
        invariant Reaches(sys, View(), target, finally) && currentCycle + stepCycles == target
        invariant stepCycles == 0 ==> currentCycle < nextEventCycle
        decreases stepCycles, if nextEventCycle == currentCycle then 1 else 0
      {
        if nextEventCycle > currentCycle + stepCycles {
          currentCycle := currentCycle + stepCycles;
          return;
        }
        ReachesOn(sys, View(), target, finally);
        var currentSteps := nextEventCycle - currentCycle;
        currentCycle := currentCycle + currentSteps;
        stepCycles := stepCycles - currentSteps;
        Process();
      }
      assert View() == View().(current := target);
    }
  }

  /** Advancing to cycle `t` ends in `r`. */
  ghost predicate Reaches<W(!new)>(sys: System<W>, s: State<W>, t: nat, r: State<W>) {
    WellBehaved(sys) && s.Valid() && s.current <= t < MAX && Advance(sys, s, t) == r
  }

  lemma ReachesOn<W(!new)>(sys: System<W>, s: State<W>, t: nat, r: State<W>)
    requires Reaches(sys, s, t, r) && s.next <= t
    ensures s.next in s.events && Reaches(sys, Process(sys, s.(current := s.next)), t, r)
  {
  }

  /** Running the current cycle from position `i` on ends in `r`. */
  ghost predicate Leads<W(!new)>(sys: System<W>, s: State<W>, i: nat, r: State<W>) {
    && WellBehaved(sys) && s.Valid() && s.current == s.next && s.next in s.events && i <= |s.events[s.current]|
    && RunFrom(sys, s, i) == r
  }

  lemma LeadsOn<W(!new)>(sys: System<W>, s: State<W>, i: nat, r: State<W>, s1: State<W>, j: nat)
    requires Leads(sys, s, i, r) && i < |s.events[s.current]| && (s1, j) == RunOne(sys, s, i)
    ensures Leads(sys, s1, j + 1, r) && s1.current == s.current
    ensures |s1.events[s.current]| - j + sys.rank(s1.world, s.current)
         <= |s.events[s.current]| - i + sys.rank(s.world, s.current)
  {
  }
}
