/**
 The driver of several event queues with different clock frequencies. Frequencies are exact
 positive integers (in Hz); a queue of frequency f under a global frequency F >= f has ratio F/f.
 */
module ClockRatios {
  import opened Arithmetic

  /** How the local clock of a queue relates to the global one. */
  datatype Clock = Clock(toGlobal: nat -> nat, toLocal: nat -> nat)

  /** The clock of a queue of frequency `f` under the global frequency `F`, both exact. */
  function RatioClock(F: nat, f: nat): Clock
    requires 0 < f && 0 < F
  {
    Clock(c => ToGlobal(c, F, f), g => ToLocal(g, F, f))
  }

  // Names a cycle the facts of a sound clock are wanted for; it only steers the verifier.
  ghost predicate At(c: nat) { true }

  /** The clock is monotone, global time counts at least as fast as local time, and converting
      there and back never overtakes. */
  ghost predicate Sound(k: Clock) {
    && (forall c, d {:trigger At(c), At(d)} | c <= d :: k.toGlobal(c) <= k.toGlobal(d))
    && (forall c: nat {:trigger At(c)} :: c <= k.toGlobal(c) && k.toLocal(c) <= c && k.toGlobal(k.toLocal(c)) <= c)
  }

  /** The global cycle of local cycle `c`. */
  function ToGlobal(c: nat, F: nat, f: nat): nat
    requires 0 < f
  {
    (c * F) / f
  }

  /** The last local cycle a queue may have reached at global cycle `g`. */
  function ToLocal(g: nat, F: nat, f: nat): nat
    requires 0 < F
  {
    (g * f) / F
  }

  lemma DivLess(a: nat, d: nat, q: nat)
    requires 0 < d && a < (q + 1) * d
    ensures a / d <= q
  {
    if a / d >= q + 1 {
      MulLe(q + 1, a / d, d);
    }
  }

  lemma DivBounds(a: nat, d: nat)
    requires 0 < d
    ensures (a / d) * d <= a < (a / d + 1) * d
  {
  }

  lemma DivMonotone(a: nat, b: nat, d: nat)
    requires 0 < d && a <= b
    ensures a / d <= b / d
  {
    var q := b / d;
    assert a < (q + 1) * d by { DivBounds(b, d); }
    DivLess(a, d, q);
  }

  /** Both conversions round down: the local cycle is the last whose time is not after that of global
      cycle `g`, the global cycle the last whose time is not after that of local cycle `c`. */
  lemma ConversionsRoundDown(c: nat, g: nat, F: nat, f: nat)
    requires 0 < f && 0 < F
    ensures ToLocal(g, F, f) * F <= g * f < (ToLocal(g, F, f) + 1) * F
    ensures ToGlobal(c, F, f) * f <= c * F < (ToGlobal(c, F, f) + 1) * f
  {
    DivBounds(g * f, F);
    DivBounds(c * F, f);
  }

  /** The time of local cycle `c`, at frequency `f`, is not after that of global cycle `g`. */
  predicate NotAfter(c: nat, f: nat, g: nat, F: nat) { c * F < (g + 1) * f }

  /** The time of the next local cycle is after that of global cycle `g`. */
  predicate NextIsAfter(c: nat, f: nat, g: nat, F: nat) { g * f < (c + 1) * F }

  /** What the conversions say of a clock, in terms of the frequencies alone. */
  lemma ClockSkew(c: nat, g: nat, F: nat, f: nat)
    requires 0 < f && 0 < F
    ensures ToLocal(g, F, f) <= c ==> NextIsAfter(c, f, g, F)
    ensures ToGlobal(c, F, f) <= g <==> NotAfter(c, f, g, F)
  {
    ConversionsRoundDown(c, g, F, f);
    if ToLocal(g, F, f) <= c { MulLe(ToLocal(g, F, f) + 1, c + 1, F); }
    if ToGlobal(c, F, f) <= g { MulLe(ToGlobal(c, F, f) + 1, g + 1, f); } else { MulLe(g + 1, ToGlobal(c, F, f), f); }
  }

  /** Local time never overtakes the global time it was derived from. */
  lemma RoundTrip(g: nat, F: nat, f: nat)
    requires 0 < f && 0 < F
    ensures ToGlobal(ToLocal(g, F, f), F, f) <= g
  {
    DivBounds(g * f, F);
    DivLess(ToLocal(g, F, f) * F, f, g);
  }

  lemma ToGlobalMonotone(c: nat, d: nat, F: nat, f: nat)
    requires 0 < f && c <= d
    ensures ToGlobal(c, F, f) <= ToGlobal(d, F, f)
  {
    MulLe(c, d, F);
    DivMonotone(c * F, d * F, f);
  }

  /** A slower queue counts fewer cycles. */
  lemma SlowerCountsLess(c: nat, F: nat, f: nat)
    requires 0 < f <= F
    ensures c <= ToGlobal(c, F, f) && ToLocal(c, F, f) <= c
  {
    assert c * f <= c * F by { MulLe(f, F, c); }
    assert c * F < (c + 1) * F;
    DivLess(c * f, F, c);
    DivBounds(c * F, f);
    if ToGlobal(c, F, f) < c {
      MulLe(ToGlobal(c, F, f) + 1, c, f);
    }
  }

  lemma SoundClock(k: Clock, c: nat, d: nat)
    requires Sound(k)
    ensures c <= d ==> k.toGlobal(c) <= k.toGlobal(d)
    ensures c <= k.toGlobal(c) && k.toLocal(c) <= c && k.toGlobal(k.toLocal(c)) <= c
  {
    assert At(c) && At(d);
  }

  /** The clock of every queue no faster than the global clock is sound. */
  lemma RatioIsSound(F: nat, f: nat)
    requires 0 < f <= F
    ensures Sound(RatioClock(F, f))
  {
    var k := RatioClock(F, f);
    forall c: nat, d: nat | c <= d ensures k.toGlobal(c) <= k.toGlobal(d) {
      RatioFacts(F, f, c, d);
    }
    forall c: nat ensures c <= k.toGlobal(c) && k.toLocal(c) <= c && k.toGlobal(k.toLocal(c)) <= c {
      RatioFacts(F, f, c, c);
    }
  }

  lemma RatioFacts(F: nat, f: nat, c: nat, d: nat)
    requires 0 < f <= F && c <= d
    ensures var k := RatioClock(F, f);
      && k.toGlobal(c) <= k.toGlobal(d)
      && c <= k.toGlobal(c) && k.toLocal(c) <= c && k.toGlobal(k.toLocal(c)) <= c
  {
    ToGlobalMonotone(c, d, F, f);
    SlowerCountsLess(c, F, f);
    RoundTrip(c, F, f);
  }
}

module GlobalQueues {
  import opened EventQueues
  import opened EventKernel
  import opened ClockRatios

  // ------------------------------------------------------------------ termination measure

  function Sum(s: seq<nat>): nat {
    if s == [] then 0 else s[0] + Sum(s[1..])
  }

  lemma {:induction false} SumMonotone(a: seq<nat>, b: seq<nat>)
    requires |a| == |b| && forall i | 0 <= i < |a| :: a[i] <= b[i]
    ensures Sum(a) <= Sum(b)
    ensures (exists k | 0 <= k < |a| :: a[k] < b[k]) ==> Sum(a) < Sum(b)
  {
    if a != [] {
      SumMonotone(a[1..], b[1..]);
      if exists k | 0 <= k < |a| :: a[k] < b[k] {
        var k :| 0 <= k < |a| && a[k] < b[k];
        assert k > 0 ==> a[1..][k - 1] < b[1..][k - 1];
      }
    }
  }

  /** How far each queue may still run up to global cycle `end`, in total. */
  function Slack<W>(qs: seq<State<W>>, end: nat): nat {
    Sum(seq(|qs|, i requires 0 <= i < |qs| => if qs[i].next <= end then end + 1 - qs[i].next else 0))
  }

  lemma SlackDecreases<W>(a: seq<State<W>>, b: seq<State<W>>, k: nat, end: nat)
    requires |a| == |b| && k < |a| && a[k].next < b[k].next && a[k].next <= end
    requires forall i | 0 <= i < |a| :: a[i].next <= b[i].next
    ensures Slack(b, end) < Slack(a, end)
  {
    var x := seq(|b|, i requires 0 <= i < |b| => if b[i].next <= end then end + 1 - b[i].next else 0);
    var y := seq(|a|, i requires 0 <= i < |a| => if a[i].next <= end then end + 1 - a[i].next else 0);
    assert x[k] < y[k];
    SumMonotone(x, y);
  }

  // ------------------------------------------------------------------ one queue

  /** What the driver knows of one queue: its system, its clock. */
  datatype Member<!W> = Member(sys: System<W>, clock: Clock)

  /** The queue is in order and its clock is not ahead of the global clock `g`. */
  ghost predicate Ok<W(!new)>(m: Member<W>, q: State<W>, g: nat) {
    WellBehaved(m.sys) && Sound(m.clock) && q.Valid() && m.clock.toGlobal(q.current) <= g
  }

  /** The queue's clock is not behind the global clock. */
  predicate NotBehind<W>(m: Member<W>, q: State<W>, g: nat) {
    m.clock.toLocal(g) <= q.current
  }

  /** The queue holds no event that is due at global cycle `g`. */
  predicate NothingDue<W>(m: Member<W>, q: State<W>, g: nat) {
    q.next == MAX || m.clock.toGlobal(q.next) > g
  }

  /** `b` is on the run that `a` alone makes: from its clock on, the two cannot be told apart. */
  ghost predicate OnTrack<W(!new)>(sys: System<W>, a: State<W>, b: State<W>) {
    && WellBehaved(sys) && a.Valid() && b.Valid() && a.current <= b.current && a.next <= b.next
    && forall t {:trigger Advance(sys, b, t)} | b.current <= t < MAX :: Advance(sys, b, t) == Advance(sys, a, t)
  }

  /** `b` is exactly `a` run alone up to the clock of `b`. */
  ghost predicate RanAlone<W(!new)>(sys: System<W>, a: State<W>, b: State<W>) {
    WellBehaved(sys) && a.Valid() && a.current <= b.current < MAX && b == Advance(sys, a, b.current)
  }

  lemma OnTrackAdvance<W(!new)>(sys: System<W>, a: State<W>, t: nat)
    requires WellBehaved(sys) && a.Valid() && a.current <= t < MAX
    ensures OnTrack(sys, a, Advance(sys, a, t))
  {
    var b := Advance(sys, a, t);
    forall u | t <= u < MAX ensures Advance(sys, b, u) == Advance(sys, a, u) {
      AdvanceComposes(sys, a, t, u);
    }
  }

  lemma OnTrackSettled<W(!new)>(m: Member<W>, a: State<W>, b: State<W>, g: nat)
    requires OnTrack(m.sys, a, b) && Ok(m, b, g) && NothingDue(m, b, g) && g < MAX
    ensures RanAlone(m.sys, a, b)
  {
    SoundClock(m.clock, b.next, b.current);
    SoundClock(m.clock, b.current, 0);
    assert Advance(m.sys, b, b.current) == b.(current := b.current) == b;
  }

  /** One queue brought up to the global clock. */
  ghost function CaughtUp<W(!new)>(m: Member<W>, q: State<W>, g: nat): (r: State<W>)
    requires Ok(m, q, g) && g < MAX
    ensures Ok(m, r, g) && NotBehind(m, r, g) && OnTrack(m.sys, q, r)
    ensures NothingDue(m, q, g) ==> r.next == q.next
  {
    SoundClock(m.clock, g, 0);
    SoundClock(m.clock, q.next, m.clock.toLocal(g));
    if m.clock.toLocal(g) > q.current then
      OnTrackAdvance(m.sys, q, m.clock.toLocal(g));
      Advance(m.sys, q, m.clock.toLocal(g))
    else q
  }

  // ------------------------------------------------------------------ all queues

  ghost predicate AllOk<W(!new)>(ms: seq<Member<W>>, qs: seq<State<W>>, g: nat) {
    |ms| == |qs| && forall i {:trigger qs[i]} | 0 <= i < |qs| :: Ok(ms[i], qs[i], g)
  }

  ghost predicate AllOnTrack<W(!new)>(ms: seq<Member<W>>, a: seq<State<W>>, b: seq<State<W>>) {
    && |ms| == |a| == |b|
    && forall i {:trigger b[i]} | 0 <= i < |a| :: OnTrack(ms[i].sys, a[i], b[i])
  }

  lemma AllOnTrackTransitive<W(!new)>(ms: seq<Member<W>>, a: seq<State<W>>, b: seq<State<W>>, c: seq<State<W>>)
    requires AllOnTrack(ms, a, b) && AllOnTrack(ms, b, c)
    ensures AllOnTrack(ms, a, c)
  {
    forall i | 0 <= i < |a| ensures OnTrack(ms[i].sys, a[i], c[i]) {
      assert OnTrack(ms[i].sys, b[i], c[i]) && OnTrack(ms[i].sys, a[i], b[i]);
    }
  }

  /** `b` is `a` with every queue brought up to the global clock. */
  ghost predicate Synced<W(!new)>(ms: seq<Member<W>>, a: seq<State<W>>, b: seq<State<W>>, g: nat)
    requires AllOk(ms, a, g) && g < MAX
  {
    |a| == |b| && forall i {:trigger b[i]} | 0 <= i < |a| :: b[i] == CaughtUp(ms[i], a[i], g)
  }

  /** After syncing every clock is level, nothing has left its track, and a queue with nothing
      due has run nothing. */
  lemma SyncedFacts<W(!new)>(ms: seq<Member<W>>, a: seq<State<W>>, b: seq<State<W>>, g: nat)
    requires AllOk(ms, a, g) && g < MAX && Synced(ms, a, b, g)
    ensures AllOk(ms, b, g) && AllOnTrack(ms, a, b)
    ensures forall i | 0 <= i < |b| :: NotBehind(ms[i], b[i], g)
    ensures forall i | 0 <= i < |b| :: NothingDue(ms[i], a[i], g) ==> b[i].next == a[i].next
  {
    forall i | 0 <= i < |b|
      ensures Ok(ms[i], b[i], g) && OnTrack(ms[i].sys, a[i], b[i]) && NotBehind(ms[i], b[i], g)
      ensures NothingDue(ms[i], a[i], g) ==> b[i].next == a[i].next
    {
      assert b[i] == CaughtUp(ms[i], a[i], g);
    }
  }

  /** Running the next event of queue `k` and moving the global clock on keeps all in order. */
  lemma JumpFacts<W(!new)>(ms: seq<Member<W>>, a: seq<State<W>>, k: nat, g: nat, g': nat)
    requires AllOk(ms, a, g) && g <= g' < MAX && k < |a|
    requires a[k].next != MAX && ms[k].clock.toGlobal(a[k].next) <= g'
    ensures a[k].current <= a[k].next < MAX && WellBehaved(ms[k].sys) && a[k].Valid()
    ensures var b := a[k := Advance(ms[k].sys, a[k], a[k].next)];
      AllOk(ms, b, g') && AllOnTrack(ms, a, b) && a[k].next < b[k].next
  {
    assert Ok(ms[k], a[k], g);
    var b := a[k := Advance(ms[k].sys, a[k], a[k].next)];
    OnTrackAdvance(ms[k].sys, a[k], a[k].next);
    forall i | 0 <= i < |b| ensures Ok(ms[i], b[i], g') && OnTrack(ms[i].sys, a[i], b[i]) {
      assert Ok(ms[i], a[i], g);
    }
  }

  class GlobalEventQueue<W(!new)> {
    const queues: seq<EventQueue<W>>   // in the order of the map
    const frequency: nat
    const freqs: seq<nat>
    const clocks: seq<Clock>
    var currentCycle: nat

    ghost function Members(): (r: seq<Member<W>>)
      requires |clocks| == |queues|
      ensures |r| == |queues| && forall i | 0 <= i < |r| :: r[i] == Member(queues[i].sys, clocks[i])
    {
      seq(|queues|, i requires 0 <= i < |queues| == |clocks| => Member(queues[i].sys, clocks[i]))
    }

    ghost function Views(): (r: seq<State<W>>)
      reads queues
      ensures |r| == |queues|
      ensures forall i {:trigger queues[i]} {:trigger r[i]} | 0 <= i < |queues| :: r[i] == queues[i].View()
    {
      seq(|queues|, i requires 0 <= i < |queues| reads queues => queues[i].View())
    }

    /** No queue is faster than the global clock, and the clocks follow from the frequencies. */
    ghost predicate Rated() {
      && |freqs| == |clocks| && (forall i | 0 <= i < |freqs| :: 0 < freqs[i] <= frequency)
      && forall i | 0 <= i < |clocks| :: clocks[i] == RatioClock(frequency, freqs[i])
    }

    /** Queue `i` is level with the global clock: it has not passed it, its next cycle would, and it
        holds no event that is due. Only the frequencies count. */
    ghost predicate Level(i: nat)
      requires i < |queues| && i < |freqs|
      reads this, queues
    {
      && NotAfter(queues[i].currentCycle, freqs[i], currentCycle, frequency)
      && NextIsAfter(queues[i].currentCycle, freqs[i], currentCycle, frequency)
      && (queues[i].nextEventCycle == MAX || !NotAfter(queues[i].nextEventCycle, freqs[i], currentCycle, frequency))
    }

    /** The queues are distinct objects, in order, and none is ahead of the global clock. */
    ghost predicate Valid()
      reads this, queues
    {
      && |clocks| == |queues| && currentCycle < MAX && Rated()
      && (forall i, j | 0 <= i < j < |queues| :: queues[i] != queues[j])
      && AllOk(Members(), Views(), currentCycle)
    }

    constructor (frequency: nat, queues: seq<EventQueue<W>>, freqs: seq<nat>)
      requires |freqs| == |queues|
      requires forall i, j | 0 <= i < j < |queues| :: queues[i] != queues[j]
      requires forall i | 0 <= i < |queues| ::
        0 < freqs[i] <= frequency && queues[i].Valid() && queues[i].currentCycle == 0
      ensures Valid() && currentCycle == 0
      ensures this.queues == queues && this.frequency == frequency && this.freqs == freqs
    {
      this.queues, this.frequency, this.freqs := queues, frequency, freqs;
      this.clocks := seq(|queues|, i requires 0 <= i < |queues| => RatioClock(frequency, freqs[i]));
      currentCycle := 0;
      new;
      forall i | 0 <= i < |queues| ensures Ok(Members()[i], Views()[i], 0) {
        RatioIsSound(frequency, freqs[i]);
        assert ToGlobal(0, frequency, freqs[i]) == 0;
      }
    }

    /** The earliest pending event over all queues, in global cycles, and its queue; the first
        in map order among equals. Events whose global cycle is not representable are skipped. */
    method GetNextEvent() returns (next: nat, which: nat)
      requires |clocks| == |queues|
      ensures Rated() && which < |queues| ==>
        next * freqs[which] <= queues[which].nextEventCycle * frequency < (next + 1) * freqs[which]
      ensures next <= MAX && which <= |queues| && (which == |queues| <==> next == MAX)
      ensures which < |queues| ==>
        queues[which].nextEventCycle != MAX && next == clocks[which].toGlobal(queues[which].nextEventCycle)
      ensures forall i | 0 <= i < |queues| ::
        queues[i].nextEventCycle == MAX || clocks[i].toGlobal(queues[i].nextEventCycle) >= next
    {
      next, which := FirstEvent();
      if Rated() && which < |queues| {
        ConversionsRoundDown(queues[which].nextEventCycle, 0, frequency, freqs[which]);
      }
    }

    method FirstEvent() returns (next: nat, which: nat)
      requires |clocks| == |queues|
      ensures next <= MAX && which <= |queues| && (which == |queues| <==> next == MAX)
      ensures which < |queues| ==>
        queues[which].nextEventCycle != MAX && next == clocks[which].toGlobal(queues[which].nextEventCycle)
      ensures forall i | 0 <= i < |queues| ::
        queues[i].nextEventCycle == MAX || clocks[i].toGlobal(queues[i].nextEventCycle) >= next
    {
      next, which := MAX, |queues|;
      for i := 0 to |queues|
        invariant next <= MAX && which <= |queues| && (which == |queues| <==> next == MAX)
        invariant which < |queues| ==>
          queues[which].nextEventCycle != MAX && next == clocks[which].toGlobal(queues[which].nextEventCycle)
        invariant forall k | 0 <= k < i ::
          queues[k].nextEventCycle == MAX || clocks[k].toGlobal(queues[k].nextEventCycle) >= next
      {
        if queues[i].nextEventCycle != MAX {
          var globalEventCycle := clocks[i].toGlobal(queues[i].nextEventCycle);
          if globalEventCycle < next {
            next, which := globalEventCycle, i;
          }
        }
      }
    }

    /** Brings every queue up to the global clock: the next local cycle of each would pass it. */
    method Sync()
      requires Valid()
      modifies queues
      ensures Synced(Members(), old(Views()), Views(), currentCycle)
      ensures forall i | 0 <= i < |queues| ::
        NextIsAfter(queues[i].currentCycle, freqs[i], currentCycle, frequency)
    {
      ghost var before := Views();
      SyncEach();
      SyncedFacts(Members(), before, Views(), currentCycle);
      forall i | 0 <= i < |queues| ensures NextIsAfter(queues[i].currentCycle, freqs[i], currentCycle, frequency) {
        assert NotBehind(Members()[i], Views()[i], currentCycle);
        ClockSkew(queues[i].currentCycle, currentCycle, frequency, freqs[i]);
      }
    }

    method SyncEach()
      requires Valid()
      modifies queues
      ensures Synced(Members(), old(Views()), Views(), currentCycle)
    {
      ghost var before := Views();
      for i := 0 to |queues|
        invariant forall k | 0 <= k < i :: Views()[k] == CaughtUp(Members()[k], before[k], currentCycle)
        invariant forall k | i <= k < |queues| :: Views()[k] == before[k]
      {
        assert Ok(Members()[i], before[i], currentCycle);
        CatchUp(i);
        assert forall k | 0 <= k < |queues| && k != i :: queues[k] != queues[i];
      }
    }

    method CatchUp(i: nat)
      requires |clocks| == |queues| && i < |queues| && currentCycle < MAX
      requires Ok(Member(queues[i].sys, clocks[i]), queues[i].View(), currentCycle)
      modifies queues[i]
      ensures queues[i].View() == CaughtUp(Member(queues[i].sys, clocks[i]), old(queues[i].View()), currentCycle)
    {
      var setCycle := clocks[i].toLocal(currentCycle);
      SoundClock(clocks[i], currentCycle, 0);
      if setCycle > queues[i].currentCycle {
        queues[i].LoopSteps(setCycle - queues[i].currentCycle);
      }
    }

    /** Advances the global clock by exactly `steps`. On return every queue is level with the global
        clock, by the frequencies alone, holds no event that is due, and is where it would be had it
        been run alone up to its own clock. */
    method Cycle(steps: nat)
      requires Valid() && currentCycle + steps < MAX
      modifies this, queues
      ensures Valid() && currentCycle == old(currentCycle) + steps
      ensures forall i | 0 <= i < |queues| :: Level(i) && RanAlone(queues[i].sys, old(Views()[i]), Views()[i])
    {
      Drive(steps);
      forall i | 0 <= i < |queues| ensures Level(i) {
        assert Ok(Members()[i], Views()[i], currentCycle);
        assert NotBehind(Members()[i], Views()[i], currentCycle) && NothingDue(Members()[i], Views()[i], currentCycle);
        ClockSkew(queues[i].currentCycle, currentCycle, frequency, freqs[i]);
        ClockSkew(queues[i].nextEventCycle, currentCycle, frequency, freqs[i]);
      }
    }

    /** The loop over the next events, with clocks compared by conversion. */
    method Drive(steps: nat)
      requires Valid() && currentCycle + steps < MAX
      modifies this, queues
      ensures Valid() && currentCycle == old(currentCycle) + steps
      ensures forall i | 0 <= i < |queues| ::
        && NotBehind(Members()[i], Views()[i], currentCycle)
        && NothingDue(Members()[i], Views()[i], currentCycle)
        && RanAlone(queues[i].sys, old(Views()[i]), Views()[i])
    {
      ghost var start := Views();
      ghost var end := currentCycle + steps;
      var iterationSteps: nat := 0;
      while iterationSteps <= steps
        invariant iterationSteps <= steps && currentCycle + steps - iterationSteps == end
        invariant Valid() && AllOnTrack(Members(), start, Views())
        decreases Slack(Views(), end)
      {
        var nextEvent, which := GetNextEvent();
        var globalQueueSteps := if nextEvent > currentCycle then nextEvent - currentCycle else 0;
        ghost var here := Views();
        if globalQueueSteps > steps - iterationSteps {
          Finish(steps - iterationSteps, start);
          break;
        }
        RunNext(which, globalQueueSteps, end);
        iterationSteps := iterationSteps + globalQueueSteps;
        AllOnTrackTransitive(Members(), start, here, Views());
      }
    }

    /** The last leg: nothing is due before its end, so only the clocks move. */
    method Finish(rest: nat, ghost start: seq<State<W>>)
      requires Valid() && currentCycle + rest < MAX && AllOnTrack(Members(), start, Views())
      requires forall i | 0 <= i < |queues| ::
        queues[i].nextEventCycle == MAX || clocks[i].toGlobal(queues[i].nextEventCycle) > currentCycle + rest
      modifies this, queues
      ensures Valid() && currentCycle == old(currentCycle) + rest
      ensures forall i | 0 <= i < |queues| ::
        && NotBehind(Members()[i], Views()[i], currentCycle)
        && NothingDue(Members()[i], Views()[i], currentCycle)
        && RanAlone(queues[i].sys, start[i], Views()[i])
    {
      ghost var a := Views();
      currentCycle := currentCycle + rest;
      assert Views() == a;
      SyncEach();
      ghost var ms, b, g := Members(), Views(), currentCycle;
      SyncedFacts(ms, a, b, g);
      AllOnTrackTransitive(ms, start, a, b);
      forall i | 0 <= i < |b| ensures NothingDue(ms[i], b[i], g) && RanAlone(ms[i].sys, start[i], b[i]) {
        assert NothingDue(ms[i], a[i], g);
        OnTrackSettled(ms[i], start[i], b[i], g);
      }
    }

    /** Runs the next event of one queue, moves the global clock to it, and syncs the others. */
    method RunNext(which: nat, globalQueueSteps: nat, ghost end: nat)
      requires Valid() && which < |queues| && queues[which].nextEventCycle != MAX
      requires clocks[which].toGlobal(queues[which].nextEventCycle) <= currentCycle + globalQueueSteps <= end < MAX
      modifies this, queues
      ensures Valid() && currentCycle == old(currentCycle) + globalQueueSteps
      ensures AllOnTrack(Members(), old(Views()), Views())
      ensures Slack(Views(), end) < old(Slack(Views(), end))
    {
      ghost var a := Views();
      JumpTo(which, globalQueueSteps);
      ghost var b := Views();
      Sync();
      SyncedFacts(Members(), b, Views(), currentCycle);
      AllOnTrackTransitive(Members(), a, b, Views());
      assert b[which].next <= Views()[which].next;
      SoundClock(clocks[which], a[which].next, 0);
      SlackDecreases(a, Views(), which, end);
    }

    method JumpTo(which: nat, globalQueueSteps: nat)
      requires Valid() && which < |queues| && queues[which].nextEventCycle != MAX
      requires clocks[which].toGlobal(queues[which].nextEventCycle) <= currentCycle + globalQueueSteps < MAX
      modifies this, queues[which]
      ensures Valid() && currentCycle == old(currentCycle) + globalQueueSteps
      ensures AllOnTrack(Members(), old(Views()), Views())
      ensures old(Views()[which].next) < Views()[which].next
    {
      ghost var ms, a := Members(), Views();
      JumpFacts(ms, a, which, currentCycle, currentCycle + globalQueueSteps);
      ghost var b := a[which := Advance(ms[which].sys, a[which], a[which].next)];
      queues[which].LoopSteps(queues[which].nextEventCycle - queues[which].currentCycle);
      assert Views() == b by {
        forall i | 0 <= i < |queues| ensures queues[i].View() == b[i] {
          assert i != which ==> queues[i] != queues[which];
        }
      }
      currentCycle := currentCycle + globalQueueSteps;
      assert Views() == b && Members() == ms;
    }
  }
}
