/**
 A subarray whose writes can be interrupted, over whole runs, with and without precharge. Reads and
 activations interrupt the write in progress and put back the limits that it had raised. Several
 responses can be pending at once: an interrupted write with implicit precharge leaves its own behind.
 */
module PausingRuns {
  import opened SubArrayTiming
  import opened WritePausing

  datatype Config = Config(p: Timing, k: Policy, pausing: bool, usePrecharge: bool)
  {
    predicate Ok() { p.Ok() && k.threshold >= 0.0 }
  }

  // ------------------------------------------------------------------ limits

  /** The limits a write saves and an interruption restores. */
  datatype Limits = Limits(activate: nat, precharge: nat, read: nat, write: nat, powerDown: nat)

  function LimitsOf(s: Sub): Limits {
    Limits(s.nextActivate, s.nextPrecharge, s.nextRead, s.nextWrite, s.nextPowerDown)
  }

  predicate Below(a: Limits, b: Limits) {
    && a.activate <= b.activate && a.precharge <= b.precharge && a.read <= b.read && a.write <= b.write
    && a.powerDown <= b.powerDown
  }

  /** The saved limits put back, and the end of the write moved to the next cycle. */
  function Restored(s: Sub, saved: Limits, now: nat): Sub {
    s.(nextActivate := saved.activate, nextPrecharge := saved.precharge, nextRead := saved.read,
       nextWrite := saved.write, nextPowerDown := saved.powerDown, writeDone := now + 1)
  }

  /** No command lowers any of the five limits. */
  lemma LimitsRise(p: Timing, s: Sub, now: nat, c: Cmd)
    requires p.Ok()
    ensures Below(LimitsOf(s), LimitsOf(Accept(p, s, now, c)))
  {
    AcceptMonotone(p, s, now, c, Act(0));
    AcceptMonotone(p, s, now, c, Pre);
    AcceptMonotone(p, s, now, c, Rd(0, 1, 0, false));
    AcceptMonotone(p, s, now, c, Wr(0, 1, 0, false));
  }

  // ------------------------------------------------------------------ responses

  /** A response that the subarray has scheduled for itself. */
  datatype Response = Precharges(at: nat) | Closes(at: nat) | RefreshEnds(at: nat)

  /** What a response does to the subarray: without precharge a refresh leaves the row open. */
  function Respond(c: Config, s: Sub, e: Response): Sub {
    match e
    case Precharges(_) => s.(state := Precharging)
    case Closes(_) => s.(state := Closed, openRow := c.p.rows)
    case RefreshEnds(_) => if c.usePrecharge then s.(state := Closed, openRow := c.p.rows) else s.(state := Open)
  }

  function Follow(c: Config, e: Response): seq<Response> {
    if e.Precharges? then [Closes(e.at + c.p.tRP)] else []
  }

  /** The next response: the earliest, and of those the first that was scheduled. */
  function First(q: seq<Response>): (i: nat)
    requires q != []
    ensures i < |q|
  {
    if |q| == 1 then 0
    else
      var j := First(q[1..]);
      if q[0].at <= q[1..][j].at then 0 else j + 1
  }

  function Without(q: seq<Response>, i: nat): seq<Response>
    requires i < |q|
  {
    q[..i] + q[i + 1..]
  }

  function Weight(q: seq<Response>): nat {
    if q == [] then 0 else Weight(q[1..]) + (if q[0].Precharges? then 2 else 1)
  }

  lemma {:induction false} WeightAppend(a: seq<Response>, b: seq<Response>)
    ensures Weight(a + b) == Weight(a) + Weight(b)
  {
    if a == [] {
      assert a + b == b;
    } else {
      WeightAppend(a[1..], b);
      assert (a + b)[1..] == a[1..] + b;
    }
  }

  lemma WeightDrops(c: Config, q: seq<Response>, i: nat)
    requires i < |q|
    ensures Weight(Without(q, i) + Follow(c, q[i])) < Weight(q)
  {
    assert q == q[..i] + q[i..] && q[i..][1..] == q[i + 1..];
    WeightAppend(q[..i], q[i..]);
    WeightAppend(q[..i], q[i + 1..]);
    WeightAppend(Without(q, i), Follow(c, q[i]));
    assert q[i].Precharges? ==> Follow(c, q[i])[1..] == [];
  }

  /** Runs the responses due up to cycle `now`. */
  function RunDue(c: Config, s: Sub, q: seq<Response>, now: nat): (Sub, seq<Response>)
    decreases Weight(q)
  {
    if q == [] || q[First(q)].at > now then (s, q)
    else
      var i := First(q);
      WeightDrops(c, q, i);
      RunDue(c, Respond(c, s, q[i]), Without(q, i) + Follow(c, q[i]), now)
  }

  /** The response that runs next is the earliest, and of several the one scheduled first. */
  lemma {:induction false} FirstIs(q: seq<Response>)
    requires q != []
    ensures forall i | 0 <= i < |q| :: q[First(q)].at <= q[i].at && (i < First(q) ==> q[First(q)].at < q[i].at)
  {
    if |q| > 1 {
      FirstIs(q[1..]);
      assert forall i | 1 <= i < |q| :: q[i] == q[1..][i - 1];
    }
  }

  /** Afterwards no response is due. */
  lemma {:induction false} NoneDue(c: Config, s: Sub, q: seq<Response>, now: nat)
    ensures var left := RunDue(c, s, q, now).1; forall i | 0 <= i < |left| :: left[i].at > now
    decreases Weight(q)
  {
    if q != [] {
      FirstIs(q);
      var i := First(q);
      if q[i].at <= now {
        WeightDrops(c, q, i);
        var rest := Without(q, i) + Follow(c, q[i]);
        NoneDue(c, Respond(c, s, q[i]), rest, now);
        assert RunDue(c, s, q, now) == RunDue(c, Respond(c, s, q[i]), rest, now);
      }
    }
  }

  /** Responses change the state and the open row only. */
  lemma {:induction false} RunDueKeeps(c: Config, s: Sub, q: seq<Response>, now: nat)
    ensures var (r, _) := RunDue(c, s, q, now);
      LimitsOf(r) == LimitsOf(s) && r.writeDone == s.writeDone && r.due == s.due
    decreases Weight(q)
  {
    if q != [] && q[First(q)].at <= now {
      var i := First(q);
      WeightDrops(c, q, i);
      RunDueKeeps(c, Respond(c, s, q[i]), Without(q, i) + Follow(c, q[i]), now);
    }
  }

  // ------------------------------------------------------------------ the automaton

  /** The subarray, its pending responses, the write requests by number, and the write in progress
      with its attempt and the limits saved when it was issued. */
  datatype Pausable = Pausable(
    sub: Sub, pending: seq<Response>, requests: map<nat, Request>,
    writing: bool, current: nat, flight: Flight, saved: Limits)
  {
    /** The request with a number; a number that was not used before is a new write. */
    function Ask(id: nat): Request { if id in requests then requests[id] else NEW_REQUEST }
  }

  const NEW_SUBARRAY: Pausable := Pausable(FRESH, [], map[], false, 0, Flight(0, 0, []), Limits(0, 0, 0, 0, 0))

  /** While a write is in progress the saved limits are no stricter than the current ones. */
  predicate Sheltered(x: Pausable) {
    && x.sub.due == Nothing
    && (x.writing ==> Below(x.saved, LimitsOf(x.sub)) && x.flight.start <= x.flight.end && x.current in x.requests)
  }

  /** A command at some cycle; whether it has priority; and for a write its request, full cell time
      and the start cycles of its iterations. */
  datatype Attempt = Attempt(cycle: nat, cmd: Cmd, priority: bool, id: nat, full: nat, starts: seq<nat>)

  /** The test of timing and state: without precharge a row need not be closed first. */
  predicate Takes(c: Config, s: Sub, now: nat, cmd: Cmd) {
    if (cmd.Act? || cmd.Ref?) && !c.usePrecharge then s.nextActivate <= now else Issuable(s, now, cmd)
  }

  /** `IsIssuable`: a forced write keeps reads and activations off, and any write keeps activations
      off that have no priority. */
  predicate MayIssue(c: Config, x: Pausable, a: Attempt) {
    var busy := c.pausing && x.writing;
    && Takes(c, x.sub, a.cycle, a.cmd)
    && (a.cmd.Act? ==> !(busy && (x.Ask(x.current).forced || !a.priority)))
    && (a.cmd.Rd? ==> !(busy && x.Ask(x.current).forced))
  }

  /** The command is accepted and interrupts the write in progress. */
  predicate Interrupts(c: Config, x: Pausable, a: Attempt) {
    MayIssue(c, x, a) && (a.cmd.Act? || a.cmd.Rd?) && c.pausing && x.writing
  }

  /** `CheckWritePausing`. */
  function Halted(c: Config, x: Pausable, now: nat): Pausable
    requires Sheltered(x)
  {
    if c.pausing && x.writing then
      x.(sub := Restored(x.sub, x.saved, now),
         requests := x.requests[x.current := Interrupt(c.k, x.Ask(x.current), x.flight, now)])
    else x
  }

  /** The command as the timing of the subarray sees it: a write takes the time of this attempt. */
  function Timed(x: Pausable, a: Attempt): Cmd {
    if a.cmd.Wr? then Wr(a.cmd.row, a.cmd.burst, Duration(x.Ask(a.id), a.full), a.cmd.auto) else a.cmd
  }

  /** The responses a command schedules. */
  function Scheduled(d: Due, cmd: Cmd): seq<Response> {
    match d
    case Nothing => []
    case PrechargesAt(t) => [Precharges(t)]
    case ClosesAt(t) => if cmd.Ref? then [RefreshEnds(t)] else [Closes(t)]
  }

  /** The state after an accepted command: reads and activations first interrupt the write in
      progress, a write saves the limits and starts its attempt. */
  function Taking(c: Config, x: Pausable, a: Attempt): Pausable
    requires c.p.Ok() && Sheltered(x)
  {
    var y := if a.cmd.Act? || a.cmd.Rd? then Halted(c, x, a.cycle) else x;
    var s := Accept(c.p, y.sub, a.cycle, Timed(y, a));
    var z := y.(sub := s.(due := Nothing), pending := y.pending + Scheduled(s.due, a.cmd));
    if a.cmd.Wr? then
      var (r, f) := Begin(y.Ask(a.id), a.cycle, a.full, a.starts);
      z.(requests := y.requests[a.id := r], writing := true, current := a.id, flight := f, saved := LimitsOf(y.sub))
    else z
  }

  /** Responses due run; the write in progress ends when its completion does. */
  function Settled(c: Config, x: Pausable, now: nat): Pausable {
    var (s, q) := RunDue(c, x.sub, x.pending, now);
    x.(sub := s, pending := q, writing := x.writing && now < x.sub.writeDone)
  }

  function Step(c: Config, x: Pausable, a: Attempt): Pausable
    requires c.p.Ok() && Sheltered(x)
  {
    SettledShelters(c, x, a.cycle);
    var y := Settled(c, x, a.cycle);
    if MayIssue(c, y, a) then Taking(c, y, a) else y
  }

  lemma SettledShelters(c: Config, x: Pausable, now: nat)
    requires Sheltered(x)
    ensures Sheltered(Settled(c, x, now)) && LimitsOf(Settled(c, x, now).sub) == LimitsOf(x.sub)
  {
    RunDueKeeps(c, x.sub, x.pending, now);
  }

  lemma TakingShelters(c: Config, x: Pausable, a: Attempt)
    requires c.p.Ok() && Sheltered(x)
    ensures Sheltered(Taking(c, x, a))
  {
    var y := if a.cmd.Act? || a.cmd.Rd? then Halted(c, x, a.cycle) else x;
    LimitsRise(c.p, y.sub, a.cycle, Timed(y, a));
  }

  lemma StepShelters(c: Config, x: Pausable, a: Attempt)
    requires c.p.Ok() && Sheltered(x)
    ensures Sheltered(Step(c, x, a))
  {
    SettledShelters(c, x, a.cycle);
    TakingShelters(c, Settled(c, x, a.cycle), a);
  }

  /** The state after the attempts of a run. */
  ghost function After(c: Config, x: Pausable, attempts: seq<Attempt>): (r: Pausable)
    requires c.p.Ok() && Sheltered(x)
    ensures Sheltered(r)
    decreases |attempts|
  {
    if attempts == [] then x
    else
      StepShelters(c, x, attempts[0]);
      After(c, Step(c, x, attempts[0]), attempts[1..])
  }

  // ------------------------------------------------------------------ the second test

  /** A command that is issuable stays issuable when the limits are restored. */
  lemma RestoringKeepsIssuable(c: Config, s: Sub, saved: Limits, now: nat, cmd: Cmd)
    requires Below(saved, LimitsOf(s)) && Takes(c, s, now, cmd)
    ensures Takes(c, Restored(s, saved, now), now, cmd)
  {
  }

  /** In every state of every run with interruptions, with or without precharge, a command that is
      issuable before the write in progress is interrupted is issuable after it: the second test each
      command makes, on the restored limits, never disagrees with the first. */
  lemma PausingIsTrusted(c: Config, attempts: seq<Attempt>, a: Attempt)
    requires c.p.Ok()
    ensures Sheltered(NEW_SUBARRAY)
    ensures var y := Settled(c, After(c, NEW_SUBARRAY, attempts), a.cycle);
      && Sheltered(y)
      && (MayIssue(c, y, a) ==> Takes(c, Halted(c, y, a.cycle).sub, a.cycle, a.cmd))
      && Below(LimitsOf(Halted(c, y, a.cycle).sub), LimitsOf(y.sub))
  {
    var z := After(c, NEW_SUBARRAY, attempts);
    SettledShelters(c, z, a.cycle);
    var y := Settled(c, z, a.cycle);
    if MayIssue(c, y, a) && c.pausing && y.writing {
      RestoringKeepsIssuable(c, y.sub, y.saved, a.cycle, a.cmd);
    }
  }

  /** An interruption undoes what the write did to the limits: they are those from before it. Its
      request alone changes, the row stays as it is, and the completion comes in the next cycle. */
  lemma InterruptionUndoesWrite(c: Config, x: Pausable, a: Attempt, now: nat)
    requires c.p.Ok() && c.pausing && Sheltered(x) && a.cmd.Wr?
    ensures Sheltered(Taking(c, x, a))
    ensures
      var y := Taking(c, x, a);
      var z := Halted(c, y, now);
      && LimitsOf(z.sub) == LimitsOf(x.sub) && z.sub.writeDone == now + 1
      && z.sub.state == y.sub.state && z.sub.openRow == y.sub.openRow && z.pending == y.pending
      && a.id in z.requests && z.requests == y.requests[a.id := z.requests[a.id]]
  {
    TakingShelters(c, x, a);
  }

  // ------------------------------------------------------------------ orderly runs

  /** A write is offered when it is new, or when its last attempt was interrupted. */
  predicate MayReturn(x: Pausable, id: nat) {
    id !in x.requests || x.requests[id].paused || x.requests[id].cancelled
  }

  /** At most one command is offered per cycle, from cycle `from` on, and writes return only when
      they were interrupted. */
  ghost predicate Orderly(c: Config, x: Pausable, attempts: seq<Attempt>, from: nat)
    requires c.p.Ok() && Sheltered(x)
    decreases |attempts|
  {
    attempts == [] ||
    (var a := attempts[0];
     StepShelters(c, x, a);
     && from <= a.cycle && Sane(a.cmd) && (a.cmd.Wr? ==> MayReturn(x, a.id))
     && Orderly(c, Step(c, x, a), attempts[1..], a.cycle + 1))
  }

  /** Only a write that is not forced is interrupted, by a read or by an activation with priority. */
  lemma InterruptNeeds(c: Config, x: Pausable, a: Attempt)
    requires Interrupts(c, x, a)
    ensures x.writing && !x.Ask(x.current).forced && (a.cmd.Rd? || (a.cmd.Act? && a.priority))
    ensures a.cmd.Rd? ==> x.sub.state == Open && x.sub.openRow == a.cmd.row && x.sub.nextRead <= a.cycle
    ensures a.cmd.Act? ==> x.sub.nextActivate <= a.cycle && (c.usePrecharge ==> x.sub.state == Closed)
  {
  }

  // ------------------------------------------------------------------ interruptions of one request

  /** How often the run interrupts the request with number `id`. */
  ghost function Interruptions(c: Config, x: Pausable, attempts: seq<Attempt>, id: nat): nat
    requires c.p.Ok() && Sheltered(x)
    decreases |attempts|
  {
    if attempts == [] then 0
    else
      var y := Settled(c, x, attempts[0].cycle);
      StepShelters(c, x, attempts[0]);
      (if Interrupts(c, y, attempts[0]) && y.current == id then 1 else 0)
      + Interruptions(c, Step(c, x, attempts[0]), attempts[1..], id)
  }

  /** Requests are sound, and a paused one has at most `w` cycles left; the one being written has its
      flags cleared, if its write is not over by cycle `from`. */
  ghost predicate Accounted(c: Config, x: Pausable, w: nat, from: nat) {
    && (forall id | id in x.requests :: Fair(c, x.requests[id], w))
    && (x.writing && from < x.sub.writeDone ==> x.current in x.requests && InFlight(c.k, x.requests[x.current]))
    && x.flight.start <= x.flight.end <= x.flight.start + w
  }

  predicate Fair(c: Config, r: Request, w: nat) {
    Sound(c.k, r) && (r.paused ==> r.progress <= w)
  }

  /** How many interruptions of the request can still come. */
  function Budget(c: Config, x: Pausable, id: nat, w: nat): int {
    var r := x.Ask(id);
    if id in x.requests && !r.paused && !r.cancelled then
      if x.writing && x.current == id then Left(c.k, r) * (w + 1) + (x.flight.end - x.flight.start) else 0
    else Measure(c.k, r, w)
  }

  lemma BudgetNotNegative(c: Config, x: Pausable, id: nat, w: nat, from: nat)
    requires Accounted(c, x, w, from)
    ensures Budget(c, x, id, w) >= 0
  {
    var r := x.Ask(id);
    assert Fair(c, r, w);
    LeftTimes(Left(c.k, r), w + 1);
  }

  /** Time passes: nothing but the end of the write happens to a request. */
  lemma SettledBudget(c: Config, x: Pausable, id: nat, w: nat, from: nat, now: nat)
    requires Accounted(c, x, w, from) && from <= now
    ensures var y := Settled(c, x, now); Accounted(c, y, w, now) && Budget(c, y, id, w) <= Budget(c, x, id, w)
  {
    RunDueKeeps(c, x.sub, x.pending, now);
    BudgetNotNegative(c, x, id, w, from);
  }

  /** An interruption uses up some of the budget of its request and of no other. */
  lemma HaltedBudget(c: Config, x: Pausable, id: nat, w: nat, now: nat)
    requires c.Ok() && Sheltered(x) && Accounted(c, x, w, now) && now < x.sub.writeDone
    requires c.pausing && x.writing && !x.Ask(x.current).forced
    ensures var y := Halted(c, x, now);
      && Accounted(c, y, w, now + 1) && y.sub.writeDone == now + 1
      && Budget(c, y, id, w) + (if x.current == id then 1 else 0) <= Budget(c, x, id, w)
  {
    var r := x.requests[x.current];
    InterruptInFlight(c.k, r, x.flight, now);
    var r2 := Interrupt(c.k, r, x.flight, now);
    if r2.cancelled { Spent(Left(c.k, r), w); }
  }

  lemma Spent(left: int, w: nat)
    ensures (left - 1) * (w + 1) + w == left * (w + 1) - 1
  {
  }

  /** An attempt of a write costs nothing. */
  lemma BeginBudget(c: Config, x: Pausable, y: Pausable, a: Attempt, id: nat, w: nat)
    requires Accounted(c, x, w, a.cycle) && MayReturn(x, a.id) && a.full <= w
    requires var (r, f) := Begin(x.Ask(a.id), a.cycle, a.full, a.starts);
      y.requests == x.requests[a.id := r] && y.writing && y.current == a.id && y.flight == f
    ensures Accounted(c, y, w, a.cycle + 1) && Budget(c, y, id, w) <= Budget(c, x, id, w)
  {
    var r := x.Ask(a.id);
    assert Fair(c, r, w);
    BudgetNotNegative(c, x, id, w, a.cycle);
  }

  lemma StepBudget(c: Config, x: Pausable, a: Attempt, id: nat, w: nat, from: nat)
    requires c.Ok() && Sheltered(x) && Accounted(c, x, w, from) && from <= a.cycle && a.full <= w
    requires a.cmd.Wr? ==> MayReturn(x, a.id)
    ensures Accounted(c, Step(c, x, a), w, a.cycle + 1)
    ensures var y := Settled(c, x, a.cycle);
      Budget(c, Step(c, x, a), id, w) + (if Interrupts(c, y, a) && y.current == id then 1 else 0) <= Budget(c, x, id, w)
  {
    var y := Settled(c, x, a.cycle);
    SettledShelters(c, x, a.cycle);
    SettledBudget(c, x, id, w, from, a.cycle);
    if MayIssue(c, y, a) {
      if Interrupts(c, y, a) {
        RunDueKeeps(c, x.sub, x.pending, a.cycle);
        HaltedBudget(c, y, id, w, a.cycle);
      } else if a.cmd.Wr? {
        BeginBudget(c, y, Taking(c, y, a), a, id, w);
      }
    }
  }

  lemma {:induction false} InterruptionsWithinBudget(c: Config, x: Pausable, attempts: seq<Attempt>, id: nat,
                                                     w: nat, from: nat)
    requires c.Ok() && Sheltered(x) && Accounted(c, x, w, from) && Orderly(c, x, attempts, from)
    requires forall i | 0 <= i < |attempts| :: attempts[i].full <= w
    ensures Interruptions(c, x, attempts, id) <= Budget(c, x, id, w)
    ensures Left(c.k, After(c, x, attempts).Ask(id)) >= 0
    decreases |attempts|
  {
    if attempts == [] {
      BudgetNotNegative(c, x, id, w, from);
      assert Fair(c, x.Ask(id), w);
    } else {
      StepShelters(c, x, attempts[0]);
      StepBudget(c, x, attempts[0], id, w, from);
      InterruptionsWithinBudget(c, Step(c, x, attempts[0]), attempts[1..], id, w, attempts[0].cycle + 1);
    }
  }

  /** In every orderly run each write is interrupted at most max(1, MaxCancellations) * (w + 1) + w
      times, where no attempt takes more than `w` cycles, and cancelled at most max(1,
      MaxCancellations) times, with or without precharge. */
  lemma InterruptedFinitelyOften(c: Config, attempts: seq<Attempt>, id: nat, w: nat)
    requires c.Ok() && Orderly(c, NEW_SUBARRAY, attempts, 0)
    requires forall i | 0 <= i < |attempts| :: attempts[i].full <= w
    ensures var most := if c.k.maxCancellations > 1 then c.k.maxCancellations else 1;
      && Interruptions(c, NEW_SUBARRAY, attempts, id) <= most * (w + 1) + w
      && After(c, NEW_SUBARRAY, attempts).Ask(id).cancellations <= most
  {
    InterruptionsWithinBudget(c, NEW_SUBARRAY, attempts, id, w, 0);
  }

  // ------------------------------------------------------------------ when writes are interrupted

  /** No orderly run interrupts a write. */
  ghost predicate NeverInterrupts(c: Config)
    requires c.p.Ok()
  {
    forall attempts, id {:trigger Interruptions(c, NEW_SUBARRAY, attempts, id)}
      | Orderly(c, NEW_SUBARRAY, attempts, 0) :: Interruptions(c, NEW_SUBARRAY, attempts, id) == 0
  }

  /** A read, and an activation after an implicit precharge, wait for the last burst of a write. */
  predicate BurstsWait(p: Timing) {
    p.tCCD <= p.tBURST + p.tWTR && p.tCCD <= p.tAL + p.tBURST + p.tWR + p.tRP
  }

  /** With precharge a write is interrupted in some run exactly when tCCD is so long that a read or an
      activation can come before its last burst is over. */
  lemma NeverInterruptsIff(p: Timing, k: Policy)
    requires p.Ok()
    ensures NeverInterrupts(Config(p, k, true, true)) <==> BurstsWait(p)
  {
    var c := Config(p, k, true, true);
    if BurstsWait(p) {
      forall attempts, id | Orderly(c, NEW_SUBARRAY, attempts, 0)
        ensures Interruptions(c, NEW_SUBARRAY, attempts, id) == 0
      {
        NoneInterrupted(c, NEW_SUBARRAY, attempts, id, 0);
      }
    } else {
      var last, auto := Interrupter(p);
      var _ := InterruptingRun(c, auto, last);
    }
  }

  /** Without precharge an activation with priority interrupts a write in some run, whatever the
      parameters. */
  lemma InterruptsWithoutPrecharge(p: Timing, k: Policy) returns (attempts: seq<Attempt>)
    requires p.Ok()
    ensures var c := Config(p, k, true, false);
      Orderly(c, NEW_SUBARRAY, attempts, 0) && Interruptions(c, NEW_SUBARRAY, attempts, 0) == 1
  {
    attempts := InterruptingRun(Config(p, k, true, false), false, Attempt(p.tRCD + 2, Act(0), true, 1, 0, []));
  }

  // ------------------------------------------------------------------ the safe half

  /** At most one response is pending, and it fits the state; an implicit precharge keeps every command
      off until it is over. */
  predicate Neat(p: Timing, s: Sub, q: seq<Response>) {
    || (q == [] && (s.state == Open || s.state == Closed))
    || (|q| == 1 && match q[0]
        case Precharges(t) =>
          && s.state == Open && t + p.tRP <= s.nextActivate
          && t <= s.nextPrecharge && t <= s.nextRead && t <= s.nextWrite
        case Closes(_) => s.state == Precharging
        case RefreshEnds(_) => s.state == Refreshing)
  }

  /** A write in progress keeps reads off, and activations by themselves or through the precharge that
      must come first. */
  predicate Shielded(p: Timing, s: Sub, q: seq<Response>) {
    && s.nextRead >= s.writeDone
    && (s.nextActivate >= s.writeDone || (s.state == Open && q == [] && s.nextPrecharge + p.PreToAct() >= s.writeDone))
  }

  /** Responses keep a single pending response, and none is due afterwards. */
  lemma {:induction false} RunDueNeat(c: Config, s: Sub, q: seq<Response>, now: nat)
    requires c.usePrecharge && Neat(c.p, s, q)
    ensures var (r, q') := RunDue(c, s, q, now);
      && Neat(c.p, r, q') && (q' != [] ==> q'[0].at > now)
      && (Shielded(c.p, s, q) ==> Shielded(c.p, r, q'))
    decreases Weight(q)
  {
    if q != [] && q[First(q)].at <= now {
      var e := q[0];
      assert First(q) == 0 && Without(q, 0) == [] && Without(q, 0) + Follow(c, e) == Follow(c, e);
      WeightDrops(c, q, 0);
      RunDueNeat(c, Respond(c, s, e), Follow(c, e), now);
    }
  }

  /** What an accepted command finds, and what it leaves. */
  lemma TakingNeat(c: Config, x: Pausable, a: Attempt)
    requires c.p.Ok() && c.usePrecharge && c.pausing && BurstsWait(c.p) && Sheltered(x) && Sane(a.cmd)
    requires Neat(c.p, x.sub, x.pending) && (x.pending != [] ==> x.pending[0].at > a.cycle)
    requires x.writing ==> Shielded(c.p, x.sub, x.pending) && a.cycle < x.sub.writeDone
    requires MayIssue(c, x, a)
    ensures !Interrupts(c, x, a)
    ensures var y := Taking(c, x, a); Neat(c.p, y.sub, y.pending) && (y.writing ==> Shielded(c.p, y.sub, y.pending))
  {
    assert x.pending == [];
    AcceptNeat(c, x.sub, a.cycle, Timed(x, a), x.writing);
  }

  lemma AcceptNeat(c: Config, s: Sub, now: nat, cmd: Cmd, writing: bool)
    requires c.p.Ok() && c.usePrecharge && BurstsWait(c.p) && s.due == Nothing && Sane(cmd)
    requires Neat(c.p, s, []) && Takes(c, s, now, cmd)
    requires writing ==> Shielded(c.p, s, []) && now < s.writeDone && !cmd.Act? && !cmd.Rd?
    ensures var r := Accept(c.p, s, now, cmd);
      && Neat(c.p, r.(due := Nothing), Scheduled(r.due, cmd))
      && (writing || cmd.Wr? ==> Shielded(c.p, r.(due := Nothing), Scheduled(r.due, cmd)))
  {
    if cmd.Wr? { assert Bursts(c.p, cmd.burst) == Extra(c.p, cmd.burst) + c.p.Burst(); }
  }

  lemma {:induction false} NoneInterrupted(c: Config, x: Pausable, attempts: seq<Attempt>, id: nat, from: nat)
    requires c.p.Ok() && c.usePrecharge && c.pausing && BurstsWait(c.p) && Sheltered(x) && Orderly(c, x, attempts, from)
    requires Neat(c.p, x.sub, x.pending) && (x.writing ==> Shielded(c.p, x.sub, x.pending))
    ensures Interruptions(c, x, attempts, id) == 0
    decreases |attempts|
  {
    if attempts != [] {
      var a := attempts[0];
      var y := Settled(c, x, a.cycle);
      SettledShelters(c, x, a.cycle);
      RunDueKeeps(c, x.sub, x.pending, a.cycle);
      RunDueNeat(c, x.sub, x.pending, a.cycle);
      if MayIssue(c, y, a) { TakingNeat(c, y, a); }
      StepShelters(c, x, a);
      NoneInterrupted(c, Step(c, x, a), attempts[1..], id, a.cycle + 1);
    }
  }

  // ------------------------------------------------------------------ the interrupting runs

  /** The command that interrupts: a read before the last burst is over, or an activation with
      priority at the end of an implicit precharge; and whether the write has one. */
  lemma Interrupter(p: Timing) returns (last: Attempt, auto: bool)
    requires p.Ok() && !BurstsWait(p)
    ensures Cuts(Config(p, Policy(0.0, 0, true), true, true), auto, last)
  {
    var t := p.tRCD + 1;
    auto := p.tCCD <= p.tBURST + p.tWTR;
    if auto {
      last := Attempt(t + p.tAL + p.tCWD + p.tBURST + 1 + p.tWR + p.tRP, Act(0), true, 1, 0, []);
    } else {
      last := Attempt(t + p.tCWD + p.tBURST + p.tWTR + 1, Rd(0, 1, 0, false), false, 1, 0, []);
    }
  }

  /** The last command of a run that opens row 0 in cycle 0 and writes to it for one cycle in cycle
      tRCD + 1 comes while the write is in progress, and finds what it needs. */
  predicate Cuts(c: Config, auto: bool, last: Attempt) {
    var t := c.p.tRCD + 1;
    && t < last.cycle < t + c.p.tCWD + c.p.Burst() + 1
    && if last.cmd.Rd? then
         && last.cmd == Rd(0, 1, 0, false) && !auto && last.cycle >= t + c.p.tCWD + c.p.tBURST + c.p.tWTR + 1
       else
         && last.cmd == Act(0) && last.priority
         && if auto then last.cycle == t + c.p.tAL + c.p.tCWD + c.p.tBURST + 1 + c.p.tWR + c.p.tRP else !c.usePrecharge
  }

  /** The state with row 0 open, and with a write of one cycle in progress. */
  function WithRow(c: Config): Pausable
    requires c.p.Ok()
  {
    NEW_SUBARRAY.(sub := Accept(c.p, FRESH, 0, Act(0)))
  }

  function WithWrite(c: Config, auto: bool): Pausable
    requires c.p.Ok()
  {
    var t := c.p.tRCD + 1;
    var s := Accept(c.p, WithRow(c).sub, t, Wr(0, 1, 1, auto));
    Pausable(s.(due := Nothing), if auto then [Precharges(s.nextActivate - c.p.tRP)] else [],
             map[0 := NEW_REQUEST.(progress := 1)], true, 0, Flight(t, t + 1, []), LimitsOf(WithRow(c).sub))
  }

  lemma FirstStep(c: Config, a: Attempt)
    requires c.p.Ok() && a == Attempt(0, Act(0), false, 1, 0, [])
    ensures Step(c, NEW_SUBARRAY, a) == WithRow(c) && Sheltered(WithRow(c))
  {
    assert Settled(c, NEW_SUBARRAY, 0) == NEW_SUBARRAY;
    assert NEW_SUBARRAY.pending + [] == [];
  }

  lemma SecondStep(c: Config, auto: bool, a: Attempt)
    requires c.p.Ok() && a == Attempt(c.p.tRCD + 1, Wr(0, 1, 0, auto), false, 0, 1, [])
    ensures Sheltered(WithRow(c)) && Step(c, WithRow(c), a) == WithWrite(c, auto) && Sheltered(WithWrite(c, auto))
  {
    var x := WithRow(c);
    assert Settled(c, x, a.cycle) == x && MayIssue(c, x, a);
    SecondTaking(c, auto, a);
    StepShelters(c, x, a);
  }

  lemma SecondTaking(c: Config, auto: bool, a: Attempt)
    requires c.p.Ok() && a == Attempt(c.p.tRCD + 1, Wr(0, 1, 0, auto), false, 0, 1, [])
    ensures Sheltered(WithRow(c)) && Taking(c, WithRow(c), a) == WithWrite(c, auto)
  {
    var x := WithRow(c);
    assert Timed(x, a) == Wr(0, 1, 1, auto);
    assert x.requests[0 := NEW_REQUEST.(progress := 1)] == map[0 := NEW_REQUEST.(progress := 1)];
  }

  lemma ThirdStep(c: Config, auto: bool, a: Attempt)
    requires c.p.Ok() && c.pausing && Cuts(c, auto, a) && Sheltered(WithWrite(c, auto))
    ensures var y := Settled(c, WithWrite(c, auto), a.cycle); Interrupts(c, y, a) && y.current == 0
  {
    var x := WithWrite(c, auto);
    assert Extra(c.p, 1) == 0 && Bursts(c.p, 1) == c.p.Burst();
    if auto { ClosesInTime(c, x.sub, x.pending, a.cycle); }
  }

  lemma ClosesInTime(c: Config, s: Sub, q: seq<Response>, now: nat)
    requires |q| == 1 && q[0].Precharges? && q[0].at + c.p.tRP <= now
    ensures RunDue(c, s, q, now) == (s.(state := Closed, openRow := c.p.rows), [])
  {
    var e := Closes(q[0].at + c.p.tRP);
    assert Without(q, 0) + Follow(c, q[0]) == [e];
    var s1 := Respond(c, s, q[0]);
    assert First([e]) == 0 && Without([e], 0) + Follow(c, e) == [];
    assert RunDue(c, s1, [e], now) == RunDue(c, Respond(c, s1, e), [], now);
  }

  /** Opening a row, writing to it, and the command that cuts the write off. */
  lemma InterruptingRun(c: Config, auto: bool, last: Attempt) returns (attempts: seq<Attempt>)
    requires c.p.Ok() && c.pausing && Cuts(c, auto, last)
    ensures Orderly(c, NEW_SUBARRAY, attempts, 0) && Interruptions(c, NEW_SUBARRAY, attempts, 0) == 1
  {
    var a0 := Attempt(0, Act(0), false, 1, 0, []);
    var a1 := Attempt(c.p.tRCD + 1, Wr(0, 1, 0, auto), false, 0, 1, []);
    FirstStep(c, a0);
    SecondStep(c, auto, a1);
    ThirdStep(c, auto, last);
    var x2 := WithWrite(c, auto);
    StepShelters(c, x2, last);
    var rest := [last];
    assert Orderly(c, Step(c, x2, last), [], last.cycle + 1);
    Prefixed(c, x2, last, [], a1.cycle + 1);
    Prefixed(c, WithRow(c), a1, [last] + [], 1);
    Prefixed(c, NEW_SUBARRAY, a0, [a1] + ([last] + []), 0);
    attempts := [a0] + ([a1] + ([last] + []));
  }

  /** One more attempt in front of a run. */
  lemma Prefixed(c: Config, x: Pausable, a: Attempt, rest: seq<Attempt>, from: nat)
    requires c.p.Ok() && Sheltered(x) && from <= a.cycle && Sane(a.cmd) && (a.cmd.Wr? ==> MayReturn(x, a.id))
    requires Sheltered(Step(c, x, a)) && Orderly(c, Step(c, x, a), rest, a.cycle + 1)
    ensures Orderly(c, x, [a] + rest, from)
    ensures var y := Settled(c, x, a.cycle);
      Interruptions(c, x, [a] + rest, 0) ==
      (if Interrupts(c, y, a) && y.current == 0 then 1 else 0) + Interruptions(c, Step(c, x, a), rest, 0)
  {
    assert ([a] + rest)[1..] == rest && ([a] + rest)[0] == a;
  }
}
