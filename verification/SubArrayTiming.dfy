/**
 The timing automaton of one subarray: what each accepted command does to its state and to the
 earliest cycles of later commands, with write-through writes and no write pausing. Responses the
 subarray schedules for itself (end of a precharge or refresh, start of an implicit precharge) run
 before any command of the same cycle.
 */
module SubArrayTiming {

  /** Timing parameters, in cycles. */
  datatype Timing = Timing(
    tRCD: nat, tRAS: nat, tRP: nat, tAL: nat, tBURST: nat, tCCD: nat, tRTP: nat, tCAS: nat,
    tRTRS: nat, tCWD: nat, tWR: nat, tWTR: nat, tRFC: nat,
    tPD: nat, tXP: nat, tXPDLL: nat, tRDPDEN: nat, tWRPDEN: nat,
    rows: nat)
  {
    /** The differences the source takes of unsigned numbers are not negative, and the responses a
        command schedules for its own subarray fall in a later cycle: the start of an implicit
        precharge, the end of a refresh and the end of a write. A response of priority 0 that is
        inserted into the running cycle goes in front of the command callback that inserts it, and
        is erased unrun (`EventQueues.RunsWholeList`). */
    predicate Ok() {
      && tAL <= tRCD && tCCD <= tAL + tBURST + tRTP && tCWD <= tCAS + tBURST + tRTRS
      && 1 <= tAL + tRTP && 1 <= tAL + tCWD + tBURST + tWR && 1 <= tRFC && 1 <= tCWD + Burst()
    }

    function Burst(): nat { Max(tBURST, tCCD) }

    function ActToPre(): nat { Max(tRCD, tRAS) }

    function PreToAct(): nat { Max(1, tRP) }

    function ActToAct(): nat { ActToPre() + PreToAct() }
  }

  function Max(a: int, b: int): int { if a > b then a else b }

  /** Commands of a subarray; `burst` is the burst count, `lat` the extra latency of the data
      encoder (reads) or the whole cell write time (writes), `auto` an implicit precharge. */
  datatype Cmd =
    | Act(row: nat)
    | Rd(row: nat, burst: nat, lat: nat, auto: bool)
    | Wr(row: nat, burst: nat, lat: nat, auto: bool)
    | Pre
    | Ref

  predicate Sane(c: Cmd) {
    (c.Rd? || c.Wr?) ==> c.burst >= 1
  }

  datatype RowState = Closed | Open | Precharging | Refreshing

  /** The response the subarray is waiting for. */
  datatype Due = Nothing | PrechargesAt(cycle: nat) | ClosesAt(cycle: nat)

  datatype Sub = Sub(
    state: RowState,
    openRow: nat,
    nextActivate: nat, nextPrecharge: nat, nextRead: nat, nextWrite: nat, nextPowerDown: nat,
    writeDone: nat,      // when the write in progress ends
    due: Due)

  const FRESH: Sub := Sub(Closed, 0, 0, 0, 0, 0, 0, 0, Nothing)

  /** The cycles of `n` bursts, n * MAX(tBURST, tCCD). */
  function Bursts(p: Timing, n: nat): nat {
    if n == 0 then 0 else Bursts(p, n - 1) + p.Burst()
  }

  // Extra cycles of all bursts but the first.
  function Extra(p: Timing, burst: nat): nat {
    if burst == 0 then 0 else Bursts(p, burst - 1)
  }

  /** Runs the responses due up to cycle `now`. */
  function Fire(p: Timing, s: Sub, now: nat): Sub {
    match s.due
    case PrechargesAt(t) =>
      if t > now then s
      else FireClose(p, s.(state := Precharging, due := ClosesAt(t + p.tRP)), now)
    case _ => FireClose(p, s, now)
  }

  function FireClose(p: Timing, s: Sub, now: nat): Sub {
    if s.due.ClosesAt? && s.due.cycle <= now then s.(state := Closed, openRow := p.rows, due := Nothing) else s
  }

  /** `IsIssuable`. */
  predicate Issuable(s: Sub, now: nat, c: Cmd) {
    match c
    case Act(_) => s.nextActivate <= now && s.state == Closed
    case Rd(row, _, _, _) => s.nextRead <= now && s.state == Open && row == s.openRow
    case Wr(row, _, _, _) => s.nextWrite <= now && s.state == Open && row == s.openRow
    case Pre => s.nextPrecharge <= now && (s.state == Open || s.state == Closed)
    case Ref => s.nextActivate <= now && s.state == Closed
  }

  /** `Activate`, `Read`, `Write`, `Precharge` and `Refresh` after their checks have passed. */
  function Accept(p: Timing, s: Sub, now: nat, c: Cmd): Sub
    requires p.Ok()
  {
    match c
    case Act(row) =>
      s.(nextPrecharge := Max(s.nextPrecharge, now + p.ActToPre()),
         nextRead := Max(s.nextRead, now + p.tRCD - p.tAL),
         nextWrite := Max(s.nextWrite, now + p.tRCD - p.tAL),
         nextPowerDown := Max(s.nextPowerDown, now + p.ActToPre()),
         openRow := row, state := Open)
    case Rd(_, burst, lat, auto) =>
      var e := now + Extra(p, burst);
      var s1 := if auto then AutoClose(p, s, e + p.tAL + p.tRTP + lat)
        else s.(nextPrecharge := Max(s.nextPrecharge, e + p.tAL + p.tBURST + p.tRTP - p.tCCD + lat),
                nextRead := Max(s.nextRead, now + Bursts(p, burst)),
                nextWrite := Max(s.nextWrite, e + p.tCAS + p.tBURST + p.tRTRS - p.tCWD + lat));
      s1.(nextPowerDown := Max(s.nextPowerDown, e + p.tCAS + p.tAL + p.tBURST + 1 + lat))
    case Wr(_, burst, lat, auto) =>
      var e := now + Extra(p, burst);
      var s1 := if auto then AutoClose(p, s, e + p.tAL + p.tCWD + p.tBURST + lat + p.tWR)
        else s.(nextPrecharge := Max(s.nextPrecharge, e + p.tAL + p.tCWD + p.tBURST + lat + p.tWR),
                nextRead := Max(s.nextRead, e + p.tCWD + p.tBURST + p.tWTR + lat),
                nextWrite := Max(s.nextWrite, now + Bursts(p, burst) + lat));
      s1.(nextPowerDown := Max(s1.nextPowerDown, s1.nextPrecharge),
          writeDone := now + p.tCWD + Bursts(p, burst) + lat)
    case Pre =>
      s.(nextActivate := Max(s.nextActivate, now + p.PreToAct()), state := Precharging,
         due := ClosesAt(now + p.PreToAct()))
    case Ref =>
      s.(nextActivate := Max(s.nextActivate, now + p.tRFC), state := Refreshing, due := ClosesAt(now + p.tRFC))
  }

  /** An implicit precharge that starts at cycle `t`. */
  function AutoClose(p: Timing, s: Sub, t: nat): Sub {
    var act := Max(s.nextActivate, t + p.tRP);
    s.(nextActivate := act,
       nextPrecharge := Max(s.nextPrecharge, act), nextRead := Max(s.nextRead, act), nextWrite := Max(s.nextWrite, act),
       due := PrechargesAt(t))
  }

  // ------------------------------------------------------------------ runs

  /** A command offered to the subarray at some cycle. */
  datatype Offer = Offer(cycle: nat, cmd: Cmd)

  /** What the subarray does with an offer: it is taken exactly when it is issuable. */
  function Step(p: Timing, s: Sub, o: Offer): Sub
    requires p.Ok()
  {
    var s1 := Fire(p, s, o.cycle);
    if Issuable(s1, o.cycle, o.cmd) then Accept(p, s1, o.cycle, o.cmd) else s1
  }

  function Taken(p: Timing, s: Sub, o: Offer): bool {
    Issuable(Fire(p, s, o.cycle), o.cycle, o.cmd)
  }

  predicate Ordered(os: seq<Offer>) {
    && (forall i | 0 <= i < |os| :: Sane(os[i].cmd))
    && (forall i, j | 0 <= i < j < |os| :: os[i].cycle <= os[j].cycle)
  }

  /** The state after the first `k` offers of a run from a fresh subarray. */
  function After(p: Timing, os: seq<Offer>, k: nat): Sub
    requires p.Ok() && k <= |os|
  {
    if k == 0 then FRESH else Step(p, After(p, os, k - 1), os[k - 1])
  }

  /** Offer `k` of the run is accepted. */
  predicate Accepted(p: Timing, os: seq<Offer>, k: nat)
    requires p.Ok() && k < |os|
  {
    Taken(p, After(p, os, k), os[k])
  }

  // ------------------------------------------------------------------ separation of commands

  /** The earliest cycle of command `d`, given the subarray's state. */
  function Earliest(s: Sub, d: Cmd): nat {
    match d
    case Act(_) => s.nextActivate
    case Rd(_, _, _, _) => s.nextRead
    case Wr(_, _, _, _) => s.nextWrite
    case Pre => s.nextPrecharge
    case Ref => s.nextActivate
  }

  /** The distance the code defines from command `c` to a later command `d`. */
  function Gap(p: Timing, c: Cmd, d: Cmd): int {
    match c
    case Act(_) =>
      if d.Pre? then p.ActToPre() else if d.Rd? || d.Wr? then p.tRCD - p.tAL else 0
    case Rd(_, burst, lat, auto) =>
      var e := Extra(p, burst);
      if auto then e + p.tAL + p.tRTP + p.tRP + lat
      else if d.Pre? then e + p.tAL + p.tBURST + p.tRTP - p.tCCD + lat
      else if d.Rd? then Bursts(p, burst)
      else if d.Wr? then e + p.tCAS + p.tBURST + p.tRTRS - p.tCWD + lat
      else 0
    case Wr(_, burst, lat, auto) =>
      var e := Extra(p, burst);
      if auto then e + p.tAL + p.tCWD + p.tBURST + lat + p.tWR + p.tRP
      else if d.Pre? then e + p.tAL + p.tCWD + p.tBURST + lat + p.tWR
      else if d.Rd? then e + p.tCWD + p.tBURST + p.tWTR + lat
      else if d.Wr? then Bursts(p, burst) + lat
      else 0
    case Pre => if d.Act? || d.Ref? then p.PreToAct() else 0
    case Ref => if d.Act? || d.Ref? then p.tRFC else 0
  }

  /** Later cycles only move up. */
  lemma StepMonotone(p: Timing, s: Sub, o: Offer, d: Cmd)
    requires p.Ok()
    ensures Earliest(s, d) <= Earliest(Step(p, s, o), d)
  {
    FireKeepsEarliest(p, s, o.cycle, d);
    var s1 := Fire(p, s, o.cycle);
    if Issuable(s1, o.cycle, o.cmd) { AcceptMonotone(p, s1, o.cycle, o.cmd, d); }
  }

  lemma AcceptMonotone(p: Timing, s: Sub, now: nat, c: Cmd, d: Cmd)
    requires p.Ok()
    ensures Earliest(s, d) <= Earliest(Accept(p, s, now, c), d)
  {
  }

  lemma AcceptSeparates(p: Timing, s: Sub, o: Offer, d: Cmd)
    requires p.Ok() && Taken(p, s, o) && Sane(o.cmd)
    ensures Gap(p, o.cmd, d) == 0 || Earliest(Step(p, s, o), d) >= o.cycle + Gap(p, o.cmd, d)
  {
  }

  lemma {:induction false} EarliestAfter(p: Timing, os: seq<Offer>, i: nat, k: nat, d: Cmd)
    requires p.Ok() && Ordered(os) && i < k <= |os| && Accepted(p, os, i)
    ensures Gap(p, os[i].cmd, d) == 0 || Earliest(After(p, os, k), d) >= os[i].cycle + Gap(p, os[i].cmd, d)
    decreases k
  {
    if k == i + 1 {
      AcceptSeparates(p, After(p, os, i), os[i], d);
    } else {
      EarliestAfter(p, os, i, k - 1, d);
      StepMonotone(p, After(p, os, k - 1), os[k - 1], d);
    }
  }

  /** Timing safety over whole runs: any two accepted commands, adjacent or not, are separated by
      the interval the code defines for the pair. */
  lemma TimingSafety(p: Timing, os: seq<Offer>, i: nat, j: nat)
    requires p.Ok() && Ordered(os) && i < j < |os| && Accepted(p, os, i) && Accepted(p, os, j)
    ensures os[j].cycle >= os[i].cycle + Gap(p, os[i].cmd, os[j].cmd)
  {
    EarliestAfter(p, os, i, j, os[j].cmd);
    FireKeepsEarliest(p, After(p, os, j), os[j].cycle, os[j].cmd);
  }

  lemma {:induction false} BurstsAtLeast(p: Timing, n: nat)
    ensures Bursts(p, n) >= n * p.tBURST && Bursts(p, n) >= n * p.tCCD
    ensures Bursts(p, n) == n * p.tBURST || Bursts(p, n) == n * p.tCCD
  {
    if n > 0 {
      BurstsAtLeast(p, n - 1);
      OneMore(n, p.tBURST);
      OneMore(n, p.tCCD);
      if p.tBURST > p.tCCD { AllBursts(p, n - 1, p.tBURST); } else { AllBursts(p, n - 1, p.tCCD); }
    }
  }

  lemma OneMore(n: nat, t: nat)
    requires n > 0
    ensures n * t == (n - 1) * t + t
  {
  }

  lemma {:induction false} AllBursts(p: Timing, n: nat, t: nat)
    requires t == p.Burst()
    ensures Bursts(p, n) == n * t
  {
    if n > 0 {
      AllBursts(p, n - 1, t);
      OneMore(n, t);
    }
  }

  /** The intervals in the parameters of the memory: between any two accepted commands of a run pass
      tRCD and tRAS from an activation to a precharge, tRCD - tAL to an access; tRP from a precharge and
      tRFC from a refresh to an activation; tBURST and tCCD for every burst of an access; tWTR from the
      data of a write to a read and tWR to a precharge; tRTP from the last burst of a read to one. */
  lemma MeetsParameters(p: Timing, os: seq<Offer>, i: nat, j: nat)
    requires p.Ok() && Ordered(os) && i < j < |os| && Accepted(p, os, i) && Accepted(p, os, j)
    ensures
      var c, d, t := os[i].cmd, os[j].cmd, os[j].cycle - os[i].cycle;
      && (c.Act? && d.Pre? ==> t >= p.tRCD && t >= p.tRAS)
      && (c.Act? && (d.Rd? || d.Wr?) ==> t >= p.tRCD - p.tAL)
      && (c.Pre? && (d.Act? || d.Ref?) ==> t >= p.tRP && t >= 1)
      && (c.Ref? && (d.Act? || d.Ref?) ==> t >= p.tRFC)
      && (c.Rd? && d.Rd? && !c.auto ==> t >= c.burst * p.tBURST && t >= c.burst * p.tCCD)
      && (c.Wr? && d.Wr? && !c.auto ==> t >= c.burst * p.tBURST + c.lat && t >= c.burst * p.tCCD + c.lat)
      && (c.Wr? && d.Rd? && !c.auto ==> t >= p.tCWD + p.tBURST + p.tWTR + c.lat)
      && (c.Wr? && d.Pre? && !c.auto ==> t >= p.tAL + p.tCWD + p.tBURST + p.tWR + c.lat)
      && (c.Rd? && d.Pre? && !c.auto ==> t + p.tCCD >= p.tAL + p.tBURST + p.tRTP + c.lat)
  {
    TimingSafety(p, os, i, j);
    if os[i].cmd.Rd? || os[i].cmd.Wr? { BurstsAtLeast(p, os[i].cmd.burst); }
  }

  lemma FireKeepsEarliest(p: Timing, s: Sub, now: nat, d: Cmd)
    ensures Earliest(Fire(p, s, now), d) == Earliest(s, d)
  {
  }

  // ------------------------------------------------------------------ row cycle time

  /** What makes an implicit precharge wait long enough after the activation. */
  predicate AutoWaits(p: Timing) {
    && p.tRCD + p.tRTP + p.tRP >= p.ActToAct()
    && p.tRCD + p.tCWD + p.tBURST + p.tWR + p.tRP >= p.ActToAct()
  }

  predicate ExplicitOnly(os: seq<Offer>) {
    forall i | 0 <= i < |os| :: (os[i].cmd.Rd? || os[i].cmd.Wr?) ==> !os[i].cmd.auto
  }

  /** An activation at cycle `a` either holds its row open with no implicit precharge pending, or
      the next activation already waits for the row cycle time. */
  predicate Guarded(p: Timing, s: Sub, a: nat) {
    || (s.state == Open && s.due == Nothing
        && s.nextPrecharge >= a + p.ActToPre() && s.nextRead >= a + p.tRCD - p.tAL && s.nextWrite >= a + p.tRCD - p.tAL)
    || s.nextActivate >= a + p.ActToAct()
  }

  lemma GuardedStep(p: Timing, s: Sub, o: Offer, a: nat)
    requires p.Ok() && Sane(o.cmd) && Guarded(p, s, a)
    requires AutoWaits(p) || ((o.cmd.Rd? || o.cmd.Wr?) ==> !o.cmd.auto)
    ensures Guarded(p, Step(p, s, o), a)
  {
  }

  lemma {:induction false} GuardedAfter(p: Timing, os: seq<Offer>, i: nat, k: nat)
    requires p.Ok() && Ordered(os) && (AutoWaits(p) || ExplicitOnly(os))
    requires i < k <= |os| && Accepted(p, os, i) && os[i].cmd.Act?
    ensures Guarded(p, After(p, os, k), os[i].cycle)
    decreases k
  {
    if k == i + 1 {
      IdleWhenClosed(p, os, i);
    } else {
      GuardedAfter(p, os, i, k - 1);
      GuardedStep(p, After(p, os, k - 1), os[k - 1], os[i].cycle);
    }
  }

  /** A closed subarray waits for no response. */
  lemma {:induction false} IdleWhenClosed(p: Timing, os: seq<Offer>, k: nat)
    requires p.Ok() && k <= |os|
    ensures After(p, os, k).state == Closed ==> After(p, os, k).due == Nothing
    decreases k
  {
    if k > 0 { IdleWhenClosed(p, os, k - 1); }
  }

  /** Activations are a row cycle time apart in every run without implicit precharges; and with
      them, when the parameters make an implicit precharge wait long enough. */
  lemma RowCycleTime(p: Timing, os: seq<Offer>, i: nat, j: nat)
    requires p.Ok() && Ordered(os) && (AutoWaits(p) || ExplicitOnly(os))
    requires i < j < |os| && Accepted(p, os, i) && Accepted(p, os, j) && os[i].cmd.Act? && os[j].cmd.Act?
    ensures os[j].cycle >= os[i].cycle + p.ActToAct()
  {
    GuardedAfter(p, os, i, j);
  }

  /** When the parameters do not, the implicit precharge does break the row cycle time. */
  lemma ShortRowCycle(p: Timing) returns (os: seq<Offer>)
    requires p.Ok() && !AutoWaits(p)
    ensures |os| == 3 && Ordered(os) && Accepted(p, os, 0) && Accepted(p, os, 2) && os[0].cmd.Act? && os[2].cmd.Act?
    ensures os[2].cycle < os[0].cycle + p.ActToAct()
  {
    var t := p.tRCD - p.tAL;
    if p.tRCD + p.tRTP + p.tRP < p.ActToAct() {
      os := [Offer(0, Act(0)), Offer(t, Rd(0, 1, 0, true)), Offer(t + p.tAL + p.tRTP + p.tRP, Act(0))];
    } else {
      os := [Offer(0, Act(0)), Offer(t, Wr(0, 1, 0, true)),
             Offer(t + p.tAL + p.tCWD + p.tBURST + p.tWR + p.tRP, Act(0))];
    }
    var s1 := Step(p, FRESH, os[0]);
    assert After(p, os, 1) == s1;
    assert Extra(p, 1) == 0;
    var s2 := Step(p, s1, os[1]);
    assert After(p, os, 2) == s2;
    assert s2.due == PrechargesAt(os[2].cycle - p.tRP) && s2.nextActivate == os[2].cycle;
  }

  /** Activations are never closer than the row cycle time in any run, implicit precharges included. */
  ghost predicate RowCycleSafe(p: Timing)
    requires p.Ok()
  {
    forall os: seq<Offer>, i: nat, j: nat {:trigger Accepted(p, os, i), Accepted(p, os, j)}
      | Ordered(os) && i < j < |os| && Accepted(p, os, i) && Accepted(p, os, j) && os[i].cmd.Act? && os[j].cmd.Act? ::
      os[j].cycle >= os[i].cycle + p.ActToAct()
  }

  /** Exactly when: the parameters decide it. */
  lemma RowCycleSafeIff(p: Timing)
    requires p.Ok()
    ensures RowCycleSafe(p) <==> AutoWaits(p)
  {
    if AutoWaits(p) {
      forall os: seq<Offer>, i: nat, j: nat
        | Ordered(os) && i < j < |os| && Accepted(p, os, i) && Accepted(p, os, j) && os[i].cmd.Act? && os[j].cmd.Act?
        ensures os[j].cycle >= os[i].cycle + p.ActToAct()
      {
        RowCycleTime(p, os, i, j);
      }
    } else {
      var os := ShortRowCycle(p);
      assert Accepted(p, os, 0) && Accepted(p, os, 2);
    }
  }
}
