/**
 The controller's view of a bank and the timing automaton of the bank, together: the row buffers that
 the commands of a queue assume are those of the automaton, and the head of a queue becomes issuable
 after a time that depends on the parameters only.
 */
module QueueProgress {
  import opened SubArrayTiming
  import S = RowShadow
  import B = BankTiming

  // ------------------------------------------------------------------ row buffers

  /** The open row of a subarray; one that is about to precharge by itself counts as closed. */
  function RowOf(s: Sub): S.Option<nat> { if B.Held(s) then S.Some(s.openRow) else S.None }

  function RowsOf(b: B.Bank): (r: S.Rows)
    ensures |r| == |b.subs| && forall i | 0 <= i < |r| :: r[i] == RowOf(b.subs[i])
  {
    seq(|b.subs|, i requires 0 <= i < |b.subs| => RowOf(b.subs[i]))
  }

  /** When a command is issued, how many bursts it takes and the extra latency it has. */
  datatype How = How(cycle: nat, burst: nat, lat: nat)

  /** A command of the controller as the bank gets it. A REFRESH goes to subarray 0. */
  function ToBank(c: S.Command, h: How): B.BankCmd {
    match c.op
    case Activate => B.ToSub(c.subarray, Act(c.row))
    case Read => B.ToSub(c.subarray, Rd(c.row, h.burst, h.lat, false))
    case ReadPrecharge => B.ToSub(c.subarray, Rd(c.row, h.burst, h.lat, true))
    case Write => B.ToSub(c.subarray, Wr(c.row, h.burst, h.lat, false))
    case WritePrecharge => B.ToSub(c.subarray, Wr(c.row, h.burst, h.lat, true))
    case Precharge => B.ToSub(c.subarray, Pre)
    case PrechargeAll => B.PreAll
    case Refresh => B.ToSub(0, Ref)
  }

  ghost predicate Linked(p: Timing, b: B.Bank) {
    p.Ok() && B.BankOk(p, b) && b.Awake() && |b.subs| > 0
  }

  lemma FiredRows(p: Timing, b: B.Bank, now: nat)
    requires B.BankOk(p, b)
    ensures RowsOf(B.FireAll(p, b, now)) == RowsOf(b)
  {
    forall i | 0 <= i < |b.subs| ensures RowOf(B.FireAll(p, b, now).subs[i]) == RowOf(b.subs[i]) {
      B.FireSubOk(p, b.subs[i], now);
    }
  }

  // ------------------------------------------------------------------ a legal command gets through

  /** No limit, and no response that is pending, is later than cycle `t`. */
  predicate SubQuiet(p: Timing, s: Sub, t: nat) {
    && s.nextActivate <= t && s.nextPrecharge <= t && s.nextRead <= t && s.nextWrite <= t
    && (s.due.PrechargesAt? ==> s.due.cycle + p.tRP <= t) && (s.due.ClosesAt? ==> s.due.cycle <= t)
  }

  predicate QuietBy(p: Timing, b: B.Bank, t: nat) {
    && b.nextActivate <= t && b.nextPrecharge <= t && b.nextRead <= t && b.nextWrite <= t
    && AllQuiet(p, b.subs, t)
  }

  predicate AllQuiet(p: Timing, subs: seq<Sub>, t: nat) {
    forall i | 0 <= i < |subs| :: SubQuiet(p, subs[i], t)
  }

  /** Once it is quiet, a subarray is open with its row held, or closed. */
  lemma QuietSub(p: Timing, s: Sub, now: nat)
    requires B.SubOk(p, s) && SubQuiet(p, s, now)
    ensures var f := Fire(p, s, now);
      && f.state == (if B.Held(s) then Open else Closed) && (B.Held(s) ==> f.openRow == s.openRow)
      && f.nextActivate <= now && f.nextPrecharge <= now && f.nextRead <= now && f.nextWrite <= now
  {
  }

  /** A command that is legal for the row buffers is issuable as soon as the bank is quiet. */
  lemma LegalIsIssuable(p: Timing, b: B.Bank, c: S.Command, h: How)
    requires Linked(p, b) && QuietBy(p, b, h.cycle) && S.Apply(RowsOf(b), c).Some? && h.burst >= 1
    ensures B.Fits(b, ToBank(c, h))
    ensures B.MayIssue(B.FireAll(p, b, h.cycle), h.cycle, ToBank(c, h))
  {
    var f := B.FireAll(p, b, h.cycle);
    forall i | 0 <= i < |b.subs|
      ensures f.subs[i].state == (if B.Held(b.subs[i]) then Open else Closed)
      ensures B.Held(b.subs[i]) ==> f.subs[i].openRow == b.subs[i].openRow
      ensures f.subs[i].nextActivate <= h.cycle && f.subs[i].nextPrecharge <= h.cycle
      ensures f.subs[i].nextRead <= h.cycle && f.subs[i].nextWrite <= h.cycle
    {
      QuietSub(p, b.subs[i], h.cycle);
    }
    if c.op.Refresh? {
      assert RowsOf(b)[0] == S.None;
    } else if !c.op.PrechargeAll? {
      assert RowsOf(b)[c.subarray] == RowOf(b.subs[c.subarray]);
    }
  }

  // ------------------------------------------------------------------ what it does

  lemma RowAfter(p: Timing, s: Sub, now: nat, c: Cmd)
    requires p.Ok() && B.SubOk(p, s) && B.Fired(s, now) && Issuable(s, now, c)
    ensures RowOf(Accept(p, s, now, c)) ==
      if c.Act? then S.Some(c.row) else if (c.Rd? || c.Wr?) && !c.auto then RowOf(s) else S.None
  {
    B.AcceptSubOk(p, s, now, c);
  }

  /** An issued command changes the row buffers of the automaton as the controller assumes. */
  lemma IssueApplies(p: Timing, b: B.Bank, c: S.Command, h: How)
    requires Linked(p, b) && S.Apply(RowsOf(b), c).Some? && h.burst >= 1 && B.Fits(b, ToBank(c, h))
    requires B.MayIssue(B.FireAll(p, b, h.cycle), h.cycle, ToBank(c, h))
    ensures var r := B.Issue(p, B.FireAll(p, b, h.cycle), h.cycle, ToBank(c, h));
      r.1 && Linked(p, r.0) && RowsOf(r.0) == S.Apply(RowsOf(b), c).value
  {
    var f := B.FireAll(p, b, h.cycle);
    var cmd := ToBank(c, h);
    B.FireAllOk(p, b, h.cycle);
    B.IssuableIsTrusted(p, f, h.cycle, cmd);
    FiredRows(p, b, h.cycle);
    if cmd.PreAll? {
      AllClosed(p, f, h.cycle);
    } else {
      OneApplied(p, f, c, h);
    }
  }

  lemma AllClosed(p: Timing, f: B.Bank, now: nat)
    requires p.Ok() && B.BankOk(p, f) && B.MayIssue(f, now, B.PreAll)
    requires forall i | 0 <= i < |f.subs| :: B.Fired(f.subs[i], now)
    ensures var r := B.Issue(p, f, now, B.PreAll).0;
      |r.subs| == |f.subs| && r.Awake() && forall i | 0 <= i < |r.subs| :: RowOf(r.subs[i]) == S.None
  {
    B.CloseListedFacts(p, f.subs, f.active, now);
  }

  lemma OneApplied(p: Timing, f: B.Bank, c: S.Command, h: How)
    requires Linked(p, f) && (forall i | 0 <= i < |f.subs| :: B.Fired(f.subs[i], h.cycle))
    requires S.Apply(RowsOf(f), c).Some? && !c.op.PrechargeAll? && B.Fits(f, ToBank(c, h))
    requires B.MayIssue(f, h.cycle, ToBank(c, h)) && B.Issue(p, f, h.cycle, ToBank(c, h)).1
    ensures var r := B.Issue(p, f, h.cycle, ToBank(c, h)).0;
      |r.subs| == |f.subs| && r.Awake() && RowsOf(r) == S.Apply(RowsOf(f), c).value
  {
    var cmd := ToBank(c, h);
    var r := B.Issue(p, f, h.cycle, cmd).0;
    RowAfter(p, f.subs[cmd.sa], h.cycle, cmd.cmd);
    assert r.subs == f.subs[cmd.sa := Accept(p, f.subs[cmd.sa], h.cycle, cmd.cmd)];
    var d := S.Apply(RowsOf(f), c).value;
    forall i | 0 <= i < |r.subs| ensures RowsOf(r)[i] == d[i] {
      assert i != cmd.sa ==> r.subs[i] == f.subs[i];
    }
  }

  // ------------------------------------------------------------------ how long it waits

  /** A time after which no command of at most `n` bursts and latency `l` holds up another. */
  function Settle(p: Timing, n: nat, l: nat): nat {
    Bursts(p, n) + l + p.tRCD + p.tRAS + p.tRP + 1 + p.tAL + p.tBURST + p.tRTP + p.tCAS + p.tRTRS + p.tCWD
    + p.tWR + p.tWTR + p.tRFC
  }

  lemma {:induction false} BurstsMonotone(p: Timing, m: nat, n: nat)
    requires m <= n
    ensures Bursts(p, m) <= Bursts(p, n)
  {
    if m < n { BurstsMonotone(p, m, n - 1); }
  }

  predicate Bounded(c: Cmd, n: nat, l: nat) {
    c.Rd? || c.Wr? ==> 1 <= c.burst <= n && c.lat <= l
  }

  lemma AcceptQuiet(p: Timing, s: Sub, now: nat, c: Cmd, n: nat, l: nat, t: nat)
    requires p.Ok() && SubQuiet(p, s, t) && Bounded(c, n, l) && now + Settle(p, n, l) <= t
    ensures SubQuiet(p, Accept(p, s, now, c), t)
  {
    if c.Rd? || c.Wr? {
      BurstsMonotone(p, c.burst, n);
      BurstsMonotone(p, c.burst - 1, n);
      AccessQuiet(p, s, now, c, Bursts(p, n), l, t);
    }
  }

  lemma AccessQuiet(p: Timing, s: Sub, now: nat, c: Cmd, bursts: nat, l: nat, t: nat)
    requires p.Ok() && SubQuiet(p, s, t) && (c.Rd? || c.Wr?) && c.lat <= l
    requires Extra(p, c.burst) <= bursts && Bursts(p, c.burst) <= bursts
    requires now + bursts + l + p.tRP + p.tAL + p.tBURST + p.tRTP + p.tCAS + p.tRTRS + p.tCWD + p.tWR + p.tWTR <= t
    ensures SubQuiet(p, Accept(p, s, now, c), t)
  {
  }

  lemma FireQuiet(p: Timing, s: Sub, now: nat, t: nat)
    requires SubQuiet(p, s, t)
    ensures SubQuiet(p, Fire(p, s, now), t)
  {
  }

  lemma {:induction false} CloseListedQuiet(p: Timing, subs: seq<Sub>, q: seq<nat>, now: nat, n: nat, l: nat, t: nat)
    requires p.Ok() && (forall i | 0 <= i < |q| :: q[i] < |subs|) && now + Settle(p, n, l) <= t
    requires AllQuiet(p, subs, t)
    ensures AllQuiet(p, B.CloseListed(p, subs, q, now).0, t)
    decreases |q|
  {
    if q != [] && Issuable(subs[q[0]], now, Pre) {
      AcceptQuiet(p, subs[q[0]], now, Pre, n, l, t);
      var subs1 := subs[q[0] := Accept(p, subs[q[0]], now, Pre)];
      CloseListedQuiet(p, subs1, q[1..], now, n, l, t);
      assert B.CloseListed(p, subs, q, now) == B.CloseListed(p, subs1, q[1..], now);
    }
  }

  lemma TimersQuiet(p: Timing, b: B.Bank, now: nat, c: Cmd, n: nat, l: nat, t: nat)
    requires p.Ok() && Bounded(c, n, l) && now + Settle(p, n, l) <= t
    requires b.nextActivate <= t && b.nextPrecharge <= t && b.nextRead <= t && b.nextWrite <= t
    ensures var r := B.BankTimers(p, b, now, c);
      r.nextActivate <= t && r.nextPrecharge <= t && r.nextRead <= t && r.nextWrite <= t
  {
    if c.Rd? || c.Wr? {
      BurstsMonotone(p, c.burst, n);
      BurstsMonotone(p, c.burst - 1, n);
    }
  }

  /** An issued command keeps the bank quiet from the settling time after it on. */
  lemma IssueQuiet(p: Timing, b: B.Bank, c: S.Command, h: How, n: nat, l: nat, t: nat)
    requires p.Ok() && QuietBy(p, b, t) && h.cycle + Settle(p, n, l) <= t && 1 <= h.burst <= n && h.lat <= l
    requires B.Fits(b, ToBank(c, h)) && forall i | 0 <= i < |b.active| :: b.active[i] < |b.subs|
    ensures QuietBy(p, B.Issue(p, B.FireAll(p, b, h.cycle), h.cycle, ToBank(c, h)).0, t)
  {
    var f := B.FireAll(p, b, h.cycle);
    forall i | 0 <= i < |f.subs| ensures SubQuiet(p, f.subs[i], t) { FireQuiet(p, b.subs[i], h.cycle, t); }
    var cmd := ToBank(c, h);
    if cmd.PreAll? {
      CloseListedQuiet(p, f.subs, f.active, h.cycle, n, l, t);
    } else {
      TimersQuiet(p, f, h.cycle, cmd.cmd, n, l, t);
      AcceptQuiet(p, f.subs[cmd.sa], h.cycle, cmd.cmd, n, l, t);
    }
  }

  // ------------------------------------------------------------------ whole runs

  /** A step of the controller on a queue with the bank behind it: issuing the head takes a cycle in
      which the bank accepts it, the other steps leave the bank alone. */
  ghost predicate IsJointStep(p: S.Params, t: Timing, from: (S.Bank, B.Bank), s: S.Step, h: How, to: (S.Bank, B.Bank))
    requires 0 < p.rbSize && t.Ok()
  {
    && from.0.Shaped(|from.0.active|) && S.Enabled(from.0, s)
    && to.0 == S.Take(p, from.0, RowsOf(from.1), s).0
    && if s.IssueNext? then
         var cmd := ToBank(from.0.queue[0].cmd, h);
         && (forall i | 0 <= i < |from.1.active| :: from.1.active[i] < |from.1.subs|) && B.Fits(from.1, cmd)
         && B.MayIssue(B.FireAll(t, from.1, h.cycle), h.cycle, cmd)
         && to.1 == B.Issue(t, B.FireAll(t, from.1, h.cycle), h.cycle, cmd).0
       else to.1 == from.1
  }

  /** A run of a queue and its bank from start-up, in the order of the cycles. */
  ghost predicate IsJointRun(p: S.Params, t: Timing, subs: nat, steps: seq<S.Step>, hows: seq<How>,
                             states: seq<(S.Bank, B.Bank)>)
    requires 0 < p.rbSize && t.Ok()
  {
    && |steps| == |hows| && |states| == |steps| + 1
    && states[0] == (S.Idle(p, subs), B.FreshBank(subs, false))
    && forall k {:trigger JointStepAt(p, t, steps, hows, states, k)} | 0 <= k < |steps| ::
      JointStepAt(p, t, steps, hows, states, k)
  }

  ghost predicate JointStepAt(p: S.Params, t: Timing, steps: seq<S.Step>, hows: seq<How>,
                              states: seq<(S.Bank, B.Bank)>, k: nat)
    requires 0 < p.rbSize && t.Ok() && k < |steps| == |hows| && |states| == |steps| + 1
  {
    LastCycle(hows, k) <= hows[k].cycle && IsJointStep(p, t, states[k], steps[k], hows[k], states[k + 1])
  }

  ghost predicate Sizes(hows: seq<How>, n: nat, l: nat) {
    forall i | 0 <= i < |hows| :: 1 <= hows[i].burst <= n && hows[i].lat <= l
  }

  /** The queue fits the row buffers of the bank, which is quiet after the settling time. */
  ghost predicate InStep(p: S.Params, t: Timing, s: (S.Bank, B.Bank), quiet: nat) {
    Linked(t, s.1) && S.Simulates(p, s.0, RowsOf(s.1)) && QuietBy(t, s.1, quiet)
  }

  lemma QuietLater(p: Timing, b: B.Bank, t: nat, u: nat)
    requires QuietBy(p, b, t) && t <= u
    ensures QuietBy(p, b, u)
  {
    forall i | 0 <= i < |b.subs| ensures SubQuiet(p, b.subs[i], u) { assert SubQuiet(p, b.subs[i], t); }
  }

  lemma StepInStep(p: S.Params, t: Timing, s: (S.Bank, B.Bank), step: S.Step, h: How, s': (S.Bank, B.Bank),
                   n: nat, l: nat, quiet: nat)
    requires 0 < p.rbSize && p.usePrecharge && t.Ok() && IsJointStep(p, t, s, step, h, s')
    requires InStep(p, t, s, quiet) && h.cycle + Settle(t, n, l) <= quiet && 1 <= h.burst <= n && h.lat <= l
    ensures InStep(p, t, s', quiet)
  {
    S.TakeSimulates(p, s.0, RowsOf(s.1), step);
    if step.IssueNext? {
      var c := s.0.queue[0].cmd;
      IssueApplies(t, s.1, c, h);
      IssueQuiet(t, s.1, c, h, n, l, quiet);
    }
  }

  lemma StepOn(p: S.Params, t: Timing, s: (S.Bank, B.Bank), step: S.Step, h: How, s': (S.Bank, B.Bank),
               n: nat, l: nat, last: nat)
    requires 0 < p.rbSize && p.usePrecharge && t.Ok() && IsJointStep(p, t, s, step, h, s') && last <= h.cycle
    requires InStep(p, t, s, last + Settle(t, n, l)) && 1 <= h.burst <= n && h.lat <= l
    ensures InStep(p, t, s', h.cycle + Settle(t, n, l))
  {
    QuietLater(t, s.1, last + Settle(t, n, l), h.cycle + Settle(t, n, l));
    StepInStep(p, t, s, step, h, s', n, l, h.cycle + Settle(t, n, l));
  }

  /** The cycle of the last step before state `k`. */
  function LastCycle(hows: seq<How>, k: nat): nat
    requires k <= |hows|
  {
    if k == 0 then 0 else hows[k - 1].cycle
  }

  lemma {:induction false} RunInStep(p: S.Params, t: Timing, subs: nat, steps: seq<S.Step>, hows: seq<How>,
                                     states: seq<(S.Bank, B.Bank)>, n: nat, l: nat, k: nat)
    requires 0 < p.rbSize && p.usePrecharge && t.Ok() && 0 < subs && IsJointRun(p, t, subs, steps, hows, states)
    requires Sizes(hows, n, l) && k <= |hows|
    ensures InStep(p, t, states[k], LastCycle(hows, k) + Settle(t, n, l))
    decreases k
  {
    if k == 0 {
      StartInStep(p, t, subs, Settle(t, n, l));
    } else {
      RunInStep(p, t, subs, steps, hows, states, n, l, k - 1);
      JointStepFacts(p, t, subs, steps, hows, states, n, l, k - 1);
      StepOn(p, t, states[k - 1], steps[k - 1], hows[k - 1], states[k], n, l, LastCycle(hows, k - 1));
    }
  }

  lemma JointStepFacts(p: S.Params, t: Timing, subs: nat, steps: seq<S.Step>, hows: seq<How>,
                       states: seq<(S.Bank, B.Bank)>, n: nat, l: nat, k: nat)
    requires 0 < p.rbSize && t.Ok() && IsJointRun(p, t, subs, steps, hows, states) && Sizes(hows, n, l) && k < |hows|
    ensures IsJointStep(p, t, states[k], steps[k], hows[k], states[k + 1])
    ensures LastCycle(hows, k) <= hows[k].cycle && 1 <= hows[k].burst <= n && hows[k].lat <= l
  {
    assert JointStepAt(p, t, steps, hows, states, k);
  }

  lemma StartInStep(p: S.Params, t: Timing, subs: nat, quiet: nat)
    requires 0 < p.rbSize && t.Ok() && 0 < subs
    ensures InStep(p, t, (S.Idle(p, subs), B.FreshBank(subs, false)), quiet)
  {
    var b, c := B.FreshBank(subs, false), S.Idle(p, subs);
    assert c.Rows() == RowsOf(b);
  }

  /** In every state of every run of a queue and its bank, the row buffers that the queue assumes are
      those of the bank, and the next command of the queue is issuable in every cycle from the
      settling time after the last one on: no queue is ever stuck. */
  lemma HeadsBecomeIssuable(p: S.Params, t: Timing, subs: nat, steps: seq<S.Step>, hows: seq<How>,
                            states: seq<(S.Bank, B.Bank)>, n: nat, l: nat, k: nat, h: How)
    requires 0 < p.rbSize && p.usePrecharge && t.Ok() && 0 < subs && IsJointRun(p, t, subs, steps, hows, states)
    requires Sizes(hows, n, l) && k <= |hows| && h.burst >= 1 && h.cycle >= LastCycle(hows, k) + Settle(t, n, l)
    ensures var (q, b) := states[k];
      && S.Simulates(p, q, RowsOf(b)) && B.BankOk(t, b)
      && (q.queue != [] && !q.queue[0].issued ==>
        var cmd := ToBank(q.queue[0].cmd, h);
        B.Fits(b, cmd) && B.MayIssue(B.FireAll(t, b, h.cycle), h.cycle, cmd))
  {
    RunInStep(p, t, subs, steps, hows, states, n, l, k);
    var (q, b) := states[k];
    if q.queue != [] && !q.queue[0].issued {
      S.TakeSimulates(p, q, RowsOf(b), S.IssueNext);
      QuietLater(t, b, LastCycle(hows, k) + Settle(t, n, l), h.cycle);
      LegalIsIssuable(t, b, q.queue[0].cmd, h);
    }
  }
}
