/**
 Which row an accepted read or write goes to: the one that the last accepted activation opened, over
 whole runs of a subarray and of a bank.
 */
module RowAccess {
  import opened SubArrayTiming
  import BankTiming
  import BankSeparation

  type Bank = BankTiming.Bank
  type Proposal = BankTiming.Proposal

  /** Commands after which another row is open, or none. */
  predicate Turns(c: Cmd) {
    c.Act? || c.Pre? || c.Ref? || c.auto
  }

  predicate Accesses(c: Cmd) { c.Rd? || c.Wr? }

  /** The subarray holds `row` open with no implicit precharge under way. */
  predicate Holds(s: Sub, row: nat) { BankTiming.Held(s) && s.openRow == row }

  // ------------------------------------------------------------------ one subarray

  /** Offer `i` was accepted and opened `row`, and none accepted between it and `k` turned the row. */
  ghost predicate OpenedAt(p: Timing, os: seq<Offer>, i: nat, k: nat, row: nat)
    requires p.Ok() && k <= |os|
  {
    && i < k && os[i].cmd == Act(row) && Accepted(p, os, i)
    && forall m | i < m < k && Accepted(p, os, m) :: !Turns(os[m].cmd)
  }

  ghost predicate Opened(p: Timing, os: seq<Offer>, k: nat, row: nat)
    requires p.Ok() && k <= |os|
  {
    exists i: nat :: OpenedAt(p, os, i, k, row)
  }

  /** An offer opens the row it activates; otherwise the row stays open exactly if it was and the offer
      is refused or does not turn it. */
  lemma StepHolds(p: Timing, s: Sub, o: Offer, row: nat)
    requires p.Ok() && BankTiming.SubOk(p, s)
    ensures BankTiming.SubOk(p, Step(p, s, o))
    ensures Holds(Step(p, s, o), row) <==>
      if Taken(p, s, o) && Turns(o.cmd) then o.cmd == Act(row) else Holds(s, row)
  {
    var f := Fire(p, s, o.cycle);
    BankTiming.FireSubOk(p, s, o.cycle);
    if Issuable(f, o.cycle, o.cmd) { BankTiming.AcceptSubOk(p, f, o.cycle, o.cmd); }
  }

  lemma {:induction false} RunOk(p: Timing, os: seq<Offer>, k: nat)
    requires p.Ok() && k <= |os|
    ensures BankTiming.SubOk(p, After(p, os, k))
    decreases k
  {
    if k > 0 {
      RunOk(p, os, k - 1);
      StepHolds(p, After(p, os, k - 1), os[k - 1], 0);
    }
  }

  /** A row is open exactly when an accepted activation opened it and nothing turned it since. */
  lemma {:induction false} OpenIff(p: Timing, os: seq<Offer>, k: nat, row: nat)
    requires p.Ok() && k <= |os|
    ensures Holds(After(p, os, k), row) <==> Opened(p, os, k, row)
    decreases k
  {
    if k > 0 {
      var s, o := After(p, os, k - 1), os[k - 1];
      RunOk(p, os, k - 1);
      StepHolds(p, s, o, row);
      OpenIff(p, os, k - 1, row);
      OpenedStep(p, os, k, row);
    }
  }

  lemma OpenedStep(p: Timing, os: seq<Offer>, k: nat, row: nat)
    requires p.Ok() && 0 < k <= |os|
    ensures Opened(p, os, k, row) <==>
      if Accepted(p, os, k - 1) && Turns(os[k - 1].cmd) then os[k - 1].cmd == Act(row) else Opened(p, os, k - 1, row)
  {
    var turned := Accepted(p, os, k - 1) && Turns(os[k - 1].cmd);
    if turned && os[k - 1].cmd == Act(row) {
      assert OpenedAt(p, os, k - 1, k, row);
    }
    if !turned && Opened(p, os, k - 1, row) {
      var i: nat :| OpenedAt(p, os, i, k - 1, row);
      assert OpenedAt(p, os, i, k, row);
    }
    if Opened(p, os, k, row) {
      var i: nat :| OpenedAt(p, os, i, k, row);
      if i < k - 1 { assert OpenedAt(p, os, i, k - 1, row); }
    }
  }

  /** A read or write is accepted exactly when its time has come and its own row is open: an accepted
      activation opened that row, and no activation, precharge, refresh or access with implicit
      precharge was accepted since. */
  lemma AccessIff(p: Timing, os: seq<Offer>, j: nat)
    requires p.Ok() && j < |os| && Accesses(os[j].cmd)
    ensures Accepted(p, os, j) <==>
      && Earliest(After(p, os, j), os[j].cmd) <= os[j].cycle
      && Opened(p, os, j, os[j].cmd.row)
  {
    RunOk(p, os, j);
    OpenIff(p, os, j, os[j].cmd.row);
    MayAccess(p, After(p, os, j), os[j].cycle, os[j].cmd);
  }

  lemma MayAccess(p: Timing, s: Sub, now: nat, c: Cmd)
    requires p.Ok() && BankTiming.SubOk(p, s) && Accesses(c)
    ensures Issuable(Fire(p, s, now), now, c) <==> Earliest(s, c) <= now && Holds(s, c.row)
  {
  }

  // ------------------------------------------------------------------ the subarrays of a bank

  /** Commands to the bank after which subarray `sa` has another row open, or none. */
  predicate TurnsIn(c: BankTiming.BankCmd, sa: nat) {
    c.PreAll? || (c.ToSub? && c.sa == sa && Turns(c.cmd))
  }

  ghost predicate OpenedIn(p: Timing, os: seq<Proposal>, bs: seq<Bank>, sa: nat, i: nat, k: nat, row: nat)
    requires p.Ok() && k <= |os| && |bs| == |os| + 1
  {
    && i < k && os[i].cmd == BankTiming.ToSub(sa, Act(row)) && BankTiming.Took(p, bs[i], os[i])
    && forall m {:trigger BankTiming.Took(p, bs[m], os[m])} | i < m < k && BankTiming.Took(p, bs[m], os[m]) ::
      !TurnsIn(os[m].cmd, sa)
  }

  ghost predicate OpenIn(p: Timing, os: seq<Proposal>, bs: seq<Bank>, sa: nat, k: nat, row: nat)
    requires p.Ok() && k <= |os| && |bs| == |os| + 1
  {
    exists i: nat :: OpenedIn(p, os, bs, sa, i, k, row)
  }

  lemma FireHolds(p: Timing, s: Sub, now: nat, row: nat)
    requires BankTiming.SubOk(p, s)
    ensures Holds(Fire(p, s, now), row) <==> Holds(s, row)
  {
  }

  /** As for one subarray: what a command to the bank does to the row of subarray `sa`. */
  lemma BankHolds(p: Timing, b: Bank, o: Proposal, b': Bank, sa: nat, row: nat)
    requires p.Ok() && BankTiming.BankOk(p, b) && BankTiming.Next(p, b, o, b') && sa < |b.subs|
    ensures |b'.subs| == |b.subs|
    ensures Holds(b'.subs[sa], row) <==>
      if BankTiming.Took(p, b, o) && TurnsIn(o.cmd, sa) then o.cmd == BankTiming.ToSub(sa, Act(row))
      else Holds(b.subs[sa], row)
  {
    var f := BankTiming.FireAll(p, b, o.cycle);
    BankTiming.FireAllOk(p, b, o.cycle);
    BankSeparation.NextFacts(p, b, o, b');
    FireHolds(p, b.subs[sa], o.cycle, row);
    if BankTiming.Took(p, b, o) { IssueHolds(p, f, o, sa, row); }
  }

  lemma IssueHolds(p: Timing, f: Bank, o: Proposal, sa: nat, row: nat)
    requires p.Ok() && BankTiming.BankOk(p, f) && BankTiming.Fits(f, o.cmd) && sa < |f.subs|
    requires BankTiming.MayIssue(f, o.cycle, o.cmd)
    requires forall i | 0 <= i < |f.subs| :: BankTiming.Fired(f.subs[i], o.cycle)
    ensures
      var b' := BankTiming.Issue(p, f, o.cycle, o.cmd).0;
      && |b'.subs| == |f.subs|
      && (Holds(b'.subs[sa], row) <==>
        if TurnsIn(o.cmd, sa) then o.cmd == BankTiming.ToSub(sa, Act(row)) else Holds(f.subs[sa], row))
  {
    match o.cmd
    case ToSub(x, c) =>
      BankTiming.IssuableIsTrusted(p, f, o.cycle, o.cmd);
      BankTiming.AcceptSubOk(p, f.subs[x], o.cycle, c);
    case PreAll =>
      BankTiming.CloseListedFacts(p, f.subs, f.active, o.cycle);
    case PowerDown(_) =>
    case PowerUp =>
  }

  lemma {:induction false} OpenInIff(p: Timing, n: nat, initPD: bool, os: seq<Proposal>, bs: seq<Bank>, sa: nat,
                                     k: nat, row: nat)
    requires p.Ok() && BankTiming.Run(p, n, initPD, os, bs) && sa < n && k < |bs|
    ensures BankTiming.BankOk(p, bs[k]) && |bs[k].subs| == n
    ensures Holds(bs[k].subs[sa], row) <==> OpenIn(p, os, bs, sa, k, row)
    decreases k
  {
    BankTiming.RunTrusted(p, n, initPD, os, bs, k);
    if k > 0 {
      var b, o := bs[k - 1], os[k - 1];
      OpenInIff(p, n, initPD, os, bs, sa, k - 1, row);
      BankTiming.RunStep(p, n, initPD, os, bs, k - 1);
      BankHolds(p, b, o, bs[k], sa, row);
      OpenedInStep(p, os, bs, sa, k, row);
    }
  }

  lemma OpenedInStep(p: Timing, os: seq<Proposal>, bs: seq<Bank>, sa: nat, k: nat, row: nat)
    requires p.Ok() && 0 < k <= |os| && |bs| == |os| + 1
    ensures OpenIn(p, os, bs, sa, k, row) <==>
      if BankTiming.Took(p, bs[k - 1], os[k - 1]) && TurnsIn(os[k - 1].cmd, sa) then
        os[k - 1].cmd == BankTiming.ToSub(sa, Act(row))
      else OpenIn(p, os, bs, sa, k - 1, row)
  {
    var turned := BankTiming.Took(p, bs[k - 1], os[k - 1]) && TurnsIn(os[k - 1].cmd, sa);
    if turned && os[k - 1].cmd == BankTiming.ToSub(sa, Act(row)) {
      assert OpenedIn(p, os, bs, sa, k - 1, k, row);
    }
    if !turned && OpenIn(p, os, bs, sa, k - 1, row) {
      var i: nat :| OpenedIn(p, os, bs, sa, i, k - 1, row);
      OpenedKept(p, os, bs, sa, i, k, row);
    }
    if OpenIn(p, os, bs, sa, k, row) {
      var i: nat :| OpenedIn(p, os, bs, sa, i, k, row);
      if i < k - 1 { assert OpenedIn(p, os, bs, sa, i, k - 1, row); }
    }
  }

  lemma OpenedKept(p: Timing, os: seq<Proposal>, bs: seq<Bank>, sa: nat, i: nat, k: nat, row: nat)
    requires p.Ok() && 0 < k <= |os| && |bs| == |os| + 1 && OpenedIn(p, os, bs, sa, i, k - 1, row)
    requires !(BankTiming.Took(p, bs[k - 1], os[k - 1]) && TurnsIn(os[k - 1].cmd, sa))
    ensures OpenedIn(p, os, bs, sa, i, k, row)
  {
  }

  /** An accepted read or write goes to the row that an accepted activation opened in its subarray, and
      no activation, precharge, refresh or implicit precharge of the subarray and no PRECHARGE_ALL was
      accepted since. */
  lemma AccessOpened(p: Timing, n: nat, initPD: bool, os: seq<Proposal>, bs: seq<Bank>, j: nat)
    requires p.Ok() && BankTiming.Run(p, n, initPD, os, bs) && j < |os| && BankTiming.Took(p, bs[j], os[j])
    requires os[j].cmd.ToSub? && Accesses(os[j].cmd.cmd)
    ensures OpenIn(p, os, bs, os[j].cmd.sa, j, os[j].cmd.cmd.row)
  {
    var b, o := bs[j], os[j];
    BankSeparation.CountKept(p, n, initPD, os, bs, j);
    OpenInIff(p, n, initPD, os, bs, o.cmd.sa, j, o.cmd.cmd.row);
    BankTiming.RunStep(p, n, initPD, os, bs, j);
    BankSeparation.NextFacts(p, b, o, bs[j + 1]);
    MayAccess(p, b.subs[o.cmd.sa], o.cycle, o.cmd.cmd);
  }

  /** And every open row can be accessed: after an activation that nothing turned, an awake bank takes a
      read or write of that row as soon as the limits of the bank and of the subarray allow. */
  lemma OpenedIsAccessible(p: Timing, n: nat, initPD: bool, os: seq<Proposal>, bs: seq<Bank>, sa: nat, i: nat, k: nat,
                           now: nat, c: Cmd)
    requires p.Ok() && BankTiming.Run(p, n, initPD, os, bs) && sa < n && k < |bs| && Accesses(c) && Sane(c)
    requires OpenedIn(p, os, bs, sa, i, k, c.row)
    requires |bs[k].subs| == n && bs[k].Awake() && Earliest(bs[k].subs[sa], c) <= now
    requires BankSeparation.Limit(bs[k], BankTiming.ToSub(sa, c)) <= now
    ensures BankTiming.Took(p, bs[k], BankTiming.Proposal(now, BankTiming.ToSub(sa, c)))
  {
    var o := BankTiming.Proposal(now, BankTiming.ToSub(sa, c));
    BankTiming.RunTrusted(p, n, initPD, os, bs, k);
    OpenInIff(p, n, initPD, os, bs, sa, k, c.row);
    MayAccess(p, bs[k].subs[sa], now, c);
    assert BankTiming.Fits(bs[k], o.cmd);
    assert sa in bs[k].active;
    assert BankTiming.MayIssue(BankTiming.FireAll(p, bs[k], now), now, o.cmd);
  }

  // ------------------------------------------------------------------ power-down

  /** The bank has a row open exactly when one of its subarrays does. */
  lemma ActiveIff(p: Timing, n: nat, initPD: bool, os: seq<Proposal>, bs: seq<Bank>, k: nat)
    requires p.Ok() && BankTiming.Run(p, n, initPD, os, bs) && k < |bs|
    ensures bs[k].active != [] <==> exists sa: nat, row: nat | sa < n :: OpenIn(p, os, bs, sa, k, row)
  {
    BankTiming.RunTrusted(p, n, initPD, os, bs, k);
    BankSeparation.CountKept(p, n, initPD, os, bs, k);
    if bs[k].active != [] {
      var sa := bs[k].active[0];
      assert sa in bs[k].active;
      OpenInIff(p, n, initPD, os, bs, sa, k, bs[k].subs[sa].openRow);
    }
    if sa: nat, row: nat :| sa < n && OpenIn(p, os, bs, sa, k, row) {
      OpenInIff(p, n, initPD, os, bs, sa, k, row);
      assert sa in bs[k].active;
    }
  }

  /** Told by the commands alone: when no row is open, a read after powering down with slow exit waits
      tXPDLL after powering up; with fast exit, or with a row open, it waits tXP. */
  lemma ReadWaitsForMode(p: Timing, n: nat, initPD: bool, os: seq<Proposal>, bs: seq<Bank>, i: nat, u: nat, j: nat)
    requires p.Ok() && BankTiming.Run(p, n, initPD, os, bs) && i < u < j < |os|
    requires BankTiming.Took(p, bs[i], os[i]) && BankTiming.Took(p, bs[u], os[u]) && BankTiming.Took(p, bs[j], os[j])
    requires os[i].cmd.PowerDown? && os[u].cmd.PowerUp? && BankSeparation.StaysDown(p, os, bs, i, u)
    requires os[j].cmd.ToSub? && os[j].cmd.cmd.Rd?
    ensures
      var rowOpen := exists sa: nat, row: nat | sa < n :: OpenIn(p, os, bs, sa, i, row);
      && os[j].cycle >= os[u].cycle + BankSeparation.ReadExit(p, rowOpen, os[i].cmd.mode)
      && bs[u + 1].nextRead ==
        Max(bs[i].nextRead, os[u].cycle + BankSeparation.ReadExit(p, rowOpen, os[i].cmd.mode))
  {
    ActiveIff(p, n, initPD, os, bs, i);
    BankSeparation.ReadAfterPowerDown(p, n, initPD, os, bs, i, u, j);
    BankSeparation.PowerUpRestores(p, n, initPD, os, bs, i, u);
  }
}
