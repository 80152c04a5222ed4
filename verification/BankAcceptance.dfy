/**
 Exactly which commands a bank accepts, told by the commands accepted before: it is not powered down,
 every interval of the bank and of the subarray has passed, and the row it needs is open or none is.
 */
module BankAcceptance {
  import opened SubArrayTiming
  import BankTiming
  import opened BankSeparation
  import BankProjection
  import Acceptance

  type Bank = BankTiming.Bank
  type Proposal = BankTiming.Proposal

  // ------------------------------------------------------------------ power

  /** The last accepted power command was powering down, or there was none and the bank started down. */
  ghost predicate Asleep(p: Timing, initPD: bool, os: seq<Proposal>, bs: seq<Bank>, k: nat)
    requires p.Ok() && |bs| == |os| + 1 && k <= |os|
  {
    if k == 0 then initPD
    else if BankTiming.Took(p, bs[k - 1], os[k - 1]) && os[k - 1].cmd.PowerDown? then true
    else if BankTiming.Took(p, bs[k - 1], os[k - 1]) && os[k - 1].cmd.PowerUp? then false
    else Asleep(p, initPD, os, bs, k - 1)
  }

  lemma DownStep(p: Timing, b: Bank, o: Proposal, b': Bank)
    requires p.Ok() && BankTiming.BankOk(p, b) && BankTiming.Next(p, b, o, b')
    ensures b'.Down() <==>
      if BankTiming.Took(p, b, o) && o.cmd.PowerDown? then true
      else if BankTiming.Took(p, b, o) && o.cmd.PowerUp? then false
      else b.Down()
  {
    NextFacts(p, b, o, b');
    if BankTiming.Took(p, b, o) { IssueDown(p, BankTiming.FireAll(p, b, o.cycle), o); }
  }

  lemma IssueDown(p: Timing, f: Bank, o: Proposal)
    requires p.Ok() && BankTiming.BankOk(p, f) && BankTiming.Fits(f, o.cmd)
    requires BankTiming.MayIssue(f, o.cycle, o.cmd) && BankTiming.Issue(p, f, o.cycle, o.cmd).1
    ensures BankTiming.Issue(p, f, o.cycle, o.cmd).0.Down() <==>
      o.cmd.PowerDown? || (f.Down() && !o.cmd.PowerUp?)
  {
    match o.cmd
    case ToSub(sa, c) => ToSubDown(p, f, o.cycle, sa, c);
    case PreAll =>
    case PowerDown(_) =>
    case PowerUp =>
  }

  lemma ToSubDown(p: Timing, f: Bank, now: nat, sa: nat, c: Cmd)
    requires p.Ok() && BankTiming.BankOk(p, f) && sa < |f.subs| && Sane(c)
    requires BankTiming.MayIssue(f, now, BankTiming.ToSub(sa, c))
    ensures !f.Down() && !BankTiming.Issue(p, f, now, BankTiming.ToSub(sa, c)).0.Down()
  {
  }

  lemma {:induction false} AsleepIff(p: Timing, n: nat, initPD: bool, os: seq<Proposal>, bs: seq<Bank>, k: nat)
    requires p.Ok() && BankTiming.Run(p, n, initPD, os, bs) && k < |bs|
    ensures bs[k].Down() <==> Asleep(p, initPD, os, bs, k)
    decreases k
  {
    if k > 0 {
      AsleepIff(p, n, initPD, os, bs, k - 1);
      BankTiming.RunStep(p, n, initPD, os, bs, k - 1);
      DownStep(p, bs[k - 1], os[k - 1], bs[k]);
    }
  }

  // ------------------------------------------------------------------ limits

  /** Every command the bank accepted before is its interval back when `d` comes at cycle `now`. */
  ghost predicate BankApart(p: Timing, os: seq<Proposal>, bs: seq<Bank>, k: nat, d: BankTiming.BankCmd, now: nat)
    requires p.Ok() && |bs| == |os| + 1 && k <= |os|
  {
    k == 0
    || (BankApart(p, os, bs, k - 1, d, now)
        && (BankTiming.Took(p, bs[k - 1], os[k - 1]) ==>
          os[k - 1].cycle + BankGap(p, os[k - 1].cmd, d, bs[k - 1].state == BankTiming.PDPS) <= now))
  }

  /** A command raises a limit to its interval and no further; of powering down this holds of all but
      writes with implicit precharge. */
  lemma LimitStep(p: Timing, b: Bank, o: Proposal, b': Bank, d: BankTiming.BankCmd, now: nat)
    requires p.Ok() && BankTiming.BankOk(p, b) && BankTiming.Next(p, b, o, b') && o.cycle <= now
    requires !(d.PowerDown? && WriteAuto(o.cmd) && BankTiming.Took(p, b, o))
    ensures Limit(b', d) <= now <==>
      && Limit(b, d) <= now
      && (BankTiming.Took(p, b, o) ==> o.cycle + BankGap(p, o.cmd, d, b.state == BankTiming.PDPS) <= now)
  {
    NextFacts(p, b, o, b');
    if BankTiming.Took(p, b, o) { IssueLimit(p, BankTiming.FireAll(p, b, o.cycle), o, d, now); }
  }

  lemma IssueLimit(p: Timing, f: Bank, o: Proposal, d: BankTiming.BankCmd, now: nat)
    requires p.Ok() && BankTiming.BankOk(p, f) && BankTiming.Fits(f, o.cmd) && o.cycle <= now
    requires BankTiming.MayIssue(f, o.cycle, o.cmd) && BankTiming.Issue(p, f, o.cycle, o.cmd).1
    requires !(d.PowerDown? && WriteAuto(o.cmd))
    ensures Limit(BankTiming.Issue(p, f, o.cycle, o.cmd).0, d) <= now <==>
      Limit(f, d) <= now && o.cycle + BankGap(p, o.cmd, d, f.state == BankTiming.PDPS) <= now
  {
    match o.cmd
    case ToSub(sa, c) => ToSubLimit(p, f, o.cycle, sa, c, d, now);
    case PreAll =>
    case PowerDown(_) =>
    case PowerUp =>
  }

  lemma ToSubLimit(p: Timing, f: Bank, t: nat, sa: nat, c: Cmd, d: BankTiming.BankCmd, now: nat)
    requires p.Ok() && BankTiming.BankOk(p, f) && sa < |f.subs| && t <= now && Sane(c)
    requires BankTiming.Issue(p, f, t, BankTiming.ToSub(sa, c)).1 && !(d.PowerDown? && c.Wr? && c.auto)
    ensures Limit(BankTiming.Issue(p, f, t, BankTiming.ToSub(sa, c)).0, d) <= now <==>
      Limit(f, d) <= now && t + SubGap(p, c, d) <= now
  {
    var b1 := BankTiming.BankTimers(p, f, t, c);
    var b' := BankTiming.Issue(p, f, t, BankTiming.ToSub(sa, c)).0;
    assert Limit(b', d) == Limit(b1, d);
    TimersLimit(p, f, t, sa, c, d, now);
  }

  lemma TimersLimit(p: Timing, f: Bank, t: nat, sa: nat, c: Cmd, d: BankTiming.BankCmd, now: nat)
    requires p.Ok() && t <= now && Sane(c) && !(d.PowerDown? && c.Wr? && c.auto)
    ensures Limit(BankTiming.BankTimers(p, f, t, c), d) <= now <==>
      Limit(f, d) <= now && t + SubGap(p, c, d) <= now
  {
  }

  lemma {:induction false} LimitIsApart(p: Timing, n: nat, initPD: bool, os: seq<Proposal>, bs: seq<Bank>, k: nat,
                                        d: BankTiming.BankCmd, now: nat)
    requires p.Ok() && BankTiming.Run(p, n, initPD, os, bs) && k < |bs| && !d.PowerDown?
    requires BankProjection.Clock(os, k) <= now
    ensures Limit(bs[k], d) <= now <==> BankApart(p, os, bs, k, d, now)
    decreases k
  {
    if k > 0 {
      assert k > 1 ==> os[k - 2].cycle <= os[k - 1].cycle;
      LimitIsApart(p, n, initPD, os, bs, k - 1, d, now);
      BankTiming.RunStep(p, n, initPD, os, bs, k - 1);
      LimitStep(p, bs[k - 1], os[k - 1], bs[k], d, now);
    }
  }

  // ------------------------------------------------------------------ acceptance

  /** What a subarray asks of a command, by the commands that reached it before. */
  ghost predicate SubarrayTakes(p: Timing, os: seq<Proposal>, bs: seq<Bank>, sa: nat, k: nat, now: nat, c: Cmd)
    requires p.Ok() && |bs| == |os| + 1 && k <= |os|
  {
    var l := BankProjection.Offers(p, os, bs, sa, k) + [Offer(now, c)];
    Acceptance.Apart(p, l, |l| - 1, c, now) && Acceptance.Finds(p, l, |l| - 1, c, now)
  }

  /** A bank accepts a command to a subarray exactly when it is not powered down, every command accepted
      before is its interval back, at the bank and at the subarray, and the command finds what it needs. */
  lemma AcceptedIff(p: Timing, n: nat, initPD: bool, os: seq<Proposal>, bs: seq<Bank>, sa: nat, k: nat, now: nat,
                    c: Cmd)
    requires p.Ok() && BankTiming.Run(p, n, initPD, os, bs) && sa < n && k < |bs| && Sane(c)
    requires BankProjection.Clock(os, k) <= now
    ensures BankTiming.Took(p, bs[k], BankTiming.Proposal(now, BankTiming.ToSub(sa, c))) <==>
      && !Asleep(p, initPD, os, bs, k)
      && BankApart(p, os, bs, k, BankTiming.ToSub(sa, c), now)
      && SubarrayTakes(p, os, bs, sa, k, now, c)
  {
    SubarrayDecides(p, n, initPD, os, bs, sa, k, now, c);
    AsleepIff(p, n, initPD, os, bs, k);
    LimitIsApart(p, n, initPD, os, bs, k, BankTiming.ToSub(sa, c), now);
    if SubarrayTakes(p, os, bs, sa, k, now, c) && (c.Rd? || c.Wr?) {
      TakesOpen(p, n, initPD, os, bs, sa, k, now, c);
    }
    BankMayIff(bs[k], now, sa, c);
  }

  lemma BankMayIff(b: Bank, now: nat, sa: nat, c: Cmd)
    ensures BankTiming.BankMay(b, now, c) ==> Limit(b, BankTiming.ToSub(sa, c)) <= now && !b.Down()
    ensures c.Rd? || c.Wr? ==> b.state == BankTiming.BankOpen || b.state == BankTiming.PDA ==>
      Limit(b, BankTiming.ToSub(sa, c)) <= now && !b.Down() ==> BankTiming.BankMay(b, now, c)
    ensures !(c.Rd? || c.Wr?) ==> Limit(b, BankTiming.ToSub(sa, c)) <= now && !b.Down() ==>
      BankTiming.BankMay(b, now, c)
  {
  }

  lemma SubarrayDecides(p: Timing, n: nat, initPD: bool, os: seq<Proposal>, bs: seq<Bank>, sa: nat, k: nat, now: nat,
                        c: Cmd)
    requires p.Ok() && BankTiming.Run(p, n, initPD, os, bs) && sa < n && k < |bs| && Sane(c)
    requires BankProjection.Clock(os, k) <= now
    ensures BankTiming.Took(p, bs[k], BankTiming.Proposal(now, BankTiming.ToSub(sa, c))) <==>
      BankTiming.BankMay(bs[k], now, c) && SubarrayTakes(p, os, bs, sa, k, now, c)
  {
    BankProjection.BankAcceptsIff(p, n, initPD, os, bs, sa, k, now, c);
  }

  /** A subarray that takes a read or write is open, and so is its bank. */
  lemma TakesOpen(p: Timing, n: nat, initPD: bool, os: seq<Proposal>, bs: seq<Bank>, sa: nat, k: nat, now: nat, c: Cmd)
    requires p.Ok() && BankTiming.Run(p, n, initPD, os, bs) && sa < n && k < |bs| && Sane(c) && (c.Rd? || c.Wr?)
    requires BankProjection.Clock(os, k) <= now && SubarrayTakes(p, os, bs, sa, k, now, c)
    ensures bs[k].state == BankTiming.BankOpen || bs[k].state == BankTiming.PDA
  {
    var l := BankProjection.Offers(p, os, bs, sa, k);
    BankProjection.SubarrayRuns(p, n, initPD, os, bs, sa, k);
    BankTiming.RunTrusted(p, n, initPD, os, bs, k);
    var s := bs[k].subs[sa];
    BankProjection.FollowsAccepts(p, s, l, l + [Offer(now, c)], BankProjection.Clock(os, k), now, c);
    BankTiming.FireSubOk(p, s, now);
    BankTiming.AcceptSubOk(p, Fire(p, s, now), now, c);
    assert sa in bs[k].active;
  }

  /** Powering up is accepted exactly in a bank that is down and has been for tPD. */
  lemma PowerUpIff(p: Timing, n: nat, initPD: bool, os: seq<Proposal>, bs: seq<Bank>, k: nat, now: nat)
    requires p.Ok() && BankTiming.Run(p, n, initPD, os, bs) && k < |bs| && BankProjection.Clock(os, k) <= now
    ensures BankTiming.Took(p, bs[k], BankTiming.Proposal(now, BankTiming.PowerUp)) <==>
      Asleep(p, initPD, os, bs, k) && BankApart(p, os, bs, k, BankTiming.PowerUp, now)
  {
    var o := BankTiming.Proposal(now, BankTiming.PowerUp);
    AsleepIff(p, n, initPD, os, bs, k);
    LimitIsApart(p, n, initPD, os, bs, k, BankTiming.PowerUp, now);
    BankTiming.RunTrusted(p, n, initPD, os, bs, k);
    assert BankTiming.Fits(bs[k], o.cmd);
  }
}
