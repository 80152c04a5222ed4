/**
 Exactly which commands a subarray accepts, told by the commands it accepted before: those for which
 every interval has passed, when the row they need is open or no row is.
 */
module Acceptance {
  import opened SubArrayTiming
  import BankTiming
  import opened RowAccess

  // ------------------------------------------------------------------ when a subarray is free again

  /** The next activation waits exactly for the end of the precharge or refresh under way. */
  predicate Punctual(p: Timing, s: Sub, now: nat) {
    && BankTiming.SubOk(p, s)
    && match s.due
       case Nothing => s.nextActivate <= now
       case ClosesAt(t) => s.nextActivate == t
       case PrechargesAt(t) => s.nextActivate == t + p.tRP
  }

  lemma FirePunctual(p: Timing, s: Sub, now: nat)
    requires Punctual(p, s, now)
    ensures Punctual(p, Fire(p, s, now), now) && BankTiming.Fired(Fire(p, s, now), now)
  {
  }

  lemma AcceptPunctual(p: Timing, s: Sub, now: nat, c: Cmd)
    requires p.Ok() && Punctual(p, s, now) && BankTiming.Fired(s, now) && Issuable(s, now, c)
    ensures Punctual(p, Accept(p, s, now, c), now)
  {
    BankTiming.AcceptSubOk(p, s, now, c);
  }

  lemma StepPunctual(p: Timing, s: Sub, before: nat, o: Offer)
    requires p.Ok() && Punctual(p, s, before) && before <= o.cycle
    ensures Punctual(p, Step(p, s, o), o.cycle)
  {
    FirePunctual(p, s, o.cycle);
    var f := Fire(p, s, o.cycle);
    if Issuable(f, o.cycle, o.cmd) { AcceptPunctual(p, f, o.cycle, o.cmd); }
  }

  lemma {:induction false} RunPunctual(p: Timing, os: seq<Offer>, k: nat, now: nat)
    requires p.Ok() && Ordered(os) && k <= |os| && forall i | 0 <= i < k :: os[i].cycle <= now
    ensures Punctual(p, After(p, os, k), now)
    decreases k
  {
    if k > 0 {
      RunPunctual(p, os, k - 1, os[k - 1].cycle);
      StepPunctual(p, After(p, os, k - 1), os[k - 1].cycle, os[k - 1]);
    }
  }

  // ------------------------------------------------------------------ limits are intervals

  /** Every command accepted before is its interval back when `d` comes at cycle `now`. */
  ghost predicate Apart(p: Timing, os: seq<Offer>, k: nat, d: Cmd, now: nat)
    requires p.Ok() && k <= |os|
  {
    forall i | 0 <= i < k && Accepted(p, os, i) :: os[i].cycle + Gap(p, os[i].cmd, d) <= now
  }

  /** An accepted command raises a limit to its interval and no further. */
  lemma StepLimits(p: Timing, s: Sub, o: Offer, d: Cmd, now: nat)
    requires p.Ok() && Punctual(p, s, o.cycle) && Sane(o.cmd) && o.cycle <= now
    ensures Earliest(Step(p, s, o), d) <= now <==>
      Earliest(s, d) <= now && (Taken(p, s, o) ==> o.cycle + Gap(p, o.cmd, d) <= now)
  {
    FireKeepsEarliest(p, s, o.cycle, d);
    FirePunctual(p, s, o.cycle);
    var f := Fire(p, s, o.cycle);
    if Issuable(f, o.cycle, o.cmd) {
      BankTiming.AcceptSubOk(p, f, o.cycle, o.cmd);
      AcceptLimits(p, f, o.cycle, o.cmd, d, now);
    }
  }

  lemma AcceptLimits(p: Timing, f: Sub, t: nat, c: Cmd, d: Cmd, now: nat)
    requires p.Ok() && Punctual(p, f, t) && f.due == Nothing && Sane(c) && t <= now
    ensures Earliest(Accept(p, f, t, c), d) <= now <==> Earliest(f, d) <= now && t + Gap(p, c, d) <= now
  {
    if Accesses(c) && c.auto {
      AutoLimits(p, f, t, c, d, now);
    } else if Accesses(c) {
      AccessLimits(p, f, t, c, d, now);
    }
  }

  lemma AccessLimits(p: Timing, f: Sub, t: nat, c: Cmd, d: Cmd, now: nat)
    requires p.Ok() && Sane(c) && t <= now && Accesses(c) && !c.auto
    ensures Earliest(Accept(p, f, t, c), d) <= now <==> Earliest(f, d) <= now && t + Gap(p, c, d) <= now
  {
  }

  lemma AutoLimits(p: Timing, f: Sub, t: nat, c: Cmd, d: Cmd, now: nat)
    requires p.Ok() && f.nextActivate <= t && Sane(c) && t <= now && Accesses(c) && c.auto
    ensures Earliest(Accept(p, f, t, c), d) <= now <==> Earliest(f, d) <= now && t + Gap(p, c, d) <= now
  {
  }

  lemma {:induction false} LimitIsApart(p: Timing, os: seq<Offer>, k: nat, d: Cmd, now: nat)
    requires p.Ok() && Ordered(os) && k <= |os| && forall i | 0 <= i < k :: os[i].cycle <= now
    ensures Earliest(After(p, os, k), d) <= now <==> Apart(p, os, k, d, now)
    decreases k
  {
    if k > 0 {
      var s, o := After(p, os, k - 1), os[k - 1];
      LimitIsApart(p, os, k - 1, d, now);
      RunPunctual(p, os, k - 1, o.cycle);
      StepLimits(p, s, o, d, now);
      ApartStep(p, os, k, d, now);
    }
  }

  lemma ApartStep(p: Timing, os: seq<Offer>, k: nat, d: Cmd, now: nat)
    requires p.Ok() && 0 < k <= |os|
    ensures Apart(p, os, k, d, now) <==>
      && Apart(p, os, k - 1, d, now)
      && (Accepted(p, os, k - 1) ==> os[k - 1].cycle + Gap(p, os[k - 1].cmd, d) <= now)
  {
  }

  // ------------------------------------------------------------------ acceptance

  ghost predicate RowOpen(p: Timing, os: seq<Offer>, k: nat)
    requires p.Ok() && k <= |os|
  {
    exists row: nat :: Opened(p, os, k, row)
  }

  /** What the command finds, by the commands accepted before: a read or write its own row open; an
      activation or a refresh no row open; a precharge a row open, or the subarray ready for an
      activation. */
  ghost predicate Finds(p: Timing, os: seq<Offer>, k: nat, d: Cmd, now: nat)
    requires p.Ok() && k <= |os|
  {
    match d
    case Act(_) => !RowOpen(p, os, k)
    case Rd(row, _, _, _) => Opened(p, os, k, row)
    case Wr(row, _, _, _) => Opened(p, os, k, row)
    case Pre => RowOpen(p, os, k) || Apart(p, os, k, Act(0), now)
    case Ref => !RowOpen(p, os, k)
  }

  lemma RowOpenIff(p: Timing, os: seq<Offer>, k: nat)
    requires p.Ok() && k <= |os|
    ensures RowOpen(p, os, k) <==> BankTiming.Held(After(p, os, k))
  {
    OpenIff(p, os, k, After(p, os, k).openRow);
    if row: nat :| Opened(p, os, k, row) { OpenIff(p, os, k, row); }
  }

  lemma IssuableIff(p: Timing, s: Sub, now: nat, d: Cmd)
    requires Punctual(p, s, now)
    ensures Issuable(Fire(p, s, now), now, d) <==>
      && Earliest(s, d) <= now
      && match d
         case Act(_) => !BankTiming.Held(s)
         case Rd(row, _, _, _) => Holds(s, row)
         case Wr(row, _, _, _) => Holds(s, row)
         case Pre => BankTiming.Held(s) || s.nextActivate <= now
         case Ref => !BankTiming.Held(s)
  {
  }

  /** A command is accepted exactly when every accepted command is its interval back and the command
      finds what it needs. */
  lemma AcceptedIff(p: Timing, os: seq<Offer>, j: nat)
    requires p.Ok() && Ordered(os) && j < |os|
    ensures Accepted(p, os, j) <==>
      Apart(p, os, j, os[j].cmd, os[j].cycle) && Finds(p, os, j, os[j].cmd, os[j].cycle)
  {
    var s, o := After(p, os, j), os[j];
    RunPunctual(p, os, j, o.cycle);
    LimitIsApart(p, os, j, o.cmd, o.cycle);
    LimitIsApart(p, os, j, Act(0), o.cycle);
    RowOpenIff(p, os, j);
    if Accesses(o.cmd) { OpenIff(p, os, j, o.cmd.row); }
    IssuableIff(p, s, o.cycle, o.cmd);
  }
}
