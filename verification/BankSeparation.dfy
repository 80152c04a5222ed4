/**
 Timing between the commands of a bank, whichever subarrays they go to, and around power-down.
 */
module BankSeparation {
  import opened SubArrayTiming
  import opened BankTiming

  /** The bank's earliest cycle for a command. */
  function Limit(b: Bank, d: BankCmd): nat {
    match d
    case ToSub(_, cmd) =>
      (match cmd
       case Act(_) => b.nextActivate
       case Rd(_, _, _, _) => b.nextRead
       case Wr(_, _, _, _) => b.nextWrite
       case Pre => b.nextPrecharge
       case Ref => b.nextActivate)
    case PreAll => b.nextPrecharge
    case PowerDown(_) => b.nextPowerDown
    case PowerUp => b.nextPowerUp
  }

  /** The distance the bank keeps from command `c` to a later command `d`; `slow` says that `c`
      leaves slow-exit power-down. */
  function BankGap(p: Timing, c: BankCmd, d: BankCmd, slow: bool): int {
    match c
    case ToSub(_, cmd) => SubGap(p, cmd, d)
    case PreAll => if d.PowerDown? then p.tRP else 0
    case PowerDown(_) => if d.PowerUp? then p.tPD else 0
    case PowerUp =>
      if d.PowerUp? then 0 else if slow && d.ToSub? && d.cmd.Rd? then p.tXPDLL else p.tXP
  }

  function SubGap(p: Timing, c: Cmd, d: BankCmd): int {
    var rd, wr := d.ToSub? && d.cmd.Rd?, d.ToSub? && d.cmd.Wr?;
    match c
    case Act(_) => if d.PowerDown? then p.tRCD else 0
    case Rd(_, burst, _, auto) =>
      if rd then Bursts(p, burst)
      else if wr then Extra(p, burst) + p.tCAS + p.tBURST + p.tRTRS - p.tCWD
      else if d.PowerDown? then Extra(p, burst) + (if auto then p.tAL + p.tRTP + p.tRP else p.tRDPDEN)
      else 0
    case Wr(_, burst, _, auto) =>
      if rd then Extra(p, burst) + p.tCWD + p.tBURST + p.tWTR
      else if wr then Bursts(p, burst)
      else if d.PowerDown? then
        Extra(p, burst) + (if auto then p.tAL + p.tCWD + p.tBURST + p.tWR + p.tRP else p.tWRPDEN)
      else 0
    case Pre => if d.PowerDown? then p.tRP else 0
    case Ref => if d.PowerDown? then p.tRFC else 0
  }

  predicate WriteAuto(c: BankCmd) {
    c.ToSub? && c.cmd.Wr? && c.cmd.auto
  }

  // ------------------------------------------------------------------ one command

  /** An accepted command was not too early, and sets the limits of those after it. */
  lemma TookFacts(p: Timing, b: Bank, o: Proposal, b': Bank, d: BankCmd)
    requires p.Ok() && Next(p, b, o, b') && Took(p, b, o)
    ensures Limit(b, o.cmd) <= o.cycle
    ensures var gap := BankGap(p, o.cmd, d, b.state == PDPS); gap <= 0 || Limit(b', d) >= o.cycle + gap
  {
    var f := FireAll(p, b, o.cycle);
    assert MayIssue(f, o.cycle, o.cmd);
    match o.cmd {
      case ToSub(sa, cmd) =>
      case PreAll =>
      case PowerDown(_) =>
      case PowerUp =>
    }
  }

  /** An accepted command passed every test; a refused one changes nothing of the bank itself. */
  lemma NextFacts(p: Timing, b: Bank, o: Proposal, b': Bank)
    requires p.Ok() && BankOk(p, b) && Next(p, b, o, b')
    ensures var f := FireAll(p, b, o.cycle);
      && BankOk(p, f) && BankOk(p, b') && |b'.subs| == |b.subs|
      && (Took(p, b, o) ==> MayIssue(f, o.cycle, o.cmd)) && (!Took(p, b, o) ==> b' == f)
  {
    var f := FireAll(p, b, o.cycle);
    FireAllOk(p, b, o.cycle);
    IssuableIsTrusted(p, f, o.cycle, o.cmd);
    if o.cmd.PreAll? { CloseKeepsCount(p, f, o); }
  }

  lemma CloseKeepsCount(p: Timing, f: Bank, o: Proposal)
    requires p.Ok() && o.cmd.PreAll? && (forall i | 0 <= i < |f.active| :: f.active[i] < |f.subs|)
    ensures |Issue(p, f, o.cycle, o.cmd).0.subs| == |f.subs|
  {
  }

  /** A command lowers no limit, except that a write with implicit precharge replaces the limit of
      powering down. */
  lemma LimitKept(p: Timing, b: Bank, o: Proposal, b': Bank, d: BankCmd)
    requires p.Ok() && BankOk(p, b) && Next(p, b, o, b')
    requires !(d.PowerDown? && WriteAuto(o.cmd) && Took(p, b, o))
    ensures Limit(b, d) <= Limit(b', d)
  {
    NextFacts(p, b, o, b');
    if Took(p, b, o) { IssueKeepsLimit(p, FireAll(p, b, o.cycle), o, d); }
  }

  lemma IssueKeepsLimit(p: Timing, f: Bank, o: Proposal, d: BankCmd)
    requires p.Ok() && Fits(f, o.cmd) && (forall i | 0 <= i < |f.active| :: f.active[i] < |f.subs|)
    requires !(d.PowerDown? && WriteAuto(o.cmd))
    ensures Limit(f, d) <= Limit(Issue(p, f, o.cycle, o.cmd).0, d)
  {
  }

  // ------------------------------------------------------------------ whole runs

  lemma {:induction false} CountKept(p: Timing, n: nat, initPD: bool, os: seq<Proposal>, bs: seq<Bank>, k: nat)
    requires p.Ok() && Run(p, n, initPD, os, bs) && k < |bs|
    ensures |bs[k].subs| == n
    decreases k
  {
    if k > 0 {
      CountKept(p, n, initPD, os, bs, k - 1);
      RunStep(p, n, initPD, os, bs, k - 1);
      NextFacts(p, bs[k - 1], os[k - 1], bs[k]);
    }
  }

  /** No write with implicit precharge is accepted between offers `i` and `j`. */
  ghost predicate NoWriteAuto(p: Timing, os: seq<Proposal>, bs: seq<Bank>, i: nat, j: nat)
    requires p.Ok() && j <= |os| && j <= |bs|
  {
    forall m {:trigger Took(p, bs[m], os[m])} | i < m < j :: !(WriteAuto(os[m].cmd) && Took(p, bs[m], os[m]))
  }

  lemma {:induction false} LimitAfter(p: Timing, n: nat, initPD: bool, os: seq<Proposal>, bs: seq<Bank>, i: nat,
                                      k: nat, d: BankCmd)
    requires p.Ok() && Run(p, n, initPD, os, bs) && i < k < |bs| && Took(p, bs[i], os[i])
    requires d.PowerDown? ==> NoWriteAuto(p, os, bs, i, k)
    ensures var gap := BankGap(p, os[i].cmd, d, bs[i].state == PDPS); gap <= 0 || Limit(bs[k], d) >= os[i].cycle + gap
    decreases k
  {
    RunStep(p, n, initPD, os, bs, k - 1);
    if k == i + 1 {
      TookFacts(p, bs[i], os[i], bs[k], d);
    } else {
      LimitAfter(p, n, initPD, os, bs, i, k - 1, d);
      LimitKept(p, bs[k - 1], os[k - 1], bs[k], d);
    }
  }

  /** Timing safety of the bank over whole runs: any two accepted commands, adjacent or not and to
      any subarrays, are separated by the interval of their pair; for powering down this takes that
      no write with implicit precharge comes in between. */
  lemma BankTimingSafety(p: Timing, n: nat, initPD: bool, os: seq<Proposal>, bs: seq<Bank>, i: nat, j: nat)
    requires p.Ok() && Run(p, n, initPD, os, bs) && i < j < |os| && Took(p, bs[i], os[i]) && Took(p, bs[j], os[j])
    requires os[j].cmd.PowerDown? ==> NoWriteAuto(p, os, bs, i, j)
    ensures os[j].cycle >= os[i].cycle + BankGap(p, os[i].cmd, os[j].cmd, bs[i].state == PDPS)
  {
    LimitAfter(p, n, initPD, os, bs, i, j, os[j].cmd);
    RunStep(p, n, initPD, os, bs, j);
    TookFacts(p, bs[j], os[j], bs[j + 1], os[j].cmd);
  }

  /** Powering down waits for a refresh of any subarray to finish, as long as no write with
      implicit precharge is accepted in between. */
  lemma PowerDownAfterRefresh(p: Timing, n: nat, initPD: bool, os: seq<Proposal>, bs: seq<Bank>, i: nat, j: nat)
    requires p.Ok() && Run(p, n, initPD, os, bs) && i < j < |os|
    requires os[i].cmd.ToSub? && os[i].cmd.cmd.Ref? && Took(p, bs[i], os[i])
    requires os[j].cmd.PowerDown? && Took(p, bs[j], os[j]) && NoWriteAuto(p, os, bs, i, j)
    ensures os[j].cycle >= os[i].cycle + p.tRFC
  {
    BankTimingSafety(p, n, initPD, os, bs, i, j);
  }

  // ------------------------------------------------------------------ power-down

  function ExitTime(p: Timing, d: BankCmd): nat {
    if d.ToSub? && d.cmd.Rd? && p.tXPDLL < p.tXP then p.tXPDLL else p.tXP
  }

  /** Every command but powering up waits for cycle `t` and the exit time after it. */
  predicate Woken(p: Timing, b: Bank, t: nat) {
    && b.nextActivate >= t + p.tXP && b.nextPrecharge >= t + p.tXP && b.nextWrite >= t + p.tXP
    && b.nextPowerDown >= t + p.tXP && (b.nextRead >= t + p.tXP || b.nextRead >= t + p.tXPDLL)
  }

  /** A bank powered down at cycle `t`: still down, or up again and waiting. */
  ghost predicate Quiet(p: Timing, b: Bank, t: nat) {
    (b.Down() && b.nextPowerUp >= t + p.tPD) || Woken(p, b, t + p.tPD)
  }

  lemma WokenKept(p: Timing, b: Bank, o: Proposal, b': Bank, t: nat)
    requires p.Ok() && BankOk(p, b) && Next(p, b, o, b') && Woken(p, b, t)
    ensures Woken(p, b', t)
  {
    NextFacts(p, b, o, b');
    if Took(p, b, o) { IssueKeepsWoken(p, FireAll(p, b, o.cycle), o, t); }
  }

  lemma IssueKeepsWoken(p: Timing, f: Bank, o: Proposal, t: nat)
    requires p.Ok() && Fits(f, o.cmd) && (forall i | 0 <= i < |f.active| :: f.active[i] < |f.subs|)
    requires Woken(p, f, t)
    ensures Woken(p, Issue(p, f, o.cycle, o.cmd).0, t)
  {
  }

  /** A bank that is down takes nothing but powering up. */
  lemma QuietKept(p: Timing, b: Bank, o: Proposal, b': Bank, t: nat)
    requires p.Ok() && BankOk(p, b) && Next(p, b, o, b') && Quiet(p, b, t)
    ensures Quiet(p, b', t)
  {
    NextFacts(p, b, o, b');
    if Woken(p, b, t + p.tPD) {
      WokenKept(p, b, o, b', t + p.tPD);
    } else if Took(p, b, o) {
      OnlyUp(p, b, o);
      UpWakes(p, FireAll(p, b, o.cycle), o, t + p.tPD);
    }
  }

  lemma UpWakes(p: Timing, f: Bank, o: Proposal, t: nat)
    requires p.Ok() && (forall i | 0 <= i < |f.active| :: f.active[i] < |f.subs|)
    requires o.cmd.PowerUp? && f.nextPowerUp >= t && MayIssue(f, o.cycle, o.cmd)
    ensures Woken(p, Issue(p, f, o.cycle, o.cmd).0, t)
  {
  }

  lemma OnlyUp(p: Timing, b: Bank, o: Proposal)
    requires p.Ok() && Took(p, b, o) && b.Down()
    ensures o.cmd.PowerUp?
  {
    assert MayIssue(FireAll(p, b, o.cycle), o.cycle, o.cmd);
  }

  lemma {:induction false} QuietAfter(p: Timing, n: nat, initPD: bool, os: seq<Proposal>, bs: seq<Bank>, i: nat, k: nat)
    requires p.Ok() && Run(p, n, initPD, os, bs) && i < k < |bs| && Took(p, bs[i], os[i]) && os[i].cmd.PowerDown?
    ensures Quiet(p, bs[k], os[i].cycle)
    decreases k
  {
    RunStep(p, n, initPD, os, bs, k - 1);
    if k == i + 1 {
      TookFacts(p, bs[i], os[i], bs[k], PowerUp);
    } else {
      QuietAfter(p, n, initPD, os, bs, i, k - 1);
      QuietKept(p, bs[k - 1], os[k - 1], bs[k], os[i].cycle);
    }
  }

  /** After powering down no command but powering up is accepted before the shortest stay and the
      exit time have passed, whatever is offered in between. */
  lemma PowerDownIsQuiet(p: Timing, n: nat, initPD: bool, os: seq<Proposal>, bs: seq<Bank>, i: nat, j: nat)
    requires p.Ok() && Run(p, n, initPD, os, bs) && i < j < |os| && Took(p, bs[i], os[i]) && Took(p, bs[j], os[j])
    requires os[i].cmd.PowerDown? && !os[j].cmd.PowerUp?
    ensures os[j].cycle >= os[i].cycle + p.tPD + ExitTime(p, os[j].cmd)
  {
    QuietAfter(p, n, initPD, os, bs, i, j);
    if bs[j].Down() { OnlyUp(p, bs[j], os[j]); }
    RunStep(p, n, initPD, os, bs, j);
    TookFacts(p, bs[j], os[j], bs[j + 1], os[j].cmd);
  }

  // ------------------------------------------------------------------ work before powering down

  /** How long powering down waits for a subarray: for the row to be restored, the data of a read to be
      on the bus, or the cells of a write to be programmed and, with implicit precharge, precharged. */
  function WorkTime(p: Timing, c: Cmd): nat {
    match c
    case Act(_) => p.ActToPre()
    case Rd(_, burst, lat, _) => Extra(p, burst) + p.tCAS + p.tAL + p.tBURST + 1 + lat
    case Wr(_, burst, lat, auto) =>
      Extra(p, burst) + p.tAL + p.tCWD + p.tBURST + lat + p.tWR + if auto then p.tRP else 0
    case Pre => 0
    case Ref => 0
  }

  lemma {:induction false} CloseListedDown(p: Timing, subs: seq<Sub>, q: seq<nat>, now: nat)
    requires p.Ok() && forall i | 0 <= i < |q| :: q[i] < |subs|
    ensures
      var r := CloseListed(p, subs, q, now).0;
      forall k | 0 <= k < |subs| :: r[k].nextPowerDown == subs[k].nextPowerDown && r[k].writeDone == subs[k].writeDone
    decreases |q|
  {
    if q != [] && Issuable(subs[q[0]], now, Pre) {
      CloseListedDown(p, subs[q[0] := Accept(p, subs[q[0]], now, Pre)], q[1..], now);
    }
  }

  lemma WorkStarts(p: Timing, s: Sub, now: nat, c: Cmd)
    requires p.Ok()
    ensures Accept(p, s, now, c).nextPowerDown >= s.nextPowerDown
    ensures WorkTime(p, c) == 0 || Accept(p, s, now, c).nextPowerDown >= now + WorkTime(p, c)
  {
  }

  /** No command lowers the limit a subarray puts on powering down. */
  lemma WorkKept(p: Timing, b: Bank, o: Proposal, b': Bank, sa: nat)
    requires p.Ok() && BankOk(p, b) && Next(p, b, o, b') && sa < |b.subs|
    ensures |b'.subs| == |b.subs| && b'.subs[sa].nextPowerDown >= b.subs[sa].nextPowerDown
    ensures Took(p, b, o) && o.cmd.ToSub? && o.cmd.sa == sa && WorkTime(p, o.cmd.cmd) > 0 ==>
      b'.subs[sa].nextPowerDown >= o.cycle + WorkTime(p, o.cmd.cmd)
  {
    var f := FireAll(p, b, o.cycle);
    NextFacts(p, b, o, b');
    assert f.subs[sa].nextPowerDown == b.subs[sa].nextPowerDown;
    if Took(p, b, o) { IssueWork(p, f, o, sa); }
  }

  lemma IssueWork(p: Timing, f: Bank, o: Proposal, sa: nat)
    requires p.Ok() && Fits(f, o.cmd) && (forall i | 0 <= i < |f.active| :: f.active[i] < |f.subs|)
    requires sa < |f.subs| && MayIssue(f, o.cycle, o.cmd) && Issue(p, f, o.cycle, o.cmd).1
    ensures
      var r := Issue(p, f, o.cycle, o.cmd).0;
      && |r.subs| == |f.subs| && r.subs[sa].nextPowerDown >= f.subs[sa].nextPowerDown
      && (o.cmd.ToSub? && o.cmd.sa == sa && WorkTime(p, o.cmd.cmd) > 0 ==>
        r.subs[sa].nextPowerDown >= o.cycle + WorkTime(p, o.cmd.cmd))
  {
    if o.cmd.PreAll? { CloseListedDown(p, f.subs, f.active, o.cycle); }
    if o.cmd.ToSub? { WorkStarts(p, f.subs[o.cmd.sa], o.cycle, o.cmd.cmd); }
  }

  lemma {:induction false} WorkAfter(p: Timing, n: nat, initPD: bool, os: seq<Proposal>, bs: seq<Bank>, i: nat, k: nat)
    requires p.Ok() && Run(p, n, initPD, os, bs) && i < k < |bs| && Took(p, bs[i], os[i]) && os[i].cmd.ToSub?
    requires WorkTime(p, os[i].cmd.cmd) > 0
    ensures os[i].cmd.sa < |bs[k].subs|
    ensures bs[k].subs[os[i].cmd.sa].nextPowerDown >= os[i].cycle + WorkTime(p, os[i].cmd.cmd)
    decreases k
  {
    RunStep(p, n, initPD, os, bs, k - 1);
    if k > i + 1 { WorkAfter(p, n, initPD, os, bs, i, k - 1); }
    WorkKept(p, bs[k - 1], os[k - 1], bs[k], os[i].cmd.sa);
  }

  /** Powering down waits for the work of every accepted command to every subarray, whatever comes in
      between: writes with implicit precharge do not lower this limit. */
  lemma PowerDownWaitsForWork(p: Timing, n: nat, initPD: bool, os: seq<Proposal>, bs: seq<Bank>, i: nat, j: nat)
    requires p.Ok() && Run(p, n, initPD, os, bs) && i < j < |os| && Took(p, bs[i], os[i]) && Took(p, bs[j], os[j])
    requires os[i].cmd.ToSub? && os[j].cmd.PowerDown?
    ensures os[j].cycle >= os[i].cycle + WorkTime(p, os[i].cmd.cmd)
  {
    RunStep(p, n, initPD, os, bs, j);
    NextFacts(p, bs[j], os[j], bs[j + 1]);
    if WorkTime(p, os[i].cmd.cmd) > 0 {
      WorkAfter(p, n, initPD, os, bs, i, j);
      var sa := os[i].cmd.sa;
      assert FireAll(p, bs[j], os[j].cycle).subs[sa].nextPowerDown <= os[j].cycle;
    } else {
      assert os[i].cycle <= os[j].cycle;
    }
  }

  predicate Writes(c: BankCmd, sa: nat) { c.ToSub? && c.sa == sa && c.cmd.Wr? }

  /** When the cells of a write have been programmed. */
  function WriteEnd(p: Timing, o: Proposal): nat
    requires o.cmd.ToSub? && o.cmd.cmd.Wr?
  {
    o.cycle + p.tCWD + Bursts(p, o.cmd.cmd.burst) + o.cmd.cmd.lat
  }

  lemma WriteEnds(p: Timing, b: Bank, o: Proposal, b': Bank, sa: nat)
    requires p.Ok() && BankOk(p, b) && Next(p, b, o, b') && sa < |b.subs|
    ensures |b'.subs| == |b.subs|
    ensures b'.subs[sa].writeDone ==
      if Took(p, b, o) && Writes(o.cmd, sa) then WriteEnd(p, o) else b.subs[sa].writeDone
  {
    var f := FireAll(p, b, o.cycle);
    NextFacts(p, b, o, b');
    assert f.subs[sa].writeDone == b.subs[sa].writeDone;
    if Took(p, b, o) && o.cmd.PreAll? { CloseListedDown(p, f.subs, f.active, o.cycle); }
  }

  lemma {:induction false} WriteEndsAfter(p: Timing, n: nat, initPD: bool, os: seq<Proposal>, bs: seq<Bank>, sa: nat,
                                          i: nat, k: nat)
    requires p.Ok() && Run(p, n, initPD, os, bs) && i < k < |bs| && Took(p, bs[i], os[i]) && Writes(os[i].cmd, sa)
    requires forall m {:trigger Took(p, bs[m], os[m])} | i < m < k && Writes(os[m].cmd, sa) :: !Took(p, bs[m], os[m])
    ensures sa < |bs[k].subs| && bs[k].subs[sa].writeDone == WriteEnd(p, os[i])
    decreases k
  {
    RunStep(p, n, initPD, os, bs, k - 1);
    if k > i + 1 { WriteEndsAfter(p, n, initPD, os, bs, sa, i, k - 1); }
    WriteEnds(p, bs[k - 1], os[k - 1], bs[k], sa);
  }

  /** Powering down waits until the cells of the last write to every subarray have been programmed. */
  lemma PowerDownWaitsForWrites(p: Timing, n: nat, initPD: bool, os: seq<Proposal>, bs: seq<Bank>, sa: nat, i: nat,
                                j: nat)
    requires p.Ok() && Run(p, n, initPD, os, bs) && i < j < |os| && Took(p, bs[i], os[i]) && Took(p, bs[j], os[j])
    requires Writes(os[i].cmd, sa) && os[j].cmd.PowerDown?
    requires forall m {:trigger Took(p, bs[m], os[m])} | i < m < j && Writes(os[m].cmd, sa) :: !Took(p, bs[m], os[m])
    ensures os[j].cycle >= WriteEnd(p, os[i])
  {
    RunStep(p, n, initPD, os, bs, j);
    NextFacts(p, bs[j], os[j], bs[j + 1]);
    WriteEndsAfter(p, n, initPD, os, bs, sa, i, j);
    assert FireAll(p, bs[j], os[j].cycle).subs[sa].writeDone <= os[j].cycle;
  }

  // ------------------------------------------------------------------ power-down modes

  /** How long a read waits after powering up: only a bank without an open row that was asked to power
      down with slow exit needs the DLL to lock. */
  function ReadExit(p: Timing, rowOpen: bool, mode: PowerMode): nat {
    if !rowOpen && mode == SlowDown then p.tXPDLL else p.tXP
  }

  /** No powering up is accepted between offers `i` and `k`. */
  ghost predicate StaysDown(p: Timing, os: seq<Proposal>, bs: seq<Bank>, i: nat, k: nat)
    requires p.Ok() && k <= |os| && k <= |bs|
  {
    forall m {:trigger Took(p, bs[m], os[m])} | i < m < k && os[m].cmd.PowerUp? :: !Took(p, bs[m], os[m])
  }

  /** A bank that is down is as it was when it powered down. */
  ghost predicate DownSince(p: Timing, b0: Bank, mode: PowerMode, b: Bank) {
    && b.Down() && b.nextRead == b0.nextRead && (b.state == PDA <==> b0.active != [])
    && (b.state == PDPS <==> b0.active == [] && mode == SlowDown)
  }

  lemma PowersDown(p: Timing, b: Bank, o: Proposal, b': Bank)
    requires p.Ok() && BankOk(p, b) && Next(p, b, o, b') && Took(p, b, o) && o.cmd.PowerDown?
    ensures DownSince(p, b, o.cmd.mode, b')
  {
    NextFacts(p, b, o, b');
  }

  lemma {:induction false} DownAfter(p: Timing, n: nat, initPD: bool, os: seq<Proposal>, bs: seq<Bank>, i: nat, k: nat)
    requires p.Ok() && Run(p, n, initPD, os, bs) && i < k < |bs| && Took(p, bs[i], os[i]) && os[i].cmd.PowerDown?
    requires StaysDown(p, os, bs, i, k)
    ensures DownSince(p, bs[i], os[i].cmd.mode, bs[k])
    decreases k
  {
    RunStep(p, n, initPD, os, bs, k - 1);
    if k == i + 1 {
      PowersDown(p, bs[i], os[i], bs[k]);
    } else {
      DownAfter(p, n, initPD, os, bs, i, k - 1);
      if Took(p, bs[k - 1], os[k - 1]) {
        OnlyUp(p, bs[k - 1], os[k - 1]);
        assert false;
      }
      NextFacts(p, bs[k - 1], os[k - 1], bs[k]);
    }
  }

  /** Powering up: the bank is open again exactly if it was, and reads wait for the exit time of the mode
      and no longer. */
  lemma PowerUpRestores(p: Timing, n: nat, initPD: bool, os: seq<Proposal>, bs: seq<Bank>, i: nat, u: nat)
    requires p.Ok() && Run(p, n, initPD, os, bs) && i < u < |os| && Took(p, bs[i], os[i]) && Took(p, bs[u], os[u])
    requires os[i].cmd.PowerDown? && os[u].cmd.PowerUp? && StaysDown(p, os, bs, i, u)
    ensures bs[u + 1].state == if bs[i].active != [] then BankOpen else BankClosed
    ensures bs[u + 1].nextRead ==
      Max(bs[i].nextRead, os[u].cycle + ReadExit(p, bs[i].active != [], os[i].cmd.mode))
  {
    DownAfter(p, n, initPD, os, bs, i, u);
    RunStep(p, n, initPD, os, bs, u);
  }

  /** A read is accepted only when the exit time of the mode has passed since the bank powered up. */
  lemma ReadAfterPowerDown(p: Timing, n: nat, initPD: bool, os: seq<Proposal>, bs: seq<Bank>, i: nat, u: nat, j: nat)
    requires p.Ok() && Run(p, n, initPD, os, bs) && i < u < j < |os|
    requires Took(p, bs[i], os[i]) && Took(p, bs[u], os[u]) && Took(p, bs[j], os[j])
    requires os[i].cmd.PowerDown? && os[u].cmd.PowerUp? && StaysDown(p, os, bs, i, u)
    requires os[j].cmd.ToSub? && os[j].cmd.cmd.Rd?
    ensures os[j].cycle >= os[u].cycle + ReadExit(p, bs[i].active != [], os[i].cmd.mode)
  {
    DownAfter(p, n, initPD, os, bs, i, u);
    BankTimingSafety(p, n, initPD, os, bs, u, j);
  }
}
