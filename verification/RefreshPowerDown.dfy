/**
 Whether a bank can power down in the middle of a refresh: exactly when a write with implicit
 precharge, which replaces the limit of powering down, can be over before the refresh.
 */
module RefreshPowerDown {
  import opened SubArrayTiming
  import opened BankTiming
  import opened BankSeparation

  /** No bank of `n` subarrays powers down before a refresh that it accepted is over, in any run. */
  ghost predicate PowerDownSafe(p: Timing, n: nat)
    requires p.Ok()
  {
    forall initPD: bool, os: seq<Proposal>, bs: seq<Bank>, i: nat, j: nat
      {:trigger Run(p, n, initPD, os, bs), os[i], os[j]}
      | Run(p, n, initPD, os, bs) && i < j < |os| && Refreshes(p, os, bs, i) && PowersDown(p, os, bs, j) ::
      os[j].cycle >= os[i].cycle + p.tRFC
  }

  ghost predicate Refreshes(p: Timing, os: seq<Proposal>, bs: seq<Bank>, i: nat)
    requires p.Ok() && i < |os| && i < |bs|
  {
    os[i].cmd.ToSub? && os[i].cmd.cmd.Ref? && Took(p, bs[i], os[i])
  }

  ghost predicate PowersDown(p: Timing, os: seq<Proposal>, bs: seq<Bank>, j: nat)
    requires p.Ok() && j < |os| && j < |bs|
  {
    os[j].cmd.PowerDown? && Took(p, bs[j], os[j])
  }

  /** The cycles from a write with implicit precharge to the limit it sets for powering down. */
  function WriteToDown(p: Timing): nat { p.tAL + p.tCWD + p.tBURST + p.tWR + p.tRP }

  /** The least number of cycles such a write is in progress. */
  function WriteTime(p: Timing): nat { p.tCWD + p.Burst() }

  /** Powering down is safe exactly when there is no second subarray to write to, or the shortest
      write with implicit precharge keeps the bank up for the time of a refresh. */
  lemma PowerDownSafeIff(p: Timing, n: nat)
    requires p.Ok()
    ensures PowerDownSafe(p, n) <==> n < 2 || Max(WriteToDown(p), WriteTime(p)) >= p.tRFC
  {
    if n < 2 || Max(WriteToDown(p), WriteTime(p)) >= p.tRFC {
      forall initPD: bool, os: seq<Proposal>, bs: seq<Bank>, i: nat, j: nat
        | Run(p, n, initPD, os, bs) && i < j < |os| && Refreshes(p, os, bs, i) && PowersDown(p, os, bs, j)
        ensures os[j].cycle >= os[i].cycle + p.tRFC
      {
        StaysUp(p, n, initPD, os, bs, i, j);
      }
    } else {
      var os, bs := PowerDownDuringRefresh(p, n);
      assert Run(p, n, false, os, bs) && os[1].cycle > os[3].cycle - p.tRFC;
    }
  }

  // ------------------------------------------------------------------ the safe half

  /** What keeps the bank up until cycle `x`, in each of the three cases. */
  ghost predicate Covered(p: Timing, n: nat, b: Bank, x: nat) {
    || (b.nextPowerDown >= x && (WriteToDown(p) >= p.tRFC || (n < 2 && Guards(b, x)) || WriteTime(p) >= p.tRFC))
    || (WriteTime(p) >= p.tRFC && exists k | 0 <= k < |b.subs| :: b.subs[k].writeDone >= x)
  }

  /** No subarray is written before cycle `x`. */
  ghost predicate Guards(b: Bank, x: nat) {
    forall k | 0 <= k < |b.subs| :: Guard(b.subs[k], x)
  }

  predicate Guard(s: Sub, x: nat) {
    s.nextActivate >= x && (s.state == Open ==> s.nextWrite >= x)
  }

  lemma GuardKept(p: Timing, s: Sub, now: nat, c: Cmd, x: nat)
    requires p.Ok() && Guard(s, x) && Issuable(s, now, c)
    ensures Guard(Accept(p, s, now, c), x) && (c.Wr? ==> now >= x)
  {
  }

  lemma FireGuard(p: Timing, s: Sub, now: nat, x: nat)
    ensures Guard(s, x) ==> Guard(Fire(p, s, now), x)
    ensures Fire(p, s, now).writeDone == s.writeDone
  {
  }

  /** Precharging the listed subarrays keeps the guards and the writes in progress. */
  lemma {:induction false} CloseListedKeeps(p: Timing, subs: seq<Sub>, q: seq<nat>, now: nat, x: nat)
    requires p.Ok() && forall i | 0 <= i < |q| :: q[i] < |subs|
    ensures var r := CloseListed(p, subs, q, now).0;
      && (forall k | 0 <= k < |subs| :: r[k].writeDone == subs[k].writeDone)
      && (forall k | 0 <= k < |subs| :: Guard(subs[k], x) ==> Guard(r[k], x))
    decreases |q|
  {
    if q != [] && Issuable(subs[q[0]], now, Pre) {
      if Guard(subs[q[0]], x) { GuardKept(p, subs[q[0]], now, Pre, x); }
      CloseListedKeeps(p, subs[q[0] := Accept(p, subs[q[0]], now, Pre)], q[1..], now, x);
    }
  }

  lemma BurstTime(p: Timing, n: nat)
    requires n >= 1
    ensures Bursts(p, n) >= p.Burst()
  {
  }

  /** A write in progress is only ever followed by one that ends at least its time after now. */
  lemma WriteDoneKept(p: Timing, b: Bank, o: Proposal, b': Bank, k: nat)
    requires p.Ok() && BankOk(p, b) && Next(p, b, o, b') && k < |b.subs|
    ensures |b'.subs| == |b.subs|
    ensures b'.subs[k].writeDone == b.subs[k].writeDone || b'.subs[k].writeDone >= o.cycle + WriteTime(p)
    ensures WriteAuto(o.cmd) && Took(p, b, o) && o.cmd.sa == k ==> b'.subs[k].writeDone >= o.cycle + WriteTime(p)
  {
    var f := FireAll(p, b, o.cycle);
    NextFacts(p, b, o, b');
    FireGuard(p, b.subs[k], o.cycle, 0);
    if Took(p, b, o) { IssueWriteDone(p, f, o, k); }
  }

  lemma IssueWriteDone(p: Timing, f: Bank, o: Proposal, k: nat)
    requires p.Ok() && Fits(f, o.cmd) && (forall i | 0 <= i < |f.active| :: f.active[i] < |f.subs|)
    requires k < |f.subs| && MayIssue(f, o.cycle, o.cmd) && Issue(p, f, o.cycle, o.cmd).1
    ensures var r := Issue(p, f, o.cycle, o.cmd).0;
      && |r.subs| == |f.subs|
      && (r.subs[k].writeDone == f.subs[k].writeDone || r.subs[k].writeDone >= o.cycle + WriteTime(p))
      && (WriteAuto(o.cmd) && o.cmd.sa == k ==> r.subs[k].writeDone >= o.cycle + WriteTime(p))
  {
    if o.cmd.PreAll? { CloseListedKeeps(p, f.subs, f.active, o.cycle, 0); }
    if o.cmd.ToSub? && o.cmd.cmd.Wr? { BurstTime(p, o.cmd.cmd.burst); }
  }

  /** The guards hold on, and a write that is accepted comes at cycle `x` or later. */
  lemma GuardsKept(p: Timing, b: Bank, o: Proposal, b': Bank, x: nat)
    requires p.Ok() && BankOk(p, b) && Next(p, b, o, b') && Guards(b, x)
    ensures Guards(b', x) && (WriteAuto(o.cmd) && Took(p, b, o) ==> o.cycle >= x)
  {
    var f := FireAll(p, b, o.cycle);
    NextFacts(p, b, o, b');
    forall k | 0 <= k < |f.subs| ensures Guard(f.subs[k], x) { FireGuard(p, b.subs[k], o.cycle, x); }
    if Took(p, b, o) { IssueGuards(p, f, o, x); }
  }

  lemma IssueGuards(p: Timing, f: Bank, o: Proposal, x: nat)
    requires p.Ok() && Fits(f, o.cmd) && (forall i | 0 <= i < |f.active| :: f.active[i] < |f.subs|)
    requires MayIssue(f, o.cycle, o.cmd) && Issue(p, f, o.cycle, o.cmd).1 && Guards(f, x)
    ensures Guards(Issue(p, f, o.cycle, o.cmd).0, x) && (WriteAuto(o.cmd) ==> o.cycle >= x)
  {
    if o.cmd.PreAll? { CloseListedKeeps(p, f.subs, f.active, o.cycle, x); }
    if o.cmd.ToSub? { GuardKept(p, f.subs[o.cmd.sa], o.cycle, o.cmd.cmd, x); }
  }

  /** The limit of powering down after one more command. */
  lemma DownKept(p: Timing, b: Bank, o: Proposal, b': Bank, x: nat)
    requires p.Ok() && BankOk(p, b) && Next(p, b, o, b') && b.nextPowerDown >= x
    requires WriteAuto(o.cmd) && Took(p, b, o) ==> o.cycle + WriteToDown(p) >= x
    ensures b'.nextPowerDown >= x
  {
    var d := PowerDown(FastDown);
    if WriteAuto(o.cmd) && Took(p, b, o) {
      TookFacts(p, b, o, b', d);
    } else {
      LimitKept(p, b, o, b', d);
    }
  }

  lemma CoveredKept(p: Timing, n: nat, b: Bank, o: Proposal, b': Bank, r: nat)
    requires p.Ok() && BankOk(p, b) && Next(p, b, o, b') && |b.subs| == n && r <= o.cycle
    requires Covered(p, n, b, r + p.tRFC)
    ensures Covered(p, n, b', r + p.tRFC)
  {
    var x := r + p.tRFC;
    if WriteTime(p) >= p.tRFC {
      WriteCovers(p, n, b, o, b', r);
    } else {
      if WriteToDown(p) < p.tRFC { GuardsKept(p, b, o, b', x); }
      DownKept(p, b, o, b', x);
    }
  }

  lemma WriteCovers(p: Timing, n: nat, b: Bank, o: Proposal, b': Bank, r: nat)
    requires p.Ok() && BankOk(p, b) && Next(p, b, o, b') && r <= o.cycle && WriteTime(p) >= p.tRFC
    requires Covered(p, n, b, r + p.tRFC)
    ensures Covered(p, n, b', r + p.tRFC)
  {
    var x := r + p.tRFC;
    if k :| 0 <= k < |b.subs| && b.subs[k].writeDone >= x {
      WriteDoneKept(p, b, o, b', k);
      assert b'.subs[k].writeDone >= x;
    } else if WriteAuto(o.cmd) && Took(p, b, o) {
      WriteDoneKept(p, b, o, b', o.cmd.sa);
      assert b'.subs[o.cmd.sa].writeDone >= x;
    } else {
      DownKept(p, b, o, b', x);
    }
  }

  /** Right after the refresh the bank is covered. */
  lemma RefreshCovers(p: Timing, n: nat, b: Bank, o: Proposal, b': Bank)
    requires p.Ok() && BankOk(p, b) && Next(p, b, o, b') && |b.subs| == n && Took(p, b, o) && o.cmd.ToSub?
    requires o.cmd.cmd.Ref?
    requires n < 2 || Max(WriteToDown(p), WriteTime(p)) >= p.tRFC
    ensures Covered(p, n, b', o.cycle + p.tRFC)
  {
    NextFacts(p, b, o, b');
    TookFacts(p, b, o, b', PowerDown(FastDown));
    if n < 2 {
      assert o.cmd.sa == 0 && |b'.subs| == 1;
      assert Guard(b'.subs[0], o.cycle + p.tRFC);
    }
  }

  lemma {:induction false} CoveredAfter(p: Timing, n: nat, initPD: bool, os: seq<Proposal>, bs: seq<Bank>, i: nat,
                                        k: nat)
    requires p.Ok() && Run(p, n, initPD, os, bs) && i < k < |bs| && Refreshes(p, os, bs, i)
    requires n < 2 || Max(WriteToDown(p), WriteTime(p)) >= p.tRFC
    ensures Covered(p, n, bs[k], os[i].cycle + p.tRFC)
    decreases k
  {
    RunStep(p, n, initPD, os, bs, k - 1);
    CountKept(p, n, initPD, os, bs, k - 1);
    if k == i + 1 {
      RefreshCovers(p, n, bs[i], os[i], bs[k]);
    } else {
      CoveredAfter(p, n, initPD, os, bs, i, k - 1);
      CoveredKept(p, n, bs[k - 1], os[k - 1], bs[k], os[i].cycle);
    }
  }

  lemma StaysUp(p: Timing, n: nat, initPD: bool, os: seq<Proposal>, bs: seq<Bank>, i: nat, j: nat)
    requires p.Ok() && Run(p, n, initPD, os, bs) && i < j < |os| && Refreshes(p, os, bs, i) && PowersDown(p, os, bs, j)
    requires n < 2 || Max(WriteToDown(p), WriteTime(p)) >= p.tRFC
    ensures os[j].cycle >= os[i].cycle + p.tRFC
  {
    CoveredAfter(p, n, initPD, os, bs, i, j);
    RunStep(p, n, initPD, os, bs, j);
    DownNeeds(p, bs[j], os[j], bs[j + 1]);
  }

  /** What powering down has waited for. */
  lemma DownNeeds(p: Timing, b: Bank, o: Proposal, b': Bank)
    requires p.Ok() && BankOk(p, b) && Next(p, b, o, b') && o.cmd.PowerDown? && Took(p, b, o)
    ensures b.nextPowerDown <= o.cycle && forall k | 0 <= k < |b.subs| :: b.subs[k].writeDone <= o.cycle
  {
    var f := FireAll(p, b, o.cycle);
    NextFacts(p, b, o, b');
    forall k | 0 <= k < |b.subs| ensures b.subs[k].writeDone <= o.cycle {
      FireGuard(p, b.subs[k], o.cycle, 0);
      assert f.subs[k].writeDone <= o.cycle;
    }
  }

  // ------------------------------------------------------------------ the failing half

  /** The state after a command; offers of the failing run are all accepted. */
  function Then(p: Timing, b: Bank, o: Proposal): Bank
    requires p.Ok() && Fits(b, o.cmd) && (forall i | 0 <= i < |b.active| :: b.active[i] < |b.subs|)
  {
    Issue(p, FireAll(p, b, o.cycle), o.cycle, o.cmd).0
  }

  // Subarray 0 with its row open since cycle 0, subarray 1 refreshing since cycle t, subarray 0
  // written at cycle t with an implicit precharge to follow.

  function RowOpen(p: Timing): Sub
    requires p.Ok()
  {
    Sub(Open, 0, 0, p.ActToPre(), p.tRCD - p.tAL, p.tRCD - p.tAL, p.ActToPre(), 0, Nothing)
  }

  function InRefresh(p: Timing, t: nat): Sub {
    Sub(Refreshing, 0, t + p.tRFC, 0, 0, 0, 0, 0, ClosesAt(t + p.tRFC))
  }

  function Written(p: Timing, t: nat): Sub {
    var x := t + WriteToDown(p);
    Sub(Open, 0, x, x, x, x, x, t + WriteTime(p), PrechargesAt(x - p.tRP))
  }

  ghost predicate Bank1(p: Timing, n: nat, b: Bank)
    requires p.Ok() && n >= 2
  {
    && |b.subs| == n && b.subs[0] == RowOpen(p) && (forall k | 1 <= k < n :: b.subs[k] == FRESH)
    && b == Bank(BankOpen, 0, 0, 0, 0, p.tRCD, 0, [0], b.subs)
  }

  ghost predicate Bank2(p: Timing, n: nat, b: Bank, t: nat)
    requires p.Ok() && n >= 2
  {
    && |b.subs| == n && b.subs[0] == RowOpen(p) && b.subs[1] == InRefresh(p, t)
    && (forall k | 2 <= k < n :: b.subs[k] == FRESH)
    && b == Bank(BankOpen, 0, 0, 0, 0, b.nextPowerDown, 0, [0], b.subs)
  }

  ghost predicate Bank3(p: Timing, n: nat, b: Bank, t: nat)
    requires p.Ok() && n >= 2
  {
    && |b.subs| == n && b.subs[0] == Written(p, t) && b.subs[1] == InRefresh(p, t)
    && (forall k | 2 <= k < n :: b.subs[k] == FRESH)
    && b.state == BankClosed && b.nextPowerDown == t + WriteToDown(p) && b.active == []
  }

  lemma Step1(p: Timing, n: nat, b: Bank, o: Proposal)
    requires p.Ok() && n >= 2 && b == FreshBank(n, false) && o == Proposal(0, ToSub(0, Act(0)))
    ensures Next(p, b, o, Then(p, b, o)) && Bank1(p, n, Then(p, b, o))
  {
    var f := FireAll(p, b, 0);
    assert f.subs == b.subs;
    assert f.subs[0] == FRESH && Issuable(f.subs[0], 0, Act(0));
    assert Accept(p, FRESH, 0, Act(0)) == RowOpen(p);
    assert [0] + b.active == [0];
  }

  lemma Step2(p: Timing, n: nat, b: Bank, o: Proposal)
    requires p.Ok() && n >= 2 && Bank1(p, n, b) && o.cmd == ToSub(1, Ref)
    ensures Next(p, b, o, Then(p, b, o)) && Took(p, b, o) && Bank2(p, n, Then(p, b, o), o.cycle)
  {
    var f := FireAll(p, b, o.cycle);
    assert f.subs == b.subs;
    assert f.subs[1] == FRESH && Issuable(f.subs[1], o.cycle, Ref);
    assert Accept(p, FRESH, o.cycle, Ref) == InRefresh(p, o.cycle);
  }

  lemma Step3(p: Timing, n: nat, b: Bank, o: Proposal)
    requires p.Ok() && n >= 2 && Bank2(p, n, b, o.cycle) && o.cycle == p.ActToPre()
    requires o.cmd == ToSub(0, Wr(0, 1, 0, true))
    ensures Next(p, b, o, Then(p, b, o)) && Bank3(p, n, Then(p, b, o), o.cycle)
  {
    var f := FireAll(p, b, o.cycle);
    assert f.subs == b.subs;
    assert f.subs[0] == RowOpen(p) && Issuable(f.subs[0], o.cycle, o.cmd.cmd);
    WriteResult(p, o.cycle);
    assert Erased([0], 0) == [];
  }

  lemma WriteResult(p: Timing, t: nat)
    requires p.Ok() && t == p.ActToPre()
    ensures Accept(p, RowOpen(p), t, Wr(0, 1, 0, true)) == Written(p, t)
  {
    assert Extra(p, 1) == 0 && Bursts(p, 1) == p.Burst();
  }

  lemma Step4(p: Timing, n: nat, b: Bank, o: Proposal, t: nat)
    requires p.Ok() && n >= 2 && Bank3(p, n, b, t) && o.cmd == PowerDown(FastDown)
    requires o.cycle == t + Max(WriteToDown(p), WriteTime(p))
    ensures Next(p, b, o, Then(p, b, o)) && Took(p, b, o)
  {
    var f := FireAll(p, b, o.cycle);
    forall k | 0 <= k < n ensures f.subs[k].nextPowerDown <= o.cycle && f.subs[k].writeDone <= o.cycle {
      assert f.subs[k] == Fire(p, b.subs[k], o.cycle);
    }
    assert MayIssue(f, o.cycle, o.cmd);
  }

  /** With a second subarray and parameters that let the shortest write be over before a refresh, a
      bank does power down in the middle of one. */
  lemma PowerDownDuringRefresh(p: Timing, n: nat) returns (os: seq<Proposal>, bs: seq<Bank>)
    requires p.Ok() && n >= 2 && Max(WriteToDown(p), WriteTime(p)) < p.tRFC
    ensures |os| == 4 && Run(p, n, false, os, bs) && Refreshes(p, os, bs, 1) && PowersDown(p, os, bs, 3)
    ensures os[3].cycle < os[1].cycle + p.tRFC
  {
    var t := p.ActToPre();
    var o0, o1 := Proposal(0, ToSub(0, Act(0))), Proposal(t, ToSub(1, Ref));
    var o2 := Proposal(t, ToSub(0, Wr(0, 1, 0, true)));
    var o3 := Proposal(t + Max(WriteToDown(p), WriteTime(p)), PowerDown(FastDown));
    var b0 := FreshBank(n, false);
    Step1(p, n, b0, o0);
    var b1 := Then(p, b0, o0);
    Step2(p, n, b1, o1);
    var b2 := Then(p, b1, o1);
    Step3(p, n, b2, o2);
    var b3 := Then(p, b2, o2);
    Step4(p, n, b3, o3, t);
    var b4 := Then(p, b3, o3);
    os, bs := FourSteps(p, n, o0, o1, o2, o3, b0, b1, b2, b3, b4);
  }

  /** Four steps, in the order of their cycles, are a run. */
  lemma FourSteps(p: Timing, n: nat, o0: Proposal, o1: Proposal, o2: Proposal, o3: Proposal,
                  b0: Bank, b1: Bank, b2: Bank, b3: Bank, b4: Bank) returns (os: seq<Proposal>, bs: seq<Bank>)
    requires p.Ok() && b0 == FreshBank(n, false) && o0.cycle <= o1.cycle <= o2.cycle <= o3.cycle
    requires Next(p, b0, o0, b1) && Next(p, b1, o1, b2) && Next(p, b2, o2, b3) && Next(p, b3, o3, b4)
    ensures os == [o0, o1, o2, o3] && bs == [b0, b1, b2, b3, b4] && Run(p, n, false, os, bs)
  {
    os, bs := [o0, o1, o2, o3], [b0, b1, b2, b3, b4];
    assert StepAt(p, os, bs, 0) && StepAt(p, os, bs, 1) && StepAt(p, os, bs, 2) && StepAt(p, os, bs, 3);
  }
}
