/**
 The DDR3 bank: bank-level timing and power states over a set of subarrays, and the list of
 active subarrays that decides whether the bank counts as open.
 */
module BankTiming {
  import opened SubArrayTiming

  datatype PowerMode = ActiveDown | FastDown | SlowDown

  datatype BankCmd =
    | ToSub(sa: nat, cmd: Cmd)
    | PreAll
    | PowerDown(mode: PowerMode)
    | PowerUp

  datatype BankState = BankClosed | BankOpen | PDPF | PDA | PDPS

  datatype Bank = Bank(
    state: BankState,
    nextActivate: nat, nextPrecharge: nat, nextRead: nat, nextWrite: nat, nextPowerDown: nat, nextPowerUp: nat,
    active: seq<nat>,    // activeSubArrayQueue
    subs: seq<Sub>)
  {
    predicate Down() { state == PDPF || state == PDA || state == PDPS }

    predicate Awake() { state == BankClosed || state == BankOpen }
  }

  predicate Fits(b: Bank, c: BankCmd) {
    c.ToSub? ==> c.sa < |b.subs| && Sane(c.cmd)
  }

  // ------------------------------------------------------------------ IsIssuable

  predicate MayIssue(b: Bank, now: nat, c: BankCmd)
    requires Fits(b, c)
    requires forall i | 0 <= i < |b.active| :: b.active[i] < |b.subs|
  {
    match c
    case ToSub(sa, cmd) => BankMay(b, now, cmd) && Issuable(b.subs[sa], now, cmd)
    case PreAll =>
      b.nextPrecharge <= now && b.Awake() && forall i | 0 <= i < |b.active| :: Issuable(b.subs[b.active[i]], now, Pre)
    case PowerDown(mode) =>
      && b.nextPowerDown <= now && b.Awake() && (b.state == BankOpen ==> mode == ActiveDown)
      && forall i | 0 <= i < |b.subs| :: b.subs[i].nextPowerDown <= now && b.subs[i].writeDone <= now
    case PowerUp => b.nextPowerUp <= now && b.Down()
  }

  /** The bank's own part of the test for a command to a subarray. */
  predicate BankMay(b: Bank, now: nat, c: Cmd) {
    match c
    case Act(_) => b.nextActivate <= now && !b.Down()
    case Rd(_, _, _, _) => b.nextRead <= now && b.state == BankOpen
    case Wr(_, _, _, _) => b.nextWrite <= now && b.state == BankOpen
    case Pre => b.nextPrecharge <= now && b.Awake()
    case Ref => b.nextActivate <= now && b.Awake()
  }

  // ------------------------------------------------------------------ IssueCommand

  /** The sanity checks each command repeats before acting. */
  predicate BankCheck(b: Bank, now: nat, c: Cmd) {
    match c
    case Act(_) => b.nextActivate <= now && (b.state == BankClosed || b.active != [])
    case Rd(_, _, _, _) => b.nextRead <= now && b.state == BankOpen
    case Wr(_, _, _, _) => b.nextWrite <= now && b.state == BankOpen
    case Pre => b.nextPrecharge <= now && b.Awake()
    case Ref => b.nextActivate <= now
  }

  /** The bank-level constraints a command to a subarray sets. */
  function BankTimers(p: Timing, b: Bank, now: nat, c: Cmd): Bank
    requires p.Ok()
  {
    match c
    case Act(_) => b.(nextPowerDown := Max(b.nextPowerDown, now + p.tRCD))
    case Rd(_, burst, _, auto) =>
      var e := now + Extra(p, burst);
      b.(nextPowerDown := Max(b.nextPowerDown, if auto then e + p.tAL + p.tRTP + p.tRP else e + p.tRDPDEN),
         nextRead := Max(b.nextRead, now + Bursts(p, burst)),
         nextWrite := Max(b.nextWrite, e + p.tCAS + p.tBURST + p.tRTRS - p.tCWD))
    case Wr(_, burst, _, auto) =>
      var e := now + Extra(p, burst);
      b.(nextPowerDown := if auto then Max(b.nextActivate, e + p.tAL + p.tCWD + p.tBURST + p.tWR + p.tRP)
                          else Max(b.nextPowerDown, e + p.tWRPDEN),
         nextRead := Max(b.nextRead, e + p.tCWD + p.tBURST + p.tWTR),
         nextWrite := Max(b.nextWrite, now + Bursts(p, burst)))
    case Pre => b.(nextPowerDown := Max(b.nextPowerDown, now + p.tRP))
    case Ref => b.(nextPowerDown := Max(b.nextPowerDown, now + p.tRFC))
  }

  function Erased(q: seq<nat>, sa: nat): seq<nat> {
    if q == [] then [] else if q[0] == sa then q[1..] else [q[0]] + Erased(q[1..], sa)
  }

  /** The list of active subarrays and the bank state after the subarray has taken a command. */
  function Listed(b: Bank, sa: nat, c: Cmd): Bank {
    match c
    case Act(_) => b.(state := BankOpen, active := [sa] + b.active)
    case Rd(_, _, _, auto) => if auto then Unlisted(b, sa) else b
    case Wr(_, _, _, auto) => if auto then Unlisted(b, sa) else b
    case Pre => Unlisted(b, sa)
    case Ref => b
  }

  function Unlisted(b: Bank, sa: nat): Bank {
    var q := Erased(b.active, sa);
    b.(active := q, state := if q == [] then BankClosed else b.state)
  }

  /** Precharges the listed subarrays one after the other; None when one refuses. */
  function CloseListed(p: Timing, subs: seq<Sub>, q: seq<nat>, now: nat): (r: (seq<Sub>, bool))
    requires p.Ok() && forall i | 0 <= i < |q| :: q[i] < |subs|
    ensures |r.0| == |subs|
    decreases |q|
  {
    if q == [] then (subs, true)
    else if !Issuable(subs[q[0]], now, Pre) then (subs, false)
    else CloseListed(p, subs[q[0] := Accept(p, subs[q[0]], now, Pre)], q[1..], now)
  }

  /** `IssueCommand`: the new state, and whether every check on the way passed. */
  function Issue(p: Timing, b: Bank, now: nat, c: BankCmd): (Bank, bool)
    requires p.Ok() && Fits(b, c)
    requires forall i | 0 <= i < |b.active| :: b.active[i] < |b.subs|
  {
    if !MayIssue(b, now, c) then (b, false)
    else match c
      case ToSub(sa, cmd) =>
        if !BankCheck(b, now, cmd) then (b, false)
        else if !Issuable(b.subs[sa], now, cmd) then (BankTimers(p, b, now, cmd), false)
        else (Listed(BankTimers(p, b, now, cmd).(subs := b.subs[sa := Accept(p, b.subs[sa], now, cmd)]), sa, cmd), true)
      case PreAll =>
        if !(b.nextPrecharge <= now && b.Awake()) then (b, false)
        else
          var (subs, ok) := CloseListed(p, b.subs, b.active, now);
          var b1 := b.(nextPowerDown := Max(b.nextPowerDown, now + p.tRP), subs := subs, active := []);
          (if ok then b1.(state := BankClosed) else b1, ok)
      case PowerDown(mode) =>
        if b.nextPowerDown <= now && b.Awake() then
          (b.(nextPowerUp := Max(b.nextPowerUp, now + p.tPD),
              state := if b.state == BankOpen then PDA else if mode == SlowDown then PDPS else PDPF), true)
        else (b, false)
      case PowerUp =>
        if b.nextPowerUp <= now && b.Down() then
          (b.(nextPowerDown := Max(b.nextPowerDown, now + p.tXP), nextActivate := Max(b.nextActivate, now + p.tXP),
              nextPrecharge := Max(b.nextPrecharge, now + p.tXP), nextWrite := Max(b.nextWrite, now + p.tXP),
              nextRead := Max(b.nextRead, now + if b.state == PDPS then p.tXPDLL else p.tXP),
              state := if b.state == PDA then BankOpen else BankClosed), true)
        else (b, false)
  }

  function FireAll(p: Timing, b: Bank, now: nat): Bank {
    b.(subs := seq(|b.subs|, i requires 0 <= i < |b.subs| => Fire(p, b.subs[i], now)))
  }

  // ------------------------------------------------------------------ invariant

  /** What a subarray waits for fits its state, and an implicit precharge under way keeps every
      command off until it is over. */
  predicate SubOk(p: Timing, s: Sub) {
    match s.due
    case Nothing => s.state == Open || s.state == Closed
    case ClosesAt(_) => s.state == Precharging || s.state == Refreshing
    case PrechargesAt(t) =>
      s.state == Open && t + p.tRP <= s.nextActivate && t <= s.nextPrecharge && t <= s.nextRead && t <= s.nextWrite
  }

  predicate Fired(s: Sub, now: nat) {
    s.due != Nothing ==> s.due.cycle > now
  }

  predicate Held(s: Sub) { s.state == Open && s.due == Nothing }

  ghost predicate NoDuplicates(q: seq<nat>) {
    forall i, j | 0 <= i < j < |q| :: q[i] != q[j]
  }

  /** The list of active subarrays has no duplicates and holds exactly the open ones with no
      implicit precharge under way; it is not empty exactly when the bank is open or in active
      power-down. */
  ghost predicate BankOk(p: Timing, b: Bank) {
    && (forall i | 0 <= i < |b.subs| :: SubOk(p, b.subs[i]))
    && NoDuplicates(b.active)
    && (forall i | 0 <= i < |b.active| :: b.active[i] < |b.subs|)
    && (forall i | 0 <= i < |b.subs| :: i in b.active <==> Held(b.subs[i]))
    && (b.active != [] <==> b.state == BankOpen || b.state == PDA)
  }

  lemma FireSubOk(p: Timing, s: Sub, now: nat)
    requires SubOk(p, s)
    ensures SubOk(p, Fire(p, s, now)) && Fired(Fire(p, s, now), now) && (Held(Fire(p, s, now)) <==> Held(s))
  {
  }

  lemma FireAllOk(p: Timing, b: Bank, now: nat)
    requires BankOk(p, b)
    ensures BankOk(p, FireAll(p, b, now))
    ensures forall i | 0 <= i < |b.subs| :: Fired(FireAll(p, b, now).subs[i], now)
  {
    var b' := FireAll(p, b, now);
    forall i | 0 <= i < |b.subs|
      ensures SubOk(p, b'.subs[i]) && Fired(b'.subs[i], now) && (Held(b'.subs[i]) <==> Held(b.subs[i]))
    {
      FireSubOk(p, b.subs[i], now);
    }
  }

  lemma AcceptSubOk(p: Timing, s: Sub, now: nat, c: Cmd)
    requires p.Ok() && SubOk(p, s) && Fired(s, now) && Issuable(s, now, c)
    ensures SubOk(p, Accept(p, s, now, c)) && s.due == Nothing
    ensures Held(Accept(p, s, now, c)) <==>
      c.Act? || (Held(s) && (c.Rd? || c.Wr?) && !c.auto)
  {
  }

  lemma {:induction false} ErasedFacts(q: seq<nat>, sa: nat)
    requires NoDuplicates(q)
    ensures NoDuplicates(Erased(q, sa)) && |Erased(q, sa)| <= |q|
    ensures forall x :: x in Erased(q, sa) <==> x in q && x != sa
  {
    if q != [] {
      assert forall i | 0 <= i < |q[1..]| :: q[1..][i] == q[i + 1];
      assert NoDuplicates(q[1..]);
      assert q[0] !in q[1..];
      assert forall x :: x in q <==> x == q[0] || x in q[1..];
      if q[0] != sa {
        ErasedFacts(q[1..], sa);
        var r := Erased(q[1..], sa);
        assert Erased(q, sa) == [q[0]] + r;
      }
    }
  }

  /** Precharging every listed subarray succeeds and releases exactly those. */
  lemma {:induction false} CloseListedFacts(p: Timing, subs: seq<Sub>, q: seq<nat>, now: nat)
    requires p.Ok() && NoDuplicates(q) && (forall i | 0 <= i < |q| :: q[i] < |subs|)
    requires forall i | 0 <= i < |subs| :: SubOk(p, subs[i]) && Fired(subs[i], now)
    requires forall i | 0 <= i < |q| :: Issuable(subs[q[i]], now, Pre)
    ensures var (r, ok) := CloseListed(p, subs, q, now);
      && ok && |r| == |subs|
      && (forall i | 0 <= i < |r| :: SubOk(p, r[i]))
      && (forall i | 0 <= i < |r| :: Held(r[i]) <==> Held(subs[i]) && i !in q)
    decreases |q|
  {
    if q != [] {
      AcceptSubOk(p, subs[q[0]], now, Pre);
      var subs1 := subs[q[0] := Accept(p, subs[q[0]], now, Pre)];
      assert forall i | 0 <= i < |q[1..]| :: q[1..][i] == q[i + 1] && q[i + 1] != q[0];
      assert Fired(subs1[q[0]], now);
      assert forall x :: x in q <==> x == q[0] || x in q[1..];
      CloseListedFacts(p, subs1, q[1..], now);
    }
  }

  /** A change of one subarray keeps the invariant when the list and the state follow it. */
  lemma OneChanged(p: Timing, b: Bank, b': Bank, sa: nat)
    requires BankOk(p, b) && sa < |b.subs| == |b'.subs| && SubOk(p, b'.subs[sa])
    requires forall i | 0 <= i < |b.subs| && i != sa :: b'.subs[i] == b.subs[i]
    requires NoDuplicates(b'.active) && (b'.active != [] <==> b'.state == BankOpen || b'.state == PDA)
    requires forall x :: x in b'.active <==> if x == sa then Held(b'.subs[sa]) else x in b.active
    ensures BankOk(p, b')
  {
    forall i | 0 <= i < |b'.active| ensures b'.active[i] < |b'.subs| {
      assert b'.active[i] in b'.active;
      if b'.active[i] != sa { assert b'.active[i] in b.active; }
    }
  }

  /** A listed change of one subarray keeps the invariant. */
  lemma ToSubOk(p: Timing, b: Bank, now: nat, sa: nat, c: Cmd)
    requires p.Ok() && BankOk(p, b) && sa < |b.subs| && Sane(c) && Fired(b.subs[sa], now)
    requires Issuable(b.subs[sa], now, c) && BankMay(b, now, c)
    ensures BankOk(p, Listed(BankTimers(p, b, now, c).(subs := b.subs[sa := Accept(p, b.subs[sa], now, c)]), sa, c))
  {
    AcceptSubOk(p, b.subs[sa], now, c);
    var b' := Listed(BankTimers(p, b, now, c).(subs := b.subs[sa := Accept(p, b.subs[sa], now, c)]), sa, c);
    if c.Act? {
      assert sa !in b.active;
      assert b'.active == [sa] + b.active;
    } else if c.Pre? || (!c.Ref? && c.auto) {
      ErasedFacts(b.active, sa);
      assert b'.active == Erased(b.active, sa);
      if b'.active != [] { assert b'.active[0] in b.active; }
    }
    OneChanged(p, b, b', sa);
  }

  /** IsIssuable can be trusted: in a state that satisfies the invariant, with due responses run,
      a command that is issuable passes every further check at the bank and at the subarrays; and
      whether or not it is, the invariant holds afterwards. */
  lemma IssuableIsTrusted(p: Timing, b: Bank, now: nat, c: BankCmd)
    requires p.Ok() && BankOk(p, b) && Fits(b, c)
    requires forall i | 0 <= i < |b.subs| :: Fired(b.subs[i], now)
    ensures Issue(p, b, now, c).1 <==> MayIssue(b, now, c)
    ensures BankOk(p, Issue(p, b, now, c).0)
  {
    if MayIssue(b, now, c) {
      match c {
        case ToSub(sa, cmd) => ToSubOk(p, b, now, sa, cmd);
        case PreAll => CloseListedFacts(p, b.subs, b.active, now);
        case PowerDown(_) =>
        case PowerUp =>
      }
    }
  }

  // ------------------------------------------------------------------ runs

  datatype Proposal = Proposal(cycle: nat, cmd: BankCmd)

  function FreshBank(n: nat, initPD: bool): Bank {
    Bank(if initPD then PDPF else BankClosed, 0, 0, 0, 0, 0, 0, [], seq(n, _ => FRESH))
  }

  ghost predicate Run(p: Timing, n: nat, initPD: bool, os: seq<Proposal>, bs: seq<Bank>)
    requires p.Ok()
  {
    && |bs| == |os| + 1 && bs[0] == FreshBank(n, initPD)
    && (forall i, j | 0 <= i < j < |os| :: os[i].cycle <= os[j].cycle)
    && forall i {:trigger StepAt(p, os, bs, i)} | 0 <= i < |os| :: StepAt(p, os, bs, i)
  }

  /** Offer `i` leads from state `i` to the next one. */
  ghost predicate StepAt(p: Timing, os: seq<Proposal>, bs: seq<Bank>, i: nat)
    requires p.Ok() && i < |os| && |bs| == |os| + 1
  {
    Next(p, bs[i], os[i], bs[i + 1])
  }

  ghost predicate Next(p: Timing, b: Bank, o: Proposal, b': Bank)
    requires p.Ok()
  {
    && Fits(b, o.cmd) && (forall i | 0 <= i < |b.active| :: b.active[i] < |b.subs|)
    && b' == Issue(p, FireAll(p, b, o.cycle), o.cycle, o.cmd).0
  }

  /** Whether offer `i` of a run is accepted. */
  predicate Accepted(p: Timing, b: Bank, o: Proposal)
    requires p.Ok() && Fits(b, o.cmd) && (forall i | 0 <= i < |b.active| :: b.active[i] < |b.subs|)
  {
    Issue(p, FireAll(p, b, o.cycle), o.cycle, o.cmd).1
  }

  /** In every state of every run, IsIssuable tells exactly what IssueCommand will do. */
  lemma {:induction false} RunTrusted(p: Timing, n: nat, initPD: bool, os: seq<Proposal>, bs: seq<Bank>, k: nat)
    requires p.Ok() && Run(p, n, initPD, os, bs) && k < |bs|
    ensures BankOk(p, bs[k])
    ensures forall o: Proposal | Fits(bs[k], o.cmd) ::
      Accepted(p, bs[k], o) <==> MayIssue(FireAll(p, bs[k], o.cycle), o.cycle, o.cmd)
    decreases k
  {
    if k > 0 {
      RunTrusted(p, n, initPD, os, bs, k - 1);
      var b, o := bs[k - 1], os[k - 1];
      assert StepAt(p, os, bs, k - 1);
      FireAllOk(p, b, o.cycle);
      IssuableIsTrusted(p, FireAll(p, b, o.cycle), o.cycle, o.cmd);
    }
    forall o: Proposal | Fits(bs[k], o.cmd)
      ensures Accepted(p, bs[k], o) <==> MayIssue(FireAll(p, bs[k], o.cycle), o.cycle, o.cmd)
    {
      FireAllOk(p, bs[k], o.cycle);
      IssuableIsTrusted(p, FireAll(p, bs[k], o.cycle), o.cycle, o.cmd);
    }
  }

  /** The invariant alone, and the next step. */
  lemma RunStep(p: Timing, n: nat, initPD: bool, os: seq<Proposal>, bs: seq<Bank>, k: nat)
    requires p.Ok() && Run(p, n, initPD, os, bs) && k < |os|
    ensures BankOk(p, bs[k]) && Next(p, bs[k], os[k], bs[k + 1])
  {
    RunTrusted(p, n, initPD, os, bs, k);
    assert StepAt(p, os, bs, k);
  }

  /** The bank takes the command. */
  ghost predicate Took(p: Timing, b: Bank, o: Proposal)
    requires p.Ok()
  {
    Fits(b, o.cmd) && (forall i | 0 <= i < |b.active| :: b.active[i] < |b.subs|) && Accepted(p, b, o)
  }
}
