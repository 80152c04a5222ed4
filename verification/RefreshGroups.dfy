/**
 Refresh accounting of the memory controller: one delayed-refresh counter and one set of flags
 per refresh group (a block of `perRefresh` consecutive banks of a rank), the REFRESH commands
 in the queue of the group's first bank, and the timing of the refresh pulses.
 */
module RefreshGroups {
  import opened Arithmetic
  import opened RowShadow
  import opened RoundRobin

  function CountRefresh(cs: seq<Command>): nat {
    if cs == [] then 0 else (if cs[0].op.Refresh? then 1 else 0) + CountRefresh(cs[1..])
  }

  /** REFRESH commands queued in a bank and not issued yet. */
  function Waiting(b: Bank): nat {
    CountRefresh(Pending(b.queue))
  }

  lemma {:induction false} CountAppend(a: seq<Command>, b: seq<Command>)
    ensures CountRefresh(a + b) == CountRefresh(a) + CountRefresh(b)
  {
    if a == [] {
      assert a + b == b;
    } else {
      assert (a + b)[1..] == a[1..] + b;
      CountAppend(a[1..], b);
    }
  }

  lemma PushWaiting(b: Bank, cs: seq<Command>)
    ensures Waiting(Push(b, cs)) == Waiting(b) + CountRefresh(cs)
  {
    PendingAppend(b.queue, Queued(cs));
    PendingQueued(cs);
    CountAppend(Pending(b.queue), cs);
  }

  /** Transactions and the closing of a bank queue no REFRESH. */
  lemma IssueWaiting(p: Params, b: Bank, r: Request)
    requires 0 < p.rbSize && b.Shaped(|b.active|) && r.subarray < |b.active|
    ensures Waiting(Issue(p, b, r).0) == Waiting(b)
  {
    var (b', ok) := Issue(p, b, r);
    IssueCarriesOnce(p, b, r);
    if ok {
      var cs := b'.queue[|b.queue|..];
      ExpandedWaiting(p, b, b', r, cs);
    }
  }

  lemma ExpandedWaiting(p: Params, b: Bank, b': Bank, r: Request, cs: seq<Entry>)
    requires 0 < p.rbSize && b.Shaped(|b.active|) && r.subarray < |b.active| && Expanded(p, b, r, cs)
    requires b.queue <= b'.queue && cs == b'.queue[|b.queue|..]
    ensures Waiting(b') == Waiting(b)
  {
    forall i | 0 <= i < |cs| ensures !cs[i].cmd.op.Refresh? {
      assert Serves(cs[i].cmd) && (i == |cs| - 1 || i == |cs| - 2 || (i == 0 && |cs| == 3));
    }
    assert b'.queue == b.queue + cs;
    PendingAppend(b.queue, cs);
    NoRefreshPending(cs);
    CountAppend(Pending(b.queue), Pending(cs));
  }

  lemma {:induction false} NoRefreshPending(q: seq<Entry>)
    requires forall i | 0 <= i < |q| :: !q[i].cmd.op.Refresh?
    ensures CountRefresh(Pending(q)) == 0
  {
    if q != [] {
      NoRefreshPending(q[1..]);
      CountAppend(if q[0].issued then [] else [q[0].cmd], Pending(q[1..]));
      assert CountRefresh([q[0].cmd]) == 0;
    }
  }

  lemma CloseAllWaiting(p: Params, b: Bank)
    ensures Waiting(CloseAll(p, b)) == Waiting(b)
  {
    if b.activateQueued {
      var n := |b.active|;
      var cs := [Command(PrechargeAll, 0, 0, None)];
      assert CountRefresh(cs) == 0;
      PushWaiting(b.(activateQueued := false, active := seq(n, _ => false),
                     row := seq(n, _ => p.rows), mux := seq(n, _ => p.rows)), cs);
    }
  }

  lemma PushRefreshWaiting(b: Bank)
    ensures Waiting(PushRefresh(b)) == Waiting(b) + 1
  {
    PushWaiting(b, [Command(Refresh, 0, 0, None)]);
    assert CountRefresh([Command(Refresh, 0, 0, None)]) == 1;
  }

  lemma IssueHeadWaiting(b: Bank)
    requires b.queue != [] && !b.queue[0].issued
    ensures Waiting(IssueHead(b)) == Waiting(b) - (if b.queue[0].cmd.op.Refresh? then 1 else 0)
  {
    var q, q' := b.queue, IssueHead(b).queue;
    assert q'[1..] == q[1..];
    assert Pending(q) == [q[0].cmd] + Pending(q[1..]);
    assert Pending(q)[1..] == Pending(q');
  }

  // ------------------------------------------------------------------ one group's books

  /** The books of one refresh group: pulses received, REFRESH commands issued, REFRESH commands
      queued while the group's refreshQueued flag was set, and the times issuing one found the flag
      clear (where the source asserts that it is set). */
  datatype Books = Books(pulses: nat, issued: nat, late: nat, failures: nat)

  /** Conservation: every pulse is delayed, waiting in the queue, or issued; and failed
      assertions are exactly the late commands not waiting any more. */
  predicate Balanced(k: Books, delayed: nat, waiting: nat, flag: bool) {
    && k.pulses == delayed + waiting + k.issued
    && waiting + k.failures == (if flag then 1 else 0) + k.late
    && (flag ==> waiting >= 1)
  }

  function OnPulse(k: Books): Books { k.(pulses := k.pulses + 1) }

  function OnQueue(k: Books, flag: bool): Books { if flag then k.(late := k.late + 1) else k }

  function OnIssue(k: Books, flag: bool): Books {
    k.(issued := k.issued + 1, failures := if flag then k.failures else k.failures + 1)
  }

  datatype GroupEvent = Pulse | QueueRefresh | IssueRefresh

  /** One group: its counter, the REFRESH commands waiting, its flag and its books. */
  datatype Group = Group(delayed: nat, waiting: nat, flag: bool, books: Books)

  predicate Possible(g: Group, e: GroupEvent) {
    match e
    case Pulse => true
    case QueueRefresh => g.delayed > 0
    case IssueRefresh => g.waiting > 0
  }

  function Happen(g: Group, e: GroupEvent): Group
    requires Possible(g, e)
  {
    match e
    case Pulse => g.(delayed := g.delayed + 1, books := OnPulse(g.books))
    case QueueRefresh => Group(g.delayed - 1, g.waiting + 1, true, OnQueue(g.books, g.flag))
    case IssueRefresh => Group(g.delayed, g.waiting - 1, false, OnIssue(g.books, g.flag))
  }

  function History(g: Group, es: seq<GroupEvent>): (r: Option<Group>)
    decreases |es|
  {
    if es == [] then Some(g)
    else if Possible(g, es[0]) then History(Happen(g, es[0]), es[1..])
    else None
  }

  /** Over every history of a group: no pulse is lost, and the assertion on refreshQueued has failed
      as often as a REFRESH was queued while the flag was set, once nothing is waiting; and never
      more often. */
  lemma {:induction false} HistoryBalanced(g: Group, es: seq<GroupEvent>)
    requires Balanced(g.books, g.delayed, g.waiting, g.flag)
    ensures var r := History(g, es);
      r.Some? ==>
        && Balanced(r.value.books, r.value.delayed, r.value.waiting, r.value.flag)
        && r.value.books.failures <= r.value.books.late
        && (r.value.waiting == 0 ==> r.value.books.failures == r.value.books.late)
    decreases |es|
  {
    if es != [] && Possible(g, es[0]) {
      HistoryBalanced(Happen(g, es[0]), es[1..]);
    }
  }

  /** How often a history queues a REFRESH while an earlier one of the group is waiting. */
  function Overlaps(g: Group, es: seq<GroupEvent>): nat
    decreases |es|
  {
    if es == [] || !Possible(g, es[0]) then 0
    else (if es[0] == QueueRefresh && g.waiting > 0 then 1 else 0) + Overlaps(Happen(g, es[0]), es[1..])
  }

  /** Overlaps and failures, from any state of the books on. */
  lemma {:induction false} OverlapsCount(g: Group, es: seq<GroupEvent>)
    requires Balanced(g.books, g.delayed, g.waiting, g.flag)
    ensures var r := History(g, es);
      r.Some? ==>
        && g.books.late <= r.value.books.late <= g.books.late + Overlaps(g, es)
        && (g.books.late == 0 ==> (Overlaps(g, es) == 0 <==> r.value.books.late == 0))
    decreases |es|
  {
    if es != [] && Possible(g, es[0]) {
      OverlapsCount(Happen(g, es[0]), es[1..]);
    }
  }

  /** The assertion holds throughout a history that starts and ends with nothing waiting exactly when
      no REFRESH is ever queued while an earlier one of the group is waiting; otherwise it fails at
      least once, and at most as often as that happens. */
  lemma AssertionHoldsIff(pulses: nat, es: seq<GroupEvent>)
    requires var r := History(Group(pulses, 0, false, Books(pulses, 0, 0, 0)), es); r.Some? && r.value.waiting == 0
    ensures var g := Group(pulses, 0, false, Books(pulses, 0, 0, 0)); var r := History(g, es).value;
      (r.books.failures == 0 <==> Overlaps(g, es) == 0) && r.books.failures <= Overlaps(g, es)
  {
    var g := Group(pulses, 0, false, Books(pulses, 0, 0, 0));
    HistoryBalanced(g, es);
    OverlapsCount(g, es);
  }

  /** The assertion does fail: two pulses handled before the first REFRESH leaves the queue. */
  lemma LateRefreshFails()
    ensures var r := History(Group(0, 0, false, Books(0, 0, 0, 0)),
        [Pulse] + ([QueueRefresh] + ([Pulse] + ([QueueRefresh] + ([IssueRefresh] + ([IssueRefresh] + []))))));
      r.Some? && r.value.books.failures == 1
  {
    var g0 := Group(0, 0, false, Books(0, 0, 0, 0));
    var g3 := Happen(Happen(Happen(g0, Pulse), QueueRefresh), Pulse);
    var g4 := Happen(g3, QueueRefresh);
    HistoryStep(g0, Pulse, [QueueRefresh] + ([Pulse] + ([QueueRefresh] + ([IssueRefresh] + ([IssueRefresh] + [])))));
    HistoryStep(Happen(g0, Pulse), QueueRefresh, [Pulse] + ([QueueRefresh] + ([IssueRefresh] + ([IssueRefresh] + []))));
    HistoryStep(Happen(Happen(g0, Pulse), QueueRefresh), Pulse,
                [QueueRefresh] + ([IssueRefresh] + ([IssueRefresh] + [])));
    HistoryStep(g3, QueueRefresh, [IssueRefresh] + ([IssueRefresh] + []));
    HistoryStep(g4, IssueRefresh, [IssueRefresh] + []);
    HistoryStep(Happen(g4, IssueRefresh), IssueRefresh, []);
  }

  lemma HistoryStep(g: Group, e: GroupEvent, es: seq<GroupEvent>)
    requires Possible(g, e)
    ensures History(g, [e] + es) == History(Happen(g, e), es)
  {
    assert ([e] + es)[1..] == es;
  }

  // ------------------------------------------------------------------ the round-robin scan

  /** The group a refresh scan starting at group `start` looks at in step `k`, given as the source
      computes it from bank numbers: (start * per + k * per) mod (groups * per). */
  lemma ScanGroup(start: nat, k: nat, groups: nat, per: nat)
    requires 0 < per && 0 < groups && start < groups && k < groups
    ensures groups * per > 0
    ensures (start * per + k * per) % (groups * per) == Scan(start, k, groups) * per
    ensures (Scan(start, k, groups) * per) / per == Scan(start, k, groups) < groups
  {
    var g := Scan(start, k, groups);
    ModSmall(start + k, groups);
    Distribute(start, k, per);
    MulLe(1, groups, per);
    MixedDigits(g, 0, per, groups);
    var size := groups * per;
    if start + k < groups {
      ModIs(start * per + k * per, size, 0, g * per);
    } else {
      Distribute(g, groups, per);
      ModIs(start * per + k * per, size, 1, g * per);
    }
  }

  lemma ModIs(x: nat, size: nat, q: nat, r: nat)
    requires x == q * size + r && r < size
    ensures x % size == r
  {
    DigitsUnique(x / size, x % size, q, r, size);
  }

  // ------------------------------------------------------------------ pulse timing

  /** The refresh interval, and the cycle of the m-th pulse of the group with number `idx`. */
  function Interval(tREFW: nat, rows: nat, refreshRows: nat): nat
    requires 0 < refreshRows <= rows
  {
    DivPositive(rows, refreshRows);
    tREFW / (rows / refreshRows)
  }

  lemma DivPositive(a: nat, b: nat)
    requires 0 < b <= a
    ensures a / b >= 1
  {
  }

  /** The first pulse is inserted at start-up, staggered by the group's slices; each pulse inserts
      the next one an interval later. */
  function PulseCycle(tREFI: nat, groups: nat, idx: nat, m: nat): nat
    requires 0 < groups
  {
    if m == 0 then tREFI + idx * (tREFI / groups) else NextPulse(PulseCycle(tREFI, groups, idx, m - 1), tREFI)
  }

  /** The cycle at which a pulse that runs now inserts its successor. */
  function NextPulse(now: nat, tREFI: nat): nat { now + tREFI }

  lemma {:induction false} PulseCycleIs(tREFI: nat, groups: nat, idx: nat, m: nat)
    requires 0 < groups
    ensures PulseCycle(tREFI, groups, idx, m) == tREFI + idx * (tREFI / groups) + m * tREFI
  {
    if m > 0 {
      PulseCycleIs(tREFI, groups, idx, m - 1);
      Distribute(m - 1, 1, tREFI);
    }
  }

  /** Pulses of different groups never fall in the same cycle when the slice is at least one. */
  lemma PulsesNeverCollide(tREFI: nat, groups: nat, i: nat, j: nat, m: nat, n: nat)
    requires i < groups && j < groups && i != j && tREFI / groups >= 1
    ensures PulseCycle(tREFI, groups, i, m) != PulseCycle(tREFI, groups, j, n)
  {
    var slice := tREFI / groups;
    assert groups * slice <= tREFI;
    OffsetSmall(i, slice, groups, tREFI);
    OffsetSmall(j, slice, groups, tREFI);
    PulseCycleIs(tREFI, groups, i, m);
    PulseCycleIs(tREFI, groups, j, n);
    if PulseCycle(tREFI, groups, i, m) == PulseCycle(tREFI, groups, j, n) {
      assert m * tREFI + i * slice == n * tREFI + j * slice;
      DigitsUnique(m, i * slice, n, j * slice, tREFI);
      MulCancel(i, j, slice);
    }
  }

  lemma OffsetSmall(i: nat, slice: nat, groups: nat, tREFI: nat)
    requires i < groups && slice >= 1 && groups * slice <= tREFI
    ensures i * slice < tREFI
  {
    MulLe(i + 1, groups, slice);
  }

  lemma MulCancel(i: nat, j: nat, s: nat)
    requires s >= 1 && i * s == j * s
    ensures i == j
  {
  }

  /** Any window of tREFW cycles after start-up holds at least rows/refreshRows pulses of each
      group: the m0-th pulse from the window's start on and the following ones. */
  lemma WindowCoverage(tREFW: nat, rows: nat, refreshRows: nat, groups: nat, idx: nat, t: nat) returns (m0: nat)
    requires 0 < refreshRows <= rows && 0 < groups
    requires Interval(tREFW, rows, refreshRows) > 0
    requires t >= PulseCycle(Interval(tREFW, rows, refreshRows), groups, idx, 0)
    ensures var tREFI := Interval(tREFW, rows, refreshRows);
      forall m | m0 <= m < m0 + rows / refreshRows :: t <= PulseCycle(tREFI, groups, idx, m) < t + tREFW
  {
    var tREFI, n := Interval(tREFW, rows, refreshRows), rows / refreshRows;
    DivPositive(rows, refreshRows);
    assert tREFI * n <= tREFW;
    var base := PulseCycle(tREFI, groups, idx, 0);
    m0 := (t - base + tREFI - 1) / tREFI;
    CeilBounds(t - base, tREFI, m0);
    forall m | m0 <= m < m0 + n ensures t <= PulseCycle(tREFI, groups, idx, m) < t + tREFW {
      InWindow(t - base, tREFI, m0, m, n);
      PulseCycleIs(tREFI, groups, idx, m);
    }
  }

  lemma InWindow(x: nat, d: nat, m0: nat, m: nat, n: nat)
    requires x <= m0 * d < x + d && m0 <= m < m0 + n
    ensures x <= m * d < x + d * n
  {
    MulLe(m0, m, d);
    MulLe(m, m0 + n - 1, d);
    Distribute(m0, n - 1, d);
    Distribute(n - 1, 1, d);
  }

  lemma CeilBounds(x: nat, d: nat, m: nat)
    requires 0 < d && m == (x + d - 1) / d
    ensures x <= m * d < x + d
  {
    assert x + d - 1 == m * d + (x + d - 1) % d;
  }
}
