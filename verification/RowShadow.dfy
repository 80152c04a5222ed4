/**
 The shadow the memory controller keeps of each bank's row buffers, and the command queue it
 fills from it. One `Bank` holds the controller's per-bank arrays (activateQueued and, per
 subarray, activeSubArray, effectiveRow, effectiveMuxedRow, starvationCounter) and the
 bank's command queue; with per-bank queues the two have the same index.
 */
module RowShadow {

  datatype Option<T> = None | Some(value: T)

  datatype Params = Params(
    rows: nat,          // ROWS: one more than the last row, used as the invalid row
    rbSize: nat,        // RBSize: columns per mux level
    usePrecharge: bool)

  datatype Request = Request(id: nat, write: bool, rank: nat, bank: nat, row: nat, col: nat, subarray: nat,
                             last: bool, arrival: nat)

  datatype Op = Activate | Read | ReadPrecharge | Write | WritePrecharge | Precharge | PrechargeAll | Refresh

  /** A memory command; `source` is the transaction it carries, if any. */
  datatype Command = Command(op: Op, subarray: nat, row: nat, source: Option<Request>)

  datatype Entry = Entry(cmd: Command, issued: bool)

  datatype Bank = Bank(
    queue: seq<Entry>,
    activateQueued: bool,
    active: seq<bool>,
    row: seq<nat>,
    mux: seq<nat>,
    starvation: seq<nat>)
  {
    predicate Shaped(subs: nat) {
      |active| == |row| == |mux| == |starvation| == subs
    }

    /** The row buffers the shadow believes in. */
    function Rows(): Rows
      requires |active| == |row|
    {
      seq(|active|, i requires 0 <= i < |active| == |row| => if active[i] then Some(row[i]) else None)
    }

    predicate Hit(p: Params, r: Request)
      requires 0 < p.rbSize && r.subarray < |active| == |row| == |mux|
    {
      active[r.subarray] && row[r.subarray] == r.row && mux[r.subarray] == r.col / p.rbSize
    }
  }

  // ------------------------------------------------------------------ the device's row buffers

  // One open row, or none, per subarray.
  type Rows = seq<Option<nat>>

  /** What a command does to the row buffers; None when it is illegal: activating an open
      subarray, reading or writing a row that is not open, refreshing with a row open. */
  function Apply(d: Rows, c: Command): (r: Option<Rows>)
    ensures r.Some? ==> |r.value| == |d|
  {
    if c.op.PrechargeAll? then Some(seq(|d|, _ => None))
    else if c.op.Refresh? then (if forall i | 0 <= i < |d| :: d[i] == None then Some(d) else None)
    else if c.subarray >= |d| then None
    else if c.op.Precharge? then Some(d[c.subarray := None])
    else if c.op.Activate? then (if d[c.subarray] == None then Some(d[c.subarray := Some(c.row)]) else None)
    else if d[c.subarray] != Some(c.row) then None
    else if c.op.Read? || c.op.Write? then Some(d)
    else Some(d[c.subarray := None])
  }

  function Replay(d: Rows, cs: seq<Command>): (r: Option<Rows>)
    ensures r.Some? ==> |r.value| == |d|
    decreases |cs|
  {
    if cs == [] then Some(d)
    else
      var r := Apply(d, cs[0]);
      if r.None? then None else Replay(r.value, cs[1..])
  }

  lemma {:induction false} ReplayAppend(d: Rows, a: seq<Command>, b: seq<Command>)
    ensures Replay(d, a + b) == (var r := Replay(d, a); if r.None? then None else Replay(r.value, b))
    decreases |a|
  {
    if a == [] {
      assert a + b == b;
    } else {
      assert (a + b)[1..] == a[1..] + b;
      var r := Apply(d, a[0]);
      if r.Some? { ReplayAppend(r.value, a[1..], b); }
    }
  }

  /** The commands of a queue that have not been issued. */
  function Pending(q: seq<Entry>): seq<Command> {
    if q == [] then [] else (if q[0].issued then [] else [q[0].cmd]) + Pending(q[1..])
  }

  lemma {:induction false} PendingAppend(a: seq<Entry>, b: seq<Entry>)
    ensures Pending(a + b) == Pending(a) + Pending(b)
  {
    if a == [] {
      assert a + b == b;
    } else {
      assert (a + b)[1..] == a[1..] + b;
      PendingAppend(a[1..], b);
    }
  }

  // ------------------------------------------------------------------ controller steps on a bank

  function Queued(cmds: seq<Command>): seq<Entry> {
    seq(|cmds|, i requires 0 <= i < |cmds| => Entry(cmds[i], false))
  }

  function Push(b: Bank, cmds: seq<Command>): Bank {
    b.(queue := b.queue + Queued(cmds))
  }

  function Access(r: Request, close: bool): Command {
    Command(if r.write then (if close then WritePrecharge else Write) else (if close then ReadPrecharge else Read),
            r.subarray, r.row, Some(r))
  }

  /** The shadow with row `r.row` open in the subarray of `r`. */
  function Opened(p: Params, b: Bank, r: Request): Bank
    requires 0 < p.rbSize && b.Shaped(|b.active|) && r.subarray < |b.active|
  {
    b.(activateQueued := true,
       active := b.active[r.subarray := true],
       row := b.row[r.subarray := r.row],
       mux := b.mux[r.subarray := r.col / p.rbSize])
  }

  /** The shadow with the subarray of `r` closed. */
  function Closed(p: Params, b: Bank, sa: nat, activateQueued: bool): Bank
    requires b.Shaped(|b.active|) && sa < |b.active|
  {
    b.(activateQueued := activateQueued,
       active := b.active[sa := false],
       row := b.row[sa := p.rows],
       mux := b.mux[sa := p.rows])
  }

  predicate AnyActive(active: seq<bool>) {
    exists i | 0 <= i < |active| :: active[i]
  }

  /** `IssueMemoryCommands`: expands a transaction into commands and updates the shadow; the flag
      says whether the transaction was accepted. */
  function Issue(p: Params, b: Bank, r: Request): (Bank, bool)
    requires 0 < p.rbSize && b.Shaped(|b.active|) && r.subarray < |b.active|
  {
    var sa := r.subarray;
    var act := Command(Activate, sa, r.row, None);
    if !b.activateQueued && b.queue == [] then
      var b1 := Opened(p, b, r).(starvation := b.starvation[sa := 0]);
      if r.last && p.usePrecharge then
        (Push(Closed(p, b1, sa, false), [act, Access(r, true)]), true)
      else
        (Push(b1, [act, Access(r, false)]), true)
    else if b.activateQueued && !b.Hit(p, r) && b.queue == [] then
      var pre := if b.active[sa] && p.usePrecharge then [Command(Precharge, sa, b.row[sa], None)] else [];
      (Push(Opened(p, b, r).(starvation := b.starvation[sa := 0]), pre + [act, Access(r, false)]), true)
    else if b.activateQueued && b.Hit(p, r) then
      var b1 := b.(starvation := b.starvation[sa := b.starvation[sa] + 1]);
      if r.last && p.usePrecharge then
        var rest := b.active[sa := false];
        (Push(Closed(p, b1, sa, AnyActive(rest)), [Access(r, true)]), true)
      else
        (Push(b1, [Access(r, false)]), true)
    else
      (b, false)
  }

  /** The part of `HandleRefresh` that closes every open subarray of a bank about to be refreshed. */
  function CloseAll(p: Params, b: Bank): Bank {
    if !b.activateQueued then b
    else
      var n := |b.active|;
      Push(b.(activateQueued := false, active := seq(n, _ => false),
              row := seq(n, _ => p.rows), mux := seq(n, _ => p.rows)),
           [Command(PrechargeAll, 0, 0, None)])
  }

  /** The REFRESH command appended to the queue of the first bank of a refresh group. */
  function PushRefresh(b: Bank): Bank {
    Push(b, [Command(Refresh, 0, 0, None)])
  }

  /** The head of the queue marked as issued. */
  function IssueHead(b: Bank): Bank
    requires b.queue != []
  {
    b.(queue := [b.queue[0].(issued := true)] + b.queue[1..])
  }

  function Unissued(q: seq<Entry>): seq<Entry> {
    if q == [] then [] else (if q[0].issued then [] else [q[0]]) + Unissued(q[1..])
  }

  /** `CleanupCallback` on one queue. */
  function Cleanup(b: Bank): Bank {
    b.(queue := Unissued(b.queue))
  }

  // ------------------------------------------------------------------ the simulation

  /** Replaying the commands not yet issued, from the device's row buffers, is legal throughout
      and ends exactly in the shadow; and activateQueued says whether any subarray is active. */
  ghost predicate Simulates(p: Params, b: Bank, d: Rows) {
    && b.Shaped(|d|)
    && (b.activateQueued <==> AnyActive(b.active))
    && Replay(d, Pending(b.queue)) == Some(b.Rows())
  }

  lemma PendingQueued(cs: seq<Command>)
    ensures Pending(Queued(cs)) == cs
  {
    if cs != [] {
      assert Queued(cs)[1..] == Queued(cs[1..]);
      PendingQueued(cs[1..]);
    }
  }

  /** Appending commands keeps the simulation when they take the old shadow to the new one. */
  lemma PushSimulates(p: Params, b: Bank, b': Bank, d: Rows, cs: seq<Command>)
    requires Simulates(p, b, d) && b'.queue == b.queue && b'.Shaped(|d|)
    requires b'.activateQueued <==> AnyActive(b'.active)
    requires Replay(b.Rows(), cs) == Some(b'.Rows())
    ensures Simulates(p, Push(b', cs), d)
  {
    PendingAppend(b.queue, Queued(cs));
    PendingQueued(cs);
    ReplayAppend(d, Pending(b.queue), cs);
  }

  lemma ClosedBankSimulates(p: Params, b: Bank, r: Request, d: Rows)
    requires 0 < p.rbSize && p.usePrecharge && Simulates(p, b, d) && r.subarray < |d|
    requires !b.activateQueued && b.queue == []
    ensures Simulates(p, Issue(p, b, r).0, d)
  {
    var sa, rows := r.subarray, b.Rows();
    var act := Command(Activate, sa, r.row, None);
    var b1 := Opened(p, b, r).(starvation := b.starvation[sa := 0]);
    assert b1.Rows() == rows[sa := Some(r.row)];
    assert b1.active[sa] && rows[sa] == None;
    ReplayTwo(rows, act, Access(r, r.last));
    if r.last {
      var b2 := Closed(p, b1, sa, false);
      assert b2.Rows() == rows == rows[sa := Some(r.row)][sa := None];
      PushSimulates(p, b, b2, d, [act, Access(r, true)]);
    } else {
      PushSimulates(p, b, b1, d, [act, Access(r, false)]);
    }
  }

  lemma MissSimulates(p: Params, b: Bank, r: Request, d: Rows)
    requires 0 < p.rbSize && p.usePrecharge && Simulates(p, b, d) && r.subarray < |d|
    requires b.activateQueued && !b.Hit(p, r) && b.queue == []
    ensures Simulates(p, Issue(p, b, r).0, d)
  {
    var sa, rows := r.subarray, b.Rows();
    var act, pre := Command(Activate, sa, r.row, None), Command(Precharge, sa, b.row[sa], None);
    var b1 := Opened(p, b, r).(starvation := b.starvation[sa := 0]);
    assert b1.active[sa];
    assert b1.Rows() == rows[sa := None][sa := Some(r.row)];
    ReplayTwo(rows[sa := None], act, Access(r, false));
    if b.active[sa] {
      assert ([pre] + [act, Access(r, false)])[1..] == [act, Access(r, false)];
      PushSimulates(p, b, b1, d, [pre] + [act, Access(r, false)]);
    } else {
      assert rows[sa := None] == rows;
      assert [] + [act, Access(r, false)] == [act, Access(r, false)];
      PushSimulates(p, b, b1, d, [act, Access(r, false)]);
    }
  }

  lemma HitSimulates(p: Params, b: Bank, r: Request, d: Rows)
    requires 0 < p.rbSize && p.usePrecharge && Simulates(p, b, d) && r.subarray < |d|
    requires b.activateQueued && b.Hit(p, r)
    ensures Simulates(p, Issue(p, b, r).0, d)
  {
    var sa, rows := r.subarray, b.Rows();
    var b1 := b.(starvation := b.starvation[sa := b.starvation[sa] + 1]);
    assert b1.Rows() == rows && rows[sa] == Some(r.row);
    ReplayOne(rows, Access(r, r.last));
    if r.last {
      var b2 := Closed(p, b1, sa, AnyActive(b.active[sa := false]));
      assert b2.Rows() == rows[sa := None];
      PushSimulates(p, b, b2, d, [Access(r, true)]);
    } else {
      PushSimulates(p, b, b1, d, [Access(r, false)]);
    }
  }

  /** Accepting (or refusing) a transaction keeps the simulation. */
  lemma IssueSimulates(p: Params, b: Bank, r: Request, d: Rows)
    requires 0 < p.rbSize && p.usePrecharge && Simulates(p, b, d) && r.subarray < |d|
    ensures Simulates(p, Issue(p, b, r).0, d)
  {
    if b.queue == [] && !b.activateQueued {
      ClosedBankSimulates(p, b, r, d);
    } else if b.activateQueued && b.Hit(p, r) {
      HitSimulates(p, b, r, d);
    } else if b.queue == [] {
      MissSimulates(p, b, r, d);
    }
  }

  lemma ReplayOne(d: Rows, c: Command)
    ensures Replay(d, [c]) == Apply(d, c)
  {
    var r := Apply(d, c);
    if r.Some? { assert Replay(r.value, []) == r; }
  }

  lemma ReplayTwo(d: Rows, a: Command, b: Command)
    ensures Replay(d, [a, b]) == (var r := Apply(d, a); if r.None? then None else Apply(r.value, b))
  {
    assert [a, b][1..] == [b];
    var r := Apply(d, a);
    if r.Some? { ReplayOne(r.value, b); }
  }

  /** Closing every subarray for a refresh keeps the simulation and leaves everything closed. */
  lemma CloseAllSimulates(p: Params, b: Bank, d: Rows)
    requires Simulates(p, b, d)
    ensures Simulates(p, CloseAll(p, b), d)
    ensures !AnyActive(CloseAll(p, b).active)
  {
    if b.activateQueued {
      var n := |b.active|;
      var b1 := b.(activateQueued := false, active := seq(n, _ => false),
                   row := seq(n, _ => p.rows), mux := seq(n, _ => p.rows));
      var c := Command(PrechargeAll, 0, 0, None);
      ReplayOne(b.Rows(), c);
      assert Apply(b.Rows(), c).value == b1.Rows();
      PushSimulates(p, b, b1, d, [c]);
    }
  }

  /** A REFRESH queued behind a bank with nothing active is legal when it is reached. */
  lemma PushRefreshSimulates(p: Params, b: Bank, d: Rows)
    requires Simulates(p, b, d) && !AnyActive(b.active)
    ensures Simulates(p, PushRefresh(b), d)
  {
    var c := Command(Refresh, 0, 0, None);
    ReplayOne(b.Rows(), c);
    PushSimulates(p, b, b, d, [c]);
  }

  /** Issuing an unissued head is legal for the device and keeps the simulation. */
  lemma IssueHeadSimulates(p: Params, b: Bank, d: Rows)
    requires Simulates(p, b, d) && b.queue != [] && !b.queue[0].issued
    ensures Apply(d, b.queue[0].cmd).Some?
    ensures Simulates(p, IssueHead(b), Apply(d, b.queue[0].cmd).value)
  {
    var q, q' := b.queue, IssueHead(b).queue;
    assert q'[1..] == q[1..];
    assert Pending(q) == [q[0].cmd] + Pending(q[1..]);
    assert Pending(q)[1..] == Pending(q');
  }

  lemma {:induction false} CleanupPending(q: seq<Entry>)
    ensures Pending(Unissued(q)) == Pending(q)
  {
    if q != [] {
      CleanupPending(q[1..]);
      PendingAppend(if q[0].issued then [] else [q[0]], Unissued(q[1..]));
      assert Pending([q[0]]) == if q[0].issued then [] else [q[0].cmd];
    }
  }

  lemma CleanupSimulates(p: Params, b: Bank, d: Rows)
    requires Simulates(p, b, d)
    ensures Simulates(p, Cleanup(b), d)
  {
    CleanupPending(b.queue);
  }

  // ------------------------------------------------------------------ whole runs of a bank

  datatype Step =
    | Transact(request: Request)
    | CloseForRefresh
    | RefreshHead          // the bank leads its refresh group: close everything, then REFRESH
    | IssueNext
    | RemoveIssued

  /** A step the controller can take; the head it issues has not been issued before. */
  predicate Enabled(b: Bank, s: Step) {
    match s
    case Transact(r) => r.subarray < |b.active|
    case IssueNext => b.queue != [] && !b.queue[0].issued
    case _ => true
  }

  /** One step of the controller on a bank and its device; an illegal command leaves no device state. */
  function Take(p: Params, b: Bank, d: Rows, s: Step): (Bank, Option<Rows>)
    requires 0 < p.rbSize && b.Shaped(|b.active|) && Enabled(b, s)
  {
    match s
    case Transact(r) => (Issue(p, b, r).0, Some(d))
    case CloseForRefresh => (CloseAll(p, b), Some(d))
    case RefreshHead => (PushRefresh(CloseAll(p, b)), Some(d))
    case IssueNext => (IssueHead(b), Apply(d, b.queue[0].cmd))
    case RemoveIssued => (Cleanup(b), Some(d))
  }

  lemma TakeSimulates(p: Params, b: Bank, d: Rows, s: Step)
    requires 0 < p.rbSize && p.usePrecharge && Simulates(p, b, d) && Enabled(b, s)
    ensures Take(p, b, d, s).1.Some?
    ensures Simulates(p, Take(p, b, d, s).0, Take(p, b, d, s).1.value)
  {
    match s
    case Transact(r) => IssueSimulates(p, b, r, d);
    case CloseForRefresh => CloseAllSimulates(p, b, d);
    case RefreshHead => CloseAllSimulates(p, b, d); PushRefreshSimulates(p, CloseAll(p, b), d);
    case IssueNext => IssueHeadSimulates(p, b, d);
    case RemoveIssued => CleanupSimulates(p, b, d);
  }

  /** `states` is a run: it starts idle and every step is one the controller can take. */
  ghost predicate IsRun(p: Params, subs: nat, steps: seq<Step>, states: seq<(Bank, Rows)>)
    requires 0 < p.rbSize
  {
    && |states| == |steps| + 1
    && states[0] == (Idle(p, subs), seq(subs, _ => None))
    && forall k | 0 <= k < |steps| :: IsStep(p, states[k], steps[k], states[k + 1])
  }

  ghost predicate IsStep(p: Params, from: (Bank, Rows), s: Step, to: (Bank, Rows))
    requires 0 < p.rbSize
  {
    && from.0.Shaped(|from.0.active|) && Enabled(from.0, s)
    && Take(p, from.0, from.1, s) == (to.0, Some(to.1))
  }

  function Idle(p: Params, subs: nat): Bank {
    Bank([], false, seq(subs, _ => false), seq(subs, _ => p.rows), seq(subs, _ => p.rows), seq(subs, _ => 0))
  }

  /** In every state of every run the shadow simulates the device, and no step is ever illegal
      for the device, whatever the scheduler and the refresh timer ask for. */
  lemma {:induction false} RunSimulates(p: Params, subs: nat, steps: seq<Step>, states: seq<(Bank, Rows)>, k: nat)
    requires 0 < p.rbSize && p.usePrecharge && IsRun(p, subs, steps, states) && k < |states|
    ensures Simulates(p, states[k].0, states[k].1)
    ensures forall s | Enabled(states[k].0, s) :: Take(p, states[k].0, states[k].1, s).1.Some?
  {
    if k == 0 {
      var (b, d) := states[0];
      assert b.Rows() == d;
    } else {
      RunSimulates(p, subs, steps, states, k - 1);
      assert IsStep(p, states[k - 1], steps[k - 1], states[k - 1 + 1]);
      TakeSimulates(p, states[k - 1].0, states[k - 1].1, steps[k - 1]);
    }
    forall s | Enabled(states[k].0, s) ensures Take(p, states[k].0, states[k].1, s).1.Some? {
      TakeSimulates(p, states[k].0, states[k].1, s);
    }
  }

  // ------------------------------------------------------------------ transactions

  /** The transactions a queue carries, in order. */
  function Carried(q: seq<Entry>): seq<Request> {
    if q == [] then [] else (if q[0].cmd.source.Some? then [q[0].cmd.source.value] else []) + Carried(q[1..])
  }

  lemma {:induction false} CarriedAppend(a: seq<Entry>, b: seq<Entry>)
    ensures Carried(a + b) == Carried(a) + Carried(b)
  {
    if a == [] {
      assert a + b == b;
    } else {
      assert (a + b)[1..] == a[1..] + b && (a + b)[0] == a[0];
      CarriedAppend(a[1..], b);
      var head := if a[0].cmd.source.Some? then [a[0].cmd.source.value] else [];
      assert Carried(a) == head + Carried(a[1..]) && Carried(a + b) == head + Carried((a + b)[1..]);
    }
  }

  predicate Accesses(op: Op) { op.Read? || op.ReadPrecharge? || op.Write? || op.WritePrecharge? }

  predicate Writes(op: Op) { op.Write? || op.WritePrecharge? }

  /** The access precharges its subarray when it is done. */
  predicate Precharges(op: Op) { op.ReadPrecharge? || op.WritePrecharge? }

  /** A command that carries a transaction is its access: it writes exactly if the transaction does,
      goes to its subarray and row, and precharges only after the last one of the row. Other commands
      access nothing. */
  predicate Serves(c: Command) {
    match c.source
    case None => !Accesses(c.op)
    case Some(r) =>
      && Accesses(c.op) && (Writes(c.op) <==> r.write) && (Precharges(c.op) ==> r.last)
      && c.subarray == r.subarray && c.row == r.row
  }

  ghost predicate AllServe(q: seq<Entry>) {
    forall i | 0 <= i < |q| :: Serves(q[i].cmd)
  }

  /** The commands a transaction was expanded into: a hit needs its access alone; otherwise its row is
      activated right before, and the subarray precharged before that if another row was open. The
      access precharges when the transaction is the last of its row, but not after a miss. */
  ghost predicate Expanded(p: Params, b: Bank, r: Request, cs: seq<Entry>)
    requires 0 < p.rbSize && b.Shaped(|b.active|) && r.subarray < |b.active|
  {
    var hit := b.activateQueued && b.Hit(p, r);
    var n := |cs|;
    && cs != [] && AllServe(cs) && (forall i | 0 <= i < n :: !cs[i].issued)
    && cs[n - 1].cmd.source == Some(r)
    && (Precharges(cs[n - 1].cmd.op) <==> r.last && p.usePrecharge && (hit || !b.activateQueued))
    && (forall i | 0 <= i < n - 1 :: cs[i].cmd.source == None && cs[i].cmd.subarray == r.subarray)
    && n == (if hit then 1 else if b.activateQueued && b.active[r.subarray] && p.usePrecharge then 3 else 2)
    && (!hit ==> cs[n - 2].cmd.op.Activate? && cs[n - 2].cmd.row == r.row)
    && (n == 3 ==> cs[0].cmd.op.Precharge?)
  }

  /** The shadow after it: the row is open for the next transaction, or closed if the access precharges;
      hits are counted since the last activation; the other subarrays stay as they were. */
  ghost predicate ShadowAfter(p: Params, b: Bank, r: Request, b': Bank)
    requires 0 < p.rbSize && b.Shaped(|b.active|) && r.subarray < |b.active|
  {
    var sa, hit := r.subarray, b.activateQueued && b.Hit(p, r);
    && b'.Shaped(|b.active|)
    && (if r.last && p.usePrecharge && (hit || !b.activateQueued) then !b'.active[sa]
        else b'.activateQueued && b'.Hit(p, r))
    && b'.starvation[sa] == (if hit then b.starvation[sa] + 1 else 0)
    && (forall i | 0 <= i < |b.active| && i != sa ::
      && b'.active[i] == b.active[i] && b'.row[i] == b.row[i] && b'.mux[i] == b.mux[i]
      && b'.starvation[i] == b.starvation[i])
  }

  /** A transaction is accepted exactly when the queue is empty or it hits the effective row; an
      accepted one lands once, at the end, as the commands it needs, and a refused one changes
      nothing. */
  lemma IssueCarriesOnce(p: Params, b: Bank, r: Request)
    requires 0 < p.rbSize && b.Shaped(|b.active|) && r.subarray < |b.active|
    ensures var (b', ok) := Issue(p, b, r);
      && (ok <==> b.queue == [] || (b.activateQueued && b.Hit(p, r)))
      && (ok ==> Carried(b'.queue) == Carried(b.queue) + [r] && b.queue < b'.queue)
      && (ok ==> Expanded(p, b, r, b'.queue[|b.queue|..]) && ShadowAfter(p, b, r, b'))
      && (!ok ==> b' == b)
  {
    var (b', ok) := Issue(p, b, r);
    if ok {
      var cs := b'.queue[|b.queue|..];
      Appends(p, b, r, cs);
      CarriedAppend(b.queue, cs);
      CarriedLast(cs, r);
      ExpandedFacts(p, b, r, cs);
      ShadowFacts(p, b, r);
    }
  }

  lemma ExpandedFacts(p: Params, b: Bank, r: Request, cs: seq<Entry>)
    requires 0 < p.rbSize && b.Shaped(|b.active|) && r.subarray < |b.active| && Issue(p, b, r).1
    requires |b.queue| <= |Issue(p, b, r).0.queue| && cs == Issue(p, b, r).0.queue[|b.queue|..]
    ensures Expanded(p, b, r, cs)
  {
    var sa, close := r.subarray, r.last && p.usePrecharge;
    var act, pre := Command(Activate, sa, r.row, None), Command(Precharge, sa, b.row[sa], None);
    if b.activateQueued && b.Hit(p, r) {
      HitExpanded(p, b, r, cs, [Access(r, close)]);
    } else if !b.activateQueued {
      MissExpanded(p, b, r, cs, [act, Access(r, close)]);
    } else if b.active[sa] && p.usePrecharge {
      assert [pre] + [act, Access(r, false)] == [pre, act, Access(r, false)];
      MissExpanded(p, b, r, cs, [pre, act, Access(r, false)]);
    } else {
      assert [] + [act, Access(r, false)] == [act, Access(r, false)];
      MissExpanded(p, b, r, cs, [act, Access(r, false)]);
    }
  }

  lemma HitExpanded(p: Params, b: Bank, r: Request, cs: seq<Entry>, cmds: seq<Command>)
    requires 0 < p.rbSize && b.Shaped(|b.active|) && r.subarray < |b.active| && b.activateQueued && b.Hit(p, r)
    requires cs == (b.queue + Queued(cmds))[|b.queue|..] && cmds == [Access(r, r.last && p.usePrecharge)]
    ensures Expanded(p, b, r, cs)
  {
    assert cs == Queued(cmds);
  }

  lemma MissExpanded(p: Params, b: Bank, r: Request, cs: seq<Entry>, cmds: seq<Command>)
    requires 0 < p.rbSize && b.Shaped(|b.active|) && r.subarray < |b.active| && !(b.activateQueued && b.Hit(p, r))
    requires cs == (b.queue + Queued(cmds))[|b.queue|..]
    requires |cmds| == (if b.activateQueued && b.active[r.subarray] && p.usePrecharge then 3 else 2)
    requires cmds[|cmds| - 1] == Access(r, r.last && p.usePrecharge && !b.activateQueued)
    requires cmds[|cmds| - 2] == Command(Activate, r.subarray, r.row, None)
    requires |cmds| == 3 ==> cmds[0] == Command(Precharge, r.subarray, b.row[r.subarray], None)
    ensures Expanded(p, b, r, cs)
  {
    assert cs == Queued(cmds);
    forall i | 0 <= i < |cs| ensures Serves(cs[i].cmd) {
      assert i == |cmds| - 1 || i == |cmds| - 2 || (i == 0 && |cmds| == 3);
    }
  }

  lemma ShadowFacts(p: Params, b: Bank, r: Request)
    requires 0 < p.rbSize && b.Shaped(|b.active|) && r.subarray < |b.active| && Issue(p, b, r).1
    ensures ShadowAfter(p, b, r, Issue(p, b, r).0)
  {
  }

  /** Every step of the controller keeps to what transactions ask for. */
  lemma TakeServes(p: Params, b: Bank, d: Rows, s: Step)
    requires 0 < p.rbSize && b.Shaped(|b.active|) && Enabled(b, s) && AllServe(b.queue)
    ensures AllServe(Take(p, b, d, s).0.queue)
  {
    match s
    case Transact(r) =>
      IssueCarriesOnce(p, b, r);
      if Issue(p, b, r).1 { ServeAppend(b.queue, Issue(p, b, r).0.queue); }
    case CloseForRefresh =>
    case RefreshHead =>
    case IssueNext =>
    case RemoveIssued => UnissuedServe(b.queue);
  }

  lemma ServeAppend(q: seq<Entry>, q': seq<Entry>)
    requires q < q' && AllServe(q) && AllServe(q'[|q|..])
    ensures AllServe(q')
  {
    forall i | 0 <= i < |q'| ensures Serves(q'[i].cmd) {
      if i < |q| { assert q'[i] == q[i]; } else { assert q'[i] == q'[|q|..][i - |q|]; }
    }
  }

  lemma {:induction false} UnissuedServe(q: seq<Entry>)
    requires AllServe(q)
    ensures AllServe(Unissued(q))
  {
    if q != [] { UnissuedServe(q[1..]); }
  }

  /** In every state of every run each command in the queue serves its transaction. */
  lemma {:induction false} RunServes(p: Params, subs: nat, steps: seq<Step>, states: seq<(Bank, Rows)>, k: nat)
    requires 0 < p.rbSize && IsRun(p, subs, steps, states) && k < |states|
    ensures AllServe(states[k].0.queue)
  {
    if k > 0 {
      RunServes(p, subs, steps, states, k - 1);
      assert IsStep(p, states[k - 1], steps[k - 1], states[k - 1 + 1]);
      TakeServes(p, states[k - 1].0, states[k - 1].1, steps[k - 1]);
    }
  }

  /** An accepted transaction appends one to three commands, the last of which carries it. */
  lemma Appends(p: Params, b: Bank, r: Request, cs: seq<Entry>)
    requires 0 < p.rbSize && b.Shaped(|b.active|) && r.subarray < |b.active| && Issue(p, b, r).1
    requires |b.queue| <= |Issue(p, b, r).0.queue| && cs == Issue(p, b, r).0.queue[|b.queue|..]
    ensures Issue(p, b, r).0.queue == b.queue + cs && 1 <= |cs| <= 3 && cs[|cs| - 1].cmd.source == Some(r)
    ensures forall i | 0 <= i < |cs| - 1 :: cs[i].cmd.source == None
  {
  }

  lemma {:induction false} CarriedLast(cs: seq<Entry>, r: Request)
    requires cs != [] && cs[|cs| - 1].cmd.source == Some(r)
    requires forall i | 0 <= i < |cs| - 1 :: cs[i].cmd.source == None
    ensures Carried(cs) == [r]
  {
    if |cs| > 1 {
      CarriedLast(cs[1..], r);
    }
  }

  /** Under the restricted close-page policy every transaction is marked as the last one of its
      row: then no bank is ever left active, so none finds its row open. */
  lemma {:induction false} RestrictedClosePage(p: Params, subs: nat, steps: seq<Step>, states: seq<(Bank, Rows)>,
                                               k: nat)
    requires 0 < p.rbSize && p.usePrecharge && IsRun(p, subs, steps, states) && k < |states|
    requires forall i | 0 <= i < |steps| && steps[i].Transact? :: steps[i].request.last
    ensures !states[k].0.activateQueued
  {
    if k > 0 {
      RestrictedClosePage(p, subs, steps, states, k - 1);
      assert IsStep(p, states[k - 1], steps[k - 1], states[k - 1 + 1]);
    }
  }
}
