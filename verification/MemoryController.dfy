/**
 The memory controller object: the command queues and row-buffer shadow of every bank, the refresh
 counters and flags, and the round-robin indices, updated in place by its callbacks. Ghost fields
 hold the row buffers of the memory behind it and the books of every refresh group.
 */
module Controllers {
  import opened Arithmetic
  import opened RowShadow
  import opened RoundRobin
  import opened RefreshGroups
  import opened ControllerConfig
  import EventQueues
  import CleanupOrder

  type Action = EventQueues.Action

  const NEVER: nat := EventQueues.MAX

  // ------------------------------------------------------------------ events of the controller

  // The command-queue callback, and the event that makes the controller look for transactions. The
  // latter is inserted with priority 30 and stores 0.
  const COMMAND := EventQueues.Event(1, 40)
  const CYCLE := EventQueues.Event(2, 0)

  /** The pulse of a refresh group. */
  function PulseOf(c: Config, rank: nat, group: nat): EventQueues.Event {
    EventQueues.Event(3 + Times(rank, c.groups) + group, 20)
  }

  function CycleAt(when: nat): Action { EventQueues.Insert(CYCLE, when, 30) }

  function Wake(when: nat): Action { EventQueues.Insert(COMMAND, when, 40) }

  function CleanupAt(when: nat): Action {
    EventQueues.Insert(CleanupOrder.CLEANUP, when, CleanupOrder.CLEANUP_PRIORITY)
  }

  /** Wake-ups inserted in cycle `now`: for later cycles, and none that is scheduled already. */
  ghost predicate Wakes(now: nat, scheduled: nat -> bool, acts: seq<Action>) {
    && (forall i | 0 <= i < |acts| ::
      acts[i].Insert? && acts[i] == Wake(acts[i].when) && now < acts[i].when && !scheduled(acts[i].when))
    && (forall i, j | 0 <= i < j < |acts| :: acts[i] != acts[j])
  }

  /** More wake-ups were added to the list. */
  ghost predicate Added(now: nat, scheduled: nat -> bool, acts0: seq<Action>, acts: seq<Action>) {
    acts0 <= acts && (Wakes(now, scheduled, acts0) ==> Wakes(now, scheduled, acts))
  }

  // ------------------------------------------------------------------ invariants, on values

  /** Every bank's shadow simulates its device. */
  ghost predicate SimOk(c: Config, banks: seq<seq<Bank>>, devices: seq<seq<Rows>>) {
    && Grid(banks, c.ranks, c.banks) && Grid(devices, c.ranks, c.banks)
    && forall r, k {:trigger Simulates(c.p, banks[r][k], devices[r][k])} | 0 <= r < c.ranks && 0 <= k < c.banks ::
      |devices[r][k]| == c.subs && Simulates(c.p, banks[r][k], devices[r][k])
  }

  /** bankNeedRefresh is set exactly for the banks of groups whose counter is at the threshold. */
  ghost predicate NeedOk(c: Config, need: seq<seq<bool>>, delayed: seq<seq<nat>>)
    requires 0 < c.per
  {
    && Grid(need, c.ranks, c.banks) && Grid(delayed, c.ranks, c.groups)
    && forall r, k {:trigger need[r][k]} | 0 <= r < c.ranks && 0 <= k < c.banks ::
      c.GroupOf(k) < c.groups && (need[r][k] <==> delayed[r][c.GroupOf(k)] >= c.threshold)
  }

  /** refreshQueued is the same for all banks of a group. */
  ghost predicate FlagsOk(c: Config, flags: seq<seq<bool>>, marked: seq<seq<bool>>)
    requires 0 < c.per
  {
    && Grid(flags, c.ranks, c.banks) && Grid(marked, c.ranks, c.groups)
    && forall r, k {:trigger flags[r][k]} | 0 <= r < c.ranks && 0 <= k < c.banks ::
      c.GroupOf(k) < c.groups && flags[r][k] == marked[r][c.GroupOf(k)]
  }

  /** Every group's books are balanced. */
  ghost predicate BooksOk(c: Config, books: seq<seq<Books>>, delayed: seq<seq<nat>>, banks: seq<seq<Bank>>,
                          marked: seq<seq<bool>>) {
    && Grid(books, c.ranks, c.groups) && Grid(delayed, c.ranks, c.groups)
    && Grid(banks, c.ranks, c.banks) && Grid(marked, c.ranks, c.groups)
    && forall r, g {:trigger books[r][g]} | 0 <= r < c.ranks && 0 <= g < c.groups ::
      c.Head(g) < c.banks && Balanced(books[r][g], delayed[r][g], Waiting(banks[r][c.Head(g)]), marked[r][g])
  }

  /** Only the head of a queue can be marked as issued. */
  ghost predicate HeadsOnly(banks: seq<seq<Bank>>) {
    forall r, k, i | 0 <= r < |banks| && 0 <= k < |banks[r]| && 0 < i < |banks[r][k].queue| ::
      !banks[r][k].queue[i].issued
  }

  /** REFRESH commands wait only in the queues of the first banks of groups. */
  ghost predicate RefreshAtHeads(c: Config, banks: seq<seq<Bank>>)
    requires 0 < c.per
  {
    forall r, k {:trigger Waiting(banks[r][k])} | 0 <= r < |banks| && 0 <= k < |banks[r]|
      && k != c.Head(c.GroupOf(k)) ::
      Waiting(banks[r][k]) == 0
  }

  predicate AnyIssued(banks: seq<seq<Bank>>) {
    exists r, k | 0 <= r < |banks| && 0 <= k < |banks[r]| ::
      banks[r][k].queue != [] && banks[r][k].queue[0].issued
  }

  ghost predicate Calm(c: Config, delayed: seq<seq<nat>>) {
    forall r, g | 0 <= r < |delayed| && 0 <= g < |delayed[r]| :: delayed[r][g] < c.threshold
  }

  /** What queueing a refresh does to a bank: banks of the group are closed, its first bank also
      gets the REFRESH command. */
  function AfterRefresh(p: Params, b: Bank, inGroup: bool, first: bool): Bank {
    if !inGroup then b else if first then PushRefresh(CloseAll(p, b)) else CloseAll(p, b)
  }

  /** The banks after a refresh of group `g` of rank `i` has been queued. */
  ghost predicate Refreshed(c: Config, a: seq<seq<Bank>>, b: seq<seq<Bank>>, i: nat, g: nat)
    requires 0 < c.per && Grid(a, c.ranks, c.banks)
  {
    && Grid(b, c.ranks, c.banks)
    && forall r, k {:trigger b[r][k]} | 0 <= r < c.ranks && 0 <= k < c.banks ::
      b[r][k] == AfterRefresh(c.p, a[r][k], r == i && c.GroupOf(k) == g, k == c.Head(g))
  }

  lemma AfterRefreshSimulates(p: Params, b: Bank, d: Rows, inGroup: bool, first: bool)
    requires Simulates(p, b, d)
    ensures Simulates(p, AfterRefresh(p, b, inGroup, first), d)
  {
    CloseAllSimulates(p, b, d);
    PushRefreshSimulates(p, CloseAll(p, b), d);
  }

  lemma RefreshedSimOk(c: Config, a: seq<seq<Bank>>, b: seq<seq<Bank>>, devices: seq<seq<Rows>>, i: nat, g: nat)
    requires c.Ok() && SimOk(c, a, devices) && Refreshed(c, a, b, i, g)
    ensures SimOk(c, b, devices)
  {
    forall r, k | 0 <= r < c.ranks && 0 <= k < c.banks
      ensures |devices[r][k]| == c.subs && Simulates(c.p, b[r][k], devices[r][k])
    {
      assert Simulates(c.p, a[r][k], devices[r][k]);
      assert b[r][k] == AfterRefresh(c.p, a[r][k], r == i && c.GroupOf(k) == g, k == c.Head(g));
      AfterRefreshSimulates(c.p, a[r][k], devices[r][k], r == i && c.GroupOf(k) == g, k == c.Head(g));
    }
  }

  /** The flags of group `g` of rank `i` all set to `v`, the others as they were. */
  ghost predicate GroupSet(c: Config, a: seq<seq<bool>>, b: seq<seq<bool>>, i: nat, g: nat, v: bool)
    requires 0 < c.per && Grid(a, c.ranks, c.banks)
  {
    && Grid(b, c.ranks, c.banks)
    && forall r, k {:trigger b[r][k]} | 0 <= r < c.ranks && 0 <= k < c.banks ::
      b[r][k] == if r == i && c.GroupOf(k) == g then v else a[r][k]
  }

  /** Queueing a refresh moves one unit of the group's counter into its queue. */
  lemma RefreshedBooksOk(c: Config, a: seq<seq<Bank>>, b: seq<seq<Bank>>, books: seq<seq<Books>>,
                         delayed: seq<seq<nat>>, marked: seq<seq<bool>>, i: nat, g: nat)
    requires c.Ok() && i < c.ranks && g < c.groups
    requires BooksOk(c, books, delayed, a, marked) && Refreshed(c, a, b, i, g)
    requires delayed[i][g] > 0
    ensures BooksOk(c, Put(books, i, g, OnQueue(books[i][g], marked[i][g])),
                    Put(delayed, i, g, delayed[i][g] - 1), b, Put(marked, i, g, true))
  {
    var books' := Put(books, i, g, OnQueue(books[i][g], marked[i][g]));
    var delayed' := Put(delayed, i, g, delayed[i][g] - 1);
    var marked' := Put(marked, i, g, true);
    forall r, x | 0 <= r < c.ranks && 0 <= x < c.groups
      ensures c.Head(x) < c.banks && Balanced(books'[r][x], delayed'[r][x], Waiting(b[r][c.Head(x)]), marked'[r][x])
    {
      HeadFits(c, x);
      var h := c.Head(x);
      GroupRange(c, h, x);
      assert Balanced(books[r][x], delayed[r][x], Waiting(a[r][h]), marked[r][x]);
      assert b[r][h] == AfterRefresh(c.p, a[r][h], r == i && c.GroupOf(h) == g, h == c.Head(g));
      CloseAllWaiting(c.p, a[r][h]);
      PushRefreshWaiting(CloseAll(c.p, a[r][h]));
    }
  }

  ghost predicate Lower(c: Config, a: seq<seq<nat>>, b: seq<seq<nat>>) {
    && Grid(a, c.ranks, c.groups) && Grid(b, c.ranks, c.groups)
    && forall r, g | 0 <= r < c.ranks && 0 <= g < c.groups :: b[r][g] <= a[r][g]
  }

  /** A counter that drops by one keeps the need flags right when the flags of its group are
      cleared on falling below the threshold. */
  lemma NeedOkAfterQueue(c: Config, need: seq<seq<bool>>, need': seq<seq<bool>>, delayed: seq<seq<nat>>, i: nat, g: nat)
    requires c.Ok() && NeedOk(c, need, delayed) && i < c.ranks && g < c.groups && delayed[i][g] >= c.threshold
    requires if delayed[i][g] - 1 < c.threshold then GroupSet(c, need, need', i, g, false) else need' == need
    ensures NeedOk(c, need', Put(delayed, i, g, delayed[i][g] - 1))
  {
    var d' := Put(delayed, i, g, delayed[i][g] - 1);
    forall r, k | 0 <= r < c.ranks && 0 <= k < c.banks
      ensures c.GroupOf(k) < c.groups && (need'[r][k] <==> d'[r][c.GroupOf(k)] >= c.threshold)
    {
      GroupOfIs(c, k);
      assert need[r][k] <==> delayed[r][c.GroupOf(k)] >= c.threshold;
    }
    assert forall r, k {:trigger need'[r][k]} | 0 <= r < c.ranks && 0 <= k < c.banks ::
      c.GroupOf(k) < c.groups && (need'[r][k] <==> d'[r][c.GroupOf(k)] >= c.threshold);
  }

  lemma RefreshedHeadsOnly(c: Config, a: seq<seq<Bank>>, b: seq<seq<Bank>>, i: nat, g: nat)
    requires c.Ok() && Grid(a, c.ranks, c.banks) && HeadsOnly(a) && Refreshed(c, a, b, i, g)
    ensures HeadsOnly(b)
  {
    forall r, k, x | 0 <= r < |b| && 0 <= k < |b[r]| && 0 < x < |b[r][k].queue|
      ensures !b[r][k].queue[x].issued
    {
      assert b[r][k] == AfterRefresh(c.p, a[r][k], r == i && c.GroupOf(k) == g, k == c.Head(g));
      assert x < |a[r][k].queue| ==> b[r][k].queue[x] == a[r][k].queue[x];
    }
  }

  /** The groups of rank `i` looked at in the first `n` steps of a scan are below the threshold. */
  ghost predicate RankCalm(c: Config, delayed: seq<seq<nat>>, i: nat, start: nat, n: nat)
    requires 0 < c.groups && Grid(delayed, c.ranks, c.groups)
  {
    i < c.ranks && forall b | 0 <= b < n :: delayed[i][Scan(start, b, c.groups)] < c.threshold
  }

  /** Group `g` of rank `i` is reached in step `b` of the scan of the `a`-th rank; those before it are
      below the threshold. */
  ghost predicate FirstDue(c: Config, delayed: seq<seq<nat>>, rank: nat, group: nat, a: nat, b: nat, i: nat, g: nat)
    requires 0 < c.ranks && 0 < c.groups && Grid(delayed, c.ranks, c.groups)
  {
    && i == Scan(rank, a, c.ranks) && g == Scan(group, b, c.groups)
    && RankCalm(c, delayed, i, group, b)
    && forall x | 0 <= x < a :: RankCalm(c, delayed, Scan(rank, x, c.ranks), group, c.groups)
  }

  lemma ScanHead(c: Config, start: nat, k: nat)
    requires c.Ok() && start < c.groups && k < c.groups
    ensures (c.Head(start) + k * c.per) % c.banks == c.Head(Scan(start, k, c.groups))
    ensures c.Head(Scan(start, k, c.groups)) / c.per == Scan(start, k, c.groups) < c.groups
  {
    ScanGroup(start, k, c.groups, c.per);
    TimesIs(start, c.per);
    TimesIs(c.groups, c.per);
    TimesIs(Scan(start, k, c.groups), c.per);
  }

  lemma CoversAll(c: Config, delayed: seq<seq<nat>>, r0: nat, start: nat)
    requires c.Ok() && Grid(delayed, c.ranks, c.groups)
    requires forall a | 0 <= a < c.ranks :: RankCalm(c, delayed, Scan(r0, a, c.ranks), start, c.groups)
    ensures Calm(c, delayed)
  {
    forall r, x | 0 <= r < c.ranks && 0 <= x < c.groups ensures delayed[r][x] < c.threshold {
      ScanVisitsAll(r0, r, 0, c.ranks);
      ScanVisitsAll(r0, r, Offset(r0, r, c.ranks), c.ranks);
      ScanVisitsAll(start, x, 0, c.groups);
      ScanVisitsAll(start, x, Offset(start, x, c.groups), c.groups);
      assert RankCalm(c, delayed, Scan(r0, Offset(r0, r, c.ranks), c.ranks), start, c.groups);
    }
  }

  lemma GroupSetFlagsOk(c: Config, flags: seq<seq<bool>>, flags': seq<seq<bool>>, marked: seq<seq<bool>>, i: nat,
                        g: nat, v: bool)
    requires c.Ok() && FlagsOk(c, flags, marked) && GroupSet(c, flags, flags', i, g, v) && i < c.ranks && g < c.groups
    ensures FlagsOk(c, flags', Put(marked, i, g, v))
  {
    var m' := Put(marked, i, g, v);
    forall r, k {:trigger flags'[r][k]} | 0 <= r < c.ranks && 0 <= k < c.banks
      ensures c.GroupOf(k) < c.groups && flags'[r][k] == m'[r][c.GroupOf(k)]
    {
      GroupOfIs(c, k);
      assert flags[r][k] == marked[r][c.GroupOf(k)];
    }
  }

  /** Only late refreshes may have been booked. */
  ghost predicate BooksKept(c: Config, a: seq<seq<Books>>, b: seq<seq<Books>>) {
    && Grid(a, c.ranks, c.groups) && Grid(b, c.ranks, c.groups)
    && forall r, g {:trigger b[r][g]} | 0 <= r < c.ranks && 0 <= g < c.groups ::
      b[r][g].pulses == a[r][g].pulses && b[r][g].issued == a[r][g].issued && b[r][g].failures == a[r][g].failures
  }

  lemma RefreshedAtHeads(c: Config, a: seq<seq<Bank>>, b: seq<seq<Bank>>, i: nat, g: nat)
    requires c.Ok() && Grid(a, c.ranks, c.banks) && RefreshAtHeads(c, a) && Refreshed(c, a, b, i, g)
    ensures RefreshAtHeads(c, b)
  {
    forall r, k | 0 <= r < |b| && 0 <= k < |b[r]| && k != c.Head(c.GroupOf(k)) ensures Waiting(b[r][k]) == 0 {
      assert b[r][k] == AfterRefresh(c.p, a[r][k], r == i && c.GroupOf(k) == g, k == c.Head(g));
      CloseAllWaiting(c.p, a[r][k]);
    }
  }

  lemma RefreshedIssued(c: Config, a: seq<seq<Bank>>, b: seq<seq<Bank>>, i: nat, g: nat)
    requires c.Ok() && Grid(a, c.ranks, c.banks) && Refreshed(c, a, b, i, g) && AnyIssued(b)
    ensures AnyIssued(a)
  {
    var r, k :| 0 <= r < |b| && 0 <= k < |b[r]| && b[r][k].queue != [] && b[r][k].queue[0].issued;
    assert b[r][k] == AfterRefresh(c.p, a[r][k], r == i && c.GroupOf(k) == g, k == c.Head(g));
    assert a[r][k].queue != [] && a[r][k].queue[0].issued;
  }

  lemma NeedOkAfterPulse(c: Config, need: seq<seq<bool>>, need': seq<seq<bool>>, delayed: seq<seq<nat>>, i: nat, g: nat)
    requires c.Ok() && NeedOk(c, need, delayed) && i < c.ranks && g < c.groups
    requires if delayed[i][g] + 1 >= c.threshold then GroupSet(c, need, need', i, g, true) else need' == need
    ensures NeedOk(c, need', Put(delayed, i, g, delayed[i][g] + 1))
  {
    var d' := Put(delayed, i, g, delayed[i][g] + 1);
    forall r, k | 0 <= r < c.ranks && 0 <= k < c.banks
      ensures c.GroupOf(k) < c.groups && (need'[r][k] <==> d'[r][c.GroupOf(k)] >= c.threshold)
    {
      GroupOfIs(c, k);
      assert need[r][k] <==> delayed[r][c.GroupOf(k)] >= c.threshold;
    }
    assert forall r, k {:trigger need'[r][k]} | 0 <= r < c.ranks && 0 <= k < c.banks ::
      c.GroupOf(k) < c.groups && (need'[r][k] <==> d'[r][c.GroupOf(k)] >= c.threshold);
  }

  /** The books of one group change, everything else stays: enough that they balance again. */
  lemma BooksOkPut(c: Config, books: seq<seq<Books>>, delayed: seq<seq<nat>>, a: seq<seq<Bank>>, marked: seq<seq<bool>>,
                   books': seq<seq<Books>>, delayed': seq<seq<nat>>, b: seq<seq<Bank>>,
                   marked': seq<seq<bool>>, i: nat, g: nat)
    requires c.Ok() && i < c.ranks && g < c.groups && BooksOk(c, books, delayed, a, marked)
    requires Grid(books', c.ranks, c.groups) && Grid(delayed', c.ranks, c.groups)
    requires Grid(b, c.ranks, c.banks) && Grid(marked', c.ranks, c.groups)
    requires forall r, x {:trigger books'[r][x]} | 0 <= r < c.ranks && 0 <= x < c.groups && !(r == i && x == g) ::
      && c.Head(x) < c.banks && books'[r][x] == books[r][x] && delayed'[r][x] == delayed[r][x]
      && Waiting(b[r][c.Head(x)]) == Waiting(a[r][c.Head(x)]) && marked'[r][x] == marked[r][x]
    requires c.Head(g) < c.banks && Balanced(books'[i][g], delayed'[i][g], Waiting(b[i][c.Head(g)]), marked'[i][g])
    ensures BooksOk(c, books', delayed', b, marked')
  {
    forall r, x | 0 <= r < c.ranks && 0 <= x < c.groups
      ensures c.Head(x) < c.banks && Balanced(books'[r][x], delayed'[r][x], Waiting(b[r][c.Head(x)]), marked'[r][x])
    {
      assert Balanced(books[r][x], delayed[r][x], Waiting(a[r][c.Head(x)]), marked[r][x]);
    }
  }

  /** One bank and its device change: enough that the new pair is in order. */
  lemma PutBank(c: Config, banks: seq<seq<Bank>>, devices: seq<seq<Rows>>, r: nat, k: nat, b: Bank, d: Rows)
    requires c.Ok() && SimOk(c, banks, devices) && HeadsOnly(banks) && RefreshAtHeads(c, banks)
    requires r < c.ranks && k < c.banks && |d| == c.subs && Simulates(c.p, b, d)
    requires forall i | 0 < i < |b.queue| :: !b.queue[i].issued
    requires Waiting(b) <= Waiting(banks[r][k])
    ensures SimOk(c, Put(banks, r, k, b), Put(devices, r, k, d))
    ensures HeadsOnly(Put(banks, r, k, b)) && RefreshAtHeads(c, Put(banks, r, k, b))
  {
    var banks', devices' := Put(banks, r, k, b), Put(devices, r, k, d);
    forall x, y | 0 <= x < c.ranks && 0 <= y < c.banks
      ensures |devices'[x][y]| == c.subs && Simulates(c.p, banks'[x][y], devices'[x][y])
    {
      assert Simulates(c.p, banks[x][y], devices[x][y]);
    }
    forall x, y | 0 <= x < |banks'| && 0 <= y < |banks'[x]| && y != c.Head(c.GroupOf(y))
      ensures Waiting(banks'[x][y]) == 0
    {
      assert Waiting(banks[x][y]) == 0;
    }
  }

  /** A bank that changes without queueing or issuing a REFRESH leaves the books balanced. */
  lemma PutBankBooks(c: Config, books: seq<seq<Books>>, delayed: seq<seq<nat>>, banks: seq<seq<Bank>>,
                     marked: seq<seq<bool>>,
                     r: nat, k: nat, b: Bank)
    requires c.Ok() && BooksOk(c, books, delayed, banks, marked) && r < c.ranks && k < c.banks
    requires Waiting(b) == Waiting(banks[r][k])
    ensures BooksOk(c, books, delayed, Put(banks, r, k, b), marked)
  {
  }

  ghost predicate Cleaned(c: Config, a: seq<seq<Bank>>, b: seq<seq<Bank>>) {
    && Grid(a, c.ranks, c.banks) && Grid(b, c.ranks, c.banks)
    && forall r, k {:trigger b[r][k]} | 0 <= r < c.ranks && 0 <= k < c.banks :: b[r][k] == Cleanup(a[r][k])
  }

  lemma {:induction false} UnissuedHasNone(q: seq<Entry>)
    ensures forall i | 0 <= i < |Unissued(q)| :: !Unissued(q)[i].issued
  {
    if q != [] { UnissuedHasNone(q[1..]); }
  }

  /** Cleaning up keeps everything in order and leaves no issued command. */
  lemma CleanedKeeps(c: Config, a: seq<seq<Bank>>, b: seq<seq<Bank>>, devices: seq<seq<Rows>>,
                     books: seq<seq<Books>>, delayed: seq<seq<nat>>, marked: seq<seq<bool>>)
    requires c.Ok() && Cleaned(c, a, b) && SimOk(c, a, devices) && RefreshAtHeads(c, a)
    requires BooksOk(c, books, delayed, a, marked)
    ensures SimOk(c, b, devices) && RefreshAtHeads(c, b) && BooksOk(c, books, delayed, b, marked)
    ensures HeadsOnly(b) && !AnyIssued(b)
  {
    forall r, k | 0 <= r < c.ranks && 0 <= k < c.banks
      ensures |devices[r][k]| == c.subs && Simulates(c.p, b[r][k], devices[r][k])
      ensures Waiting(b[r][k]) == Waiting(a[r][k])
      ensures forall i | 0 <= i < |b[r][k].queue| :: !b[r][k].queue[i].issued
    {
      assert b[r][k] == Cleanup(a[r][k]);
      assert Simulates(c.p, a[r][k], devices[r][k]);
      CleanupSimulates(c.p, a[r][k], devices[r][k]);
      CleanupPending(a[r][k].queue);
      UnissuedHasNone(a[r][k].queue);
    }
  }

  predicate InRange(c: Config, r: Request) {
    r.rank < c.ranks && r.bank < c.banks && r.subarray < c.subs
  }

  lemma IssueUnissued(p: Params, b: Bank, r: Request)
    requires 0 < p.rbSize && b.Shaped(|b.active|) && r.subarray < |b.active|
    requires forall i | 0 < i < |b.queue| :: !b.queue[i].issued
    ensures forall i | 0 < i < |Issue(p, b, r).0.queue| :: !Issue(p, b, r).0.queue[i].issued
  {
    Lands(p, b, r);
    if Issue(p, b, r).1 { LandedUnissued(p, b, Issue(p, b, r).0, r); }
  }

  lemma LandedUnissued(p: Params, b: Bank, b': Bank, r: Request)
    requires Landed(p, b, b', r) && forall i | 0 < i < |b.queue| :: !b.queue[i].issued
    ensures forall i | 0 < i < |b'.queue| :: !b'.queue[i].issued
  {
    var q, q' := b.queue, b'.queue;
    forall i | 0 < i < |q'| ensures !q'[i].issued {
      if i < |q| { assert q'[i] == q[i]; } else { assert q'[i] == q'[|q|..][i - |q|]; }
    }
  }

  /** Expanding a transaction marks no head as issued. */
  lemma IssueLeavesHeads(c: Config, banks: seq<seq<Bank>>, r: Request)
    requires c.Ok() && Grid(banks, c.ranks, c.banks) && InRange(c, r) && banks[r.rank][r.bank].Shaped(c.subs)
    ensures AnyIssued(Put(banks, r.rank, r.bank, Issue(c.p, banks[r.rank][r.bank], r).0)) ==> AnyIssued(banks)
  {
    var b := banks[r.rank][r.bank];
    var b' := Issue(c.p, b, r).0;
    var after: seq<seq<Bank>> := Put(banks, r.rank, r.bank, b');
    IssueHeadSame(c.p, b, r);
    if i, k :| 0 <= i < |after| && 0 <= k < |after[i]| && after[i][k].queue != [] && after[i][k].queue[0].issued {
      assert banks[i][k].queue != [] && banks[i][k].queue[0].issued;
    }
  }

  lemma IssueHeadSame(p: Params, b: Bank, r: Request)
    requires 0 < p.rbSize && b.Shaped(|b.active|) && r.subarray < |b.active|
    ensures var q := Issue(p, b, r).0.queue; q != [] && q[0].issued ==> b.queue != [] && b.queue[0].issued
  {
  }

  // ------------------------------------------------------------------ waking up in time

  /** When the head of a bank's queue may be issued, in the next cycle at the earliest. */
  function DueAt(now: nat, b: Bank, childNext: Command -> nat): nat
    requires b.queue != []
  {
    var next := childNext(b.queue[0].cmd);
    if next <= now then now + 1 else next
  }

  /** The command-queue callback runs after this cycle and by cycle `limit`: it was scheduled before, or
      `acts` insert it. */
  ghost predicate Called(now: nat, limit: nat, scheduled: nat -> bool, acts: seq<Action>) {
    exists w: nat :: now < w <= limit && (scheduled(w) || Wake(w) in acts)
  }

  /** A callback comes in time for the head of every queue. */
  ghost predicate Covered(c: Config, now: nat, banks: seq<seq<Bank>>, childNext: Command -> nat,
                          scheduled: nat -> bool, acts: seq<Action>) {
    && Grid(banks, c.ranks, c.banks)
    && forall r, k {:trigger banks[r][k]} | 0 <= r < c.ranks && 0 <= k < c.banks && banks[r][k].queue != [] ::
      Called(now, DueAt(now, banks[r][k], childNext), scheduled, acts)
  }

  /** The banks a scan has visited before bank `bank` of rank `rank`. */
  predicate Seen(r: nat, k: nat, rank: nat, bank: nat) { r < rank || (r == rank && k < bank) }

  /** For every visited bank, cycle `wake` or a callback comes in time. */
  ghost predicate SeenTo(c: Config, now: nat, banks: seq<seq<Bank>>, childNext: Command -> nat,
                         scheduled: nat -> bool, acts: seq<Action>, wake: nat, rank: nat, bank: nat) {
    && Grid(banks, c.ranks, c.banks)
    && forall r, k {:trigger banks[r][k]} | 0 <= r < c.ranks && 0 <= k < c.banks && Seen(r, k, rank, bank) ::
      banks[r][k].queue != [] ==>
        var limit := DueAt(now, banks[r][k], childNext);
        wake <= limit || Called(now, limit, scheduled, acts)
  }

  /** `e` is the least cycle that the memory names for the head of a visited queue, if any. */
  ghost predicate Earliest(c: Config, banks: seq<seq<Bank>>, childNext: Command -> nat, e: nat, rank: nat, bank: nat) {
    && Grid(banks, c.ranks, c.banks) && e <= NEVER
    && (forall r, k {:trigger banks[r][k]} | 0 <= r < c.ranks && 0 <= k < c.banks && Seen(r, k, rank, bank) ::
      banks[r][k].queue != [] ==> e <= childNext(banks[r][k].queue[0].cmd))
    && (e < NEVER ==> exists r, k {:trigger banks[r][k]} | 0 <= r < c.ranks && 0 <= k < c.banks ::
      banks[r][k].queue != [] && childNext(banks[r][k].queue[0].cmd) == e)
  }

  /** `wake` is the earliest cycle for any head, but not before the next cycle. */
  ghost predicate WakeIs(c: Config, now: nat, banks: seq<seq<Bank>>, childNext: Command -> nat, wake: nat) {
    exists e: nat :: Earliest(c, banks, childNext, e, c.ranks, 0) && wake == if e <= now then now + 1 else e
  }

  /** A refresh of the bank's group is due, and its queues are empty once issued commands are removed. */
  ghost predicate Waits(c: Config, delayed: seq<seq<nat>>, banks: seq<seq<Bank>>, r: nat, k: nat)
    requires c.Ok() && Grid(delayed, c.ranks, c.groups) && Grid(banks, c.ranks, c.banks) && r < c.ranks && k < c.banks
  {
    GroupOfIs(c, k);
    && delayed[r][c.GroupOf(k)] >= c.threshold
    && forall j | 0 <= j < c.banks && c.GroupOf(j) == c.GroupOf(k) :: Unissued(banks[r][j].queue) == []
  }

  /** No visited bank is left waiting for a refresh, unless a command was issued in this cycle and the
      next one is a wake-up. */
  ghost predicate Attended(c: Config, now: nat, lastIssue: nat, delayed: seq<seq<nat>>, banks: seq<seq<Bank>>,
                           wake: nat, rank: nat, bank: nat) {
    && c.Ok() && Grid(delayed, c.ranks, c.groups) && Grid(banks, c.ranks, c.banks)
    && forall r, k {:trigger Waits(c, delayed, banks, r, k)}
      | 0 <= r < c.ranks && 0 <= k < c.banks && Seen(r, k, rank, bank) && Waits(c, delayed, banks, r, k) ::
      lastIssue == now && wake <= now + 1
  }

  lemma AttendedAll(c: Config, now: nat, lastIssue: nat, delayed: seq<seq<nat>>, banks: seq<seq<Bank>>, wake: nat,
                    wake': nat, rank: nat, bank: nat)
    requires Attended(c, now, lastIssue, delayed, banks, wake, c.ranks, 0) && lastIssue != now
    ensures Attended(c, now, lastIssue, delayed, banks, wake', rank, bank)
  {
  }

  lemma AttendedNext(c: Config, now: nat, lastIssue: nat, delayed: seq<seq<nat>>, banks: seq<seq<Bank>>, wake: nat,
                     wake': nat, rank: nat, bank: nat)
    requires Attended(c, now, lastIssue, delayed, banks, wake, rank, bank) && rank < c.ranks && bank < c.banks
    requires wake' <= wake || wake' <= now + 1
    requires Waits(c, delayed, banks, rank, bank) ==> lastIssue == now && wake' <= now + 1
    ensures Attended(c, now, lastIssue, delayed, banks, wake', rank, bank + 1)
  {
  }

  lemma AttendedLower(c: Config, now: nat, lastIssue: nat, delayed: seq<seq<nat>>, banks: seq<seq<Bank>>, wake: nat,
                      wake': nat, rank: nat, bank: nat)
    requires Attended(c, now, lastIssue, delayed, banks, wake, rank, bank)
    requires wake' <= wake || wake' <= now + 1
    ensures Attended(c, now, lastIssue, delayed, banks, wake', rank, bank)
  {
  }

  lemma AttendedRank(c: Config, now: nat, lastIssue: nat, delayed: seq<seq<nat>>, banks: seq<seq<Bank>>, wake: nat,
                     rank: nat)
    requires Attended(c, now, lastIssue, delayed, banks, wake, rank, c.banks)
    ensures Attended(c, now, lastIssue, delayed, banks, wake, rank + 1, 0)
  {
  }

  /** Only the head of a queue can be issued: then being empty but for an issued head is being empty when
      the issued commands are removed. */
  lemma EffectivelyEmptyIff(q: seq<Entry>)
    requires forall i | 0 < i < |q| :: !q[i].issued
    ensures EffectivelyEmpty(q) <==> Unissued(q) == []
  {
    if q != [] && |q| > 1 {
      assert q[1..][0] == q[1] && Unissued(q[1..]) == [q[1]] + Unissued(q[1..][1..]);
    }
  }

  lemma CalledMore(now: nat, limit: nat, scheduled: nat -> bool, acts0: seq<Action>, acts: seq<Action>)
    requires Called(now, limit, scheduled, acts0) && acts0 <= acts
    ensures Called(now, limit, scheduled, acts)
  {
    var w: nat :| now < w <= limit && (scheduled(w) || Wake(w) in acts0);
    assert scheduled(w) || Wake(w) in acts;
  }

  /** A scheduled callback in the cycle found by a whole scan covers every queue. */
  lemma ScanCovers(c: Config, now: nat, banks: seq<seq<Bank>>, childNext: Command -> nat, scheduled: nat -> bool,
                   acts0: seq<Action>, acts: seq<Action>, wake: nat)
    requires SeenTo(c, now, banks, childNext, scheduled, acts0, wake, c.ranks, 0) && acts0 <= acts
    requires now < wake && (scheduled(wake) || Wake(wake) in acts)
    ensures Covered(c, now, banks, childNext, scheduled, acts)
  {
    forall r, k | 0 <= r < c.ranks && 0 <= k < c.banks && banks[r][k].queue != []
      ensures Called(now, DueAt(now, banks[r][k], childNext), scheduled, acts)
    {
      var limit := DueAt(now, banks[r][k], childNext);
      if wake > limit { CalledMore(now, limit, scheduled, acts0, acts); }
    }
  }

  /** Visiting a bank when nothing was queued: the cycle is lowered to that of its head. */
  lemma VisitSees(c: Config, now: nat, banks: seq<seq<Bank>>, childNext: Command -> nat, scheduled: nat -> bool,
                  acts: seq<Action>, wake: nat, wake': nat, rank: nat, bank: nat)
    requires SeenTo(c, now, banks, childNext, scheduled, acts, wake, rank, bank) && rank < c.ranks && bank < c.banks
    requires wake' <= wake || wake' <= now + 1
    requires banks[rank][bank].queue != [] ==> wake' <= childNext(banks[rank][bank].queue[0].cmd)
    ensures SeenTo(c, now, banks, childNext, scheduled, acts, wake', rank, bank + 1)
  {
  }

  lemma CoveredSees(c: Config, now: nat, banks: seq<seq<Bank>>, childNext: Command -> nat, scheduled: nat -> bool,
                    acts: seq<Action>, wake: nat, rank: nat, bank: nat)
    requires Covered(c, now, banks, childNext, scheduled, acts)
    ensures SeenTo(c, now, banks, childNext, scheduled, acts, wake, rank, bank)
  {
  }

  lemma VisitLowers(c: Config, banks: seq<seq<Bank>>, childNext: Command -> nat, e: nat, e': nat, rank: nat, bank: nat)
    requires Earliest(c, banks, childNext, e, rank, bank) && rank < c.ranks && bank < c.banks
    requires
      var b := banks[rank][bank];
      e' == if b.queue != [] && childNext(b.queue[0].cmd) < e then childNext(b.queue[0].cmd) else e
    ensures Earliest(c, banks, childNext, e', rank, bank + 1)
  {
  }

  /** The end of a rank is the start of the next. */
  lemma NextRank(c: Config, now: nat, banks: seq<seq<Bank>>, childNext: Command -> nat, scheduled: nat -> bool,
                 acts: seq<Action>, wake: nat, rank: nat)
    requires SeenTo(c, now, banks, childNext, scheduled, acts, wake, rank, c.banks)
    ensures SeenTo(c, now, banks, childNext, scheduled, acts, wake, rank + 1, 0)
    ensures Earliest(c, banks, childNext, wake, rank, c.banks) ==> Earliest(c, banks, childNext, wake, rank + 1, 0)
  {
  }

  /** A cycle that has passed is moved to the next one. */
  lemma NotBefore(c: Config, now: nat, banks: seq<seq<Bank>>, childNext: Command -> nat, scheduled: nat -> bool,
                  acts: seq<Action>, wake: nat)
    requires SeenTo(c, now, banks, childNext, scheduled, acts, wake, c.ranks, 0)
    ensures
      var w := if wake <= now then now + 1 else wake;
      && SeenTo(c, now, banks, childNext, scheduled, acts, w, c.ranks, 0)
      && (Earliest(c, banks, childNext, wake, c.ranks, 0) ==> WakeIs(c, now, banks, childNext, w))
  {
  }

  // ------------------------------------------------------------------ searching transactions

  datatype Search = Starved | RowHit | OldestReady | ClosedBank

  /** The condition each search puts on the bank of a transaction. */
  predicate Wanted(c: Config, kind: Search, b: Bank, r: Request)
    requires 0 < c.p.rbSize && b.Shaped(c.subs) && r.subarray < c.subs
  {
    match kind
    case Starved => b.activateQueued && !b.Hit(c.p, r) && b.starvation[r.subarray] >= c.starved
    case RowHit => b.activateQueued && b.Hit(c.p, r)
    case OldestReady => b.activateQueued
    case ClosedBank => !b.activateQueued
  }

  /** Whether the transaction is the last one of its row in the queue, for closing the row. */
  predicate IsLastRequest(c: Config, tq: seq<Request>, r: Request) {
    if c.closePage == 0 then false
    else if c.closePage == 1 then
      forall i | 0 <= i < |tq| ::
        !(tq[i].rank == r.rank && tq[i].bank == r.bank && tq[i].row == r.row && tq[i].subarray == r.subarray)
    else true
  }

  function Without<T>(s: seq<T>, i: nat): seq<T>
    requires i < |s|
  {
    s[..i] + s[i + 1..]
  }

  predicate SameRow(a: Request, b: Request) {
    (a.rank, a.bank, a.subarray, a.row) == (b.rank, b.bank, b.subarray, b.row)
  }

  /** The transaction landed in the queue of its bank, once, as the commands it needs. */
  ghost predicate Landed(p: Params, b0: Bank, b: Bank, r: Request) {
    && 0 < p.rbSize && b0.Shaped(|b0.active|) && r.subarray < |b0.active|
    && b0.queue < b.queue && Carried(b.queue) == Carried(b0.queue) + [r]
    && Expanded(p, b0, r, b.queue[|b0.queue|..]) && ShadowAfter(p, b0, r, b)
  }

  lemma Lands(p: Params, b: Bank, r: Request)
    requires 0 < p.rbSize && b.Shaped(|b.active|) && r.subarray < |b.active|
    ensures if Issue(p, b, r).1 then Landed(p, b, Issue(p, b, r).0, r) else Issue(p, b, r).0 == b
  {
    IssueCarriesOnce(p, b, r);
  }

  /** What a search must find acceptable is always accepted: it only looks at empty queues. */
  lemma EligibleIsAccepted(c: Config, b: Bank, r: Request)
    requires 0 < c.p.rbSize && b.Shaped(c.subs) && r.subarray < c.subs && b.queue == []
    ensures Issue(c.p, b, r).1 && Landed(c.p, b, Issue(c.p, b, r).0, r)
    ensures Carried(Issue(c.p, b, r).0.queue) == [r]
  {
    IssueCarriesOnce(c.p, b, r);
  }

  /** What each search is for, told by the commands `cs` its transaction turns into: a hit needs no
      ACTIVATE; a starved transaction needs one although the bank is active and the row open in its
      subarray has been hit too often. */
  ghost predicate Served(c: Config, kind: Search, b: Bank, r: Request, cs: seq<Entry>) {
    match kind
    case Starved =>
      && r.subarray < |b.starvation| && b.starvation[r.subarray] >= c.starved
      && AnyActive(b.active) && 2 <= |cs| && cs[|cs| - 2].cmd.op.Activate?
    case RowHit => |cs| == 1 && Accesses(cs[0].cmd.op)
    case OldestReady => AnyActive(b.active)
    case ClosedBank => !AnyActive(b.active)
  }

  lemma SearchServes(c: Config, kind: Search, b: Bank, r: Request)
    requires 0 < c.p.rbSize && b.Shaped(c.subs) && r.subarray < c.subs && b.queue == []
    requires b.activateQueued <==> AnyActive(b.active)
    ensures Wanted(c, kind, b, r) <==> Served(c, kind, b, r, Issue(c.p, b, r).0.queue)
  {
    var cs := Issue(c.p, b, r).0.queue;
    IssueCarriesOnce(c.p, b, r);
    assert cs[|b.queue|..] == cs;
    ServedAs(c, kind, b, r, cs);
  }

  lemma ServedAs(c: Config, kind: Search, b: Bank, r: Request, cs: seq<Entry>)
    requires 0 < c.p.rbSize && b.Shaped(c.subs) && r.subarray < c.subs && Expanded(c.p, b, r, cs)
    requires b.activateQueued <==> AnyActive(b.active)
    ensures Wanted(c, kind, b, r) <==> Served(c, kind, b, r, cs)
  {
    assert Serves(cs[|cs| - 1].cmd);
  }

  /** A transaction that a search may take: it arrived before this cycle, its bank has an empty queue
      and no refresh due or queued, and it is of the kind searched for. */
  ghost predicate Ripe(c: Config, banks: seq<seq<Bank>>, need: seq<seq<bool>>, queued: seq<seq<bool>>, kind: Search,
                       r: Request, now: nat, pred: Request -> bool) {
    && Grid(banks, c.ranks, c.banks) && Grid(need, c.ranks, c.banks) && Grid(queued, c.ranks, c.banks)
    && InRange(c, r) && 0 < c.p.rbSize && r.arrival != now && pred(r)
    && var b := banks[r.rank][r.bank];
    && b.Shaped(c.subs) && b.queue == [] && !need[r.rank][r.bank] && !queued[r.rank][r.bank]
    && Served(c, kind, b, r, Issue(c.p, b, r).0.queue)
  }

  /** Transaction `at` is the first ripe one; it left the queue, marked when the access to its row may
      close it: always under restricted close-page, under relaxed close-page when no transaction left
      behind wants the row. */
  ghost predicate TookFirst(c: Config, banks: seq<seq<Bank>>, need: seq<seq<bool>>, queued: seq<seq<bool>>,
                            kind: Search, tq: seq<Request>, now: nat, pred: Request -> bool, found: Request,
                            rest: seq<Request>, at: nat) {
    && at < |tq| && rest == Without(tq, at)
    && Ripe(c, banks, need, queued, kind, tq[at], now, pred)
    && (forall i | 0 <= i < at :: !Ripe(c, banks, need, queued, kind, tq[i], now, pred))
    && found == tq[at].(last := found.last)
    && (found.last <==>
      || tq[at].last || c.closePage > 1
      || (c.closePage == 1 && forall i | 0 <= i < |rest| :: !SameRow(rest[i], tq[at])))
  }

  /** The queue has a head and the memory takes it. */
  ghost predicate Takes(issuable: Command -> bool, b: Bank) {
    b.queue != [] && issuable(b.queue[0].cmd)
  }

  ghost predicate NoneTaken(c: Config, issuable: Command -> bool, banks: seq<seq<Bank>>) {
    && Grid(banks, c.ranks, c.banks)
    && forall r, k {:trigger banks[r][k]} | 0 <= r < c.ranks && 0 <= k < c.banks :: !Takes(issuable, banks[r][k])
  }

  ghost predicate HeadTaken(c: Config, issuable: Command -> bool, banks: seq<seq<Bank>>, q: nat) {
    && Grid(banks, c.ranks, c.banks)
    && exists r, k {:trigger banks[r][k]} | 0 <= r < c.ranks && 0 <= k < c.banks ::
      c.Id(r, k) == q && Takes(issuable, banks[r][k])
  }

  /** The bank behind a queue number. */
  ghost function BankAt(c: Config, banks: seq<seq<Bank>>, q: nat): Bank
    requires c.Ok() && Grid(banks, c.ranks, c.banks) && q < c.Queues()
  {
    Locate(c, q, 0, 0);
    banks[RankOf(c.scheme, c.ranks, c.banks, q)][BankOf(c.scheme, c.ranks, c.banks, q)]
  }

  lemma ReadyTaken(c: Config, issuable: Command -> bool, banks: seq<seq<Bank>>, q: nat)
    requires c.Ok() && Grid(banks, c.ranks, c.banks) && q < c.Queues() && Takes(issuable, BankAt(c, banks, q))
    ensures HeadTaken(c, issuable, banks, q)
  {
    Locate(c, q, 0, 0);
    var r, k := RankOf(c.scheme, c.ranks, c.banks, q), BankOf(c.scheme, c.ranks, c.banks, q);
    Locate(c, q, r, k);
    assert Takes(issuable, banks[r][k]);
  }

  lemma NoneReady(c: Config, issuable: Command -> bool, banks: seq<seq<Bank>>)
    requires c.Ok() && Grid(banks, c.ranks, c.banks)
    requires forall q | 0 <= q < c.Queues() :: !Takes(issuable, BankAt(c, banks, q))
    ensures NoneTaken(c, issuable, banks)
  {
    forall r, k | 0 <= r < c.ranks && 0 <= k < c.banks ensures !Takes(issuable, banks[r][k]) {
      AtId(c, banks, r, k);
      assert !Takes(issuable, BankAt(c, banks, c.Id(r, k)));
    }
  }

  lemma AtId(c: Config, banks: seq<seq<Bank>>, r: nat, k: nat)
    requires c.Ok() && Grid(banks, c.ranks, c.banks) && r < c.ranks && k < c.banks
    ensures c.Id(r, k) < c.Queues() && BankAt(c, banks, c.Id(r, k)) == banks[r][k]
  {
    TimesIs(c.ranks, c.banks);
    QueueIdBijective(c.scheme, c.ranks, c.banks, r, k, 0);
    Locate(c, c.Id(r, k), r, k);
  }

  /** The commands of a callback: a wake-up, the cleanup and the cycle event, in this order. */
  lemma CallbackActs(w: CleanupOrder.Controller<()>, now: nat, w': CleanupOrder.Controller<()>, wake: seq<Action>,
                     more: seq<Action>, acts: seq<Action>)
    requires wake == [] || (|wake| == 1 && wake[0].Insert? && wake[0] == Wake(wake[0].when))
    requires (more == [] && w' == w) || CleanupOrder.Issues(w, now, w', more)
    requires more == [] || more == [CleanupAt(now + 1)] || more == [CleanupAt(now + 1)] + [CycleAt(now + 1)]
    requires acts == wake + more
    ensures CleanupOrder.Callback(w, COMMAND, now, w', acts)
  {
    AllowedFrom(acts, now);
    if more != [] { assert acts[|wake|] == CleanupAt(now + 1); }
  }

  lemma {:induction false} AllowedFrom(acts: seq<Action>, now: nat)
    requires forall i | 0 <= i < |acts| :: CleanupOrder.Allowed(acts[i], now)
    ensures CleanupOrder.AllAllowed(acts, now)
  {
    if acts != [] { AllowedFrom(acts[1..], now); }
  }

  lemma PulseActs(now: nat, scheduled: nat -> bool, next: Action, wakes: seq<Action>, acts: seq<Action>)
    requires next.Insert? && next.event.priority >= 0 && next.priority >= 0 && Wakes(now, scheduled, wakes)
    requires acts == [next] + wakes
    ensures acts[1..] == wakes && CleanupOrder.AllAllowed(acts, now)
  {
    AllowedFrom(acts, now);
  }

  /** One pulse makes at most its own group due, and handling it makes none due. */
  lemma CalmAfter(c: Config, d0: seq<seq<nat>>, d1: seq<seq<nat>>, d2: seq<seq<nat>>, rank: nat, group: nat)
    requires Grid(d0, c.ranks, c.groups) && Calm(c, d0) && rank < c.ranks && group < c.groups
    requires d1 == Put(d0, rank, group, d0[rank][group] + 1) && Lower(c, d1, d2)
    requires exists r, g | 0 <= r < c.ranks && 0 <= g < c.groups :: d2[r][g] < d1[r][g] && d1[r][g] >= c.threshold
    ensures Calm(c, d2)
  {
    forall r, g | 0 <= r < |d2| && 0 <= g < |d2[r]| ensures d2[r][g] < c.threshold {
      assert d2[r][g] <= d1[r][g] && d0[r][g] < c.threshold;
    }
  }

  lemma PulsesBooked(c: Config, k0: seq<seq<Books>>, k1: seq<seq<Books>>, k2: seq<seq<Books>>, rank: nat, group: nat)
    requires Grid(k0, c.ranks, c.groups) && rank < c.ranks && group < c.groups
    requires k1 == Put(k0, rank, group, OnPulse(k0[rank][group])) && BooksKept(c, k1, k2)
    ensures forall r, g | 0 <= r < c.ranks && 0 <= g < c.groups ::
      k2[r][g].pulses == k0[r][g].pulses + if r == rank && g == group then 1 else 0
  {
    forall r, g | 0 <= r < c.ranks && 0 <= g < c.groups
      ensures k2[r][g].pulses == k0[r][g].pulses + if r == rank && g == group then 1 else 0
    {
      assert k2[r][g].pulses == k1[r][g].pulses;
    }
  }

  lemma NoneNeeded(c: Config, need: seq<seq<bool>>, delayed: seq<seq<nat>>)
    requires c.Ok() && NeedOk(c, need, delayed) && Calm(c, delayed)
    ensures forall r, k | 0 <= r < c.ranks && 0 <= k < c.banks :: !need[r][k]
  {
  }

  class MemoryController {
    const cfg: Config
    var banks: seq<seq<Bank>>
    var bankNeedRefresh: seq<seq<bool>>
    var refreshQueued: seq<seq<bool>>
    var delayedRefreshCounter: seq<seq<nat>>
    var nextRefreshRank: nat
    var nextRefreshBank: nat
    var handledRefresh: nat
    var lastIssueCycle: nat
    var curQueue: nat
    ghost var devices: seq<seq<Rows>>   // the row buffers of the memory behind the controller
    ghost var books: seq<seq<Books>>
    ghost var marked: seq<seq<bool>>    // refreshQueued, per group

    /** What holds even while a refresh is being handled. */
    ghost predicate Core()
      reads this
    {
      && cfg.Ok()
      && SimOk(cfg, banks, devices)
      && NeedOk(cfg, bankNeedRefresh, delayedRefreshCounter)
      && FlagsOk(cfg, refreshQueued, marked)
      && BooksOk(cfg, books, delayedRefreshCounter, banks, marked)
      && HeadsOnly(banks)
      && RefreshAtHeads(cfg, banks)
    }

    /** The round-robin counters are in range. */
    ghost predicate Pointers()
      reads this
    {
      && cfg.Ok()
      && nextRefreshRank < cfg.ranks
      && nextRefreshBank < cfg.banks && nextRefreshBank == cfg.Head(cfg.GroupOf(nextRefreshBank))
      && curQueue <= cfg.Queues()
    }

    /** What holds between callbacks: moreover no refresh is due. */
    ghost predicate Valid()
      reads this
    {
      Core() && Pointers() && Calm(cfg, delayedRefreshCounter)
    }

    /** The controller as the account of the cleanup order sees it. */
    ghost function Abs(): CleanupOrder.Controller<()>
      reads this
    {
      CleanupOrder.Controller(AnyIssued(banks), lastIssueCycle, false, ())
    }

    constructor (cfg: Config)
      requires cfg.Ok()
      ensures Valid() && this.cfg == cfg && !AnyIssued(banks)
    {
      this.cfg := cfg;
      var idle, closed := Idle(cfg.p, cfg.subs), seq(cfg.subs, _ => None);
      banks := seq(cfg.ranks, _ => seq(cfg.banks, _ => idle));
      bankNeedRefresh := seq(cfg.ranks, _ => seq(cfg.banks, _ => false));
      refreshQueued := seq(cfg.ranks, _ => seq(cfg.banks, _ => false));
      delayedRefreshCounter := seq(cfg.ranks, _ => seq(cfg.groups, _ => 0));
      nextRefreshRank, nextRefreshBank, handledRefresh, lastIssueCycle, curQueue := 0, 0, NEVER, 0, 0;
      devices := seq(cfg.ranks, _ => seq(cfg.banks, _ => closed));
      books := seq(cfg.ranks, _ => seq(cfg.groups, _ => Books(0, 0, 0, 0)));
      marked := seq(cfg.ranks, _ => seq(cfg.groups, _ => false));
      new;
      assert idle.Rows() == closed;
      assert Simulates(cfg.p, idle, closed);
      forall k | 0 <= k < cfg.banks ensures cfg.GroupOf(k) < cfg.groups { GroupOfIs(cfg, k); }
      forall g | 0 <= g < cfg.groups ensures cfg.Head(g) < cfg.banks { HeadFits(cfg, g); }
    }

    /** Appends PRECHARGE_ALL to the queues of the active banks of a group, then REFRESH to the
        queue of its first bank. */
    method QueueRefresh(i: nat, j: nat, ghost g: nat)
      requires cfg.Ok() && Grid(banks, cfg.ranks, cfg.banks) && i < cfg.ranks && g < cfg.groups && j == cfg.Head(g)
      modifies this`banks
      ensures Refreshed(cfg, old(banks), banks, i, g)
    {
      HeadFits(cfg, g);
      forall k | 0 <= k < cfg.banks ensures cfg.GroupOf(k) == g <==> j <= k < j + cfg.per { GroupRange(cfg, k, g); }
      for tmpBank := 0 to cfg.per
        invariant Grid(banks, cfg.ranks, cfg.banks)
        invariant forall r, k | 0 <= r < cfg.ranks && 0 <= k < cfg.banks ::
          banks[r][k] == AfterRefresh(cfg.p, old(banks)[r][k], r == i && j <= k < j + tmpBank, false)
      {
        ModSmall(tmpBank + j, cfg.banks);
        var refBank := (tmpBank + j) % cfg.banks;
        if banks[i][refBank].activateQueued {
          banks := Put(banks, i, refBank, CloseAll(cfg.p, banks[i][refBank]));
        }
      }
      banks := Put(banks, i, j, PushRefresh(banks[i][j]));
    }

    /** Sets the refreshQueued flags of a group. */
    method MarkGroup(i: nat, j: nat, ghost g: nat)
      requires cfg.Ok() && Grid(refreshQueued, cfg.ranks, cfg.banks) && i < cfg.ranks && g < cfg.groups
      requires j == cfg.Head(g)
      modifies this`refreshQueued
      ensures GroupSet(cfg, old(refreshQueued), refreshQueued, i, g, true)
    {
      HeadFits(cfg, g);
      forall k | 0 <= k < cfg.banks ensures cfg.GroupOf(k) == g <==> j <= k < j + cfg.per { GroupRange(cfg, k, g); }
      for tmpBank := 0 to cfg.per
        invariant Grid(refreshQueued, cfg.ranks, cfg.banks)
        invariant forall r, k | 0 <= r < cfg.ranks && 0 <= k < cfg.banks ::
          refreshQueued[r][k] == if r == i && j <= k < j + tmpBank then true else old(refreshQueued)[r][k]
      {
        ModSmall(tmpBank + j, cfg.banks);
        var refBank := (tmpBank + j) % cfg.banks;
        refreshQueued := Put(refreshQueued, i, refBank, true);
      }
    }

    /** Sets the flags of a group to `v` in bankNeedRefresh. */
    method SetNeed(i: nat, j: nat, v: bool, ghost g: nat)
      requires cfg.Ok() && Grid(bankNeedRefresh, cfg.ranks, cfg.banks) && i < cfg.ranks && g < cfg.groups
      requires j == cfg.Head(g)
      modifies this`bankNeedRefresh
      ensures GroupSet(cfg, old(bankNeedRefresh), bankNeedRefresh, i, g, v)
    {
      HeadFits(cfg, g);
      forall k | 0 <= k < cfg.banks ensures cfg.GroupOf(k) == g <==> j <= k < j + cfg.per { GroupRange(cfg, k, g); }
      for b := 0 to cfg.per
        invariant Grid(bankNeedRefresh, cfg.ranks, cfg.banks)
        invariant forall r, k | 0 <= r < cfg.ranks && 0 <= k < cfg.banks ::
          bankNeedRefresh[r][k] == if r == i && j <= k < j + b then v else old(bankNeedRefresh)[r][k]
      {
        bankNeedRefresh := Put(bankNeedRefresh, i, j + b, v);
      }
    }

    /** The round-robin scan for a group that needs a refresh. It reaches every group. */
    method FindNeed() returns (found: bool, i: nat, j: nat, ghost g: nat)
      requires Pointers() && Grid(delayedRefreshCounter, cfg.ranks, cfg.groups)
      ensures found ==>
        i < cfg.ranks && g < cfg.groups && j == cfg.Head(g) && delayedRefreshCounter[i][g] >= cfg.threshold
      ensures found ==> exists a, b | 0 <= a < cfg.ranks && 0 <= b < cfg.groups ::
        FirstDue(cfg, delayedRefreshCounter, nextRefreshRank, cfg.GroupOf(nextRefreshBank), a, b, i, g)
      ensures !found ==> Calm(cfg, delayedRefreshCounter)
    {
      ghost var start := cfg.GroupOf(nextRefreshBank);
      GroupOfIs(cfg, nextRefreshBank);
      found, i, j, g := false, 0, 0, 0;
      for rankIdx := 0 to cfg.ranks
        invariant forall a | 0 <= a < rankIdx ::
          RankCalm(cfg, delayedRefreshCounter, Scan(nextRefreshRank, a, cfg.ranks), start, cfg.groups)
      {
        i := (nextRefreshRank + rankIdx) % cfg.ranks;
        for bankIdx := 0 to cfg.groups
          invariant i == Scan(nextRefreshRank, rankIdx, cfg.ranks) < cfg.ranks
          invariant RankCalm(cfg, delayedRefreshCounter, i, start, bankIdx)
        {
          ScanHead(cfg, start, bankIdx);
          j := (nextRefreshBank + bankIdx * cfg.per) % cfg.banks;
          g := Scan(start, bankIdx, cfg.groups);
          if delayedRefreshCounter[i][j / cfg.per] >= cfg.threshold {
            found := true;
            assert FirstDue(cfg, delayedRefreshCounter, nextRefreshRank, start, rankIdx, bankIdx, i, g);
            return;
          }
        }
      }
      CoversAll(cfg, delayedRefreshCounter, nextRefreshRank, start);
    }

    /** Moves the start of the refresh scan one group on. */
    method AdvanceScan()
      requires Pointers()
      modifies this`nextRefreshBank, this`nextRefreshRank
      ensures Pointers()
      ensures
        var wraps := old(nextRefreshBank) + cfg.per >= cfg.banks;
        && nextRefreshBank == (if wraps then 0 else old(nextRefreshBank) + cfg.per)
        && nextRefreshRank ==
          (if !wraps then old(nextRefreshRank)
           else if old(nextRefreshRank) + 1 < cfg.ranks then old(nextRefreshRank) + 1 else 0)
    {
      ghost var g := cfg.GroupOf(nextRefreshBank);
      assert cfg.Head(g + 1) == nextRefreshBank + cfg.per;
      GroupRange(cfg, nextRefreshBank + cfg.per, g + 1);
      nextRefreshBank := nextRefreshBank + cfg.per;
      if nextRefreshBank >= cfg.banks {
        nextRefreshBank := 0;
        nextRefreshRank := nextRefreshRank + 1;
        if nextRefreshRank == cfg.ranks {
          nextRefreshRank := 0;
        }
      }
    }

    /** Turns one unit of a group's counter into a queued REFRESH. */
    method TakeRefresh(i: nat, j: nat, ghost g: nat)
      requires Core() && i < cfg.ranks && g < cfg.groups && j == cfg.Head(g)
      requires delayedRefreshCounter[i][g] >= cfg.threshold
      modifies this`banks, this`refreshQueued, this`bankNeedRefresh, this`delayedRefreshCounter, this`books, this`marked
      ensures Core()
      ensures Refreshed(cfg, old(banks), banks, i, g)
      ensures delayedRefreshCounter == Put(old(delayedRefreshCounter), i, g, old(delayedRefreshCounter)[i][g] - 1)
      ensures books == Put(old(books), i, g, OnQueue(old(books)[i][g], old(marked)[i][g]))
      ensures GroupSet(cfg, old(refreshQueued), refreshQueued, i, g, true)
    {
      RefreshFacts(i, g);
      QueueRefresh(i, j, g);
      MarkGroup(i, j, g);
      RefreshedSimOk(cfg, old(banks), banks, devices, i, g);
      RefreshedHeadsOnly(cfg, old(banks), banks, i, g);
      RefreshedAtHeads(cfg, old(banks), banks, i, g);
      RefreshedBooksOk(cfg, old(banks), banks, books, delayedRefreshCounter, marked, i, g);
      GroupSetFlagsOk(cfg, old(refreshQueued), refreshQueued, marked, i, g, true);
      var bankGroupId := j / cfg.per;
      var left: nat := delayedRefreshCounter[i][bankGroupId] - 1;
      if left < cfg.threshold {
        SetNeed(i, j, false, g);
      }
      NeedOkAfterQueue(cfg, old(bankNeedRefresh), bankNeedRefresh, delayedRefreshCounter, i, g);
      delayedRefreshCounter := Put(delayedRefreshCounter, i, bankGroupId, left);
      books := Put(books, i, g, OnQueue(books[i][g], marked[i][g]));
      marked := Put(marked, i, g, true);
    }

    lemma RefreshFacts(i: nat, g: nat)
      requires cfg.Ok() && g < cfg.groups
      ensures cfg.Head(g) < cfg.banks && cfg.Head(g) / cfg.per == g
    {
      HeadFits(cfg, g);
      GroupRange(cfg, cfg.Head(g), g);
      GroupOfIs(cfg, cfg.Head(g));
    }

    /** What handling refreshes leaves alone. */
    twostate predicate Steady()
      reads this
    {
      && devices == old(devices) && lastIssueCycle == old(lastIssueCycle) && curQueue == old(curQueue)
      && BooksKept(cfg, old(books), books)
      && Lower(cfg, old(delayedRefreshCounter), delayedRefreshCounter)
      && GridSum(delayedRefreshCounter) <= old(GridSum(delayedRefreshCounter))
      && (AnyIssued(banks) ==> old(AnyIssued(banks)))
    }

    twostate predicate Same()
      reads this
    {
      && banks == old(banks) && bankNeedRefresh == old(bankNeedRefresh) && refreshQueued == old(refreshQueued)
      && delayedRefreshCounter == old(delayedRefreshCounter) && books == old(books) && marked == old(marked)
      && nextRefreshRank == old(nextRefreshRank) && nextRefreshBank == old(nextRefreshBank)
      && handledRefresh == old(handledRefresh)
    }

    /** Queues a REFRESH for the first group in scan order that needs one, then lets the wake-up
        logic handle any further group that became due; returns whether a group was found. The
        recursion through the wake-up logic ends because every round lowers a counter. */
    method HandleRefresh(now: nat, childNext: Command -> nat, scheduled: nat -> bool, acts0: seq<Action>)
        returns (handled: bool, acts: seq<Action>)
      requires Core() && Pointers()
      modifies this
      ensures Core() && Pointers() && Steady() && Added(now, scheduled, acts0, acts)
      ensures !handled ==> Same() && Calm(cfg, delayedRefreshCounter) && acts == acts0
      ensures handled ==> handledRefresh == now && Covered(cfg, now, banks, childNext, scheduled, acts)
      ensures handled && lastIssueCycle != now ==>
        Attended(cfg, now, lastIssueCycle, delayedRefreshCounter, banks, 0, cfg.ranks, 0)
      ensures handled ==> exists r, g | 0 <= r < cfg.ranks && 0 <= g < cfg.groups ::
        && delayedRefreshCounter[r][g] < old(delayedRefreshCounter)[r][g]
        && old(delayedRefreshCounter)[r][g] >= cfg.threshold
      decreases GridSum(delayedRefreshCounter), 0
    {
      var i, j;
      ghost var g;
      handled, i, j, g := FindNeed();
      acts := acts0;
      if handled {
        QueueOne(i, j, now, g);
        ghost var d1 := delayedRefreshCounter;
        var wake, more := ScheduleCommandWake(now, childNext, scheduled, acts);
        acts := more;
        if lastIssueCycle != now {
          AttendedAll(cfg, now, lastIssueCycle, delayedRefreshCounter, banks, wake, 0, cfg.ranks, 0);
        }
        assert delayedRefreshCounter[i][g] <= d1[i][g] < old(delayedRefreshCounter)[i][g];
      }
    }

    method QueueOne(i: nat, j: nat, now: nat, ghost g: nat)
      requires Core() && Pointers()
      requires i < cfg.ranks && g < cfg.groups && j == cfg.Head(g) && delayedRefreshCounter[i][g] >= cfg.threshold
      modifies this
      ensures Core() && Pointers() && Steady()
      ensures GridSum(delayedRefreshCounter) < old(GridSum(delayedRefreshCounter))
      ensures delayedRefreshCounter[i][g] < old(delayedRefreshCounter)[i][g]
      ensures handledRefresh == now
    {
      ghost var d0, b0 := delayedRefreshCounter, banks;
      TakeRefresh(i, j, g);
      RefreshedHere(d0, b0, i, g);
      AdvanceScan();
      handledRefresh := now;
    }

    lemma RefreshedHere(d0: seq<seq<nat>>, b0: seq<seq<Bank>>, i: nat, g: nat)
      requires Core() && i < cfg.ranks && g < cfg.groups && Grid(d0, cfg.ranks, cfg.groups) && d0[i][g] > 0
      requires Grid(b0, cfg.ranks, cfg.banks) && Refreshed(cfg, b0, banks, i, g)
      requires delayedRefreshCounter == Put(d0, i, g, d0[i][g] - 1)
      ensures Lower(cfg, d0, delayedRefreshCounter) && GridSum(delayedRefreshCounter) == GridSum(d0) - 1
      ensures AnyIssued(banks) ==> AnyIssued(b0)
    {
      GridSumPut(d0, i, g, d0[i][g] - 1);
      if AnyIssued(banks) { RefreshedIssued(cfg, b0, banks, i, g); }
    }

    /** Finds the next cycle in which a command may be issued and makes sure that the command-queue
        callback is scheduled for it, once. `scheduled` says for which cycles it is already, `acts0`
        holds the insertions made since. */
    method ScheduleCommandWake(now: nat, childNext: Command -> nat, scheduled: nat -> bool, acts0: seq<Action>)
        returns (wake: nat, acts: seq<Action>)
      requires Core() && Pointers()
      modifies this
      ensures Core() && Pointers() && Steady() && now < wake
      ensures old(Calm(cfg, delayedRefreshCounter)) ==> Same() && |acts| <= |acts0| + 1
      ensures Added(now, scheduled, acts0, acts) && (scheduled(wake) || Wake(wake) in acts)
      ensures Covered(cfg, now, banks, childNext, scheduled, acts)
      ensures old(Calm(cfg, delayedRefreshCounter)) ==> WakeIs(cfg, now, banks, childNext, wake)
      ensures Attended(cfg, now, lastIssueCycle, delayedRefreshCounter, banks, wake, cfg.ranks, 0)
      ensures handledRefresh == old(handledRefresh) || handledRefresh == now
      decreases GridSum(delayedRefreshCounter), 5
    {
      wake, acts := NextIssuable(now, childNext, scheduled, acts0);
      ghost var acts1 := acts;
      if !scheduled(wake) && Wake(wake) !in acts {
        acts := acts + [Wake(wake)];
      }
      ScanCovers(cfg, now, banks, childNext, scheduled, acts1, acts, wake);
    }

    method NextIssuable(now: nat, childNext: Command -> nat, scheduled: nat -> bool, acts0: seq<Action>)
        returns (nextWakeup: nat, acts: seq<Action>)
      requires Core() && Pointers()
      modifies this
      ensures Core() && Pointers() && Steady() && now < nextWakeup && Added(now, scheduled, acts0, acts)
      ensures old(Calm(cfg, delayedRefreshCounter)) ==> Same() && acts == acts0
      ensures SeenTo(cfg, now, banks, childNext, scheduled, acts, nextWakeup, cfg.ranks, 0)
      ensures Attended(cfg, now, lastIssueCycle, delayedRefreshCounter, banks, nextWakeup, cfg.ranks, 0)
      ensures old(Calm(cfg, delayedRefreshCounter)) ==> WakeIs(cfg, now, banks, childNext, nextWakeup)
      ensures handledRefresh == old(handledRefresh) || handledRefresh == now
      decreases GridSum(delayedRefreshCounter), 4
    {
      nextWakeup, acts := NEVER, acts0;
      for rankIdx := 0 to cfg.ranks
        invariant Core() && Pointers() && Steady() && Added(now, scheduled, acts0, acts)
        invariant old(Calm(cfg, delayedRefreshCounter)) ==> Same() && acts == acts0
        invariant SeenTo(cfg, now, banks, childNext, scheduled, acts, nextWakeup, rankIdx, 0)
        invariant Attended(cfg, now, lastIssueCycle, delayedRefreshCounter, banks, nextWakeup, rankIdx, 0)
        invariant old(Calm(cfg, delayedRefreshCounter)) ==> Earliest(cfg, banks, childNext, nextWakeup, rankIdx, 0)
        invariant handledRefresh == old(handledRefresh) || handledRefresh == now
      {
        nextWakeup, acts := VisitRank(rankIdx, now, childNext, scheduled, acts, nextWakeup);
      }
      NotBefore(cfg, now, banks, childNext, scheduled, acts, nextWakeup);
      AttendedLower(cfg, now, lastIssueCycle, delayedRefreshCounter, banks, nextWakeup,
                    if nextWakeup <= now then now + 1 else nextWakeup, cfg.ranks, 0);
      if nextWakeup <= now {
        nextWakeup := now + 1;
      }
    }

    method VisitRank(rankIdx: nat, now: nat, childNext: Command -> nat, scheduled: nat -> bool, acts0: seq<Action>,
                     wake: nat) returns (nextWakeup: nat, acts: seq<Action>)
      requires Core() && Pointers() && rankIdx < cfg.ranks
      requires SeenTo(cfg, now, banks, childNext, scheduled, acts0, wake, rankIdx, 0)
      requires Attended(cfg, now, lastIssueCycle, delayedRefreshCounter, banks, wake, rankIdx, 0)
      modifies this
      ensures Core() && Pointers() && Steady() && Added(now, scheduled, acts0, acts)
      ensures old(Calm(cfg, delayedRefreshCounter)) ==> Same() && acts == acts0
      ensures SeenTo(cfg, now, banks, childNext, scheduled, acts, nextWakeup, rankIdx + 1, 0)
      ensures Attended(cfg, now, lastIssueCycle, delayedRefreshCounter, banks, nextWakeup, rankIdx + 1, 0)
      ensures old(Calm(cfg, delayedRefreshCounter)) && Earliest(cfg, banks, childNext, wake, rankIdx, 0) ==>
        Earliest(cfg, banks, childNext, nextWakeup, rankIdx + 1, 0)
      ensures handledRefresh == old(handledRefresh) || handledRefresh == now
      decreases GridSum(delayedRefreshCounter), 3
    {
      nextWakeup, acts := wake, acts0;
      for bankIdx := 0 to cfg.banks
        invariant Core() && Pointers() && Steady() && Added(now, scheduled, acts0, acts)
        invariant old(Calm(cfg, delayedRefreshCounter)) ==> Same() && acts == acts0
        invariant SeenTo(cfg, now, banks, childNext, scheduled, acts, nextWakeup, rankIdx, bankIdx)
        invariant Attended(cfg, now, lastIssueCycle, delayedRefreshCounter, banks, nextWakeup, rankIdx, bankIdx)
        invariant old(Calm(cfg, delayedRefreshCounter)) && Earliest(cfg, banks, childNext, wake, rankIdx, 0) ==>
          Earliest(cfg, banks, childNext, nextWakeup, rankIdx, bankIdx)
        invariant handledRefresh == old(handledRefresh) || handledRefresh == now
      {
        nextWakeup, acts := VisitBank(rankIdx, bankIdx, now, childNext, scheduled, acts, nextWakeup);
      }
      NextRank(cfg, now, banks, childNext, scheduled, acts, nextWakeup, rankIdx);
      AttendedRank(cfg, now, lastIssueCycle, delayedRefreshCounter, banks, nextWakeup, rankIdx);
    }

    /** One bank: a refresh that is due and can start is handled first, unless a command was issued
        in this cycle; then the head of its queue may be the next to wake up for. */
    method VisitBank(rankIdx: nat, bankIdx: nat, now: nat, childNext: Command -> nat, scheduled: nat -> bool,
                     acts0: seq<Action>, wake: nat) returns (nextWakeup: nat, acts: seq<Action>)
      requires Core() && Pointers() && rankIdx < cfg.ranks && bankIdx < cfg.banks
      requires Attended(cfg, now, lastIssueCycle, delayedRefreshCounter, banks, wake, rankIdx, bankIdx)
      modifies this
      ensures Core() && Pointers() && Steady() && Added(now, scheduled, acts0, acts)
      ensures old(Calm(cfg, delayedRefreshCounter)) ==> Same() && acts == acts0
      ensures SeenTo(cfg, now, old(banks), childNext, scheduled, acts0, wake, rankIdx, bankIdx) ==>
        SeenTo(cfg, now, banks, childNext, scheduled, acts, nextWakeup, rankIdx, bankIdx + 1)
      ensures Attended(cfg, now, lastIssueCycle, delayedRefreshCounter, banks, nextWakeup, rankIdx, bankIdx + 1)
      ensures old(Calm(cfg, delayedRefreshCounter)) && Earliest(cfg, banks, childNext, wake, rankIdx, bankIdx) ==>
        Earliest(cfg, banks, childNext, nextWakeup, rankIdx, bankIdx + 1)
      ensures handledRefresh == old(handledRefresh) || handledRefresh == now
      decreases GridSum(delayedRefreshCounter), 2
    {
      nextWakeup, acts := PreferRefresh(rankIdx, bankIdx, now, childNext, scheduled, acts0, wake);
      ghost var before := nextWakeup;
      if banks[rankIdx][bankIdx].queue != [] {
        var next := childNext(banks[rankIdx][bankIdx].queue[0].cmd);
        nextWakeup := if next < nextWakeup then next else nextWakeup;
      }
      Visited(now, childNext, scheduled, acts, before, nextWakeup, rankIdx, bankIdx);
      AttendedLower(cfg, now, lastIssueCycle, delayedRefreshCounter, banks, before, nextWakeup, rankIdx, bankIdx + 1);
    }

    method PreferRefresh(rankIdx: nat, bankIdx: nat, now: nat, childNext: Command -> nat, scheduled: nat -> bool,
                         acts0: seq<Action>, wake: nat) returns (nextWakeup: nat, acts: seq<Action>)
      requires Core() && Pointers() && rankIdx < cfg.ranks && bankIdx < cfg.banks
      requires Attended(cfg, now, lastIssueCycle, delayedRefreshCounter, banks, wake, rankIdx, bankIdx)
      modifies this
      ensures Core() && Pointers() && Steady() && Added(now, scheduled, acts0, acts)
      ensures old(Calm(cfg, delayedRefreshCounter)) ==> Same() && acts == acts0 && nextWakeup == wake
      ensures SeenTo(cfg, now, old(banks), childNext, scheduled, acts0, wake, rankIdx, bankIdx) ==>
        SeenTo(cfg, now, banks, childNext, scheduled, acts, nextWakeup, rankIdx, bankIdx)
      ensures Attended(cfg, now, lastIssueCycle, delayedRefreshCounter, banks, nextWakeup, rankIdx, bankIdx + 1)
      ensures handledRefresh == old(handledRefresh) || handledRefresh == now
      decreases GridSum(delayedRefreshCounter), 1
    {
      GroupOfIs(cfg, bankIdx);
      nextWakeup, acts := wake, acts0;
      var empty := IsRefreshBankQueueEmpty(bankIdx, rankIdx);
      if NeedRefresh(bankIdx, rankIdx) && empty {
        if lastIssueCycle != now {
          var handled, more := HandleRefresh(now, childNext, scheduled, acts);
          acts := more;
          if handled {
            CoveredSees(cfg, now, banks, childNext, scheduled, acts, wake, rankIdx, bankIdx);
            AttendedAll(cfg, now, lastIssueCycle, delayedRefreshCounter, banks, 0, wake, rankIdx, bankIdx + 1);
            return;
          }
        } else {
          nextWakeup := now + 1;
        }
      }
      AttendedNext(cfg, now, lastIssueCycle, delayedRefreshCounter, banks, wake, nextWakeup, rankIdx, bankIdx);
    }

    lemma Visited(now: nat, childNext: Command -> nat, scheduled: nat -> bool, acts: seq<Action>, wake: nat,
                  nextWakeup: nat, rankIdx: nat, bankIdx: nat)
      requires Core() && rankIdx < cfg.ranks && bankIdx < cfg.banks
      requires nextWakeup <= wake || nextWakeup <= now + 1
      requires
        var q := banks[rankIdx][bankIdx].queue;
        q != [] ==> nextWakeup <= childNext(q[0].cmd)
      ensures SeenTo(cfg, now, banks, childNext, scheduled, acts, wake, rankIdx, bankIdx) ==>
        SeenTo(cfg, now, banks, childNext, scheduled, acts, nextWakeup, rankIdx, bankIdx + 1)
      ensures
        var q := banks[rankIdx][bankIdx].queue;
        && Earliest(cfg, banks, childNext, wake, rankIdx, bankIdx)
        && nextWakeup == (if q != [] && childNext(q[0].cmd) < wake then childNext(q[0].cmd) else wake) ==>
          Earliest(cfg, banks, childNext, nextWakeup, rankIdx, bankIdx + 1)
    {
      var q := banks[rankIdx][bankIdx].queue;
      if SeenTo(cfg, now, banks, childNext, scheduled, acts, wake, rankIdx, bankIdx) {
        VisitSees(cfg, now, banks, childNext, scheduled, acts, wake, nextWakeup, rankIdx, bankIdx);
      }
      if && Earliest(cfg, banks, childNext, wake, rankIdx, bankIdx)
        && nextWakeup == if q != [] && childNext(q[0].cmd) < wake then childNext(q[0].cmd) else wake {
        VisitLowers(cfg, banks, childNext, wake, nextWakeup, rankIdx, bankIdx);
      }
    }

    /** Expands a transaction into commands in its bank's queue and updates the shadow. */
    method IssueMemoryCommands(req: Request, now: nat, childNext: Command -> nat, scheduled: nat -> bool)
        returns (accepted: bool, acts: seq<Action>)
      requires Valid() && InRange(cfg, req)
      modifies this
      ensures Valid() && CleanupOrder.Leaves(old(Abs()), Abs())
      ensures Wakes(now, scheduled, acts) && (!accepted ==> acts == [])
      ensures old(banks)[req.rank][req.bank].Shaped(cfg.subs)
      ensures var (b, ok) := Issue(cfg.p, old(banks)[req.rank][req.bank], req);
        accepted == ok && banks == Put(old(banks), req.rank, req.bank, b)
      ensures OnlyBanks()
      ensures accepted ==> Landed(cfg.p, old(banks)[req.rank][req.bank], banks[req.rank][req.bank], req)
      ensures accepted ==> Covered(cfg, now, banks, childNext, scheduled, acts)
    {
      assert Simulates(cfg.p, banks[req.rank][req.bank], devices[req.rank][req.bank]);
      var b;
      accepted, b := Expand(banks[req.rank][req.bank], req);
      IssueKeeps(req);
      ghost var b0 := banks;
      banks := Put(banks, req.rank, req.bank, b);
      IssueLeavesHeads(cfg, b0, req);
      Lands(cfg.p, b0[req.rank][req.bank], req);
      acts := [];
      if accepted {
        acts := WakeOnly(now, childNext, scheduled);
      }
    }

    /** Scheduling the wake-up when no refresh is due changes nothing else. */
    method WakeOnly(now: nat, childNext: Command -> nat, scheduled: nat -> bool) returns (acts: seq<Action>)
      requires Valid()
      modifies this
      ensures Valid() && OnlyBanks() && banks == old(banks) && Abs() == old(Abs())
      ensures Wakes(now, scheduled, acts) && Covered(cfg, now, banks, childNext, scheduled, acts)
    {
      var wake;
      wake, acts := ScheduleCommandWake(now, childNext, scheduled, []);
    }

    lemma IssueKeeps(req: Request)
      requires Core() && InRange(cfg, req) && banks[req.rank][req.bank].Shaped(cfg.subs)
      ensures var b := Issue(cfg.p, banks[req.rank][req.bank], req).0;
        var banks' := Put(banks, req.rank, req.bank, b);
        && SimOk(cfg, banks', devices) && HeadsOnly(banks') && RefreshAtHeads(cfg, banks')
        && BooksOk(cfg, books, delayedRefreshCounter, banks', marked)
    {
      var b0, d := banks[req.rank][req.bank], devices[req.rank][req.bank];
      var b := Issue(cfg.p, b0, req).0;
      assert Simulates(cfg.p, b0, d);
      IssueSimulates(cfg.p, b0, req, d);
      IssueWaiting(cfg.p, b0, req);
      IssueUnissued(cfg.p, b0, req);
      PutBank(cfg, banks, devices, req.rank, req.bank, b, d);
      PutBankBooks(cfg, books, delayedRefreshCounter, banks, marked, req.rank, req.bank, b);
      assert devices[req.rank][req.bank := d] == devices[req.rank];
      assert Put(devices, req.rank, req.bank, d) == devices;
    }

    /** The branches of the expansion, updating one bank's arrays in place. */
    method Expand(bank: Bank, req: Request) returns (accepted: bool, b: Bank)
      requires cfg.Ok() && bank.Shaped(cfg.subs) && req.subarray < cfg.subs
      ensures (b, accepted) == Issue(cfg.p, bank, req)
    {
      var sa, muxLevel := req.subarray, req.col / cfg.p.rbSize;
      b, accepted := bank, true;
      if !b.activateQueued && b.queue == [] {
        b := b.(activateQueued := true, active := b.active[sa := true], row := b.row[sa := req.row],
                mux := b.mux[sa := muxLevel], starvation := b.starvation[sa := 0]);
        if req.last && cfg.p.usePrecharge {
          b := Push(b, [Command(Activate, sa, req.row, None), Access(req, true)]);
          b := b.(active := b.active[sa := false], row := b.row[sa := cfg.p.rows], mux := b.mux[sa := cfg.p.rows],
                  activateQueued := false);
        } else {
          b := Push(b, [Command(Activate, sa, req.row, None), Access(req, false)]);
        }
      } else if b.activateQueued && (!b.active[sa] || b.row[sa] != req.row || b.mux[sa] != muxLevel) && b.queue == [] {
        b := b.(starvation := b.starvation[sa := 0], activateQueued := true);
        var pre := [];
        if b.active[sa] && cfg.p.usePrecharge {
          pre := [Command(Precharge, sa, b.row[sa], None)];
        }
        b := Push(b, pre + [Command(Activate, sa, req.row, None), Access(req, false)]);
        b := b.(active := b.active[sa := true], row := b.row[sa := req.row], mux := b.mux[sa := muxLevel]);
      } else if b.activateQueued && b.active[sa] && b.row[sa] == req.row && b.mux[sa] == muxLevel {
        b := b.(starvation := b.starvation[sa := b.starvation[sa] + 1]);
        if req.last && cfg.p.usePrecharge {
          b := Push(b, [Access(req, true)]);
          b := b.(active := b.active[sa := false], row := b.row[sa := cfg.p.rows], mux := b.mux[sa := cfg.p.rows]);
          var idle := true;
          for i := 0 to |b.active|
            invariant idle <==> forall k | 0 <= k < i :: !b.active[k]
          {
            if b.active[i] { idle := false; }
          }
          if idle {
            b := b.(activateQueued := false);
          }
          assert b.active == bank.active[sa := false];
          assert b.activateQueued == AnyActive(b.active);
        } else {
          b := Push(b, [Access(req, false)]);
        }
      } else {
        accepted := false;
      }
    }

    twostate predicate OnlyBanks()
      reads this
    {
      && bankNeedRefresh == old(bankNeedRefresh) && refreshQueued == old(refreshQueued)
      && delayedRefreshCounter == old(delayedRefreshCounter) && books == old(books) && marked == old(marked)
      && nextRefreshRank == old(nextRefreshRank) && nextRefreshBank == old(nextRefreshBank)
      && handledRefresh == old(handledRefresh) && devices == old(devices)
      && lastIssueCycle == old(lastIssueCycle) && curQueue == old(curQueue)
    }

    ghost predicate Placed(r: Request)
      reads this
    {
      && cfg.Ok() && InRange(cfg, r) && Grid(banks, cfg.ranks, cfg.banks)
      && Grid(bankNeedRefresh, cfg.ranks, cfg.banks) && Grid(refreshQueued, cfg.ranks, cfg.banks)
      && banks[r.rank][r.bank].Shaped(cfg.subs)
    }

    /** Whether a search may take this transaction now. */
    predicate Eligible(kind: Search, r: Request, now: nat, pred: Request -> bool)
      requires Placed(r)
      reads this
    {
      var b := banks[r.rank][r.bank];
      && b.queue == [] && Wanted(cfg, kind, b, r)
      && !bankNeedRefresh[r.rank][r.bank] && !refreshQueued[r.rank][r.bank]
      && r.arrival != now && pred(r)
    }

    lemma EligibleIsRipe(kind: Search, r: Request, now: nat, pred: Request -> bool)
      requires Core() && Placed(r)
      ensures Eligible(kind, r, now, pred) <==>
        Ripe(cfg, banks, bankNeedRefresh, refreshQueued, kind, r, now, pred)
    {
      var b := banks[r.rank][r.bank];
      assert Simulates(cfg.p, b, devices[r.rank][r.bank]);
      if b.queue == [] { SearchServes(cfg, kind, b, r); }
    }

    /** The four searches of the transaction queue: the first eligible transaction is taken out,
        everything else keeps its place, and it is marked when it is the last one of its row. */
    method FindRequest(kind: Search, tq: seq<Request>, now: nat, pred: Request -> bool)
        returns (found: Option<Request>, rest: seq<Request>, ghost at: nat)
      requires Valid() && forall i {:trigger tq[i]} | 0 <= i < |tq| :: InRange(cfg, tq[i])
      ensures forall i {:trigger tq[i]} | 0 <= i < |tq| :: Placed(tq[i])
      ensures found.None? ==> rest == tq && forall i | 0 <= i < |tq| :: !Eligible(kind, tq[i], now, pred)
      ensures found.Some? ==>
        && at < |tq| && Eligible(kind, tq[at], now, pred)
        && (forall i | 0 <= i < at :: !Eligible(kind, tq[i], now, pred))
        && rest == Without(tq, at)
      ensures found.None? ==> forall i | 0 <= i < |tq| ::
        !Ripe(cfg, banks, bankNeedRefresh, refreshQueued, kind, tq[i], now, pred)
      ensures found.Some? ==>
        TookFirst(cfg, banks, bankNeedRefresh, refreshQueued, kind, tq, now, pred, found.value, rest, at)
    {
      found, rest, at := None, tq, 0;
      forall i {:trigger tq[i]} | 0 <= i < |tq| ensures Placed(tq[i]) {
        assert Simulates(cfg.p, banks[tq[i].rank][tq[i].bank], devices[tq[i].rank][tq[i].bank]);
      }
      var it: nat := 0;
      while it < |tq|
        invariant it <= |tq| && found == None && rest == tq
        invariant forall i | 0 <= i < it :: !Eligible(kind, tq[i], now, pred)
        invariant forall i | 0 <= i < it ::
          !Ripe(cfg, banks, bankNeedRefresh, refreshQueued, kind, tq[i], now, pred)
      {
        EligibleIsRipe(kind, tq[it], now, pred);
        if Eligible(kind, tq[it], now, pred) {
          rest := tq[..it] + tq[it + 1..];
          var r := tq[it];
          at := it;
          if IsLastRequest(cfg, rest, r) {
            r := r.(last := true);
          }
          found := Some(r);
          return;
        }
        it := it + 1;
      }
    }

    /** A scheduling round: search, then expand. A transaction that leaves the transaction queue
        lands exactly once, in the queue of its own bank; nothing else moves. */
    method Schedule(kind: Search, tq: seq<Request>, now: nat, pred: Request -> bool, childNext: Command -> nat,
                    scheduled: nat -> bool) returns (found: Option<Request>, rest: seq<Request>, acts: seq<Action>)
      requires Valid() && forall i {:trigger tq[i]} | 0 <= i < |tq| :: InRange(cfg, tq[i])
      modifies this
      ensures Valid() && CleanupOrder.Leaves(old(Abs()), Abs()) && Wakes(now, scheduled, acts)
      ensures found.None? ==> rest == tq && banks == old(banks)
      ensures found.None? ==> forall i | 0 <= i < |tq| ::
        !Ripe(cfg, banks, bankNeedRefresh, refreshQueued, kind, tq[i], now, pred)
      ensures found.Some? ==> InRange(cfg, found.value) && exists at | 0 <= at < |tq| ::
        TookFirst(cfg, old(banks), bankNeedRefresh, refreshQueued, kind, tq, now, pred, found.value, rest, at)
      ensures found.Some? ==>
        var r := found.value;
        && old(banks)[r.rank][r.bank].queue == [] && Carried(banks[r.rank][r.bank].queue) == [r]
        && Landed(cfg.p, old(banks)[r.rank][r.bank], banks[r.rank][r.bank], r)
        && banks == Put(old(banks), r.rank, r.bank, banks[r.rank][r.bank])
      ensures found.Some? ==> Covered(cfg, now, banks, childNext, scheduled, acts)
      ensures OnlyBanks()
    {
      ghost var at;
      found, rest, at := FindRequest(kind, tq, now, pred);
      acts := [];
      if found.Some? {
        EligibleIsAccepted(cfg, banks[found.value.rank][found.value.bank], found.value);
        var _, more := IssueMemoryCommands(found.value, now, childNext, scheduled);
        acts := more;
      }
    }

    /** Removes the issued commands from every queue. */
    method CleanupCallback()
      requires Valid()
      modifies this`banks
      ensures Valid() && Cleaned(cfg, old(banks), banks) && !AnyIssued(banks)
      ensures forall now: nat :: CleanupOrder.Callback(old(Abs()), CleanupOrder.CLEANUP, now, Abs(), [])
    {
      var queueId := 0;
      while queueId < cfg.Queues()
        invariant queueId <= cfg.Queues()
        invariant Grid(banks, cfg.ranks, cfg.banks)
        invariant forall r, k {:trigger banks[r][k]} | 0 <= r < cfg.ranks && 0 <= k < cfg.banks ::
          banks[r][k] == if cfg.Id(r, k) < queueId then Cleanup(old(banks)[r][k]) else old(banks)[r][k]
      {
        forall r, k | 0 <= r < cfg.ranks && 0 <= k < cfg.banks
          ensures cfg.Id(r, k) == queueId <==>
            && r == RankOf(cfg.scheme, cfg.ranks, cfg.banks, queueId)
            && k == BankOf(cfg.scheme, cfg.ranks, cfg.banks, queueId)
        { Locate(cfg, queueId, r, k); }
        Locate(cfg, queueId, 0, 0);
        var r := RankOf(cfg.scheme, cfg.ranks, cfg.banks, queueId);
        var k := BankOf(cfg.scheme, cfg.ranks, cfg.banks, queueId);
        var q := RemoveIssued(banks[r][k].queue);
        banks := Put(banks, r, k, banks[r][k].(queue := q));
        queueId := queueId + 1;
      }
      forall r, k | 0 <= r < cfg.ranks && 0 <= k < cfg.banks
        ensures cfg.Id(r, k) < cfg.Queues()
      {
        Locate(cfg, 0, r, k);
      }
      CleanedKeeps(cfg, old(banks), banks, devices, books, delayedRefreshCounter, marked);
    }

    method RemoveIssued(q: seq<Entry>) returns (kept: seq<Entry>)
      ensures kept == Unissued(q)
    {
      kept := [];
      for i := 0 to |q|
        invariant Unissued(q) == kept + Unissued(q[i..])
      {
        assert q[i..][1..] == q[i + 1..];
        if !q[i].issued {
          kept := kept + [q[i]];
        }
      }
      assert q[|q|..] == [];
    }

    /** Whether the head of queue `q` exists and the memory would take it. */
    predicate Ready(q: nat, issuable: Command -> bool)
      requires cfg.Ok() && Grid(banks, cfg.ranks, cfg.banks) && q < cfg.Queues()
      reads this
    {
      Locate(cfg, q, 0, 0);
      var b := banks[RankOf(cfg.scheme, cfg.ranks, cfg.banks, q)][BankOf(cfg.scheme, cfg.ranks, cfg.banks, q)];
      b.queue != [] && issuable(b.queue[0].cmd)
    }

    /** The queue holds one command, so that it is empty once that is issued. */
    predicate Alone(q: nat)
      requires cfg.Ok() && Grid(banks, cfg.ranks, cfg.banks) && q < cfg.Queues()
      reads this
    {
      Locate(cfg, q, 0, 0);
      |banks[RankOf(cfg.scheme, cfg.ranks, cfg.banks, q)][BankOf(cfg.scheme, cfg.ranks, cfg.banks, q)].queue| == 1
    }

    ghost function ReadyHeads(issuable: Command -> bool): (s: seq<bool>)
      requires cfg.Ok() && Grid(banks, cfg.ranks, cfg.banks)
      reads this
      ensures |s| == cfg.Queues() && forall q {:trigger s[q]} | 0 <= q < |s| :: s[q] == Ready(q, issuable)
    {
      seq(cfg.Queues(),
          q requires 0 <= q < cfg.Queues() && cfg.Ok() && Grid(banks, cfg.ranks, cfg.banks) reads this =>
            Ready(q, issuable))
    }

    /** The first queue in round-robin order whose head the memory takes; none in a cycle that has
        issued a command or handled a refresh, and otherwise only if the memory takes no head. */
    method PickQueue(now: nat, issuable: Command -> bool) returns (pick: Option<nat>)
      requires cfg.Ok() && Grid(banks, cfg.ranks, cfg.banks)
      ensures ReadyHeads(issuable) != []
      ensures pick ==
        if handledRefresh == now || lastIssueCycle == now then None else Pick(ReadyHeads(issuable), curQueue)
      ensures pick.Some? ==> pick.value < cfg.Queues() && HeadTaken(cfg, issuable, banks, pick.value)
      ensures pick.None? ==> handledRefresh == now || lastIssueCycle == now || NoneTaken(cfg, issuable, banks)
    {
      ghost var ready := ReadyHeads(issuable);
      assert cfg.Queues() > 0 by { Locate(cfg, cfg.Id(0, 0), 0, 0); }
      if handledRefresh == now || lastIssueCycle == now {
        return None;
      }
      var queueIdx: nat := 0;
      while queueIdx < cfg.Queues()
        invariant queueIdx <= cfg.Queues()
        invariant PickFrom(ready, curQueue, queueIdx) == Pick(ready, curQueue)
      {
        var queueId := (curQueue + queueIdx) % cfg.Queues();
        assert ready[queueId] == Ready(queueId, issuable);
        if Ready(queueId, issuable) {
          ReadyTaken(cfg, issuable, banks, queueId);
          return Some(queueId);
        }
        queueIdx := queueIdx + 1;
      }
      PickComplete(ready, curQueue);
      forall q | 0 <= q < cfg.Queues() ensures !Takes(issuable, BankAt(cfg, banks, q)) {
        assert ready[q] == Ready(q, issuable);
      }
      NoneReady(cfg, issuable, banks);
      return None;
    }

    /** Issues at most one command: that of the first queue in round-robin order whose head the
        memory takes, and none in a cycle that has issued one or handled a refresh. The head has
        never been issued before, and the memory accepts it. */
    method CycleCommandQueues(now: nat, issuable: Command -> bool, available: nat -> bool)
        returns (issued: Option<nat>, acts: seq<Action>)
      requires Valid() && (AnyIssued(banks) ==> lastIssueCycle == now) && now + 1 < EventQueues.MAX
      modifies this
      ensures Valid() && old(ReadyHeads(issuable)) != []
      ensures issued.None? ==> acts == [] && Abs() == old(Abs())
      ensures issued.Some? ==> CleanupOrder.Issues(old(Abs()), now, Abs(), acts)
      ensures issued.Some? ==>
        && issued.value < cfg.Queues()
        && acts == [CleanupAt(now + 1)] +
          (if old(Alone(issued.value)) && available(issued.value) then [CycleAt(now + 1)] else [])
      ensures issued ==
        if old(handledRefresh == now || lastIssueCycle == now) then None
        else Pick(old(ReadyHeads(issuable)), old(curQueue))
      ensures issued.None? ==> banks == old(banks) && devices == old(devices) && OnlyBanks()
      ensures issued.Some? ==>
        && issued.value < cfg.Queues() && lastIssueCycle == now && curQueue == Move(old(curQueue), cfg.Queues())
        && IssuedFrom(issued.value, old(banks), old(devices))
      ensures issued.Some? ==> HeadTaken(cfg, issuable, old(banks), issued.value)
      ensures issued.None? ==>
        old(handledRefresh == now || lastIssueCycle == now) || NoneTaken(cfg, issuable, old(banks))
    {
      issued := PickQueue(now, issuable);
      acts := [];
      if issued.Some? {
        var queueId := issued.value;
        Locate(cfg, queueId, 0, 0);
        acts := [CleanupAt(now + 1)];
        if Alone(queueId) && available(queueId) {
          acts := acts + [CycleAt(now + 1)];
        }
        IssueFrom(RankOf(cfg.scheme, cfg.ranks, cfg.banks, queueId),
                  BankOf(cfg.scheme, cfg.ranks, cfg.banks, queueId), now);
      }
    }

    /** What issuing from queue `q` did: its head, not issued before, went to the device. */
    ghost predicate IssuedFrom(q: nat, banks0: seq<seq<Bank>>, devices0: seq<seq<Rows>>)
      requires cfg.Ok() && q < cfg.Queues() && Grid(banks0, cfg.ranks, cfg.banks)
      requires Grid(devices0, cfg.ranks, cfg.banks)
      reads this
    {
      Locate(cfg, q, 0, 0);
      Moved(RankOf(cfg.scheme, cfg.ranks, cfg.banks, q), BankOf(cfg.scheme, cfg.ranks, cfg.banks, q), banks0, devices0)
    }

    ghost predicate Moved(r: nat, k: nat, banks0: seq<seq<Bank>>, devices0: seq<seq<Rows>>)
      requires r < cfg.ranks && k < cfg.banks && Grid(banks0, cfg.ranks, cfg.banks)
      requires Grid(devices0, cfg.ranks, cfg.banks)
      reads this
    {
      && banks0[r][k].queue != [] && !banks0[r][k].queue[0].issued
      && Apply(devices0[r][k], banks0[r][k].queue[0].cmd).Some?
      && banks == Put(banks0, r, k, IssueHead(banks0[r][k]))
      && devices == Put(devices0, r, k, Apply(devices0[r][k], banks0[r][k].queue[0].cmd).value)
    }

    method IssueFrom(r: nat, k: nat, now: nat)
      requires Valid() && !AnyIssued(banks) && r < cfg.ranks && k < cfg.banks && banks[r][k].queue != []
      modifies this
      ensures Valid() && lastIssueCycle == now && curQueue == Move(old(curQueue), cfg.Queues())
      ensures Moved(r, k, old(banks), old(devices)) && AnyIssued(banks)
    {
      var head := banks[r][k].queue[0];
      ghost var b0, d0 := banks[r][k], devices[r][k];
      assert !head.issued;
      assert Simulates(cfg.p, b0, d0);
      IssueHeadSimulates(cfg.p, b0, d0);
      IssueHeadWaiting(b0);
      PutBank(cfg, banks, devices, r, k, IssueHead(b0), Apply(d0, head.cmd).value);
      BookIssue(r, k);
      banks := Put(banks, r, k, banks[r][k].(queue := [head.(issued := true)] + banks[r][k].queue[1..]));
      devices := Put(devices, r, k, Apply(d0, head.cmd).value);
      lastIssueCycle := now;
      curQueue := Move(curQueue, cfg.Queues());
      assert banks[r][k].queue[0].issued;
    }

    /** Books the command about to be issued: the flags of the group are cleared for a REFRESH. */
    method BookIssue(r: nat, k: nat)
      requires Core() && r < cfg.ranks && k < cfg.banks && banks[r][k].queue != [] && !banks[r][k].queue[0].issued
      modifies this`refreshQueued, this`books, this`marked
      ensures FlagsOk(cfg, refreshQueued, marked)
      ensures BooksOk(cfg, books, delayedRefreshCounter, Put(banks, r, k, IssueHead(banks[r][k])), marked)
      ensures
        if banks[r][k].queue[0].cmd.op.Refresh? then
          GroupSet(cfg, old(refreshQueued), refreshQueued, r, cfg.GroupOf(k), false)
        else refreshQueued == old(refreshQueued) && books == old(books) && marked == old(marked)
    {
      IssueHeadWaiting(banks[r][k]);
      if banks[r][k].queue[0].cmd.op.Refresh? {
        ghost var g := cfg.GroupOf(k);
        RefreshIssueKeeps(r, k);
        GroupSetFlagsOk2(r, g);
        ResetRefreshQueued(k, r);
        books := Put(books, r, g, OnIssue(books[r][g], marked[r][g]));
        marked := Put(marked, r, g, false);
      } else {
        PutBankBooks(cfg, books, delayedRefreshCounter, banks, marked, r, k, IssueHead(banks[r][k]));
      }
    }

    /** The command-queue callback: schedules the next wake-up unless there is none or it is
        scheduled, then issues a command. To the event queue and the cleanup order it is what
        `CleanupOrder.Callback` describes. */
    method CommandQueueCallback(now: nat, issuable: Command -> bool, available: nat -> bool, childNext: Command -> nat,
                                scheduled: nat -> bool) returns (issued: Option<nat>, acts: seq<Action>)
      requires Valid() && (AnyIssued(banks) ==> lastIssueCycle == now) && now + 1 < EventQueues.MAX
      modifies this
      ensures Valid() && CleanupOrder.Callback(old(Abs()), COMMAND, now, Abs(), acts)
      ensures issued.None? ==> banks == old(banks) && devices == old(devices)
      ensures issued.Some? ==> issued.value < cfg.Queues() && IssuedFrom(issued.value, old(banks), old(devices))
      ensures exists w: nat ::
        WakeIs(cfg, now, old(banks), childNext, w) && (w == NEVER || scheduled(w) || Wake(w) in acts)
    {
      var nextWakeup := WakeTime(now, childNext, scheduled);
      var more;
      issued, more := CycleCommandQueues(now, issuable, available);
      var wake := [];
      if !scheduled(nextWakeup) && nextWakeup != NEVER {
        wake := [Wake(nextWakeup)];
      }
      acts := wake + more;
      CallbackActs(old(Abs()), now, Abs(), wake, more, acts);
    }

    /** Between callbacks no refresh is due, and looking for the next wake-up changes nothing. */
    method WakeTime(now: nat, childNext: Command -> nat, scheduled: nat -> bool) returns (wake: nat)
      requires Valid()
      modifies this
      ensures Valid() && OnlyBanks() && banks == old(banks) && Abs() == old(Abs())
      ensures WakeIs(cfg, now, banks, childNext, wake)
    {
      var none;
      wake, none := NextIssuable(now, childNext, scheduled, []);
    }

    lemma RefreshIssueKeeps(r: nat, k: nat)
      requires Core() && r < cfg.ranks && k < cfg.banks
      requires banks[r][k].queue != [] && !banks[r][k].queue[0].issued && banks[r][k].queue[0].cmd.op.Refresh?
      ensures cfg.GroupOf(k) < cfg.groups && k == cfg.Head(cfg.GroupOf(k))
      ensures var g := cfg.GroupOf(k);
        BooksOk(cfg, Put(books, r, g, OnIssue(books[r][g], marked[r][g])), delayedRefreshCounter,
                Put(banks, r, k, IssueHead(banks[r][k])), Put(marked, r, g, false))
    {
      var g, b := cfg.GroupOf(k), banks[r][k];
      GroupOfIs(cfg, k);
      IssueHeadWaiting(b);
      assert Waiting(b) > 0;
      assert Balanced(books[r][g], delayedRefreshCounter[r][g], Waiting(b), marked[r][g]);
      forall x | 0 <= x < cfg.groups ensures cfg.Head(x) < cfg.banks && (cfg.Head(x) == k ==> x == g) {
        HeadFits(cfg, x);
        GroupRange(cfg, cfg.Head(x), x);
      }
      BooksOkPut(cfg, books, delayedRefreshCounter, banks, marked,
                 Put(books, r, g, OnIssue(books[r][g], marked[r][g])), delayedRefreshCounter,
                 Put(banks, r, k, IssueHead(b)), Put(marked, r, g, false), r, g);
    }

    lemma GroupSetFlagsOk2(r: nat, g: nat)
      requires Core() && r < cfg.ranks && g < cfg.groups
      ensures forall flags {:trigger GroupSet(cfg, refreshQueued, flags, r, g, false)} ::
        GroupSet(cfg, refreshQueued, flags, r, g, false) ==> FlagsOk(cfg, flags, Put(marked, r, g, false))
    {
      forall flags | GroupSet(cfg, refreshQueued, flags, r, g, false)
        ensures FlagsOk(cfg, flags, Put(marked, r, g, false))
      {
        GroupSetFlagsOk(cfg, refreshQueued, flags, marked, r, g, false);
      }
    }

    /** Clears the refreshQueued flags of the bank's group. The source asserts that each was set;
        `failures` in the group's books counts the times it was not. */
    method ResetRefreshQueued(bank: nat, rank: nat)
      requires cfg.Ok() && Grid(refreshQueued, cfg.ranks, cfg.banks) && bank < cfg.banks && rank < cfg.ranks
      modifies this`refreshQueued
      ensures GroupSet(cfg, old(refreshQueued), refreshQueued, rank, cfg.GroupOf(bank), false)
    {
      ghost var g := cfg.GroupOf(bank);
      GroupOfIs(cfg, bank);
      TimesIs(g, cfg.per);
      HeadFits(cfg, g);
      var bankHead := (bank / cfg.per) * cfg.per;
      forall k | 0 <= k < cfg.banks
        ensures cfg.GroupOf(k) == g <==> bankHead <= k < bankHead + cfg.per
      {
        GroupRange(cfg, k, g);
      }
      for i := 0 to cfg.per
        invariant Grid(refreshQueued, cfg.ranks, cfg.banks)
        invariant forall r, k | 0 <= r < cfg.ranks && 0 <= k < cfg.banks ::
          refreshQueued[r][k] == if r == rank && bankHead <= k < bankHead + i then false else old(refreshQueued)[r][k]
      {
        refreshQueued := Put(refreshQueued, rank, bankHead + i, false);
      }
    }

    /** One refresh pulse for the group of `bank`: counts it and flags the group when due. */
    method ProcessRefreshPulse(bank: nat, rank: nat, now: nat) returns (next: Action)
      requires Core() && bank < cfg.banks && rank < cfg.ranks
      modifies this`delayedRefreshCounter, this`bankNeedRefresh, this`books
      ensures Core() && cfg.GroupOf(bank) < cfg.groups
      ensures var g := cfg.GroupOf(bank);
        && delayedRefreshCounter == Put(old(delayedRefreshCounter), rank, g, old(delayedRefreshCounter)[rank][g] + 1)
        && books == Put(old(books), rank, g, OnPulse(old(books)[rank][g]))
        && next == EventQueues.Insert(PulseOf(cfg, rank, g), NextPulse(now, cfg.tREFI), 20)
    {
      ghost var g := cfg.GroupOf(bank);
      GroupOfIs(cfg, bank);
      HeadFits(cfg, g);
      next := EventQueues.Insert(PulseOf(cfg, rank, bank / cfg.per), now + cfg.tREFI, 20);
      var bankGroupId := bank / cfg.per;
      ghost var d0 := delayedRefreshCounter;
      ghost var k0: seq<seq<Books>> := books;
      assert Balanced(books[rank][g], d0[rank][g], Waiting(banks[rank][cfg.Head(g)]), marked[rank][g]);
      var count := delayedRefreshCounter[rank][bankGroupId] + 1;
      delayedRefreshCounter := Put(delayedRefreshCounter, rank, bankGroupId, count);
      books := Put(books, rank, g, OnPulse(books[rank][g]));
      if delayedRefreshCounter[rank][bankGroupId] >= cfg.threshold {
        TimesIs(g, cfg.per);
        SetNeed(rank, bankGroupId * cfg.per, true, g);
      }
      NeedOkAfterPulse(cfg, old(bankNeedRefresh), bankNeedRefresh, d0, rank, g);
      forall x | 0 <= x < cfg.groups ensures cfg.Head(x) < cfg.banks { HeadFits(cfg, x); }
      BooksOkPut(cfg, k0, d0, banks, marked, books, delayedRefreshCounter, banks, marked, rank, g);
    }

    /** A refresh pulse between callbacks: it is counted, a REFRESH is queued when the counter
        reaches the threshold, and afterwards no refresh is due: every counter is below the
        threshold and every bankNeedRefresh flag is clear. */
    method RefreshCallback(bank: nat, rank: nat, now: nat, childNext: Command -> nat, scheduled: nat -> bool)
        returns (acts: seq<Action>)
      requires Valid() && bank < cfg.banks && rank < cfg.ranks
      modifies this
      ensures Valid()
      ensures forall r, k | 0 <= r < cfg.ranks && 0 <= k < cfg.banks :: !bankNeedRefresh[r][k]
      ensures cfg.GroupOf(bank) < cfg.groups
      ensures forall r, g | 0 <= r < cfg.ranks && 0 <= g < cfg.groups ::
        books[r][g].pulses == old(books)[r][g].pulses + if r == rank && g == cfg.GroupOf(bank) then 1 else 0
      ensures devices == old(devices) && lastIssueCycle == old(lastIssueCycle) && curQueue == old(curQueue)
      ensures CleanupOrder.Callback(old(Abs()), PulseOf(cfg, rank, cfg.GroupOf(bank)), now, Abs(), acts)
      ensures acts != []
      ensures acts[0] == EventQueues.Insert(PulseOf(cfg, rank, cfg.GroupOf(bank)), NextPulse(now, cfg.tREFI), 20)
      ensures Wakes(now, scheduled, acts[1..])
      ensures banks == old(banks) || Covered(cfg, now, banks, childNext, scheduled, acts[1..])
    {
      var next := ProcessRefreshPulse(bank, rank, now);
      ghost var d1 := delayedRefreshCounter;
      ghost var k1: seq<seq<Books>> := books;
      var handled, wakes := HandleRefresh(now, childNext, scheduled, []);
      acts := [next] + wakes;
      PulseActs(now, scheduled, next, wakes, acts);
      if handled { CalmAfter(cfg, old(delayedRefreshCounter), d1, delayedRefreshCounter, rank, cfg.GroupOf(bank)); }
      NoneNeeded(cfg, bankNeedRefresh, delayedRefreshCounter);
      PulsesBooked(cfg, old(books), k1, books, rank, cfg.GroupOf(bank));
    }

    predicate NeedRefresh(bank: nat, rank: nat)
      requires cfg.Ok() && Grid(delayedRefreshCounter, cfg.ranks, cfg.groups) && bank < cfg.banks && rank < cfg.ranks
      reads this
    {
      GroupOfIs(cfg, bank);
      delayedRefreshCounter[rank][bank / cfg.per] >= cfg.threshold
    }

    /** Whether every queue of the bank's refresh group is empty or about to be. */
    method IsRefreshBankQueueEmpty(bank: nat, rank: nat) returns (empty: bool)
      requires cfg.Ok() && Grid(banks, cfg.ranks, cfg.banks) && bank < cfg.banks && rank < cfg.ranks
      ensures empty <==> forall k | 0 <= k < cfg.banks && cfg.GroupOf(k) == cfg.GroupOf(bank) ::
        EffectivelyEmpty(banks[rank][k].queue)
      ensures HeadsOnly(banks) ==>
        (empty <==> forall k | 0 <= k < cfg.banks && cfg.GroupOf(k) == cfg.GroupOf(bank) ::
          Unissued(banks[rank][k].queue) == [])
    {
      if HeadsOnly(banks) {
        forall k | 0 <= k < cfg.banks
          ensures EffectivelyEmpty(banks[rank][k].queue) <==> Unissued(banks[rank][k].queue) == []
        {
          EffectivelyEmptyIff(banks[rank][k].queue);
        }
      }
      ghost var g := cfg.GroupOf(bank);
      GroupOfIs(cfg, bank);
      TimesIs(g, cfg.per);
      HeadFits(cfg, g);
      var bankHead := (bank / cfg.per) * cfg.per;
      forall k | 0 <= k < cfg.banks
        ensures cfg.GroupOf(k) == g <==> bankHead <= k < bankHead + cfg.per
      {
        GroupRange(cfg, k, g);
      }
      for i := 0 to cfg.per
        invariant forall k | bankHead <= k < bankHead + i :: EffectivelyEmpty(banks[rank][k].queue)
      {
        if !EffectivelyEmpty(banks[rank][bankHead + i].queue) {
          assert cfg.GroupOf(bankHead + i) == g;
          return false;
        }
      }
      return true;
    }
  }

  /** The queue is empty or its only command has been issued. */
  predicate EffectivelyEmpty(q: seq<Entry>) {
    q == [] || (|q| == 1 && q[0].issued)
  }
}
