/**
 The memory controller: transactions are searched and expanded into commands, refresh pulses
 are counted and turned into REFRESH commands, and one command per cycle is issued round-robin.
 Arrays indexed [rank][bank] in the source are sequences of sequences; a bank's shadow and its
 command queue are one `Bank` value.
 */
module ControllerConfig {
  import opened Arithmetic
  import opened RowShadow
  import opened RoundRobin
  import opened RefreshGroups

  datatype Config = Config(
    p: Params,
    ranks: nat, banks: nat, subs: nat,
    scheme: nat,        // ScheduleScheme: 1 or 2
    closePage: nat,     // ClosePage: 0 open page, 1 relaxed, otherwise restricted
    per: nat,           // BanksPerRefresh
    groups: nat,        // BANKS / BanksPerRefresh
    threshold: nat,     // DelayedRefreshThreshold
    starved: nat,       // starvationThreshold
    tREFI: nat)         // the interval between two refresh pulses of a group
  {
    predicate Ok() {
      && 0 < ranks && 0 < banks && 0 < subs && 0 < p.rbSize && p.usePrecharge
      && (scheme == 1 || scheme == 2)
      && 0 < per && 0 < groups && banks == Times(groups, per)
      && 1 <= threshold
    }

    /** The first bank of a refresh group. */
    function Head(g: nat): nat { Times(g, per) }

    /** The number of the queue of a bank (`GetCommandQueueId`). */
    function Id(rank: nat, bank: nat): nat {
      QueueId(scheme, ranks, banks, rank, bank)
    }

    /** The number of command queues. */
    function Queues(): nat { Times(ranks, banks) }

    /** The refresh group of a bank. */
    function GroupOf(k: nat): nat
      requires 0 < per
    {
      if k < per then 0 else 1 + GroupOf(k - per)
    }
  }

  lemma HeadFits(c: Config, g: nat)
    requires c.Ok() && g < c.groups
    ensures c.Head(g) + c.per <= c.banks
  {
    TimesIs(g, c.per);
    TimesIs(c.groups, c.per);
    Distribute(g, 1, c.per);
    MulLe(g + 1, c.groups, c.per);
  }

  /** The banks of a group are the `per` banks from its head on. */
  lemma {:induction false} GroupRange(c: Config, k: nat, g: nat)
    requires 0 < c.per
    ensures c.GroupOf(k) == g <==> c.Head(g) <= k < c.Head(g) + c.per
  {
    if k >= c.per && g > 0 {
      GroupRange(c, k - c.per, g - 1);
    } else if g > 0 {
      TimesIs(g, c.per);
      MulLe(1, g, c.per);
    }
  }

  lemma GroupOfIs(c: Config, k: nat)
    requires c.Ok() && k < c.banks
    ensures c.GroupOf(k) == k / c.per < c.groups
  {
    var g := k / c.per;
    TimesIs(g, c.per);
    TimesIs(c.groups, c.per);
    GroupRange(c, k, g);
    QuotientBound(k, c.per, c.groups);
  }

  /** The bank behind a queue number. */
  lemma Locate(c: Config, q: nat, r: nat, k: nat)
    requires c.Ok() && q < c.Queues() && r < c.ranks && k < c.banks
    ensures RankOf(c.scheme, c.ranks, c.banks, q) < c.ranks && BankOf(c.scheme, c.ranks, c.banks, q) < c.banks
    ensures c.Id(r, k) == q <==>
      r == RankOf(c.scheme, c.ranks, c.banks, q) && k == BankOf(c.scheme, c.ranks, c.banks, q)
    ensures c.Id(r, k) < c.Queues()
  {
    TimesIs(c.ranks, c.banks);
    QueueIdBijective(c.scheme, c.ranks, c.banks, r, k, q);
  }

  // ------------------------------------------------------------------ grids

  ghost predicate Grid<T>(g: seq<seq<T>>, rows: nat, cols: nat) {
    |g| == rows && forall r | 0 <= r < rows :: |g[r]| == cols
  }

  function Put<T>(g: seq<seq<T>>, r: nat, k: nat, v: T): (h: seq<seq<T>>)
    requires r < |g| && k < |g[r]|
    ensures |h| == |g| && (forall i {:trigger h[i]} | 0 <= i < |g| :: |h[i]| == |g[i]|)
    ensures forall i, j {:trigger h[i][j]} | 0 <= i < |g| && 0 <= j < |g[i]| ::
      h[i][j] == if i == r && j == k then v else g[i][j]
  {
    g[r := g[r][k := v]]
  }

  function RowSum(s: seq<nat>): nat {
    if s == [] then 0 else s[0] + RowSum(s[1..])
  }

  function GridSum(g: seq<seq<nat>>): nat {
    if g == [] then 0 else RowSum(g[0]) + GridSum(g[1..])
  }

  lemma {:induction false} RowSumPut(s: seq<nat>, k: nat, v: nat)
    requires k < |s|
    ensures RowSum(s[k := v]) == RowSum(s) - s[k] + v
  {
    if k > 0 {
      assert s[k := v][1..] == s[1..][k - 1 := v];
      RowSumPut(s[1..], k - 1, v);
    }
  }

  lemma {:induction false} GridSumPut(g: seq<seq<nat>>, r: nat, k: nat, v: nat)
    requires r < |g| && k < |g[r]|
    ensures GridSum(Put(g, r, k, v)) == GridSum(g) - g[r][k] + v
  {
    var h := Put(g, r, k, v);
    if r == 0 {
      RowSumPut(g[0], k, v);
      assert h[1..] == g[1..];
    } else {
      assert h[1..] == Put(g[1..], r - 1, k, v);
      GridSumPut(g[1..], r - 1, k, v);
    }
  }
}
