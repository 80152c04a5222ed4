/**
 The order in which command queues are scanned for an issuable head, and the numbering of the
 per-bank queues.
 */
module RoundRobin {
  import opened Arithmetic
  import opened RowShadow

  // ------------------------------------------------------------------ queue numbers

  /** `GetCommandQueueId` for per-bank queues: scheme 1 counts ranks first, scheme 2 banks first.
      Any other scheme leaves the number out of range and the controller stops. */
  function QueueId(scheme: nat, ranks: nat, banks: nat, rank: nat, bank: nat): nat {
    if scheme == 1 then Times(bank, ranks) + rank else Times(rank, banks) + bank
  }

  function RankOf(scheme: nat, ranks: nat, banks: nat, id: nat): nat
    requires 0 < ranks && 0 < banks
  {
    if scheme == 1 then id % ranks else id / banks
  }

  function BankOf(scheme: nat, ranks: nat, banks: nat, id: nat): nat
    requires 0 < ranks && 0 < banks
  {
    if scheme == 1 then id / ranks else id % banks
  }

  lemma MixedDigits(hi: nat, lo: nat, base: nat, top: nat)
    requires lo < base && hi < top
    ensures (hi * base + lo) / base == hi && (hi * base + lo) % base == lo
    ensures hi * base + lo < top * base
  {
    var v := hi * base + lo;
    DigitsUnique(v / base, v % base, hi, lo, base);
    assert (hi + 1) * base <= top * base by { MulLe(hi + 1, top, base); }
  }

  /** Queue numbers and (rank, bank) pairs correspond one to one. */
  lemma QueueIdBijective(scheme: nat, ranks: nat, banks: nat, rank: nat, bank: nat, id: nat)
    requires 0 < ranks && 0 < banks && rank < ranks && bank < banks
    ensures QueueId(scheme, ranks, banks, rank, bank) < ranks * banks
    ensures RankOf(scheme, ranks, banks, QueueId(scheme, ranks, banks, rank, bank)) == rank
    ensures BankOf(scheme, ranks, banks, QueueId(scheme, ranks, banks, rank, bank)) == bank
    ensures id < ranks * banks ==>
      && RankOf(scheme, ranks, banks, id) < ranks && BankOf(scheme, ranks, banks, id) < banks
      && QueueId(scheme, ranks, banks, RankOf(scheme, ranks, banks, id), BankOf(scheme, ranks, banks, id)) == id
  {
    if scheme == 1 {
      TwoDigits(bank, rank, ranks, banks, id);
    } else {
      TwoDigits(rank, bank, banks, ranks, id);
    }
  }

  /** Scheme 1 numbers the ranks of a bank in a row, scheme 2 the banks of a rank. */
  lemma NextQueue(ranks: nat, banks: nat, rank: nat, bank: nat)
    ensures QueueId(1, ranks, banks, rank + 1, bank) == QueueId(1, ranks, banks, rank, bank) + 1
    ensures QueueId(1, ranks, banks, rank, bank + 1) == QueueId(1, ranks, banks, rank, bank) + ranks
    ensures QueueId(2, ranks, banks, rank, bank + 1) == QueueId(2, ranks, banks, rank, bank) + 1
    ensures QueueId(2, ranks, banks, rank + 1, bank) == QueueId(2, ranks, banks, rank, bank) + banks
  {
  }

  lemma TwoDigits(hi: nat, lo: nat, base: nat, top: nat, id: nat)
    requires lo < base && hi < top
    ensures Times(hi, base) + lo < top * base == base * top
    ensures (Times(hi, base) + lo) / base == hi && (Times(hi, base) + lo) % base == lo
    ensures id < top * base ==> id / base < top && id % base < base && Times(id / base, base) + id % base == id
  {
    TimesIs(hi, base);
    MixedDigits(hi, lo, base, top);
    if id < top * base {
      QuotientBound(id, base, top);
      Division(id, base);
      TimesIs(id / base, base);
    }
  }

  // ------------------------------------------------------------------ scanning

  /** The queue looked at in step `k` of a scan that starts at `cur`. */
  function Scan(cur: nat, k: nat, n: nat): nat
    requires 0 < n
  {
    (cur + k) % n
  }

  /** The step in which a scan reaches queue `q`. */
  function Offset(cur: nat, q: nat, n: nat): nat
    requires 0 < n && q < n
  {
    if cur % n <= q then q - cur % n else q + n - cur % n
  }

  lemma ModSmall(a: nat, n: nat)
    requires 0 < n && a < 2 * n
    ensures a % n == if a < n then a else a - n
  {
    if a >= n {
      assert a == 1 * n + (a - n);
      DigitsUnique(a / n, a % n, 1, a - n, n);
    } else {
      DigitsUnique(a / n, a % n, 0, a, n);
    }
  }

  lemma ModShift(a: nat, k: nat, n: nat)
    requires 0 < n
    ensures (a + k) % n == (a % n + k) % n
  {
    var qa, ra := a / n, a % n;
    var qr, rr := (ra + k) / n, (ra + k) % n;
    var qx, rx := (a + k) / n, (a + k) % n;
    Distribute(qa, qr, n);
    DigitsUnique(qx, rx, qa + qr, rr, n);
  }

  lemma Distribute(a: nat, b: nat, n: nat)
    ensures (a + b) * n == a * n + b * n
  {
  }

  /** A scan of `n` steps visits every queue, and each only once. */
  lemma ScanVisitsAll(cur: nat, q: nat, k: nat, n: nat)
    requires 0 < n && q < n && k < n
    ensures Offset(cur, q, n) < n
    ensures Scan(cur, k, n) == q <==> k == Offset(cur, q, n)
  {
    ModShift(cur, k, n);
    ModSmall(cur % n + k, n);
  }

  /** `MoveCurrentQueue`: the counter runs over 0..n, one more value than there are queues. */
  function Move(cur: nat, n: nat): nat {
    if cur + 1 > n then 0 else cur + 1
  }

  function Moves(cur: nat, k: nat, n: nat): nat {
    if k == 0 then cur else Move(Moves(cur, k - 1, n), n)
  }

  /** The counter runs through all n + 1 values in turn. */
  lemma {:induction false} MovesRound(cur: nat, k: nat, n: nat)
    requires cur <= n
    ensures Moves(cur, k, n) == Scan(cur, k, n + 1)
    decreases k
  {
    if k == 0 {
      ModSmall(cur, n + 1);
    } else {
      MovesRound(cur, k - 1, n);
      ModShift(cur + k - 1, 1, n + 1);
      ModSmall((cur + k - 1) % (n + 1) + 1, n + 1);
    }
  }

  /** The queue a scan issues from: the first whose head is issuable. */
  function Pick(ready: seq<bool>, cur: nat): (r: Option<nat>)
    requires ready != []
    ensures r.Some? ==> r.value < |ready| && ready[r.value]
  {
    PickFrom(ready, cur, 0)
  }

  function PickFrom(ready: seq<bool>, cur: nat, k: nat): (r: Option<nat>)
    requires ready != [] && k <= |ready|
    ensures r.Some? ==> r.value < |ready| && ready[r.value]
    decreases |ready| - k
  {
    if k == |ready| then None
    else if ready[Scan(cur, k, |ready|)] then Some(Scan(cur, k, |ready|))
    else PickFrom(ready, cur, k + 1)
  }

  lemma {:induction false} PickFromMisses(ready: seq<bool>, cur: nat, k: nat)
    requires ready != [] && k <= |ready| && PickFrom(ready, cur, k) == None
    ensures forall j | k <= j < |ready| :: !ready[Scan(cur, j, |ready|)]
    decreases |ready| - k
  {
    if k < |ready| {
      PickFromMisses(ready, cur, k + 1);
    }
  }

  /** Nothing is issued only when no head is issuable. */
  lemma PickComplete(ready: seq<bool>, cur: nat)
    requires ready != []
    ensures Pick(ready, cur) == None <==> forall q | 0 <= q < |ready| :: !ready[q]
  {
    if Pick(ready, cur) == None {
      PickFromMisses(ready, cur, 0);
      forall q | 0 <= q < |ready| ensures !ready[q] {
        ScanVisitsAll(cur, q, 0, |ready|);
        ScanVisitsAll(cur, q, Offset(cur, q, |ready|), |ready|);
      }
    }
  }

  // ------------------------------------------------------------------ bounded waiting

  /** The queues issued from over consecutive issue slots. */
  function Picks(slots: seq<seq<bool>>, cur: nat, n: nat): (r: seq<Option<nat>>)
    requires 0 < n && forall i | 0 <= i < |slots| :: |slots[i]| == n
    ensures |r| == |slots|
  {
    if slots == [] then []
    else
      var pick := Pick(slots[0], cur);
      [pick] + Picks(slots[1..], if pick.Some? then Move(cur, n) else cur, n)
  }

  /** How many issues bring the start of the scan to queue `q`. */
  function Distance(cur: nat, q: nat, n: nat): int {
    if cur <= q then q - cur else n - cur + 1 + q
  }

  /** A queue whose head is issuable in every slot is served within `Distance` other issues. */
  lemma {:induction false} ServedInTime(slots: seq<seq<bool>>, cur: nat, q: nat, n: nat)
    requires 0 < n && q < n && cur <= n
    requires forall i | 0 <= i < |slots| :: |slots[i]| == n && slots[i][q]
    requires Some(q) !in Picks(slots, cur, n)
    ensures |slots| <= Distance(cur, q, n) <= n
  {
    if slots != [] {
      var pick := Pick(slots[0], cur);
      PickComplete(slots[0], cur);
      assert Picks(slots, cur, n)[0] == pick;
      ModSmall(cur, n);
      ServedInTime(slots[1..], Move(cur, n), q, n);
    }
  }

  /** Bounded waiting: at most `n` commands of other queues go before its own, although the scan
      start takes n + 1 values. */
  lemma BoundedWaiting(slots: seq<seq<bool>>, cur: nat, q: nat, n: nat)
    requires 0 < n && q < n && cur <= n && |slots| > n
    requires forall i | 0 <= i < |slots| :: |slots[i]| == n && slots[i][q]
    ensures exists t | 0 <= t <= n :: Picks(slots, cur, n)[t] == Some(q)
  {
    var w := slots[..n + 1];
    PicksPrefix(slots, cur, n, n + 1);
    if Some(q) !in Picks(w, cur, n) {
      ServedInTime(w, cur, q, n);
    }
    var t :| 0 <= t < |Picks(w, cur, n)| && Picks(w, cur, n)[t] == Some(q);
    assert Picks(slots, cur, n)[t] == Some(q);
  }

  lemma {:induction false} PicksPrefix(slots: seq<seq<bool>>, cur: nat, n: nat, k: nat)
    requires 0 < n && k <= |slots| && forall i | 0 <= i < |slots| :: |slots[i]| == n
    ensures Picks(slots[..k], cur, n) == Picks(slots, cur, n)[..k]
    decreases slots
  {
    if k > 0 {
      var pick := Pick(slots[0], cur);
      assert slots[..k][1..] == slots[1..][..k - 1];
      PicksPrefix(slots[1..], if pick.Some? then Move(cur, n) else cur, n, k - 1);
    }
  }
}
