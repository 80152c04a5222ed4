/**
 A bank seen from one of its subarrays: in every run of a bank each subarray goes through a run of its
 own, of the commands that the bank passes on to it. What holds of every run of a subarray therefore
 holds inside a bank.
 */
module BankProjection {
  import opened SubArrayTiming
  import BankTiming
  import BankSeparation
  import Acceptance

  type Bank = BankTiming.Bank
  type Proposal = BankTiming.Proposal

  /** What an accepted command passes on to subarray `sa`; PRECHARGE_ALL precharges the active ones. */
  function Sent(b: Bank, o: Proposal, sa: nat): seq<Offer> {
    match o.cmd
    case ToSub(x, c) => if x == sa then [Offer(o.cycle, c)] else []
    case PreAll => if sa in b.active then [Offer(o.cycle, Pre)] else []
    case PowerDown(_) => []
    case PowerUp => []
  }

  ghost function Passed(p: Timing, b: Bank, o: Proposal, sa: nat): seq<Offer>
    requires p.Ok()
  {
    if BankTiming.Took(p, b, o) then Sent(b, o, sa) else []
  }

  /** The commands passed on to subarray `sa` by the first `k` offers of a run. */
  ghost function Offers(p: Timing, os: seq<Proposal>, bs: seq<Bank>, sa: nat, k: nat): seq<Offer>
    requires p.Ok() && |bs| == |os| + 1 && k <= |os|
  {
    Flat(Parts(p, os, bs, sa), k)
  }

  ghost function Parts(p: Timing, os: seq<Proposal>, bs: seq<Bank>, sa: nat): (parts: seq<seq<Offer>>)
    requires p.Ok() && |bs| == |os| + 1
    ensures |parts| == |os|
    ensures forall i {:trigger parts[i]} | 0 <= i < |os| :: parts[i] == Passed(p, bs[i], os[i], sa)
  {
    seq(|os|, i requires 0 <= i < |os| && p.Ok() && |bs| == |os| + 1 => Passed(p, bs[i], os[i], sa))
  }

  /** The first `k` parts, one after the other. */
  function Flat(parts: seq<seq<Offer>>, k: nat): seq<Offer>
    requires k <= |parts|
  {
    if k == 0 then [] else Flat(parts, k - 1) + parts[k - 1]
  }

  lemma {:induction false} FlatPrefix(parts: seq<seq<Offer>>, i: nat, k: nat)
    requires i <= k <= |parts|
    ensures Flat(parts, i) <= Flat(parts, k)
    decreases k
  {
    if i < k { FlatPrefix(parts, i, k - 1); }
  }

  lemma FlatAt(parts: seq<seq<Offer>>, i: nat, j: nat)
    requires i < j < |parts| && |parts[i]| == 1 && |parts[j]| == 1
    ensures
      var l, x, y := Flat(parts, j + 1), |Flat(parts, i)|, |Flat(parts, j)|;
      x < y < |l| && l[x] == parts[i][0] && l[y] == parts[j][0]
  {
    FlatPrefix(parts, i + 1, j);
    var m := Flat(parts, i + 1);
    assert m[|Flat(parts, i)|] == parts[i][0];
    assert m <= Flat(parts, j) <= Flat(parts, j + 1);
  }

  // ------------------------------------------------------------------ runs of a subarray

  lemma FireTwice(p: Timing, s: Sub, a: nat, b: nat)
    requires a <= b
    ensures Fire(p, Fire(p, s, a), b) == Fire(p, s, b)
  {
  }

  lemma {:induction false} AfterPrefix(p: Timing, a: seq<Offer>, b: seq<Offer>, k: nat)
    requires p.Ok() && k <= |a|
    ensures After(p, a + b, k) == After(p, a, k)
    decreases k
  {
    if k > 0 { AfterPrefix(p, a, b, k - 1); }
  }

  /** The first `k` offers are accepted. */
  ghost predicate AllAccepted(p: Timing, l: seq<Offer>, k: nat)
    requires p.Ok() && k <= |l|
  {
    k == 0 || (AllAccepted(p, l, k - 1) && Accepted(p, l, k - 1))
  }

  lemma {:induction false} AllAcceptedAt(p: Timing, l: seq<Offer>, k: nat, i: nat)
    requires p.Ok() && i < k <= |l| && AllAccepted(p, l, k)
    ensures Accepted(p, l, i)
    decreases k
  {
    if i < k - 1 { AllAcceptedAt(p, l, k - 1, i); }
  }

  lemma {:induction false} AllAcceptedPrefix(p: Timing, a: seq<Offer>, b: seq<Offer>, k: nat)
    requires p.Ok() && k <= |a| && AllAccepted(p, a, k)
    ensures AllAccepted(p, a + b, k)
    decreases k
  {
    if k > 0 {
      AllAcceptedPrefix(p, a, b, k - 1);
      AcceptedPrefix(p, a, b, k - 1);
    }
  }

  lemma AcceptedPrefix(p: Timing, a: seq<Offer>, b: seq<Offer>, k: nat)
    requires p.Ok() && k < |a|
    ensures Accepted(p, a + b, k) == Accepted(p, a, k)
  {
    AfterPrefix(p, a, b, k);
  }

  /** A run of accepted commands and one more. */
  lemma OneMore(p: Timing, l: seq<Offer>, l': seq<Offer>, o: Offer)
    requires p.Ok() && AllAccepted(p, l, |l|) && l' == l + [o] && Taken(p, After(p, l, |l|), o)
    ensures AllAccepted(p, l', |l'|) && After(p, l', |l'|) == Step(p, After(p, l, |l|), o)
  {
    AtTheEnd(p, l, l', o);
    AllAcceptedPrefix(p, l, [o], |l|);
  }

  lemma AtTheEnd(p: Timing, l: seq<Offer>, l': seq<Offer>, o: Offer)
    requires p.Ok() && l' == l + [o]
    ensures Accepted(p, l', |l|) == Taken(p, After(p, l, |l|), o)
    ensures After(p, l', |l'|) == Step(p, After(p, l, |l|), o)
  {
    AfterPrefix(p, l, [o], |l|);
    assert l'[|l|] == o;
  }

  /** Subarray `s` is, but for responses that are due, where a run of the accepted commands `l` ends. */
  ghost predicate Follows(p: Timing, s: Sub, l: seq<Offer>, now: nat)
    requires p.Ok()
  {
    && Ordered(l) && (forall i | 0 <= i < |l| :: l[i].cycle <= now) && AllAccepted(p, l, |l|)
    && Fire(p, s, now) == Fire(p, After(p, l, |l|), now)
  }

  lemma FollowsLater(p: Timing, s: Sub, l: seq<Offer>, before: nat, now: nat)
    requires p.Ok() && Follows(p, s, l, before) && before <= now
    ensures Follows(p, s, l, now) && Follows(p, Fire(p, s, now), l, now)
  {
    var e := After(p, l, |l|);
    FireTwice(p, s, before, now);
    FireTwice(p, e, before, now);
    FireTwice(p, s, now, now);
  }

  /** A subarray that takes a command goes on with its run. */
  lemma FollowsTaken(p: Timing, s: Sub, l: seq<Offer>, o: Offer)
    requires p.Ok() && Follows(p, s, l, o.cycle) && Sane(o.cmd)
    requires Issuable(Fire(p, s, o.cycle), o.cycle, o.cmd)
    ensures Follows(p, Accept(p, Fire(p, s, o.cycle), o.cycle, o.cmd), l + [o], o.cycle)
  {
    OneMore(p, l, l + [o], o);
  }

  // ------------------------------------------------------------------ one command to the bank

  lemma {:induction false} CloseListedAt(p: Timing, subs: seq<Sub>, q: seq<nat>, now: nat, sa: nat)
    requires p.Ok() && BankTiming.NoDuplicates(q) && (forall i | 0 <= i < |q| :: q[i] < |subs|) && sa < |subs|
    requires forall i | 0 <= i < |q| :: Issuable(subs[q[i]], now, Pre)
    ensures BankTiming.CloseListed(p, subs, q, now).0[sa] ==
      if sa in q then Accept(p, subs[sa], now, Pre) else subs[sa]
    decreases |q|
  {
    if q != [] {
      var rest := q[1..];
      assert forall i | 0 <= i < |rest| :: rest[i] == q[i + 1] && q[i + 1] != q[0];
      assert sa in q <==> sa == q[0] || sa in rest;
      CloseListedAt(p, subs[q[0] := Accept(p, subs[q[0]], now, Pre)], rest, now, sa);
    }
  }

  /** The subarray takes what it is sent, and nothing else happens to it. */
  lemma SentIsTaken(p: Timing, f: Bank, o: Proposal, sa: nat)
    requires p.Ok() && BankTiming.BankOk(p, f) && BankTiming.Fits(f, o.cmd) && sa < |f.subs|
    requires BankTiming.MayIssue(f, o.cycle, o.cmd)
    requires forall i | 0 <= i < |f.subs| :: BankTiming.Fired(f.subs[i], o.cycle)
    ensures
      var s, b', sent := f.subs[sa], BankTiming.Issue(p, f, o.cycle, o.cmd).0, Sent(f, o, sa);
      && |b'.subs| == |f.subs|
      && if sent == [] then b'.subs[sa] == s
         else
           && |sent| == 1 && Sane(sent[0].cmd) && Issuable(s, o.cycle, sent[0].cmd)
           && b'.subs[sa] == Accept(p, s, o.cycle, sent[0].cmd)
  {
    BankTiming.IssuableIsTrusted(p, f, o.cycle, o.cmd);
    if o.cmd.PreAll? {
      CloseListedAt(p, f.subs, f.active, o.cycle, sa);
      if sa in f.active {
        var i :| 0 <= i < |f.active| && f.active[i] == sa;
        assert Issuable(f.subs[f.active[i]], o.cycle, Pre);
      }
    }
  }

  lemma ProjectStep(p: Timing, b: Bank, o: Proposal, b': Bank, sa: nat, l: seq<Offer>, before: nat)
    requires p.Ok() && BankTiming.BankOk(p, b) && BankTiming.Next(p, b, o, b') && sa < |b.subs|
    requires Follows(p, b.subs[sa], l, before) && before <= o.cycle
    ensures |b'.subs| == |b.subs| && Follows(p, b'.subs[sa], l + Passed(p, b, o, sa), o.cycle)
  {
    var f := BankTiming.FireAll(p, b, o.cycle);
    var s := b.subs[sa];
    assert f.subs[sa] == Fire(p, s, o.cycle);
    FollowsLater(p, s, l, before, o.cycle);
    BankTiming.FireAllOk(p, b, o.cycle);
    BankSeparation.NextFacts(p, b, o, b');
    assert l + [] == l;
    if BankTiming.Took(p, b, o) {
      SentIsTaken(p, f, o, sa);
      assert Sent(f, o, sa) == Sent(b, o, sa);
      if Sent(b, o, sa) != [] {
        assert Sent(b, o, sa) == [Sent(b, o, sa)[0]];
        FollowsTaken(p, s, l, Sent(b, o, sa)[0]);
      }
    }
  }

  // ------------------------------------------------------------------ whole runs

  ghost function Clock(os: seq<Proposal>, k: nat): nat
    requires k <= |os|
  {
    if k == 0 then 0 else os[k - 1].cycle
  }

  /** Every subarray of a bank goes through a run of its own. */
  lemma {:induction false} SubarrayRuns(p: Timing, n: nat, initPD: bool, os: seq<Proposal>, bs: seq<Bank>, sa: nat,
                                        k: nat)
    requires p.Ok() && BankTiming.Run(p, n, initPD, os, bs) && sa < n && k < |bs|
    ensures |bs[k].subs| == n && Follows(p, bs[k].subs[sa], Offers(p, os, bs, sa, k), Clock(os, k))
    decreases k
  {
    if k > 0 {
      SubarrayRuns(p, n, initPD, os, bs, sa, k - 1);
      BankTiming.RunStep(p, n, initPD, os, bs, k - 1);
      ProjectStep(p, bs[k - 1], os[k - 1], bs[k], sa, Offers(p, os, bs, sa, k - 1), Clock(os, k - 1));
      assert Parts(p, os, bs, sa)[k - 1] == Passed(p, bs[k - 1], os[k - 1], sa);
    }
  }

  /** Timing safety inside a bank: two accepted commands that reach the same subarray, PRECHARGE_ALL
      among them, are separated by the subarray's interval for the pair, whatever the bank accepts for
      others in between. */
  lemma SubarraysKeepApart(p: Timing, n: nat, initPD: bool, os: seq<Proposal>, bs: seq<Bank>, sa: nat, i: nat, c: Cmd,
                           j: nat, d: Cmd)
    requires p.Ok() && BankTiming.Run(p, n, initPD, os, bs) && sa < n && i < j < |os|
    requires Passed(p, bs[i], os[i], sa) == [Offer(os[i].cycle, c)]
    requires Passed(p, bs[j], os[j], sa) == [Offer(os[j].cycle, d)]
    ensures os[j].cycle >= os[i].cycle + Gap(p, c, d)
  {
    AcceptsAll(p, n, initPD, os, bs, sa, j + 1);
    PartsApart(p, Parts(p, os, bs, sa), i, Offer(os[i].cycle, c), j, Offer(os[j].cycle, d));
  }

  lemma AcceptsAll(p: Timing, n: nat, initPD: bool, os: seq<Proposal>, bs: seq<Bank>, sa: nat, k: nat)
    requires p.Ok() && BankTiming.Run(p, n, initPD, os, bs) && sa < n && k < |bs|
    ensures
      var l := Flat(Parts(p, os, bs, sa), k);
      Ordered(l) && AllAccepted(p, l, |l|)
  {
    SubarrayRuns(p, n, initPD, os, bs, sa, k);
  }

  lemma PartsApart(p: Timing, parts: seq<seq<Offer>>, i: nat, x: Offer, j: nat, y: Offer)
    requires p.Ok() && i < j < |parts| && parts[i] == [x] && parts[j] == [y]
    requires Ordered(Flat(parts, j + 1)) && AllAccepted(p, Flat(parts, j + 1), |Flat(parts, j + 1)|)
    ensures y.cycle >= x.cycle + Gap(p, x.cmd, y.cmd)
  {
    FlatAt(parts, i, j);
    RunApart(p, Flat(parts, j + 1), |Flat(parts, i)|, |Flat(parts, j)|);
  }

  lemma RunApart(p: Timing, l: seq<Offer>, x: nat, y: nat)
    requires p.Ok() && Ordered(l) && AllAccepted(p, l, |l|) && x < y < |l|
    ensures l[y].cycle >= l[x].cycle + Gap(p, l[x].cmd, l[y].cmd)
  {
    AllAcceptedAt(p, l, |l|, x);
    AllAcceptedAt(p, l, |l|, y);
    TimingSafety(p, l, x, y);
  }

  lemma FollowsAccepts(p: Timing, s: Sub, l: seq<Offer>, l': seq<Offer>, before: nat, now: nat, c: Cmd)
    requires p.Ok() && Follows(p, s, l, before) && before <= now && Sane(c) && l' == l + [Offer(now, c)]
    ensures Issuable(Fire(p, s, now), now, c) <==>
      Acceptance.Apart(p, l', |l|, c, now) && Acceptance.Finds(p, l', |l|, c, now)
  {
    FollowsLater(p, s, l, before, now);
    AtTheEnd(p, l, l', Offer(now, c));
    assert l'[|l|] == Offer(now, c);
    Acceptance.AcceptedIff(p, l', |l|);
  }

  /** Exactly which commands to a subarray a bank accepts: the bank's own test passes, every command that
      reached the subarray is its interval back, and the command finds the row it needs. */
  lemma BankAcceptsIff(p: Timing, n: nat, initPD: bool, os: seq<Proposal>, bs: seq<Bank>, sa: nat, k: nat, now: nat,
                       c: Cmd)
    requires p.Ok() && BankTiming.Run(p, n, initPD, os, bs) && sa < n && k < |bs| && Clock(os, k) <= now && Sane(c)
    ensures
      var l := Offers(p, os, bs, sa, k) + [Offer(now, c)];
      BankTiming.Took(p, bs[k], BankTiming.Proposal(now, BankTiming.ToSub(sa, c))) <==>
        && BankTiming.BankMay(bs[k], now, c)
        && Acceptance.Apart(p, l, |l| - 1, c, now) && Acceptance.Finds(p, l, |l| - 1, c, now)
  {
    var l := Offers(p, os, bs, sa, k);
    var o := BankTiming.Proposal(now, BankTiming.ToSub(sa, c));
    SubarrayRuns(p, n, initPD, os, bs, sa, k);
    FollowsAccepts(p, bs[k].subs[sa], l, l + [Offer(now, c)], Clock(os, k), now, c);
    TookIsMay(p, n, initPD, os, bs, k, o);
    MayIssueSplits(p, bs[k], now, sa, c);
  }

  lemma TookIsMay(p: Timing, n: nat, initPD: bool, os: seq<Proposal>, bs: seq<Bank>, k: nat, o: Proposal)
    requires p.Ok() && BankTiming.Run(p, n, initPD, os, bs) && k < |bs| && BankTiming.Fits(bs[k], o.cmd)
    ensures BankTiming.BankOk(p, bs[k])
    ensures BankTiming.Took(p, bs[k], o) <==>
      BankTiming.MayIssue(BankTiming.FireAll(p, bs[k], o.cycle), o.cycle, o.cmd)
  {
    BankTiming.RunTrusted(p, n, initPD, os, bs, k);
  }

  lemma MayIssueSplits(p: Timing, b: Bank, now: nat, sa: nat, c: Cmd)
    requires BankTiming.BankOk(p, b) && sa < |b.subs| && Sane(c)
    ensures BankTiming.MayIssue(BankTiming.FireAll(p, b, now), now, BankTiming.ToSub(sa, c)) <==>
      BankTiming.BankMay(b, now, c) && Issuable(Fire(p, b.subs[sa], now), now, c)
  {
    BankTiming.FireAllOk(p, b, now);
  }
}
