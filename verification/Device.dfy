/**
 The subarray and bank objects. Each method is proved against the timing automata of
 `SubArrayTiming` and `BankTiming`.
 */
module Devices {
  import opened SubArrayTiming
  import BankTiming

  class SubArray {
    const p: Timing
    var state: RowState
    var openRow: nat
    var nextActivate: nat
    var nextPrecharge: nat
    var nextRead: nat
    var nextWrite: nat
    var nextPowerDown: nat
    var writeDone: nat
    var due: Due            // the response this subarray has scheduled for itself

    function View(): Sub
      reads this
    {
      Sub(state, openRow, nextActivate, nextPrecharge, nextRead, nextWrite, nextPowerDown, writeDone, due)
    }

    constructor (p: Timing)
      ensures View() == FRESH && this.p == p
    {
      this.p := p;
      state, openRow, due, writeDone := Closed, 0, Nothing, 0;
      nextActivate, nextPrecharge, nextRead, nextWrite, nextPowerDown := 0, 0, 0, 0, 0;
    }

    /** Runs the responses due: the start of an implicit precharge, the end of a precharge or refresh. */
    method RequestComplete(now: nat)
      modifies this
      ensures View() == Fire(p, old(View()), now)
    {
      if due.PrechargesAt? && due.cycle <= now {
        state := Precharging;
        due := ClosesAt(due.cycle + p.tRP);
      }
      if due.ClosesAt? && due.cycle <= now {
        state := Closed;
        openRow := p.rows;
        due := Nothing;
      }
    }

    method Activate(now: nat, row: nat) returns (ok: bool)
      requires p.Ok()
      modifies this
      ensures ok <==> old(Issuable(View(), now, Act(row)))
      ensures View() == if ok then Accept(p, old(View()), now, Act(row)) else old(View())
    {
      if nextActivate > now || state != Closed {
        return false;
      }
      nextPrecharge := Max(nextPrecharge, now + Max(p.tRCD, p.tRAS));
      nextRead := Max(nextRead, now + p.tRCD - p.tAL);
      nextWrite := Max(nextWrite, now + p.tRCD - p.tAL);
      nextPowerDown := Max(nextPowerDown, now + Max(p.tRCD, p.tRAS));
      openRow, state := row, Open;
      return true;
    }

    method Read(now: nat, c: Cmd) returns (ok: bool)
      requires p.Ok() && c.Rd? && Sane(c)
      modifies this
      ensures ok <==> old(Issuable(View(), now, c))
      ensures View() == if ok then Accept(p, old(View()), now, c) else old(View())
    {
      if nextRead > now || state != Open || c.row != openRow {
        return false;
      }
      if c.auto {
        CloseLater(now + Extra(p, c.burst) + p.tAL + p.tRTP + c.lat);
      } else {
        nextPrecharge := Max(nextPrecharge, now + Extra(p, c.burst) + p.tAL + p.tBURST + p.tRTP - p.tCCD + c.lat);
        nextRead := Max(nextRead, now + Bursts(p, c.burst));
        nextWrite := Max(nextWrite, now + Extra(p, c.burst) + p.tCAS + p.tBURST + p.tRTRS - p.tCWD + c.lat);
      }
      nextPowerDown := Max(nextPowerDown, now + Extra(p, c.burst) + p.tCAS + p.tAL + p.tBURST + 1 + c.lat);
      return true;
    }

    method Write(now: nat, c: Cmd) returns (ok: bool)
      requires p.Ok() && c.Wr? && Sane(c)
      modifies this
      ensures ok <==> old(Issuable(View(), now, c))
      ensures View() == if ok then Accept(p, old(View()), now, c) else old(View())
    {
      if nextWrite > now || state != Open || c.row != openRow {
        return false;
      }
      if c.auto {
        CloseLater(now + Extra(p, c.burst) + p.tAL + p.tCWD + p.tBURST + c.lat + p.tWR);
      } else {
        nextPrecharge := Max(nextPrecharge, now + Extra(p, c.burst) + p.tAL + p.tCWD + p.tBURST + c.lat + p.tWR);
        nextRead := Max(nextRead, now + Extra(p, c.burst) + p.tCWD + p.tBURST + p.tWTR + c.lat);
        nextWrite := Max(nextWrite, now + Bursts(p, c.burst) + c.lat);
      }
      nextPowerDown := Max(nextPowerDown, nextPrecharge);
      writeDone := now + p.tCWD + Bursts(p, c.burst) + c.lat;
      return true;
    }

    /** Schedules the implicit precharge and holds every command off until it is over. */
    method CloseLater(t: nat)
      modifies this
      ensures View() == AutoClose(p, old(View()), t)
    {
      nextActivate := Max(nextActivate, t + p.tRP);
      nextPrecharge := Max(nextPrecharge, nextActivate);
      nextRead := Max(nextRead, nextActivate);
      nextWrite := Max(nextWrite, nextActivate);
      due := PrechargesAt(t);
    }

    method Precharge(now: nat) returns (ok: bool)
      requires p.Ok()
      modifies this
      ensures ok <==> old(Issuable(View(), now, Pre))
      ensures View() == if ok then Accept(p, old(View()), now, Pre) else old(View())
    {
      if nextPrecharge > now || (state != Closed && state != Open) {
        return false;
      }
      var timer := Max(1, p.tRP);
      nextActivate := Max(nextActivate, now + timer);
      due := ClosesAt(now + timer);
      state := Precharging;
      return true;
    }

    method Refresh(now: nat) returns (ok: bool)
      requires p.Ok()
      modifies this
      ensures ok <==> old(Issuable(View(), now, Ref))
      ensures View() == if ok then Accept(p, old(View()), now, Ref) else old(View())
    {
      if nextActivate > now || state != Closed {
        return false;
      }
      nextActivate := Max(nextActivate, now + p.tRFC);
      due := ClosesAt(now + p.tRFC);
      state := Refreshing;
      return true;
    }

    /** Tests the command, then hands it to its method, which tests it again: the second test
        never disagrees with the first. */
    method IssueCommand(now: nat, c: Cmd) returns (ok: bool)
      requires p.Ok() && Sane(c)
      modifies this
      ensures ok <==> old(Issuable(View(), now, c))
      ensures View() == if ok then Accept(p, old(View()), now, c) else old(View())
    {
      if !Issuable(View(), now, c) {
        return false;
      }
      match c {
        case Act(row) => ok := Activate(now, row);
        case Rd(_, _, _, _) => ok := Read(now, c);
        case Wr(_, _, _, _) => ok := Write(now, c);
        case Pre => ok := Precharge(now);
        case Ref => ok := Refresh(now);
      }
    }
  }

  class DDR3Bank {
    const p: Timing
    const children: seq<SubArray>
    var state: BankTiming.BankState
    var nextActivate: nat
    var nextPrecharge: nat
    var nextRead: nat
    var nextWrite: nat
    var nextPowerDown: nat
    var nextPowerUp: nat
    var activeSubArrayQueue: seq<nat>

    ghost function Subs(): (r: seq<Sub>)
      reads children
      ensures |r| == |children|
      ensures forall i {:trigger children[i]} {:trigger r[i]} | 0 <= i < |r| :: r[i] == children[i].View()
    {
      seq(|children|, i requires 0 <= i < |children| reads children => children[i].View())
    }

    ghost function View(): BankTiming.Bank
      reads this, children
    {
      BankTiming.Bank(state, nextActivate, nextPrecharge, nextRead, nextWrite, nextPowerDown, nextPowerUp,
                      activeSubArrayQueue, Subs())
    }

    ghost predicate Distinct() {
      && (forall i, j | 0 <= i < j < |children| :: children[i] != children[j])
      && (forall i | 0 <= i < |children| :: children[i].p == p)
    }

    /** The subarrays are distinct objects with the bank's parameters, and the bank's list of
        active subarrays is right. */
    ghost predicate Valid()
      reads this, children
    {
      p.Ok() && Distinct() && BankTiming.BankOk(p, View())
    }

    constructor (p: Timing, children: seq<SubArray>, initPD: bool)
      requires p.Ok() && (forall i, j | 0 <= i < j < |children| :: children[i] != children[j])
      requires forall i | 0 <= i < |children| :: children[i].p == p && children[i].View() == FRESH
      ensures Valid() && this.p == p && this.children == children
      ensures View() == BankTiming.FreshBank(|children|, initPD)
    {
      this.p, this.children := p, children;
      state := if initPD then BankTiming.PDPF else BankTiming.BankClosed;
      nextActivate, nextPrecharge, nextRead, nextWrite, nextPowerDown, nextPowerUp := 0, 0, 0, 0, 0, 0;
      activeSubArrayQueue := [];
      new;
      assert Subs() == seq(|children|, _ => FRESH);
    }

    /** `IsIssuable`. */
    method IsIssuable(now: nat, c: BankTiming.BankCmd) returns (rv: bool)
      requires BankTiming.Fits(View(), c)
      requires forall i | 0 <= i < |activeSubArrayQueue| :: activeSubArrayQueue[i] < |children|
      ensures rv == BankTiming.MayIssue(View(), now, c)
    {
      ghost var b := View();
      var down := state == BankTiming.PDPF || state == BankTiming.PDA || state == BankTiming.PDPS;
      var awake := state == BankTiming.BankClosed || state == BankTiming.BankOpen;
      match c {
        case ToSub(sa, cmd) =>
          match cmd {
            case Act(_) => rv := nextActivate <= now && !down;
            case Rd(_, _, _, _) => rv := nextRead <= now && state == BankTiming.BankOpen;
            case Wr(_, _, _, _) => rv := nextWrite <= now && state == BankTiming.BankOpen;
            case Pre => rv := nextPrecharge <= now && awake;
            case Ref => rv := nextActivate <= now && awake;
          }
          rv := rv && Issuable(children[sa].View(), now, cmd);
        case PreAll =>
          rv := nextPrecharge <= now && awake;
          if rv {
            for i := 0 to |activeSubArrayQueue|
              invariant rv && forall k | 0 <= k < i :: Issuable(b.subs[b.active[k]], now, Pre)
            {
              if !Issuable(children[activeSubArrayQueue[i]].View(), now, Pre) {
                assert !Issuable(b.subs[b.active[i]], now, Pre);
                return false;
              }
            }
          }
        case PowerDown(mode) =>
          rv := nextPowerDown <= now && awake && !(mode != BankTiming.ActiveDown && state == BankTiming.BankOpen);
          for i := 0 to |children|
            invariant rv == (
              && b.nextPowerDown <= now && b.Awake()
              && (b.state == BankTiming.BankOpen ==> mode == BankTiming.ActiveDown)
              && forall k | 0 <= k < i :: b.subs[k].nextPowerDown <= now && b.subs[k].writeDone <= now)
          {
            if children[i].nextPowerDown > now || children[i].writeDone > now {
              assert !(b.subs[i].nextPowerDown <= now && b.subs[i].writeDone <= now);
              return false;
            }
          }
        case PowerUp => rv := nextPowerUp <= now && down;
      }
    }

    /** Every response due by `now` has run. */
    ghost predicate Settled(now: nat)
      reads children
    {
      forall i | 0 <= i < |children| :: BankTiming.Fired(Subs()[i], now)
    }

    /** Runs the due responses of all subarrays. */
    method RunResponses(now: nat)
      requires Valid()
      modifies children
      ensures Valid() && Settled(now) && View() == BankTiming.FireAll(p, old(View()), now)
    {
      ghost var before := Subs();
      for i := 0 to |children|
        invariant forall k | 0 <= k < i :: Subs()[k] == Fire(p, before[k], now)
        invariant forall k | i <= k < |children| :: Subs()[k] == before[k]
      {
        children[i].RequestComplete(now);
        assert forall k | 0 <= k < |children| && k != i :: children[k] != children[i];
      }
      BankTiming.FireAllOk(p, old(View()), now);
      assert View() == BankTiming.FireAll(p, old(View()), now);
    }

    /** `IssueCommand`: succeeds exactly when the command was issuable. */
    method IssueCommand(now: nat, c: BankTiming.BankCmd) returns (ok: bool)
      requires Valid() && BankTiming.Fits(View(), c) && Settled(now)
      modifies this, children
      ensures Valid()
      ensures (View(), ok) == BankTiming.Issue(p, old(View()), now, c)
      ensures ok == old(BankTiming.MayIssue(View(), now, c))
    {
      BankTiming.IssuableIsTrusted(p, View(), now, c);
      ok := IsIssuable(now, c);
      if ok {
        match c {
          case ToSub(sa, cmd) => ok := Forward(now, sa, cmd);
          case PreAll => ok := IssuePreAll(now);
          case PowerDown(mode) => ok := EnterPowerDown(now, mode);
          case PowerUp => ok := LeavePowerDown(now);
        }
      }
    }

    /** `Activate`, `Read`, `Write`, `Precharge` of one subarray, and `Refresh`. */
    method Forward(now: nat, sa: nat, c: Cmd) returns (ok: bool)
      requires p.Ok() && Distinct() && sa < |children| && Sane(c)
      requires BankTiming.BankCheck(View(), now, c) && Issuable(children[sa].View(), now, c)
      modifies this, children[sa]
      ensures ok && View() == BankTiming.Listed(BankTiming.BankTimers(p, old(View()), now, c)
        .(subs := old(Subs())[sa := Accept(p, old(Subs())[sa], now, c)]), sa, c)
    {
      ghost var b0 := View();
      SetTimers(now, c);
      assert Subs() == b0.subs;
      ok := children[sa].IssueCommand(now, c);
      assert Subs() == b0.subs[sa := Accept(p, b0.subs[sa], now, c)];
      match c {
        case Act(_) =>
          state := BankTiming.BankOpen;
          activeSubArrayQueue := [sa] + activeSubArrayQueue;
        case Rd(_, _, _, auto) => if auto { Unlist(sa); }
        case Wr(_, _, _, auto) => if auto { Unlist(sa); }
        case Pre => Unlist(sa);
        case Ref =>
      }
    }

    method SetTimers(now: nat, c: Cmd)
      requires p.Ok()
      modifies this`nextPowerDown, this`nextRead, this`nextWrite
      ensures View() == BankTiming.BankTimers(p, old(View()), now, c)
    {
      match c {
        case Act(_) => nextPowerDown := Max(nextPowerDown, now + p.tRCD);
        case Rd(_, burst, _, auto) =>
          if auto {
            nextPowerDown := Max(nextPowerDown, now + Extra(p, burst) + p.tAL + p.tRTP + p.tRP);
          } else {
            nextPowerDown := Max(nextPowerDown, Extra(p, burst) + now + p.tRDPDEN);
          }
          nextRead := Max(nextRead, now + Bursts(p, burst));
          nextWrite := Max(nextWrite, now + Extra(p, burst) + p.tCAS + p.tBURST + p.tRTRS - p.tCWD);
        case Wr(_, burst, _, auto) =>
          if auto {
            nextPowerDown := Max(nextActivate, now + Extra(p, burst) + p.tAL + p.tCWD + p.tBURST + p.tWR + p.tRP);
          } else {
            nextPowerDown := Max(nextPowerDown, Extra(p, burst) + now + p.tWRPDEN);
          }
          nextRead := Max(nextRead, now + Extra(p, burst) + p.tCWD + p.tBURST + p.tWTR);
          nextWrite := Max(nextWrite, now + Bursts(p, burst));
        case Pre => nextPowerDown := Max(nextPowerDown, now + p.tRP);
        case Ref => nextPowerDown := Max(nextPowerDown, now + p.tRFC);
      }
      assert Subs() == old(Subs());
    }

    /** Removes a subarray from the list; the bank is closed when none is left. */
    method Unlist(sa: nat)
      modifies this`activeSubArrayQueue, this`state
      ensures View() == BankTiming.Unlisted(old(View()), sa)
    {
      var q := activeSubArrayQueue;
      var it := 0;
      while it < |q| && q[it] != sa
        invariant it <= |q|
        invariant BankTiming.Erased(q, sa) == q[..it] + BankTiming.Erased(q[it..], sa)
      {
        assert q[it..][1..] == q[it + 1..];
        it := it + 1;
      }
      if it < |q| {
        assert q[it..][1..] == q[it + 1..];
        activeSubArrayQueue := q[..it] + q[it + 1..];
      } else {
        assert q[..it] == q && q[it..] == [];
      }
      assert activeSubArrayQueue == BankTiming.Erased(q, sa);
      if activeSubArrayQueue == [] {
        state := BankTiming.BankClosed;
      }
      assert Subs() == old(Subs());
    }

    method IssuePreAll(now: nat) returns (ok: bool)
      requires Valid() && Settled(now) && BankTiming.MayIssue(View(), now, BankTiming.PreAll)
      modifies this, children
      ensures (View(), ok) == BankTiming.Issue(p, old(View()), now, BankTiming.PreAll)
    {
      BankTiming.CloseListedFacts(p, Subs(), activeSubArrayQueue, now);
      ok := PrechargeAll(now);
    }

    /** Closes every active subarray. */
    method PrechargeAll(now: nat) returns (ok: bool)
      requires p.Ok() && Distinct()
      requires forall i | 0 <= i < |activeSubArrayQueue| :: activeSubArrayQueue[i] < |children|
      requires BankTiming.CloseListed(p, Subs(), activeSubArrayQueue, now).1
      modifies this`activeSubArrayQueue, this`state, this`nextPowerDown, children
      ensures ok && state == BankTiming.BankClosed && activeSubArrayQueue == []
      ensures nextPowerDown == Max(old(nextPowerDown), now + p.tRP)
      ensures Subs() == BankTiming.CloseListed(p, old(Subs()), old(activeSubArrayQueue), now).0
    {
      nextPowerDown := Max(nextPowerDown, now + p.tRP);
      ghost var end := BankTiming.CloseListed(p, Subs(), activeSubArrayQueue, now);
      while activeSubArrayQueue != []
        invariant forall i | 0 <= i < |activeSubArrayQueue| :: activeSubArrayQueue[i] < |children|
        invariant BankTiming.CloseListed(p, Subs(), activeSubArrayQueue, now) == end
        invariant nextPowerDown == Max(old(nextPowerDown), now + p.tRP)
        decreases |activeSubArrayQueue|
      {
        CloseFront(now);
      }
      state := BankTiming.BankClosed;
      return true;
    }

    method CloseFront(now: nat)
      requires p.Ok() && Distinct() && activeSubArrayQueue != []
      requires forall i | 0 <= i < |activeSubArrayQueue| :: activeSubArrayQueue[i] < |children|
      requires BankTiming.CloseListed(p, Subs(), activeSubArrayQueue, now).1
      modifies this`activeSubArrayQueue, children
      ensures activeSubArrayQueue == old(activeSubArrayQueue)[1..]
      ensures var sa := old(activeSubArrayQueue)[0];
        Subs() == old(Subs())[sa := Accept(p, old(Subs())[sa], now, Pre)]
    {
      var front := activeSubArrayQueue[0];
      activeSubArrayQueue := activeSubArrayQueue[1..];
      var _ := children[front].IssueCommand(now, Pre);
      assert forall k | 0 <= k < |children| && k != front :: children[k] != children[front];
    }

    method EnterPowerDown(now: nat, mode: BankTiming.PowerMode) returns (ok: bool)
      modifies this
      ensures ok <==> old(nextPowerDown <= now && View().Awake())
      ensures View() == if !ok then old(View()) else old(View()).(nextPowerUp := Max(old(nextPowerUp), now + p.tPD),
        state := if old(state) == BankTiming.BankOpen then BankTiming.PDA
                 else if mode == BankTiming.SlowDown then BankTiming.PDPS else BankTiming.PDPF)
    {
      ok := nextPowerDown <= now && (state == BankTiming.BankOpen || state == BankTiming.BankClosed);
      if ok {
        nextPowerUp := Max(nextPowerUp, now + p.tPD);
        state := if state == BankTiming.BankOpen then BankTiming.PDA
               else if mode == BankTiming.SlowDown then BankTiming.PDPS else BankTiming.PDPF;
      }
      assert Subs() == old(Subs());
    }

    method LeavePowerDown(now: nat) returns (ok: bool)
      requires Valid() && BankTiming.MayIssue(View(), now, BankTiming.PowerUp)
      modifies this
      ensures (View(), ok) == BankTiming.Issue(p, old(View()), now, BankTiming.PowerUp)
    {
      nextPowerDown := Max(nextPowerDown, now + p.tXP);
      nextActivate := Max(nextActivate, now + p.tXP);
      nextPrecharge := Max(nextPrecharge, now + p.tXP);
      nextWrite := Max(nextWrite, now + p.tXP);
      nextRead := Max(nextRead, now + if state == BankTiming.PDPS then p.tXPDLL else p.tXP);
      state := if state == BankTiming.PDA then BankTiming.BankOpen else BankTiming.BankClosed;
      assert Subs() == old(Subs());
      return true;
    }
  }
}
