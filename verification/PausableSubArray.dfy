/**
 The subarray object whose writes can be interrupted, proved against `PausingRuns`. Requests, which
 the source reaches by pointers, are kept in a map by number.
 */
module PausableSubArrays {
  import opened SubArrayTiming
  import opened WritePausing
  import opened PausingRuns

  class PausableSubArray {
    const c: Config
    var sub: Sub                      // state, open row and limits
    var pending: seq<Response>        // responses in the event queue, in the order of insertion
    var requests: map<nat, Request>
    var isWriting: bool
    var writeRequest: nat
    var writeStart: nat
    var writeEnd: nat
    var writeIterationStarts: seq<nat>
    var saved: Limits                 // the PreWrite limits

    ghost function View(): Pausable
      reads this
    {
      Pausable(sub, pending, requests, isWriting, writeRequest,
               Flight(writeStart, writeEnd, writeIterationStarts), saved)
    }

    ghost predicate Valid()
      reads this
    {
      c.p.Ok() && Sheltered(View())
    }

    constructor (c: Config)
      requires c.p.Ok()
      ensures Valid() && this.c == c && View() == NEW_SUBARRAY
    {
      this.c := c;
      sub, pending, requests, saved := FRESH, [], map[], Limits(0, 0, 0, 0, 0);
      isWriting, writeRequest, writeStart, writeEnd, writeIterationStarts := false, 0, 0, 0, [];
    }

    /** The responses of the subarray and of the write in progress that are due. */
    method RequestComplete(now: nat)
      requires Valid()
      modifies this`sub, this`pending, this`isWriting
      ensures Valid() && View() == Settled(c, old(View()), now)
    {
      SettledShelters(c, View(), now);
      if isWriting && sub.writeDone <= now {
        isWriting := false;
      }
      ghost var finally := RunDue(c, sub, pending, now);
      while pending != [] && pending[First(pending)].at <= now
        invariant RunDue(c, sub, pending, now) == finally
        invariant isWriting == (old(isWriting) && now < old(sub).writeDone)
        decreases Weight(pending)
      {
        var i := First(pending);
        var e := pending[i];
        WeightDrops(c, pending, i);
        sub := Respond(c, sub, e);
        pending := Without(pending, i) + Follow(c, e);
      }
    }

    /** `IssueCommand`: the test, then the method of the command, which tests again after it may have
        interrupted a write. The second test never disagrees. */
    method IssueCommand(a: Attempt) returns (ok: bool)
      requires Valid()
      modifies this
      ensures Valid() && (ok <==> old(MayIssue(c, View(), a)))
      ensures View() == if ok then Taking(c, old(View()), a) else old(View())
    {
      TakingShelters(c, View(), a);
      ghost var x := View();
      if !MayIssue(c, Pausable(sub, pending, requests, isWriting, writeRequest,
                               Flight(writeStart, writeEnd, writeIterationStarts), saved), a) {
        return false;
      }
      if a.cmd.Act? || a.cmd.Rd? {
        if c.pausing && isWriting { RestoringKeepsIssuable(c, sub, saved, a.cycle, a.cmd); }
        CheckWritePausing(a.cycle);
      }
      if !Takes(c, sub, a.cycle, a.cmd) {
        assert false;
        return false;
      }
      if a.cmd.Wr? {
        Write(a);
      } else {
        Plain(a);
      }
      return true;
    }

    /** A command other than a write: its limits, its state and the responses it schedules. */
    method Plain(a: Attempt)
      requires Valid() && !a.cmd.Wr?
      modifies this`sub, this`pending
      ensures var s := Accept(c.p, old(sub), a.cycle, a.cmd);
        sub == s.(due := Nothing) && pending == old(pending) + Scheduled(s.due, a.cmd)
    {
      var s := Accept(c.p, sub, a.cycle, a.cmd);
      sub, pending := s.(due := Nothing), pending + Scheduled(s.due, a.cmd);
    }

    /** `Write`: saves the limits, starts the attempt and raises the limits by its duration. */
    method Write(a: Attempt)
      requires Valid() && a.cmd.Wr?
      modifies this
      ensures Valid() && View() == Taking(c, old(View()), a)
      ensures saved == LimitsOf(old(sub)) && Below(saved, LimitsOf(sub))
    {
      TakingShelters(c, View(), a);
      var r, writeTimer := Start(if a.id in requests then requests[a.id] else NEW_REQUEST, a.full);
      requests := requests[a.id := r];
      saved := LimitsOf(sub);
      var s := Accept(c.p, sub, a.cycle, Wr(a.cmd.row, a.cmd.burst, writeTimer, a.cmd.auto));
      sub, pending := s.(due := Nothing), pending + Scheduled(s.due, a.cmd);
      isWriting, writeRequest, writeIterationStarts := true, a.id, a.starts;
      writeStart, writeEnd := a.cycle, a.cycle + writeTimer;
    }

    /** The request at the start of an attempt, and the time the attempt takes. */
    method Start(request: Request, full: nat) returns (r: Request, writeTimer: nat)
      ensures writeTimer == Duration(request, full)
      ensures r == request.(paused := false, cancelled := false, progress := writeTimer)
    {
      r, writeTimer := request, full;
      if r.paused {
        writeTimer := r.progress;
        r := r.(paused := false);
      }
      if r.cancelled {
        r := r.(cancelled := false);
      }
      r := r.(progress := writeTimer);
    }

    /** `CheckWritePausing`: interrupts the write and restores the saved limits; its completion is
        taken out of the event queue and comes back in the next cycle. */
    method CheckWritePausing(now: nat)
      requires Valid()
      modifies this`requests, this`sub
      ensures Valid() && View() == Halted(c, old(View()), now)
      ensures Below(LimitsOf(sub), LimitsOf(old(sub)))
    {
      if c.pausing && isWriting {
        var remaining := Progress(now);
        var r := Flagged(requests[writeRequest].(progress := remaining), remaining);
        requests := requests[writeRequest := r];
        sub := Restored(sub, saved, now);
      }
    }

    /** The remaining write time: from now on, or from the start of the running iteration. */
    method Progress(now: nat) returns (writeProgress: nat)
      ensures writeProgress == Remaining(c.k, Flight(writeStart, writeEnd, writeIterationStarts), now)
    {
      if c.k.optimal {
        return (writeEnd - now) % WORD;
      }
      var nextIterationStart := writeStart;
      var it := 0;
      while it < |writeIterationStarts| && writeIterationStarts[it] <= now
        invariant it <= |writeIterationStarts|
        invariant IterationStart(writeIterationStarts[it..], nextIterationStart, now)
               == IterationStart(writeIterationStarts, writeStart, now)
      {
        nextIterationStart := writeIterationStarts[it];
        it := it + 1;
      }
      writeProgress := (writeEnd - nextIterationStart) % WORD;
    }

    /** Pauses the request when enough of it is done, and cancels it otherwise. */
    method Flagged(request: Request, remaining: nat) returns (r: Request)
      requires writeStart <= writeEnd
      ensures r == if EnoughDone(c.k, remaining, writeEnd - writeStart)
        then request.(paused := request.paused || remaining != writeEnd)
        else request.(cancelled := true, cancellations := request.cancellations + 1,
                      forced := request.forced || request.cancellations + 1 >= c.k.maxCancellations)
    {
      r := request;
      if EnoughDone(c.k, remaining, writeEnd - writeStart) {
        if remaining != writeEnd {
          r := r.(paused := true);
        }
      } else {
        r := r.(cancelled := true, cancellations := r.cancellations + 1);
        if r.cancellations >= c.k.maxCancellations {
          r := r.(forced := true);
        }
      }
    }
  }
}
