/**
 Pausing and cancelling of writes in a subarray. A write in progress can be interrupted by a
 read or an activation; depending on how much of it is done it is paused (and later resumed with
 the remaining time) or cancelled (and later repeated in full); after enough cancellations it is
 forced and cannot be interrupted any more. Encoder and endurance latencies are zero; the
 percentage the source computes in floating point is an exact real.
 */
module WritePausing {
  const WORD: nat := 0x1_0000_0000_0000_0000

  datatype Policy = Policy(
    threshold: real,         // PauseThreshold
    maxCancellations: nat,
    optimal: bool)           // pauseMode == PauseMode_Optimal

  /** The part of a write request that survives an interruption. */
  datatype Request = Request(paused: bool, cancelled: bool, forced: bool, cancellations: nat, progress: nat)

  const NEW_REQUEST: Request := Request(false, false, false, 0, 0)

  /** An attempt in flight: its start and end, and the start cycles of its iterations, ascending. */
  datatype Flight = Flight(start: nat, end: nat, starts: seq<nat>)

  /** The duration of an attempt: the remaining time of a paused write, else the full cell time. */
  function Duration(r: Request, full: nat): nat {
    if r.paused then r.progress else full
  }

  /** `Write`: the request and the attempt when the write is issued at cycle `now`. */
  function Begin(r: Request, now: nat, full: nat, starts: seq<nat>): (Request, Flight) {
    var d := Duration(r, full);
    (r.(paused := false, cancelled := false, progress := d), Flight(now, now + d, starts))
  }

  /** The start of the iteration running at cycle `now`. */
  function IterationStart(starts: seq<nat>, start: nat, now: nat): nat {
    if starts == [] || starts[0] > now then start else IterationStart(starts[1..], starts[0], now)
  }

  /** The remaining write time the source computes, a 64-bit difference that can wrap. */
  function Remaining(k: Policy, f: Flight, now: nat): nat {
    var from := if k.optimal then now else IterationStart(f.starts, f.start, now);
    (f.end - from) % WORD
  }

  /** Whether more than the threshold of the write is done. An attempt of no duration gives a
      quotient that compares as false. */
  predicate EnoughDone(k: Policy, remaining: nat, duration: nat) {
    duration > 0 && 1.0 - remaining as real / duration as real > k.threshold
  }

  /** `CheckWritePausing`: what an interruption at cycle `now` makes of the request. */
  function Interrupt(k: Policy, r: Request, f: Flight, now: nat): Request
    requires f.start <= f.end
  {
    var remaining := Remaining(k, f, now);
    if EnoughDone(k, remaining, f.end - f.start) then
      r.(progress := remaining, paused := r.paused || remaining != f.end)
    else
      r.(progress := remaining, cancelled := true, cancellations := r.cancellations + 1,
         forced := r.forced || r.cancellations + 1 >= k.maxCancellations)
  }

  // ------------------------------------------------------------------ one interruption

  /** Cancellations left before the write is forced. */
  function Left(k: Policy, r: Request): int {
    (if k.maxCancellations > 1 then k.maxCancellations else 1) - r.cancellations
  }

  /** A request between attempts, as it is before its first attempt or after an interruption. */
  predicate Sound(k: Policy, r: Request) {
    && 0 <= Left(k, r)
    && (r.forced <==> Left(k, r) == 0)
    && !(r.paused && r.cancelled)
  }

  /** A request in flight, whose flags the attempt has cleared. */
  predicate InFlight(k: Policy, r: Request) {
    Sound(k, r) && !r.paused && !r.cancelled
  }

  /** An interruption of an attempt that is not forced either pauses the write, and then its next
      attempt is strictly shorter; or cancels it, which uses up one of the cancellations left. It
      is always marked as one of the two: the source's test for a remaining time equal to the end
      cycle never holds where it is made. */
  lemma InterruptInFlight(k: Policy, r: Request, f: Flight, at: nat)
    requires k.threshold >= 0.0 && InFlight(k, r) && !r.forced && f.start <= f.end
    ensures var r2 := Interrupt(k, r, f, at);
      && Sound(k, r2) && (r2.paused != r2.cancelled)
      && (r2.paused ==> Left(k, r2) == Left(k, r) && r2.progress < f.end - f.start && !r2.forced)
      && (r2.cancelled ==> Left(k, r2) == Left(k, r) - 1)
  {
    var remaining, d := Remaining(k, f, at), f.end - f.start;
    if EnoughDone(k, remaining, d) && remaining >= d {
      QuotientAtLeastOne(remaining, d);
    }
  }

  /** The same, from before the attempt. */
  lemma InterruptProgress(k: Policy, r: Request, now: nat, full: nat, starts: seq<nat>, at: nat)
    requires k.threshold >= 0.0 && Sound(k, r) && !r.forced
    ensures var (r1, f) := Begin(r, now, full, starts);
      var r2 := Interrupt(k, r1, f, at);
      && Sound(k, r2) && (r2.paused != r2.cancelled)
      && (r2.paused ==> Left(k, r2) == Left(k, r) && r2.progress < Duration(r, full) && !r2.forced)
      && (r2.cancelled ==> Left(k, r2) == Left(k, r) - 1)
  {
    var (r1, f) := Begin(r, now, full, starts);
    InterruptInFlight(k, r1, f, at);
  }

  lemma QuotientAtLeastOne(a: nat, b: nat)
    requires b > 0 && a >= b
    ensures a as real / b as real >= 1.0
  {
  }

  // ------------------------------------------------------------------ what is left to do

  predicate Ascending(starts: seq<nat>, from: nat) {
    starts == [] || (from <= starts[0] && Ascending(starts[1..], starts[0]))
  }

  /** The iteration running at cycle `now` is the last one that has started. */
  lemma {:induction false} IterationStartIs(starts: seq<nat>, start: nat, now: nat)
    requires Ascending(starts, start) && start <= now
    ensures
      var s := IterationStart(starts, start, now);
      && start <= s <= now && (s == start || s in starts)
      && (forall i | 0 <= i < |starts| && starts[i] <= now :: starts[i] <= s)
  {
    if starts != [] {
      if starts[0] <= now {
        IterationStartIs(starts[1..], starts[0], now);
      } else {
        AscendingFrom(starts, start);
      }
      assert forall i | 1 <= i < |starts| :: starts[i] == starts[1..][i - 1];
    }
  }

  lemma {:induction false} AscendingFrom(starts: seq<nat>, from: nat)
    requires Ascending(starts, from)
    ensures forall i | 0 <= i < |starts| :: starts[0] <= starts[i]
  {
    if starts != [] {
      AscendingFrom(starts[1..], starts[0]);
      assert forall i | 1 <= i < |starts| :: starts[i] == starts[1..][i - 1];
    }
  }

  /** More than the threshold is done: by the cycles done, without a quotient. */
  lemma EnoughDoneIff(k: Policy, remaining: nat, d: nat)
    requires d > 0
    ensures EnoughDone(k, remaining, d) <==> (d - remaining) as real > k.threshold * d as real
  {
    var q, x := remaining as real / d as real, d as real;
    assert q * x == remaining as real;
    var m := 1.0 - q - k.threshold;
    assert m * x == (d - remaining) as real - k.threshold * x;
    assert m > 0.0 <==> m * x > 0.0;
  }

  /** An interruption during the attempt loses no work when pausing is optimal: the cycles done and those
      left make up the attempt. Otherwise the running iteration is repeated. The write is paused exactly
      when the cycles it keeps are more than the threshold of the attempt. */
  lemma WorkKept(k: Policy, r: Request, f: Flight, now: nat)
    requires k.threshold >= 0.0 && InFlight(k, r) && !r.forced
    requires f.start <= now <= f.end < WORD && f.start < f.end && Ascending(f.starts, f.start)
    ensures
      var r2, s := Interrupt(k, r, f, now), IterationStart(f.starts, f.start, now);
      && r2.progress == (if k.optimal then f.end - now else f.end - s) && f.start <= s <= now
      && (r2.paused <==> (f.end - f.start - r2.progress) as real > k.threshold * (f.end - f.start) as real)
  {
    IterationStartIs(f.starts, f.start, now);
    EnoughDoneIff(k, Remaining(k, f, now), f.end - f.start);
  }

  /** A write that is paused again and again under optimal pausing takes its full time altogether. */
  lemma {:induction false} PausesLoseNothing(k: Policy, r: Request, rounds: seq<Round>, full: nat)
    requires k.threshold >= 0.0 && k.optimal && Sound(k, r) && Interrupted(k, r, rounds) && AllPaused(k, r, rounds)
    requires Within(k, r, rounds) && forall i | 0 <= i < |rounds| :: rounds[i].full == full
    ensures TimeSpent(rounds) + Duration(Outcome(k, r, rounds), full) == Duration(r, full)
    decreases |rounds|
  {
    if rounds != [] {
      var o := rounds[0];
      var (r1, f) := Begin(r, o.now, o.full, o.starts);
      InterruptProgress(k, r, o.now, o.full, o.starts, o.at);
      PausesLoseNothing(k, Interrupt(k, r1, f, o.at), rounds[1..], full);
    }
  }

  /** Every attempt of the history ends with a pause. */
  predicate AllPaused(k: Policy, r: Request, rounds: seq<Round>)
    decreases |rounds|
  {
    rounds == []
    || var (r1, f) := Begin(r, rounds[0].now, rounds[0].full, rounds[0].starts);
       var r2 := Interrupt(k, r1, f, rounds[0].at);
       r2.paused && AllPaused(k, r2, rounds[1..])
  }

  /** Every interruption falls into its attempt. */
  predicate Within(k: Policy, r: Request, rounds: seq<Round>)
    decreases |rounds|
  {
    rounds == []
    || var (r1, f) := Begin(r, rounds[0].now, rounds[0].full, rounds[0].starts);
       && f.start <= rounds[0].at <= f.end < WORD
       && Within(k, Interrupt(k, r1, f, rounds[0].at), rounds[1..])
  }

  /** The cycles from the start of each attempt to its interruption. */
  function TimeSpent(rounds: seq<Round>): int {
    if rounds == [] then 0 else rounds[0].at - rounds[0].now + TimeSpent(rounds[1..])
  }

  // ------------------------------------------------------------------ all interruptions

  /** One attempt and its interruption. */
  datatype Round = Round(now: nat, full: nat, starts: seq<nat>, at: nat)

  /** A history of attempts, each interrupted: a forced attempt cannot be. */
  predicate Interrupted(k: Policy, r: Request, rounds: seq<Round>)
    decreases |rounds|
  {
    rounds == [] ||
    (!r.forced
     && var (r1, f) := Begin(r, rounds[0].now, rounds[0].full, rounds[0].starts);
        Interrupted(k, Interrupt(k, r1, f, rounds[0].at), rounds[1..]))
  }

  /** Cancellations after the history. */
  function Outcome(k: Policy, r: Request, rounds: seq<Round>): Request
    decreases |rounds|
  {
    if rounds == [] then r
    else
      var (r1, f) := Begin(r, rounds[0].now, rounds[0].full, rounds[0].starts);
      Outcome(k, Interrupt(k, r1, f, rounds[0].at), rounds[1..])
  }

  /** Every interruption lowers this measure, where no attempt takes more than `w` cycles. */
  function Measure(k: Policy, r: Request, w: nat): int {
    Left(k, r) * (w + 1) + if r.paused then r.progress else w
  }

  /** A write is interrupted finitely often: at most as often as the measure says, and cancelled
      at most max(1, MaxCancellations) times, however the interruptions fall. */
  lemma {:induction false} FinitelyOften(k: Policy, r: Request, rounds: seq<Round>, w: nat)
    requires k.threshold >= 0.0 && Sound(k, r) && Interrupted(k, r, rounds)
    requires (forall i | 0 <= i < |rounds| :: rounds[i].full <= w) && (r.paused ==> r.progress <= w)
    ensures |rounds| <= Measure(k, r, w)
    ensures Outcome(k, r, rounds).cancellations <= if k.maxCancellations > 1 then k.maxCancellations else 1
    decreases |rounds|
  {
    if rounds == [] {
      LeftTimes(Left(k, r), w + 1);
    } else {
      var o := rounds[0];
      var (r1, f) := Begin(r, o.now, o.full, o.starts);
      var r2 := Interrupt(k, r1, f, o.at);
      InterruptProgress(k, r, o.now, o.full, o.starts, o.at);
      FinitelyOften(k, r2, rounds[1..], w);
      LeftTimes(Left(k, r), w + 1);
      if r2.cancelled {
        assert Left(k, r2) * (w + 1) + (w + 1) == (Left(k, r2) + 1) * (w + 1);
      }
    }
  }

  /** For a new write: at most max(1, MaxCancellations) * (w + 1) + w interruptions. */
  lemma NewWriteBound(k: Policy, rounds: seq<Round>, w: nat)
    requires k.threshold >= 0.0 && Interrupted(k, NEW_REQUEST, rounds)
    requires forall i | 0 <= i < |rounds| :: rounds[i].full <= w
    ensures |rounds| <= (if k.maxCancellations > 1 then k.maxCancellations else 1) * (w + 1) + w
  {
    FinitelyOften(k, NEW_REQUEST, rounds, w);
  }

  lemma LeftTimes(a: int, b: nat)
    requires a >= 0
    ensures a * b >= 0
  {
  }
}
