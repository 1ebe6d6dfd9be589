/**
 The worker's loop: it claims jobs while it has room, starts a handler for each, and counts the
 handlers back in over a buffered channel. One goroutine runs the loop; every handler runs in its
 own, and the channel, the timers and the cancellation come in between at any point.
 */
module Worker {
  /** Where the loop stands, and what it logged last when it stopped. */
  datatype Phase =
    | Claiming
    | Waiting
    | Draining
    | Stopped(activeJobs: nat, timedOut: bool)

  /** A handler is known by the number of its launch. */
  type Handler = nat

  /**
   The loop's own variables are `phase`, `active` and the channel `done`; `launched`, `running`
   and `received` say which handlers were started, have not signalled, and were counted back in.
   */
  datatype State = State(
    phase: Phase,
    active: int,
    done: seq<Handler>,
    cancelled: bool,
    launched: nat,
    running: set<Handler>,
    received: set<Handler>)

  datatype Step =
    | ClaimJob
    | ClaimNothing
    | LeaveClaiming
    | Signal(handler: Handler)
    | Receive
    | PollTimer
    | Cancel
    | SeeCancelled
    | ShutdownTimer

  const Start := State(Claiming, 0, [], false, 0, {}, {})

  /** What the code at its present point and the runtime allow; a send on a full channel blocks. */
  predicate Enabled(s: State, step: Step, max: nat) {
    match step
    case ClaimJob => s.phase == Claiming && s.active < max && !s.cancelled
    case ClaimNothing => s.phase == Claiming && s.active < max && !s.cancelled
    case LeaveClaiming => s.phase == Claiming && (s.active >= max || s.cancelled)
    case Signal(h) => h in s.running && |s.done| < max
    case Receive => (s.phase == Waiting || s.phase == Draining) && s.done != []
    case PollTimer => s.phase == Waiting
    case Cancel => !s.cancelled
    case SeeCancelled => s.phase == Waiting && s.cancelled
    case ShutdownTimer => s.phase == Draining
  }

  /** shutdown: with nothing active it reports at once. */
  function EnterShutdown(s: State): State {
    s.(phase := if s.active == 0 then Stopped(0, false) else Draining)
  }

  function Next(s: State, step: Step, max: nat): State
    requires Enabled(s, step, max)
  {
    match step
    case ClaimJob =>
      s.(active := s.active + 1, launched := s.launched + 1, running := s.running + {s.launched})
    case ClaimNothing => s.(phase := Waiting)
    case LeaveClaiming => if s.cancelled then EnterShutdown(s) else s.(phase := Waiting)
    case Signal(h) => s.(running := s.running - {h}, done := s.done + [h])
    case Receive =>
      var counted := s.(active := s.active - 1, done := s.done[1..], received := s.received + {s.done[0]});
      if s.phase == Waiting then counted.(phase := Claiming)
      else if counted.active > 0 then counted else counted.(phase := Stopped(0, false))
    case PollTimer => s.(phase := Claiming)
    case Cancel => s.(cancelled := true)
    case SeeCancelled => EnterShutdown(s)
    case ShutdownTimer => s.(phase := Stopped(if s.active > 0 then s.active else 0, true))
  }

  /** The steps of a run are all enabled when they are taken. */
  predicate IsRun(steps: seq<Step>, max: nat)
    decreases |steps|, 0
  {
    steps == []
    || (IsRun(steps[..|steps| - 1], max)
        && Enabled(Run(steps[..|steps| - 1], max), steps[|steps| - 1], max))
  }

  function Run(steps: seq<Step>, max: nat): State
    requires IsRun(steps, max)
    decreases |steps|, 1
  {
    if steps == [] then Start
    else Next(Run(steps[..|steps| - 1], max), steps[|steps| - 1], max)
  }

  // What every step keeps

  predicate InChannelOnce(done: seq<Handler>) {
    forall i, j | 0 <= i < j < |done| :: done[i] != done[j]
  }

  /** Every handler ever started is running, has its signal in the channel, or was counted. */
  ghost predicate Accounted(s: State) {
    (forall h: Handler :: h < s.launched <==> h in s.running || h in s.done || h in s.received)
    && (forall h | h in s.running :: h !in s.done && h !in s.received)
    && (forall h | h in s.done :: h !in s.received)
    && InChannelOnce(s.done)
  }

  /** `active` is the number of handlers that run or whose signal waits in the channel. */
  ghost predicate Ok(s: State, max: nat) {
    s.active == |s.running| + |s.done| && s.active <= max && Accounted(s)
    && (s.phase == Draining ==> s.active > 0)
    && (s.phase.Stopped? ==> s.phase.activeJobs >= s.active && (!s.phase.timedOut ==> s.phase.activeJobs == 0))
    && (s.phase == Draining || s.phase.Stopped? ==> s.cancelled)
  }

  lemma AccountedAfterSignal(s: State, h: Handler)
    requires Accounted(s) && h in s.running
    ensures Accounted(s.(running := s.running - {h}, done := s.done + [h]))
  {
  }

  lemma AccountedAfterReceive(s: State)
    requires Accounted(s) && s.done != []
    ensures Accounted(s.(done := s.done[1..], received := s.received + {s.done[0]}))
  {
    assert s.done == [s.done[0]] + s.done[1..];
    assert s.done[0] !in s.done[1..];
  }

  lemma AccountedAfterClaim(s: State)
    requires Accounted(s)
    ensures s.launched !in s.running
    ensures Accounted(s.(launched := s.launched + 1, running := s.running + {s.launched}))
  {
    hide InChannelOnce;
  }

  lemma AccountedIgnores(s: State, t: State)
    requires Accounted(s) && t == s.(phase := t.phase, active := t.active, cancelled := t.cancelled)
    ensures Accounted(t)
  {
    hide InChannelOnce;
  }

  lemma StepKeeps(s: State, step: Step, max: nat)
    requires Ok(s, max) && Enabled(s, step, max)
    ensures Ok(Next(s, step, max), max)
  {
    hide Accounted;
    match step
    case ClaimJob =>
      AccountedAfterClaim(s);
      AccountedIgnores(s.(launched := s.launched + 1, running := s.running + {s.launched}), Next(s, step, max));
    case Signal(h) => AccountedAfterSignal(s, h);
    case Receive =>
      AccountedAfterReceive(s);
      AccountedIgnores(s.(done := s.done[1..], received := s.received + {s.done[0]}), Next(s, step, max));
    case _ => AccountedIgnores(s, Next(s, step, max));
  }

  lemma StartOk(max: nat)
    ensures Ok(Start, max)
  {
  }

  lemma {:induction false} ReachableOk(steps: seq<Step>, max: nat)
    requires IsRun(steps, max)
    ensures Ok(Run(steps, max), max)
    decreases |steps|
  {
    hide Ok, Next, Enabled;
    if steps == [] {
      StartOk(max);
    } else {
      ReachableOk(steps[..|steps| - 1], max);
      StepKeeps(Run(steps[..|steps| - 1], max), steps[|steps| - 1], max);
    }
  }

  // What follows at every point of every run

  /** The counter bounds the handlers, and a handler that returns can always signal at once. */
  lemma SendNeverBlocks(steps: seq<Step>, max: nat)
    requires IsRun(steps, max)
    ensures var s := Run(steps, max);
            0 <= s.active <= max && |s.running| <= max && s.active == |s.running| + |s.done|
            && forall h | h in s.running :: Enabled(s, Signal(h), max)
  {
    ReachableOk(steps, max);
    var s := Run(steps, max);
    forall h | h in s.running ensures |s.done| < max {
      assert |s.running| > 0;
    }
  }

  /** Without a timeout the worker reports zero active jobs only when every handler has signalled. */
  lemma StoppedMeansSignalled(steps: seq<Step>, max: nat)
    requires IsRun(steps, max) && Run(steps, max).phase.Stopped?
    ensures var s := Run(steps, max);
            s.phase.activeJobs == 0 ==>
              s.running == {} && s.done == [] && forall h: nat | h < s.launched :: h in s.received
    ensures !Run(steps, max).phase.timedOut ==> Run(steps, max).phase.activeJobs == 0
  {
    ReachableOk(steps, max);
  }

  /** Draining is never stuck: a signal waits to be received, or a running handler can send one. */
  lemma DrainingGoesOn(steps: seq<Step>, max: nat)
    requires IsRun(steps, max) && Run(steps, max).phase == Draining
    ensures Enabled(Run(steps, max), Receive, max)
         || exists h :: h in Run(steps, max).running && Enabled(Run(steps, max), Signal(h), max)
  {
    SendNeverBlocks(steps, max);
    ReachableOk(steps, max);
    var s := Run(steps, max);
    if s.done == [] {
      assert |s.running| > 0;
      var h :| h in s.running;
    }
  }

  predicate IsSignalOrReceive(step: Step) {
    step.Signal? || step.Receive?
  }

  /** What is left to do while draining: a signal for every running handler, a receive for each. */
  function DrainWork(s: State): nat {
    2 * |s.running| + |s.done|
  }

  /** Each signal or receive takes one from the work left, so draining ends after that many. */
  lemma DrainingEnds(steps: seq<Step>, step: Step, max: nat)
    requires IsRun(steps, max) && Run(steps, max).phase == Draining
    requires IsSignalOrReceive(step) && Enabled(Run(steps, max), step, max)
    ensures var s, s' := Run(steps, max), Next(Run(steps, max), step, max);
            DrainWork(s') == DrainWork(s) - 1
            && (s'.phase == Draining || s'.phase == Stopped(0, false))
            && (DrainWork(s') == 0 <==> s'.phase == Stopped(0, false))
  {
    ReachableOk(steps, max);
    StepKeeps(Run(steps, max), step, max);
  }

  // The wait before a retry

  newtype int64 = x: int | -0x8000_0000_0000_0000 <= x < 0x8000_0000_0000_0000

  function Pow2(n: nat): nat {
    if n == 0 then 1 else 2 * Pow2(n - 1)
  }

  function Min(a: int, b: int): int {
    if a < b then a else b
  }

  /** The base doubled for every attempt after the first, up to the limit. */
  function Backoff(base: int, max: int, attempt: int): int {
    Min(base * (if attempt <= 1 then 1 else Pow2(attempt - 1)), max)
  }

  /** retryBackoff on 64-bit durations: every product and comparison is in range. */
  method RetryBackoff(base: int64, max: int64, attempt: int64) returns (wait: int64)
    requires 0 < base <= max
    ensures wait as int == Backoff(base as int, max as int, attempt as int)
  {
    wait := base;
    var current: int64 := 1;
    while current < attempt && wait < max
      invariant 1 <= current && (current <= attempt || current == 1)
      invariant 0 < wait <= max && wait as int == base as int * Pow2(current as int - 1)
      decreases attempt as int - current as int
    {
      if wait > max / 2 {
        TwiceIsTooMuch(base as int, max as int, current as int, attempt as int);
        return max;
      }
      wait := wait * 2;
      current := current + 1;
    }
    if current < attempt {
      Pow2Grows(current as int - 1, attempt as int - 1);
      ProductGrows(base as int, Pow2(current as int - 1), Pow2(attempt as int - 1));
    }
    if wait > max {
      return max;
    }
  }

  lemma ProductGrows(base: int, x: int, y: int)
    requires base > 0 && x <= y
    ensures base * x <= base * y
  {
  }

  lemma {:induction false} Pow2Grows(m: nat, n: nat)
    requires m <= n
    ensures Pow2(m) <= Pow2(n)
    decreases n
  {
    if m < n {
      Pow2Grows(m, n - 1);
    }
  }

  lemma TwiceIsTooMuch(base: int, max: int, current: int, attempt: int)
    requires base > 0 && 1 <= current < attempt && base * Pow2(current - 1) > max / 2
    ensures base * Pow2(attempt - 1) >= max
  {
    Pow2Grows(current, attempt - 1);
    ProductGrows(base, Pow2(current), Pow2(attempt - 1));
    assert base * Pow2(current) == 2 * (base * Pow2(current - 1));
  }

  /** The wait never shrinks, doubles until the limit, and stays within base and limit. */
  lemma BackoffGrows(base: int, max: int, attempt: int)
    requires 0 < base <= max
    ensures base <= Backoff(base, max, attempt) <= Backoff(base, max, attempt + 1) <= max
    ensures attempt >= 1 ==> Backoff(base, max, attempt + 1) == Min(2 * Backoff(base, max, attempt), max)
    ensures attempt <= 1 ==> Backoff(base, max, attempt) == base
  {
    if attempt >= 1 {
      assert Pow2(attempt) == 2 * Pow2(attempt - 1);
      assert base * Pow2(attempt) == 2 * (base * Pow2(attempt - 1));
      Pow2Grows(0, attempt - 1);
      ProductGrows(base, 1, Pow2(attempt - 1));
    }
  }

  lemma {:induction false} BackoffIsMonotone(base: int, max: int, earlier: int, later: int)
    requires 0 < base <= max && earlier <= later
    ensures Backoff(base, max, earlier) <= Backoff(base, max, later)
    decreases later - earlier
  {
    if earlier < later {
      BackoffIsMonotone(base, max, earlier, later - 1);
      BackoffGrows(base, max, later - 1);
    }
  }

  // What the loop does with its room

  /** Once cancelled, the worker starts no further handler. */
  lemma NoLaunchAfterCancel(s: State, step: Step, max: nat)
    requires Enabled(s, step, max) && s.cancelled
    ensures Next(s, step, max).launched == s.launched && Next(s, step, max).cancelled
  {
  }

  /** A received signal and the poll timer both lead back to claiming, which goes on until no room or no job is left. */
  lemma RoomIsUsed(s: State, max: nat)
    requires !s.cancelled
    ensures s.phase == Waiting && s.done != [] ==> Next(s, Receive, max).phase == Claiming
    ensures s.phase == Waiting ==> Next(s, PollTimer, max).phase == Claiming
    ensures s.phase == Claiming && s.active < max ==>
              Enabled(s, ClaimJob, max) && Next(s, ClaimJob, max).phase == Claiming
              && Enabled(s, ClaimNothing, max) && Next(s, ClaimNothing, max) == s.(phase := Waiting)
              && !Enabled(s, LeaveClaiming, max)
    ensures s.phase == Claiming && s.active >= max ==>
              !Enabled(s, ClaimJob, max) && !Enabled(s, ClaimNothing, max)
              && Enabled(s, LeaveClaiming, max) && Next(s, LeaveClaiming, max) == s.(phase := Waiting)
    ensures s.phase != Claiming ==>
              !Enabled(s, ClaimJob, max) && !Enabled(s, ClaimNothing, max) && !Enabled(s, LeaveClaiming, max)
  {
  }

  /** Nothing is claimed, and no poll awaited, once the worker is cancelled; it can be cancelled once. */
  lemma CancelledClaimsNothing(s: State, max: nat)
    ensures s.cancelled ==>
              !Enabled(s, ClaimJob, max) && !Enabled(s, ClaimNothing, max) && !Enabled(s, Cancel, max)
    ensures !s.cancelled ==>
              Enabled(s, Cancel, max) && Next(s, Cancel, max) == s.(cancelled := true) && !Enabled(s, SeeCancelled, max)
  {
  }

  /** Draining ends by the timer with the handlers that are still active, or by the last signal. */
  lemma DrainingStops(s: State, max: nat)
    requires s.phase == Draining && s.active > 0
    ensures Enabled(s, ShutdownTimer, max) && Next(s, ShutdownTimer, max).phase == Stopped(s.active, true)
    ensures s.done != [] ==>
              Enabled(s, Receive, max) && Next(s, Receive, max).active == s.active - 1
              && Next(s, Receive, max).phase == if s.active == 1 then Stopped(0, false) else Draining
  {
  }

  /** A cancelled worker leaves its loop by shutting down, and reports at once when nothing is active. */
  lemma CancelledShutsDown(s: State, max: nat)
    requires s.cancelled && (s.phase == Waiting || s.phase == Claiming)
    ensures var step := if s.phase == Waiting then SeeCancelled else LeaveClaiming;
            Enabled(s, step, max)
            && Next(s, step, max).phase == if s.active == 0 then Stopped(0, false) else Draining
  {
  }
}
