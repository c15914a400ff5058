/** The circuit breaker of circuitbreaker.go. beforeRequest and afterRequest are separate critical
    sections, so a completion may arrive in any later state than the one that admitted it; the
    machine below interleaves them freely, with Reset. */
module CircuitBreaker {
  type Time = int

  datatype Phase = Closed | Open | HalfOpen

  datatype Config = Config(maxFailures: int, timeout: int, resetTimeout: int, maxHalfOpenRequests: int) {
    /** What the constructor insists on, after defaulting maxHalfOpenRequests. */
    predicate Valid() { maxFailures > 0 && timeout > 0 && resetTimeout > 0 && maxHalfOpenRequests > 0 }

    function Defaulted(): Config { if maxHalfOpenRequests <= 0 then this.(maxHalfOpenRequests := 1) else this }
  }

  /** lastFailure is empty until the first failure; Go's zero time is further back than any
      ResetTimeout. */
  datatype Last = Never | At(time: Time)

  datatype State = State(
    phase: Phase, consecutiveFailures: int, halfOpenRequests: int, lastFailure: Last, openedAt: Time,
    successes: nat, failures: nat, rejections: nat)

  datatype Admission = Admitted | CircuitOpen | TooManyRequests

  function Initial(): State { State(Closed, 0, 0, Never, 0, 0, 0, 0) }

  function TryHalfOpen(cfg: Config, s: State): (State, Admission) {
    if s.halfOpenRequests >= cfg.maxHalfOpenRequests
    then (s.(rejections := s.rejections + 1), TooManyRequests)
    else (s.(halfOpenRequests := s.halfOpenRequests + 1), Admitted)
  }

  function Before(cfg: Config, s: State, now: Time): (State, Admission) {
    match s.phase
    case Closed =>
      var expired := s.lastFailure.Never? || now - s.lastFailure.time > cfg.resetTimeout;
      (if expired then s.(consecutiveFailures := 0) else s, Admitted)
    case Open =>
      if now - s.openedAt >= cfg.timeout then TryHalfOpen(cfg, s.(phase := HalfOpen, halfOpenRequests := 0))
      else (s.(rejections := s.rejections + 1), CircuitOpen)
    case HalfOpen => TryHalfOpen(cfg, s)
  }

  function Opened(s: State, now: Time): State { s.(phase := Open, openedAt := now, halfOpenRequests := 0) }

  function After(cfg: Config, s: State, failed: bool, now: Time): State {
    if failed then
      var t := s.(failures := s.failures + 1, consecutiveFailures := s.consecutiveFailures + 1, lastFailure := At(now));
      match t.phase
      case HalfOpen => Opened(t, now)
      case Closed => if t.consecutiveFailures >= cfg.maxFailures then Opened(t, now) else t
      case Open => t
    else
      var t := s.(successes := s.successes + 1);
      match t.phase
      case HalfOpen => t.(phase := Closed, consecutiveFailures := 0, halfOpenRequests := 0)
      case Closed => t.(consecutiveFailures := 0)
      case Open => t
  }

  function ResetState(s: State): State { s.(phase := Closed, consecutiveFailures := 0, halfOpenRequests := 0) }

  /** GetStats' TimeUntilNextAttempt. */
  function Countdown(cfg: Config, s: State, now: Time): int {
    if s.phase.Open? && now - s.openedAt < cfg.timeout then cfg.timeout - (now - s.openedAt) else 0
  }

  // ---------------------------------------------------------------- runs

  datatype Event =
    | Call(now: Time)
    | Done(failed: bool, now: Time)
    | Reset(now: Time)

  /** The breaker with what surrounds it: the clock, the admitted requests not yet completed, the
      number of calls, the outcomes of all completions in order, the times the circuit opened, and
      the admissions since the latest move to half-open. */
  datatype System = System(
    breaker: State, clock: Time, inFlight: nat, calls: nat, outcomes: seq<bool>, openings: seq<Time>, trials: nat)

  predicate CanHappen(y: System, e: Event) { y.clock <= e.now && (e.Done? ==> y.inFlight > 0) }

  function Next(cfg: Config, y: System, e: Event): System {
    match e
    case Call(now) =>
      var (b, admission) := Before(cfg, y.breaker, now);
      var y' := y.(breaker := b, clock := now, calls := y.calls + 1);
      if admission.Admitted? then
        y'.(inFlight := y.inFlight + 1, trials := if y.breaker.phase.HalfOpen? then y.trials + 1 else 1)
      else y'
    case Done(failed, now) =>
      var b := After(cfg, y.breaker, failed, now);
      System(b, now, if y.inFlight > 0 then y.inFlight - 1 else 0, y.calls, y.outcomes + [failed],
             if b.phase.Open? && !y.breaker.phase.Open? then y.openings + [now] else y.openings, y.trials)
    case Reset(now) => y.(breaker := ResetState(y.breaker), clock := now)
  }

  ghost predicate Start(y: System) {
    y.breaker == Initial() && y.inFlight == 0 && y.calls == 0 && y.outcomes == [] && y.openings == [] && y.trials == 0
  }

  ghost predicate StepAt(cfg: Config, ys: seq<System>, es: seq<Event>, i: nat)
    requires i < |es| && |ys| == |es| + 1
  {
    CanHappen(ys[i], es[i]) && ys[i + 1] == Next(cfg, ys[i], es[i])
  }

  ghost predicate IsRun(cfg: Config, ys: seq<System>, es: seq<Event>) {
    |ys| == |es| + 1 && Start(ys[0]) && forall i | 0 <= i < |es| :: StepAt(cfg, ys, es, i)
  }

  function Fresh(): System { System(Initial(), 0, 0, 0, [], [], 0) }

  /** One event more. */
  lemma Then(cfg: Config, ys: seq<System>, es: seq<Event>, e: Event) returns (ys': seq<System>, es': seq<Event>)
    requires IsRun(cfg, ys, es) && CanHappen(ys[|es|], e)
    ensures IsRun(cfg, ys', es') && es' == es + [e] && ys'[|es'|] == Next(cfg, ys[|es|], e)
  {
    ys', es' := ys + [Next(cfg, ys[|es|], e)], es + [e];
    forall i | 0 <= i < |es'| ensures StepAt(cfg, ys', es', i) {
      if i < |es| { assert StepAt(cfg, ys, es, i); }
    }
  }

  // ---------------------------------------------------------------- invariant

  /** The length of the run of failures at the end. */
  function TrailingFailures(outcomes: seq<bool>): (n: nat)
    ensures n <= |outcomes|
  {
    if outcomes == [] || !outcomes[|outcomes| - 1] then 0 else TrailingFailures(outcomes[..|outcomes| - 1]) + 1
  }

  lemma TrailingAfter(outcomes: seq<bool>, failed: bool)
    ensures TrailingFailures(outcomes + [failed]) == if failed then TrailingFailures(outcomes) + 1 else 0
  {
    assert (outcomes + [failed])[..|outcomes|] == outcomes;
  }

  ghost predicate Inv(cfg: Config, y: System) {
    var b := y.breaker;
    && 0 <= b.consecutiveFailures
    && (b.phase.Closed? <==> b.consecutiveFailures < cfg.maxFailures)
    && (if b.phase.HalfOpen? then 1 <= b.halfOpenRequests <= cfg.maxHalfOpenRequests else b.halfOpenRequests == 0)
    && (b.phase.HalfOpen? ==> b.halfOpenRequests == y.trials <= y.inFlight)
    && y.calls == b.successes + b.failures + b.rejections + y.inFlight
    && (b.phase.Closed? ==> b.consecutiveFailures <= TrailingFailures(y.outcomes))
  }

  lemma StepKeepsInv(cfg: Config, y: System, e: Event)
    requires cfg.Valid() && Inv(cfg, y) && CanHappen(y, e)
    ensures Inv(cfg, Next(cfg, y, e))
  {
    if e.Done? { TrailingAfter(y.outcomes, e.failed); }
  }

  /** With stale completions and resets anywhere: closed exactly when below the failure threshold;
      one to the maximum of trial requests when half-open and none otherwise, never more than are
      in flight; and every call is accounted for as a success, a failure, a rejection or in
      flight. */
  lemma {:induction false} StateInvariant(cfg: Config, ys: seq<System>, es: seq<Event>, i: nat)
    requires cfg.Valid() && IsRun(cfg, ys, es) && i < |ys|
    ensures Inv(cfg, ys[i])
  {
    if i > 0 {
      StateInvariant(cfg, ys, es, i - 1);
      assert StepAt(cfg, ys, es, i - 1);
      StepKeepsInv(cfg, ys[i - 1], es[i - 1]);
    }
  }

  /** Half-open never gets stuck: a completion is always outstanding, and the next completion of
      any request, whenever it was admitted, leaves the state. */
  lemma HalfOpenAlwaysLeaves(cfg: Config, ys: seq<System>, es: seq<Event>, i: nat, failed: bool, now: Time)
    requires cfg.Valid() && IsRun(cfg, ys, es) && i < |ys| && ys[i].breaker.phase.HalfOpen?
    ensures ys[i].inFlight > 0
    ensures After(cfg, ys[i].breaker, failed, now).phase == if failed then Open else Closed
  {
    StateInvariant(cfg, ys, es, i);
  }

  /** The circuit opens from closed only when the last MaxFailures completions, stale ones
      included, all failed. */
  lemma OpensOnlyAfterMaxFailures(cfg: Config, ys: seq<System>, es: seq<Event>, i: nat)
    requires cfg.Valid() && IsRun(cfg, ys, es) && i < |es|
    requires ys[i].breaker.phase.Closed? && !ys[i + 1].breaker.phase.Closed?
    ensures var done := ys[i + 1].outcomes;
      |done| >= cfg.maxFailures && forall k | |done| - cfg.maxFailures <= k < |done| :: done[k]
  {
    StateInvariant(cfg, ys, es, i);
    assert StepAt(cfg, ys, es, i);
    var done := ys[i + 1].outcomes;
    assert es[i].Done? && es[i].failed;
    TrailingAfter(ys[i].outcomes, true);
    TrailingAreFailures(done);
  }

  lemma {:induction false} TrailingAreFailures(outcomes: seq<bool>)
    ensures forall k | |outcomes| - TrailingFailures(outcomes) <= k < |outcomes| :: outcomes[k]
  {
    if outcomes != [] && outcomes[|outcomes| - 1] {
      var shorter := outcomes[..|outcomes| - 1];
      TrailingAreFailures(shorter);
      forall k | |outcomes| - TrailingFailures(outcomes) <= k < |outcomes| ensures outcomes[k] {
        if k < |shorter| { assert shorter[k] == outcomes[k]; }
      }
    }
  }

  // ---------------------------------------------------------------- tripping

  /** When the latest failure before event i completed. */
  ghost function LatestFailure(es: seq<Event>, i: nat): Last
    requires i <= |es|
  {
    if i == 0 then Never
    else if es[i - 1].Done? && es[i - 1].failed then At(es[i - 1].now)
    else LatestFailure(es, i - 1)
  }

  /** A call in closed, more than ResetTimeout after the latest failure. */
  ghost predicate Expires(cfg: Config, ys: seq<System>, es: seq<Event>, i: nat)
    requires i < |es| && |ys| == |es| + 1
  {
    && es[i].Call? && ys[i].breaker.phase.Closed?
    && (LatestFailure(es, i).At? ==> es[i].now - LatestFailure(es, i).time > cfg.resetTimeout)
  }

  /** The failures since the last success, reset or expired call. */
  ghost function Streak(cfg: Config, ys: seq<System>, es: seq<Event>, i: nat): nat
    requires i <= |es| && |ys| == |es| + 1
  {
    if i == 0 then 0
    else match es[i - 1]
      case Done(failed, _) => if failed then Streak(cfg, ys, es, i - 1) + 1 else 0
      case Reset(_) => 0
      case Call(_) => if Expires(cfg, ys, es, i - 1) then 0 else Streak(cfg, ys, es, i - 1)
  }

  lemma {:induction false} ClosedCountsTheStreak(cfg: Config, ys: seq<System>, es: seq<Event>, i: nat)
    requires cfg.Valid() && IsRun(cfg, ys, es) && i <= |es|
    ensures ys[i].breaker.lastFailure == LatestFailure(es, i)
    ensures ys[i].breaker.phase.Closed? ==> ys[i].breaker.consecutiveFailures == Streak(cfg, ys, es, i)
  {
    if i > 0 {
      ClosedCountsTheStreak(cfg, ys, es, i - 1);
      assert StepAt(cfg, ys, es, i - 1);
    }
  }

  /** A closed breaker admits every call, and the next event opens it exactly when it is the
      failure that makes the streak MaxFailures long; otherwise it stays closed. */
  lemma TripsExactlyAtMaxFailures(cfg: Config, ys: seq<System>, es: seq<Event>, i: nat)
    requires cfg.Valid() && IsRun(cfg, ys, es) && i < |es| && ys[i].breaker.phase.Closed?
    ensures es[i].Call? ==> ys[i + 1].inFlight == ys[i].inFlight + 1
    ensures ys[i + 1].breaker.phase.Open? <==>
      es[i].Done? && es[i].failed && Streak(cfg, ys, es, i) + 1 == cfg.maxFailures
    ensures !ys[i + 1].breaker.phase.Open? ==> ys[i + 1].breaker.phase.Closed?
    ensures ys[i + 1].breaker.phase.Open? ==> ys[i + 1].breaker.openedAt == es[i].now
  {
    assert StepAt(cfg, ys, es, i);
    StateInvariant(cfg, ys, es, i);
    ClosedCountsTheStreak(cfg, ys, es, i);
  }

  /** The completions between two events. */
  ghost function Completions(es: seq<Event>, k: nat, i: nat): nat
    requires k <= i <= |es|
  {
    if k == i then 0 else Completions(es, k, i - 1) + (if es[i - 1].Done? then 1 else 0)
  }

  lemma {:induction false} StreakCoversCompletions(cfg: Config, ys: seq<System>, es: seq<Event>, k: nat, i: nat)
    requires k <= i <= |es| && |ys| == |es| + 1
    requires forall j | k <= j < i :: !es[j].Reset? && (es[j].Done? ==> es[j].failed)
    requires forall j | k <= j < i && Completions(es, k, j) > 0 :: !Expires(cfg, ys, es, j)
    ensures Completions(es, k, i) <= Streak(cfg, ys, es, i)
  {
    if k < i { StreakCoversCompletions(cfg, ys, es, k, i - 1); }
  }

  /** After MaxFailures completions that all failed, with no reset among them and no call in closed
      more than ResetTimeout after the failure before it, the breaker is not closed. */
  lemma FailuresInARowTrip(cfg: Config, ys: seq<System>, es: seq<Event>, k: nat, i: nat)
    requires cfg.Valid() && IsRun(cfg, ys, es) && k <= i <= |es|
    requires forall j | k <= j < i :: !es[j].Reset? && (es[j].Done? ==> es[j].failed)
    requires forall j | k <= j < i && Completions(es, k, j) > 0 :: !Expires(cfg, ys, es, j)
    requires Completions(es, k, i) >= cfg.maxFailures
    ensures !ys[i].breaker.phase.Closed?
  {
    StreakCoversCompletions(cfg, ys, es, k, i);
    ClosedCountsTheStreak(cfg, ys, es, i);
    StateInvariant(cfg, ys, es, i);
  }

  // ---------------------------------------------------------------- cooldown

  /** Once open at t0, and until a reset, every call before t0 + Timeout is rejected with
      ErrCircuitOpen and completions change nothing but counters. */
  lemma {:induction false} CooldownRejects(cfg: Config, ys: seq<System>, es: seq<Event>, i: nat, j: nat)
    requires cfg.Valid() && IsRun(cfg, ys, es) && i <= j <= |es| && ys[i].breaker.phase.Open?
    requires forall k | i <= k < j :: !es[k].Reset? && es[k].now < ys[i].breaker.openedAt + cfg.timeout
    ensures ys[j].breaker.phase.Open? && ys[j].breaker.openedAt == ys[i].breaker.openedAt
    ensures ys[j].inFlight <= ys[i].inFlight
    ensures ys[j].breaker.rejections - ys[i].breaker.rejections == ys[j].calls - ys[i].calls
    ensures forall k | i <= k < j && es[k].Call? :: Before(cfg, ys[k].breaker, es[k].now).1.CircuitOpen?
  {
    if i < j {
      CooldownRejects(cfg, ys, es, i, j - 1);
      assert StepAt(cfg, ys, es, j - 1);
    }
  }

  /** GetStats' countdown is zero exactly when a call at that instant would be admitted, except
      in one state a caller can see: half-open with every trial slot taken. */
  lemma CountdownTellsAdmission(cfg: Config, ys: seq<System>, es: seq<Event>, i: nat, now: Time)
    requires cfg.Valid() && IsRun(cfg, ys, es) && i < |ys|
    ensures var b := ys[i].breaker;
      (Countdown(cfg, b, now) == 0 <==> Before(cfg, b, now).1.Admitted?)
      <==> !(b.phase.HalfOpen? && b.halfOpenRequests == cfg.maxHalfOpenRequests)
  {
    StateInvariant(cfg, ys, es, i);
  }

  /** Outside half-open the countdown is exact: a call that much later, or any later, is admitted,
      and no earlier one is. */
  lemma CountdownIsExact(cfg: Config, ys: seq<System>, es: seq<Event>, i: nat, now: Time, later: nat)
    requires cfg.Valid() && IsRun(cfg, ys, es) && i < |ys| && !ys[i].breaker.phase.HalfOpen?
    ensures Before(cfg, ys[i].breaker, now + later).1.Admitted? <==> Countdown(cfg, ys[i].breaker, now) <= later
  {
    StateInvariant(cfg, ys, es, i);
  }

  /** Such a state is reached: after one failure and the timeout, the only trial slot is taken; the
      countdown is zero and a call is refused. */
  lemma CountdownMisleads() returns (cfg: Config, ys: seq<System>, es: seq<Event>)
    ensures cfg.Valid() && IsRun(cfg, ys, es)
    ensures var b := ys[|es|].breaker; Countdown(cfg, b, 10) == 0 && Before(cfg, b, 10).1.TooManyRequests?
  {
    cfg, ys, es := Config(1, 5, 5, 1), [Fresh()], [];
    ys, es := Then(cfg, ys, es, Call(0));
    ys, es := Then(cfg, ys, es, Done(true, 0));
    ys, es := Then(cfg, ys, es, Call(10));
  }

  /** The calls admitted between two states. */
  function AdmittedBetween(cfg: Config, ys: seq<System>, es: seq<Event>, i: nat, j: nat): nat
    requires i <= j <= |es| && |ys| == |es| + 1
  {
    if i == j then 0
    else
      var admitted := es[j - 1].Call? && Before(cfg, ys[j - 1].breaker, es[j - 1].now).1.Admitted?;
      AdmittedBetween(cfg, ys, es, i, j - 1) + (if admitted then 1 else 0)
  }

  /** One half-open episode, from the call that found the timeout elapsed until it ends, admits
      at most MaxHalfOpenRequests requests. */
  lemma {:induction false} EpisodeAdmitsAtMostMax(cfg: Config, ys: seq<System>, es: seq<Event>, i: nat, j: nat)
    requires cfg.Valid() && IsRun(cfg, ys, es) && i < j <= |es| && !ys[i].breaker.phase.HalfOpen?
    requires forall k | i < k <= j :: ys[k].breaker.phase.HalfOpen?
    ensures AdmittedBetween(cfg, ys, es, i, j) == ys[j].breaker.halfOpenRequests <= cfg.maxHalfOpenRequests
  {
    StateInvariant(cfg, ys, es, j);
    assert StepAt(cfg, ys, es, j - 1);
    if i + 1 < j {
      EpisodeAdmitsAtMostMax(cfg, ys, es, i, j - 1);
    } else {
      assert AdmittedBetween(cfg, ys, es, i, i) == 0;
    }
  }

  /** Without resets: the latest opening is openedAt, and once the circuit has left open since,
      Timeout has passed. */
  ghost predicate OpeningInv(cfg: Config, y: System) {
    var n := |y.openings|;
    && (y.breaker.phase.Open? || y.breaker.phase.HalfOpen? ==> n > 0)
    && (n > 0 ==> y.openings[n - 1] == y.breaker.openedAt)
    && (n > 0 && !y.breaker.phase.Open? ==> y.clock >= y.openings[n - 1] + cfg.timeout)
    && forall k | 0 < k < n :: y.openings[k] >= y.openings[k - 1] + cfg.timeout
  }

  lemma {:induction false} OpeningsAreSpaced(cfg: Config, ys: seq<System>, es: seq<Event>, i: nat)
    requires cfg.Valid() && IsRun(cfg, ys, es) && i < |ys| && (forall k | 0 <= k < i :: !es[k].Reset?)
    ensures OpeningInv(cfg, ys[i])
  {
    if i > 0 {
      OpeningsAreSpaced(cfg, ys, es, i - 1);
      StateInvariant(cfg, ys, es, i - 1);
      assert StepAt(cfg, ys, es, i - 1);
    }
  }

  /** Without resets, n openings span at least (n - 1) * Timeout. */
  lemma OpeningsSpan(cfg: Config, ys: seq<System>, es: seq<Event>, i: nat, a: nat, b: nat)
    requires cfg.Valid() && IsRun(cfg, ys, es) && i < |ys| && (forall k | 0 <= k < i :: !es[k].Reset?)
    requires a <= b < |ys[i].openings|
    ensures ys[i].openings[b] - ys[i].openings[a] >= (b - a) * cfg.timeout
  {
    OpeningsAreSpaced(cfg, ys, es, i);
    GapsAdd(ys[i].openings, cfg.timeout, a, b);
  }

  lemma {:induction false} GapsAdd(times: seq<Time>, gap: int, a: nat, b: nat)
    requires a <= b < |times| && forall k | 0 < k < |times| :: times[k] >= times[k - 1] + gap
    ensures times[b] - times[a] >= (b - a) * gap
  {
    if a < b {
      GapsAdd(times, gap, a, b - 1);
      assert (b - a) * gap == (b - 1 - a) * gap + gap;
    }
  }

  /** A reset forgets the cooldown: with one in between, two openings are a tenth of Timeout apart,
      so the spacing is claimed only of runs without resets. */
  lemma ResetForgetsCooldown() returns (cfg: Config, ys: seq<System>, es: seq<Event>)
    ensures cfg.Valid() && cfg.timeout == 10 && IsRun(cfg, ys, es)
    ensures (exists k :: 0 <= k < |es| && es[k].Reset?) && ys[|es|].openings == [0, 1]
  {
    cfg, ys, es := Config(1, 10, 10, 1), [Fresh()], [];
    ys, es := Then(cfg, ys, es, Call(0));
    ys, es := Then(cfg, ys, es, Done(true, 0));
    ys, es := Then(cfg, ys, es, Reset(0));
    ys, es := Then(cfg, ys, es, Call(1));
    ys, es := Then(cfg, ys, es, Done(true, 1));
    assert es[2].Reset?;
  }

  // ---------------------------------------------------------------- the object

  /** standardCircuitBreaker: the fields its methods update under the lock. */
  class Breaker {
    const config: Config
    var phase: Phase
    var consecutiveFailures: int
    var halfOpenRequests: int
    var lastFailure: Last
    var openedAt: Time
    var totalSuccesses: nat
    var totalFailures: nat
    var totalRejections: nat

    ghost function Value(): State
      reads this
    {
      State(phase, consecutiveFailures, halfOpenRequests, lastFailure, openedAt,
            totalSuccesses, totalFailures, totalRejections)
    }

    constructor (config: Config)
      requires config.maxFailures > 0 && config.timeout > 0 && config.resetTimeout > 0
      ensures this.config.Valid() && Value() == Initial()
      ensures this.config == config.Defaulted()
    {
      this.config := config.Defaulted();
      phase, consecutiveFailures, halfOpenRequests := Closed, 0, 0;
      lastFailure, openedAt := Never, 0;
      totalSuccesses, totalFailures, totalRejections := 0, 0, 0;
    }

    method BeforeRequest(now: Time) returns (admission: Admission)
      modifies this
      ensures (Value(), admission) == Before(config, old(Value()), now)
    {
      if phase == Closed {
        if lastFailure.Never? || now - lastFailure.time > config.resetTimeout {
          consecutiveFailures := 0;
        }
        return Admitted;
      }
      if phase == Open {
        if now - openedAt >= config.timeout {
          phase := HalfOpen;
          halfOpenRequests := 0;
        } else {
          totalRejections := totalRejections + 1;
          return CircuitOpen;
        }
      }
      if halfOpenRequests >= config.maxHalfOpenRequests {
        totalRejections := totalRejections + 1;
        return TooManyRequests;
      }
      halfOpenRequests := halfOpenRequests + 1;
      return Admitted;
    }

    method AfterRequest(failed: bool, now: Time)
      modifies this
      ensures Value() == After(config, old(Value()), failed, now)
    {
      if failed {
        totalFailures := totalFailures + 1;
        consecutiveFailures := consecutiveFailures + 1;
        lastFailure := At(now);
        if phase == HalfOpen {
          OpenCircuit(now);
        } else if phase == Closed {
          if consecutiveFailures >= config.maxFailures {
            OpenCircuit(now);
          }
        }
        return;
      }
      totalSuccesses := totalSuccesses + 1;
      if phase == HalfOpen {
        CloseCircuit();
      } else if phase == Closed {
        consecutiveFailures := 0;
      }
    }

    method OpenCircuit(now: Time)
      modifies this
      ensures Value() == Opened(old(Value()), now)
    {
      phase, openedAt, halfOpenRequests := Open, now, 0;
    }

    method CloseCircuit()
      modifies this
      ensures Value() == ResetState(old(Value()))
    {
      phase, consecutiveFailures, halfOpenRequests := Closed, 0, 0;
    }

    method Reset()
      modifies this
      ensures Value() == ResetState(old(Value()))
    {
      phase, consecutiveFailures, halfOpenRequests := Closed, 0, 0;
    }

    method TimeUntilNextAttempt(now: Time) returns (wait: int)
      ensures wait == Countdown(config, Value(), now)
      ensures 0 <= wait
    {
      wait := 0;
      if phase == Open {
        var elapsed := now - openedAt;
        if elapsed < config.timeout {
          wait := config.timeout - elapsed;
        }
      }
    }

    /** One whole Execute with nobody in between: fn runs exactly when the context is live and the
        breaker admits, and its outcome is recorded. */
    method Execute(canceled: bool, start: Time, fnFails: bool, end: Time) returns (ran: bool, admission: Admission)
      modifies this
      ensures canceled ==> !ran && Value() == old(Value())
      ensures !canceled ==> admission == Before(config, old(Value()), start).1 && ran == admission.Admitted?
      ensures !canceled && !ran ==> Value() == Before(config, old(Value()), start).0
      ensures !canceled && ran ==> Value() == After(config, Before(config, old(Value()), start).0, fnFails, end)
    {
      if canceled {
        return false, Admitted;
      }
      admission := BeforeRequest(start);
      if admission != Admitted {
        return false, admission;
      }
      ran := true;
      AfterRequest(fnFails, end);
    }
  }

  /** NewCircuitBreakerWithConfig: refused settings give an error and no breaker. */
  method NewCircuitBreakerWithConfig(config: Config) returns (cb: Breaker?)
    ensures cb != null <==> config.maxFailures > 0 && config.timeout > 0 && config.resetTimeout > 0
    ensures cb != null ==> fresh(cb) && cb.config.Valid() && cb.Value() == Initial()
    ensures cb != null ==> cb.config == config.(maxHalfOpenRequests := cb.config.maxHalfOpenRequests)
    ensures cb != null && config.maxHalfOpenRequests > 0 ==> cb.config == config
    ensures cb != null && config.maxHalfOpenRequests <= 0 ==> cb.config.maxHalfOpenRequests == 1
  {
    if config.maxFailures <= 0 || config.timeout <= 0 || config.resetTimeout <= 0 {
      return null;
    }
    cb := new Breaker(config);
  }
}
