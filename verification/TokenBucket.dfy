/** The distributed token bucket of ratelimiter.redis.go. One evaluation of the Lua script is one
    atomic step on the shared key, whoever makes it, so a trace of calls from any number of
    replicas is a sequence of times read from the one server clock. Arithmetic is over the reals;
    the rounding that storing numbers as text causes is an explicit error term. */
module TokenBucket {
  /** The configuration the constructor accepts. */
  datatype Limits = Limits(capacity: int, rate: int) {
    predicate Valid() { 0 < rate <= capacity }
  }

  /** The hash under the key; Missing before the first call and after expiry. */
  datatype Bucket = Missing | Held(tokens: real, updatedAt: real)

  const KEY_TTL: real := 600.0
  const POLL_INTERVAL: real := 0.02

  function Min(a: real, b: real): real { if a <= b then a else b }

  function Elapsed(now: real, updatedAt: real): real { if now - updatedAt < 0.0 then 0.0 else now - updatedAt }

  /** The tokens that flow in over a span of time. */
  function Inflow(l: Limits, span: real): real { span * l.rate as real }

  /** The tokens a call at now finds, after the refill. */
  function Level(l: Limits, b: Bucket, now: real): real {
    match b
    case Missing => l.capacity as real
    case Held(tokens, updatedAt) => Min(l.capacity as real, tokens + Inflow(l, Elapsed(now, updatedAt)))
  }

  predicate Allowed(l: Limits, b: Bucket, now: real) { Level(l, b, now) >= 1.0 }

  /** What is left after the decision. */
  function Spent(l: Limits, b: Bucket, now: real): real {
    if Allowed(l, b, now) then Level(l, b, now) - 1.0 else Level(l, b, now)
  }

  /** One call: when it runs and by how much the two stored numbers are off. */
  datatype Call = Call(now: real, tokenError: real, timeError: real)

  function Eval(l: Limits, b: Bucket, c: Call): Bucket {
    Held(Spent(l, b, c.now) + c.tokenError, c.now + c.timeError)
  }

  function After(l: Limits, b: Bucket, calls: seq<Call>): Bucket {
    if calls == [] then b else Eval(l, After(l, b, calls[..|calls| - 1]), calls[|calls| - 1])
  }

  /** The bucket the i-th call of a trace finds. */
  function Found(l: Limits, b: Bucket, calls: seq<Call>, i: nat): Bucket
    requires i <= |calls|
  {
    After(l, b, calls[..i])
  }

  lemma FoundNext(l: Limits, b: Bucket, calls: seq<Call>, i: nat)
    requires i < |calls|
    ensures Found(l, b, calls, i + 1) == Eval(l, Found(l, b, calls, i), calls[i])
  {
    assert calls[..i + 1][..i] == calls[..i];
  }

  predicate AnswerAt(l: Limits, b: Bucket, calls: seq<Call>, i: nat)
    requires i < |calls|
  {
    Allowed(l, Found(l, b, calls, i), calls[i].now)
  }

  /** The answers of a whole trace. */
  function Answers(l: Limits, b: Bucket, calls: seq<Call>): (answers: seq<bool>)
    ensures |answers| == |calls|
  {
    if calls == [] then []
    else
      var n := |calls| - 1;
      Answers(l, b, calls[..n]) + [Allowed(l, After(l, b, calls[..n]), calls[n].now)]
  }

  /** How many of the calls i, ..., j - 1 are allowed. */
  function AllowedIn(l: Limits, b: Bucket, calls: seq<Call>, i: nat, j: nat): nat
    requires i <= j <= |calls|
  {
    if i == j then 0 else AllowedIn(l, b, calls, i, j - 1) + (if AnswerAt(l, b, calls, j - 1) then 1 else 0)
  }

  ghost predicate ClockRuns(calls: seq<Call>) {
    forall i, j | 0 <= i <= j < |calls| :: calls[i].now <= calls[j].now
  }

  ghost predicate ErrorsWithin(calls: seq<Call>, et: real, ek: real) {
    0.0 <= et && 0.0 <= ek &&
    forall i | 0 <= i < |calls| :: -ek <= calls[i].tokenError <= ek && -et <= calls[i].timeError <= et
  }

  ghost predicate Exact(calls: seq<Call>) { ErrorsWithin(calls, 0.0, 0.0) }

  // ---------------------------------------------------------------- rate bound

  function Positive(x: real): real { if x < 0.0 then 0.0 else x }

  lemma InflowGrows(l: Limits, a: real, b: real)
    requires l.Valid() && a <= b
    ensures Inflow(l, a) <= Inflow(l, b)
  {
  }

  lemma InflowAdds(l: Limits, a: real, b: real)
    ensures Inflow(l, a + b) == Inflow(l, a) + Inflow(l, b) && Inflow(l, 0.0) == 0.0
  {
  }

  /** capacity + rate * span, plus rate * et + ek for each of n stored results. */
  function WindowBound(l: Limits, span: real, n: nat, et: real, ek: real): real {
    l.capacity as real + Inflow(l, span) + n as real * (Inflow(l, et) + ek)
  }

  /** The most one call can add to what the previous one, gap earlier, left behind. */
  function StepAllowance(l: Limits, gap: real, et: real, ek: real): real {
    Inflow(l, gap) + (Inflow(l, et) + ek)
  }

  /** The capacity plus the allowances of the steps from call i to call j - 1. */
  function Budget(l: Limits, calls: seq<Call>, i: nat, j: nat, et: real, ek: real): real
    requires i < j <= |calls|
  {
    if j == i + 1 then l.capacity as real
    else Budget(l, calls, i, j - 1, et, ek) + StepAllowance(l, calls[j - 1].now - calls[j - 2].now, et, ek)
  }

  lemma {:induction false} BudgetIsWindowBound(l: Limits, calls: seq<Call>, i: nat, j: nat, et: real, ek: real)
    requires i < j <= |calls|
    ensures Budget(l, calls, i, j, et, ek) == WindowBound(l, calls[j - 1].now - calls[i].now, j - 1 - i, et, ek)
  {
    if j > i + 1 {
      BudgetIsWindowBound(l, calls, i, j - 1, et, ek);
      WindowGrows(l, calls[j - 2].now - calls[i].now, calls[j - 1].now - calls[j - 2].now, j - 2 - i, et, ek);
    }
  }

  lemma WindowGrows(l: Limits, span: real, gap: real, n: nat, et: real, ek: real)
    ensures WindowBound(l, span + gap, n + 1, et, ek) == WindowBound(l, span, n, et, ek) + StepAllowance(l, gap, et, ek)
  {
    InflowAdds(l, span, gap);
    OneMoreTimes(n, Inflow(l, et) + ek);
  }

  lemma OneMoreTimes(n: nat, e: real)
    ensures (n + 1) as real * e == n as real * e + e
  {
  }

  lemma RefillBound(l: Limits, b: Bucket, c: Call, next: real, et: real, ek: real)
    requires l.Valid() && 0.0 <= et && 0.0 <= ek && c.tokenError <= ek && -et <= c.timeError && c.now <= next
    ensures Level(l, Eval(l, b, c), next) <= Positive(Spent(l, b, c.now)) + StepAllowance(l, next - c.now, et, ek)
    ensures 0.0 <= StepAllowance(l, next - c.now, et, ek)
  {
    var gap := next - c.now;
    InflowGrows(l, Elapsed(next, c.now + c.timeError), gap + et);
    InflowAdds(l, gap, et);
    InflowGrows(l, 0.0, gap);
    InflowGrows(l, 0.0, et);
  }

  /** What a call does to the count, as a real: 1 if it is allowed. */
  function Gain(l: Limits, b: Bucket, now: real): real { if Allowed(l, b, now) then 1.0 else 0.0 }

  /** Spending does not lose track: the answer and what is left add up to the level found. */
  lemma SpendingAddsUp(l: Limits, b: Bucket, now: real, most: real)
    requires Level(l, b, now) <= most && 0.0 <= most
    ensures Gain(l, b, now) + Positive(Spent(l, b, now)) <= most
  {
  }

  lemma AllowedGrows(l: Limits, b: Bucket, calls: seq<Call>, i: nat, j: nat)
    requires i < j <= |calls|
    ensures AllowedIn(l, b, calls, i, j) as real
      == AllowedIn(l, b, calls, i, j - 1) as real + Gain(l, Found(l, b, calls, j - 1), calls[j - 1].now)
  {
  }

  lemma PotentialStep(l: Limits, b: Bucket, calls: seq<Call>, k: nat, et: real, ek: real)
    requires l.Valid() && ClockRuns(calls) && ErrorsWithin(calls, et, ek) && k + 1 < |calls|
    ensures Gain(l, Found(l, b, calls, k + 1), calls[k + 1].now)
      + Positive(Spent(l, Found(l, b, calls, k + 1), calls[k + 1].now))
      <= Positive(Spent(l, Found(l, b, calls, k), calls[k].now))
        + StepAllowance(l, calls[k + 1].now - calls[k].now, et, ek)
  {
    var found, c, now := Found(l, b, calls, k), calls[k], calls[k + 1].now;
    FoundNext(l, b, calls, k);
    RefillBound(l, found, c, now, et, ek);
    SpendingAddsUp(l, Eval(l, found, c), now, Positive(Spent(l, found, c.now)) + StepAllowance(l, now - c.now, et, ek));
  }

  lemma AddBounds(allowed: real, left: real, budget: real, next: real, step: real)
    requires allowed + left <= budget && next <= left + step
    ensures allowed + next <= budget + step
  {
  }

  /** Allowed calls plus what the last one left never exceed the capacity plus the refill. */
  lemma {:induction false} AllowancePotential(
    l: Limits, b: Bucket, calls: seq<Call>, i: nat, j: nat, et: real, ek: real)
    requires l.Valid() && ClockRuns(calls) && ErrorsWithin(calls, et, ek) && i < j <= |calls|
    ensures AllowedIn(l, b, calls, i, j) as real + Positive(Spent(l, Found(l, b, calls, j - 1), calls[j - 1].now))
      <= Budget(l, calls, i, j, et, ek)
  {
    AllowedGrows(l, b, calls, i, j);
    if j == i + 1 {
      SpendingAddsUp(l, Found(l, b, calls, i), calls[i].now, l.capacity as real);
    } else {
      AllowancePotential(l, b, calls, i, j - 1, et, ek);
      PotentialStep(l, b, calls, j - 2, et, ek);
      var found, now := Found(l, b, calls, j - 1), calls[j - 1].now;
      AddBounds(AllowedIn(l, b, calls, i, j - 1) as real,
        Positive(Spent(l, Found(l, b, calls, j - 2), calls[j - 2].now)),
                Budget(l, calls, i, j - 1, et, ek), Gain(l, found, now) + Positive(Spent(l, found, now)),
                StepAllowance(l, now - calls[j - 2].now, et, ek));
    }
  }

  /** In any window of a trace, from any bucket, the calls allowed are at most the capacity plus
      the rate times the window's length; errors of at most et and ek in what each call stores
      raise that by at most rate * et + ek per call. */
  lemma RateBound(l: Limits, b: Bucket, calls: seq<Call>, i: nat, j: nat, et: real, ek: real)
    requires l.Valid() && ClockRuns(calls) && ErrorsWithin(calls, et, ek) && i < j <= |calls|
    ensures AllowedIn(l, b, calls, i, j) as real <= WindowBound(l, calls[j - 1].now - calls[i].now, j - 1 - i, et, ek)
  {
    AllowancePotential(l, b, calls, i, j, et, ek);
    BudgetIsWindowBound(l, calls, i, j, et, ek);
  }

  /** With exact arithmetic: capacity + rate * T. */
  lemma ExactRateBound(l: Limits, b: Bucket, calls: seq<Call>, i: nat, j: nat)
    requires l.Valid() && ClockRuns(calls) && Exact(calls) && i < j <= |calls|
    ensures AllowedIn(l, b, calls, i, j) as real <= l.capacity as real + Inflow(l, calls[j - 1].now - calls[i].now)
  {
    RateBound(l, b, calls, i, j, 0.0, 0.0);
    InflowAdds(l, 0.0, 0.0);
    NoErrorNoSlack(j - 1 - i, Inflow(l, 0.0) + 0.0);
  }

  lemma NoErrorNoSlack(n: nat, e: real)
    requires e == 0.0
    ensures n as real * e == 0.0
  {
  }

  // ---------------------------------------------------------------- exactness

  /** What the bound of the window from call i leaves for call j. */
  function Room(l: Limits, b: Bucket, calls: seq<Call>, i: nat, j: nat): real
    requires i <= j < |calls|
  {
    l.capacity as real + Inflow(l, calls[j].now - calls[i].now) - AllowedIn(l, b, calls, i, j) as real
  }

  /** How the level moves from one call to the next, when nothing is lost in storing. */
  lemma LevelStep(l: Limits, b: Bucket, calls: seq<Call>, j: nat)
    requires ClockRuns(calls) && Exact(calls) && j + 1 < |calls|
    ensures Level(l, Found(l, b, calls, j + 1), calls[j + 1].now)
      == Min(l.capacity as real,
             Level(l, Found(l, b, calls, j), calls[j].now) - Gain(l, Found(l, b, calls, j), calls[j].now)
               + Inflow(l, calls[j + 1].now - calls[j].now))
  {
    FoundNext(l, b, calls, j);
    assert calls[j].tokenError == 0.0 && calls[j].timeError == 0.0;
  }

  lemma RoomStep(l: Limits, b: Bucket, calls: seq<Call>, i: nat, j: nat)
    requires i <= j && j + 1 < |calls|
    ensures Room(l, b, calls, i, j + 1) == Room(l, b, calls, i, j)
      - Gain(l, Found(l, b, calls, j), calls[j].now) + Inflow(l, calls[j + 1].now - calls[j].now)
  {
    InflowAdds(l, calls[j].now - calls[i].now, calls[j + 1].now - calls[j].now);
    assert calls[j].now - calls[i].now + (calls[j + 1].now - calls[j].now) == calls[j + 1].now - calls[i].now;
    AllowedGrows(l, b, calls, i, j + 1);
  }

  lemma RoomHere(l: Limits, b: Bucket, calls: seq<Call>, j: nat)
    requires j < |calls|
    ensures Room(l, b, calls, j, j) == l.capacity as real
  {
    InflowAdds(l, 0.0, 0.0);
  }

  /** The level never exceeds what any window leaves. */
  lemma {:induction false} LevelWithinRoom(l: Limits, b: Bucket, calls: seq<Call>, i: nat, j: nat)
    requires ClockRuns(calls) && Exact(calls) && i <= j < |calls|
    ensures Level(l, Found(l, b, calls, j), calls[j].now) <= Room(l, b, calls, i, j)
  {
    if i == j {
      RoomHere(l, b, calls, j);
    } else {
      LevelWithinRoom(l, b, calls, i, j - 1);
      LevelStep(l, b, calls, j - 1);
      RoomStep(l, b, calls, i, j - 1);
    }
  }

  /** And some window, from the last call that found a full bucket, leaves no more. */
  lemma {:induction false} LevelIsSomeRoom(l: Limits, calls: seq<Call>, j: nat) returns (i: nat)
    requires ClockRuns(calls) && Exact(calls) && j < |calls|
    ensures i <= j && Level(l, Found(l, Missing, calls, j), calls[j].now) == Room(l, Missing, calls, i, j)
  {
    i := j;
    RoomHere(l, Missing, calls, j);
    if j > 0 {
      LevelStep(l, Missing, calls, j - 1);
      if Level(l, Found(l, Missing, calls, j), calls[j].now) < l.capacity as real {
        i := LevelIsSomeRoom(l, calls, j - 1);
        RoomStep(l, Missing, calls, i, j - 1);
      }
    }
  }

  /** The limiter refuses a call exactly when allowing it would break the rate bound of some window
      that ends with it: it keeps the bound and gives away nothing of it. */
  lemma AllowedExactlyWhenEveryWindowHasRoom(l: Limits, calls: seq<Call>, j: nat)
    requires ClockRuns(calls) && Exact(calls) && j < |calls|
    ensures AnswerAt(l, Missing, calls, j) <==> forall i | 0 <= i <= j :: Room(l, Missing, calls, i, j) >= 1.0
  {
    forall i | 0 <= i <= j
      ensures Level(l, Found(l, Missing, calls, j), calls[j].now) <= Room(l, Missing, calls, i, j)
    {
      LevelWithinRoom(l, Missing, calls, i, j);
    }
    var i := LevelIsSomeRoom(l, calls, j);
  }

  // ---------------------------------------------------------------- expiry

  /** The bucket after a trace in which the key vanishes before the calls that expired says. */
  function AfterExpiring(l: Limits, b: Bucket, calls: seq<Call>, expired: seq<bool>): Bucket
    requires |expired| == |calls|
    decreases |calls|, 0
  {
    if calls == [] then b
    else
      var n := |calls| - 1;
      Eval(l, FoundExpiring(l, b, calls, expired, n), calls[n])
  }

  /** What the i-th call of such a trace finds. */
  function FoundExpiring(l: Limits, b: Bucket, calls: seq<Call>, expired: seq<bool>, i: nat): Bucket
    requires |expired| == |calls| && i < |calls|
    decreases i, 1
  {
    if expired[i] then Missing else AfterExpiring(l, b, calls[..i], expired[..i])
  }

  function AnswersExpiring(l: Limits, b: Bucket, calls: seq<Call>, expired: seq<bool>): (answers: seq<bool>)
    requires |expired| == |calls|
    ensures |answers| == |calls|
  {
    if calls == [] then []
    else
      var n := |calls| - 1;
      AnswersExpiring(l, b, calls[..n], expired[..n])
        + [Allowed(l, FoundExpiring(l, b, calls, expired, n), calls[n].now)]
  }

  ghost predicate IdleLongEnough(b: Bucket, now: real) { b.Held? ==> now - b.updatedAt >= KEY_TTL }

  /** Keys expire only when idle for the whole TTL. */
  ghost predicate ExpiresWhenIdle(l: Limits, b: Bucket, calls: seq<Call>, expired: seq<bool>)
    requires |expired| == |calls|
  {
    forall i | 0 <= i < |calls| && expired[i] ::
      IdleLongEnough(AfterExpiring(l, b, calls[..i], expired[..i]), calls[i].now)
  }

  ghost predicate NonNegative(b: Bucket) { b.Held? ==> b.tokens >= 0.0 }

  lemma IdleBucketIsFull(l: Limits, b: Bucket, now: real)
    requires l.Valid() && l.capacity <= 600 * l.rate && NonNegative(b) && IdleLongEnough(b, now)
    ensures Level(l, b, now) == l.capacity as real
  {
    if b.Held? {
      InflowGrows(l, KEY_TTL, now - b.updatedAt);
      assert Inflow(l, KEY_TTL) == (600 * l.rate) as real;
    }
  }

  /** When the capacity refills within the TTL, expiring idle keys changes no answer and no bucket,
      anywhere in any trace. */
  lemma {:induction false} ExpiryIsInvisible(l: Limits, b: Bucket, calls: seq<Call>, expired: seq<bool>)
    requires l.Valid() && l.capacity <= 600 * l.rate && NonNegative(b) && Exact(calls)
    requires |expired| == |calls| && ExpiresWhenIdle(l, b, calls, expired)
    ensures AnswersExpiring(l, b, calls, expired) == Answers(l, b, calls)
    ensures AfterExpiring(l, b, calls, expired) == After(l, b, calls) && NonNegative(After(l, b, calls))
  {
    if calls != [] {
      var n := |calls| - 1;
      ExpiresWhenIdleBefore(l, b, calls, expired, n);
      ExpiryIsInvisible(l, b, calls[..n], expired[..n]);
      var found := After(l, b, calls[..n]);
      if expired[n] { IdleBucketIsFull(l, found, calls[n].now); }
      LevelNonNegative(l, found, calls[n].now);
    }
  }

  lemma ExpiresWhenIdleBefore(l: Limits, b: Bucket, calls: seq<Call>, expired: seq<bool>, n: nat)
    requires |expired| == |calls| && n <= |calls| && ExpiresWhenIdle(l, b, calls, expired)
    ensures ExpiresWhenIdle(l, b, calls[..n], expired[..n])
  {
    forall i | 0 <= i < n && expired[..n][i]
      ensures IdleLongEnough(AfterExpiring(l, b, calls[..n][..i], expired[..n][..i]), calls[..n][i].now)
    {
      assert calls[..n][..i] == calls[..i] && expired[..n][..i] == expired[..i];
    }
  }

  lemma LevelNonNegative(l: Limits, b: Bucket, now: real)
    requires l.Valid() && NonNegative(b)
    ensures 0.0 <= Level(l, b, now) && 0.0 <= Spent(l, b, now)
  {
    InflowAdds(l, 0.0, 0.0);
    if b.Held? { InflowGrows(l, 0.0, Elapsed(now, b.updatedAt)); }
  }

  function Burst(n: nat, at: real): seq<Call> { seq(n, _ => Call(at, 0.0, 0.0)) }

  lemma {:induction false} BurstDrains(l: Limits, b: Bucket, n: nat, at: real)
    requires l.Valid() && n as real <= Level(l, b, at)
    ensures After(l, b, Burst(n, at)) == if n == 0 then b else Held(Level(l, b, at) - n as real, at)
    ensures Level(l, After(l, b, Burst(n, at)), at) == Level(l, b, at) - n as real
  {
    if n > 0 {
      BurstDrains(l, b, n - 1, at);
      assert Burst(n, at)[..n - 1] == Burst(n - 1, at);
    }
  }

  lemma {:induction false} AfterConcat(l: Limits, b: Bucket, x: seq<Call>, y: seq<Call>)
    ensures After(l, b, x + y) == After(l, After(l, b, x), y)
  {
    if y == [] {
      assert x + y == x;
    } else {
      var n := |y| - 1;
      AfterConcat(l, b, x, y[..n]);
      assert (x + y)[..|x| + n] == x + y[..n];
    }
  }

  function OnlyAt(i: nat, n: nat): (expired: seq<bool>)
    ensures |expired| == n && forall k | 0 <= k < n :: expired[k] == (k == i)
  {
    seq(n, k => k == i)
  }

  lemma {:induction false} NothingExpires(l: Limits, b: Bucket, calls: seq<Call>, expired: seq<bool>)
    requires |expired| == |calls| && forall k | 0 <= k < |calls| :: !expired[k]
    ensures AfterExpiring(l, b, calls, expired) == After(l, b, calls)
  {
    if calls != [] { NothingExpires(l, b, calls[..|calls| - 1], expired[..|calls| - 1]); }
  }

  /** A key that expires once, right after x, starts over with y. */
  lemma {:induction false} ExpiredOnce(l: Limits, b: Bucket, x: seq<Call>, y: seq<Call>)
    requires y != []
    ensures AfterExpiring(l, b, x + y, OnlyAt(|x|, |x + y|)) == After(l, Missing, y)
  {
    var n := |y| - 1;
    assert (x + y)[|x| + n] == y[n];
    if n > 0 {
      ExpiredOnce(l, b, x, y[..n]);
      assert (x + y)[..|x| + n] == x + y[..n];
      assert OnlyAt(|x|, |x + y|)[..|x| + n] == OnlyAt(|x|, |x + y[..n]|);
    }
  }

  /** The whole capacity spent at once, and the whole TTL later one call more than it refills. */
  function TwoBursts(l: Limits, at: real): seq<Call>
    requires l.Valid()
  {
    Burst(l.capacity, at - KEY_TTL) + Burst(600 * l.rate + 1, at)
  }

  lemma TwoBurstsIdle(l: Limits, at: real)
    requires l.Valid()
    ensures var calls := TwoBursts(l, at);
      Exact(calls) && ClockRuns(calls) && ExpiresWhenIdle(l, Missing, calls, OnlyAt(l.capacity, |calls|))
  {
    var first, calls := Burst(l.capacity, at - KEY_TTL), TwoBursts(l, at);
    var expired := OnlyAt(l.capacity, |calls|);
    assert calls[..l.capacity] == first;
    NothingExpires(l, Missing, first, expired[..l.capacity]);
    BurstDrains(l, Missing, l.capacity, at - KEY_TTL);
  }

  /** Otherwise it shows, on a trace that starts from no key at all: the last call of the second
      burst is refused if the key survived and allowed if it expired after the first. */
  lemma ExpiryShowsAboveTtl(l: Limits, at: real)
    requires l.Valid() && l.capacity > 600 * l.rate
    ensures var calls := TwoBursts(l, at); var last := |calls| - 1;
      && !Answers(l, Missing, calls)[last]
      && AnswersExpiring(l, Missing, calls, OnlyAt(l.capacity, |calls|))[last]
  {
    var n, calls := 600 * l.rate, TwoBursts(l, at);
    var first, last := Burst(l.capacity, at - KEY_TTL), |calls| - 1;
    assert calls[..last] == first + Burst(n, at) && calls[last] == Call(at, 0.0, 0.0);
    SecondBurst(l, at);
    AfterConcat(l, Missing, first, Burst(n, at));
    ExpiredOnce(l, Missing, first, Burst(n, at));
    assert OnlyAt(l.capacity, |calls|)[..last] == OnlyAt(|first|, |first + Burst(n, at)|);
  }

  lemma SecondBurst(l: Limits, at: real)
    requires l.Valid() && l.capacity > 600 * l.rate
    ensures var n := 600 * l.rate; var drained := After(l, Missing, Burst(l.capacity, at - KEY_TTL));
      && !Allowed(l, After(l, drained, Burst(n, at)), at)
      && Allowed(l, After(l, Missing, Burst(n, at)), at)
  {
    var n := 600 * l.rate;
    var drained := After(l, Missing, Burst(l.capacity, at - KEY_TTL));
    BurstDrains(l, Missing, l.capacity, at - KEY_TTL);
    assert drained == Held(0.0, at - KEY_TTL);
    assert Elapsed(at, drained.updatedAt) == KEY_TTL && Inflow(l, KEY_TTL) == n as real;
    BurstDrains(l, drained, n, at);
    BurstDrains(l, Missing, n, at);
  }

  /** From no key at all, no trace gets an answer that expiring idle keys would change. */
  ghost predicate ExpiryNeverShows(l: Limits) {
    forall calls: seq<Call>, expired: seq<bool>
      | |expired| == |calls| && Exact(calls) && ClockRuns(calls) && ExpiresWhenIdle(l, Missing, calls, expired) ::
      AnswersExpiring(l, Missing, calls, expired) == Answers(l, Missing, calls)
  }

  /** The key TTL is harmless exactly when the whole capacity refills within it. */
  lemma ExpiryInvisibleExactlyWithinTtl(l: Limits)
    requires l.Valid()
    ensures ExpiryNeverShows(l) <==> l.capacity <= 600 * l.rate
  {
    if l.capacity <= 600 * l.rate {
      forall calls: seq<Call>, expired: seq<bool>
        | |expired| == |calls| && Exact(calls) && ClockRuns(calls) && ExpiresWhenIdle(l, Missing, calls, expired)
        ensures AnswersExpiring(l, Missing, calls, expired) == Answers(l, Missing, calls)
      {
        ExpiryIsInvisible(l, Missing, calls, expired);
      }
    } else {
      var calls := TwoBursts(l, 0.0);
      TwoBurstsIdle(l, 0.0);
      ExpiryShowsAboveTtl(l, 0.0);
      assert AnswersExpiring(l, Missing, calls, OnlyAt(l.capacity, |calls|)) != Answers(l, Missing, calls);
    }
  }

  // ---------------------------------------------------------------- denied calls

  /** The two buckets give every later call the same tokens. */
  ghost predicate SameFrom(l: Limits, a: Bucket, b: Bucket, from: real) {
    forall t | t >= from :: Level(l, a, t) == Level(l, b, t)
  }

  function Kept(calls: seq<Call>, keep: seq<bool>): seq<Call>
    requires |keep| == |calls|
  {
    if calls == [] then []
    else
      var n := |calls| - 1;
      Kept(calls[..n], keep[..n]) + (if keep[n] then [calls[n]] else [])
  }

  function KeptAnswers(l: Limits, b: Bucket, calls: seq<Call>, keep: seq<bool>): seq<bool>
    requires |keep| == |calls|
  {
    if calls == [] then []
    else
      var n := |calls| - 1;
      KeptAnswers(l, b, calls[..n], keep[..n]) +
        (if keep[n] then [Allowed(l, After(l, b, calls[..n]), calls[n].now)] else [])
  }

  ghost predicate DroppedAreDenied(l: Limits, b: Bucket, calls: seq<Call>, keep: seq<bool>)
    requires |keep| == |calls|
  {
    forall i | 0 <= i < |calls| && !keep[i] :: !AnswerAt(l, b, calls, i)
  }

  ghost predicate NotFromTheFuture(b: Bucket, calls: seq<Call>) {
    b.Held? && calls != [] ==> b.updatedAt <= calls[0].now
  }

  lemma DenialIsInvisible(l: Limits, b: Bucket, now: real)
    requires l.Valid() && (b.Held? ==> b.updatedAt <= now) && !Allowed(l, b, now)
    ensures SameFrom(l, Eval(l, b, Call(now, 0.0, 0.0)), b, now)
  {
    forall t | t >= now ensures Level(l, Eval(l, b, Call(now, 0.0, 0.0)), t) == Level(l, b, t) {
      InflowAdds(l, now - b.updatedAt, t - now);
      assert now - b.updatedAt + (t - now) == t - b.updatedAt;
    }
  }

  lemma {:induction false} UpdatedInThePast(l: Limits, b: Bucket, calls: seq<Call>, now: real)
    requires Exact(calls) && ClockRuns(calls) && NotFromTheFuture(b, calls)
    requires (calls == [] && b.Held? ==> b.updatedAt <= now) && (calls != [] ==> calls[|calls| - 1].now <= now)
    ensures var f := After(l, b, calls); f.Held? ==> f.updatedAt <= now
  {
  }

  /** The trace with the calls left out answers the others as the whole trace does, and finds the
      same from the last call on. */
  ghost predicate Unnoticed(l: Limits, b: Bucket, calls: seq<Call>, keep: seq<bool>)
    requires |keep| == |calls|
  {
    && Answers(l, b, Kept(calls, keep)) == KeptAnswers(l, b, calls, keep)
    && (calls != [] ==> SameFrom(l, After(l, b, calls), After(l, b, Kept(calls, keep)), calls[|calls| - 1].now))
  }

  /** Leaving any of the denied calls out of a trace changes no other answer, and no answer ever
      after. */
  lemma {:induction false} DeniedCallsAreInvisible(l: Limits, b: Bucket, calls: seq<Call>, keep: seq<bool>)
    requires l.Valid() && Exact(calls) && ClockRuns(calls) && NotFromTheFuture(b, calls)
    requires |keep| == |calls| && DroppedAreDenied(l, b, calls, keep)
    ensures Unnoticed(l, b, calls, keep)
  {
    if calls != [] {
      var n := |calls| - 1;
      DroppedBefore(l, b, calls, keep, n);
      DeniedCallsAreInvisible(l, b, calls[..n], keep[..n]);
      assert keep[n] || !AnswerAt(l, b, calls, n);
      assert calls == calls[..n] + [calls[n]] && keep == keep[..n] + [keep[n]];
      OneMoreUnnoticed(l, b, calls[..n], keep[..n], calls[n], keep[n]);
    }
  }

  lemma OneMoreUnnoticed(l: Limits, b: Bucket, before: seq<Call>, keep: seq<bool>, last: Call, keepLast: bool)
    requires l.Valid() && |keep| == |before| && Unnoticed(l, b, before, keep)
    requires Exact(before + [last]) && ClockRuns(before + [last]) && NotFromTheFuture(b, before + [last])
    requires keepLast || !Allowed(l, After(l, b, before), last.now)
    ensures Unnoticed(l, b, before + [last], keep + [keepLast])
  {
    var kept := Kept(before, keep);
    StillSame(l, b, before, kept, last);
    LastAfter(l, b, before, last);
    if keepLast {
      KeptLast(l, b, before, keep, last);
      KeptStep(l, b, before, kept, last);
    } else {
      DroppedLast(l, b, before, keep, last);
      DroppedStep(l, b, before, kept, last);
    }
  }

  lemma StillSame(l: Limits, b: Bucket, before: seq<Call>, kept: seq<Call>, last: Call)
    requires Exact(before + [last]) && ClockRuns(before + [last])
    requires before == [] ==> kept == []
    requires before != [] ==> SameFrom(l, After(l, b, before), After(l, b, kept), before[|before| - 1].now)
    ensures last == Call(last.now, 0.0, 0.0) && SameFrom(l, After(l, b, before), After(l, b, kept), last.now)
  {
    var calls, n := before + [last], |before|;
    assert calls[n] == last;
    if n > 0 {
      assert calls[n - 1].now <= calls[n].now;
      SameFromLater(l, After(l, b, before), After(l, b, kept), before[n - 1].now, last.now);
    }
  }

  lemma LastAfter(l: Limits, b: Bucket, before: seq<Call>, last: Call)
    ensures After(l, b, before + [last]) == Eval(l, After(l, b, before), last)
  {
    assert (before + [last])[..|before|] == before;
  }

  lemma KeptLast(l: Limits, b: Bucket, before: seq<Call>, keep: seq<bool>, last: Call)
    requires |keep| == |before|
    ensures Kept(before + [last], keep + [true]) == Kept(before, keep) + [last]
    ensures KeptAnswers(l, b, before + [last], keep + [true])
      == KeptAnswers(l, b, before, keep) + [Allowed(l, After(l, b, before), last.now)]
  {
    assert (before + [last])[..|before|] == before && (keep + [true])[..|before|] == keep;
  }

  lemma DroppedLast(l: Limits, b: Bucket, before: seq<Call>, keep: seq<bool>, last: Call)
    requires |keep| == |before|
    ensures Kept(before + [last], keep + [false]) == Kept(before, keep)
    ensures KeptAnswers(l, b, before + [last], keep + [false]) == KeptAnswers(l, b, before, keep)
  {
    assert (before + [last])[..|before|] == before && (keep + [false])[..|before|] == keep;
  }

  lemma DroppedBefore(l: Limits, b: Bucket, calls: seq<Call>, keep: seq<bool>, n: nat)
    requires |keep| == |calls| && n <= |calls| && DroppedAreDenied(l, b, calls, keep)
    ensures DroppedAreDenied(l, b, calls[..n], keep[..n])
  {
    forall i | 0 <= i < n && !keep[..n][i] ensures !AnswerAt(l, b, calls[..n], i) {
      assert calls[..n][..i] == calls[..i];
      assert !AnswerAt(l, b, calls, i);
    }
  }

  lemma SameFromLater(l: Limits, a: Bucket, b: Bucket, from: real, later: real)
    requires SameFrom(l, a, b, from) && from <= later
    ensures SameFrom(l, a, b, later)
  {
  }

  lemma KeptStep(l: Limits, b: Bucket, before: seq<Call>, kept: seq<Call>, last: Call)
    requires SameFrom(l, After(l, b, before), After(l, b, kept), last.now) && last == Call(last.now, 0.0, 0.0)
    ensures Answers(l, b, kept + [last]) == Answers(l, b, kept) + [Allowed(l, After(l, b, before), last.now)]
    ensures SameFrom(l, Eval(l, After(l, b, before), last), After(l, b, kept + [last]), last.now)
  {
    KeptOneMore(l, b, kept, last);
    SameLevelSameResult(l, After(l, b, before), After(l, b, kept), last.now);
  }

  lemma DroppedStep(l: Limits, b: Bucket, before: seq<Call>, kept: seq<Call>, last: Call)
    requires l.Valid() && SameFrom(l, After(l, b, before), After(l, b, kept), last.now)
    requires Exact(before + [last]) && ClockRuns(before + [last]) && NotFromTheFuture(b, before + [last])
    requires !Allowed(l, After(l, b, before), last.now)
    ensures SameFrom(l, Eval(l, After(l, b, before), last), After(l, b, kept), last.now)
  {
    var calls := before + [last];
    assert calls[|before|] == last && last == Call(last.now, 0.0, 0.0);
    assert forall i | 0 <= i < |before| :: calls[i] == before[i];
    UpdatedInThePast(l, b, before, last.now);
    var full := After(l, b, before);
    DenialIsInvisible(l, full, last.now);
    SameFromTransitive(l, Eval(l, full, last), full, After(l, b, kept), last.now);
  }

  lemma SameLevelSameResult(l: Limits, a: Bucket, b: Bucket, now: real)
    requires SameFrom(l, a, b, now)
    ensures Allowed(l, a, now) == Allowed(l, b, now)
    ensures Eval(l, a, Call(now, 0.0, 0.0)) == Eval(l, b, Call(now, 0.0, 0.0))
  {
    assert Level(l, a, now) == Level(l, b, now);
  }

  lemma SameFromTransitive(l: Limits, a: Bucket, b: Bucket, c: Bucket, from: real)
    requires SameFrom(l, a, b, from) && SameFrom(l, b, c, from)
    ensures SameFrom(l, a, c, from)
  {
    forall t | t >= from ensures Level(l, a, t) == Level(l, c, t) {
      assert Level(l, a, t) == Level(l, b, t);
    }
  }

  lemma KeptOneMore(l: Limits, b: Bucket, kept: seq<Call>, last: Call)
    ensures After(l, b, kept + [last]) == Eval(l, After(l, b, kept), last)
    ensures Answers(l, b, kept + [last]) == Answers(l, b, kept) + [Allowed(l, After(l, b, kept), last.now)]
  {
    assert (kept + [last])[..|kept|] == kept;
  }

  // ---------------------------------------------------------------- waiting

  /** ceil(1 / (rate * 0.02)). */
  function RetryBound(l: Limits): nat
    requires l.Valid()
  {
    (50 + l.rate - 1) / l.rate
  }

  lemma RetryBoundSuffices(l: Limits)
    requires l.Valid()
    ensures RetryBound(l) * l.rate >= 50
  {
    var r := l.rate;
    assert (50 + r - 1) / r * r + (50 + r - 1) % r == 50 + r - 1;
  }

  /** After k refused polls a lone waiter's bucket holds at least what flowed in since the first. */
  lemma DeniedPollKeepsRefill(l: Limits, b: Bucket, first: real, now: real)
    requires l.Valid() && b.Held? && first <= b.updatedAt <= now
    requires b.tokens >= Inflow(l, b.updatedAt - first) && !Allowed(l, b, now)
    ensures Spent(l, b, now) >= Inflow(l, now - first)
  {
    InflowAdds(l, b.updatedAt - first, now - b.updatedAt);
    assert b.updatedAt - first + (now - b.updatedAt) == now - first;
  }

  /** With less than one token flowed in since the first attempt, the bound has not been reached;
      lag is how many ticks had passed by then. */
  lemma NotYet(l: Limits, retries: nat, lag: nat, elapsed: real)
    requires l.Valid() && elapsed >= (retries - lag) as real * POLL_INTERVAL && Inflow(l, elapsed) < 1.0
    ensures retries < RetryBound(l) + lag
  {
    RetryBoundSuffices(l);
    if retries >= RetryBound(l) + lag {
      var k := retries - lag;
      InflowGrows(l, k as real * POLL_INTERVAL, elapsed);
      PolledInflow(l, k);
      MulMono(RetryBound(l), k, l.rate);
      assert false;
    }
  }

  lemma PolledInflow(l: Limits, retries: nat)
    ensures Inflow(l, retries as real * POLL_INTERVAL) == (retries * l.rate) as real * POLL_INTERVAL
  {
    assert (retries * l.rate) as real == retries as real * l.rate as real;
  }

  lemma MulMono(a: nat, b: nat, r: nat)
    requires a <= b
    ensures a * r <= b * r
  {
  }

  /** A bucket refused at now that has kept what flowed in since first. */
  ghost predicate RefilledSince(l: Limits, b: Bucket, first: real, now: real) {
    b.Held? && b.updatedAt == now && Inflow(l, now - first) <= b.tokens < 1.0
  }

  // ---------------------------------------------------------------- one key's life

  /** Call i comes KEY_TTL or more after the call before it. */
  predicate Gap(calls: seq<Call>, i: nat)
    requires i < |calls|
  {
    i > 0 && calls[i].now - calls[i - 1].now >= KEY_TTL
  }

  /** The key is gone after a gap. */
  function Expiries(calls: seq<Call>): (expired: seq<bool>)
    ensures |expired| == |calls| && forall i | 0 <= i < |calls| :: expired[i] == Gap(calls, i)
  {
    seq(|calls|, i requires 0 <= i < |calls| => Gap(calls, i))
  }

  lemma ExpiriesBefore(calls: seq<Call>, n: nat)
    requires n <= |calls|
    ensures Expiries(calls[..n]) == Expiries(calls)[..n]
  {
    forall i | 0 <= i < n ensures Gap(calls[..n], i) == Gap(calls, i) {}
  }

  lemma OneMoreCall(l: Limits, calls: seq<Call>, c: Call)
    ensures var found := if Gap(calls + [c], |calls|) then Missing
                         else AfterExpiring(l, Missing, calls, Expiries(calls));
      && AfterExpiring(l, Missing, calls + [c], Expiries(calls + [c])) == Eval(l, found, c)
      && AnswersExpiring(l, Missing, calls + [c], Expiries(calls + [c]))
           == AnswersExpiring(l, Missing, calls, Expiries(calls)) + [Allowed(l, found, c.now)]
  {
    var n := |calls|;
    assert (calls + [c])[..n] == calls;
    ExpiriesBefore(calls + [c], n);
  }

  /** How many of the answers i, ..., j - 1 are yes. */
  function Grants(answers: seq<bool>, i: nat, j: nat): nat
    requires i <= j <= |answers|
  {
    if i == j then 0 else Grants(answers, i, j - 1) + (if answers[j - 1] then 1 else 0)
  }

  /** Where no key expired between two calls, the bucket is as if none ever had. */
  lemma {:induction false} AfterWithoutGap(l: Limits, calls: seq<Call>, expired: seq<bool>, i: nat, j: nat)
    requires |expired| == |calls| && i < j <= |calls| && forall k | i < k < j :: !expired[k]
    ensures AfterExpiring(l, Missing, calls[..j], expired[..j])
      == After(l, FoundExpiring(l, Missing, calls, expired, i), calls[i..j])
  {
    var found, n := FoundExpiring(l, Missing, calls, expired, i), j - 1;
    assert calls[..j][..n] == calls[..n] && expired[..j][..n] == expired[..n];
    assert calls[i..j][..n - i] == calls[i..n] && calls[i..j][n - i] == calls[n];
    if n > i { AfterWithoutGap(l, calls, expired, i, n); }
  }

  lemma {:induction false} AnswersAt(l: Limits, calls: seq<Call>, expired: seq<bool>, k: nat)
    requires |expired| == |calls| && k < |calls|
    ensures AnswersExpiring(l, Missing, calls, expired)[k]
      == Allowed(l, FoundExpiring(l, Missing, calls, expired, k), calls[k].now)
  {
    var n := |calls| - 1;
    if k < n {
      AnswersAt(l, calls[..n], expired[..n], k);
      assert calls[..n][..k] == calls[..k] && expired[..n][..k] == expired[..k];
    }
  }

  lemma {:induction false} GrantsAreAllowed(l: Limits, calls: seq<Call>, expired: seq<bool>, i: nat, j: nat, m: nat)
    requires |expired| == |calls| && i <= m <= j <= |calls| && i < |calls| && forall k | i < k < j :: !expired[k]
    ensures Grants(AnswersExpiring(l, Missing, calls, expired), i, m)
      == AllowedIn(l, FoundExpiring(l, Missing, calls, expired, i), calls[i..j], 0, m - i)
  {
    if i < m {
      var k := m - 1;
      GrantsAreAllowed(l, calls, expired, i, j, k);
      GrantIsAllowed(l, calls, expired, i, j, k);
    }
  }

  lemma GrantIsAllowed(l: Limits, calls: seq<Call>, expired: seq<bool>, i: nat, j: nat, k: nat)
    requires |expired| == |calls| && i <= k < j <= |calls| && forall x | i < x < j :: !expired[x]
    ensures AnswersExpiring(l, Missing, calls, expired)[k]
      == AnswerAt(l, FoundExpiring(l, Missing, calls, expired, i), calls[i..j], k - i)
  {
    AnswersAt(l, calls, expired, k);
    assert calls[i..j][..k - i] == calls[i..k] && calls[i..j][k - i] == calls[k];
    if k > i { AfterWithoutGap(l, calls, expired, i, k); }
  }

  /** In any window without a gap of KEY_TTL, the yeses of one key are within the rate bound. */
  lemma GrantsBounded(l: Limits, calls: seq<Call>, i: nat, j: nat, et: real, ek: real)
    requires l.Valid() && ClockRuns(calls) && ErrorsWithin(calls, et, ek) && i < j <= |calls|
    requires forall k | i < k < j :: !Gap(calls, k)
    ensures Grants(AnswersExpiring(l, Missing, calls, Expiries(calls)), i, j) as real
      <= WindowBound(l, calls[j - 1].now - calls[i].now, j - 1 - i, et, ek)
  {
    var expired := Expiries(calls);
    var found := FoundExpiring(l, Missing, calls, expired, i);
    GrantsAreAllowed(l, calls, expired, i, j, j);
    WindowOf(calls, i, j, et, ek);
    RateBound(l, found, calls[i..j], 0, j - i, et, ek);
  }

  lemma WindowOf(calls: seq<Call>, i: nat, j: nat, et: real, ek: real)
    requires ClockRuns(calls) && ErrorsWithin(calls, et, ek) && i < j <= |calls|
    ensures ClockRuns(calls[i..j]) && ErrorsWithin(calls[i..j], et, ek)
    ensures calls[i..j][0] == calls[i] && calls[i..j][j - i - 1] == calls[j - 1]
  {
    forall a, b | 0 <= a <= b < j - i ensures calls[i..j][a].now <= calls[i..j][b].now {
      assert calls[i + a].now <= calls[i + b].now;
    }
  }

  /** In any window at all, when the capacity refills within the TTL and nothing is lost in storing. */
  lemma GrantsBoundedAcrossExpiries(l: Limits, calls: seq<Call>, i: nat, j: nat)
    requires l.Valid() && l.capacity <= 600 * l.rate && ClockRuns(calls) && Exact(calls) && i < j <= |calls|
    ensures Grants(AnswersExpiring(l, Missing, calls, Expiries(calls)), i, j) as real
      <= l.capacity as real + Inflow(l, calls[j - 1].now - calls[i].now)
  {
    ExpiriesAreIdle(l, calls);
    ExpiryIsInvisible(l, Missing, calls, Expiries(calls));
    PlainGrants(l, calls, i, j);
    ExactRateBound(l, Missing, calls, i, j);
  }

  lemma ExpiriesAreIdle(l: Limits, calls: seq<Call>)
    requires Exact(calls)
    ensures ExpiresWhenIdle(l, Missing, calls, Expiries(calls))
  {
    var expired := Expiries(calls);
    forall i | 0 <= i < |calls| && expired[i]
      ensures IdleLongEnough(AfterExpiring(l, Missing, calls[..i], expired[..i]), calls[i].now)
    {
      assert Gap(calls, i);
      assert calls[..i][i - 1] == calls[i - 1] && calls[i - 1].timeError == 0.0;
    }
  }

  lemma {:induction false} AnswerOf(l: Limits, b: Bucket, calls: seq<Call>, k: nat)
    requires k < |calls|
    ensures Answers(l, b, calls)[k] == AnswerAt(l, b, calls, k)
  {
    var n := |calls| - 1;
    if k < n {
      AnswerOf(l, b, calls[..n], k);
      assert calls[..n][..k] == calls[..k];
    }
  }

  lemma {:induction false} PlainGrants(l: Limits, calls: seq<Call>, i: nat, j: nat)
    requires i <= j <= |calls|
    ensures Grants(Answers(l, Missing, calls), i, j) == AllowedIn(l, Missing, calls, i, j)
  {
    if i < j {
      PlainGrants(l, calls, i, j - 1);
      AnswerOf(l, Missing, calls, j - 1);
    }
  }

  /** What a reader finds: nothing once the key has expired. */
  function Read(bucket: Bucket, expiresAt: real, now: real): Bucket {
    if bucket.Held? && now >= expiresAt then Missing else bucket
  }

  /** A key after all its calls so far, and the answers it gave. */
  ghost predicate Life(l: Limits, bucket: Bucket, expiresAt: real, calls: seq<Call>, answers: seq<bool>) {
    && bucket == AfterExpiring(l, Missing, calls, Expiries(calls))
    && answers == AnswersExpiring(l, Missing, calls, Expiries(calls))
    && (calls != [] ==> bucket.Held? && expiresAt == calls[|calls| - 1].now + KEY_TTL)
  }

  lemma LifeGoesOn(l: Limits, bucket: Bucket, expiresAt: real, calls: seq<Call>, answers: seq<bool>, c: Call)
    requires Life(l, bucket, expiresAt, calls, answers)
    ensures var found := Read(bucket, expiresAt, c.now);
      Life(l, Eval(l, found, c), c.now + KEY_TTL, calls + [c], answers + [Allowed(l, found, c.now)])
  {
    OneMoreCall(l, calls, c);
  }

  // ---------------------------------------------------------------- the objects

  /** The key on the shared server, with all calls made on it so far and their answers. */
  class Redis {
    var bucket: Bucket
    var expiresAt: real
    ghost var calls: seq<Call>
    ghost var answers: seq<bool>

    /** The object has lived the life of one key, under limits l. */
    ghost predicate Lived(l: Limits)
      reads this
    {
      Life(l, bucket, expiresAt, calls, answers)
    }

    constructor ()
      ensures bucket == Missing && calls == [] && answers == [] && forall l :: Lived(l)
    {
      bucket, expiresAt := Missing, 0.0;
      calls, answers := [], [];
    }

    function At(now: real): Bucket
      reads this
    {
      Read(bucket, expiresAt, now)
    }

    /** The Lua script; the errors are what the two numbers lose on being stored as text. */
    method TokenBucketScript(l: Limits, now: real, tokenError: real, timeError: real) returns (allowed: int)
      modifies this
      ensures allowed == (if Allowed(l, old(At(now)), now) then 1 else 0)
      ensures bucket == Eval(l, old(At(now)), Call(now, tokenError, timeError))
      ensures expiresAt == now + KEY_TTL
      ensures calls == old(calls) + [Call(now, tokenError, timeError)] && answers == old(answers) + [allowed == 1]
      ensures old(Lived(l)) ==> Lived(l)
    {
      if Lived(l) { LifeGoesOn(l, bucket, expiresAt, calls, answers, Call(now, tokenError, timeError)); }
      var tokens, updatedAt;
      if bucket.Missing? || now >= expiresAt {
        tokens, updatedAt := l.capacity as real, now;
      } else {
        tokens, updatedAt := bucket.tokens, bucket.updatedAt;
      }
      var elapsed := now - updatedAt;
      if elapsed < 0.0 {
        elapsed := 0.0;
      }
      tokens := Min(l.capacity as real, tokens + Inflow(l, elapsed));
      allowed := 0;
      if tokens >= 1.0 {
        tokens := tokens - 1.0;
        allowed := 1;
      }
      bucket := Held(tokens + tokenError, now + timeError);
      expiresAt := now + KEY_TTL;
      calls, answers := calls + [Call(now, tokenError, timeError)], answers + [allowed == 1];
    }

    /** What all replicas together have been granted, in any stretch of calls without a gap of
        KEY_TTL, is within the rate bound. */
    lemma GrantedWithinRate(l: Limits, i: nat, j: nat, et: real, ek: real)
      requires l.Valid() && Lived(l) && ClockRuns(calls) && ErrorsWithin(calls, et, ek) && i < j <= |calls|
      requires forall k | i < k < j :: !Gap(calls, k)
      ensures |answers| == |calls|
      ensures Grants(answers, i, j) as real <= WindowBound(l, calls[j - 1].now - calls[i].now, j - 1 - i, et, ek)
    {
      GrantsBounded(l, calls, i, j, et, ek);
    }
  }

  /** What may go wrong on the way to the server. After a Redis error the script has or has not
      been evaluated. */
  datatype Fault = NoFault | ContextDone | RedisError(evaluated: bool)

  datatype Answer = Granted | Refused | Failed

  /** One process's limiter on the shared key. */
  class Limiter {
    const redis: Redis
    var limits: Limits
    var closed: bool
    var allowedCount: nat
    var blockedCount: nat
    var waitCount: nat

    constructor (redis: Redis, limits: Limits)
      requires limits.Valid()
      ensures this.redis == redis && this.limits == limits && !closed && allowedCount == blockedCount == waitCount == 0
    {
      this.redis, this.limits, closed := redis, limits, false;
      allowedCount, blockedCount, waitCount := 0, 0, 0;
    }

    method Allow(call: Call, fault: Fault) returns (answer: Answer)
      modifies this`allowedCount, this`blockedCount, redis
      ensures answer.Failed? <==> closed || !fault.NoFault?
      ensures !answer.Failed? ==> (answer.Granted? <==> Allowed(limits, old(redis.At(call.now)), call.now))
      ensures if !closed && fault in {NoFault, RedisError(true)}
        then redis.bucket == Eval(limits, old(redis.At(call.now)), call) && redis.expiresAt == call.now + KEY_TTL
        else unchanged(redis)
      ensures allowedCount == old(allowedCount) + (if answer.Granted? then 1 else 0)
      ensures blockedCount == old(blockedCount) + (if answer.Refused? then 1 else 0)
      ensures old(redis.Lived(limits)) ==> redis.Lived(limits)
    {
      if closed || fault.ContextDone? {
        return Failed;
      }
      if fault.RedisError? {
        if fault.evaluated {
          var _ := redis.TokenBucketScript(limits, call.now, call.tokenError, call.timeError);
        }
        return Failed;
      }
      var res := redis.TokenBucketScript(limits, call.now, call.tokenError, call.timeError);
      if res == 1 {
        allowedCount := allowedCount + 1;
        return Granted;
      }
      blockedCount := blockedCount + 1;
      return Refused;
    }

    /** The first attempt of a wait. */
    method FirstTry(now: real, fault: Fault) returns (answer: Answer)
      requires limits.Valid() && !closed && NonNegative(redis.bucket)
      modifies this`allowedCount, this`blockedCount, redis
      ensures answer.Failed? <==> !fault.NoFault?
      ensures answer.Refused? ==> RefilledSince(limits, redis.bucket, now, now)
      ensures allowedCount == old(allowedCount) + (if answer.Granted? then 1 else 0)
      ensures blockedCount == old(blockedCount) + (if answer.Refused? then 1 else 0)
      ensures old(redis.Lived(limits)) ==> redis.Lived(limits)
    {
      LevelNonNegative(limits, redis.At(now), now);
      InflowAdds(limits, 0.0, 0.0);
      answer := Allow(Call(now, 0.0, 0.0), fault);
    }

    /** One more, for a waiter nobody else has interfered with since its first at first. */
    method Retry(first: real, now: real, fault: Fault) returns (answer: Answer)
      requires limits.Valid() && !closed && redis.bucket.Held? && first <= redis.bucket.updatedAt <= now
      requires RefilledSince(limits, redis.bucket, first, redis.bucket.updatedAt)
      modifies this`allowedCount, this`blockedCount, redis
      ensures answer.Failed? <==> !fault.NoFault?
      ensures answer.Refused? ==> RefilledSince(limits, redis.bucket, first, now)
      ensures allowedCount == old(allowedCount) + (if answer.Granted? then 1 else 0)
      ensures blockedCount == old(blockedCount) + (if answer.Refused? then 1 else 0)
      ensures old(redis.Lived(limits)) ==> redis.Lived(limits)
    {
      ghost var found := redis.bucket;
      answer := Allow(Call(now, 0.0, 0.0), fault);
      if answer.Refused? { DeniedPollKeepsRefill(limits, found, first, now); }
    }

    /** poll(k) is when the k-th retry is evaluated and canceled(k) whether the context ends the wait
        before it. The ticker starts at start, so the k-th retry follows the k-th tick; lag bounds the
        ticks already gone when the first attempt is evaluated. A lone waiter is then admitted within
        RetryBound + lag retries, unless a fault or a cancellation comes first. */
    method Wait(start: real, poll: nat -> real, lag: nat, faults: nat -> Fault, canceled: nat -> bool)
      returns (retries: nat, ok: bool)
      requires limits.Valid() && NonNegative(redis.bucket)
      requires redis.bucket.Held? ==> redis.bucket.updatedAt <= poll(0)
      requires poll(0) <= start + lag as real * POLL_INTERVAL
      requires forall k: nat :: poll(k) >= start + k as real * POLL_INTERVAL
      requires forall j: nat, k: nat | j <= k :: poll(j) <= poll(k)
      modifies this`allowedCount, this`blockedCount, this`waitCount, redis
      ensures waitCount == old(waitCount) + (if closed then 0 else 1)
      ensures retries <= RetryBound(limits) + lag
      ensures ok ==> !closed && allowedCount == old(allowedCount) + 1 && blockedCount == old(blockedCount) + retries
      ensures !ok ==> closed || !faults(retries).NoFault? || canceled(retries)
      ensures !ok ==> allowedCount == old(allowedCount)
      ensures old(redis.Lived(limits)) ==> redis.Lived(limits)
      ensures forall k: nat | k < retries :: faults(k).NoFault?
    {
      retries, ok := 0, false;
      if closed {
        return;
      }
      waitCount := waitCount + 1;
      var answer := FirstTry(poll(0), faults(0));
      while answer.Refused?
        invariant !closed && retries <= RetryBound(limits) + lag && waitCount == old(waitCount) + 1
        invariant old(redis.Lived(limits)) ==> redis.Lived(limits)
        invariant forall k: nat | k < retries :: faults(k).NoFault?
        invariant answer.Failed? <==> !faults(retries).NoFault?
        invariant allowedCount == old(allowedCount) + (if answer.Granted? then 1 else 0)
        invariant blockedCount == old(blockedCount) + retries + (if answer.Refused? then 1 else 0)
        invariant answer.Refused? ==> RefilledSince(limits, redis.bucket, poll(0), poll(retries))
        decreases RetryBound(limits) + lag - retries, answer.Refused?
      {
        assert poll(retries) >= start + retries as real * POLL_INTERVAL;
        NotYet(limits, retries, lag, poll(retries) - poll(0));
        retries := retries + 1;
        if canceled(retries) {
          return;
        }
        assert poll(retries - 1) <= poll(retries) && poll(0) <= poll(retries - 1);
        answer := Retry(poll(0), poll(retries), faults(retries));
      }
      ok := answer.Granted?;
    }
  }

  /** The constructor's checks; connects is whether the server answers the ping. */
  method NewRedisRateLimiter(redis: Redis, limits: Limits, connects: bool) returns (limiter: Limiter?)
    ensures limiter != null <==> limits.Valid() && connects
    ensures limiter != null ==> fresh(limiter) && limiter.redis == redis && limiter.limits == limits && !limiter.closed
  {
    if limits.rate <= 0 || limits.capacity < limits.rate || !connects {
      return null;
    }
    limiter := new Limiter(redis, limits);
  }
}
