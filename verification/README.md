# grnoti, modelled in Dafny

grnoti is a Go library that delivers push notifications: it resolves devices, sends batches through
Firebase Cloud Messaging (FCM), retries, and keeps what could not be delivered in a dead-letter queue
(DLQ). This project models the parts of it that carry a protocol or an arithmetic promise and proves
what they promise over every input, every run and every interleaving.

| file | models |
|---|---|
| `Backoff.dfy` | full-jitter backoff over wrapping 64-bit integers |
| `Dlq.dfy` | the dead-letter queue as atomic operations, its runs and its lifetime invariant |
| `DlqHistory.dfy` | every field of a record read off what happened to its event |
| `MemoryDlq.dfy` | the in-memory queue: map, scan, sort and purge loops |
| `DlqBackends.dfy` | PostgreSQL and MongoDB as a step system of concurrent workers that refines `Dlq.dfy` |
| `DatabaseDlq.dfy` | the PostgreSQL and MongoDB calls as objects, run without interference |
| `CircuitBreaker.dfy` | the three-state breaker with stale completions and resets |
| `TokenBucket.dfy` | the Redis token bucket shared by any number of replicas |
| `WorkerPool.dfy` | bounded queue, workers, and close-drain-cancel shutdown |
| `BatchSplitter.dfy`, `Dispatch.dfy`, `Service.dfy` | dispatch from resolved devices to the dead-letter decision |
| `Experiments.dfy` | weighted bucketing and the two assignment caches |
| `TemplateCache.dfy`, `PreferencesCache.dfy` | two caches that must not show |

Check everything with `dafny verify dfyconfig.toml`.

## How the model is built

Each stateful part is given twice. A pure state with a step function carries the run lemmas: `IsRun`
says that a sequence of states starts empty and follows enabled steps, in any order and from any
number of workers. A class with the source's fields and loops carries the code's shape, and each of
its methods is proved to make exactly that step. Clocks, random draws, MD5, template compilation,
FCM's answers, cancellations and cache failures are inputs, so every statement holds for all of them.

The refinement in `DlqBackends.dfy` makes each SQL or MongoDB statement one atomic step. A worker
between the guarded increment and the unguarded finalize of `MarkRetried` has a row that is already
counted; the abstraction `Abs` takes one off the count of such rows. `Linearized` names the atomic
operation a step performs, which for a mark is its finalize. `CanStep` builds in two assumptions
about the time between the two statements of a mark: nobody else starts to mark the row, and no purge
deletes it. They hold when claimed rows are marked only by their holder and purges spare claimed rows
(`HeldRunIsRun`), and also when the claimer marks its list from several goroutines.
`MarksAgreeExactlyWhenApart` and `PurgeSafeExactlyWhenSparedOrRescheduling` show what goes wrong
without them, and exactly when.

## Where code and documentation disagree

The model follows the code.

- `FullJitterBackoff` documents a result within `min(ceiling, base * 2^attempt)`. That holds exactly
  for ceilings of at most 2^62 ns (`PromiseKeptExactlyUpTo2To62`); at the largest ceiling it can
  panic (`PanicsExactlyAtMaxInt64`).
- `MarkRetried`'s comment in `dlq.mongo.go` says its filter lets only one caller through. The filter
  holds until the first finalize, so two overlapping marks of one claim both count
  (`MarksAgreeExactlyWhenApart`).
- `GetStats`' countdown is zero while a half-open breaker has no trial slot left, although a call
  would be refused (`CountdownTellsAdmission`, `CountdownMisleads`).
- The token bucket's key TTL is called harmless. It is so exactly when the capacity refills within it
  (`ExpiryInvisibleExactlyWithinTtl`).
- `deterministicPick` calls its last return unreachable. It is; but above 2^32 total weight the
  buckets are no longer shared out by weight, and a multiple of 2^32 panics
  (`FairExactlyWithin32Bits`, `OverweightLists`).
- A claim limit of zero or less means "all" in memory and 10 in the databases; a repeated publish
  records the retry count in memory and 0 in the databases. `NumberingIsInvisible` shows that the
  second difference never reaches an answer.

## Model

| member | source | states |
|---|---|---|
| Backoff.Wrap64 | retrystrategy.go:36-53 | int64 reduction: congruent modulo 2^64, and the identity on values that fit |
| Backoff.CapIsPromised | retrystrategy.go:36-53 | for ceilings up to 2^62 the draw's upper end is positive and at most min(ceiling, base * 2^attempt) even when the product wraps, and equal to it whenever the true product is below 2^63 |
| Backoff.BackoffInRange | retrystrategy.go:36-53 | every draw gives a delay in [0, min(ceiling, base * 2^attempt)] and never panics, for ceilings up to 2^62; base <= 0 gives 0 |
| Backoff.BackoffReachesEveryDelay | retrystrategy.go:36-53 | when the true product fits, every delay in the promised range is some draw's answer |
| Backoff.CeilingInForce | retrystrategy.go:40-50 | from attempt 62 on and for negative attempts every delay up to the ceiling, and none above, is some draw's answer; without a ceiling it is 30 seconds |
| Backoff.RangeIsFullExactlyUnlessWrappedInside | retrystrategy.go:46-50 | below attempt 62 the jitter uses the whole promised range if and only if the product fits in 63 bits or wraps to something outside (0, ceiling) |
| Backoff.WrappedProductCollapses | retrystrategy.go:46-50 | base 2^62 + 1 at attempt 2 wraps, and the range collapses to 4 ns |
| Backoff.PromiseKeptExactlyUpTo2To62 | retrystrategy.go:36-53 | the documented range holds for all bases, attempts and draws if and only if the effective ceiling is at most 2^62 ns |
| Backoff.PromiseBrokenAbove2To62 | retrystrategy.go:36-53 | concrete failure: base 1, attempt 62, any ceiling above 2^62 |
| Backoff.PanicsExactlyAtMaxInt64 | retrystrategy.go:36-53 | the random draw panics exactly when its inclusive upper end is the largest int64, which needs that ceiling |
| Dlq.Config.RetryDelay | memory.go:291-293 | the delay of a rescheduled record is never negative and within the backoff's promised bound; what reaches it is stated by ReschedulesAnywhereInRange |
| Dlq.ClaimOneMore | dlq.mongo.go:179-209 | claiming the soonest due record after a claim has been made is one claim of one more |
| Dlq.ClaimComplete | dlq.mongo.go:190-207 | one-by-one claiming that reaches its limit or finds nothing has made a complete claim |
| Dlq.StepKeepsInv | memory.go:206-331 | every operation keeps the lifetime invariant of every record |
| Dlq.LifetimeInvariant | memory.go:196-331 | in every state of every run: pending or retrying means retries left, exhausted means none left, claims made = retry count plus the claim held and never above MaxRetries, exactly one success in the history if resolved and none otherwise, attempt numbers start at 0, rise by 0 or 1 and end at the retry count |
| Dlq.TerminalNeverReopens | memory.go:206-306 | from the moment it is resolved or exhausted until it is purged a record keeps its status, count, schedule, history so far and number of claims |
| Dlq.RescheduledWithinBackoff | memory.go:291-293 | a record sent back to pending is due no earlier than now and no later than now plus the promised backoff |
| Dlq.ReschedulesAnywhereInRange | memory.go:280-306 | a record failing its (k+1)-th retry with retries left is rescheduled at now + nanos for every nanos up to min(ceiling, retryDelay * 2^(k+1)), each by some draw; nothing else of it changes but count, status and one history entry |
| Dlq.ReschedulesAtOnceWithoutDelay | memory.go:291-293 | without a base delay it is due at once |
| Dlq.ClaimMovesDueUpToLimit | memory.go:240-265 | a claim moves pending records whose time has come and no others, the soonest first, min(limit, due) of them or all without a limit, and changes nothing but their status |
| Dlq.PurgeKeepsExactlyYoungLive | memory.go:319-331 | a purge keeps, untouched, exactly the pending and retrying records created at or after the cutoff |
| DlqHistory.RecordTellsItsHistory | memory.go:206-306 | in every state of every run each field of each record is what happened to its event since the record was created: payload and creation time of the publish that created it, reason of the last publish, count of its marks, one history entry per publish and mark in order, and the schedule of the last failed mark or retryDelay after creation |
| DlqHistory.ClaimHandsBackThePublished | memory.go:240-265 | a claim hands back the payload that was published, never before it is scheduled, the first time not before retryDelay has passed |
| Dlq.NumberingIsInvisible | memory.go:211-223 | over whole runs, recording 0 instead of the retry count on a repeated publish changes no answer, no enabled action and nothing in any table except attempt numbers |
| MemoryDlq.SortByNextRetry | memory.go:251 | the candidates come out ordered by next retry, the same ones, each once |
| MemoryDlq.CutIsClaim | memory.go:253-255 | the sorted due records cut at the limit are the soonest, with nothing due sooner left behind; limit <= 0 takes all |
| MemoryDlq.Handler.constructor | memory.go:196-204 | empty queue; maxRetries defaults to 3, delays are kept as given, whatever they are |
| MemoryDlq.Handler.PublishToDLQ | memory.go:206-238 | is the atomic publish: insert, or append to the existing record's history |
| MemoryDlq.Handler.DueEvents | memory.go:245-250 | the scan, in any map order, finds exactly the pending records that are due, each once |
| MemoryDlq.Handler.ClaimRetryableEvents | memory.go:240-265 | the returned list is a legal claim, the table changes by exactly that claim and the copies show the new state |
| MemoryDlq.Handler.TakeAll | memory.go:257-263 | moves exactly the chosen records to retrying and copies them out in order |
| MemoryDlq.Handler.MarkRetried | memory.go:267-306 | is the atomic mark, with not-found and not-claimed answered and nothing changed in those cases |
| MemoryDlq.Handler.PurgeExpiredEvents | memory.go:319-331 | keeps exactly the records that are neither finished nor too old, and counts the rest |
| DlqBackends.CountedIsHeld | dlq.postgres.go:147-199 | when only holders mark, a row between the two statements of a mark is held by the worker that counted it and by nobody else |
| DlqBackends.StepRefines | dlq.postgres.go:95-225 | every statement of every worker keeps the invariant and is one legal operation of the atomic queue or none |
| DlqBackends.PublishStepRefines | internal/postgresdb/dlq.sql.go:193-202 | an upsert in the middle of other workers' marks is one atomic publish |
| DlqBackends.PurgeStepRefines | internal/postgresdb/dlq.sql.go:181-183 | a purge that spares rows whose mark is half done is one atomic purge, whatever else it deletes |
| DlqBackends.PostgresClaimRefines | internal/postgresdb/dlq.sql.go:14-24 | the claim statement, whatever rows it skips as locked, is one atomic claim |
| DlqBackends.MongoTakeRefines | dlq.mongo.go:189-196 | one iteration of the claim loop is one atomic claim of one record |
| DlqBackends.CountingChange | internal/postgresdb/dlq.sql.go:145-149 | the guarded increment is invisible to the atomic queue |
| DlqBackends.FinalizingChange | internal/postgresdb/dlq.sql.go:73-100 | the unguarded finalize is the whole atomic mark, because the row is still as it was counted |
| DlqBackends.RunRefinesAtomicQueue | dlq.postgres.go:95-225 | in every reachable state of any number of interleaved workers the invariant holds, the next step is an atomic operation or none, and the lifetime invariant holds of the abstracted table |
| DlqBackends.RunIsAtomicRun | dlq.mongo.go:141-262 | trace inclusion: dropping the invisible steps, every interleaved run in which no mark is disturbed between its statements is a run of the atomic queue ending in the abstracted state, claim counts included |
| DlqBackends.HeldRunIsRun | dlq.mongo.go:211-225 | a run in which claimed rows are marked only by their holder and spared by purges disturbs no mark, so it refines the atomic queue |
| DlqBackends.HeldRunInvariant | dlq.mongo.go:179-262 | in every state of such a run: held rows are retrying, no two workers hold the same one, every retrying row is held, and lists being gathered have no repeats |
| DlqBackends.ClaimsAreExclusive | dlq.mongo.go:179-209 | in every reachable state a record is retrying if and only if some worker holds it, and then exactly one does |
| DlqBackends.PostgresReturnsWhatItMoved | dlq.postgres.go:121-145 | a claim's list is exactly the set of rows that claim moved to retrying, without repeats, within the limit, and all still held |
| DlqBackends.MongoReturnsWhatItMoved | dlq.mongo.go:179-209 | at every point of a claim loop and at its return, cut short by a failure or not, the list is exactly what this call moved, without repeats, within the limit, and all still held, whatever others do meanwhile |
| DlqBackends.FailedMarkLinearizes | dlq.postgres.go:156-165 | the error of a mark that matched no row, decided by a later look-up, is the answer the atomic queue gives at some moment between the two statements |
| DlqBackends.MarksAgreeExactlyWhenApart | dlq.mongo.go:211-262 | two marks of one claim leave what the atomic queue leaves if and only if their statements do not overlap; overlapping ones count twice |
| DlqBackends.AtomicMarksCountOnce | memory.go:267-306 | of two atomic marks of one claim the first counts and the second is refused |
| DlqBackends.PurgeSafeExactlyWhenSparedOrRescheduling | internal/postgresdb/dlq.sql.go:181-183 | a mark overtaken by a purge and a new publish leaves a possible record if and only if the purge spared the row or the mark failed with retries left |
| DatabaseDlq.FindSoonest | dlq.mongo.go:192-196 | finds a due record that no other is due before, or none when none is due |
| DatabaseDlq.SelectForUpdate | internal/postgresdb/dlq.sql.go:16-22 | the subquery picks the soonest due unlocked rows, as many as there are up to the limit |
| DatabaseDlq.Postgres.PublishToDLQ | dlq.postgres.go:95-119 | the upsert is the atomic publish |
| DatabaseDlq.Postgres.ClaimRetryableEvents | dlq.postgres.go:121-145 | one atomic claim; the caller gets exactly the claimed rows if and only if all of them decode, and nothing otherwise although they stay claimed |
| DatabaseDlq.Postgres.Decode | dlq.postgres.go:136-144 | in any row order: all rows, each once, or an error when one does not decode |
| DatabaseDlq.Postgres.MarkRetried | dlq.postgres.go:147-199 | the two statements run back to back are the atomic mark, errors included |
| DatabaseDlq.Mongo.PublishToDLQ | dlq.mongo.go:141-170 | the upsert is the atomic publish |
| DatabaseDlq.Mongo.ClaimRetryableEvents | dlq.mongo.go:179-209 | an uninterrupted loop is one claim of up to limit documents; one cut short has claimed, and returns, the soonest it got to |
| DatabaseDlq.Mongo.MarkRetried | dlq.mongo.go:211-262 | the two updates run back to back are the atomic mark, errors included |
| CircuitBreaker.StateInvariant | circuitbreaker.go:93-234 | in every reachable state, with stale completions and resets anywhere: closed if and only if below MaxFailures; 1 to MaxHalfOpenRequests trial requests when half-open, 0 otherwise, never more than are in flight; calls = successes + failures + rejections + in flight |
| CircuitBreaker.HalfOpenAlwaysLeaves | circuitbreaker.go:112-196 | in half-open a completion is always outstanding, and the next completion of any request leaves it, to open or closed by its outcome |
| CircuitBreaker.OpensOnlyAfterMaxFailures | circuitbreaker.go:153-180 | a run leaves closed only when its last MaxFailures completions, stale ones included, all failed |
| CircuitBreaker.ClosedCountsTheStreak | circuitbreaker.go:112-180 | in every closed state consecutiveFailures is the number of failed completions since the last success, reset or call more than ResetTimeout after the latest failure, counted off the events |
| CircuitBreaker.TripsExactlyAtMaxFailures | circuitbreaker.go:112-180 | a closed breaker admits every call, and the next event opens it, then and there, if and only if it is the failure that makes that streak MaxFailures long |
| CircuitBreaker.FailuresInARowTrip | circuitbreaker.go:153-180 | after MaxFailures completions that all failed, without a reset or an expired call among them, the breaker is not closed |
| CircuitBreaker.CooldownRejects | circuitbreaker.go:112-144 | without a reset, every call before openedAt + Timeout is rejected as open, nothing new is admitted and openedAt does not move |
| CircuitBreaker.CountdownTellsAdmission | circuitbreaker.go:204-225 | the countdown is zero exactly when a call would be admitted, if and only if the breaker is not half-open with every trial slot taken |
| CircuitBreaker.CountdownMisleads | circuitbreaker.go:204-225 | a run that reaches such a state: countdown zero and the call refused |
| CircuitBreaker.CountdownIsExact | circuitbreaker.go:204-225 | outside half-open a call is admitted if and only if it comes at least the countdown later |
| CircuitBreaker.EpisodeAdmitsAtMostMax | circuitbreaker.go:112-144 | one half-open episode admits exactly as many requests as it has counted, at most MaxHalfOpenRequests |
| CircuitBreaker.OpeningsAreSpaced | circuitbreaker.go:182-188 | without resets consecutive openings are at least Timeout apart |
| CircuitBreaker.OpeningsSpan | circuitbreaker.go:182-188 | without resets, openings a and b are at least (b - a) * Timeout apart |
| CircuitBreaker.ResetForgetsCooldown | circuitbreaker.go:227-234 | a run with one reset whose two openings are a tenth of Timeout apart |
| CircuitBreaker.NewCircuitBreakerWithConfig | circuitbreaker.go:72-91 | refuses exactly the settings with a non-positive threshold or timeout; otherwise a closed breaker with zero counters and at least one trial slot |
| CircuitBreaker.Breaker.BeforeRequest | circuitbreaker.go:112-144 | makes exactly the admission step of the run model |
| CircuitBreaker.Breaker.AfterRequest | circuitbreaker.go:153-180 | makes exactly the completion step |
| CircuitBreaker.Breaker.OpenCircuit | circuitbreaker.go:182-188 | opens now and clears the trial count, nothing else |
| CircuitBreaker.Breaker.CloseCircuit | circuitbreaker.go:190-196 | closes with clean failure and trial counts, nothing else |
| CircuitBreaker.Breaker.Reset | circuitbreaker.go:227-234 | makes exactly the reset step; counters and openedAt stay |
| CircuitBreaker.Breaker.TimeUntilNextAttempt | circuitbreaker.go:204-225 | the countdown of GetStats, never negative |
| CircuitBreaker.Breaker.Execute | circuitbreaker.go:93-103 | fn runs if and only if the context is live and the breaker admits; its outcome is recorded; a canceled context changes nothing and a rejection only what the admission check changed |
| TokenBucket.RefillBound | ratelimiter.redis.go:78-89 | after a call, the level a later call finds is at most what was left plus the refill plus the rounding allowance |
| TokenBucket.AllowancePotential | ratelimiter.redis.go:62-96 | allowed calls plus tokens left never exceed the capacity plus the refill, at every point of every trace |
| TokenBucket.RateBound | ratelimiter.redis.go:62-96 | in any window of any trace of any number of replicas, allowed calls <= capacity + rate * T + n * (rate * et + ek) for n stored results off by at most et and ek |
| TokenBucket.ExactRateBound | ratelimiter.redis.go:62-96 | with exact arithmetic: allowed calls <= capacity + rate * T |
| TokenBucket.AllowedExactlyWhenEveryWindowHasRoom | ratelimiter.redis.go:62-96 | a call is refused if and only if allowing it would break capacity + rate * T in some window that ends with it |
| TokenBucket.LevelIsSomeRoom | ratelimiter.redis.go:78-89 | the tokens a call finds are exactly what some window's bound leaves; LevelWithinRoom says no window leaves less |
| TokenBucket.ExpiryIsInvisible | ratelimiter.redis.go:22-28 | when capacity <= 600 * rate, expiring idle keys before any calls of any trace changes no answer and no bucket |
| TokenBucket.ExpiryShowsAboveTtl | ratelimiter.redis.go:22-28 | otherwise a trace from no key at all gets a different answer: the capacity spent at once, and 600 s later one call more than has flowed in |
| TokenBucket.ExpiryInvisibleExactlyWithinTtl | ratelimiter.redis.go:22-28 | over all traces from no key at all and all ways idle keys may expire in them: no answer ever changes if and only if capacity <= 600 * rate |
| TokenBucket.DenialIsInvisible | ratelimiter.redis.go:78-92 | a denied call leaves the level every later call finds unchanged |
| TokenBucket.DeniedCallsAreInvisible | ratelimiter.redis.go:78-92 | deleting any denied calls from a trace changes no other answer, then or later |
| TokenBucket.Redis.TokenBucketScript | ratelimiter.redis.go:62-96 | the script makes exactly the step the trace lemmas are about, on what is left of the key at that time, with the error of each stored number, renews the TTL, and so keeps the key's recorded life true |
| TokenBucket.LifeGoesOn | ratelimiter.redis.go:71-93 | one more call on a key that has lived through its calls so far, each gap of 600 s or more expiring it, continues that life |
| TokenBucket.Redis.GrantedWithinRate | ratelimiter.redis.go:62-96 | what one key has granted to all replicas together, in any stretch of calls without a gap of 600 s, is within the rate bound |
| TokenBucket.GrantsBoundedAcrossExpiries | ratelimiter.redis.go:62-96 | in any stretch at all when capacity <= 600 * rate and storing is exact |
| TokenBucket.Limiter.Allow | ratelimiter.redis.go:278-303 | fails when closed, canceled or on a Redis error, counting nothing; else answers from the shared bucket and counts the call as allowed or blocked; the bucket changes only when the script ran |
| TokenBucket.Limiter.Wait | ratelimiter.redis.go:310-332 | a lone waiter is admitted within ceil(1 / (rate * 0.02)) retries plus the ticks already gone at its first attempt, each retry counted as blocked; it fails only when closed, canceled or on a fault, and then nothing was granted |
| TokenBucket.NewRedisRateLimiter | ratelimiter.redis.go:221-275 | refuses exactly a non-positive rate, a burst below the rate, and a server that does not answer |
| WorkerPool.PoolInvariant | workerpool.go:87-161 | in every reachable state: queue within capacity, accepted = taken + queued in order, taken = in progress + handled as multisets, every handler ran under a live context, workers leave only a closed and empty queue |
| WorkerPool.NothingLost | workerpool.go:105-137 | accepted = queued + in progress + handled, as multisets, at all times |
| WorkerPool.HistoriesAreObserved | workerpool.go:105-137 | in every reachable state the accepted events are, in order, those of the Submit calls that found room, and the handled events those workers came back from |
| WorkerPool.TakesTheHead | workerpool.go:108-112 | a worker handles the event at the head of the queue, which leaves it; no other worker changes |
| WorkerPool.StopDrains | workerpool.go:145-161 | when Stop has returned, every event that Submit said yes to was handled exactly once, under a live context, and no other |
| WorkerPool.NobodySeesCancel | workerpool.go:95-104 | no worker ever leaves through the canceled context |
| WorkerPool.StopNeverStuck | workerpool.go:156-161 | after the queue closes some step is always possible until Stop returns |
| WorkerPool.StopTakesExactly | workerpool.go:156-161 | however workers interleave, Stop can return after exactly 2 * queued + busy + live worker steps, neither earlier nor later |
| WorkerPool.WorkerPool.constructor | workerpool.go:61-93 | 10 workers and room for 1000 events by default, all waiting, nothing accepted |
| WorkerPool.WorkerPool.Submit | workerpool.go:126-137 | says yes if and only if there is room, and then the event is last in the queue and accepted; on refusal nothing changes |
| WorkerPool.WorkerPool.Turn | workerpool.go:105-124 | one turn of a worker's loop keeps the invariant and brings the drain one step nearer |
| WorkerPool.WorkerPool.Drain | workerpool.go:156-158 | the wait ends, with every worker gone and the invariant kept |
| WorkerPool.WorkerPool.Stop | workerpool.go:156-161 | terminates, and leaves everything accepted handled exactly once under a live context |
| BatchSplitter.DedupDistinct | batchsplitter.go:12-23 | deduplication loses no FID and leaves no duplicate |
| BatchSplitter.DedupKeepsFirsts | batchsplitter.go:12-23 | a device survives if it is the first of its FID, and every survivor equals such a device |
| BatchSplitter.DedupKeepsOrder | batchsplitter.go:12-23 | the survivors are the devices at strictly increasing positions, each the first of its FID |
| BatchSplitter.Deduplicate | batchsplitter.go:12-23 | the loop computes that deduplication |
| BatchSplitter.Split | batchsplitter.go:25-38 | the loop computes the consecutive pieces; one piece when there is nothing to split |
| BatchSplitter.ChunksKeepAll | batchsplitter.go:25-38 | the pieces concatenate to the input, none is longer than asked, none is empty unless the input is |
| BatchSplitter.ChunkFull | batchsplitter.go:25-38 | every piece but the last has exactly the size asked |
| Dispatch.TallyConserves | types.go:223-243 | success + failure = devices, invalid + retryable <= failure, and failure > invalid if and only if some device ended unresolved |
| Dispatch.HowManyIsCardinality | types.go:223-243 | each count is the number of devices that ended so |
| Dispatch.InvalidAreThePermanent | dispatcher.fcm.go:323-325 | the invalid FIDs are exactly those permanently refused |
| Dispatch.SendBatch | dispatcher.fcm.go:279-330 | one multicast of one platform and at most 500 FIDs: its counts are those of the reply, a failed request failing every FID |
| Dispatch.ReadResponses | dispatcher.fcm.go:317-329 | the response loop counts each FID once, by the class of its outcome |
| Dispatch.LastAttempt | dispatcher.fcm.go:246-273 | the last recorded outcome is the reply to the first attempt that wants no retry, is the last allowed or is followed by a canceled wait; every earlier attempt wanted a retry and was followed by one |
| Dispatch.SendBatchWithRetry | dispatcher.fcm.go:246-273 | whatever is retried, rejected or canceled, the result counts each FID's last recorded outcome once |
| Dispatch.DeviceLastReply | dispatcher.fcm.go:211-273 | each device's outcome in a Send comes from one batch of its platform and at most 500 FIDs: a failure of no class if canceled before it, else the reply of an attempt k, where every earlier attempt asked for another and was not canceled waiting, and k did not ask, was the last allowed (MaxRetryAttempts with retries on, one with them off) or was canceled waiting |
| Dispatch.MulticastsAreFull | dispatcher.fcm.go:211-213 | every multicast of a platform but the last carries exactly 500 FIDs |
| Dispatch.SendOneBatch | dispatcher.fcm.go:213-224 | the same with the cancellation check and the retry switch around it |
| Dispatch.SendPlatformBatches | dispatcher.fcm.go:211-233 | every multicast respects the 500 limit, and the merged counts are those of the devices' last outcomes |
| Dispatch.GroupByPlatform | dispatcher.fcm.go:162-169 | each platform's list is its devices in order, an unset platform counting as Android |
| Dispatch.Send | dispatcher.fcm.go:153-203 | in whatever order platforms finish, the result reports one send to each distinct device with its last outcome: counts, counts per platform, invalid FIDs as a multiset; an oversized message fails every device given |
| Dispatch.ReportKeys | dispatcher.fcm.go:163-169 | a device of unset platform is reported under android, every other under its own |
| Dispatch.SendRest | dispatcher.fcm.go:177-194 | any completion order of the platforms merges to the same report |
| Service.Aggregate.Merge | service.go:374-386 | adds counts, appends invalid FIDs and adds the per-platform maps |
| Service.ReportsMerge | service.go:374-386 | merging the reports of two lists is the report of their concatenation |
| Service.SendConserves | dispatcher.fcm.go:153-203 | one Send: success + failure = distinct FIDs, invalid + retryable <= failure, failure > invalid if and only if a device given to it ended unresolved |
| Service.OutcomeIsLastReply | dispatcher.fcm.go:153-273 | the outcome the dead-letter decision looks at is that last reply, for every device of every Send |
| Service.SendsRespectLimit | service.go:355-363 | with pre-splitting every Send but the last has exactly MaxDevicesPerBatch devices and none is empty; without, there is one Send |
| Service.AddressedOnce | service.go:345-352 | with deduplication the addressed devices number the distinct FIDs |
| Service.DispatchToDevices | service.go:345-371 | for every configuration and world: the totals conserve the addressed devices, and with distinct FIDs the result reports exactly their last outcomes |
| Service.SendAll | service.go:358-371 | the same for the loop over pre-split batches |
| Service.BatchingChangesNothing | service.go:345-386 | with deduplication on and each FID ending the same whatever batch it is in, pre-split + grouping + 500-split + retry + merge reports what one send to each distinct device would |
| Service.AnswersAlikeIsIndependent | dispatcher.fcm.go:246-330 | that is so when FCM answers each FID alike at every attempt |
| Service.CanceledIsIndependent | dispatcher.fcm.go:213-218 | and when the context is canceled before the first batch |
| Service.PublishIfUnresolved | service.go:410-422 | publishes if and only if the queue is enabled and some failure is not an invalid FID |
| Service.ProcessDispatch | service.go:345-422 | with the queue enabled the event is dead-lettered if and only if some device's last recorded outcome is a failure that is not permanent; an oversized message, whenever there is a device |
| Experiments.DeterministicPick | experiment.go:100-125 | the pick is the one variant whose prefix-sum interval holds hash modulo total weight, and the remainder panics if and only if the total weight is a multiple of 2^32 |
| Experiments.VariantAt | experiment.go:113-124 | the second loop returns the only such variant; the return after it is unreachable |
| Experiments.PickIndex | experiment.go:116-124 | the pick as a function of the bucket, in the interval that holds it |
| Experiments.BucketsAreInterval | experiment.go:100-125 | the buckets that lead to a variant are its prefix-sum interval cut at the number of buckets in use |
| Experiments.FairExactlyWithin32Bits | experiment.go:110-111 | every variant gets exactly max(1, weight) buckets if and only if the total weight is below 2^32, for every non-empty list |
| Experiments.VariantShare | experiment.go:100-125 | of the 2^32 hashes a variant of effective weight w gets between w * q and w * (q + 1), where q is 2^32 divided by the total weight |
| Experiments.OverweightLists | experiment.go:110-111 | the failing lists: weight 2^32 leaves no bucket, so the pick panics; 2^32 and 1 leave one bucket, and the second variant none |
| Experiments.ColonFreeKeysNamePairs | experiment.go:62 | a key names one pair when no user, or no experiment ID, contains ':' |
| Experiments.AlwaysPickExactlyWhenPicksAgree | experiment.go:74-95 | every call of every interleaved run returns the pure pick if and only if pairs that share a key have the same pick |
| Experiments.ColonFreeAlwaysPicks | experiment.go:62-95 | so it does, in both engines, when no user, or no experiment ID, contains ':' |
| Experiments.PublishesOnceExactlyWhenKeysNamePairs | experiment.go:74-95 | in every run, whenever no call is under way, each pair asked for was published exactly once, if and only if a key names one pair |
| Experiments.AliasedKeyServesWrongVariant | experiment.go:62-95 | with ':' in a user ID and in an experiment ID a run serves one experiment's variant for another |
| Experiments.CacheInvariant | cache.experiment.go:60-103 | in every reachable state each decodable entry is the pure pick of every pair its key can stand for |
| Experiments.CacheAlwaysPicksExactlyWhenPicksAgree | cache.experiment.go:60-103 | whatever misses, errors, evictions, detected corruption and racing writes occur, every call of every run returns the pure pick, if and only if pairs that share a key have the same pick |
| Experiments.PublishesEachExactlyWhenKeysNamePairs | cache.experiment.go:24-35 | in every run, whenever no call is under way, each pair asked for was published at least once, if and only if a key names one pair |
| Experiments.RacingCallersPublishTwice | cache.experiment.go:24-35 | more than once does happen: two callers that both miss |
| Experiments.DeterministicEngine.AssignVariant | experiment.go:74-95 | a whole call: stored variant kept, else pick stored and published once; no variants is an error that changes nothing, and so does the panic |
| Experiments.CacheBackedEngine.AssignVariant | cache.experiment.go:76-103 | a whole call: decodable entry returned untouched, else pick cached unless the write fails, and published |
| TemplateCache.EntriesAreFaithful | localization.go:206-226 | in every reachable state each entry, stored or about to be, is the compiled form of its own source, so no failed compile is cached |
| TemplateCache.CacheIsInvisible | localization.go:188-226 | under any interleaving, and despite keys that different pairs share, a lookup answers what compiling the given source afresh would |
| TemplateCache.CompiledIsStored | localization.go:214-222 | a lookup that misses and compiles goes on to store source and result under the pair's key |
| TemplateCache.StoredIsReused | localization.go:207-212 | what is stored is found, and not compiled again, until something else is stored under its key |
| TemplateCache.LocalizedTemplateEngine.GetCompiled | localization.go:206-226 | a whole call returns the fresh compile, compiles if and only if the same source is not cached for the pair, and stores only what compiled |
| PreferencesCache.StaysCoherent | cache.preferences.go:49-98 | over any calls whose invalidations succeed, no decodable entry disagrees with the durable store |
| PreferencesCache.ReadsAgreeWithStore | cache.preferences.go:49-73 | a read then gives the durable store's answer whatever the cache does; where the store would fail, only its own current record can stand in |
| PreferencesCache.SavedReadsBack | cache.preferences.go:49-87 | a record reads back as last saved, whatever the cache does |
| PreferencesCache.FilledReadNeedsNoStore | cache.preferences.go:66-72 | a read that got through is answered from the cache next time, even if the store then fails |
| PreferencesCache.EnabledAgreesWithStore | cache.preferences.go:89-98 | an event type is on if and only if the durable record, if there is one, is globally enabled and does not turn the type off |
| PreferencesCache.StaleExactlyWhenCached | cache.preferences.go:75-87 | after a save whose invalidation failed and any calls that do not touch the user's entry, a read is right if and only if no decodable entry was cached or it equals what was saved |
| PreferencesCache.CachedPreferencesStore.GetPreferences | cache.preferences.go:49-73 | makes exactly the read step: hit, or durable read and fill |
| PreferencesCache.CachedPreferencesStore.SavePreferences | cache.preferences.go:75-87 | durable write first, then invalidation; a refused write changes nothing |
| PreferencesCache.CachedPreferencesStore.IsEventTypeEnabled | types.go:302-310 | globally off wins, then the explicit setting, then on; a user without preferences is opted in, a store error is passed on |

## Left out

- MemoryDlq.Handler.MarkRetried: with the ceiling at the largest int64 the source panics on rescheduling (Backoff.PanicsExactlyAtMaxInt64); the mark is stated for every other ceiling.
- TokenBucket.Limiter.Wait: the bound is for a waiter nobody else competes with, on a clock that runs like the server's.
- TokenBucket.RateBound: floating-point rounding inside the script appears only as the error of what each call stores; the comparison itself is exact.
- TokenBucket.ExpiryInvisibleExactlyWithinTtl: is about exact arithmetic; stored errors are covered by RateBound only.
- Dispatch.SendBatch: the client's SuccessCount and FailureCount are taken to agree with its list of responses, and each reply to have one result per FID.
- DatabaseDlq.SelectForUpdate: rows other transactions have locked are an arbitrary set; the claim is otherwise one atomic statement.
- DlqBackends.PostgresReturnsWhatItMoved: stored rows decode; what happens otherwise is stated by DatabaseDlq.Postgres.ClaimRetryableEvents.
- The other timestamps (FirstFailureAt, LastAttemptAt, UpdatedAt, AttemptedAt, lastStateChange, lastAllowedAt) and int32 clamping of MaxRetries and limits.
- A crash, or a database error, between the two statements of MarkRetried, and MongoDB's TTL index, for which the same assumption as for purging would be needed.
- The list of errors in a DispatchResult and the failure reason joined from it.
- Close and ErrClosed guards, connections, pools and constructor plumbing.
- The Kafka consumer: redelivery depends on the client library's commit semantics.
- FCM message builders and substring error classification: each outcome arrives classified.
- The in-process rate limiter, a thin wrapper over a library; UpdateLimit with different limits across replicas.
- Template parsing and rendering, JSON and MD5, which are arbitrary functions here; overflow of int weight sums.
- Device, preferences and experiment stores, the event registry, FID patterns, payload size estimation (a boolean here) and quiet hours: easy members.
- Target resolution, topic sends and events skipped before dispatch.
- Logging, metrics, analytics and the lifecycle bus.
- Panics in handlers, Submit racing Stop, a second Start or Stop, and concurrent fill and save in the preferences cache.
