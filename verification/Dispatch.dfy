/** dispatcher.fcm.go: deduplicate, group by platform, split at 500, send with retries, merge.
    What FCM, the rate limiter, the circuit breaker and the context do is an arbitrary World. */
module Dispatch {
  import opened BatchSplitter

  const FCM_MAX_BATCH_SIZE: nat := 500
  const PLATFORM_ANDROID: Platform := "android"

  /** How one send to one FID ended. Permanent and Retryable are the classes of errors.go; Other is
      every remaining failure, including a batch that was never attempted. */
  datatype Outcome = Delivered | Permanent | Retryable | Other

  /** Rejected: the limiter, the breaker or the request itself failed, and ShouldRetry said retry.
      Answered: one result per FID. */
  datatype Reply = Rejected(retry: bool) | Answered(results: Fid -> Outcome)

  /** Every SendEachForMulticast call has its own place: the Send it belongs to, the platform, the
      batch within the platform and the attempt. */
  datatype Site = Site(send: nat, platform: Platform, batch: nat, attempt: nat)

  function AtAttempt(site: Site, k: nat): Site { site.(attempt := k) }

  function NextAttempt(site: Site): Site { AtAttempt(site, site.attempt + 1) }

  /** An unset platform is dispatched as Android. */
  function PlatformOf(d: Device): Platform { if d.platform == "" then PLATFORM_ANDROID else d.platform }

  datatype World = World(canceledBefore: Site -> bool, canceledWaiting: Site -> bool, reply: Site -> Reply)

  /** attempts is MaxRetryAttempts when retry is enabled, else 1. */
  datatype Config = Config(enableRetry: bool, maxRetryAttempts: int) {
    /** NewFCMDispatcher refuses retries without attempts. */
    predicate Valid() { enableRetry ==> maxRetryAttempts > 0 }

    function Attempts(): (n: nat)
      requires Valid()
      ensures n > 0
    {
      if enableRetry then maxRetryAttempts else 1
    }
  }

  // ---------------------------------------------------------------- outcomes

  type Outcomes = map<Fid, Outcome>

  function Of(last: Outcomes, fid: Fid): Outcome { if fid in last then last[fid] else Other }

  function OutcomeFor(reply: Reply, fid: Fid): Outcome { if reply.Rejected? then Other else reply.results(fid) }

  function ReplyOutcomes(fids: set<Fid>, reply: Reply): Outcomes { map fid | fid in fids :: OutcomeFor(reply, fid) }

  predicate WantsRetry(fids: set<Fid>, reply: Reply) {
    if reply.Rejected? then reply.retry else exists fid | fid in fids :: OutcomeFor(reply, fid) == Retryable
  }

  /** The outcome recorded last for each FID of a batch, when the retry loop is at site. */
  function AfterRetries(attempts: nat, world: World, site: Site, fids: set<Fid>): Outcomes
    decreases attempts - site.attempt
  {
    var reply := world.reply(site);
    var next := NextAttempt(site);
    if !WantsRetry(fids, reply) || site.attempt + 1 >= attempts || world.canceledWaiting(next)
    then ReplyOutcomes(fids, reply)
    else AfterRetries(attempts, world, next, fids)
  }

  /** Which attempt that is: the first whose reply wants no retry, or that is the last allowed, or
      after which the wait is canceled. Everything recorded before it is dropped. */
  lemma {:induction false} LastAttempt(attempts: nat, world: World, site: Site, fids: set<Fid>) returns (k: nat)
    requires site.attempt < attempts
    ensures site.attempt <= k < attempts
    ensures AfterRetries(attempts, world, site, fids) == ReplyOutcomes(fids, world.reply(AtAttempt(site, k)))
    ensures forall j: nat | site.attempt <= j < k ::
      WantsRetry(fids, world.reply(AtAttempt(site, j))) && !world.canceledWaiting(NextAttempt(AtAttempt(site, j)))
    ensures !WantsRetry(fids, world.reply(AtAttempt(site, k))) || k + 1 == attempts
      || world.canceledWaiting(NextAttempt(AtAttempt(site, k)))
    decreases attempts - site.attempt
  {
    k := site.attempt;
    assert AtAttempt(site, k) == site;
    var next := NextAttempt(site);
    if WantsRetry(fids, world.reply(site)) && k + 1 < attempts && !world.canceledWaiting(next) {
      k := LastAttempt(attempts, world, next, fids);
      forall j: nat | site.attempt <= j < k
        ensures WantsRetry(fids, world.reply(AtAttempt(site, j)))
        ensures !world.canceledWaiting(NextAttempt(AtAttempt(site, j)))
      {
        if j > site.attempt { assert AtAttempt(next, j) == AtAttempt(site, j); }
      }
      assert AtAttempt(next, k) == AtAttempt(site, k);
    }
  }

  function BatchOutcomes(attempts: nat, world: World, site: Site, fids: set<Fid>): Outcomes {
    if world.canceledBefore(site) then map fid | fid in fids :: Other else AfterRetries(attempts, world, site, fids)
  }

  function PlatformOutcomes(
    attempts: nat, world: World, send: nat, platform: Platform, batches: seq<seq<Device>>): Outcomes {
    if batches == [] then map[]
    else
      var n := |batches| - 1;
      PlatformOutcomes(attempts, world, send, platform, batches[..n])
        + BatchOutcomes(attempts, world, Site(send, platform, n, 0), Fids(batches[n]))
  }

  // ---------------------------------------------------------------- counting

  function HowMany(devices: seq<Device>, last: Outcomes, o: Outcome): (n: nat)
    ensures n <= |devices|
  {
    if devices == [] then 0
    else HowMany(devices[..|devices| - 1], last, o) + (if Of(last, devices[|devices| - 1].fid) == o then 1 else 0)
  }

  function InvalidFids(devices: seq<Device>, last: Outcomes): seq<Fid> {
    if devices == [] then []
    else
      var d := devices[|devices| - 1];
      InvalidFids(devices[..|devices| - 1], last) + (if Of(last, d.fid) == Permanent then [d.fid] else [])
  }

  /** The counters of a DispatchResult. */
  datatype Counts = Counts(success: nat, failure: nat, invalid: seq<Fid>, retryable: nat) {
    function Plus(that: Counts): Counts {
      Counts(success + that.success, failure + that.failure, invalid + that.invalid, retryable + that.retryable)
    }
  }

  const ZERO: Counts := Counts(0, 0, [], 0)

  /** Sending once to each device with the given outcomes. */
  function Tally(devices: seq<Device>, last: Outcomes): Counts {
    var delivered := HowMany(devices, last, Delivered);
    Counts(delivered, |devices| - delivered, InvalidFids(devices, last), HowMany(devices, last, Retryable))
  }

  lemma TallyAppend(devices: seq<Device>, d: Device, last: Outcomes)
    ensures forall o ::
      HowMany(devices + [d], last, o) == HowMany(devices, last, o) + (if Of(last, d.fid) == o then 1 else 0)
    ensures InvalidFids(devices + [d], last)
      == InvalidFids(devices, last) + (if Of(last, d.fid) == Permanent then [d.fid] else [])
  {
    assert (devices + [d])[..|devices|] == devices;
  }

  lemma {:induction false} HowManyConcat(a: seq<Device>, b: seq<Device>, last: Outcomes, o: Outcome)
    ensures HowMany(a + b, last, o) == HowMany(a, last, o) + HowMany(b, last, o)
  {
    if b == [] {
      assert a + b == a;
    } else {
      var n := |b| - 1;
      HowManyConcat(a, b[..n], last, o);
      assert (a + b)[..|a| + n] == a + b[..n];
    }
  }

  lemma {:induction false} InvalidConcat(a: seq<Device>, b: seq<Device>, last: Outcomes)
    ensures InvalidFids(a + b, last) == InvalidFids(a, last) + InvalidFids(b, last)
  {
    if b == [] {
      assert a + b == a;
    } else {
      var n := |b| - 1;
      var more := if Of(last, b[n].fid) == Permanent then [b[n].fid] else [];
      InvalidConcat(a, b[..n], last);
      assert (a + b)[..|a| + n] == a + b[..n];
      assert InvalidFids(a + b, last) == InvalidFids(a + b[..n], last) + more;
      assert InvalidFids(a, last) + InvalidFids(b[..n], last) + more
        == InvalidFids(a, last) + (InvalidFids(b[..n], last) + more);
    }
  }

  lemma TallyConcat(a: seq<Device>, b: seq<Device>, last: Outcomes)
    ensures Tally(a + b, last) == Tally(a, last).Plus(Tally(b, last))
  {
    HowManyConcat(a, b, last, Delivered);
    HowManyConcat(a, b, last, Retryable);
    InvalidConcat(a, b, last);
  }

  lemma {:induction false} HowManyAgrees(devices: seq<Device>, a: Outcomes, b: Outcomes, o: Outcome)
    requires forall d | d in devices :: Of(a, d.fid) == Of(b, d.fid)
    ensures HowMany(devices, a, o) == HowMany(devices, b, o)
  {
    if devices != [] { HowManyAgrees(devices[..|devices| - 1], a, b, o); }
  }

  lemma {:induction false} InvalidAgrees(devices: seq<Device>, a: Outcomes, b: Outcomes)
    requires forall d | d in devices :: Of(a, d.fid) == Of(b, d.fid)
    ensures InvalidFids(devices, a) == InvalidFids(devices, b)
  {
    if devices != [] { InvalidAgrees(devices[..|devices| - 1], a, b); }
  }

  lemma TallyAgrees(devices: seq<Device>, a: Outcomes, b: Outcomes)
    requires forall d | d in devices :: Of(a, d.fid) == Of(b, d.fid)
    ensures Tally(devices, a) == Tally(devices, b)
  {
    HowManyAgrees(devices, a, b, Delivered);
    HowManyAgrees(devices, a, b, Retryable);
    InvalidAgrees(devices, a, b);
  }

  predicate Unresolved(o: Outcome) { o == Retryable || o == Other }

  lemma {:induction false} OutcomesPartition(devices: seq<Device>, last: Outcomes)
    ensures HowMany(devices, last, Delivered) + HowMany(devices, last, Permanent)
      + HowMany(devices, last, Retryable) + HowMany(devices, last, Other) == |devices|
    ensures |InvalidFids(devices, last)| == HowMany(devices, last, Permanent)
  {
    if devices != [] { OutcomesPartition(devices[..|devices| - 1], last); }
  }

  lemma {:induction false} SomeHave(devices: seq<Device>, last: Outcomes, o: Outcome)
    ensures HowMany(devices, last, o) > 0 <==> exists d :: d in devices && Of(last, d.fid) == o
  {
    if devices != [] {
      var n := |devices| - 1;
      SomeHave(devices[..n], last, o);
      assert devices == devices[..n] + [devices[n]];
    }
  }

  /** The devices that ended so. */
  function With(devices: seq<Device>, last: Outcomes, o: Outcome): set<Device> {
    set d | d in devices && Of(last, d.fid) == o
  }

  lemma SameFidSameDevice(devices: seq<Device>, x: Device, y: Device)
    requires DistinctFids(devices) && x in devices && y in devices && x.fid == y.fid
    ensures x == y
  {
    var i :| 0 <= i < |devices| && devices[i] == x;
    var j :| 0 <= j < |devices| && devices[j] == y;
    assert i == j;
  }

  lemma WithAppend(devices: seq<Device>, d: Device, last: Outcomes, o: Outcome)
    ensures With(devices + [d], last, o) == With(devices, last, o) + (if Of(last, d.fid) == o then {d} else {})
  {
    assert forall x :: x in devices + [d] <==> x in devices || x == d;
  }

  /** For devices with different FIDs counting is counting: how many of them ended so. */
  lemma {:induction false} HowManyIsCardinality(devices: seq<Device>, last: Outcomes, o: Outcome)
    requires DistinctFids(devices)
    ensures HowMany(devices, last, o) == |With(devices, last, o)|
  {
    if devices != [] {
      var n := |devices| - 1;
      var before, d := devices[..n], devices[n];
      HowManyIsCardinality(before, last, o);
      assert devices == before + [d];
      WithAppend(before, d, last, o);
      forall i | 0 <= i < n ensures before[i] != d { assert devices[i].fid != devices[n].fid; }
    }
  }

  /** The invalid FIDs are those that ended permanently refused. */
  lemma {:induction false} InvalidAreThePermanent(devices: seq<Device>, last: Outcomes, fid: Fid)
    ensures fid in InvalidFids(devices, last) <==> fid in Fids(devices) && Of(last, fid) == Permanent
  {
    if devices != [] {
      var n := |devices| - 1;
      InvalidAreThePermanent(devices[..n], last, fid);
      assert devices == devices[..n] + [devices[n]];
      FidsAppend(devices[..n], devices[n]);
    }
  }

  /** Conservation: each device is one success or one failure, the classified failures are among
      the failures, and failures beyond the invalid FIDs mean an unresolved device. */
  lemma TallyConserves(devices: seq<Device>, last: Outcomes)
    ensures var c := Tally(devices, last);
      && c.success + c.failure == |devices|
      && |c.invalid| + c.retryable <= c.failure
      && (c.failure > |c.invalid| <==> exists d :: d in devices && Unresolved(Of(last, d.fid)))
  {
    OutcomesPartition(devices, last);
    SomeHave(devices, last, Retryable);
    SomeHave(devices, last, Other);
  }

  // ---------------------------------------------------------------- one batch

  /** sendBatch: the counts of one multicast, and whether the request as a whole failed. */
  method SendBatch(batch: seq<Device>, platform: Platform, reply: Reply) returns (c: Counts, failed: bool)
    requires |batch| <= FCM_MAX_BATCH_SIZE && forall d | d in batch :: PlatformOf(d) == platform
    ensures c == Tally(batch, ReplyOutcomes(Fids(batch), reply)) && failed == reply.Rejected?
  {
    if reply.Rejected? {
      AllOther(batch, ReplyOutcomes(Fids(batch), reply));
      return Counts(0, |batch|, [], 0), true;
    }
    c := ReadResponses(batch, reply);
    failed := false;
  }

  /** The loop over the responses. The client's two totals are counted along with it. */
  method ReadResponses(batch: seq<Device>, reply: Reply) returns (c: Counts)
    requires reply.Answered?
    ensures c == Tally(batch, ReplyOutcomes(Fids(batch), reply))
  {
    ghost var last := ReplyOutcomes(Fids(batch), reply);
    var success, failure, invalid, retryable := 0, 0, [], 0;
    for i := 0 to |batch|
      invariant success == HowMany(batch[..i], last, Delivered) && success + failure == i
      invariant invalid == InvalidFids(batch[..i], last) && retryable == HowMany(batch[..i], last, Retryable)
    {
      assert batch[..i + 1] == batch[..i] + [batch[i]] && batch[i].fid in Fids(batch);
      TallyAppend(batch[..i], batch[i], last);
      var o := reply.results(batch[i].fid);
      if o == Delivered {
        success := success + 1;
        continue;
      }
      failure := failure + 1;
      if o == Permanent {
        invalid := invalid + [batch[i].fid];
      } else if o == Retryable {
        retryable := retryable + 1;
      }
    }
    assert batch[..|batch|] == batch;
    c := Counts(success, failure, invalid, retryable);
  }

  lemma {:induction false} AllOther(devices: seq<Device>, last: Outcomes)
    requires forall d | d in devices :: Of(last, d.fid) == Other
    ensures Tally(devices, last) == Counts(0, |devices|, [], 0)
  {
    if devices != [] { AllOther(devices[..|devices| - 1], last); }
  }

  /** The retry signal the code reads off the counters is the one in the reply. */
  lemma RetrySignal(batch: seq<Device>, reply: Reply)
    ensures var c := Tally(batch, ReplyOutcomes(Fids(batch), reply));
      (if reply.Rejected? then reply.retry else c.retryable > 0) == WantsRetry(Fids(batch), reply)
  {
    var last := ReplyOutcomes(Fids(batch), reply);
    SomeHave(batch, last, Retryable);
    if reply.Answered? {
      if fid :| fid in Fids(batch) && OutcomeFor(reply, fid) == Retryable {
        var d :| d in batch && d.fid == fid;
        assert Of(last, d.fid) == Retryable;
      }
      if d :| d in batch && Of(last, d.fid) == Retryable {
        assert d.fid in Fids(batch);
      }
    }
  }

  /** sendBatchWithRetry: whatever happens on the way, the result counts the outcomes recorded
      last. */
  method SendBatchWithRetry(cfg: Config, world: World, site: Site, batch: seq<Device>) returns (c: Counts)
    requires cfg.Valid() && cfg.enableRetry && site.attempt == 0
    requires |batch| <= FCM_MAX_BATCH_SIZE && forall d | d in batch :: PlatformOf(d) == site.platform
    ensures c == Tally(batch, AfterRetries(cfg.Attempts(), world, site, Fids(batch)))
  {
    ghost var fids := Fids(batch);
    ghost var wanted := AfterRetries(cfg.Attempts(), world, site, fids);
    var attempt, here := 0, site;
    ghost var previous := site;
    c := ZERO;
    while attempt < cfg.maxRetryAttempts
      invariant 0 <= attempt == here.attempt <= cfg.maxRetryAttempts && here.platform == site.platform
      invariant attempt == 0 ==> here == site
      invariant attempt > 0 ==> here == NextAttempt(previous) && WantsRetry(fids, world.reply(previous))
      invariant attempt > 0 ==> c == Tally(batch, ReplyOutcomes(fids, world.reply(previous)))
      invariant attempt > 0 ==> wanted == AfterRetries(cfg.Attempts(), world, previous, fids)
    {
      if attempt > 0 {
        if world.canceledWaiting(here) {
          return;
        }
      }
      var failed;
      c, failed := SendBatch(batch, site.platform, world.reply(here));
      RetrySignal(batch, world.reply(here));
      var shouldRetry := c.retryable > 0;
      if failed {
        shouldRetry := world.reply(here).retry;
      }
      if !shouldRetry {
        return;
      }
      previous := here;
      attempt, here := attempt + 1, NextAttempt(here);
    }
  }

  // ---------------------------------------------------------------- one platform

  /** Every FID of the batches has an outcome, and different batches do not disturb each other. */
  lemma {:induction false} OutcomesCover(
    attempts: nat, world: World, send: nat, platform: Platform, batches: seq<seq<Device>>)
    ensures PlatformOutcomes(attempts, world, send, platform, batches).Keys == Fids(Flatten(batches))
  {
    if batches != [] {
      var n := |batches| - 1;
      OutcomesCover(attempts, world, send, platform, batches[..n]);
      RetriesCover(attempts, world, Site(send, platform, n, 0), Fids(batches[n]));
      FidsConcat(Flatten(batches[..n]), batches[n]);
    }
  }

  lemma {:induction false} RetriesCover(attempts: nat, world: World, site: Site, fids: set<Fid>)
    ensures AfterRetries(attempts, world, site, fids).Keys == fids
    ensures BatchOutcomes(attempts, world, site, fids).Keys == fids
    decreases attempts - site.attempt
  {
    if site.attempt + 1 < attempts { RetriesCover(attempts, world, site.(attempt := site.attempt + 1), fids); }
  }

  lemma FidsConcat(a: seq<Device>, b: seq<Device>)
    ensures Fids(a + b) == Fids(a) + Fids(b)
  {
    assert forall x :: x in a + b <==> x in a || x in b;
  }

  lemma DistinctParts(a: seq<Device>, b: seq<Device>)
    requires DistinctFids(a + b)
    ensures DistinctFids(a) && DistinctFids(b) && Fids(a) !! Fids(b)
  {
    forall i, j | 0 <= i < j < |a| ensures a[i].fid != a[j].fid { assert (a + b)[i] == a[i] && (a + b)[j] == a[j]; }
    forall i, j | 0 <= i < j < |b| ensures b[i].fid != b[j].fid {
      assert (a + b)[|a| + i] == b[i] && (a + b)[|a| + j] == b[j];
    }
    forall x, y | x in a && y in b ensures x.fid != y.fid {
      var i :| 0 <= i < |a| && a[i] == x;
      var j :| 0 <= j < |b| && b[j] == y;
      assert (a + b)[i] == x && (a + b)[|a| + j] == y;
    }
  }

  /** Adding a batch with new FIDs adds its counts. */
  lemma TallyNextBatch(before: seq<Device>, batch: seq<Device>, last: Outcomes, more: Outcomes)
    requires DistinctFids(before + batch) && last.Keys == Fids(before) && more.Keys == Fids(batch)
    ensures Tally(before + batch, last + more) == Tally(before, last).Plus(Tally(batch, more))
  {
    DistinctParts(before, batch);
    TallyConcat(before, batch, last + more);
    forall d | d in before ensures Of(last + more, d.fid) == Of(last, d.fid) { assert d.fid in Fids(before); }
    forall d | d in batch ensures Of(last + more, d.fid) == Of(more, d.fid) { assert d.fid in Fids(batch); }
    TallyAgrees(before, last + more, last);
    TallyAgrees(batch, last + more, more);
  }

  lemma {:induction false} FlattenPrefix(batches: seq<seq<Device>>, k: nat) returns (rest: seq<Device>)
    requires k <= |batches|
    ensures Flatten(batches) == Flatten(batches[..k]) + rest
  {
    if k == |batches| {
      rest := [];
      assert batches[..k] == batches;
    } else {
      var n := |batches| - 1;
      assert batches[..n][..k] == batches[..k];
      rest := FlattenPrefix(batches[..n], k);
      rest := rest + batches[n];
    }
  }

  lemma BatchOfFlatten(batches: seq<seq<Device>>, k: nat)
    requires k < |batches|
    ensures forall d | d in batches[k] :: d in Flatten(batches)
    ensures DistinctFids(Flatten(batches)) ==> DistinctFids(Flatten(batches[..k]) + batches[k])
  {
    var rest := FlattenPrefix(batches, k + 1);
    assert batches[..k + 1][..k] == batches[..k];
    var front := Flatten(batches[..k]) + batches[k];
    assert Flatten(batches[..k + 1]) == front;
    if DistinctFids(Flatten(batches)) { DistinctParts(front, rest); }
  }

  /** With different FIDs, a device's outcome on its platform is its outcome in its batch. */
  lemma {:induction false} OutcomeInBatch(
    attempts: nat, world: World, send: nat, p: Platform, batches: seq<seq<Device>>, b: nat, d: Device)
    requires b < |batches| && d in batches[b] && DistinctFids(Flatten(batches))
    ensures Of(PlatformOutcomes(attempts, world, send, p, batches), d.fid)
      == Of(BatchOutcomes(attempts, world, Site(send, p, b, 0), Fids(batches[b])), d.fid)
  {
    var n := |batches| - 1;
    DistinctParts(Flatten(batches[..n]), batches[n]);
    RetriesCover(attempts, world, Site(send, p, n, 0), Fids(batches[n]));
    if b < n {
      OutcomeInBatch(attempts, world, send, p, batches[..n], b, d);
      BatchOfFlatten(batches[..n], b);
      assert d.fid in Fids(Flatten(batches[..n]));
    }
  }

  lemma {:induction false} SomeBatchHas(batches: seq<seq<Device>>, d: Device) returns (b: nat)
    requires d in Flatten(batches)
    ensures b < |batches| && d in batches[b]
  {
    var n := |batches| - 1;
    if d in batches[n] { b := n; } else { b := SomeBatchHas(batches[..n], d); }
  }

  /** One iteration of sendPlatformBatches: skip the batch if the context is already canceled, else
      send it with or without retries. */
  method SendOneBatch(cfg: Config, world: World, site: Site, batch: seq<Device>) returns (c: Counts)
    requires cfg.Valid() && site.attempt == 0
    requires |batch| <= FCM_MAX_BATCH_SIZE && forall d | d in batch :: PlatformOf(d) == site.platform
    ensures c == Tally(batch, BatchOutcomes(cfg.Attempts(), world, site, Fids(batch)))
  {
    if world.canceledBefore(site) {
      AllOther(batch, map fid | fid in Fids(batch) :: Other);
      c := Counts(0, |batch|, [], 0);
    } else if cfg.enableRetry {
      c := SendBatchWithRetry(cfg, world, site, batch);
    } else {
      var failed;
      c, failed := SendBatch(batch, site.platform, world.reply(site));
    }
  }

  lemma TallyBatches(attempts: nat, world: World, send: nat, platform: Platform, batches: seq<seq<Device>>, n: nat)
    requires n < |batches| && DistinctFids(Flatten(batches))
    ensures Tally(Flatten(batches[..n + 1]), PlatformOutcomes(attempts, world, send, platform, batches[..n + 1]))
      == Tally(Flatten(batches[..n]), PlatformOutcomes(attempts, world, send, platform, batches[..n]))
        .Plus(Tally(batches[n], BatchOutcomes(attempts, world, Site(send, platform, n, 0), Fids(batches[n]))))
  {
    BatchOfFlatten(batches, n);
    OutcomesCover(attempts, world, send, platform, batches[..n]);
    RetriesCover(attempts, world, Site(send, platform, n, 0), Fids(batches[n]));
    assert batches[..n + 1][..n] == batches[..n];
    TallyNextBatch(Flatten(batches[..n]), batches[n], PlatformOutcomes(attempts, world, send, platform, batches[..n]),
                   BatchOutcomes(attempts, world, Site(send, platform, n, 0), Fids(batches[n])));
  }

  /** sendPlatformBatches: each multicast holds one platform and at most 500 FIDs, which is what
      SendBatch requires, and the merged counts are those of the outcomes recorded last. */
  method SendPlatformBatches(cfg: Config, world: World, send: nat, platform: Platform, devices: seq<Device>)
    returns (result: Counts)
    requires cfg.Valid() && DistinctFids(devices) && forall d | d in devices :: PlatformOf(d) == platform
    ensures result == Tally(devices,
      PlatformOutcomes(cfg.Attempts(), world, send, platform, Chunks(devices, FCM_MAX_BATCH_SIZE)))
  {
    var batches := Split(devices, FCM_MAX_BATCH_SIZE);
    ChunksKeepAll(devices, FCM_MAX_BATCH_SIZE);
    result := SendBatches(cfg, world, send, platform, batches);
  }

  method SendBatches(cfg: Config, world: World, send: nat, platform: Platform, batches: seq<seq<Device>>)
    returns (result: Counts)
    requires cfg.Valid() && DistinctFids(Flatten(batches))
    requires forall d | d in Flatten(batches) :: PlatformOf(d) == platform
    requires forall i | 0 <= i < |batches| :: |batches[i]| <= FCM_MAX_BATCH_SIZE
    ensures result == Tally(Flatten(batches), PlatformOutcomes(cfg.Attempts(), world, send, platform, batches))
  {
    result := ZERO;
    for n := 0 to |batches|
      invariant result == Tally(Flatten(batches[..n]),
        PlatformOutcomes(cfg.Attempts(), world, send, platform, batches[..n]))
    {
      BatchOfFlatten(batches, n);
      TallyBatches(cfg.Attempts(), world, send, platform, batches, n);
      var c := SendOneBatch(cfg, world, Site(send, platform, n, 0), batches[n]);
      result := result.Plus(c);
    }
    assert batches[..|batches|] == batches;
  }

  // ---------------------------------------------------------------- platforms

  function Platforms(devices: seq<Device>): set<Platform> { set d | d in devices :: PlatformOf(d) }

  /** The devices on the given platforms, in order. */
  function Among(devices: seq<Device>, ps: set<Platform>): seq<Device> {
    if devices == [] then []
    else
      var n := |devices| - 1;
      Among(devices[..n], ps) + (if PlatformOf(devices[n]) in ps then [devices[n]] else [])
  }

  function Group(devices: seq<Device>, p: Platform): seq<Device> { Among(devices, {p}) }

  lemma {:induction false} AmongIsFilter(devices: seq<Device>, ps: set<Platform>)
    ensures forall d :: d in Among(devices, ps) <==> d in devices && PlatformOf(d) in ps
  {
    if devices != [] {
      AmongIsFilter(devices[..|devices| - 1], ps);
      assert devices == devices[..|devices| - 1] + [devices[|devices| - 1]];
    }
  }

  lemma AmongAppend(devices: seq<Device>, d: Device, ps: set<Platform>)
    ensures Among(devices + [d], ps) == Among(devices, ps) + (if PlatformOf(d) in ps then [d] else [])
  {
    assert (devices + [d])[..|devices|] == devices;
  }

  lemma {:induction false} AmongAll(devices: seq<Device>, ps: set<Platform>)
    requires forall d | d in devices :: PlatformOf(d) in ps
    ensures Among(devices, ps) == devices
  {
    if devices != [] {
      var before, d := devices[..|devices| - 1], devices[|devices| - 1];
      AmongAll(before, ps);
      assert devices == before + [d];
      AmongAppend(before, d, ps);
    }
  }

  lemma {:induction false} AmongDistinct(devices: seq<Device>, ps: set<Platform>)
    requires DistinctFids(devices)
    ensures DistinctFids(Among(devices, ps))
  {
    if devices != [] {
      var n := |devices| - 1;
      AmongDistinct(devices[..n], ps);
      AmongIsFilter(devices[..n], ps);
      forall d | d in Among(devices[..n], ps) ensures d.fid != devices[n].fid {
        var i :| 0 <= i < n && devices[..n][i] == d;
        assert devices[i].fid != devices[n].fid;
      }
    }
  }

  lemma {:induction false} AmongNone(devices: seq<Device>)
    ensures Among(devices, {}) == []
  {
    if devices != [] { AmongNone(devices[..|devices| - 1]); }
  }

  lemma AmongStep(devices: seq<Device>, ps: set<Platform>, last: Outcomes)
    requires devices != []
    ensures var before, d := devices[..|devices| - 1], devices[|devices| - 1]; var here := PlatformOf(d) in ps;
      && |Among(devices, ps)| == |Among(before, ps)| + (if here then 1 else 0)
      && (forall o :: HowMany(Among(devices, ps), last, o) ==
            HowMany(Among(before, ps), last, o) + (if here && Of(last, d.fid) == o then 1 else 0))
      && InvalidFids(Among(devices, ps), last) ==
           InvalidFids(Among(before, ps), last) + (if here && Of(last, d.fid) == Permanent then [d.fid] else [])
  {
    var before, d := devices[..|devices| - 1], devices[|devices| - 1];
    if PlatformOf(d) in ps {
      TallyAppend(Among(before, ps), d, last);
    } else {
      assert Among(before, ps) + [] == Among(before, ps);
    }
  }

  /** Counting one more platform. */
  lemma {:induction false} OneMorePlatform(
    devices: seq<Device>, ps: set<Platform>, p: Platform, last: Outcomes, o: Outcome)
    requires p !in ps
    ensures |Among(devices, ps + {p})| == |Among(devices, ps)| + |Group(devices, p)|
    ensures HowMany(Among(devices, ps + {p}), last, o)
      == HowMany(Among(devices, ps), last, o) + HowMany(Group(devices, p), last, o)
  {
    if devices != [] {
      OneMorePlatform(devices[..|devices| - 1], ps, p, last, o);
      AmongStep(devices, ps + {p}, last);
      AmongStep(devices, ps, last);
      AmongStep(devices, {p}, last);
    }
  }

  function Occurrences(fids: seq<Fid>, fid: Fid): nat { multiset(fids)[fid] }

  lemma OccurrencesAppend(fids: seq<Fid>, more: seq<Fid>, fid: Fid)
    ensures Occurrences(fids + more, fid) == Occurrences(fids, fid) + Occurrences(more, fid)
  {
  }

  lemma {:induction false} InvalidOneMorePlatform(
    devices: seq<Device>, ps: set<Platform>, p: Platform, last: Outcomes, fid: Fid)
    requires p !in ps
    ensures Occurrences(InvalidFids(Among(devices, ps + {p}), last), fid) ==
      Occurrences(InvalidFids(Among(devices, ps), last), fid) + Occurrences(InvalidFids(Group(devices, p), last), fid)
  {
    if devices != [] {
      var before, d := devices[..|devices| - 1], devices[|devices| - 1];
      InvalidOneMorePlatform(before, ps, p, last, fid);
      OccurrencesStep(devices, ps + {p}, last, fid);
      OccurrencesStep(devices, ps, last, fid);
      OccurrencesStep(devices, {p}, last, fid);
    }
  }

  lemma OccurrencesStep(devices: seq<Device>, ps: set<Platform>, last: Outcomes, fid: Fid)
    requires devices != []
    ensures var before, d := devices[..|devices| - 1], devices[|devices| - 1];
      Occurrences(InvalidFids(Among(devices, ps), last), fid) == Occurrences(InvalidFids(Among(before, ps), last), fid)
        + (if PlatformOf(d) in ps && Of(last, d.fid) == Permanent && d.fid == fid then 1 else 0)
  {
    var before, d := devices[..|devices| - 1], devices[|devices| - 1];
    AmongStep(devices, ps, last);
    OccurrencesAppend(InvalidFids(Among(before, ps), last),
                      if PlatformOf(d) in ps && Of(last, d.fid) == Permanent then [d.fid] else [], fid);
  }

  // ---------------------------------------------------------------- Send

  datatype Result = Result(counts: Counts, successBy: map<Platform, nat>, failureBy: map<Platform, nat>)

  const EMPTY: Result := Result(ZERO, map[], map[])

  /** The result is what sending once to each of the devices, with these outcomes, would report:
      the same counts, the same counts per platform and the same invalid FIDs, each as often. */
  ghost predicate Reports(r: Result, devices: seq<Device>, last: Outcomes) {
    && r.counts.success == HowMany(devices, last, Delivered)
    && r.counts.failure == |devices| - HowMany(devices, last, Delivered)
    && r.counts.retryable == HowMany(devices, last, Retryable)
    && multiset(r.counts.invalid) == multiset(InvalidFids(devices, last))
    && r.successBy.Keys == r.failureBy.Keys == Platforms(devices)
    && (forall p | p in Platforms(devices) ::
          var delivered := HowMany(Group(devices, p), last, Delivered);
          r.successBy[p] == delivered && r.failureBy[p] == |Group(devices, p)| - delivered)
  }

  function GroupOutcomes(attempts: nat, world: World, send: nat, devices: seq<Device>, p: Platform): Outcomes {
    PlatformOutcomes(attempts, world, send, p, Chunks(Group(devices, p), FCM_MAX_BATCH_SIZE))
  }

  /** Each device's outcome is the one recorded in its platform's batches. */
  ghost function SendOutcomes(attempts: nat, world: World, send: nat, devices: seq<Device>): (last: Outcomes)
    requires DistinctFids(devices)
    ensures last.Keys == Fids(devices)
  {
    map d | d in devices :: d.fid := Of(GroupOutcomes(attempts, world, send, devices, PlatformOf(d)), d.fid)
  }

  lemma GroupTally(attempts: nat, world: World, send: nat, devices: seq<Device>, p: Platform)
    requires DistinctFids(devices)
    ensures Tally(Group(devices, p), GroupOutcomes(attempts, world, send, devices, p))
      == Tally(Group(devices, p), SendOutcomes(attempts, world, send, devices))
  {
    AmongIsFilter(devices, {p});
    TallyAgrees(Group(devices, p), GroupOutcomes(attempts, world, send, devices, p),
      SendOutcomes(attempts, world, send, devices));
  }

  /** How a FID's outcome comes about in the batch sent at site. Canceled before the batch, it is a
      failure of no class. Otherwise it is what attempt k recorded: every earlier attempt asked for
      another, by the strategy's word on a rejected request or by some retryable FID, and the wait
      was not canceled; attempt k did not ask, or was the last allowed, or the wait after it was
      canceled. */
  ghost predicate LastReply(cfg: Config, world: World, site: Site, fids: set<Fid>, k: nat, fid: Fid, o: Outcome) {
    if world.canceledBefore(site) then o == Other
    else
      var reply, allowed := world.reply(AtAttempt(site, k)), if cfg.enableRetry then cfg.maxRetryAttempts else 1;
      && o == (if reply.Rejected? then Other else reply.results(fid))
      && k < allowed
      && (forall j: nat | j < k :: Asks(world, site, fids, j) && !world.canceledWaiting(AtAttempt(site, j + 1)))
      && (!Asks(world, site, fids, k) || k + 1 == allowed || world.canceledWaiting(AtAttempt(site, k + 1)))
  }

  ghost predicate Asks(world: World, site: Site, fids: set<Fid>, k: nat) {
    var reply := world.reply(AtAttempt(site, k));
    if reply.Rejected? then reply.retry else exists fid :: fid in fids && reply.results(fid) == Retryable
  }

  lemma AsksIsWantsRetry(world: World, site: Site, fids: set<Fid>, k: nat)
    ensures Asks(world, site, fids, k) == WantsRetry(fids, world.reply(AtAttempt(site, k)))
  {
    var reply := world.reply(AtAttempt(site, k));
    if reply.Answered? {
      forall fid ensures OutcomeFor(reply, fid) == reply.results(fid) {}
    }
  }

  lemma BatchLastReply(cfg: Config, world: World, site: Site, fids: set<Fid>, fid: Fid) returns (k: nat)
    requires cfg.Valid() && site.attempt == 0 && fid in fids
    ensures LastReply(cfg, world, site, fids, k, fid, Of(BatchOutcomes(cfg.Attempts(), world, site, fids), fid))
  {
    k := LastAttempt(cfg.Attempts(), world, site, fids);
    forall j: nat { AsksIsWantsRetry(world, site, fids, j); }
    forall j: nat ensures NextAttempt(AtAttempt(site, j)) == AtAttempt(site, j + 1) {}
  }

  lemma FidsSize(devices: seq<Device>)
    ensures |Fids(devices)| <= |devices|
  {
    if devices != [] {
      var n := |devices| - 1;
      FidsSize(devices[..n]);
      assert devices == devices[..n] + [devices[n]];
      FidsAppend(devices[..n], devices[n]);
    }
  }

  /** Each device's outcome in a Send is the last reply to one batch, of its own platform and of at
      most 500 of the FIDs sent to. */
  lemma DeviceLastReply(cfg: Config, world: World, send: nat, devices: seq<Device>, d: Device)
    returns (batch: nat, fids: set<Fid>, k: nat)
    requires cfg.Valid() && DistinctFids(devices) && d in devices
    ensures d.fid in fids && fids <= Fids(devices) && |fids| <= 500
    ensures LastReply(cfg, world, Site(send, PlatformOf(d), batch, 0), fids, k, d.fid,
                      Of(SendOutcomes(cfg.Attempts(), world, send, devices), d.fid))
  {
    var p := PlatformOf(d);
    var group := Group(devices, p);
    var batches := Chunks(group, FCM_MAX_BATCH_SIZE);
    AmongIsFilter(devices, {p});
    AmongDistinct(devices, {p});
    ChunksKeepAll(group, FCM_MAX_BATCH_SIZE);
    batch := SomeBatchHas(batches, d);
    fids := Fids(batches[batch]);
    BatchOfFlatten(batches, batch);
    FidsSize(batches[batch]);
    OutcomeInBatch(cfg.Attempts(), world, send, p, batches, batch, d);
    k := BatchLastReply(cfg, world, Site(send, p, batch, 0), fids, d.fid);
    OutcomeOfDevice(cfg.Attempts(), world, send, devices, d);
  }

  /** Every multicast of a platform but the last carries exactly 500 FIDs. */
  lemma MulticastsAreFull(devices: seq<Device>, p: Platform, batch: nat)
    requires batch + 1 < |Chunks(Group(devices, p), FCM_MAX_BATCH_SIZE)|
    ensures |Chunks(Group(devices, p), FCM_MAX_BATCH_SIZE)[batch]| == 500
  {
    ChunkFull(Group(devices, p), FCM_MAX_BATCH_SIZE, batch);
  }

  lemma OutcomeOfDevice(attempts: nat, world: World, send: nat, devices: seq<Device>, d: Device)
    requires DistinctFids(devices) && d in devices
    ensures Of(SendOutcomes(attempts, world, send, devices), d.fid)
      == Of(GroupOutcomes(attempts, world, send, devices, PlatformOf(d)), d.fid)
  {
    forall x | x in devices && x.fid == d.fid ensures x == d { SameFidSameDevice(devices, x, d); }
    assert d.fid in Fids(devices);
  }

  /** Devices of unset platform are reported under "android", all others under their own. */
  lemma ReportKeys(r: Result, devices: seq<Device>, last: Outcomes, d: Device)
    requires Reports(r, devices, last) && d in devices
    ensures "" !in r.successBy && "" !in r.failureBy
    ensures var key := if d.platform == "" then "android" else d.platform; key in r.successBy && key in r.failureBy
  {
    assert PlatformOf(d) in Platforms(devices);
  }

  /** Grouping into a map of lists, first come first. */
  method GroupByPlatform(devices: seq<Device>) returns (byPlatform: map<Platform, seq<Device>>)
    ensures byPlatform.Keys == Platforms(devices) && GroupsOf(byPlatform, devices)
  {
    byPlatform := map[];
    for i := 0 to |devices|
      invariant byPlatform.Keys == Platforms(devices[..i])
      invariant forall p | p in byPlatform :: byPlatform[p] == Group(devices[..i], p)
    {
      var platform := devices[i].platform;
      if platform == "" {
        platform := PLATFORM_ANDROID;
      }
      assert devices[..i + 1] == devices[..i] + [devices[i]];
      assert devices[..i + 1][..i] == devices[..i];
      PlatformsAppend(devices[..i], devices[i]);
      if platform !in byPlatform {
        NoneOn(devices[..i], platform);
      }
      var group := if platform in byPlatform then byPlatform[platform] else [];
      byPlatform := byPlatform[platform := group + [devices[i]]];
    }
    assert devices[..|devices|] == devices;
  }

  lemma PlatformsAppend(devices: seq<Device>, d: Device)
    ensures Platforms(devices + [d]) == Platforms(devices) + {PlatformOf(d)}
  {
    assert forall x :: x in devices + [d] <==> x in devices || x == d;
  }

  lemma {:induction false} NoneOn(devices: seq<Device>, p: Platform)
    requires p !in Platforms(devices)
    ensures Group(devices, p) == []
  {
    if devices != [] {
      var n := |devices| - 1;
      assert devices == devices[..n] + [devices[n]];
      PlatformsAppend(devices[..n], devices[n]);
      NoneOn(devices[..n], p);
    }
  }

  /** The totals once the platforms in done have finished. */
  ghost predicate MergedTotals(c: Counts, devices: seq<Device>, last: Outcomes, done: set<Platform>) {
    && c.success == HowMany(Among(devices, done), last, Delivered)
    && c.failure == |Among(devices, done)| - c.success
    && c.retryable == HowMany(Among(devices, done), last, Retryable)
    && (forall fid :: Occurrences(c.invalid, fid) == Occurrences(InvalidFids(Among(devices, done), last), fid))
  }

  ghost predicate MergedPlatforms(r: Result, devices: seq<Device>, last: Outcomes, done: set<Platform>) {
    && r.successBy.Keys == r.failureBy.Keys == done
    && (forall p | p in done ::
          var delivered := HowMany(Group(devices, p), last, Delivered);
          r.successBy[p] == delivered && r.failureBy[p] == |Group(devices, p)| - delivered)
  }

  function MergePlatform(r: Result, p: Platform, c: Counts): Result {
    var already := if p in r.successBy then r.successBy[p] else 0;
    var failed := if p in r.failureBy then r.failureBy[p] else 0;
    Result(r.counts.Plus(c), r.successBy[p := already + c.success], r.failureBy[p := failed + c.failure])
  }

  lemma MergeTotals(c: Counts, devices: seq<Device>, last: Outcomes, done: set<Platform>, p: Platform)
    requires MergedTotals(c, devices, last, done) && p !in done
    ensures MergedTotals(c.Plus(Tally(Group(devices, p), last)), devices, last, done + {p})
  {
    var more := Tally(Group(devices, p), last);
    OneMorePlatform(devices, done, p, last, Delivered);
    OneMorePlatform(devices, done, p, last, Retryable);
    forall fid
      ensures Occurrences(c.invalid + more.invalid, fid)
        == Occurrences(InvalidFids(Among(devices, done + {p}), last), fid)
    {
      InvalidOneMorePlatform(devices, done, p, last, fid);
      OccurrencesAppend(c.invalid, more.invalid, fid);
    }
  }

  lemma MergePlatforms(r: Result, devices: seq<Device>, last: Outcomes, done: set<Platform>, p: Platform)
    requires MergedPlatforms(r, devices, last, done) && p !in done
    ensures MergedPlatforms(MergePlatform(r, p, Tally(Group(devices, p), last)), devices, last, done + {p})
  {
  }

  lemma MergedAll(r: Result, devices: seq<Device>, last: Outcomes)
    requires MergedTotals(r.counts, devices, last, Platforms(devices))
    requires MergedPlatforms(r, devices, last, Platforms(devices))
    ensures Reports(r, devices, last)
  {
    AmongAll(devices, Platforms(devices));
    SameOccurrences(r.counts.invalid, InvalidFids(devices, last));
  }

  lemma SameOccurrences(a: seq<Fid>, b: seq<Fid>)
    requires forall fid :: Occurrences(a, fid) == Occurrences(b, fid)
    ensures multiset(a) == multiset(b)
  {
    forall fid ensures multiset(a)[fid] == multiset(b)[fid] {
      assert Occurrences(a, fid) == Occurrences(b, fid);
    }
  }

  /** Send: for every world, and in whatever order the platform goroutines finish, the result
      reports one send to each distinct device, with the outcome recorded last for it. An oversized
      message fails every device it was given, duplicates included. */
  method Send(cfg: Config, world: World, send: nat, devices: seq<Device>, fits: bool)
    returns (result: Result, err: bool)
    requires cfg.Valid()
    ensures err == (devices != [] && !fits)
    ensures devices == [] ==> result == EMPTY
    ensures err ==> result == Result(Counts(0, |devices|, [], 0), map[], map[])
    ensures DistinctFids(Dedup(devices))
    ensures devices != [] && fits ==>
      Reports(result, Dedup(devices), SendOutcomes(cfg.Attempts(), world, send, Dedup(devices)))
  {
    DedupDistinct(devices);
    if |devices| == 0 {
      return EMPTY, false;
    }
    if !fits {
      return Result(Counts(0, |devices|, [], 0), map[], map[]), true;
    }
    var unique := Deduplicate(devices);
    var byPlatform := GroupByPlatform(unique);
    result := SendGroups(cfg, world, send, unique, byPlatform);
    MergedAll(result, unique, SendOutcomes(cfg.Attempts(), world, send, unique));
    err := false;
  }

  lemma NothingMerged(devices: seq<Device>, last: Outcomes)
    ensures MergedTotals(ZERO, devices, last, {}) && MergedPlatforms(EMPTY, devices, last, {})
  {
    AmongNone(devices);
  }

  ghost predicate GroupsOf(byPlatform: map<Platform, seq<Device>>, devices: seq<Device>) {
    forall p | p in byPlatform :: byPlatform[p] == Group(devices, p)
  }

  ghost predicate MergedUpTo(r: Result, devices: seq<Device>, last: Outcomes, done: set<Platform>) {
    MergedTotals(r.counts, devices, last, done) && MergedPlatforms(r, devices, last, done)
  }

  /** The goroutines, one platform each, merging under the mutex in any order. */
  method SendGroups(cfg: Config, world: World, send: nat, unique: seq<Device>, byPlatform: map<Platform, seq<Device>>)
    returns (result: Result)
    requires cfg.Valid() && DistinctFids(unique) && GroupsOf(byPlatform, unique)
    ensures MergedUpTo(result, unique, SendOutcomes(cfg.Attempts(), world, send, unique), byPlatform.Keys)
  {
    ghost var last := SendOutcomes(cfg.Attempts(), world, send, unique);
    NothingMerged(unique, last);
    result := SendRest(cfg, world, send, unique, byPlatform, byPlatform.Keys, EMPTY, {}, last);
  }

  /** The platforms still running finish one after another, in any order. */
  method SendRest(cfg: Config, world: World, send: nat, unique: seq<Device>, byPlatform: map<Platform, seq<Device>>,
                  running: set<Platform>, sofar: Result, ghost done: set<Platform>, ghost last: Outcomes)
    returns (result: Result)
    requires cfg.Valid() && DistinctFids(unique) && GroupsOf(byPlatform, unique)
    requires running !! done && running + done == byPlatform.Keys
    requires last == SendOutcomes(cfg.Attempts(), world, send, unique) && MergedUpTo(sofar, unique, last, done)
    ensures MergedUpTo(result, unique, last, byPlatform.Keys)
    decreases running
  {
    if running == {} {
      assert done == byPlatform.Keys;
      return sofar;
    }
    var p :| p in running;
    var next := SendAndMerge(cfg, world, send, unique, p, byPlatform[p], sofar, done, last);
    FinishOne(running, done, p);
    result := SendRest(cfg, world, send, unique, byPlatform, running - {p}, next, done + {p}, last);
  }

  lemma FinishOne(running: set<Platform>, done: set<Platform>, p: Platform)
    requires running !! done && p in running
    ensures running - {p} !! done + {p} && (running - {p}) + (done + {p}) == running + done
  {
  }

  /** One goroutine's work. */
  method SendGroup(cfg: Config, world: World, send: nat, unique: seq<Device>, p: Platform, group: seq<Device>)
    returns (c: Counts)
    requires cfg.Valid() && DistinctFids(unique) && group == Group(unique, p)
    ensures c == Tally(Group(unique, p), SendOutcomes(cfg.Attempts(), world, send, unique))
  {
    AmongIsFilter(unique, {p});
    AmongDistinct(unique, {p});
    c := SendPlatformBatches(cfg, world, send, p, group);
    GroupTally(cfg.Attempts(), world, send, unique, p);
  }

  /** One goroutine's work and the merge of its counts into the shared result. */
  method SendAndMerge(cfg: Config, world: World, send: nat, unique: seq<Device>, p: Platform, group: seq<Device>,
                      result: Result, ghost done: set<Platform>, ghost last: Outcomes) returns (merged: Result)
    requires cfg.Valid() && DistinctFids(unique) && group == Group(unique, p) && p !in done
    requires last == SendOutcomes(cfg.Attempts(), world, send, unique) && MergedUpTo(result, unique, last, done)
    ensures MergedUpTo(merged, unique, last, done + {p})
  {
    var c := SendGroup(cfg, world, send, unique, p, group);
    MergeTotals(result.counts, unique, last, done, p);
    MergePlatforms(result, unique, last, done, p);
    merged := MergePlatform(result, p, c);
  }
}
