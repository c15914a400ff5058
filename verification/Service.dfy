/** service.go from the resolved devices to the dead-letter decision: deduplicate, pre-split, send
    each batch, merge the results in place, and publish what stayed unresolved. */
module Service {
  import opened BatchSplitter
  import opened Dispatch

  datatype ServiceConfig = ServiceConfig(
    enableDeduplication: bool, enforceBatching: bool, maxDevicesPerBatch: int, enableDlq: bool)

  /** The device lists handed to the dispatcher, one Send each. */
  function Sends(cfg: ServiceConfig, devices: seq<Device>): seq<seq<Device>> {
    var ds := if cfg.enableDeduplication then Dedup(devices) else devices;
    if ds == [] then []
    else if !cfg.enforceBatching || cfg.maxDevicesPerBatch <= 0 then [ds]
    else Chunks(ds, cfg.maxDevicesPerBatch)
  }

  /** The outcome recorded last for device d in the i-th Send. */
  ghost function LastOutcome(attempts: nat, world: World, sends: seq<seq<Device>>, i: nat, d: Device): Outcome
    requires i < |sends|
  {
    DedupDistinct(sends[i]);
    Of(SendOutcomes(attempts, world, i, Dedup(sends[i])), d.fid)
  }

  /** Some device of the first n sends was left neither delivered nor permanently refused. */
  ghost predicate AnyUnresolved(attempts: nat, world: World, sends: seq<seq<Device>>, n: nat)
    requires n <= |sends|
  {
    exists i, d :: 0 <= i < n && d in sends[i] && Unresolved(LastOutcome(attempts, world, sends, i, d))
  }

  /** How many devices the first n sends address. */
  function Addressed(fits: bool, sends: seq<seq<Device>>, n: nat): nat
    requires n <= |sends|
  {
    if n == 0 then 0
    else Addressed(fits, sends, n - 1) + (if fits then |Dedup(sends[n - 1])| else |sends[n - 1]|)
  }

  // ---------------------------------------------------------------- merging

  /** map[Platform]int addition, as the loops over src do it. */
  function AddMaps(a: map<Platform, nat>, b: map<Platform, nat>): map<Platform, nat> {
    map p | p in a.Keys + b.Keys :: (if p in a then a[p] else 0) + (if p in b then b[p] else 0)
  }

  method AddInto(a: map<Platform, nat>, b: map<Platform, nat>) returns (sum: map<Platform, nat>)
    ensures sum == AddMaps(a, b)
  {
    sum := a;
    var left := b.Keys;
    while left != {}
      invariant left <= b.Keys
      invariant sum == AddMaps(a, map p | p in b && p !in left :: b[p])
      decreases left
    {
      var p :| p in left;
      sum := sum[p := (if p in sum then sum[p] else 0) + b[p]];
      left := left - {p};
    }
    assert (map p | p in b && p !in left :: b[p]) == b;
  }

  /** The DispatchResult that dispatchToDevices accumulates. */
  class Aggregate {
    var counts: Counts
    var successBy: map<Platform, nat>
    var failureBy: map<Platform, nat>

    function Value(): Result
      reads this
    {
      Result(counts, successBy, failureBy)
    }

    constructor ()
      ensures Value() == EMPTY
    {
      counts, successBy, failureBy := ZERO, map[], map[];
    }

    /** mergeDispatchResult. */
    method Merge(src: Result)
      modifies this
      ensures counts == old(counts).Plus(src.counts)
      ensures successBy == AddMaps(old(successBy), src.successBy) && failureBy == AddMaps(old(failureBy), src.failureBy)
    {
      counts := counts.Plus(src.counts);
      successBy := AddInto(successBy, src.successBy);
      failureBy := AddInto(failureBy, src.failureBy);
    }
  }

  function MergeResults(a: Result, b: Result): Result {
    Result(a.counts.Plus(b.counts), AddMaps(a.successBy, b.successBy), AddMaps(a.failureBy, b.failureBy))
  }

  lemma {:induction false} AmongConcat(a: seq<Device>, b: seq<Device>, ps: set<Platform>)
    ensures Among(a + b, ps) == Among(a, ps) + Among(b, ps)
  {
    if b == [] {
      assert a + b == a;
    } else {
      var before, d := b[..|b| - 1], b[|b| - 1];
      var more := if PlatformOf(d) in ps then [d] else [];
      AmongConcat(a, before, ps);
      assert a + b == (a + before) + [d];
      AmongAppend(a + before, d, ps);
      assert Among(a, ps) + Among(before, ps) + more == Among(a, ps) + (Among(before, ps) + more);
    }
  }

  lemma PlatformsConcat(a: seq<Device>, b: seq<Device>)
    ensures Platforms(a + b) == Platforms(a) + Platforms(b)
  {
    assert forall x :: x in a + b <==> x in a || x in b;
  }

  /** What a report says of one platform, present or not. */
  lemma ReportOnPlatform(r: Result, devices: seq<Device>, last: Outcomes, p: Platform)
    requires Reports(r, devices, last)
    ensures (if p in r.successBy then r.successBy[p] else 0) == HowMany(Group(devices, p), last, Delivered)
    ensures (if p in r.failureBy then r.failureBy[p] else 0)
      == |Group(devices, p)| - HowMany(Group(devices, p), last, Delivered)
  {
    if p !in Platforms(devices) { NoneOn(devices, p); }
  }

  lemma PlatformsMerge(r: Result, a: seq<Device>, s: Result, b: seq<Device>, last: Outcomes, p: Platform)
    requires Reports(r, a, last) && Reports(s, b, last) && p in Platforms(a + b)
    ensures p in r.successBy.Keys + s.successBy.Keys && p in r.failureBy.Keys + s.failureBy.Keys
    ensures AddMaps(r.successBy, s.successBy)[p] == HowMany(Group(a + b, p), last, Delivered)
    ensures AddMaps(r.failureBy, s.failureBy)[p] == |Group(a + b, p)| - HowMany(Group(a + b, p), last, Delivered)
  {
    PlatformsConcat(a, b);
    ReportOnPlatform(r, a, last, p);
    ReportOnPlatform(s, b, last, p);
    AmongConcat(a, b, {p});
    HowManyConcat(Group(a, p), Group(b, p), last, Delivered);
  }

  lemma ReportsMerge(r: Result, a: seq<Device>, s: Result, b: seq<Device>, last: Outcomes)
    requires Reports(r, a, last) && Reports(s, b, last)
    ensures Reports(MergeResults(r, s), a + b, last)
  {
    HowManyConcat(a, b, last, Delivered);
    HowManyConcat(a, b, last, Retryable);
    InvalidConcat(a, b, last);
    PlatformsConcat(a, b);
    assert multiset(r.counts.invalid + s.counts.invalid) == multiset(r.counts.invalid) + multiset(s.counts.invalid);
    assert multiset(InvalidFids(a, last) + InvalidFids(b, last))
      == multiset(InvalidFids(a, last)) + multiset(InvalidFids(b, last));
    forall p | p in Platforms(a + b)
      ensures AddMaps(r.successBy, s.successBy)[p] == HowMany(Group(a + b, p), last, Delivered)
      ensures AddMaps(r.failureBy, s.failureBy)[p] == |Group(a + b, p)| - HowMany(Group(a + b, p), last, Delivered)
    {
      PlatformsMerge(r, a, s, b, last, p);
    }
  }

  lemma ReportsAgree(r: Result, devices: seq<Device>, a: Outcomes, b: Outcomes)
    requires Reports(r, devices, a) && forall d | d in devices :: Of(a, d.fid) == Of(b, d.fid)
    ensures Reports(r, devices, b)
  {
    TallyAgrees(devices, a, b);
    forall p ensures HowMany(Group(devices, p), a, Delivered) == HowMany(Group(devices, p), b, Delivered) {
      AmongIsFilter(devices, {p});
      TallyAgrees(Group(devices, p), a, b);
    }
  }

  // ---------------------------------------------------------------- conservation

  ghost predicate Conserved(c: Counts, fits: bool, attempts: nat, world: World, sends: seq<seq<Device>>, n: nat)
    requires n <= |sends|
  {
    && c.success + c.failure == Addressed(fits, sends, n)
    && |c.invalid| + c.retryable <= c.failure
    && (if fits then c.failure > |c.invalid| <==> AnyUnresolved(attempts, world, sends, n)
        else c.success == 0 && c.invalid == [])
  }

  /** One Send: its unresolved failures are those of the devices it was given. */
  lemma SendConserves(r: Result, attempts: nat, world: World, sends: seq<seq<Device>>, i: nat)
    requires i < |sends| && DistinctFids(Dedup(sends[i]))
    requires Reports(r, Dedup(sends[i]), SendOutcomes(attempts, world, i, Dedup(sends[i])))
    ensures r.counts.success + r.counts.failure == |Dedup(sends[i])|
    ensures |r.counts.invalid| + r.counts.retryable <= r.counts.failure
    ensures r.counts.failure > |r.counts.invalid| <==>
      exists d :: d in sends[i] && Unresolved(LastOutcome(attempts, world, sends, i, d))
  {
    var unique := Dedup(sends[i]);
    var last := SendOutcomes(attempts, world, i, unique);
    TallyConserves(unique, last);
    assert |multiset(r.counts.invalid)| == |multiset(InvalidFids(unique, last))|;
    DedupDistinct(sends[i]);
    if d :| d in unique && Unresolved(Of(last, d.fid)) {
      var k := InDedup(sends[i], d);
      assert Unresolved(LastOutcome(attempts, world, sends, i, sends[i][k]));
    }
    if d :| d in sends[i] && Unresolved(LastOutcome(attempts, world, sends, i, d)) {
      assert d.fid in Fids(unique);
      var u :| u in unique && u.fid == d.fid;
      assert Unresolved(Of(last, u.fid));
    }
  }

  lemma UnresolvedStep(attempts: nat, world: World, sends: seq<seq<Device>>, n: nat)
    requires n < |sends|
    ensures AnyUnresolved(attempts, world, sends, n + 1) <==>
      (AnyUnresolved(attempts, world, sends, n)
        || exists d :: d in sends[n] && Unresolved(LastOutcome(attempts, world, sends, n, d)))
  {
    if d :| d in sends[n] && Unresolved(LastOutcome(attempts, world, sends, n, d)) {
      assert n < n + 1 && d in sends[n];
    }
  }

  // ---------------------------------------------------------------- all outcomes together

  /** The outcomes of the first n sends in one table. */
  ghost function AllOutcomes(attempts: nat, world: World, sends: seq<seq<Device>>, n: nat): Outcomes
    requires n <= |sends|
  {
    if n == 0 then map[]
    else
      DedupDistinct(sends[n - 1]);
      AllOutcomes(attempts, world, sends, n - 1) + SendOutcomes(attempts, world, n - 1, Dedup(sends[n - 1]))
  }

  lemma FlattenNext(sends: seq<seq<Device>>, n: nat)
    requires n < |sends|
    ensures Flatten(sends[..n + 1]) == Flatten(sends[..n]) + sends[n]
    ensures Fids(Flatten(sends[..n + 1])) == Fids(Flatten(sends[..n])) + Fids(sends[n])
  {
    assert sends[..n + 1] == sends[..n] + [sends[n]];
    FlattenAppend(sends[..n], sends[n]);
    FidsConcat(Flatten(sends[..n]), sends[n]);
  }

  lemma {:induction false} AllOutcomesCover(attempts: nat, world: World, sends: seq<seq<Device>>, n: nat)
    requires n <= |sends|
    ensures AllOutcomes(attempts, world, sends, n).Keys == Fids(Flatten(sends[..n]))
  {
    if n > 0 {
      AllOutcomesCover(attempts, world, sends, n - 1);
      DedupDistinct(sends[n - 1]);
      FlattenNext(sends, n - 1);
      KeysOfUnion(AllOutcomes(attempts, world, sends, n - 1),
        SendOutcomes(attempts, world, n - 1, Dedup(sends[n - 1])));
    }
  }

  lemma KeysOfUnion(a: Outcomes, b: Outcomes)
    ensures (a + b).Keys == a.Keys + b.Keys
  {
  }

  lemma NextSend(attempts: nat, world: World, sends: seq<seq<Device>>, n: nat)
    requires n < |sends| && DistinctFids(Flatten(sends))
    ensures DistinctFids(Flatten(sends[..n]) + sends[n]) && DistinctFids(sends[n]) && Dedup(sends[n]) == sends[n]
    ensures Flatten(sends[..n + 1]) == Flatten(sends[..n]) + sends[n]
    ensures AllOutcomes(attempts, world, sends, n + 1)
      == AllOutcomes(attempts, world, sends, n) + SendOutcomes(attempts, world, n, sends[n])
  {
    BatchOfFlatten(sends, n);
    DistinctParts(Flatten(sends[..n]), sends[n]);
    DedupOfDistinct(sends[n]);
    FlattenNext(sends, n);
  }

  /** Merging the next Send's report when no FID is sent to twice. */
  lemma ReportNextSend(r: Result, s: Result, attempts: nat, world: World, sends: seq<seq<Device>>, n: nat)
    requires n < |sends| && DistinctFids(Flatten(sends))
    requires Reports(r, Flatten(sends[..n]), AllOutcomes(attempts, world, sends, n))
    requires DistinctFids(Dedup(sends[n]))
    requires Reports(s, Dedup(sends[n]), SendOutcomes(attempts, world, n, Dedup(sends[n])))
    ensures Reports(MergeResults(r, s), Flatten(sends[..n + 1]), AllOutcomes(attempts, world, sends, n + 1))
  {
    NextSend(attempts, world, sends, n);
    var before, batch := Flatten(sends[..n]), sends[n];
    var la, lb := AllOutcomes(attempts, world, sends, n), SendOutcomes(attempts, world, n, batch);
    assert la.Keys == Fids(before) by { AllOutcomesCover(attempts, world, sends, n); }
    ReportsUnion(r, before, la, s, batch, lb);
  }

  lemma ReportsUnion(r: Result, a: seq<Device>, la: Outcomes, s: Result, b: seq<Device>, lb: Outcomes)
    requires DistinctFids(a + b) && la.Keys == Fids(a) && lb.Keys == Fids(b)
    requires Reports(r, a, la) && Reports(s, b, lb)
    ensures Reports(MergeResults(r, s), a + b, la + lb)
  {
    DistinctParts(a, b);
    forall d | d in a ensures Of(la, d.fid) == Of(la + lb, d.fid) { assert d.fid in Fids(a); }
    forall d | d in b ensures Of(lb, d.fid) == Of(la + lb, d.fid) { assert d.fid in Fids(b); }
    ReportsAgree(r, a, la, la + lb);
    ReportsAgree(s, b, lb, la + lb);
    ReportsMerge(r, a, s, b, la + lb);
  }

  // ---------------------------------------------------------------- dispatch

  ghost predicate Dispatched(r: Result, fits: bool, attempts: nat, world: World, sends: seq<seq<Device>>, n: nat)
    requires n <= |sends|
  {
    && Conserved(r.counts, fits, attempts, world, sends, n)
    && (fits && DistinctFids(Flatten(sends)) ==>
      Reports(r, Flatten(sends[..n]), AllOutcomes(attempts, world, sends, n)))
  }

  lemma NothingDispatched(fits: bool, attempts: nat, world: World, sends: seq<seq<Device>>)
    ensures Dispatched(EMPTY, fits, attempts, world, sends, 0)
  {
    assert sends[..0] == [];
  }

  lemma OneMoreSend(
    r: Result, s: Result, merged: Result, fits: bool, attempts: nat, world: World, sends: seq<seq<Device>>, n: nat)
    requires merged == MergeResults(r, s)
    requires n < |sends| && Dispatched(r, fits, attempts, world, sends, n) && DistinctFids(Dedup(sends[n]))
    requires if fits then Reports(s, Dedup(sends[n]), SendOutcomes(attempts, world, n, Dedup(sends[n])))
             else s == Result(Counts(0, |sends[n]|, [], 0), map[], map[])
    ensures Dispatched(merged, fits, attempts, world, sends, n + 1)
  {
    if fits {
      SendConserves(s, attempts, world, sends, n);
      UnresolvedStep(attempts, world, sends, n);
      if DistinctFids(Flatten(sends)) { ReportNextSend(r, s, attempts, world, sends, n); }
    }
  }

  /** dispatchToDevices, for every configuration, device list, world and message. */
  method DispatchToDevices(cfg: ServiceConfig, dispatcher: Config, world: World, devices: seq<Device>, fits: bool)
    returns (result: Result, deviceCount: nat, err: bool)
    requires dispatcher.Valid()
    ensures deviceCount == (if cfg.enableDeduplication then |Dedup(devices)| else |devices|)
    ensures err == (Sends(cfg, devices) != [] && !fits)
    ensures var sends := Sends(cfg, devices); Dispatched(result, fits, dispatcher.Attempts(), world, sends, |sends|)
  {
    var ds := devices;
    if cfg.enableDeduplication {
      ds := Deduplicate(devices);
    }
    deviceCount := |ds|;
    ghost var sends := Sends(cfg, devices);
    NothingDispatched(fits, dispatcher.Attempts(), world, sends);
    if |ds| == 0 {
      return EMPTY, deviceCount, false;
    }
    if !cfg.enforceBatching || cfg.maxDevicesPerBatch <= 0 {
      result, err := Send(dispatcher, world, 0, ds, fits);
      OnlySend(result, fits, dispatcher.Attempts(), world, sends);
      return;
    }
    var batches := Split(ds, cfg.maxDevicesPerBatch);
    ChunksKeepAll(ds, cfg.maxDevicesPerBatch);
    result, err := SendAll(dispatcher, world, batches, fits);
  }

  lemma OnlySend(r: Result, fits: bool, attempts: nat, world: World, sends: seq<seq<Device>>)
    requires |sends| == 1 && DistinctFids(Dedup(sends[0]))
    requires if fits then Reports(r, Dedup(sends[0]), SendOutcomes(attempts, world, 0, Dedup(sends[0])))
             else r == Result(Counts(0, |sends[0]|, [], 0), map[], map[])
    ensures Dispatched(r, fits, attempts, world, sends, |sends|)
  {
    var n := |sends| - 1;
    NothingDispatched(fits, attempts, world, sends);
    MergeIntoEmpty(r);
    OneMoreSend(EMPTY, r, r, fits, attempts, world, sends, n);
  }

  lemma MergeIntoEmpty(r: Result)
    ensures MergeResults(EMPTY, r) == r
  {
    assert AddMaps(map[], r.successBy) == r.successBy && AddMaps(map[], r.failureBy) == r.failureBy;
    assert [] + r.counts.invalid == r.counts.invalid;
  }

  /** The loop that sends each batch and merges its result into the aggregate. */
  method SendAll(dispatcher: Config, world: World, batches: seq<seq<Device>>, fits: bool)
    returns (result: Result, err: bool)
    requires dispatcher.Valid() && forall i | 0 <= i < |batches| :: batches[i] != []
    ensures Dispatched(result, fits, dispatcher.Attempts(), world, batches, |batches|)
    ensures err == (batches != [] && !fits)
  {
    var aggregated := new Aggregate();
    err := false;
    NothingDispatched(fits, dispatcher.Attempts(), world, batches);
    for n := 0 to |batches|
      invariant Dispatched(aggregated.Value(), fits, dispatcher.Attempts(), world, batches, n)
      invariant err == (n > 0 && !fits)
    {
      var batchResult, batchErr := Send(dispatcher, world, n, batches[n], fits);
      if batchErr {
        err := true;
      }
      ghost var before := aggregated.Value();
      aggregated.Merge(batchResult);
      OneMoreSend(before, batchResult, aggregated.Value(), fits, dispatcher.Attempts(), world, batches, n);
    }
    result := aggregated.Value();
  }

  // ---------------------------------------------------------------- batching changes nothing

  function Answering(fids: set<Fid>, o: Fid -> Outcome): Outcomes { map fid | fid in fids :: o(fid) }

  /** Each FID ends the same whatever batch it is in. */
  ghost predicate Independent(attempts: nat, world: World, o: Fid -> Outcome) {
    forall send: nat, p: Platform, batch: nat, fids: set<Fid> ::
      BatchOutcomes(attempts, world, Site(send, p, batch, 0), fids) == Answering(fids, o)
  }

  /** For one: every batch reaches FCM at every attempt, and FCM answers each FID alike. */
  ghost predicate AnswersAlike(world: World, o: Fid -> Outcome) {
    forall site ::
      && !world.canceledBefore(site) && !world.canceledWaiting(site)
      && world.reply(site).Answered? && forall fid :: OutcomeFor(world.reply(site), fid) == o(fid)
  }

  lemma {:induction false} RetriesAnswer(attempts: nat, world: World, site: Site, fids: set<Fid>, o: Fid -> Outcome)
    requires AnswersAlike(world, o)
    ensures AfterRetries(attempts, world, site, fids) == Answering(fids, o)
    decreases attempts - site.attempt
  {
    assert world.reply(site).Answered?;
    forall fid ensures OutcomeFor(world.reply(site), fid) == o(fid) {}
    if site.attempt + 1 < attempts { RetriesAnswer(attempts, world, NextAttempt(site), fids, o); }
  }

  lemma AnswersAlikeIsIndependent(attempts: nat, world: World, o: Fid -> Outcome)
    requires AnswersAlike(world, o)
    ensures Independent(attempts, world, o)
  {
    forall send: nat, p: Platform, batch: nat, fids: set<Fid>
      ensures BatchOutcomes(attempts, world, Site(send, p, batch, 0), fids) == Answering(fids, o)
    {
      assert !world.canceledBefore(Site(send, p, batch, 0));
      RetriesAnswer(attempts, world, Site(send, p, batch, 0), fids, o);
    }
  }

  /** For another: the context is canceled before the first batch. */
  lemma CanceledIsIndependent(attempts: nat, world: World)
    requires forall site :: world.canceledBefore(site)
    ensures Independent(attempts, world, _ => Other)
  {
    forall send: nat, p: Platform, batch: nat, fids: set<Fid>
      ensures BatchOutcomes(attempts, world, Site(send, p, batch, 0), fids) == Answering(fids, _ => Other)
    {
      assert world.canceledBefore(Site(send, p, batch, 0));
    }
  }

  lemma {:induction false} PlatformAnswers(
    attempts: nat, world: World, send: nat, p: Platform, batches: seq<seq<Device>>, o: Fid -> Outcome)
    requires Independent(attempts, world, o)
    ensures PlatformOutcomes(attempts, world, send, p, batches) == Answering(Fids(Flatten(batches)), o)
  {
    if batches != [] {
      var n := |batches| - 1;
      PlatformAnswers(attempts, world, send, p, batches[..n], o);
      assert BatchOutcomes(attempts, world, Site(send, p, n, 0), Fids(batches[n])) == Answering(Fids(batches[n]), o);
      FidsConcat(Flatten(batches[..n]), batches[n]);
      AnsweringUnion(Fids(Flatten(batches[..n])), Fids(batches[n]), o);
    }
  }

  lemma SendAnswers(attempts: nat, world: World, send: nat, devices: seq<Device>, o: Fid -> Outcome)
    requires Independent(attempts, world, o) && DistinctFids(devices)
    ensures SendOutcomes(attempts, world, send, devices) == Answering(Fids(devices), o)
  {
    forall d | d in devices
      ensures Of(GroupOutcomes(attempts, world, send, devices, PlatformOf(d)), d.fid) == o(d.fid)
    {
      var group := Group(devices, PlatformOf(d));
      PlatformAnswers(attempts, world, send, PlatformOf(d), Chunks(group, FCM_MAX_BATCH_SIZE), o);
      ChunksKeepAll(group, FCM_MAX_BATCH_SIZE);
      AmongIsFilter(devices, {PlatformOf(d)});
      assert d.fid in Fids(group);
    }
  }

  lemma {:induction false} AllAnswer(attempts: nat, world: World, sends: seq<seq<Device>>, n: nat, o: Fid -> Outcome)
    requires Independent(attempts, world, o) && n <= |sends|
    ensures AllOutcomes(attempts, world, sends, n) == Answering(Fids(Flatten(sends[..n])), o)
  {
    NoAnswers(attempts, world, sends, o);
    for k := 0 to n
      invariant AllOutcomes(attempts, world, sends, k) == Answering(Fids(Flatten(sends[..k])), o)
    {
      OneMoreAnswers(attempts, world, sends, k, o);
    }
  }

  lemma NoAnswers(attempts: nat, world: World, sends: seq<seq<Device>>, o: Fid -> Outcome)
    ensures AllOutcomes(attempts, world, sends, 0) == Answering(Fids(Flatten(sends[..0])), o)
  {
    assert Fids(Flatten(sends[..0])) == {};
  }

  lemma OneMoreAnswers(attempts: nat, world: World, sends: seq<seq<Device>>, n: nat, o: Fid -> Outcome)
    requires Independent(attempts, world, o) && n < |sends|
    requires AllOutcomes(attempts, world, sends, n) == Answering(Fids(Flatten(sends[..n])), o)
    ensures AllOutcomes(attempts, world, sends, n + 1) == Answering(Fids(Flatten(sends[..n + 1])), o)
  {
    var before, batch := Fids(Flatten(sends[..n])), Fids(sends[n]);
    DedupDistinct(sends[n]);
    assert SendOutcomes(attempts, world, n, Dedup(sends[n])) == Answering(batch, o) by {
      SendAnswers(attempts, world, n, Dedup(sends[n]), o);
    }
    assert Fids(Flatten(sends[..n + 1])) == before + batch by { FlattenNext(sends, n); }
    AnsweringUnion(before, batch, o);
  }

  lemma AnsweringUnion(a: set<Fid>, b: set<Fid>, o: Fid -> Outcome)
    ensures Answering(a, o) + Answering(b, o) == Answering(a + b, o)
  {
  }

  lemma SendsKeepAll(cfg: ServiceConfig, devices: seq<Device>)
    ensures Flatten(Sends(cfg, devices)) == if cfg.enableDeduplication then Dedup(devices) else devices
  {
    var ds := if cfg.enableDeduplication then Dedup(devices) else devices;
    ChunksKeepAll(ds, cfg.maxDevicesPerBatch);
    FlattenAppend([], ds);
    assert [] + [ds] == [ds];
  }

  /** With service deduplication on, however the devices are pre-split, grouped, split at 500,
      retried and merged, dispatch reports what one send to each distinct device would. */
  lemma BatchingChangesNothing(
    cfg: ServiceConfig, attempts: nat, world: World, devices: seq<Device>, r: Result, o: Fid -> Outcome)
    requires cfg.enableDeduplication && Independent(attempts, world, o)
    requires var sends := Sends(cfg, devices); Dispatched(r, true, attempts, world, sends, |sends|)
    ensures Reports(r, Dedup(devices), Answering(Fids(devices), o))
  {
    var sends := Sends(cfg, devices);
    SendsKeepAll(cfg, devices);
    DedupDistinct(devices);
    assert sends[..|sends|] == sends;
    AllAnswer(attempts, world, sends, |sends|, o);
  }

  /** Pre-splitting: batches of exactly the size asked, the last possibly smaller, or one Send. */
  lemma SendsRespectLimit(cfg: ServiceConfig, devices: seq<Device>, i: nat)
    requires i < |Sends(cfg, devices)|
    ensures Sends(cfg, devices)[i] != []
    ensures cfg.enforceBatching && cfg.maxDevicesPerBatch > 0 ==>
      && |Sends(cfg, devices)[i]| <= cfg.maxDevicesPerBatch
      && (i + 1 < |Sends(cfg, devices)| ==> |Sends(cfg, devices)[i]| == cfg.maxDevicesPerBatch)
    ensures !(cfg.enforceBatching && cfg.maxDevicesPerBatch > 0) ==> |Sends(cfg, devices)| == 1
  {
    var ds := if cfg.enableDeduplication then Dedup(devices) else devices;
    if cfg.enforceBatching && cfg.maxDevicesPerBatch > 0 {
      ChunkSize(ds, cfg.maxDevicesPerBatch, i);
      if i + 1 < |Sends(cfg, devices)| { ChunkFull(ds, cfg.maxDevicesPerBatch, i); }
    }
  }

  lemma {:induction false} FlattenSize(sends: seq<seq<Device>>, n: nat)
    requires n <= |sends|
    ensures Addressed(false, sends, n) == |Flatten(sends[..n])|
    ensures DistinctFids(Flatten(sends)) ==> Addressed(true, sends, n) == |Flatten(sends[..n])|
  {
    if n > 0 {
      FlattenSize(sends, n - 1);
      FlattenNext(sends, n - 1);
      if DistinctFids(Flatten(sends)) {
        BatchOfFlatten(sends, n - 1);
        DistinctParts(Flatten(sends[..n - 1]), sends[n - 1]);
        DedupOfDistinct(sends[n - 1]);
      }
    }
  }

  lemma {:induction false} DistinctFidsSize(devices: seq<Device>)
    requires DistinctFids(devices)
    ensures |Fids(devices)| == |devices|
  {
    if devices != [] {
      var n := |devices| - 1;
      DistinctFidsSize(devices[..n]);
      assert devices == devices[..n] + [devices[n]];
      FidsAppend(devices[..n], devices[n]);
      DistinctParts(devices[..n], [devices[n]]);
    }
  }

  /** With deduplication every distinct FID is addressed once; an oversized message without it,
      every device. */
  lemma AddressedOnce(cfg: ServiceConfig, devices: seq<Device>)
    ensures var sends := Sends(cfg, devices);
      && (cfg.enableDeduplication ==> forall fits :: Addressed(fits, sends, |sends|) == |Fids(devices)|)
      && (!cfg.enableDeduplication ==> Addressed(false, sends, |sends|) == |devices|)
  {
    var sends := Sends(cfg, devices);
    SendsKeepAll(cfg, devices);
    DedupDistinct(devices);
    assert sends[..|sends|] == sends;
    FlattenSize(sends, |sends|);
    DistinctFidsSize(Dedup(devices));
  }

  /** What LastOutcome means: the last reply, in the i-th Send, to one batch of the device's platform
      and of at most 500 FIDs of that Send. */
  lemma OutcomeIsLastReply(cfg: Config, world: World, sends: seq<seq<Device>>, i: nat, d: Device)
    returns (p: Platform, batch: nat, fids: set<Fid>, k: nat)
    requires cfg.Valid() && i < |sends| && d in sends[i]
    ensures d.fid in fids && fids <= Fids(sends[i]) && |fids| <= 500
    ensures exists u :: u in sends[i] && u.fid == d.fid && p == PlatformOf(u)
    ensures LastReply(cfg, world, Site(i, p, batch, 0), fids, k, d.fid, LastOutcome(cfg.Attempts(), world, sends, i, d))
  {
    var unique := Dedup(sends[i]);
    DedupDistinct(sends[i]);
    assert d.fid in Fids(unique);
    var u :| u in unique && u.fid == d.fid;
    var at := InDedup(sends[i], u);
    p := PlatformOf(u);
    batch, fids, k := DeviceLastReply(cfg, world, i, unique, u);
  }

  // ---------------------------------------------------------------- the dead-letter decision

  /** publishToDLQIfUnresolved. */
  method PublishIfUnresolved(cfg: ServiceConfig, counts: Counts) returns (published: bool)
    ensures published <==> cfg.enableDlq && counts.failure > |counts.invalid|
  {
    if !cfg.enableDlq {
      return false;
    }
    var unresolved := counts.failure - |counts.invalid|;
    if unresolved <= 0 {
      return false;
    }
    return true;
  }

  /** From resolved devices to the dead-letter queue: with the queue enabled and a message that
      fits, the event is dead-lettered exactly when some device's last recorded outcome is a
      failure that is not permanent; with one that does not fit, whenever there is a device. */
  method ProcessDispatch(cfg: ServiceConfig, dispatcher: Config, world: World, devices: seq<Device>, fits: bool)
    returns (deadLettered: bool)
    requires dispatcher.Valid() && cfg.enableDlq
    ensures var sends := Sends(cfg, devices);
      deadLettered <==>
        if fits then AnyUnresolved(dispatcher.Attempts(), world, sends, |sends|) else devices != []
  {
    var result, count, err := DispatchToDevices(cfg, dispatcher, world, devices, fits);
    deadLettered := PublishIfUnresolved(cfg, result.counts);
    if !fits { OversizedAddresses(cfg, devices); }
  }

  lemma OversizedAddresses(cfg: ServiceConfig, devices: seq<Device>)
    ensures Addressed(false, Sends(cfg, devices), |Sends(cfg, devices)|) > 0 <==> devices != []
  {
    var sends := Sends(cfg, devices);
    var ds := if cfg.enableDeduplication then Dedup(devices) else devices;
    DedupDistinct(devices);
    ChunksKeepAll(ds, cfg.maxDevicesPerBatch);
  }
}
