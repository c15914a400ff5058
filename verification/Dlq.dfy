/** The dead-letter queue as atomic operations on a table: what memory.go does under one mutex
    hold per operation. The database backends are shown to refine this (DlqBackends.dfy).

    Of the source's timestamps the model keeps CreatedAt, which purging reads, and NextRetryAt,
    which claiming reads. */
module Dlq {
  import opened Backoff

  type EventId = string
  type Time = int

  datatype Status = Pending | Retrying | Exhausted | Resolved {
    predicate Terminal() { Exhausted? || Resolved? }
  }

  datatype Attempt = Attempt(number: nat, success: bool, error: string)

  datatype Record = Record(
    payload: string, reason: string, retryCount: nat, maxRetries: nat,
    createdAt: Time, nextRetryAt: Time, status: Status, history: seq<Attempt>)

  type Table = map<EventId, Record>

  /** numbersPublishes: whether a repeated publish records the current retry count (memory.go)
      or 0 (both databases) as its attempt number. */
  datatype Config = Config(maxRetries: nat, retryDelay: Int64, maxRetryDelay: Int64, numbersPublishes: bool) {
    /** The constructors replace maxRetries <= 0 by 3; the ceiling must leave rand.Int63n a
        positive argument (Backoff.PanicsExactlyAtMaxInt64). */
    ghost predicate Valid() { 0 < maxRetries && maxRetryDelay < MAX_INT64 }

    /** The delay before the next retry of a record that has failed count times. */
    function RetryDelay(count: nat, draw: nat): (delay: int)
      requires Valid()
      ensures 0 <= delay
      ensures retryDelay > 0 && EffectiveCeiling(maxRetryDelay) <= TWO_62 ==>
        delay <= Promised(retryDelay, maxRetryDelay, count)
    {
      if retryDelay > 0 then
        PanicsExactlyAtMaxInt64(retryDelay, maxRetryDelay, count, draw);
        var delay := FullJitterBackoff(retryDelay, maxRetryDelay, count, draw).nanos;
        assert EffectiveCeiling(maxRetryDelay) <= TWO_62 ==> delay <= Promised(retryDelay, maxRetryDelay, count) by {
          if EffectiveCeiling(maxRetryDelay) <= TWO_62 { BackoffInRange(retryDelay, maxRetryDelay, count, draw); }
        }
        delay
      else 0
    }
  }

  // ---------------------------------------------------------------- operations

  function FreshRecord(cfg: Config, payload: string, reason: string, now: Time): Record {
    Record(payload, reason, 0, cfg.maxRetries, now, now + cfg.retryDelay, Pending, [Attempt(0, false, reason)])
  }

  function Republished(cfg: Config, r: Record, reason: string): Record {
    var number := if cfg.numbersPublishes then r.retryCount else 0;
    r.(reason := reason, history := r.history + [Attempt(number, false, reason)])
  }

  function Publish(cfg: Config, t: Table, id: EventId, payload: string, reason: string, now: Time): Table {
    t[id := if id in t then Republished(cfg, t[id], reason) else FreshRecord(cfg, payload, reason, now)]
  }

  predicate Due(r: Record, now: Time) { r.status.Pending? && r.nextRetryAt <= now }

  function Ids(picked: seq<EventId>): (s: set<EventId>) { set id | id in picked }

  ghost predicate Distinct(picked: seq<EventId>) {
    forall i, j | 0 <= i < j < |picked| :: picked[i] != picked[j]
  }

  ghost predicate OrderedByNextRetry(t: Table, picked: seq<EventId>)
    requires forall id | id in picked :: id in t
  {
    forall i, j | 0 <= i < j < |picked| :: t[picked[i]].nextRetryAt <= t[picked[j]].nextRetryAt
  }

  /** picked are different due records outside skip, soonest first, and none left behind is due
      sooner than one taken. Ties may be broken either way. */
  ghost predicate Soonest(t: Table, now: Time, skip: set<EventId>, picked: seq<EventId>) {
    && Distinct(picked)
    && (forall id | id in picked :: id in t && id !in skip && Due(t[id], now))
    && OrderedByNextRetry(t, picked)
    && (forall id, p | id in t && id !in skip && Due(t[id], now) && id !in picked && p in picked ::
          t[p].nextRetryAt <= t[id].nextRetryAt)
  }

  /** picked is a legal answer of a claim at time now: the soonest due records outside skip, as
      many as there are up to limit, where limit <= 0 means all. */
  ghost predicate IsClaim(t: Table, now: Time, limit: int, skip: set<EventId>, picked: seq<EventId>) {
    && Soonest(t, now, skip, picked)
    && (limit > 0 ==> |picked| <= limit)
    && (forall id | id in t && id !in skip && Due(t[id], now) && id !in picked :: limit > 0 && |picked| == limit)
  }

  function Claim(t: Table, ids: set<EventId>): Table {
    map id | id in t :: if id in ids then t[id].(status := Retrying) else t[id]
  }

  /** Claiming one more after picked have been taken extends the claim by one. */
  lemma ClaimOneMore(t: Table, now: Time, skip: set<EventId>, picked: seq<EventId>, id: EventId)
    requires Soonest(t, now, skip, picked)
    requires Soonest(Claim(t, Ids(picked)), now, skip, [id])
    ensures Soonest(t, now, skip, picked + [id])
    ensures Claim(Claim(t, Ids(picked)), {id}) == Claim(t, Ids(picked + [id]))
  {
    var taken := Claim(t, Ids(picked));
    assert id in [id];
    assert id in t && taken[id] == t[id] && id !in picked;
    forall x | x in t && x !in picked ensures taken[x] == t[x] {}
    assert Ids(picked + [id]) == Ids(picked) + {id};
  }

  /** A claim is complete when it has all it was allowed or a further one finds nothing. */
  lemma ClaimComplete(t: Table, now: Time, limit: int, skip: set<EventId>, picked: seq<EventId>)
    requires Soonest(t, now, skip, picked) && 0 < limit && |picked| <= limit
    requires |picked| == limit || IsClaim(Claim(t, Ids(picked)), now, 1, skip, [])
    ensures IsClaim(t, now, limit, skip, picked)
  {
    forall id | id in t && id !in skip && Due(t[id], now) && id !in picked ensures |picked| == limit {
      assert Claim(t, Ids(picked))[id] == t[id];
    }
  }

  datatype Answer = Marked | NotFound | NotClaimed

  function MarkAnswer(t: Table, id: EventId): Answer {
    if id !in t then NotFound else if t[id].status != Retrying then NotClaimed else Marked
  }

  function Retried(cfg: Config, r: Record, success: bool, error: string, now: Time, draw: nat): Record
    requires cfg.Valid()
  {
    var count := r.retryCount + 1;
    var history := r.history + [Attempt(count, success, error)];
    if success then r.(retryCount := count, status := Resolved, history := history)
    else if count >= r.maxRetries then r.(retryCount := count, status := Exhausted, history := history)
    else
      r.(retryCount := count, status := Pending, nextRetryAt := now + cfg.RetryDelay(count, draw), history := history)
  }

  function MarkRetried(cfg: Config, t: Table, id: EventId, success: bool, error: string, now: Time, draw: nat): Table
    requires cfg.Valid()
  {
    if MarkAnswer(t, id).Marked? then t[id := Retried(cfg, t[id], success, error, now, draw)] else t
  }

  predicate Purgeable(r: Record, cutoff: Time) { r.status.Terminal() || r.createdAt < cutoff }

  function Purge(t: Table, cutoff: Time): Table {
    map id | id in t && !Purgeable(t[id], cutoff) :: t[id]
  }

  // ---------------------------------------------------------------- runs

  datatype Action =
    | DoPublish(id: EventId, payload: string, reason: string, now: Time)
    | DoClaim(now: Time, limit: int, skip: set<EventId>, picked: seq<EventId>)
    | DoMark(id: EventId, success: bool, error: string, now: Time, draw: nat)
    | DoPurge(cutoff: Time)

  /** claims is a history variable: how often each record has been claimed since it was created. */
  datatype State = State(rows: Table, claims: map<EventId, nat>)

  predicate Taken(before: Table, after: Table, id: EventId) {
    id in before && id in after && before[id].status.Pending? && after[id].status.Retrying?
  }

  /** Counts the claims of a step by comparing the tables around it, whatever the step was. */
  function Tally(claims: map<EventId, nat>, before: Table, after: Table): map<EventId, nat> {
    map id | id in after ::
      if id in before && id in claims then claims[id] + (if Taken(before, after, id) then 1 else 0) else 0
  }

  ghost predicate Enabled(t: Table, a: Action) {
    a.DoClaim? ==> IsClaim(t, a.now, a.limit, a.skip, a.picked)
  }

  function Apply(cfg: Config, t: Table, a: Action): Table
    requires cfg.Valid()
  {
    match a
    case DoPublish(id, payload, reason, now) => Publish(cfg, t, id, payload, reason, now)
    case DoClaim(_, _, _, picked) => Claim(t, Ids(picked))
    case DoMark(id, success, error, now, draw) => MarkRetried(cfg, t, id, success, error, now, draw)
    case DoPurge(cutoff) => Purge(t, cutoff)
  }

  function Next(cfg: Config, s: State, a: Action): State
    requires cfg.Valid()
  {
    var rows := Apply(cfg, s.rows, a);
    State(rows, Tally(s.claims, s.rows, rows))
  }

  ghost predicate Follows(cfg: Config, states: seq<State>, actions: seq<Action>, i: nat)
    requires cfg.Valid() && i < |actions| && |states| == |actions| + 1
  {
    states[i + 1] == Next(cfg, states[i], actions[i])
  }

  ghost predicate StepAt(cfg: Config, states: seq<State>, actions: seq<Action>, i: nat)
    requires cfg.Valid() && i < |actions| && |states| == |actions| + 1
  {
    Enabled(states[i].rows, actions[i]) && Follows(cfg, states, actions, i)
  }

  /** The states of one run: from the empty table, one enabled operation after another. */
  ghost predicate IsRun(cfg: Config, states: seq<State>, actions: seq<Action>)
    requires cfg.Valid()
  {
    && |states| == |actions| + 1
    && states[0] == State(map[], map[])
    && forall i | 0 <= i < |actions| :: StepAt(cfg, states, actions, i)
  }

  lemma ExtendRun(cfg: Config, states: seq<State>, actions: seq<Action>, a: Action)
    requires cfg.Valid() && IsRun(cfg, states, actions) && Enabled(states[|actions|].rows, a)
    ensures IsRun(cfg, states + [Next(cfg, states[|actions|], a)], actions + [a])
  {
    var states', actions' := states + [Next(cfg, states[|actions|], a)], actions + [a];
    forall i | 0 <= i < |actions'| ensures StepAt(cfg, states', actions', i) {
      if i < |actions| { assert StepAt(cfg, states, actions, i); }
    }
  }

  // ---------------------------------------------------------------- the lifetime invariant

  function Successes(history: seq<Attempt>): nat {
    if history == [] then 0
    else Successes(history[..|history| - 1]) + (if history[|history| - 1].success then 1 else 0)
  }

  lemma SuccessesOfAppend(history: seq<Attempt>, a: Attempt)
    ensures Successes(history + [a]) == Successes(history) + (if a.success then 1 else 0)
  {
    assert (history + [a])[..|history|] == history;
  }

  /** Attempt numbers start at 0, never skip and end at the retry count. */
  ghost predicate NumbersTrackRetries(r: Record) {
    && r.history != []
    && r.history[0].number == 0
    && r.history[|r.history| - 1].number == r.retryCount
    && forall i | 0 < i < |r.history| ::
         r.history[i - 1].number <= r.history[i].number <= r.history[i - 1].number + 1
  }

  ghost predicate RecordInv(cfg: Config, r: Record, claims: nat) {
    && 0 < r.maxRetries == cfg.maxRetries
    && (r.status.Pending? || r.status.Retrying? ==> r.retryCount < r.maxRetries)
    && (r.status.Exhausted? ==> r.retryCount == r.maxRetries)
    && (r.status.Resolved? ==> 1 <= r.retryCount <= r.maxRetries)
    && claims == r.retryCount + (if r.status.Retrying? then 1 else 0)
    && Successes(r.history) == (if r.status.Resolved? then 1 else 0)
    && (cfg.numbersPublishes ==> NumbersTrackRetries(r))
  }

  ghost predicate Inv(cfg: Config, s: State) {
    && s.claims.Keys == s.rows.Keys
    && forall id | id in s.rows :: RecordInv(cfg, s.rows[id], s.claims[id])
  }

  lemma PublishKeepsRecord(cfg: Config, r: Record, claims: nat, reason: string)
    requires RecordInv(cfg, r, claims)
    ensures RecordInv(cfg, Republished(cfg, r, reason), claims)
  {
    SuccessesOfAppend(r.history, Attempt(if cfg.numbersPublishes then r.retryCount else 0, false, reason));
  }

  lemma MarkKeepsRecord(cfg: Config, r: Record, claims: nat, success: bool, error: string, now: Time, draw: nat)
    requires cfg.Valid() && RecordInv(cfg, r, claims) && r.status.Retrying?
    ensures RecordInv(cfg, Retried(cfg, r, success, error, now, draw), claims)
  {
    SuccessesOfAppend(r.history, Attempt(r.retryCount + 1, success, error));
    if cfg.numbersPublishes { NumbersAfterMark(r, Retried(cfg, r, success, error, now, draw)); }
  }

  lemma NumbersAfterMark(r: Record, r': Record)
    requires NumbersTrackRetries(r) && r'.retryCount == r.retryCount + 1
    requires |r'.history| == |r.history| + 1 && r'.history[..|r.history|] == r.history
    requires r'.history[|r.history|].number == r'.retryCount
    ensures NumbersTrackRetries(r')
  {
    forall i | 0 <= i < |r.history| ensures r'.history[i] == r.history[i] {
      assert r'.history[..|r.history|][i] == r.history[i];
    }
  }

  /** The claim count after a step, for a record that was there before. */
  lemma TallyOf(claims: map<EventId, nat>, before: Table, after: Table, id: EventId)
    requires claims.Keys == before.Keys && id in after
    ensures id in Tally(claims, before, after)
    ensures Tally(claims, before, after)[id] ==
      if id in before then claims[id] + (if Taken(before, after, id) then 1 else 0) else 0
  {
  }

  lemma RecordAfterPublish(cfg: Config, s: State, pid: EventId, payload: string, reason: string, now: Time, id: EventId)
    requires cfg.Valid() && Inv(cfg, s) && id in Publish(cfg, s.rows, pid, payload, reason, now)
    ensures var rows := Publish(cfg, s.rows, pid, payload, reason, now);
      RecordInv(cfg, rows[id], Tally(s.claims, s.rows, rows)[id])
  {
    TallyOf(s.claims, s.rows, Publish(cfg, s.rows, pid, payload, reason, now), id);
    if id in s.rows {
      PublishKeepsRecord(cfg, s.rows[id], s.claims[id], reason);
    } else {
      FreshRecordInv(cfg, payload, reason, now);
    }
  }

  lemma RecordAfterClaim(
    cfg: Config, s: State, now: Time, limit: int, skip: set<EventId>, picked: seq<EventId>, id: EventId)
    requires Inv(cfg, s) && IsClaim(s.rows, now, limit, skip, picked) && id in s.rows
    ensures var rows := Claim(s.rows, Ids(picked)); RecordInv(cfg, rows[id], Tally(s.claims, s.rows, rows)[id])
  {
    TallyOf(s.claims, s.rows, Claim(s.rows, Ids(picked)), id);
    assert RecordInv(cfg, s.rows[id], s.claims[id]);
  }

  lemma RecordAfterMark(
    cfg: Config, s: State, mid: EventId, success: bool, error: string, now: Time, draw: nat, id: EventId)
    requires cfg.Valid() && Inv(cfg, s) && id in s.rows
    ensures var rows := MarkRetried(cfg, s.rows, mid, success, error, now, draw);
      RecordInv(cfg, rows[id], Tally(s.claims, s.rows, rows)[id])
  {
    TallyOf(s.claims, s.rows, MarkRetried(cfg, s.rows, mid, success, error, now, draw), id);
    assert RecordInv(cfg, s.rows[id], s.claims[id]);
    if id == mid && s.rows[id].status.Retrying? {
      MarkKeepsRecord(cfg, s.rows[id], s.claims[id], success, error, now, draw);
    }
  }

  lemma RecordAfterStep(cfg: Config, s: State, a: Action, id: EventId)
    requires cfg.Valid() && Inv(cfg, s) && Enabled(s.rows, a)
    requires id in Next(cfg, s, a).rows
    ensures id in Next(cfg, s, a).claims && RecordInv(cfg, Next(cfg, s, a).rows[id], Next(cfg, s, a).claims[id])
  {
    match a
    case DoPublish(pid, payload, reason, now) => RecordAfterPublish(cfg, s, pid, payload, reason, now, id);
    case DoClaim(now, limit, skip, picked) => RecordAfterClaim(cfg, s, now, limit, skip, picked, id);
    case DoMark(mid, success, error, now, draw) => RecordAfterMark(cfg, s, mid, success, error, now, draw, id);
    case DoPurge(cutoff) => TallyOf(s.claims, s.rows, Purge(s.rows, cutoff), id);
  }

  lemma FreshRecordInv(cfg: Config, payload: string, reason: string, now: Time)
    requires cfg.Valid()
    ensures RecordInv(cfg, FreshRecord(cfg, payload, reason, now), 0)
  {
    SuccessesOfAppend([], Attempt(0, false, reason));
    assert [] + [Attempt(0, false, reason)] == [Attempt(0, false, reason)];
  }

  lemma StepKeepsInv(cfg: Config, s: State, a: Action)
    requires cfg.Valid() && Inv(cfg, s) && Enabled(s.rows, a)
    ensures Inv(cfg, Next(cfg, s, a))
  {
    forall id | id in Next(cfg, s, a).rows
      ensures RecordInv(cfg, Next(cfg, s, a).rows[id], Next(cfg, s, a).claims[id])
    {
      RecordAfterStep(cfg, s, a, id);
    }
  }

  /** In every state of every run: live records have retries left, exhausted ones have none,
      the number of claims is the retry count plus the claim now held, so never above MaxRetries, and
      the history carries one success exactly when the record is resolved. */
  lemma {:induction false} LifetimeInvariant(cfg: Config, states: seq<State>, actions: seq<Action>, i: nat)
    requires cfg.Valid() && IsRun(cfg, states, actions) && i < |states|
    ensures Inv(cfg, states[i])
    ensures forall id | id in states[i].rows :: states[i].claims[id] <= cfg.maxRetries
  {
    if i > 0 {
      LifetimeInvariant(cfg, states, actions, i - 1);
      assert StepAt(cfg, states, actions, i - 1);
      StepKeepsInv(cfg, states[i - 1], actions[i - 1]);
    }
  }

  /** What a finished record keeps. */
  ghost predicate StillFinished(a: State, b: State, id: EventId)
    requires id in a.rows && id in b.rows && id in a.claims && id in b.claims
  {
    var r, r' := a.rows[id], b.rows[id];
    && r.status.Terminal() && r'.status == r.status && r'.retryCount == r.retryCount && r'.nextRetryAt == r.nextRetryAt
    && |r.history| <= |r'.history| && r'.history[..|r.history|] == r.history
    && b.claims[id] == a.claims[id]
  }

  lemma FinishedStep(cfg: Config, s: State, a: Action, id: EventId)
    requires cfg.Valid() && Inv(cfg, s) && Enabled(s.rows, a)
    requires id in s.rows && s.rows[id].status.Terminal() && id in Next(cfg, s, a).rows
    ensures id in Next(cfg, s, a).claims && StillFinished(s, Next(cfg, s, a), id)
  {
    TallyOf(s.claims, s.rows, Apply(cfg, s.rows, a), id);
  }

  /** A record that has reached resolved or exhausted keeps that status, its retry count, its
      schedule, its history so far and its number of claims for as long as it is not purged. */
  lemma {:induction false} TerminalNeverReopens(
    cfg: Config, states: seq<State>, actions: seq<Action>, i: nat, j: nat, id: EventId)
    requires cfg.Valid() && IsRun(cfg, states, actions) && i <= j < |states|
    requires forall k | i <= k <= j :: id in states[k].rows
    requires states[i].rows[id].status.Terminal()
    ensures id in states[i].claims && id in states[j].claims && StillFinished(states[i], states[j], id)
  {
    LifetimeInvariant(cfg, states, actions, i);
    if i < j {
      TerminalNeverReopens(cfg, states, actions, i, j - 1, id);
      LifetimeInvariant(cfg, states, actions, j - 1);
      assert StepAt(cfg, states, actions, j - 1);
      FinishedStep(cfg, states[j - 1], actions[j - 1], id);
      StillFinishedTransitive(states[i], states[j - 1], states[j], id);
    }
  }

  lemma StillFinishedTransitive(a: State, b: State, c: State, id: EventId)
    requires id in a.rows && id in b.rows && id in c.rows && id in a.claims && id in b.claims && id in c.claims
    requires StillFinished(a, b, id) && StillFinished(b, c, id)
    ensures StillFinished(a, c, id)
  {
    var n := |a.rows[id].history|;
    assert c.rows[id].history[..n] == c.rows[id].history[..|b.rows[id].history|][..n];
  }

  /** A record sent back to pending is scheduled within the backoff's promised range. */
  lemma RescheduledWithinBackoff(cfg: Config, r: Record, error: string, now: Time, draw: nat)
    requires cfg.Valid() && EffectiveCeiling(cfg.maxRetryDelay) <= TWO_62
    ensures var r' := Retried(cfg, r, false, error, now, draw);
      r'.status.Pending? ==>
        now <= r'.nextRetryAt
          <= now + (if cfg.retryDelay > 0 then Promised(cfg.retryDelay, cfg.maxRetryDelay, r'.retryCount) else 0)
  {
  }

  /** Every delay of that range is some draw's, so the range doubles with each failure: the record
      that fails its retry with retries left is due after any such delay. */
  lemma ReschedulesAnywhereInRange(cfg: Config, r: Record, error: string, now: Time, nanos: nat)
    requires cfg.Valid() && cfg.retryDelay > 0 && EffectiveCeiling(cfg.maxRetryDelay) <= TWO_62
    requires var count := r.retryCount + 1;
      && count < r.maxRetries && cfg.retryDelay * Pow2(count) < TWO_63
      && nanos <= Promised(cfg.retryDelay, cfg.maxRetryDelay, count)
    ensures cfg.RetryDelay(r.retryCount + 1, nanos) == nanos
    ensures Retried(cfg, r, false, error, now, nanos)
      == r.(retryCount := r.retryCount + 1, status := Pending, nextRetryAt := now + nanos,
            history := r.history + [Attempt(r.retryCount + 1, false, error)])
  {
    BackoffReachesEveryDelay(cfg.retryDelay, cfg.maxRetryDelay, r.retryCount + 1, nanos);
  }

  /** Without a base delay it is due at once. */
  lemma ReschedulesAtOnceWithoutDelay(cfg: Config, r: Record, error: string, now: Time, draw: nat)
    requires cfg.Valid() && cfg.retryDelay <= 0 && r.retryCount + 1 < r.maxRetries
    ensures var r' := Retried(cfg, r, false, error, now, draw); r'.status.Pending? && r'.nextRetryAt == now
  {
  }

  // ---------------------------------------------------------------- what claims and purges take

  /** The pending records whose time has come. */
  function DueIds(t: Table, now: Time, skip: set<EventId>): set<EventId> {
    set id | id in t && id !in skip && t[id].status == Pending && t[id].nextRetryAt <= now
  }

  lemma {:induction false} DistinctSize(picked: seq<EventId>)
    requires Distinct(picked)
    ensures |Ids(picked)| == |picked|
  {
    if picked != [] {
      var n := |picked| - 1;
      DistinctSize(picked[..n]);
      assert Ids(picked) == Ids(picked[..n]) + {picked[n]};
    }
  }

  /** A claim moves due records only, the soonest first, as many as there are up to the limit, all of
      them without one, and changes nothing else. */
  lemma ClaimMovesDueUpToLimit(t: Table, now: Time, limit: int, skip: set<EventId>, picked: seq<EventId>)
    requires IsClaim(t, now, limit, skip, picked)
    ensures var due, after := DueIds(t, now, skip), Claim(t, Ids(picked));
      && Ids(picked) <= due
      && (forall p, q | p in Ids(picked) && q in due - Ids(picked) :: t[p].nextRetryAt <= t[q].nextRetryAt)
      && (forall i, j | 0 <= i < j < |picked| :: t[picked[i]].nextRetryAt <= t[picked[j]].nextRetryAt)
      && |picked| == (if 0 < limit < |due| then limit else |due|)
      && after.Keys == t.Keys
      && forall id | id in t ::
           after[id].(status := t[id].status) == t[id]
           && after[id].status == if id in Ids(picked) then Retrying else t[id].status
  {
    var due := DueIds(t, now, skip);
    DistinctSize(picked);
    SubsetSize(Ids(picked), due);
    if Ids(picked) != due {
      var id :| id in due && id !in Ids(picked);
      assert Due(t[id], now) && id !in picked;
    }
  }

  lemma SubsetSize(a: set<EventId>, b: set<EventId>)
    requires a <= b
    ensures |a| <= |b| && (a != b ==> |a| < |b|)
  {
    assert b == a + (b - a);
    if a != b { assert b - a != {}; }
  }

  /** A purge deletes the finished and the old, and nothing else; what it keeps it does not touch. */
  lemma PurgeKeepsExactlyYoungLive(t: Table, cutoff: Time, id: EventId)
    ensures id in Purge(t, cutoff) <==>
      id in t && (t[id].status == Pending || t[id].status == Retrying) && t[id].createdAt >= cutoff
    ensures id in Purge(t, cutoff) ==> Purge(t, cutoff)[id] == t[id]
  {
  }

  // ---------------------------------------------------------------- numbering of publishes

  /** Equal but for the attempt numbers in their histories. */
  ghost predicate SameButNumbers(a: Record, b: Record) {
    && a.(history := []) == b.(history := [])
    && |a.history| == |b.history|
    && forall i | 0 <= i < |a.history| :: a.history[i].(number := 0) == b.history[i].(number := 0)
  }

  ghost predicate TablesAgree(a: Table, b: Table) {
    a.Keys == b.Keys && forall id | id in a :: SameButNumbers(a[id], b[id])
  }

  function Renumbered(cfg: Config): Config { cfg.(numbersPublishes := !cfg.numbersPublishes) }

  lemma NumberingStep(cfg: Config, a: Table, b: Table, act: Action)
    requires cfg.Valid() && TablesAgree(a, b)
    ensures Enabled(a, act) == Enabled(b, act)
    ensures TablesAgree(Apply(cfg, a, act), Apply(Renumbered(cfg), b, act))
    ensures act.DoMark? ==> MarkAnswer(a, act.id) == MarkAnswer(b, act.id)
  {
    match act
    case DoPublish(id, payload, reason, now) => PublishesAgree(cfg, a, b, id, payload, reason, now);
    case DoClaim(now, limit, skip, picked) =>
      ClaimsAgree(a, b, now, limit, skip, picked);
      ClaimsAgree(b, a, now, limit, skip, picked);
    case DoMark(id, success, error, now, draw) => MarksAgree(cfg, a, b, id, success, error, now, draw);
    case DoPurge(_) =>
  }

  lemma PublishesAgree(cfg: Config, a: Table, b: Table, id: EventId, payload: string, reason: string, now: Time)
    requires TablesAgree(a, b)
    ensures TablesAgree(Publish(cfg, a, id, payload, reason, now),
                        Publish(Renumbered(cfg), b, id, payload, reason, now))
  {
    if id in a {
      assert SameButNumbers(a[id], b[id]);
      assert SameButNumbers(Republished(cfg, a[id], reason), Republished(Renumbered(cfg), b[id], reason));
    }
  }

  lemma MarksAgree(cfg: Config, a: Table, b: Table, id: EventId, success: bool, error: string, now: Time, draw: nat)
    requires cfg.Valid() && TablesAgree(a, b)
    ensures TablesAgree(MarkRetried(cfg, a, id, success, error, now, draw),
                        MarkRetried(Renumbered(cfg), b, id, success, error, now, draw))
  {
    if id in a {
      assert SameButNumbers(a[id], b[id]);
      assert SameButNumbers(Retried(cfg, a[id], success, error, now, draw),
                            Retried(Renumbered(cfg), b[id], success, error, now, draw));
    }
  }

  lemma ClaimsAgree(a: Table, b: Table, now: Time, limit: int, skip: set<EventId>, picked: seq<EventId>)
    requires TablesAgree(a, b)
    ensures IsClaim(a, now, limit, skip, picked) ==> IsClaim(b, now, limit, skip, picked)
  {
  }

  /** Recording 0 instead of the retry count on a repeated publish is invisible in whole runs:
      under the same actions the two queues give the same answers and hold the same records,
      attempt numbers apart, in every state. */
  lemma {:induction false} NumberingIsInvisible(
    cfg: Config, numbered: seq<State>, zeroed: seq<State>, actions: seq<Action>, i: nat)
    requires cfg.Valid() && IsRun(cfg, numbered, actions) && i < |numbered|
    requires |zeroed| == |numbered| && zeroed[0] == numbered[0]
    requires forall k | 0 <= k < |actions| :: Follows(Renumbered(cfg), zeroed, actions, k)
    ensures TablesAgree(numbered[i].rows, zeroed[i].rows)
    ensures i < |actions| ==> Enabled(zeroed[i].rows, actions[i])
    ensures i < |actions| && actions[i].DoMark? ==>
      MarkAnswer(numbered[i].rows, actions[i].id) == MarkAnswer(zeroed[i].rows, actions[i].id)
  {
    if i > 0 {
      NumberingIsInvisible(cfg, numbered, zeroed, actions, i - 1);
      assert StepAt(cfg, numbered, actions, i - 1) && Follows(Renumbered(cfg), zeroed, actions, i - 1);
      NumberingStep(cfg, numbered[i - 1].rows, zeroed[i - 1].rows, actions[i - 1]);
    }
    if i < |actions| {
      assert StepAt(cfg, numbered, actions, i);
      NumberingStep(cfg, numbered[i].rows, zeroed[i].rows, actions[i]);
    }
  }
}
