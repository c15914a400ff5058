/** The PostgreSQL and MongoDB dead-letter queues as a step system: each statement is one atomic
    step on the shared table, each worker a program counter between statements. Every interleaving
    of any number of workers refines the atomic queue of Dlq.dfy. */
module DlqBackends {
  import opened Dlq

  // ---------------------------------------------------------------- statements

  function UpsertDLQEvent(t: Table, id: EventId, payload: string, reason: string, maxRetries: nat,
                          firstFailureAt: Time, nextRetryAt: Time, status: Status, attempts: seq<Attempt>): Table {
    if id in t then t[id := t[id].(reason := reason, history := t[id].history + attempts)]
    else t[id := Record(payload, reason, 0, maxRetries, firstFailureAt, nextRetryAt, status, attempts)]
  }

  /** UPDATE ... WHERE event_id = id AND status = 'retrying'. */
  function IncrementRetryCount(t: Table, id: EventId): Table {
    if id in t && t[id].status.Retrying? then t[id := t[id].(retryCount := t[id].retryCount + 1)] else t
  }

  /** UPDATE ... WHERE event_id = id: the status is not checked again. */
  function FinalizeRetryTerminal(t: Table, id: EventId, status: Status, attempt: Attempt): Table {
    if id in t then t[id := t[id].(status := status, history := t[id].history + [attempt])] else t
  }

  function FinalizeRetryPending(t: Table, id: EventId, nextRetryAt: Time, attempt: Attempt): Table {
    if id in t then
      t[id := t[id].(status := Pending, nextRetryAt := nextRetryAt, history := t[id].history + [attempt])]
    else t
  }

  // ---------------------------------------------------------------- workers

  type WorkerId = nat

  /** Where a worker is between two statements, with the local variables it carries over.
      Claiming: inside MongoDB's claim loop. Finalizing: between the two halves of MarkRetried,
      with the counters the increment returned. LookingUp: the increment matched no row and
      GetEventByID is next. */
  datatype Pc =
    | Idle
    | Claiming(now: Time, limit: nat)
    | Finalizing(id: EventId, success: bool, error: string, now: Time, draw: nat, count: nat, max: nat)
    | LookingUp(sought: EventId)

  /** claimed is what the latest claim call has gathered for its caller. held is not a program
      variable: the records the worker's statements took from pending to retrying, read off the
      table, and that it has not finalized since. */
  datatype Worker = Worker(pc: Pc, claimed: seq<EventId>, held: set<EventId>)

  datatype Db = Db(rows: Table, workers: map<WorkerId, Worker>, claims: map<EventId, nat>)

  function Moved(before: Table, after: Table): set<EventId> {
    set id | id in before && Taken(before, after, id)
  }

  datatype Step =
    | PublishStep(id: EventId, payload: string, reason: string, now: Time)
    | PostgresClaim(w: WorkerId, now: Time, limit: nat, locked: set<EventId>, picked: seq<EventId>)
    | MongoStart(w: WorkerId, now: Time, limit: nat)
    | MongoTake(w: WorkerId, id: EventId)
    | MongoReturn(w: WorkerId, failed: bool)
    | Increment(w: WorkerId, id: EventId, success: bool, error: string, now: Time, draw: nat)
    | Finalize(w: WorkerId)
    | Lookup(w: WorkerId)
    | PurgeStep(cutoff: Time)

  ghost predicate AnyDue(t: Table, now: Time) { exists id :: id in t && Due(t[id], now) }

  /** What the programs allow. */
  ghost predicate Guard(db: Db, s: Step) {
    match s
    case PublishStep(_, _, _, _) => true
    case PostgresClaim(w, now, limit, locked, picked) =>
      w in db.workers && db.workers[w].pc.Idle? && limit > 0 && IsClaim(db.rows, now, limit, locked, picked)
    case MongoStart(w, now, limit) => w in db.workers && db.workers[w].pc.Idle? && limit > 0
    case MongoTake(w, id) =>
      && w in db.workers && db.workers[w].pc.Claiming?
      && |db.workers[w].claimed| < db.workers[w].pc.limit
      && IsClaim(db.rows, db.workers[w].pc.now, 1, {}, [id])
    case MongoReturn(w, failed) =>
      && w in db.workers && db.workers[w].pc.Claiming?
      && (failed || |db.workers[w].claimed| == db.workers[w].pc.limit || !AnyDue(db.rows, db.workers[w].pc.now))
    case Increment(w, _, _, _, _, _) => w in db.workers && db.workers[w].pc.Idle?
    case Finalize(w) => w in db.workers && db.workers[w].pc.Finalizing?
    case Lookup(w) => w in db.workers && db.workers[w].pc.LookingUp?
    case PurgeStep(_) => true
  }

  /** Rows whose mark has been counted but not finalized. */
  ghost function Counted(db: Db): set<EventId> {
    set w | w in db.workers && db.workers[w].pc.Finalizing? :: db.workers[w].pc.id
  }

  /** The two assumptions: between the two statements of a mark nobody else starts to mark the row
      and no purge deletes it. */
  ghost predicate Undisturbed(db: Db, s: Step) {
    && (s.Increment? && s.id in db.rows && db.rows[s.id].status.Retrying? ==> s.id !in Counted(db))
    && (s.PurgeStep? ==> forall id | id in Counted(db) && id in db.rows :: !(db.rows[id].createdAt < s.cutoff))
  }

  ghost predicate CanStep(db: Db, s: Step) { Guard(db, s) && Undisturbed(db, s) }

  function FinalizeStatement(cfg: Config, t: Table, pc: Pc): Table
    requires cfg.Valid() && pc.Finalizing?
  {
    var attempt := Attempt(pc.count, pc.success, pc.error);
    if pc.success then FinalizeRetryTerminal(t, pc.id, Resolved, attempt)
    else if pc.count >= pc.max then FinalizeRetryTerminal(t, pc.id, Exhausted, attempt)
    else FinalizeRetryPending(t, pc.id, pc.now + cfg.RetryDelay(pc.count, pc.draw), attempt)
  }

  /** The statement a step runs, as its effect on the table. */
  function Statement(cfg: Config, db: Db, s: Step): Table
    requires cfg.Valid()
  {
    match s
    case PublishStep(id, payload, reason, now) =>
      UpsertDLQEvent(db.rows, id, payload, reason, cfg.maxRetries, now, now + cfg.retryDelay, Pending,
                     [Attempt(0, false, reason)])
    case PostgresClaim(_, _, _, _, picked) => Claim(db.rows, Ids(picked))
    case MongoTake(_, id) => Claim(db.rows, {id})
    case Increment(_, id, _, _, _, _) => IncrementRetryCount(db.rows, id)
    case Finalize(w) =>
      if w in db.workers && db.workers[w].pc.Finalizing? then FinalizeStatement(cfg, db.rows, db.workers[w].pc)
      else db.rows
    case PurgeStep(cutoff) => Purge(db.rows, cutoff)
    case MongoStart(_, _, _) => db.rows
    case MongoReturn(_, _) => db.rows
    case Lookup(_) => db.rows
  }

  /** The stepping worker's own variables after the statement turned db.rows into after. */
  function WorkerAfter(db: Db, s: Step, after: Table): map<WorkerId, Worker> {
    if s.PublishStep? || s.PurgeStep? || s.w !in db.workers then db.workers else
      var me := db.workers[s.w];
      var took := Moved(db.rows, after);
      db.workers[s.w := match s
        case PostgresClaim(_, _, _, _, picked) => Worker(Idle, picked, me.held + took)
        case MongoStart(_, now, limit) => Worker(Claiming(now, limit), [], me.held)
        case MongoTake(_, id) => Worker(me.pc, me.claimed + [id], me.held + took)
        case MongoReturn(_, _) => me.(pc := Idle)
        case Increment(_, id, success, error, now, draw) =>
          if id in db.rows && db.rows[id].status.Retrying? && id in after then
            me.(pc := Finalizing(id, success, error, now, draw, after[id].retryCount, after[id].maxRetries))
          else me.(pc := LookingUp(id))
        case Finalize(_) => if me.pc.Finalizing? then me.(pc := Idle, held := me.held - {me.pc.id}) else me
        case Lookup(_) => me.(pc := Idle)]
  }

  function Next(cfg: Config, db: Db, s: Step): Db
    requires cfg.Valid()
  {
    var after := Statement(cfg, db, s);
    Db(after, WorkerAfter(db, s, after), Tally(db.claims, db.rows, after))
  }

  ghost predicate Fresh(db: Db) {
    db.rows == map[] && db.claims == map[] && forall w | w in db.workers :: db.workers[w] == Worker(Idle, [], {})
  }

  ghost predicate StepAt(cfg: Config, dbs: seq<Db>, steps: seq<Step>, i: nat)
    requires cfg.Valid() && i < |steps| && |dbs| == |steps| + 1
  {
    CanStep(dbs[i], steps[i]) && dbs[i + 1] == Next(cfg, dbs[i], steps[i])
  }

  ghost predicate IsRun(cfg: Config, dbs: seq<Db>, steps: seq<Step>)
    requires cfg.Valid()
  {
    && |dbs| == |steps| + 1
    && Fresh(dbs[0])
    && forall i | 0 <= i < |steps| :: StepAt(cfg, dbs, steps, i)
  }

  // ---------------------------------------------------------------- abstraction

  function Uncounted(r: Record): Record {
    r.(retryCount := if r.retryCount > 0 then r.retryCount - 1 else 0)
  }

  /** The atomic queue the database stands for: between the two statements of a mark the increment
      has not happened yet. */
  ghost function Abs(db: Db): Table {
    map id | id in db.rows :: if id in Counted(db) then Uncounted(db.rows[id]) else db.rows[id]
  }

  ghost function AbsState(db: Db): State { State(Abs(db), db.claims) }

  /** The atomic operation a step performs, if any: a mark takes effect when it is finalized. */
  function Linearized(db: Db, s: Step): seq<Action> {
    match s
    case PublishStep(id, payload, reason, now) => [DoPublish(id, payload, reason, now)]
    case PostgresClaim(_, now, limit, locked, picked) => [DoClaim(now, limit, locked, picked)]
    case MongoTake(w, id) =>
      if w in db.workers && db.workers[w].pc.Claiming? then [DoClaim(db.workers[w].pc.now, 1, {}, [id])] else []
    case Finalize(w) =>
      if w in db.workers && db.workers[w].pc.Finalizing? then
        var pc := db.workers[w].pc;
        [DoMark(pc.id, pc.success, pc.error, pc.now, pc.draw)]
      else []
    case PurgeStep(cutoff) => [DoPurge(cutoff)]
    case _ => []
  }

  /** What one step owes the atomic queue: its linearized operation is legal there and explains
      the change of the abstract table, or nothing changes. */
  ghost predicate Explained(cfg: Config, db: Db, s: Step)
    requires cfg.Valid()
  {
    var acts := Linearized(db, s);
    var after := Abs(Next(cfg, db, s));
    if acts == [] then after == Abs(db)
    else Enabled(Abs(db), acts[0]) && after == Apply(cfg, Abs(db), acts[0])
  }

  // ---------------------------------------------------------------- one step

  /** The row a worker is about to finalize is still as it counted it. */
  predicate AsCounted(t: Table, pc: Pc)
    requires pc.Finalizing?
  {
    pc.id in t && t[pc.id].status.Retrying? && 0 < pc.count == t[pc.id].retryCount && pc.max == t[pc.id].maxRetries
  }

  /** So is every worker's, and no two are about to finalize the same one. */
  ghost predicate MarkInv(db: Db) {
    && (forall w | w in db.workers && db.workers[w].pc.Finalizing? :: AsCounted(db.rows, db.workers[w].pc))
    && (forall v, w | v in db.workers && w in db.workers && db.workers[v].pc.Finalizing? && db.workers[w].pc.Finalizing?
          && db.workers[v].pc.id == db.workers[w].pc.id :: v == w)
  }

  lemma CountedBy(db: Db, id: EventId) returns (w: WorkerId)
    requires MarkInv(db) && id in Counted(db)
    ensures w in db.workers && db.workers[w].pc.Finalizing? && db.workers[w].pc.id == id
    ensures id in db.rows && db.rows[id].status.Retrying? && db.rows[id].retryCount > 0
  {
    w :| w in db.workers && db.workers[w].pc.Finalizing? && db.workers[w].pc.id == id;
  }

  /** What a worker is about to finalize: nothing, or a row. */
  function Marking(pc: Pc): set<EventId> { if pc.Finalizing? then {pc.id} else {} }

  /** Only worker w has moved. */
  ghost predicate OnlyMoves(db: Db, db': Db, w: WorkerId) {
    && w in db.workers && db'.workers.Keys == db.workers.Keys
    && forall v | v in db.workers && v != w :: db'.workers[v] == db.workers[v]
  }

  lemma CountedAfter(db: Db, db': Db, w: WorkerId)
    requires MarkInv(db) && OnlyMoves(db, db', w)
    ensures Counted(db') == Counted(db) - Marking(db.workers[w].pc) + Marking(db'.workers[w].pc)
  {
    forall id
      ensures id in Counted(db') <==> id in Counted(db) - Marking(db.workers[w].pc) + Marking(db'.workers[w].pc)
    {
      CountedElsewhere(db, db', w, id);
    }
  }

  lemma CountedElsewhere(db: Db, db': Db, w: WorkerId, id: EventId)
    requires MarkInv(db) && OnlyMoves(db, db', w)
    ensures id in Counted(db') <==>
      id in Marking(db'.workers[w].pc) || (id in Counted(db) && id !in Marking(db.workers[w].pc))
  {
    if id in Counted(db) && id !in Marking(db.workers[w].pc) {
      var v := CountedBy(db, id);
      assert db'.workers[v].pc.Finalizing? && db'.workers[v].pc.id == id;
    }
    if id in Counted(db') && id !in Marking(db'.workers[w].pc) {
      var v :| v in db'.workers && db'.workers[v].pc.Finalizing? && db'.workers[v].pc.id == id;
      assert db.workers[v] == db'.workers[v];
    }
    if id in Marking(db'.workers[w].pc) { assert db'.workers[w].pc.Finalizing? && db'.workers[w].pc.id == id; }
  }

  /** The rows counted marks wait for stay as they were counted. */
  ghost predicate LeavesCounted(t: Table, t': Table, ids: set<EventId>) {
    forall id | id in ids && id in t && t[id].status.Retrying? ::
      && id in t' && t'[id].status.Retrying?
      && t'[id].retryCount == t[id].retryCount && t'[id].maxRetries == t[id].maxRetries
  }

  lemma MoveKeepsMarkInv(db: Db, db': Db, w: WorkerId)
    requires MarkInv(db) && OnlyMoves(db, db', w)
    requires LeavesCounted(db.rows, db'.rows, Counted(db) - Marking(db.workers[w].pc))
    requires var pc := db'.workers[w].pc; pc.Finalizing? ==>
      AsCounted(db'.rows, pc) && pc.id !in Counted(db) - Marking(db.workers[w].pc)
    ensures MarkInv(db')
  {
    forall v | v in db'.workers && v != w && db'.workers[v].pc.Finalizing?
      ensures AsCounted(db'.rows, db'.workers[v].pc) && db'.workers[v].pc.id in Counted(db) - Marking(db.workers[w].pc)
    {
      assert AsCounted(db.rows, db.workers[v].pc);
      assert db.workers[v].pc.id in Counted(db);
    }
  }

  lemma TableKeepsMarkInv(db: Db, db': Db)
    requires MarkInv(db) && db'.workers == db.workers && LeavesCounted(db.rows, db'.rows, Counted(db))
    ensures MarkInv(db') && Counted(db') == Counted(db)
  {
    forall w | w in db'.workers && db'.workers[w].pc.Finalizing? ensures AsCounted(db'.rows, db'.workers[w].pc) {
      assert AsCounted(db.rows, db.workers[w].pc);
      assert db.workers[w].pc.id in Counted(db);
    }
  }

  lemma PublishStepRefines(cfg: Config, db: Db, s: Step)
    requires cfg.Valid() && !cfg.numbersPublishes && MarkInv(db) && s.PublishStep?
    ensures MarkInv(Next(cfg, db, s)) && Explained(cfg, db, s)
  {
    var db' := Next(cfg, db, s);
    UpsertIsPublish(cfg, db.rows, s.id, s.payload, s.reason, s.now);
    assert db'.rows == Publish(cfg, db.rows, s.id, s.payload, s.reason, s.now);
    TableKeepsMarkInv(db, db');
    if s.id in Counted(db) { var w := CountedBy(db, s.id); }
    PublishThroughAbs(cfg, db, db', s.id, s.payload, s.reason, s.now);
  }

  lemma UpsertIsPublish(cfg: Config, t: Table, id: EventId, payload: string, reason: string, now: Time)
    requires !cfg.numbersPublishes
    ensures UpsertDLQEvent(t, id, payload, reason, cfg.maxRetries, now, now + cfg.retryDelay, Pending,
                           [Attempt(0, false, reason)])
      == Publish(cfg, t, id, payload, reason, now)
  {
  }

  lemma PublishThroughAbs(cfg: Config, db: Db, db': Db, id: EventId, payload: string, reason: string, now: Time)
    requires !cfg.numbersPublishes && Counted(db') == Counted(db) && (id in Counted(db) ==> id in db.rows)
    requires db'.rows == Publish(cfg, db.rows, id, payload, reason, now)
    ensures Abs(db') == Publish(cfg, Abs(db), id, payload, reason, now)
  {
  }

  lemma PurgeStepRefines(cfg: Config, db: Db, s: Step)
    requires cfg.Valid() && MarkInv(db) && CanStep(db, s) && s.PurgeStep?
    ensures MarkInv(Next(cfg, db, s)) && Explained(cfg, db, s)
  {
    var db' := Next(cfg, db, s);
    TableKeepsMarkInv(db, db');
    PurgeThroughAbs(db, db', s.cutoff);
  }

  lemma PurgeThroughAbs(db: Db, db': Db, cutoff: Time)
    requires Counted(db') == Counted(db) && db'.rows == Purge(db.rows, cutoff)
    ensures Abs(db') == Purge(Abs(db), cutoff)
  {
  }

  /** Claims see the same table through the abstraction. */
  lemma ClaimThroughAbs(db: Db, now: Time, limit: int, skip: set<EventId>, picked: seq<EventId>)
    requires IsClaim(db.rows, now, limit, skip, picked)
    ensures IsClaim(Abs(db), now, limit, skip, picked)
  {
    forall id | id in db.rows
      ensures Abs(db)[id].status == db.rows[id].status && Abs(db)[id].nextRetryAt == db.rows[id].nextRetryAt
    {}
  }

  /** A claim takes exactly the records it picked, none of which is being marked. */
  lemma ClaimTakesPicked(db: Db, now: Time, limit: int, skip: set<EventId>, picked: seq<EventId>)
    requires MarkInv(db) && IsClaim(db.rows, now, limit, skip, picked)
    ensures Moved(db.rows, Claim(db.rows, Ids(picked))) == Ids(picked)
    ensures Ids(picked) !! Counted(db)
  {
    forall id | id in Counted(db) ensures id !in picked { var w := CountedBy(db, id); }
  }

  /** What claiming picked does, whichever backend runs it. */
  lemma ClaimRefines(db: Db, db': Db, w: WorkerId, now: Time, limit: int, skip: set<EventId>, picked: seq<EventId>)
    requires MarkInv(db) && OnlyMoves(db, db', w) && IsClaim(db.rows, now, limit, skip, picked)
    requires db'.rows == Claim(db.rows, Ids(picked))
    requires !db.workers[w].pc.Finalizing? && !db'.workers[w].pc.Finalizing?
    ensures MarkInv(db') && IsClaim(Abs(db), now, limit, skip, picked) && Abs(db') == Claim(Abs(db), Ids(picked))
  {
    ClaimTakesPicked(db, now, limit, skip, picked);
    ClaimThroughAbs(db, now, limit, skip, picked);
    MoveKeepsMarkInv(db, db', w);
    CountedAfter(db, db', w);
    ClaimOfAbs(db, db', Ids(picked));
  }

  lemma ClaimOfAbs(db: Db, db': Db, ids: set<EventId>)
    requires Counted(db') == Counted(db) && ids !! Counted(db) && db'.rows == Claim(db.rows, ids)
    ensures Abs(db') == Claim(Abs(db), ids)
  {
  }

  lemma PostgresClaimRefines(cfg: Config, db: Db, s: Step)
    requires cfg.Valid() && MarkInv(db) && CanStep(db, s) && s.PostgresClaim?
    ensures MarkInv(Next(cfg, db, s)) && Explained(cfg, db, s)
  {
    ClaimRefines(db, Next(cfg, db, s), s.w, s.now, s.limit, s.locked, s.picked);
  }

  lemma MongoTakeRefines(cfg: Config, db: Db, s: Step)
    requires cfg.Valid() && MarkInv(db) && CanStep(db, s) && s.MongoTake?
    ensures MarkInv(Next(cfg, db, s)) && Explained(cfg, db, s)
  {
    assert Ids([s.id]) == {s.id};
    ClaimRefines(db, Next(cfg, db, s), s.w, db.workers[s.w].pc.now, 1, {}, [s.id]);
  }

  /** A worker moving a program counter that is not finalizing, and nothing else. */
  lemma QuietChange(db: Db, db': Db, w: WorkerId)
    requires MarkInv(db) && OnlyMoves(db, db', w) && db'.rows == db.rows
    requires !db.workers[w].pc.Finalizing? && !db'.workers[w].pc.Finalizing?
    ensures MarkInv(db') && Abs(db') == Abs(db)
  {
    MoveKeepsMarkInv(db, db', w);
    CountedAfter(db, db', w);
  }

  lemma QuietStepRefines(cfg: Config, db: Db, s: Step)
    requires cfg.Valid() && MarkInv(db) && CanStep(db, s) && (s.MongoStart? || s.MongoReturn? || s.Lookup?)
    ensures MarkInv(Next(cfg, db, s)) && Explained(cfg, db, s)
  {
    QuietChange(db, Next(cfg, db, s), s.w);
  }

  /** Step one of a mark: the count goes up in the database and stays where it was in the atomic
      queue, because the row joins the counted ones. */
  lemma CountingChange(db: Db, db': Db, w: WorkerId)
    requires MarkInv(db) && OnlyMoves(db, db', w) && db.workers[w].pc.Idle? && db'.workers[w].pc.Finalizing?
    requires var pc := db'.workers[w].pc;
      && pc.id in db.rows && db.rows[pc.id].status.Retrying? && pc.id !in Counted(db)
      && db'.rows == IncrementRetryCount(db.rows, pc.id) && AsCounted(db'.rows, pc)
    ensures MarkInv(db') && Abs(db') == Abs(db)
  {
    MoveKeepsMarkInv(db, db', w);
    CountedAfter(db, db', w);
    IncrementIsInvisible(db, db', db'.workers[w].pc.id);
  }

  lemma IncrementIsInvisible(db: Db, db': Db, id: EventId)
    requires id !in Counted(db) && Counted(db') == Counted(db) + {id}
    requires id in db.rows && db.rows[id].status.Retrying? && db'.rows == IncrementRetryCount(db.rows, id)
    ensures Abs(db') == Abs(db)
  {
  }

  /** An increment that matches no row changes nothing but the program counter. */
  lemma IncrementRefines(cfg: Config, db: Db, s: Step)
    requires cfg.Valid() && MarkInv(db) && CanStep(db, s) && s.Increment?
    ensures MarkInv(Next(cfg, db, s)) && Explained(cfg, db, s)
  {
    if s.id in db.rows && db.rows[s.id].status.Retrying? {
      CountingChange(db, Next(cfg, db, s), s.w);
    } else {
      QuietChange(db, Next(cfg, db, s), s.w);
    }
  }

  lemma FinalizeTouchesOwnRow(cfg: Config, t: Table, pc: Pc)
    requires cfg.Valid() && pc.Finalizing? && pc.id in t
    ensures var t' := FinalizeStatement(cfg, t, pc);
      t'.Keys == t.Keys && !t'[pc.id].status.Retrying? && forall id | id in t && id != pc.id :: t'[id] == t[id]
  {
  }

  lemma FinalizeIsMark(cfg: Config, db: Db, db': Db, pc: Pc)
    requires cfg.Valid() && pc.Finalizing? && pc.id in Counted(db) && AsCounted(db.rows, pc)
    requires db'.rows == FinalizeStatement(cfg, db.rows, pc) && Counted(db') == Counted(db) - {pc.id}
    ensures Abs(db') == MarkRetried(cfg, Abs(db), pc.id, pc.success, pc.error, pc.now, pc.draw)
  {
    FinalizeTouchesOwnRow(cfg, db.rows, pc);
    assert Abs(db)[pc.id] == Uncounted(db.rows[pc.id]);
    assert db'.rows[pc.id] == Retried(cfg, Abs(db)[pc.id], pc.success, pc.error, pc.now, pc.draw);
  }

  /** Step two: the unguarded update is the atomic mark, because the row is still as it was
      counted. */
  lemma FinalizingChange(cfg: Config, db: Db, db': Db, w: WorkerId)
    requires cfg.Valid() && MarkInv(db) && OnlyMoves(db, db', w)
    requires db.workers[w].pc.Finalizing? && db'.workers[w].pc.Idle?
    requires db'.rows == FinalizeStatement(cfg, db.rows, db.workers[w].pc)
    ensures MarkInv(db')
    ensures var pc := db.workers[w].pc;
      Abs(db') == MarkRetried(cfg, Abs(db), pc.id, pc.success, pc.error, pc.now, pc.draw)
  {
    var pc := db.workers[w].pc;
    assert AsCounted(db.rows, pc) && pc.id in Counted(db);
    FinalizeTouchesOwnRow(cfg, db.rows, pc);
    MoveKeepsMarkInv(db, db', w);
    CountedAfter(db, db', w);
    FinalizeIsMark(cfg, db, db', pc);
  }

  lemma FinalizeRefines(cfg: Config, db: Db, s: Step)
    requires cfg.Valid() && MarkInv(db) && CanStep(db, s) && s.Finalize?
    ensures MarkInv(Next(cfg, db, s)) && Explained(cfg, db, s)
  {
    FinalizingChange(cfg, db, Next(cfg, db, s), s.w);
  }

  // ---------------------------------------------------------------- whole runs

  /** Every step of every worker keeps the invariant and is one atomic operation or none. */
  lemma StepRefines(cfg: Config, db: Db, s: Step)
    requires cfg.Valid() && !cfg.numbersPublishes && MarkInv(db) && CanStep(db, s)
    ensures MarkInv(Next(cfg, db, s)) && Explained(cfg, db, s)
  {
    match s
    case PublishStep(_, _, _, _) => PublishStepRefines(cfg, db, s);
    case PostgresClaim(_, _, _, _, _) => PostgresClaimRefines(cfg, db, s);
    case MongoStart(_, _, _) => QuietStepRefines(cfg, db, s);
    case MongoTake(_, _) => MongoTakeRefines(cfg, db, s);
    case MongoReturn(_, _) => QuietStepRefines(cfg, db, s);
    case Increment(_, _, _, _, _, _) => IncrementRefines(cfg, db, s);
    case Finalize(_) => FinalizeRefines(cfg, db, s);
    case Lookup(_) => QuietStepRefines(cfg, db, s);
    case PurgeStep(_) => PurgeStepRefines(cfg, db, s);
  }

  /** The claim counts agree whether read off the database or off the atomic queue. */
  lemma TallyThroughAbs(claims: map<EventId, nat>, db: Db, db': Db)
    ensures Tally(claims, db.rows, db'.rows) == Tally(claims, Abs(db), Abs(db'))
  {
  }

  lemma NoTallyWithoutChange(claims: map<EventId, nat>, t: Table)
    requires claims.Keys == t.Keys
    ensures Tally(claims, t, t) == claims
  {
  }

  /** The same with the claim counts: no step of the atomic queue, or the linearized one. */
  lemma StateRefines(cfg: Config, db: Db, s: Step)
    requires cfg.Valid() && Explained(cfg, db, s) && db.claims.Keys == db.rows.Keys
    ensures var acts := Linearized(db, s); var after := AbsState(Next(cfg, db, s));
      if acts == [] then after == AbsState(db)
      else Enabled(Abs(db), acts[0]) && after == Dlq.Next(cfg, AbsState(db), acts[0])
  {
    TallyThroughAbs(db.claims, db, Next(cfg, db, s));
    if Linearized(db, s) == [] { NoTallyWithoutChange(db.claims, Abs(db)); }
  }

  /** Two-step refinement over whole runs: in every reachable state of any number of interleaved
      workers the invariant holds, every step is one legal operation of the atomic queue or none,
      and the atomic queue's lifetime invariant holds of the abstracted table. */
  lemma {:induction false} RunRefinesAtomicQueue(cfg: Config, dbs: seq<Db>, steps: seq<Step>, i: nat)
    requires cfg.Valid() && !cfg.numbersPublishes && IsRun(cfg, dbs, steps) && i < |dbs|
    ensures MarkInv(dbs[i]) && Dlq.Inv(cfg, AbsState(dbs[i]))
    ensures i < |steps| ==> Explained(cfg, dbs[i], steps[i])
  {
    if i > 0 {
      RunRefinesAtomicQueue(cfg, dbs, steps, i - 1);
      assert StepAt(cfg, dbs, steps, i - 1);
      RefinementStep(cfg, dbs[i - 1], steps[i - 1]);
    }
    if i < |steps| {
      assert StepAt(cfg, dbs, steps, i);
      StepRefines(cfg, dbs[i], steps[i]);
    }
  }

  lemma RefinementStep(cfg: Config, db: Db, s: Step)
    requires cfg.Valid() && !cfg.numbersPublishes && CanStep(db, s) && MarkInv(db) && Dlq.Inv(cfg, AbsState(db))
    ensures MarkInv(Next(cfg, db, s)) && Dlq.Inv(cfg, AbsState(Next(cfg, db, s)))
  {
    StepRefines(cfg, db, s);
    StateRefines(cfg, db, s);
    if Linearized(db, s) != [] { StepKeepsInv(cfg, AbsState(db), Linearized(db, s)[0]); }
  }

  /** The atomic operations of the first i steps, in the order they take effect. */
  function Linearization(dbs: seq<Db>, steps: seq<Step>, i: nat): seq<Action>
    requires i <= |steps| && |dbs| == |steps| + 1
  {
    if i == 0 then [] else Linearization(dbs, steps, i - 1) + Linearized(dbs[i - 1], steps[i - 1])
  }

  /** Trace inclusion: leaving out the steps that do nothing, every interleaved run is a run of
      the atomic queue that ends where the abstraction says. */
  lemma {:induction false} RunIsAtomicRun(cfg: Config, dbs: seq<Db>, steps: seq<Step>, i: nat)
    returns (states: seq<State>)
    requires cfg.Valid() && !cfg.numbersPublishes && IsRun(cfg, dbs, steps) && i < |dbs|
    ensures Dlq.IsRun(cfg, states, Linearization(dbs, steps, i)) && states[|states| - 1] == AbsState(dbs[i])
  {
    states := [State(map[], map[])];
    for k := 0 to i
      invariant Dlq.IsRun(cfg, states, Linearization(dbs, steps, k)) && states[|states| - 1] == AbsState(dbs[k])
    {
      RunRefinesAtomicQueue(cfg, dbs, steps, k);
      assert StepAt(cfg, dbs, steps, k);
      states := AtomicStep(cfg, dbs[k], steps[k], states, Linearization(dbs, steps, k));
    }
  }

  lemma AtomicStep(cfg: Config, db: Db, s: Step, states: seq<State>, acts: seq<Action>) returns (states': seq<State>)
    requires cfg.Valid() && Explained(cfg, db, s) && db.claims.Keys == db.rows.Keys
    requires Dlq.IsRun(cfg, states, acts) && states[|states| - 1] == AbsState(db)
    ensures Dlq.IsRun(cfg, states', acts + Linearized(db, s)) && states'[|states'| - 1] == AbsState(Next(cfg, db, s))
  {
    StateRefines(cfg, db, s);
    states' := states;
    if Linearized(db, s) == [] {
      assert acts + [] == acts;
    } else {
      var a := Linearized(db, s)[0];
      assert Linearized(db, s) == [a];
      ExtendRun(cfg, states, acts, a);
      states' := states + [Dlq.Next(cfg, AbsState(db), a)];
    }
  }

  // ---------------------------------------------------------------- holders

  /** The discipline that makes both assumptions good: a claimed row is marked only by the worker
      that holds it, and no purge deletes a claimed row. */
  ghost predicate ByHolders(db: Db, s: Step) {
    && (s.Increment? && s.w in db.workers && s.id in db.rows && db.rows[s.id].status.Retrying? ==>
          s.id in db.workers[s.w].held)
    && (s.PurgeStep? ==>
          forall id | id in db.rows && db.rows[id].status.Retrying? :: !(db.rows[id].createdAt < s.cutoff))
  }

  ghost predicate HeldStepAt(cfg: Config, dbs: seq<Db>, steps: seq<Step>, i: nat)
    requires cfg.Valid() && i < |steps| && |dbs| == |steps| + 1
  {
    Guard(dbs[i], steps[i]) && ByHolders(dbs[i], steps[i]) && dbs[i + 1] == Next(cfg, dbs[i], steps[i])
  }

  ghost predicate IsHeldRun(cfg: Config, dbs: seq<Db>, steps: seq<Step>)
    requires cfg.Valid()
  {
    && |dbs| == |steps| + 1
    && Fresh(dbs[0])
    && forall i | 0 <= i < |steps| :: HeldStepAt(cfg, dbs, steps, i)
  }

  ghost predicate WorkerInv(db: Db, w: WorkerId)
    requires w in db.workers
  {
    var me := db.workers[w];
    && (forall id | id in me.held :: id in db.rows && db.rows[id].status.Retrying?)
    && Distinct(me.claimed)
    && (me.pc.Claiming? ==> |me.claimed| <= me.pc.limit && Ids(me.claimed) <= me.held)
    && (me.pc.Finalizing? ==> me.pc.id in me.held)
  }

  ghost predicate Disjoint(db: Db) {
    forall v, w | v in db.workers && w in db.workers && v != w :: db.workers[v].held !! db.workers[w].held
  }

  ghost predicate EveryClaimHeld(db: Db) {
    forall id | id in db.rows && db.rows[id].status.Retrying? ::
      exists w :: w in db.workers && id in db.workers[w].held
  }

  ghost predicate HoldInv(db: Db) {
    && (forall w | w in db.workers :: WorkerInv(db, w))
    && Disjoint(db)
    && EveryClaimHeld(db)
  }

  /** A row between the two statements of a mark is held by the worker that counted it, and by
      nobody else. */
  lemma CountedIsHeld(db: Db, id: EventId) returns (w: WorkerId)
    requires HoldInv(db) && MarkInv(db) && id in Counted(db)
    ensures w in db.workers && db.workers[w].pc.Finalizing? && db.workers[w].pc.id == id
    ensures forall v | v in db.workers :: id in db.workers[v].held <==> v == w
  {
    w := CountedBy(db, id);
    assert WorkerInv(db, w);
    forall v | v in db.workers && v != w ensures id !in db.workers[v].held {
      assert db.workers[v].held !! db.workers[w].held;
    }
  }

  lemma HoldersDoNotDisturb(db: Db, s: Step)
    requires HoldInv(db) && MarkInv(db) && Guard(db, s) && ByHolders(db, s)
    ensures CanStep(db, s)
  {
    if s.Increment? && s.id in Counted(db) { var w := CountedIsHeld(db, s.id); }
    if s.PurgeStep? {
      forall id | id in Counted(db) && id in db.rows ensures !(db.rows[id].createdAt < s.cutoff) {
        var w := CountedBy(db, id);
      }
    }
  }

  /** Statements outside any worker: claimed rows stay claimed and no row becomes so. */
  lemma TableKeepsHoldInv(db: Db, db': Db)
    requires HoldInv(db) && db'.workers == db.workers
    requires forall id | id in db.rows && db.rows[id].status.Retrying? ::
      id in db'.rows && db'.rows[id].status.Retrying?
    requires forall id | id in db'.rows && db'.rows[id].status.Retrying? ::
      id in db.rows && db.rows[id].status.Retrying?
    ensures HoldInv(db')
  {
    forall w | w in db'.workers ensures WorkerInv(db', w) { assert WorkerInv(db, w); }
  }

  /** The rows other workers hold stay claimed. */
  ghost predicate OthersKeep(db: Db, db': Db, w: WorkerId) {
    && OnlyMoves(db, db', w)
    && forall v, id | v in db.workers && v != w && id in db.workers[v].held && id in db.rows ::
         id in db'.rows && db'.rows[id].status == db.rows[id].status
  }

  lemma MoveKeepsHoldInv(db: Db, db': Db, w: WorkerId)
    requires HoldInv(db) && OthersKeep(db, db', w) && WorkerInv(db', w)
    requires forall v | v in db.workers && v != w :: db.workers[v].held !! db'.workers[w].held
    requires forall id | id in db'.rows && db'.rows[id].status.Retrying? ::
      id in db'.workers[w].held || (id in db.rows && db.rows[id].status.Retrying? && id !in db.workers[w].held)
    ensures HoldInv(db')
  {
    forall v | v in db'.workers && v != w ensures WorkerInv(db', v) { assert WorkerInv(db, v); }
    forall id | id in db'.rows && db'.rows[id].status.Retrying?
      ensures exists v :: v in db'.workers && id in db'.workers[v].held
    {
      if id in db'.workers[w].held {
      } else {
        var v :| v in db.workers && id in db.workers[v].held;
        assert id in db'.workers[v].held;
      }
    }
  }

  /** The records of a claim were held by nobody. */
  lemma PickedAreFree(db: Db, now: Time, limit: int, skip: set<EventId>, picked: seq<EventId>)
    requires HoldInv(db) && IsClaim(db.rows, now, limit, skip, picked)
    ensures forall w | w in db.workers :: db.workers[w].held !! Ids(picked)
  {
    forall w | w in db.workers ensures db.workers[w].held !! Ids(picked) { assert WorkerInv(db, w); }
  }

  lemma ClaimKeepsHoldInv(db: Db, db': Db, w: WorkerId, picked: seq<EventId>)
    requires HoldInv(db) && OnlyMoves(db, db', w)
    requires forall id | id in picked :: id in db.rows && db.rows[id].status.Pending?
    requires forall v | v in db.workers :: db.workers[v].held !! Ids(picked)
    requires db'.rows == Claim(db.rows, Ids(picked))
    requires var me' := db'.workers[w];
      && me'.held == db.workers[w].held + Ids(picked) && !me'.pc.Finalizing? && Distinct(me'.claimed)
      && (me'.pc.Claiming? ==> |me'.claimed| <= me'.pc.limit && Ids(me'.claimed) <= me'.held)
    ensures HoldInv(db')
  {
    assert WorkerInv(db, w);
    assert WorkerInv(db', w);
    assert OthersKeep(db, db', w);
    MoveKeepsHoldInv(db, db', w);
  }

  lemma MongoTakeGathers(db: Db, w: WorkerId, id: EventId)
    requires HoldInv(db) && w in db.workers && db.workers[w].pc.Claiming? && id !in db.workers[w].held
    ensures Distinct(db.workers[w].claimed + [id])
    ensures Ids(db.workers[w].claimed + [id]) == Ids(db.workers[w].claimed) + {id} <= db.workers[w].held + {id}
  {
    assert WorkerInv(db, w);
    assert id !in Ids(db.workers[w].claimed);
  }

  lemma ClaimStepKeepsHoldInv(cfg: Config, db: Db, s: Step)
    requires cfg.Valid() && MarkInv(db) && HoldInv(db) && Guard(db, s) && (s.PostgresClaim? || s.MongoTake?)
    ensures HoldInv(Next(cfg, db, s))
  {
    var db' := Next(cfg, db, s);
    if s.PostgresClaim? {
      ClaimTakesPicked(db, s.now, s.limit, s.locked, s.picked);
      PickedAreFree(db, s.now, s.limit, s.locked, s.picked);
      ClaimKeepsHoldInv(db, db', s.w, s.picked);
    } else {
      assert Ids([s.id]) == {s.id};
      ClaimTakesPicked(db, db.workers[s.w].pc.now, 1, {}, [s.id]);
      PickedAreFree(db, db.workers[s.w].pc.now, 1, {}, [s.id]);
      MongoTakeGathers(db, s.w, s.id);
      ClaimKeepsHoldInv(db, db', s.w, [s.id]);
    }
  }

  /** Steps that leave every status and every holding alone. */
  lemma QuietKeepsHoldInv(db: Db, db': Db, w: WorkerId)
    requires HoldInv(db) && OnlyMoves(db, db', w) && db'.workers[w].held == db.workers[w].held && WorkerInv(db', w)
    requires db'.rows.Keys == db.rows.Keys && forall id | id in db.rows :: db'.rows[id].status == db.rows[id].status
    ensures HoldInv(db')
  {
    MoveKeepsHoldInv(db, db', w);
  }

  lemma QuietStepKeepsHoldInv(cfg: Config, db: Db, s: Step)
    requires cfg.Valid() && HoldInv(db) && Guard(db, s) && ByHolders(db, s)
    requires s.MongoStart? || s.MongoReturn? || s.Lookup? || s.Increment?
    ensures HoldInv(Next(cfg, db, s))
  {
    var db' := Next(cfg, db, s);
    assert WorkerInv(db, s.w);
    assert WorkerInv(db', s.w);
    QuietKeepsHoldInv(db, db', s.w);
  }

  lemma FinalizeKeepsHoldInv(cfg: Config, db: Db, db': Db, w: WorkerId)
    requires cfg.Valid() && HoldInv(db) && OnlyMoves(db, db', w) && db.workers[w].pc.Finalizing?
    requires db'.rows == FinalizeStatement(cfg, db.rows, db.workers[w].pc)
    requires var me := db.workers[w]; db'.workers[w] == me.(pc := Idle, held := me.held - {me.pc.id})
    ensures HoldInv(db')
  {
    var pc := db.workers[w].pc;
    assert WorkerInv(db, w);
    FinalizeTouchesOwnRow(cfg, db.rows, pc);
    assert WorkerInv(db', w);
    forall v | v in db.workers && v != w ensures pc.id !in db.workers[v].held {
      assert db.workers[v].held !! db.workers[w].held;
    }
    assert OthersKeep(db, db', w);
    MoveKeepsHoldInv(db, db', w);
  }

  lemma TableStepKeepsHoldInv(cfg: Config, db: Db, s: Step)
    requires cfg.Valid() && HoldInv(db) && ByHolders(db, s) && (s.PublishStep? || s.PurgeStep?)
    ensures HoldInv(Next(cfg, db, s))
  {
    TableKeepsHoldInv(db, Next(cfg, db, s));
  }

  lemma StepKeepsHoldInv(cfg: Config, db: Db, s: Step)
    requires cfg.Valid() && !cfg.numbersPublishes && MarkInv(db) && HoldInv(db) && Guard(db, s) && ByHolders(db, s)
    ensures HoldInv(Next(cfg, db, s))
  {
    match s
    case PublishStep(_, _, _, _) => TableStepKeepsHoldInv(cfg, db, s);
    case PostgresClaim(_, _, _, _, _) => ClaimStepKeepsHoldInv(cfg, db, s);
    case MongoStart(_, _, _) => QuietStepKeepsHoldInv(cfg, db, s);
    case MongoTake(_, _) => ClaimStepKeepsHoldInv(cfg, db, s);
    case MongoReturn(_, _) => QuietStepKeepsHoldInv(cfg, db, s);
    case Increment(_, _, _, _, _, _) => QuietStepKeepsHoldInv(cfg, db, s);
    case Finalize(w) => FinalizeKeepsHoldInv(cfg, db, Next(cfg, db, s), w);
    case Lookup(_) => QuietStepKeepsHoldInv(cfg, db, s);
    case PurgeStep(_) => TableStepKeepsHoldInv(cfg, db, s);
  }

  /** When only holders mark and purges spare claimed rows, nothing is disturbed, in the whole run. */
  lemma {:induction false} HeldRunInvariant(cfg: Config, dbs: seq<Db>, steps: seq<Step>, i: nat)
    requires cfg.Valid() && !cfg.numbersPublishes && IsHeldRun(cfg, dbs, steps) && i < |dbs|
    ensures MarkInv(dbs[i]) && HoldInv(dbs[i])
    ensures i < |steps| ==> StepAt(cfg, dbs, steps, i)
  {
    if i == 0 {
      forall w | w in dbs[0].workers ensures WorkerInv(dbs[0], w) {}
    } else {
      HeldRunInvariant(cfg, dbs, steps, i - 1);
      assert HeldStepAt(cfg, dbs, steps, i - 1);
      StepRefines(cfg, dbs[i - 1], steps[i - 1]);
      StepKeepsHoldInv(cfg, dbs[i - 1], steps[i - 1]);
    }
    if i < |steps| {
      assert HeldStepAt(cfg, dbs, steps, i);
      HoldersDoNotDisturb(dbs[i], steps[i]);
    }
  }

  /** So such a run is one of those that refine the atomic queue. */
  lemma HeldRunIsRun(cfg: Config, dbs: seq<Db>, steps: seq<Step>)
    requires cfg.Valid() && !cfg.numbersPublishes && IsHeldRun(cfg, dbs, steps)
    ensures IsRun(cfg, dbs, steps)
  {
    forall i | 0 <= i < |steps| ensures StepAt(cfg, dbs, steps, i) { HeldRunInvariant(cfg, dbs, steps, i); }
  }

  /** In every reachable state a record is claimed exactly when one worker holds it, and then
      only that one does. */
  lemma ClaimsAreExclusive(cfg: Config, dbs: seq<Db>, steps: seq<Step>, i: nat, id: EventId)
    requires cfg.Valid() && !cfg.numbersPublishes && IsHeldRun(cfg, dbs, steps) && i < |dbs|
    ensures (id in dbs[i].rows && dbs[i].rows[id].status.Retrying?)
      <==> exists w :: w in dbs[i].workers && id in dbs[i].workers[w].held
    ensures forall v, w | v in dbs[i].workers && w in dbs[i].workers
      && id in dbs[i].workers[v].held && id in dbs[i].workers[w].held :: v == w
  {
    HeldRunInvariant(cfg, dbs, steps, i);
    forall w | w in dbs[i].workers ensures WorkerInv(dbs[i], w) {}
  }

  // ---------------------------------------------------------------- claim calls

  /** The records worker w itself took from pending to retrying between states i and j. */
  function MovedBy(dbs: seq<Db>, steps: seq<Step>, w: WorkerId, i: nat, j: nat): set<EventId>
    requires i <= j <= |steps| && |dbs| == |steps| + 1
  {
    if i == j then {}
    else
      var s := steps[j - 1];
      MovedBy(dbs, steps, w, i, j - 1) +
        (if s.PublishStep? || s.PurgeStep? || s.w != w then {} else Moved(dbs[j - 1].rows, dbs[j].rows))
  }

  /** PostgreSQL: the rows the claim returns are exactly those it moved, each once. */
  lemma PostgresReturnsWhatItMoved(cfg: Config, dbs: seq<Db>, steps: seq<Step>, i: nat)
    requires cfg.Valid() && !cfg.numbersPublishes && IsRun(cfg, dbs, steps) && i < |steps| && steps[i].PostgresClaim?
    ensures steps[i].w in dbs[i + 1].workers
    ensures var me := dbs[i + 1].workers[steps[i].w];
      && Distinct(me.claimed) && |me.claimed| <= steps[i].limit
      && Ids(me.claimed) == MovedBy(dbs, steps, steps[i].w, i, i + 1) <= me.held
  {
    RunRefinesAtomicQueue(cfg, dbs, steps, i);
    assert StepAt(cfg, dbs, steps, i);
    var s := steps[i];
    ClaimTakesPicked(dbs[i], s.now, s.limit, s.locked, s.picked);
    assert MovedBy(dbs, steps, s.w, i, i) == {};
  }

  /** What a claim loop has gathered since step i, in state j. */
  ghost predicate Gathered(dbs: seq<Db>, steps: seq<Step>, i: nat, j: nat, w: WorkerId)
    requires i < j <= |steps| && |dbs| == |steps| + 1 && steps[i].MongoStart? && w in dbs[j].workers
  {
    var me := dbs[j].workers[w];
    && Distinct(me.claimed) && |me.claimed| <= steps[i].limit
    && Ids(me.claimed) == MovedBy(dbs, steps, w, i, j) <= me.held
    && (me.pc.Claiming? ==> me.pc.limit == steps[i].limit)
  }

  /** MongoDB: at every point of a claim loop, through to its return and whether or not a failure
      cut it short, the list gathered is exactly what this call moved, each once, and all of it is
      still held. */
  lemma {:induction false} MongoReturnsWhatItMoved(
    cfg: Config, dbs: seq<Db>, steps: seq<Step>, i: nat, j: nat, w: WorkerId)
    requires cfg.Valid() && !cfg.numbersPublishes && IsHeldRun(cfg, dbs, steps) && i < j <= |steps|
    requires steps[i].MongoStart? && steps[i].w == w
    requires forall k | i < k < j :: w in dbs[k].workers && dbs[k].workers[w].pc.Claiming?
    ensures w in dbs[j].workers && Gathered(dbs, steps, i, j, w)
  {
    assert HeldStepAt(cfg, dbs, steps, j - 1);
    if j == i + 1 {
      MongoCallStarts(cfg, dbs[i], steps[i], w);
      assert MovedBy(dbs, steps, w, i, i) == {};
    } else {
      MongoReturnsWhatItMoved(cfg, dbs, steps, i, j - 1, w);
      HeldRunInvariant(cfg, dbs, steps, j - 1);
      MongoCallStep(cfg, dbs[j - 1], steps[j - 1], w);
    }
  }

  lemma MongoCallStarts(cfg: Config, db: Db, s: Step, w: WorkerId)
    requires cfg.Valid() && Guard(db, s) && s.MongoStart? && s.w == w
    ensures var db' := Next(cfg, db, s);
      && Moved(db.rows, db'.rows) == {} && w in db'.workers
      && db'.workers[w] == Worker(Claiming(s.now, s.limit), [], db.workers[w].held)
  {
  }

  lemma MongoCallStep(cfg: Config, db: Db, s: Step, w: WorkerId)
    requires cfg.Valid() && MarkInv(db) && HoldInv(db) && Guard(db, s) && w in db.workers && db.workers[w].pc.Claiming?
    ensures var db' := Next(cfg, db, s); var me, me' := db.workers[w], db'.workers[w];
      if s.PublishStep? || s.PurgeStep? || s.w != w then me' == me
      else
        && Ids(me'.claimed) == Ids(me.claimed) + Moved(db.rows, db'.rows)
        && me'.held == me.held + Moved(db.rows, db'.rows)
        && Distinct(me'.claimed) && |me'.claimed| <= me.pc.limit
        && (me'.pc.Claiming? ==> me'.pc == me.pc)
  {
    assert WorkerInv(db, w);
    if s.MongoTake? && s.w == w {
      assert Ids([s.id]) == {s.id};
      ClaimTakesPicked(db, db.workers[w].pc.now, 1, {}, [s.id]);
      PickedAreFree(db, db.workers[w].pc.now, 1, {}, [s.id]);
      MongoTakeGathers(db, w, s.id);
    } else if s.MongoReturn? && s.w == w {
      assert Moved(db.rows, db.rows) == {};
    }
  }

  // ---------------------------------------------------------------- the error answers

  /** A record that was not claimable for marking at i and is claimed at j went through pending:
      some state between gives the answer that a look-up at j gives. */
  lemma {:induction false} AnswerWithinWindow(cfg: Config, dbs: seq<Db>, steps: seq<Step>, i: nat, j: nat, id: EventId)
    returns (k: nat)
    requires cfg.Valid() && !cfg.numbersPublishes && IsRun(cfg, dbs, steps) && i <= j < |dbs|
    requires !MarkAnswer(dbs[i].rows, id).Marked?
    ensures i <= k <= j && MarkAnswer(dbs[k].rows, id) == if id in dbs[j].rows then NotClaimed else NotFound
  {
    if !MarkAnswer(dbs[j].rows, id).Marked? {
      k := j;
    } else {
      k := AnswerWithinWindow(cfg, dbs, steps, i, j - 1, id);
      ClaimedWasPresent(cfg, dbs, steps, j, id);
    }
  }

  lemma ClaimedWasPresent(cfg: Config, dbs: seq<Db>, steps: seq<Step>, j: nat, id: EventId)
    requires cfg.Valid() && IsRun(cfg, dbs, steps) && 0 < j < |dbs| && MarkAnswer(dbs[j].rows, id).Marked?
    ensures id in dbs[j - 1].rows
  {
    assert StepAt(cfg, dbs, steps, j - 1);
    NothingAppearsClaimed(cfg, dbs[j - 1], steps[j - 1], id);
  }

  lemma NothingAppearsClaimed(cfg: Config, db: Db, s: Step, id: EventId)
    requires cfg.Valid()
    ensures id !in db.rows && id in Statement(cfg, db, s) ==> Statement(cfg, db, s)[id].status.Pending?
  {
  }

  /** The error of a mark whose increment matched no row is decided by a second statement, after
      any number of other steps; it is still the answer the atomic queue gives at some moment
      between the two statements. */
  lemma FailedMarkLinearizes(cfg: Config, dbs: seq<Db>, steps: seq<Step>, i: nat, j: nat)
    requires cfg.Valid() && !cfg.numbersPublishes && IsRun(cfg, dbs, steps) && i < j < |steps|
    requires steps[i].Increment? && steps[j].Lookup? && !MarkAnswer(dbs[i].rows, steps[i].id).Marked?
    ensures var id := steps[i].id;
      exists k :: i <= k <= j && MarkAnswer(Abs(dbs[k]), id) == if id in dbs[j].rows then NotClaimed else NotFound
  {
    var id := steps[i].id;
    var k := AnswerWithinWindow(cfg, dbs, steps, i, j, id);
    assert MarkAnswer(Abs(dbs[k]), id) == MarkAnswer(dbs[k].rows, id);
  }

  // ---------------------------------------------------------------- where the assumptions bite

  datatype Outcome = Outcome(success: bool, error: string, now: Time, draw: nat)

  /** The order of the four statements of two marks, a and b, of one claimed record. */
  datatype Schedule = Apart | OverlapThenAFirst | OverlapThenBFirst

  function PcAfterIncrement(t: Table, id: EventId, o: Outcome): Pc
    requires id in t
  {
    Finalizing(id, o.success, o.error, o.now, o.draw, t[id].retryCount, t[id].maxRetries)
  }

  function TwoMarks(cfg: Config, t: Table, id: EventId, a: Outcome, b: Outcome, order: Schedule): Table
    requires cfg.Valid() && id in t
  {
    var t1 := IncrementRetryCount(t, id);
    var pcA := PcAfterIncrement(t1, id, a);
    if order.Apart? then
      var t2 := FinalizeStatement(cfg, t1, pcA);
      if t2[id].status.Retrying? then
        var t3 := IncrementRetryCount(t2, id);
        FinalizeStatement(cfg, t3, PcAfterIncrement(t3, id, b))
      else t2
    else
      var t2 := IncrementRetryCount(t1, id);
      var pcB := PcAfterIncrement(t2, id, b);
      if order.OverlapThenAFirst? then FinalizeStatement(cfg, FinalizeStatement(cfg, t2, pcA), pcB)
      else FinalizeStatement(cfg, FinalizeStatement(cfg, t2, pcB), pcA)
  }

  function AtomicMarks(cfg: Config, t: Table, id: EventId, a: Outcome, b: Outcome): Table
    requires cfg.Valid()
  {
    MarkRetried(cfg, MarkRetried(cfg, t, id, a.success, a.error, a.now, a.draw), id, b.success, b.error, b.now, b.draw)
  }

  /** Two marks of one claim leave what the atomic queue leaves exactly when their statements do
      not overlap: the increment's guard still holds until the first finalize, so overlapping marks
      both count. The atomic queue counts one and refuses the other. */
  lemma MarksAgreeExactlyWhenApart(cfg: Config, t: Table, id: EventId, a: Outcome, b: Outcome, order: Schedule)
    requires cfg.Valid() && id in t && t[id].status.Retrying?
    ensures TwoMarks(cfg, t, id, a, b, order) in {AtomicMarks(cfg, t, id, a, b), AtomicMarks(cfg, t, id, b, a)}
      <==> order.Apart?
    ensures !order.Apart? ==>
      var after := TwoMarks(cfg, t, id, a, b, order); id in after && after[id].retryCount == t[id].retryCount + 2
  {
    AtomicMarksCountOnce(cfg, t, id, a, b);
    AtomicMarksCountOnce(cfg, t, id, b, a);
    if order.Apart? {
      ApartMarksAreAtomic(cfg, t, id, a, b);
    } else {
      OverlappingMarksCountTwice(cfg, t, id, a, b, order);
    }
  }

  lemma ApartMarksAreAtomic(cfg: Config, t: Table, id: EventId, a: Outcome, b: Outcome)
    requires cfg.Valid() && id in t && t[id].status.Retrying?
    ensures TwoMarks(cfg, t, id, a, b, Apart) == AtomicMarks(cfg, t, id, a, b)
  {
    AtomicMarksCountOnce(cfg, t, id, a, b);
  }

  lemma OverlappingMarksCountTwice(cfg: Config, t: Table, id: EventId, a: Outcome, b: Outcome, order: Schedule)
    requires cfg.Valid() && id in t && t[id].status.Retrying? && !order.Apart?
    ensures var after := TwoMarks(cfg, t, id, a, b, order); id in after && after[id].retryCount == t[id].retryCount + 2
  {
  }

  lemma AtomicMarksCountOnce(cfg: Config, t: Table, id: EventId, a: Outcome, b: Outcome)
    requires cfg.Valid() && id in t && t[id].status.Retrying?
    ensures AtomicMarks(cfg, t, id, a, b) == t[id := Retried(cfg, t[id], a.success, a.error, a.now, a.draw)]
    ensures AtomicMarks(cfg, t, id, a, b)[id].retryCount == t[id].retryCount + 1
  {
  }

  /** The table after a mark was caught between its statements by a purge and a new publish of the
      same event. */
  function PurgedMidMark(cfg: Config, t: Table, pc: Pc, cutoff: Time, payload: string, reason: string, now: Time): Table
    requires cfg.Valid() && pc.Finalizing?
  {
    FinalizeStatement(cfg, Publish(cfg, Purge(t, cutoff), pc.id, payload, reason, now), pc)
  }

  /** Such a mark still leaves a possible record exactly when the purge spared the row, or when the
      mark failed with retries left and so only reschedules the new record. Otherwise the unguarded
      finalize resolves or exhausts a record that was never retried. */
  lemma PurgeSafeExactlyWhenSparedOrRescheduling(
    cfg: Config, t: Table, claims: nat, pc: Pc, cutoff: Time, payload: string, reason: string, now: Time)
    requires cfg.Valid() && !cfg.numbersPublishes && pc.Finalizing? && AsCounted(t, pc)
    requires RecordInv(cfg, Uncounted(t[pc.id]), claims)
    ensures pc.id in PurgedMidMark(cfg, t, pc, cutoff, payload, reason, now)
    ensures (exists n :: RecordInv(cfg, PurgedMidMark(cfg, t, pc, cutoff, payload, reason, now)[pc.id], n))
      <==> !(t[pc.id].createdAt < cutoff) || (!pc.success && pc.count < pc.max)
  {
    var r := PurgedMidMark(cfg, t, pc, cutoff, payload, reason, now)[pc.id];
    if !(t[pc.id].createdAt < cutoff) {
      var published := Republished(cfg, Uncounted(t[pc.id]), reason);
      PublishKeepsRecord(cfg, Uncounted(t[pc.id]), claims, reason);
      MarkKeepsRecord(cfg, published, claims, pc.success, pc.error, pc.now, pc.draw);
      assert r == Retried(cfg, published, pc.success, pc.error, pc.now, pc.draw);
    } else if pc.success || pc.count >= pc.max {
      assert r.status.Terminal() && r.retryCount == 0;
    } else {
      var anew := FreshRecord(cfg, payload, reason, now);
      FreshRecordInv(cfg, payload, reason, now);
      SuccessesOfAppend(anew.history, Attempt(pc.count, false, pc.error));
      assert r.history == anew.history + [Attempt(pc.count, false, pc.error)];
      assert RecordInv(cfg, r, 0);
    }
  }
}
