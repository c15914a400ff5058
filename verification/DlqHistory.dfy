/** What a dead-letter record says is what happened to it: every field of a record, in every state
    of every run, read off the publishes and marks of its event since the record was created. */
module DlqHistory {
  import opened Backoff
  import opened Dlq

  /** Step j marks the claimed record. */
  ghost predicate Marks(states: seq<State>, actions: seq<Action>, id: EventId, j: nat) {
    && j < |actions| && j < |states| && actions[j].DoMark? && actions[j].id == id
    && id in states[j].rows && states[j].rows[id].status == Retrying
  }

  ghost predicate Publishes(actions: seq<Action>, id: EventId, j: nat) {
    j < |actions| && actions[j].DoPublish? && actions[j].id == id
  }

  ghost predicate Present(states: seq<State>, id: EventId, i: nat) { i < |states| && id in states[i].rows }

  /** The step that created the record found in state i. */
  ghost function Born(states: seq<State>, id: EventId, i: nat): (k: nat)
    requires i > 0
    ensures k < i
  {
    if i > 1 && Present(states, id, i - 1) then Born(states, id, i - 1) else i - 1
  }

  /** The marks since then. */
  ghost function MarksMade(states: seq<State>, actions: seq<Action>, id: EventId, i: nat): nat {
    if i == 0 || !Present(states, id, i - 1) then 0
    else MarksMade(states, actions, id, i - 1) + (if Marks(states, actions, id, i - 1) then 1 else 0)
  }

  /** An entry for each publish and each mark since then, in order. A mark is numbered by how many
      there have been; a publish likewise, or 0. */
  ghost function Log(cfg: Config, states: seq<State>, actions: seq<Action>, id: EventId, i: nat): seq<Attempt> {
    if i == 0 then []
    else
      var before := if Present(states, id, i - 1) then Log(cfg, states, actions, id, i - 1) else [];
      var made := MarksMade(states, actions, id, i - 1);
      if Publishes(actions, id, i - 1) then
        var number := if cfg.numbersPublishes && Present(states, id, i - 1) then made else 0;
        before + [Attempt(number, false, actions[i - 1].reason)]
      else if Marks(states, actions, id, i - 1) then
        before + [Attempt(made + 1, actions[i - 1].success, actions[i - 1].error)]
      else before
  }

  /** The reason of the last publish. */
  ghost function LastReason(actions: seq<Action>, id: EventId, i: nat): string {
    if i == 0 then ""
    else if Publishes(actions, id, i - 1) then actions[i - 1].reason
    else LastReason(actions, id, i - 1)
  }

  /** retryDelay after the record was created, until a failed mark with retries left moves it. */
  ghost function Scheduled(cfg: Config, states: seq<State>, actions: seq<Action>, id: EventId, i: nat): Time
    requires cfg.Valid()
  {
    if i == 0 then 0
    else if !Present(states, id, i - 1) then
      if Publishes(actions, id, i - 1) then actions[i - 1].now + cfg.retryDelay else 0
    else
      var made := MarksMade(states, actions, id, i - 1) + 1;
      if Marks(states, actions, id, i - 1) && !actions[i - 1].success && made < cfg.maxRetries then
        actions[i - 1].now + cfg.RetryDelay(made, actions[i - 1].draw)
      else Scheduled(cfg, states, actions, id, i - 1)
  }

  ghost predicate CreatedBy(r: Record, a: Action, id: EventId) {
    a.DoPublish? && a.id == id && r.payload == a.payload && r.createdAt == a.now
  }

  ghost predicate TellsItsHistory(cfg: Config, states: seq<State>, actions: seq<Action>, id: EventId, i: nat)
    requires cfg.Valid() && 0 < i <= |actions| && Present(states, id, i)
  {
    var r, k := states[i].rows[id], Born(states, id, i);
    && CreatedBy(r, actions[k], id) && !Present(states, id, k)
    && r.reason == LastReason(actions, id, i)
    && r.retryCount == MarksMade(states, actions, id, i)
    && r.history == Log(cfg, states, actions, id, i)
    && r.nextRetryAt == Scheduled(cfg, states, actions, id, i)
  }

  lemma CreationTellsItself(cfg: Config, states: seq<State>, actions: seq<Action>, id: EventId, i: nat)
    requires cfg.Valid() && IsRun(cfg, states, actions) && 0 < i <= |actions|
    requires Present(states, id, i) && !Present(states, id, i - 1)
    ensures TellsItsHistory(cfg, states, actions, id, i)
  {
    assert StepAt(cfg, states, actions, i - 1);
    assert Publishes(actions, id, i - 1);
  }

  /** How an operation changes a record that is there before and after. */
  ghost predicate Changed(cfg: Config, a: Action, id: EventId, r: Record, r': Record)
    requires cfg.Valid()
  {
    var publishes, marks := a.DoPublish? && a.id == id, a.DoMark? && a.id == id && r.status == Retrying;
    && r'.payload == r.payload && r'.createdAt == r.createdAt && r'.maxRetries == r.maxRetries
    && r'.reason == (if publishes then a.reason else r.reason)
    && r'.retryCount == r.retryCount + (if marks then 1 else 0)
    && r'.history == r.history + (
         if publishes then [Attempt(if cfg.numbersPublishes then r.retryCount else 0, false, a.reason)]
         else if marks then [Attempt(r.retryCount + 1, a.success, a.error)]
         else [])
    && r'.nextRetryAt == (
         if marks && !a.success && r.retryCount + 1 < r.maxRetries then a.now + cfg.RetryDelay(r.retryCount + 1, a.draw)
         else r.nextRetryAt)
  }

  lemma StepOnRecord(cfg: Config, s: State, a: Action, id: EventId)
    requires cfg.Valid() && id in s.rows && id in Next(cfg, s, a).rows
    ensures Changed(cfg, a, id, s.rows[id], Next(cfg, s, a).rows[id])
  {
    assert s.rows[id].history + [] == s.rows[id].history;
  }

  /** The three histories one step on, from how the step changes the record. */
  lemma StepOnHistories(
    cfg: Config, states: seq<State>, actions: seq<Action>, id: EventId, i: nat, r: Record, r': Record)
    requires cfg.Valid() && 0 < i <= |actions| && Present(states, id, i - 1) && r == states[i - 1].rows[id]
    requires r.maxRetries == cfg.maxRetries && r.retryCount == MarksMade(states, actions, id, i - 1)
    requires r.history == Log(cfg, states, actions, id, i - 1)
    requires r.nextRetryAt == Scheduled(cfg, states, actions, id, i - 1)
    requires Changed(cfg, actions[i - 1], id, r, r')
    ensures r'.retryCount == MarksMade(states, actions, id, i)
    ensures r'.history == Log(cfg, states, actions, id, i)
    ensures r'.nextRetryAt == Scheduled(cfg, states, actions, id, i)
  {
    assert r.history + [] == r.history;
  }

  lemma StepKeepsTelling(cfg: Config, states: seq<State>, actions: seq<Action>, id: EventId, i: nat)
    requires cfg.Valid() && IsRun(cfg, states, actions) && 1 < i <= |actions|
    requires Present(states, id, i) && Present(states, id, i - 1)
    requires TellsItsHistory(cfg, states, actions, id, i - 1)
    ensures TellsItsHistory(cfg, states, actions, id, i)
  {
    var r, r' := states[i - 1].rows[id], states[i].rows[id];
    assert Changed(cfg, actions[i - 1], id, r, r') by {
      assert StepAt(cfg, states, actions, i - 1);
      StepOnRecord(cfg, states[i - 1], actions[i - 1], id);
    }
    assert r.maxRetries == cfg.maxRetries by {
      LifetimeInvariant(cfg, states, actions, i - 1);
      assert RecordInv(cfg, r, states[i - 1].claims[id]);
    }
    StepOnHistories(cfg, states, actions, id, i, r, r');
  }

  /** In every state of every run, every field of every record is what the publishes and marks of
      its event since it was created say. */
  lemma {:induction false} RecordTellsItsHistory(
    cfg: Config, states: seq<State>, actions: seq<Action>, id: EventId, i: nat)
    requires cfg.Valid() && IsRun(cfg, states, actions) && i <= |actions| && Present(states, id, i)
    ensures i > 0 && TellsItsHistory(cfg, states, actions, id, i)
  {
    if i > 0 {
      if Present(states, id, i - 1) {
        RecordTellsItsHistory(cfg, states, actions, id, i - 1);
        StepKeepsTelling(cfg, states, actions, id, i);
      } else {
        CreationTellsItself(cfg, states, actions, id, i);
      }
    }
  }

  /** A claim hands back what was published, never before it is scheduled; the first time, not before
      retryDelay has passed since the publish that created the record. */
  lemma ClaimHandsBackThePublished(cfg: Config, states: seq<State>, actions: seq<Action>, id: EventId, i: nat)
    requires cfg.Valid() && IsRun(cfg, states, actions) && i < |actions|
    requires actions[i].DoClaim? && id in actions[i].picked
    ensures 0 < i && id in states[i].rows && id in states[i + 1].rows
    ensures var created, r := actions[Born(states, id, i)], states[i + 1].rows[id];
      && r.status == Retrying && CreatedBy(r, created, id)
      && Scheduled(cfg, states, actions, id, i) <= actions[i].now
      && (MarksMade(states, actions, id, i) == 0 ==> created.now + cfg.retryDelay <= actions[i].now)
  {
    assert StepAt(cfg, states, actions, i);
    RecordTellsItsHistory(cfg, states, actions, id, i);
    if MarksMade(states, actions, id, i) == 0 { FirstSchedule(cfg, states, actions, id, i); }
  }

  lemma {:induction false} FirstSchedule(cfg: Config, states: seq<State>, actions: seq<Action>, id: EventId, i: nat)
    requires cfg.Valid() && IsRun(cfg, states, actions) && 0 < i <= |actions| && Present(states, id, i)
    requires MarksMade(states, actions, id, i) == 0
    ensures actions[Born(states, id, i)].DoPublish?
    ensures Scheduled(cfg, states, actions, id, i) == actions[Born(states, id, i)].now + cfg.retryDelay
  {
    RecordTellsItsHistory(cfg, states, actions, id, i);
    if Present(states, id, i - 1) {
      if i > 1 { FirstSchedule(cfg, states, actions, id, i - 1); }
    } else {
      assert StepAt(cfg, states, actions, i - 1);
    }
  }
}
