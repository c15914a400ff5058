/** The calls of dlq.postgres.go and dlq.mongo.go run to the end without interference: one atomic
    claim, mark, publish or purge each. DlqBackends.dfy takes the same statements apart. */
module DatabaseDlq {
  import opened Dlq
  import opened DlqBackends
  import opened MemoryDlq

  function EffectiveLimit(limit: int): (n: nat)
    ensures n > 0 && (limit > 0 ==> n == limit) && (limit <= 0 ==> n == 10)
  {
    if limit <= 0 then 10 else limit
  }

  /** Sorting by next_retry_at and taking the first match. */
  method FindSoonest(t: Table, now: Time, skip: set<EventId>) returns (found: seq<EventId>)
    ensures IsClaim(t, now, 1, skip, found)
  {
    found := [];
    var left := t.Keys;
    while left != {}
      invariant left <= t.Keys && |found| <= 1
      invariant forall id | id in found :: id in t && id !in skip && Due(t[id], now)
      invariant forall id | id in t && id !in left && id !in skip && Due(t[id], now) ::
        |found| == 1 && t[found[0]].nextRetryAt <= t[id].nextRetryAt
      decreases left
    {
      var id :| id in left;
      if id !in skip && Due(t[id], now) && (found == [] || t[id].nextRetryAt < t[found[0]].nextRetryAt) {
        found := [id];
      }
      left := left - {id};
    }
  }

  /** The claim statement's subquery: ORDER BY next_retry_at LIMIT n FOR UPDATE SKIP LOCKED. */
  method SelectForUpdate(t: Table, now: Time, limit: nat, locked: set<EventId>) returns (picked: seq<EventId>)
    requires limit > 0
    ensures IsClaim(t, now, limit, locked, picked)
  {
    picked := [];
    while |picked| < limit
      invariant |picked| <= limit && Soonest(t, now, locked, picked)
      decreases limit - |picked|
    {
      var found := FindSoonest(Claim(t, Ids(picked)), now, locked);
      if found == [] {
        break;
      }
      assert found == [found[0]];
      ClaimOneMore(t, now, locked, picked, found[0]);
      picked := picked + found;
    }
    ClaimComplete(t, now, limit, locked, picked);
  }

  /** The copies handed to the caller are the rows as they now stand. */
  ghost predicate AsStored(claimed: seq<(EventId, Record)>, t: Table) {
    forall i | 0 <= i < |claimed| :: claimed[i].0 in t && claimed[i].1 == t[claimed[i].0]
  }

  class Postgres {
    const config: Config
    var rows: Table

    ghost predicate Valid() { config.Valid() && !config.numbersPublishes }

    constructor (config: Config)
      requires config.Valid() && !config.numbersPublishes
      ensures Valid() && this.config == config && rows == map[]
    {
      this.config := config;
      rows := map[];
    }

    method PublishToDLQ(id: EventId, payload: string, reason: string, now: Time)
      requires Valid()
      modifies this
      ensures rows == Publish(config, old(rows), id, payload, reason, now)
    {
      rows := UpsertDLQEvent(rows, id, payload, reason, config.maxRetries, now, now + config.retryDelay, Pending,
                             [Attempt(0, false, reason)]);
    }

    /** locked are rows other transactions hold at that moment, undecodable those whose stored JSON
        does not parse. A row that does not decode loses the caller the whole batch, although the
        statement has already claimed it: the call succeeds exactly when every row decodes.
        RETURNING gives the rows in no particular order. */
    method ClaimRetryableEvents(now: Time, limit: int, locked: set<EventId>, undecodable: set<EventId>)
      returns (claimed: seq<(EventId, Record)>, ok: bool, picked: seq<EventId>)
      modifies this
      ensures IsClaim(old(rows), now, EffectiveLimit(limit), locked, picked)
      ensures rows == Claim(old(rows), Ids(picked))
      ensures ok <==> Ids(picked) !! undecodable
      ensures if ok then Ids(IdsOf(claimed)) == Ids(picked) && Distinct(IdsOf(claimed)) else claimed == []
      ensures AsStored(claimed, rows)
    {
      picked := SelectForUpdate(rows, now, EffectiveLimit(limit), locked);
      rows := Claim(rows, Ids(picked));
      claimed, ok := Decode(Ids(picked), undecodable);
    }

    /** The loop over the returned rows. */
    method Decode(returned: set<EventId>, undecodable: set<EventId>) returns (claimed: seq<(EventId, Record)>, ok: bool)
      requires returned <= rows.Keys
      ensures ok <==> returned !! undecodable
      ensures if ok then Ids(IdsOf(claimed)) == returned && Distinct(IdsOf(claimed)) else claimed == []
      ensures AsStored(claimed, rows)
    {
      claimed := [];
      var left := returned;
      while left != {}
        invariant left <= returned && returned - left !! undecodable
        invariant Ids(IdsOf(claimed)) == returned - left && Distinct(IdsOf(claimed)) && AsStored(claimed, rows)
        decreases left
      {
        var id :| id in left;
        if id in undecodable {
          return [], false;
        }
        assert IdsOf(claimed + [(id, rows[id])]) == IdsOf(claimed) + [id];
        assert Ids(IdsOf(claimed) + [id]) == Ids(IdsOf(claimed)) + {id};
        assert id !in Ids(IdsOf(claimed));
        claimed := claimed + [(id, rows[id])];
        left := left - {id};
      }
      ok := true;
    }

    method MarkRetried(id: EventId, success: bool, error: string, now: Time, draw: nat) returns (answer: Answer)
      requires Valid()
      modifies this
      ensures answer == MarkAnswer(old(rows), id)
      ensures answer == NotFound <==> id !in old(rows)
      ensures answer == Marked <==> id in old(rows) && old(rows)[id].status == Retrying
      ensures answer != Marked ==> rows == old(rows)
      ensures rows == Dlq.MarkRetried(config, old(rows), id, success, error, now, draw)
    {
      var returned := id in rows && rows[id].status == Retrying;
      rows := IncrementRetryCount(rows, id);
      if !returned {
        if id !in rows {
          return NotFound;
        }
        return NotClaimed;
      }
      var row := rows[id];
      var attempt := Attempt(row.retryCount, success, error);
      if success {
        rows := FinalizeRetryTerminal(rows, id, Resolved, attempt);
      } else if row.retryCount >= row.maxRetries {
        rows := FinalizeRetryTerminal(rows, id, Exhausted, attempt);
      } else {
        rows := FinalizeRetryPending(rows, id, now + config.RetryDelay(row.retryCount, draw), attempt);
      }
      answer := Marked;
    }
  }

  lemma TakenDocument(t: Table, claimed: seq<(EventId, Record)>, id: EventId)
    requires id in t && AsStored(claimed, t) && t[id].status.Pending?
    requires forall i | 0 <= i < |claimed| :: claimed[i].1.status.Retrying?
    ensures var doc := t[id].(status := Retrying);
      && t[id := doc] == Claim(t, {id}) && AsStored(claimed + [(id, doc)], t[id := doc])
      && IdsOf(claimed + [(id, doc)]) == IdsOf(claimed) + [id]
  {
  }

  class Mongo {
    const config: Config
    var documents: Table

    ghost predicate Valid() { config.Valid() && !config.numbersPublishes }

    constructor (config: Config)
      requires config.Valid() && !config.numbersPublishes
      ensures Valid() && this.config == config && documents == map[]
    {
      this.config := config;
      documents := map[];
    }

    /** One upsert: $push and $set always, $setOnInsert when the document is new. */
    method PublishToDLQ(id: EventId, payload: string, reason: string, now: Time)
      requires Valid()
      modifies this
      ensures documents == Publish(config, old(documents), id, payload, reason, now)
    {
      var doc := if id in documents then documents[id]
                 else Record(payload, "", 0, config.maxRetries, now, now + config.retryDelay, Pending, []);
      assert [] + [Attempt(0, false, reason)] == [Attempt(0, false, reason)];
      doc := doc.(history := doc.history + [Attempt(0, false, reason)], reason := reason);
      documents := documents[id := doc];
    }

    /** One findOneAndUpdate per iteration; fails(i) tells whether the i-th reports a failure that
        left its document unchanged. Uninterrupted the loop is one claim of limit documents; cut
        short it has claimed, and returns, the soonest ones it got to. */
    method ClaimRetryableEvents(now: Time, limit: int, fails: nat -> bool)
      returns (claimed: seq<(EventId, Record)>, failed: bool)
      modifies this
      ensures Soonest(old(documents), now, {}, IdsOf(claimed)) && |claimed| <= EffectiveLimit(limit)
      ensures documents == Claim(old(documents), Ids(IdsOf(claimed)))
      ensures !failed ==> IsClaim(old(documents), now, EffectiveLimit(limit), {}, IdsOf(claimed))
      ensures failed ==> |claimed| < EffectiveLimit(limit) && fails(|claimed|)
      ensures AsStored(claimed, documents)
    {
      claimed, failed := [], false;
      for i := 0 to EffectiveLimit(limit)
        invariant |claimed| == i && Soonest(old(documents), now, {}, IdsOf(claimed))
        invariant documents == Claim(old(documents), Ids(IdsOf(claimed)))
        invariant AsStored(claimed, documents) && forall k | 0 <= k < i :: claimed[k].1.status.Retrying?
      {
        if fails(i) {
          return claimed, true;
        }
        var found := FindSoonest(documents, now, {});
        if found == [] {
          ClaimComplete(old(documents), now, EffectiveLimit(limit), {}, IdsOf(claimed));
          return;
        }
        var id := found[0];
        assert found == [id];
        ClaimOneMore(old(documents), now, {}, IdsOf(claimed), id);
        var doc := documents[id].(status := Retrying);
        TakenDocument(documents, claimed, id);
        documents := documents[id := doc];
        claimed := claimed + [(id, doc)];
      }
      ClaimComplete(old(documents), now, EffectiveLimit(limit), {}, IdsOf(claimed));
    }

    method MarkRetried(id: EventId, success: bool, error: string, now: Time, draw: nat) returns (answer: Answer)
      requires Valid()
      modifies this
      ensures answer == MarkAnswer(old(documents), id)
      ensures answer == NotFound <==> id !in old(documents)
      ensures answer == Marked <==> id in old(documents) && old(documents)[id].status == Retrying
      ensures answer != Marked ==> documents == old(documents)
      ensures documents == Dlq.MarkRetried(config, old(documents), id, success, error, now, draw)
    {
      if !(id in documents && documents[id].status == Retrying) {
        if id !in documents {
          return NotFound;
        }
        return NotClaimed;
      }
      documents := documents[id := documents[id].(retryCount := documents[id].retryCount + 1)];
      var doc := documents[id];
      var status, nextRetryAt := Pending, doc.nextRetryAt;
      if success {
        status := Resolved;
      } else if doc.retryCount >= doc.maxRetries {
        status := Exhausted;
      } else {
        nextRetryAt := now + config.RetryDelay(doc.retryCount, draw);
      }
      documents := documents[id := documents[id].(status := status, nextRetryAt := nextRetryAt,
        history := documents[id].history + [Attempt(doc.retryCount, success, error)])];
      answer := Marked;
    }
  }
}
