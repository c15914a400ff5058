/** memory.go's dead-letter queue: a map mutated under one mutex hold per call, with its scan,
    sort and purge loops, proved to be the atomic queue of Dlq.dfy. */
module MemoryDlq {
  import opened Backoff
  import opened Dlq

  function IdsOf(claimed: seq<(EventId, Record)>): (ids: seq<EventId>)
    ensures |ids| == |claimed| && forall i | 0 <= i < |claimed| :: ids[i] == claimed[i].0
  {
    seq(|claimed|, i requires 0 <= i < |claimed| => claimed[i].0)
  }

  /** Insertion into an ordered list of candidates, before the first that is due later. */
  method InsertByNextRetry(t: Table, sorted: seq<EventId>, id: EventId) returns (r: seq<EventId>)
    requires id in t && (forall x | x in sorted :: x in t) && OrderedByNextRetry(t, sorted)
    requires Distinct(sorted) && id !in sorted
    ensures Ids(r) == Ids(sorted) + {id} && (forall x | x in r :: x in t) && OrderedByNextRetry(t, r) && Distinct(r)
  {
    var k := 0;
    while k < |sorted| && t[sorted[k]].nextRetryAt <= t[id].nextRetryAt
      invariant 0 <= k <= |sorted|
      invariant forall i | 0 <= i < k :: t[sorted[i]].nextRetryAt <= t[id].nextRetryAt
    {
      k := k + 1;
    }
    r := sorted[..k] + [id] + sorted[k..];
    InsertedIds(sorted, k, id);
    assert forall x | x in r :: x in Ids(r);
    InsertedOrder(t, sorted, k, id);
  }

  lemma InsertedOrder(t: Table, s: seq<EventId>, k: nat, id: EventId)
    requires id in t && (forall x | x in s :: x in t) && OrderedByNextRetry(t, s)
    requires Distinct(s) && id !in s && k <= |s|
    requires forall i | 0 <= i < k :: t[s[i]].nextRetryAt <= t[id].nextRetryAt
    requires k < |s| ==> t[id].nextRetryAt <= t[s[k]].nextRetryAt
    requires forall x | x in s[..k] + [id] + s[k..] :: x in t
    ensures OrderedByNextRetry(t, s[..k] + [id] + s[k..]) && Distinct(s[..k] + [id] + s[k..])
  {
    var r := s[..k] + [id] + s[k..];
    forall i, j | 0 <= i < j < |r| ensures t[r[i]].nextRetryAt <= t[r[j]].nextRetryAt && r[i] != r[j] {
      assert r[i] == if i < k then s[i] else if i == k then id else s[i - 1];
      assert r[j] == if j < k then s[j] else if j == k then id else s[j - 1];
    }
  }

  lemma InsertedIds(s: seq<EventId>, k: nat, id: EventId)
    requires k <= |s|
    ensures Ids(s[..k] + [id] + s[k..]) == Ids(s) + {id}
  {
    assert s == s[..k] + s[k..];
    forall x ensures x in s <==> x in s[..k] || x in s[k..] {}
  }

  /** sort.Slice by NextRetryAt. */
  method SortByNextRetry(t: Table, candidates: seq<EventId>) returns (sorted: seq<EventId>)
    requires Distinct(candidates) && forall x | x in candidates :: x in t
    ensures Ids(sorted) == Ids(candidates) && Distinct(sorted)
    ensures (forall x | x in sorted :: x in t) && OrderedByNextRetry(t, sorted)
  {
    sorted := [];
    for n := 0 to |candidates|
      invariant Ids(sorted) == Ids(candidates[..n]) && Distinct(sorted)
      invariant (forall x | x in sorted :: x in t) && OrderedByNextRetry(t, sorted)
    {
      assert candidates[n] !in Ids(candidates[..n]);
      assert candidates[..n + 1] == candidates[..n] + [candidates[n]];
      sorted := InsertByNextRetry(t, sorted, candidates[n]);
    }
    assert candidates[..|candidates|] == candidates;
  }

  /** A sorted list of everything due, cut at the limit, is a legal claim. */
  lemma CutIsClaim(t: Table, now: Time, limit: int, sorted: seq<EventId>)
    requires Distinct(sorted) && (forall x | x in sorted :: x in t) && OrderedByNextRetry(t, sorted)
    requires forall id :: id in sorted <==> id in t && Due(t[id], now)
    ensures IsClaim(t, now, limit, {}, if limit > 0 && |sorted| > limit then sorted[..limit] else sorted)
  {
    if limit > 0 && |sorted| > limit {
      var cut := sorted[..limit];
      forall id | id in t && Due(t[id], now) && id !in cut
        ensures forall p | p in cut :: t[p].nextRetryAt <= t[id].nextRetryAt
      {
        var j :| 0 <= j < |sorted| && sorted[j] == id;
        assert forall i | 0 <= i < limit :: cut[i] == sorted[i];
        forall p | p in cut ensures t[p].nextRetryAt <= t[id].nextRetryAt {
          var i :| 0 <= i < |cut| && cut[i] == p;
          assert sorted[i] == p;
        }
      }
    }
  }

  class Handler {
    const config: Config
    var events: map<EventId, Record>

    ghost predicate Valid() { config.maxRetries > 0 && config.numbersPublishes }

    constructor (maxRetries: int, retryDelay: Int64, maxRetryDelay: Int64)
      ensures Valid() && events == map[]
      ensures config.maxRetries == (if maxRetries <= 0 then 3 else maxRetries)
      ensures config.retryDelay == retryDelay && config.maxRetryDelay == maxRetryDelay
    {
      config := Config(if maxRetries <= 0 then 3 else maxRetries, retryDelay, maxRetryDelay, true);
      events := map[];
    }

    method PublishToDLQ(id: EventId, payload: string, reason: string, now: Time)
      requires Valid()
      modifies this
      ensures events == Publish(config, old(events), id, payload, reason, now)
    {
      if id in events {
        var existing := events[id];
        existing := existing.(reason := reason);
        existing := existing.(history := existing.history + [Attempt(existing.retryCount, false, reason)]);
        events := events[id := existing];
        return;
      }
      events := events[id := Record(payload, reason, 0, config.maxRetries, now, now + config.retryDelay, Pending,
                                    [Attempt(0, false, reason)])];
    }

    /** The scan of ClaimRetryableEvents, in any iteration order. */
    method DueEvents(now: Time) returns (candidates: seq<EventId>)
      ensures Distinct(candidates) && forall id :: id in candidates <==> id in events && Due(events[id], now)
    {
      candidates := [];
      var left := events.Keys;
      while left != {}
        invariant left <= events.Keys && Distinct(candidates)
        invariant forall id :: id in candidates <==> id in events && id !in left && Due(events[id], now)
        decreases left
      {
        var id :| id in left;
        if events[id].status == Pending && !(now < events[id].nextRetryAt) {
          candidates := candidates + [id];
        }
        left := left - {id};
      }
    }

    method ClaimRetryableEvents(now: Time, limit: int) returns (claimed: seq<(EventId, Record)>)
      modifies this
      ensures IsClaim(old(events), now, limit, {}, IdsOf(claimed))
      ensures events == Claim(old(events), Ids(IdsOf(claimed)))
      ensures forall i | 0 <= i < |claimed| :: claimed[i].0 in events && claimed[i].1 == events[claimed[i].0]
    {
      var candidates := DueEvents(now);
      candidates := SortByNextRetry(events, candidates);
      assert forall id :: id in candidates <==> id in Ids(candidates);
      CutIsClaim(events, now, limit, candidates);
      if limit > 0 && |candidates| > limit {
        candidates := candidates[..limit];
      }
      claimed := TakeAll(candidates);
    }

    /** The loop that moves the chosen events to retrying and copies them out. */
    method TakeAll(candidates: seq<EventId>) returns (claimed: seq<(EventId, Record)>)
      requires forall id | id in candidates :: id in events
      modifies this
      ensures IdsOf(claimed) == candidates && events == Claim(old(events), Ids(candidates))
      ensures forall i | 0 <= i < |claimed| :: claimed[i].0 in events && claimed[i].1 == events[claimed[i].0]
    {
      claimed := [];
      for n := 0 to |candidates|
        invariant |claimed| == n && forall i | 0 <= i < n :: claimed[i].0 == candidates[i]
        invariant events == Claim(old(events), Ids(candidates[..n]))
        invariant forall i | 0 <= i < n :: claimed[i].0 in events && claimed[i].1 == events[claimed[i].0]
      {
        var id := candidates[n];
        assert candidates[..n + 1] == candidates[..n] + [id];
        assert Ids(candidates[..n + 1]) == Ids(candidates[..n]) + {id};
        events := events[id := events[id].(status := Retrying)];
        claimed := claimed + [(id, events[id])];
      }
      assert candidates[..|candidates|] == candidates;
    }

    /** With the largest ceiling the backoff may panic (Backoff.PanicsExactlyAtMaxInt64). */
    method MarkRetried(id: EventId, success: bool, error: string, now: Time, draw: nat) returns (answer: Answer)
      requires Valid() && config.Valid()
      modifies this
      ensures answer == MarkAnswer(old(events), id)
      ensures answer == NotFound <==> id !in old(events)
      ensures answer == Marked <==> id in old(events) && old(events)[id].status == Retrying
      ensures answer != Marked ==> events == old(events)
      ensures events == Dlq.MarkRetried(config, old(events), id, success, error, now, draw)
    {
      if id !in events {
        return NotFound;
      }
      var e := events[id];
      if e.status != Retrying {
        return NotClaimed;
      }
      var newRetryCount := e.retryCount + 1;
      if success {
        e := e.(status := Resolved);
      } else if newRetryCount >= e.maxRetries {
        e := e.(status := Exhausted);
      } else {
        e := e.(status := Pending, nextRetryAt := now + config.RetryDelay(newRetryCount, draw));
      }
      e := e.(retryCount := newRetryCount, history := e.history + [Attempt(newRetryCount, success, error)]);
      events := events[id := e];
      answer := Marked;
    }

    method PurgeExpiredEvents(cutoff: Time) returns (purged: nat)
      modifies this
      ensures events == Purge(old(events), cutoff)
      ensures forall id | id in old(events) ::
        id in events <==> old(events)[id].status in {Pending, Retrying} && old(events)[id].createdAt >= cutoff
      ensures purged == |old(events)| - |events|
    {
      ghost var before := events;
      var left := events.Keys;
      purged := 0;
      while left != {}
        invariant left <= before.Keys && events.Keys <= before.Keys
        invariant forall id | id in before :: id in events <==> (id in left || !Purgeable(before[id], cutoff))
        invariant forall id | id in events :: events[id] == before[id]
        invariant purged == |before| - |events|
        decreases left
      {
        var id :| id in left;
        var e := events[id];
        if e.status == Resolved || e.status == Exhausted || e.createdAt < cutoff {
          RemoveOne(events, id);
          events := events - {id};
          purged := purged + 1;
        }
        left := left - {id};
      }
    }
  }

  lemma RemoveOne(t: Table, id: EventId)
    requires id in t
    ensures |t - {id}| == |t| - 1
  {
    assert (t - {id}).Keys == t.Keys - {id};
    assert |t| == |t.Keys| && |t - {id}| == |(t - {id}).Keys|;
  }
}
