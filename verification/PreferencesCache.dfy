/** cache.preferences.go: a read-through cache over the durable preferences store. Calls run to the
    end one after another; the cache may fail a read or a write, lose entries or let them rot. */
module PreferencesCache {
  type UserId = string
  type EventType = string

  datatype Preferences = Preferences(globalEnabled: bool, eventTypes: map<EventType, bool>, rest: string)

  datatype Lookup = Found(prefs: Preferences) | NotFound | StoreError

  datatype Entry = Good(prefs: Preferences) | Corrupt

  datatype State = State(durable: map<UserId, Preferences>, cache: map<UserId, Entry>)

  /** One whole call, or something happening to the cache. saved is the record as the durable store
      writes it, with its own timestamps. */
  datatype Call =
    | Get(user: UserId, readFails: bool, storeFails: bool, writeFails: bool)
    | Save(user: UserId, saved: Preferences, storeFails: bool, invalidationFails: bool)
    | Evict(user: UserId)
    | Rot(user: UserId)

  /** What the durable store itself answers. */
  function DurableAnswer(s: State, user: UserId, storeFails: bool): Lookup {
    if storeFails then StoreError else if user in s.durable then Found(s.durable[user]) else NotFound
  }

  predicate Hit(s: State, user: UserId, readFails: bool) { !readFails && user in s.cache && s.cache[user].Good? }

  function Answer(s: State, user: UserId, readFails: bool, storeFails: bool): Lookup {
    if Hit(s, user, readFails) then Found(s.cache[user].prefs) else DurableAnswer(s, user, storeFails)
  }

  function Next(s: State, c: Call): State {
    match c
    case Get(user, readFails, storeFails, writeFails) =>
      var fill := !Hit(s, user, readFails) && !writeFails && DurableAnswer(s, user, storeFails).Found?;
      if fill then s.(cache := s.cache[user := Good(DurableAnswer(s, user, storeFails).prefs)]) else s
    case Save(user, saved, storeFails, invalidationFails) =>
      if storeFails || user == "" then s
      else State(s.durable[user := saved], if invalidationFails then s.cache else s.cache - {user})
    case Evict(user) => s.(cache := s.cache - {user})
    case Rot(user) => if user in s.cache then s.(cache := s.cache[user := Corrupt]) else s
  }

  function After(s: State, calls: seq<Call>): State {
    if calls == [] then s else Next(After(s, calls[..|calls| - 1]), calls[|calls| - 1])
  }

  /** No decodable entry disagrees with the durable store. */
  ghost predicate Coherent(s: State) {
    forall user | user in s.cache && s.cache[user].Good? :: user in s.durable && s.cache[user].prefs == s.durable[user]
  }

  ghost predicate InvalidationsSucceed(calls: seq<Call>) {
    forall i | 0 <= i < |calls| && calls[i].Save? :: !calls[i].invalidationFails
  }

  lemma {:induction false} StaysCoherent(s: State, calls: seq<Call>)
    requires Coherent(s) && InvalidationsSucceed(calls)
    ensures Coherent(After(s, calls))
  {
    if calls != [] {
      var n := |calls| - 1;
      forall i | 0 <= i < n && calls[..n][i].Save? ensures !calls[..n][i].invalidationFails { assert calls[i].Save?; }
      StaysCoherent(s, calls[..n]);
    }
  }

  /** After any calls whose invalidations succeeded, a read gives the durable store's answer,
      whatever the cache does; where the store would fail, a cached copy of its own record may
      stand in. */
  lemma ReadsAgreeWithStore(s: State, calls: seq<Call>, user: UserId, readFails: bool, storeFails: bool)
    requires Coherent(s) && InvalidationsSucceed(calls)
    ensures var now := After(s, calls);
      var answer := Answer(now, user, readFails, storeFails);
      answer == DurableAnswer(now, user, storeFails) || answer == DurableAnswer(now, user, false)
    ensures var now := After(s, calls); !storeFails ==>
      Answer(now, user, readFails, storeFails) == DurableAnswer(now, user, false)
  {
    StaysCoherent(s, calls);
  }

  datatype Enabled = Yes | No | Error

  /** types.go's rule: globally off wins, then the explicit setting, then on. */
  function TypeEnabled(p: Preferences, t: EventType): bool {
    p.globalEnabled && (t in p.eventTypes ==> p.eventTypes[t])
  }

  /** IsEventTypeEnabled over a lookup: a user without preferences is opted in. */
  function EnabledFor(answer: Lookup, t: EventType): Enabled {
    match answer
    case Found(p) => if TypeEnabled(p, t) then Yes else No
    case NotFound => Yes
    case StoreError => Error
  }

  /** An event type is on exactly when the stored preferences, if there are any, leave it on. */
  lemma EnabledAgreesWithStore(s: State, calls: seq<Call>, user: UserId, readFails: bool, t: EventType)
    requires Coherent(s) && InvalidationsSucceed(calls)
    ensures var now := After(s, calls); var r := EnabledFor(Answer(now, user, readFails, false), t);
      && r != Error
      && (r == Yes <==> (user in now.durable ==>
            now.durable[user].globalEnabled && (t in now.durable[user].eventTypes ==> now.durable[user].eventTypes[t])))
  {
    ReadsAgreeWithStore(s, calls, user, readFails, false);
  }

  /** A record reads back as it was last saved, until it is saved again, whatever the cache does. */
  lemma {:induction false} SavedIsStored(s: State, calls: seq<Call>, k: nat)
    requires k < |calls| && calls[k].Save? && !calls[k].storeFails && calls[k].user != ""
    requires forall j | k < j < |calls| && calls[j].Save? && calls[j].user == calls[k].user :: calls[j].storeFails
    ensures var now := After(s, calls); calls[k].user in now.durable && now.durable[calls[k].user] == calls[k].saved
  {
    var n := |calls| - 1;
    if k < n {
      assert calls[..n][k] == calls[k];
      forall j | k < j < n && calls[..n][j].Save? && calls[..n][j].user == calls[k].user
        ensures calls[..n][j].storeFails
      {
        assert calls[j].Save?;
      }
      SavedIsStored(s, calls[..n], k);
    }
  }

  lemma SavedReadsBack(s: State, calls: seq<Call>, k: nat, readFails: bool)
    requires Coherent(s) && InvalidationsSucceed(calls)
    requires k < |calls| && calls[k].Save? && !calls[k].storeFails && calls[k].user != ""
    requires forall j | k < j < |calls| && calls[j].Save? && calls[j].user == calls[k].user :: calls[j].storeFails
    ensures Answer(After(s, calls), calls[k].user, readFails, false) == Found(calls[k].saved)
  {
    SavedIsStored(s, calls, k);
    ReadsAgreeWithStore(s, calls, calls[k].user, readFails, false);
  }

  /** A read that got through leaves its answer behind: the next needs no store. */
  lemma FilledReadNeedsNoStore(s: State, user: UserId, readFails: bool, storeFails: bool)
    requires Coherent(s) && user in s.durable
    ensures var next := Next(s, Get(user, readFails, false, false));
      Answer(next, user, false, storeFails) == Found(s.durable[user])
  {
  }

  /** Calls that may repair a stale entry of user, or store a newer record. */
  predicate Touches(c: Call, user: UserId) {
    match c
    case Get(u, readFails, _, _) => u == user && readFails
    case Save(u, _, storeFails, _) => u == user && !storeFails
    case Evict(u) => u == user
    case Rot(u) => u == user
  }

  lemma {:induction false} UntouchedStays(s: State, user: UserId, calls: seq<Call>)
    requires user in s.durable && forall i | 0 <= i < |calls| :: !Touches(calls[i], user)
    ensures var now := After(s, calls);
      && user in now.durable && now.durable[user] == s.durable[user]
      && if Hit(s, user, false) then user in now.cache && now.cache[user] == s.cache[user]
         else Hit(now, user, false) ==> now.cache[user].prefs == s.durable[user]
  {
    if calls != [] {
      var n := |calls| - 1;
      UntouchedStays(s, user, calls[..n]);
      assert !Touches(calls[n], user);
    }
  }

  /** A save whose invalidation fails, and any calls after it that do not touch the user's entry:
      reads are right, from then on, exactly when the cache held no decodable entry for the user or
      one that happens to equal what was saved. */
  lemma StaleExactlyWhenCached(s: State, user: UserId, saved: Preferences, calls: seq<Call>)
    requires Coherent(s) && user != "" && forall i | 0 <= i < |calls| :: !Touches(calls[i], user)
    ensures var now := After(Next(s, Save(user, saved, false, true)), calls);
      (Answer(now, user, false, false) == DurableAnswer(now, user, false))
      <==> (user in s.cache && s.cache[user].Good? ==> s.durable[user] == saved)
  {
    UntouchedStays(Next(s, Save(user, saved, false, true)), user, calls);
  }

  class CachedPreferencesStore {
    var durable: map<UserId, Preferences>
    var cache: map<UserId, Entry>

    function Value(): State
      reads this
    {
      State(durable, cache)
    }

    constructor ()
      ensures Value() == State(map[], map[]) && Coherent(Value())
    {
      durable, cache := map[], map[];
    }

    method GetPreferences(user: UserId, readFails: bool, storeFails: bool, writeFails: bool) returns (r: Lookup)
      modifies this
      ensures r == Answer(old(Value()), user, readFails, storeFails)
      ensures Value() == Next(old(Value()), Get(user, readFails, storeFails, writeFails))
    {
      if !readFails && user in cache {
        var raw := cache[user];
        if raw.Good? {
          return Found(raw.prefs);
        }
      }
      if storeFails {
        return StoreError;
      }
      if user !in durable {
        return NotFound;
      }
      if !writeFails {
        cache := cache[user := Good(durable[user])];
      }
      return Found(durable[user]);
    }

    method SavePreferences(user: UserId, saved: Preferences, storeFails: bool, invalidationFails: bool)
      returns (ok: bool)
      modifies this
      ensures ok == (user != "" && !storeFails)
      ensures Value() == Next(old(Value()), Save(user, saved, storeFails, invalidationFails))
    {
      if user == "" || storeFails {
        return false;
      }
      durable := durable[user := saved];
      if !invalidationFails {
        cache := cache - {user};
      }
      return true;
    }

    method IsEventTypeEnabled(user: UserId, t: EventType, readFails: bool, storeFails: bool, writeFails: bool)
      returns (r: Enabled)
      modifies this
      ensures r == EnabledFor(Answer(old(Value()), user, readFails, storeFails), t)
      ensures match Answer(old(Value()), user, readFails, storeFails)
        case NotFound => r == Yes
        case StoreError => r == Error
        case Found(p) => r == if p.globalEnabled && (t !in p.eventTypes || p.eventTypes[t]) then Yes else No
      ensures Value() == Next(old(Value()), Get(user, readFails, storeFails, writeFails))
    {
      var answer := GetPreferences(user, readFails, storeFails, writeFails);
      if answer.NotFound? {
        return Yes;
      }
      if answer.StoreError? {
        return Error;
      }
      if !answer.prefs.globalEnabled {
        return No;
      }
      if t in answer.prefs.eventTypes {
        return if answer.prefs.eventTypes[t] then Yes else No;
      }
      return Yes;
    }
  }
}
