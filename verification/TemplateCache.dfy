/** localization.go's compiled-template cache. Compiling is an arbitrary function of the source
    that may fail; sources change whenever templates are registered again, so each lookup comes
    with its own. */
module TemplateCache {
  datatype Option<T> = None | Some(value: T)

  /** Source text and compiled form are opaque to the cache. */
  type Source = string
  type Compiled = nat
  type Compiler = Source -> Option<Compiled>

  datatype Entry = Entry(source: Source, compiled: Compiled)

  /** Different pairs may share a key: ("a:b", "c") and ("a", "b:c") do. */
  function Key(eventType: string, locale: string): string { eventType + ":" + locale }

  /** A caller between its lookup and its store, both of which lock on their own. */
  datatype Pc = Idle | Storing(key: string, entry: Entry)

  datatype State = State(cache: map<string, Entry>, pcs: map<nat, Pc>)

  datatype Step = Lookup(g: nat, eventType: string, locale: string, source: Source) | Store(g: nat)

  ghost predicate CanStep(s: State, step: Step) {
    match step
    case Lookup(g, _, _, _) => g in s.pcs && s.pcs[g].Idle?
    case Store(g) => g in s.pcs && s.pcs[g].Storing?
  }

  predicate Hit(cache: map<string, Entry>, key: string, source: Source) { key in cache && cache[key].source == source }

  /** What getCompiled returns; every case is decided by the lookup. */
  function Returned(
    compile: Compiler, cache: map<string, Entry>, eventType: string, locale: string, source: Source): Option<Compiled> {
    var key := Key(eventType, locale);
    if Hit(cache, key, source) then Some(cache[key].compiled) else compile(source)
  }

  function Next(compile: Compiler, s: State, step: Step): State {
    match step
    case Lookup(g, eventType, locale, source) =>
      var key := Key(eventType, locale);
      if Hit(s.cache, key, source) || compile(source).None? then s
      else s.(pcs := s.pcs[g := Storing(key, Entry(source, compile(source).value))])
    case Store(g) =>
      if g in s.pcs && s.pcs[g].Storing? then
        s.(cache := s.cache[s.pcs[g].key := s.pcs[g].entry], pcs := s.pcs[g := Idle])
      else s
  }

  ghost predicate Faithful(compile: Compiler, e: Entry) { compile(e.source) == Some(e.compiled) }

  ghost predicate Inv(compile: Compiler, s: State) {
    && (forall key | key in s.cache :: Faithful(compile, s.cache[key]))
    && (forall g | g in s.pcs && s.pcs[g].Storing? :: Faithful(compile, s.pcs[g].entry))
  }

  ghost predicate StepAt(compile: Compiler, states: seq<State>, steps: seq<Step>, i: nat)
    requires i < |steps| && |states| == |steps| + 1
  {
    CanStep(states[i], steps[i]) && states[i + 1] == Next(compile, states[i], steps[i])
  }

  ghost predicate IsRun(compile: Compiler, states: seq<State>, steps: seq<Step>) {
    && |states| == |steps| + 1
    && states[0].cache == map[] && (forall g | g in states[0].pcs :: states[0].pcs[g].Idle?)
    && forall i | 0 <= i < |steps| :: StepAt(compile, states, steps, i)
  }

  /** Every entry, stored or about to be, is the compiled form of its own source; so no failed
      compile is ever cached. */
  lemma {:induction false} EntriesAreFaithful(compile: Compiler, states: seq<State>, steps: seq<Step>, i: nat)
    requires IsRun(compile, states, steps) && i < |states|
    ensures Inv(compile, states[i])
  {
    if i > 0 {
      EntriesAreFaithful(compile, states, steps, i - 1);
      assert StepAt(compile, states, steps, i - 1);
    }
  }

  /** Under any interleaving of lookups, stores and re-registrations, and despite shared keys,
      getCompiled answers what compiling the given source afresh would. */
  lemma CacheIsInvisible(compile: Compiler, states: seq<State>, steps: seq<Step>, i: nat)
    requires IsRun(compile, states, steps) && i < |steps| && steps[i].Lookup?
    ensures Returned(compile, states[i].cache, steps[i].eventType, steps[i].locale, steps[i].source)
      == compile(steps[i].source)
  {
    EntriesAreFaithful(compile, states, steps, i);
  }

  /** No store for the key between two states. */
  ghost predicate NoStore(states: seq<State>, steps: seq<Step>, key: string, i: nat, j: nat) {
    forall k | i <= k < j && k < |steps| && k < |states| && steps[k].Store? && steps[k].g in states[k].pcs
      && states[k].pcs[steps[k].g].Storing? :: states[k].pcs[steps[k].g].key != key
  }

  /** What is stored stays until something else is stored under its key; until then a lookup of the
      same source hits, and does not compile. */
  lemma {:induction false} StoredIsReused(
    compile: Compiler, states: seq<State>, steps: seq<Step>, i: nat, j: nat, key: string)
    requires IsRun(compile, states, steps) && i <= j < |states| && key in states[i].cache
    requires NoStore(states, steps, key, i, j)
    ensures Hit(states[j].cache, key, states[i].cache[key].source)
    ensures key in states[j].cache && states[j].cache[key] == states[i].cache[key]
  {
    if i < j {
      StoredIsReused(compile, states, steps, i, j - 1, key);
      assert StepAt(compile, states, steps, j - 1);
    }
  }

  /** A store puts there what its lookup compiled. */
  lemma StoreKeepsEntry(compile: Compiler, states: seq<State>, steps: seq<Step>, i: nat)
    requires IsRun(compile, states, steps) && i < |steps| && steps[i].Store?
    ensures steps[i].g in states[i].pcs && states[i].pcs[steps[i].g].Storing?
    ensures var pc := states[i].pcs[steps[i].g]; Hit(states[i + 1].cache, pc.key, pc.entry.source)
  {
    assert StepAt(compile, states, steps, i);
  }

  /** A lookup that compiles goes on to store, under the key of its pair. */
  lemma CompiledIsStored(compile: Compiler, states: seq<State>, steps: seq<Step>, i: nat)
    requires IsRun(compile, states, steps) && i < |steps| && steps[i].Lookup? && compile(steps[i].source).Some?
    requires var key := steps[i].eventType + ":" + steps[i].locale;
      !(key in states[i].cache && states[i].cache[key].source == steps[i].source)
    ensures steps[i].g in states[i + 1].pcs
    ensures states[i + 1].pcs[steps[i].g]
      == Storing(steps[i].eventType + ":" + steps[i].locale, Entry(steps[i].source, compile(steps[i].source).value))
  {
    assert StepAt(compile, states, steps, i);
  }

  class LocalizedTemplateEngine {
    var cache: map<string, Entry>

    ghost predicate Valid(compile: Compiler)
      reads this
    {
      forall key | key in cache :: Faithful(compile, cache[key])
    }

    constructor ()
      ensures cache == map[]
    {
      cache := map[];
    }

    /** One whole getCompiled. */
    method GetCompiled(compile: Compiler, eventType: string, locale: string, source: Source)
      returns (r: Option<Compiled>, compiles: bool)
      requires Valid(compile)
      modifies this
      ensures Valid(compile) && r == compile(source)
      ensures var key := eventType + ":" + locale;
        compiles <==> !(key in old(cache) && old(cache)[key].source == source)
      ensures cache == if r.Some? then old(cache)[Key(eventType, locale) := Entry(source, r.value)] else old(cache)
    {
      var key := Key(eventType, locale);
      if key in cache && cache[key].source == source {
        assert Faithful(compile, cache[key]);
        assert cache[key := cache[key]] == cache;
        return Some(cache[key].compiled), false;
      }
      r, compiles := compile(source), true;
      if r.None? {
        return;
      }
      cache := cache[key := Entry(source, r.value)];
    }
  }
}
