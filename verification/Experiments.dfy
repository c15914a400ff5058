/** experiment.go and cache.experiment.go: weighted bucketing, and the two assignment caches that
    must never show. MD5 is an arbitrary function from keys to 32-bit numbers. */
module Experiments {
  const TWO_32: nat := 0x1_0000_0000

  datatype Variant = Variant(id: string, weight: int)

  /** What the first four bytes of a digest hold. */
  type Word = x: int | 0 <= x < 0x1_0000_0000

  type Hash = string -> Word

  // ---------------------------------------------------------------- bucketing

  /** A weight that is not positive counts as 1. */
  function Weight(v: Variant): (w: nat)
    ensures w >= 1
  {
    if v.weight <= 0 then 1 else v.weight
  }

  /** The weights of the first i variants together. */
  function Prefix(vs: seq<Variant>, i: nat): (sum: nat)
    requires i <= |vs|
    ensures sum >= i
  {
    if i == 0 then 0 else Prefix(vs, i - 1) + Weight(vs[i - 1])
  }

  function Total(vs: seq<Variant>): nat { Prefix(vs, |vs|) }

  /** uint32(totalWeight): the number of buckets the code uses. */
  function Buckets(vs: seq<Variant>): nat { Total(vs) % TWO_32 }

  lemma BucketBelowTotal(total: nat, hash: nat)
    requires total % TWO_32 > 0
    ensures hash % (total % TWO_32) < total
  {
  }

  function BucketFor(vs: seq<Variant>, h: Word): (b: nat)
    requires Buckets(vs) > 0
    ensures b < Total(vs)
  {
    BucketBelowTotal(Total(vs), h);
    h % Buckets(vs)
  }

  ghost predicate Holds(vs: seq<Variant>, bucket: nat, i: nat) {
    i < |vs| && Prefix(vs, i) <= bucket < Prefix(vs, i + 1)
  }

  lemma {:induction false} PrefixGrows(vs: seq<Variant>, i: nat, j: nat)
    requires i <= j <= |vs|
    ensures Prefix(vs, i) <= Prefix(vs, j)
    ensures i < j ==> Prefix(vs, i + 1) <= Prefix(vs, j)
  {
    if i < j { PrefixGrows(vs, i, j - 1); }
  }

  lemma OneIntervalHolds(vs: seq<Variant>, bucket: nat, i: nat, j: nat)
    requires Holds(vs, bucket, i) && Holds(vs, bucket, j)
    ensures i == j
  {
    if i < j { PrefixGrows(vs, i, j); }
    if j < i { PrefixGrows(vs, j, i); }
  }

  datatype Picking = Panic | Chosen(variant: Variant, index: nat)

  /** deterministicPick: the one variant whose prefix-sum interval holds the bucket. The remainder
      by uint32(totalWeight) panics when that is zero. */
  method DeterministicPick(vs: seq<Variant>, hash: Word) returns (p: Picking)
    requires vs != []
    ensures p.Panic? <==> Buckets(vs) == 0
    ensures p.Chosen? ==> p.index < |vs| && p.variant == vs[p.index] && Holds(vs, BucketFor(vs, hash), p.index)
    ensures p.Chosen? ==> forall j: nat | Holds(vs, BucketFor(vs, hash), j) :: j == p.index
    ensures p.Chosen? && Total(vs) < TWO_32 ==> Holds(vs, hash % Total(vs), p.index)
  {
    var totalWeight := TotalWeight(vs);
    if totalWeight % TWO_32 == 0 {
      return Panic;
    }
    var bucket := hash % (totalWeight % TWO_32);
    BucketBelowTotal(totalWeight, hash);
    var index := VariantAt(vs, bucket);
    if Total(vs) < TWO_32 { SmallTotal(Total(vs)); }
    return Chosen(vs[index], index);
  }

  /** The first loop. */
  method TotalWeight(vs: seq<Variant>) returns (totalWeight: nat)
    ensures totalWeight == Total(vs)
  {
    totalWeight := 0;
    for i := 0 to |vs|
      invariant totalWeight == Prefix(vs, i)
    {
      var w := vs[i].weight;
      if w <= 0 {
        w := 1;
      }
      totalWeight := totalWeight + w;
    }
  }

  /** The second loop; the return after it is never reached. */
  method VariantAt(vs: seq<Variant>, bucket: nat) returns (index: nat)
    requires bucket < Total(vs)
    ensures Holds(vs, bucket, index) && forall j: nat | Holds(vs, bucket, j) :: j == index
  {
    index := |vs| - 1;
    var cumulative := 0;
    for i := 0 to |vs|
      invariant cumulative == Prefix(vs, i) <= bucket
    {
      var w := vs[i].weight;
      if w <= 0 {
        w := 1;
      }
      cumulative := cumulative + w;
      if bucket < cumulative {
        assert Holds(vs, bucket, i);
        forall j: nat | Holds(vs, bucket, j) ensures j == i { OneIntervalHolds(vs, bucket, i, j); }
        return i;
      }
    }
    assert false;
  }

  lemma SmallTotal(total: nat)
    requires total < TWO_32
    ensures total % TWO_32 == total
  {
  }

  /** The pick as a function of the bucket. */
  function PickIndex(vs: seq<Variant>, bucket: nat): (i: nat)
    requires bucket < Total(vs)
    ensures Holds(vs, bucket, i)
  {
    PickFrom(vs, bucket, |vs|)
  }

  function PickFrom(vs: seq<Variant>, bucket: nat, n: nat): (i: nat)
    requires n <= |vs| && bucket < Prefix(vs, n)
    ensures i < n && Prefix(vs, i) <= bucket < Prefix(vs, i + 1)
  {
    if Prefix(vs, n - 1) <= bucket then n - 1 else PickFrom(vs, bucket, n - 1)
  }

  /** The buckets in use that lead to variant i. */
  ghost function BucketsOf(vs: seq<Variant>, i: nat): set<nat>
    requires i < |vs| && Buckets(vs) <= Total(vs)
  {
    set b: nat | b < Buckets(vs) && PickIndex(vs, b) == i
  }

  predicate Between(lo: nat, hi: nat, b: nat) { lo <= b < hi }

  ghost function Interval(lo: nat, hi: nat): set<nat> { set b: nat | b < hi && Between(lo, hi, b) }

  lemma {:induction false} IntervalSize(lo: nat, hi: nat)
    requires lo <= hi
    ensures |Interval(lo, hi)| == hi - lo
  {
    if lo < hi {
      IntervalSize(lo, hi - 1);
      assert Interval(lo, hi) == Interval(lo, hi - 1) + {hi - 1};
    }
  }

  function Min(a: nat, b: nat): nat { if a <= b then a else b }

  lemma BucketsAreInterval(vs: seq<Variant>, i: nat)
    requires i < |vs| && Buckets(vs) <= Total(vs)
    ensures BucketsOf(vs, i) == Interval(Prefix(vs, i), Min(Prefix(vs, i + 1), Buckets(vs)))
  {
    forall b: nat | b < Buckets(vs) ensures PickIndex(vs, b) == i <==> Prefix(vs, i) <= b < Prefix(vs, i + 1) {
      if Prefix(vs, i) <= b < Prefix(vs, i + 1) { OneIntervalHolds(vs, b, i, PickIndex(vs, b)); }
    }
  }

  /** Every variant gets as many buckets as its effective weight. */
  ghost predicate Fair(vs: seq<Variant>)
    requires Buckets(vs) <= Total(vs)
  {
    forall i | 0 <= i < |vs| :: |BucketsOf(vs, i)| == if vs[i].weight <= 0 then 1 else vs[i].weight
  }

  /** Bucketing is fair exactly when the total weight fits in 32 bits. Above that uint32 cuts the
      range short and the variant holding the first missing bucket is short-changed. */
  lemma FairExactlyWithin32Bits(vs: seq<Variant>)
    requires vs != []
    ensures Buckets(vs) <= Total(vs)
    ensures Fair(vs) <==> Total(vs) < TWO_32
  {
    if Total(vs) < TWO_32 {
      assert Buckets(vs) == Total(vs);
      forall i | 0 <= i < |vs| ensures |BucketsOf(vs, i)| == Weight(vs[i]) {
        BucketsAreInterval(vs, i);
        PrefixGrows(vs, i + 1, |vs|);
        IntervalSize(Prefix(vs, i), Prefix(vs, i + 1));
      }
    } else {
      var cut := Buckets(vs);
      var i := PickIndex(vs, cut);
      BucketsAreInterval(vs, i);
      IntervalSize(Prefix(vs, i), cut);
      assert |BucketsOf(vs, i)| < Weight(vs[i]);
    }
  }

  /** The hashes that fall into the buckets from lo up to hi. */
  ghost function HashesInto(m: nat, lo: nat, hi: nat, n: nat): set<nat>
    requires m > 0
  {
    set h: nat | h < n && Between(lo, hi, h % m)
  }

  lemma DivStep(n: nat, m: nat)
    requires m > 0
    ensures if n % m == m - 1 then (n + 1) / m == n / m + 1 && (n + 1) % m == 0
            else (n + 1) / m == n / m && (n + 1) % m == n % m + 1
  {
    var q, r := n / m, n % m;
    assert n == q * m + r;
    if r == m - 1 {
      QuotientOf(n + 1, m, q + 1, 0);
    } else {
      QuotientOf(n + 1, m, q, r + 1);
    }
  }

  lemma QuotientOf(n: nat, m: nat, q: nat, r: nat)
    requires m > 0 && r < m && n == q * m + r
    ensures n / m == q && n % m == r
  {
    var d := n / m - q;
    assert m * d == r - n % m;
    assert d >= 1 ==> m * d >= m;
    assert d <= -1 ==> m * d <= -1 * m;
  }

  /** Of the first n hashes each bucket gets n / m, the first n % m of them one more. */
  lemma {:induction false} BucketShare(m: nat, b: nat, n: nat)
    requires b < m
    ensures |HashesInto(m, b, b + 1, n)| == n / m + (if b < n % m then 1 else 0)
  {
    if n == 0 {
      QuotientOf(0, m, 0, 0);
      assert HashesInto(m, b, b + 1, n) == {};
    } else {
      BucketShare(m, b, n - 1);
      DivStep(n - 1, m);
      var here := if (n - 1) % m == b then {n - 1} else {};
      assert HashesInto(m, b, b + 1, n) == HashesInto(m, b, b + 1, n - 1) + here;
    }
  }

  lemma {:induction false} IntervalShare(m: nat, lo: nat, hi: nat, n: nat)
    requires lo <= hi <= m && m > 0
    ensures (hi - lo) * (n / m) <= |HashesInto(m, lo, hi, n)| <= (hi - lo) * (n / m + 1)
  {
    if lo == hi {
      assert HashesInto(m, lo, hi, n) == {};
    } else {
      IntervalShare(m, lo, hi - 1, n);
      BucketShare(m, hi - 1, n);
      HashesSplit(m, lo, hi, n);
      OneMoreShare(hi - 1 - lo, n / m);
    }
  }

  lemma HashesSplit(m: nat, lo: nat, hi: nat, n: nat)
    requires lo < hi && m > 0
    ensures |HashesInto(m, lo, hi, n)| == |HashesInto(m, lo, hi - 1, n)| + |HashesInto(m, hi - 1, hi, n)|
  {
    var before, last := HashesInto(m, lo, hi - 1, n), HashesInto(m, hi - 1, hi, n);
    assert HashesInto(m, lo, hi, n) == before + last && before !! last;
  }

  lemma OneMoreShare(k: nat, q: nat)
    ensures (k + 1) * q == k * q + q && (k + 1) * (q + 1) == k * (q + 1) + q + 1
  {
  }

  /** The hashes that pick variant i. */
  ghost function HashesPicking(vs: seq<Variant>, i: nat): set<nat>
    requires Buckets(vs) > 0
  {
    set h: nat | h < TWO_32 && PickIndex(vs, BucketFor(vs, h)) == i
  }

  /** Of the 2^32 hashes every variant gets its weight's share, to within one per unit of weight. */
  lemma VariantShare(vs: seq<Variant>, i: nat)
    requires i < |vs| && Total(vs) < TWO_32
    ensures Buckets(vs) > 0
    ensures var w, q := if vs[i].weight <= 0 then 1 else vs[i].weight, TWO_32 / Total(vs);
      w * q <= |HashesPicking(vs, i)| <= w * (q + 1)
  {
    var m, lo, hi := Total(vs), Prefix(vs, i), Prefix(vs, i + 1);
    PrefixGrows(vs, i + 1, |vs|);
    SmallTotal(m);
    forall h: nat | h < TWO_32 ensures h in HashesPicking(vs, i) <==> h in HashesInto(m, lo, hi, TWO_32) {
      var b := BucketFor(vs, h);
      if Between(lo, hi, b) { OneIntervalHolds(vs, b, i, PickIndex(vs, b)); }
    }
    assert HashesPicking(vs, i) == HashesInto(m, lo, hi, TWO_32);
    IntervalShare(m, lo, hi, TWO_32);
  }

  /** Weight 2^32 leaves no bucket, and the pick panics; 2^32 and 1 leave one bucket, for the first
      variant, and none for the second. */
  lemma OverweightLists()
    ensures Buckets([Variant("a", TWO_32)]) == 0
    ensures var vs := [Variant("a", TWO_32), Variant("b", 1)];
      Buckets(vs) == 1 && BucketsOf(vs, 0) == {0} && BucketsOf(vs, 1) == {}
  {
    assert Total([Variant("a", TWO_32)]) == Prefix([Variant("a", TWO_32)], 0) + TWO_32;
    var vs := [Variant("a", TWO_32), Variant("b", 1)];
    assert Prefix(vs, 0) == 0 && Prefix(vs, 1) == TWO_32 && Prefix(vs, 2) == TWO_32 + 1;
    BucketsAreInterval(vs, 0);
    BucketsAreInterval(vs, 1);
    assert Interval(0, 1) == {0} by { assert Between(0, 1, 0); }
  }

  // ---------------------------------------------------------------- keys

  function Key(user: string, experiment: string): string { user + ":" + experiment }

  predicate NoColon(s: string) { ':' !in s }

  /** The users that calls are made for; the experiments are those of the registry. */
  type Users = iset<string>

  /** Which variants each experiment ID carries, in a run where that does not change. */
  type Registry = map<string, seq<Variant>>

  /** A key names one pair. */
  ghost predicate KeysNamePairs(registry: Registry, users: Users) {
    forall u, e, v, f | u in users && v in users && e in registry && f in registry && Key(u, e) == Key(v, f) ::
      u == v && e == f
  }

  lemma SameSplit(u: string, e: string, v: string, f: string)
    requires Key(u, e) == Key(v, f) && |u| == |v|
    ensures u == v && e == f
  {
    assert u == Key(u, e)[..|u|] && v == Key(v, f)[..|v|];
    assert e == Key(u, e)[|u| + 1..] && f == Key(v, f)[|v| + 1..];
  }

  /** Where one split has its ':', the longer user or the longer experiment ID has one too. */
  lemma ColonInside(u: string, e: string, v: string, f: string)
    requires Key(u, e) == Key(v, f) && |u| < |v|
    ensures !NoColon(v) && !NoColon(e)
  {
    assert Key(u, e)[|u|] == ':' && Key(v, f)[|u|] == v[|u|];
    assert Key(v, f)[|v|] == ':' && Key(u, e)[|v|] == e[|v| - |u| - 1];
  }

  /** Enough for that: no user, or no experiment ID, contains ':'. */
  lemma ColonFreeKeysNamePairs(registry: Registry, users: Users)
    requires (forall u | u in users :: NoColon(u)) || (forall e | e in registry :: NoColon(e))
    ensures KeysNamePairs(registry, users)
  {
    forall u, e, v, f | u in users && v in users && e in registry && f in registry && Key(u, e) == Key(v, f)
      ensures u == v && e == f
    {
      if |u| < |v| { ColonInside(u, e, v, f); }
      if |v| < |u| { ColonInside(v, f, u, e); }
      SameSplit(u, e, v, f);
    }
  }

  // ---------------------------------------------------------------- the in-process engine

  ghost predicate Sound(registry: Registry) {
    forall e | e in registry :: registry[e] != [] && Buckets(registry[e]) > 0
  }

  /** deterministicPick for a user. */
  function Pick(hash: Hash, registry: Registry, user: string, e: string): Variant
    requires e in registry && Buckets(registry[e]) > 0
  {
    var vs := registry[e];
    vs[PickIndex(vs, BucketFor(vs, hash(Key(user, e))))]
  }

  /** Pairs that share a key have the same pick. */
  ghost predicate PicksAgree(hash: Hash, registry: Registry, users: Users)
    requires Sound(registry)
  {
    forall u, e, v, f | u in users && v in users && e in registry && f in registry && Key(u, e) == Key(v, f) ::
      Pick(hash, registry, u, e) == Pick(hash, registry, v, f)
  }

  lemma NamedPairsAgree(hash: Hash, registry: Registry, users: Users)
    requires Sound(registry) && KeysNamePairs(registry, users)
    ensures PicksAgree(hash, registry, users)
  {
  }

  /** Whether what is stored under key is right for every pair the key can stand for. */
  ghost predicate Right(hash: Hash, registry: Registry, users: Users, key: string, v: Variant)
    requires Sound(registry)
  {
    forall u, e | u in users && e in registry && Key(u, e) == key :: v == Pick(hash, registry, u, e)
  }

  /** What a goroutine still owes after leaving the critical section. */
  datatype Pc = Idle | Publishing(user: string, experiment: string)

  /** deterministicExperimentEngine among concurrent callers. */
  datatype Engine = Engine(assignments: map<string, Variant>, pcs: map<nat, Pc>, published: seq<(string, string)>)

  datatype EngineStep = Assign(g: nat, user: string, experiment: string) | PublishStep(g: nat)

  ghost predicate CanStep(registry: Registry, users: Users, s: Engine, step: EngineStep) {
    match step
    case Assign(g, user, e) => g in s.pcs && s.pcs[g].Idle? && user in users && e in registry
    case PublishStep(g) => g in s.pcs && s.pcs[g].Publishing?
  }

  /** What AssignVariant returns: the stored variant, or the pick it has just stored. */
  function Returned(hash: Hash, registry: Registry, s: Engine, user: string, e: string): Variant
    requires e in registry && Buckets(registry[e]) > 0
  {
    if Key(user, e) in s.assignments then s.assignments[Key(user, e)] else Pick(hash, registry, user, e)
  }

  function Next(hash: Hash, registry: Registry, s: Engine, step: EngineStep): Engine {
    match step
    case Assign(g, user, e) =>
      if Key(user, e) in s.assignments || e !in registry || Buckets(registry[e]) == 0 then s
      else s.(assignments := s.assignments[Key(user, e) := Pick(hash, registry, user, e)],
              pcs := s.pcs[g := Publishing(user, e)])
    case PublishStep(g) =>
      if g in s.pcs && s.pcs[g].Publishing? then
        s.(pcs := s.pcs[g := Idle], published := s.published + [(s.pcs[g].user, s.pcs[g].experiment)])
      else s
  }

  ghost predicate StepAt(
    hash: Hash, registry: Registry, users: Users, states: seq<Engine>, steps: seq<EngineStep>, i: nat)
    requires i < |steps| && |states| == |steps| + 1
  {
    CanStep(registry, users, states[i], steps[i]) && states[i + 1] == Next(hash, registry, states[i], steps[i])
  }

  ghost predicate AtRest(s: Engine) { forall g | g in s.pcs :: s.pcs[g].Idle? }

  ghost predicate IsRun(hash: Hash, registry: Registry, users: Users, states: seq<Engine>, steps: seq<EngineStep>) {
    && |states| == |steps| + 1
    && states[0].assignments == map[] && states[0].published == [] && AtRest(states[0])
    && forall i | 0 <= i < |steps| :: StepAt(hash, registry, users, states, steps, i)
  }

  // what is returned

  ghost predicate StoredRight(hash: Hash, registry: Registry, users: Users, s: Engine)
    requires Sound(registry)
  {
    forall key | key in s.assignments :: Right(hash, registry, users, key, s.assignments[key])
  }

  lemma {:induction false} StoredStaysRight(
    hash: Hash, registry: Registry, users: Users, states: seq<Engine>, steps: seq<EngineStep>, i: nat)
    requires Sound(registry) && PicksAgree(hash, registry, users)
    requires IsRun(hash, registry, users, states, steps) && i < |states|
    ensures StoredRight(hash, registry, users, states[i])
  {
    for k := 0 to i
      invariant StoredRight(hash, registry, users, states[k])
    {
      StoredRightNext(hash, registry, users, states, steps, k);
    }
  }

  lemma StoredRightNext(
    hash: Hash, registry: Registry, users: Users, states: seq<Engine>, steps: seq<EngineStep>, i: nat)
    requires Sound(registry) && PicksAgree(hash, registry, users)
    requires IsRun(hash, registry, users, states, steps) && i < |steps|
    requires StoredRight(hash, registry, users, states[i])
    ensures StoredRight(hash, registry, users, states[i + 1])
  {
    assert StepAt(hash, registry, users, states, steps, i);
    StepStoresRight(hash, registry, users, states[i], steps[i]);
  }

  lemma StepStoresRight(hash: Hash, registry: Registry, users: Users, s: Engine, step: EngineStep)
    requires Sound(registry) && PicksAgree(hash, registry, users)
    requires StoredRight(hash, registry, users, s) && CanStep(registry, users, s, step)
    ensures StoredRight(hash, registry, users, Next(hash, registry, s, step))
  {
    if step.Assign? { PickIsRight(hash, registry, users, step.user, step.experiment); }
  }

  lemma PickIsRight(hash: Hash, registry: Registry, users: Users, user: string, e: string)
    requires Sound(registry) && PicksAgree(hash, registry, users) && user in users && e in registry
    ensures Right(hash, registry, users, Key(user, e), Pick(hash, registry, user, e))
  {
  }

  ghost predicate ReturnsPick(hash: Hash, registry: Registry, s: Engine, step: EngineStep)
    requires Sound(registry)
  {
    step.Assign? && step.experiment in registry ==>
      Returned(hash, registry, s, step.user, step.experiment) == Pick(hash, registry, step.user, step.experiment)
  }

  /** Every call of every run returns the pure pick. */
  ghost predicate AlwaysPick(hash: Hash, registry: Registry, users: Users)
    requires Sound(registry)
  {
    forall states, steps, i: nat | IsRun(hash, registry, users, states, steps) && i < |steps| ::
      ReturnsPick(hash, registry, states[i], steps[i])
  }

  /** Under any interleaving every AssignVariant returns the pure pick, exactly when pairs that
      share a key have the same pick. */
  lemma AlwaysPickExactlyWhenPicksAgree(hash: Hash, registry: Registry, users: Users)
    requires Sound(registry)
    ensures AlwaysPick(hash, registry, users) <==> PicksAgree(hash, registry, users)
  {
    if PicksAgree(hash, registry, users) {
      forall states, steps, i: nat | IsRun(hash, registry, users, states, steps) && i < |steps|
        ensures ReturnsPick(hash, registry, states[i], steps[i])
      {
        StoredStaysRight(hash, registry, users, states, steps, i);
        assert StepAt(hash, registry, users, states, steps, i);
      }
    } else {
      var u, e, v, f :| u in users && v in users && e in registry && f in registry && Key(u, e) == Key(v, f)
        && Pick(hash, registry, u, e) != Pick(hash, registry, v, f);
      var states, steps := AliasedRun(hash, registry, users, u, e, v, f);
      assert !ReturnsPick(hash, registry, states[2], steps[2]);
    }
  }

  /** The run in which a second pair finds the first one's assignment under the key they share. */
  lemma AliasedRun(hash: Hash, registry: Registry, users: Users, u: string, e: string, v: string, f: string)
    returns (states: seq<Engine>, steps: seq<EngineStep>)
    requires Sound(registry) && u in users && v in users && e in registry && f in registry && Key(u, e) == Key(v, f)
    ensures IsRun(hash, registry, users, states, steps) && |steps| == 3 && steps[2] == Assign(0, v, f)
    ensures Returned(hash, registry, states[2], v, f) == Pick(hash, registry, u, e)
    ensures AtRest(states[3]) && states[3].published == [(u, e)]
  {
    var s0 := Engine(map[], map[0 := Idle], []);
    var s1 := Next(hash, registry, s0, Assign(0, u, e));
    var s2 := Next(hash, registry, s1, PublishStep(0));
    states, steps := [s0, s1, s2, s2], [Assign(0, u, e), PublishStep(0), Assign(0, v, f)];
    assert s1.pcs[0] == Publishing(u, e) && s2.pcs[0] == Idle;
    assert StepAt(hash, registry, users, states, steps, 0);
    assert StepAt(hash, registry, users, states, steps, 1);
    assert StepAt(hash, registry, users, states, steps, 2);
  }

  /** Two caller-side guarantees, either of which is enough. */
  lemma ColonFreeAlwaysPicks(hash: Hash, registry: Registry, users: Users)
    requires Sound(registry)
    requires (forall u | u in users :: NoColon(u)) || (forall e | e in registry :: NoColon(e))
    ensures AlwaysPick(hash, registry, users) && CacheAlwaysPicks(hash, registry, users)
  {
    ColonFreeKeysNamePairs(registry, users);
    NamedPairsAgree(hash, registry, users);
    AlwaysPickExactlyWhenPicksAgree(hash, registry, users);
    CacheAlwaysPicksExactlyWhenPicksAgree(hash, registry, users);
  }

  /** And where neither holds: after ("a:b", "c") is assigned, ("a", "b:c") is served the other
      experiment's variant. */
  lemma AliasedKeyServesWrongVariant(hash: Hash, left: Variant, right: Variant)
    requires left != right && left.weight == right.weight == 1
    ensures var registry := map["c" := [left], "b:c" := [right]];
      Sound(registry) && !AlwaysPick(hash, registry, iset{"a:b", "a"})
  {
    var registry, users := map["c" := [left], "b:c" := [right]], iset{"a:b", "a"};
    assert Prefix([left], 1) == 1 && Prefix([right], 1) == 1;
    assert Key("a:b", "c") == "a:b:c" == Key("a", "b:c");
    assert Pick(hash, registry, "a:b", "c") == left && Pick(hash, registry, "a", "b:c") == right;
    AlwaysPickExactlyWhenPicksAgree(hash, registry, users);
  }

  // what is published

  ghost function Owing(s: Engine, user: string, e: string): set<nat> {
    set g | g in s.pcs && s.pcs[g] == Publishing(user, e)
  }

  /** Publishes made plus publishes owed: one for an assigned pair, none otherwise. */
  ghost predicate OncePerPair(s: Engine, user: string, e: string) {
    multiset(s.published)[(user, e)] + |Owing(s, user, e)| == if Key(user, e) in s.assignments then 1 else 0
  }

  ghost predicate PublishInv(registry: Registry, users: Users, s: Engine) {
    forall u, e | u in users && e in registry :: OncePerPair(s, u, e)
  }

  lemma OwingAfter(s: Engine, s': Engine, g: nat, user: string, e: string)
    requires g in s.pcs && s'.pcs.Keys == s.pcs.Keys && forall h | h in s.pcs && h != g :: s'.pcs[h] == s.pcs[h]
    ensures |Owing(s', user, e)| + (if s.pcs[g] == Publishing(user, e) then 1 else 0)
      == |Owing(s, user, e)| + (if s'.pcs[g] == Publishing(user, e) then 1 else 0)
  {
    OwingElsewhere(s, s', g, user, e);
    WithOrWithout(Owing(s, user, e), g);
    WithOrWithout(Owing(s', user, e), g);
  }

  lemma OwingElsewhere(s: Engine, s': Engine, g: nat, user: string, e: string)
    requires g in s.pcs && s'.pcs.Keys == s.pcs.Keys && forall h | h in s.pcs && h != g :: s'.pcs[h] == s.pcs[h]
    ensures Owing(s', user, e) - {g} == Owing(s, user, e) - {g}
  {
    forall h | h != g ensures h in Owing(s', user, e) <==> h in Owing(s, user, e) {}
  }

  lemma WithOrWithout(a: set<nat>, g: nat)
    ensures |a| == |a - {g}| + (if g in a then 1 else 0)
  {
    if g in a { assert a == (a - {g}) + {g}; } else { assert a - {g} == a; }
  }

  lemma StepKeepsPublishInv(hash: Hash, registry: Registry, users: Users, s: Engine, step: EngineStep)
    requires Sound(registry) && KeysNamePairs(registry, users)
    requires PublishInv(registry, users, s) && CanStep(registry, users, s, step)
    ensures PublishInv(registry, users, Next(hash, registry, s, step))
  {
    var s' := Next(hash, registry, s, step);
    forall u, e | u in users && e in registry ensures OncePerPair(s', u, e) {
      assert OncePerPair(s, u, e);
      OwingAfter(s, s', step.g, u, e);
    }
  }

  lemma {:induction false} PublishInvariant(
    hash: Hash, registry: Registry, users: Users, states: seq<Engine>, steps: seq<EngineStep>, i: nat)
    requires Sound(registry) && KeysNamePairs(registry, users)
    requires IsRun(hash, registry, users, states, steps) && i < |states|
    ensures PublishInv(registry, users, states[i])
  {
    if i == 0 {
      forall u, e ensures OncePerPair(states[0], u, e) { assert Owing(states[0], u, e) == {}; }
    } else {
      PublishInvariant(hash, registry, users, states, steps, i - 1);
      assert StepAt(hash, registry, users, states, steps, i - 1);
      StepKeepsPublishInv(hash, registry, users, states[i - 1], steps[i - 1]);
    }
  }

  /** An assignment is never taken back. */
  lemma {:induction false} AssignedStays(
    hash: Hash, registry: Registry, users: Users, states: seq<Engine>, steps: seq<EngineStep>, k: nat, i: nat)
    requires Sound(registry) && IsRun(hash, registry, users, states, steps) && k < i < |states| && steps[k].Assign?
    ensures Key(steps[k].user, steps[k].experiment) in states[i].assignments
  {
    assert StepAt(hash, registry, users, states, steps, i - 1);
    if k < i - 1 { AssignedStays(hash, registry, users, states, steps, k, i - 1); }
  }

  /** If no call is under way at i, the pair asked for at k has been published exactly once. */
  ghost predicate PublishedOnceAt(states: seq<Engine>, steps: seq<EngineStep>, k: nat, i: nat) {
    k < i < |states| && k < |steps| && steps[k].Assign? && AtRest(states[i]) ==>
      multiset(states[i].published)[(steps[k].user, steps[k].experiment)] == 1
  }

  ghost predicate PublishesEachOnce(hash: Hash, registry: Registry, users: Users) {
    forall states, steps, k: nat, i: nat | IsRun(hash, registry, users, states, steps) ::
      PublishedOnceAt(states, steps, k, i)
  }

  /** Publishing is exactly once per pair, exactly when a key names one pair. */
  lemma PublishesOnceExactlyWhenKeysNamePairs(hash: Hash, registry: Registry, users: Users)
    requires Sound(registry)
    ensures PublishesEachOnce(hash, registry, users) <==> KeysNamePairs(registry, users)
  {
    if KeysNamePairs(registry, users) {
      forall states, steps: seq<EngineStep>, k: nat, i: nat | IsRun(hash, registry, users, states, steps)
        ensures PublishedOnceAt(states, steps, k, i)
      {
        if k < i < |states| && steps[k].Assign? && AtRest(states[i]) {
          PublishedOnce(hash, registry, users, states, steps, k, i);
        }
      }
    } else {
      var u, e, v, f :| u in users && v in users && e in registry && f in registry && Key(u, e) == Key(v, f)
        && (u, e) != (v, f);
      var states, steps := AliasedRun(hash, registry, users, u, e, v, f);
      assert !PublishedOnceAt(states, steps, 2, 3);
    }
  }

  lemma PublishedOnce(
    hash: Hash, registry: Registry, users: Users, states: seq<Engine>, steps: seq<EngineStep>, k: nat, i: nat)
    requires Sound(registry) && KeysNamePairs(registry, users) && IsRun(hash, registry, users, states, steps)
    requires k < i < |states| && steps[k].Assign? && AtRest(states[i])
    ensures multiset(states[i].published)[(steps[k].user, steps[k].experiment)] == 1
  {
    var u, e := steps[k].user, steps[k].experiment;
    assert StepAt(hash, registry, users, states, steps, k);
    AssignedStays(hash, registry, users, states, steps, k, i);
    PublishInvariant(hash, registry, users, states, steps, i);
    assert OncePerPair(states[i], u, e);
    assert Owing(states[i], u, e) == {};
  }

  // ---------------------------------------------------------------- the cache-backed engine

  /** A stored entry, decodable or not. */
  datatype Entry = Good(variant: Variant) | Corrupt

  type Cache = map<string, Entry>

  /** Between its cache.Get and cache.Set a caller has picked; after it, it publishes. */
  datatype CachePc = Resting | Picked(user: string, experiment: string) | Announcing(user: string, experiment: string)

  datatype CacheEngine = CacheEngine(cache: Cache, pcs: map<nat, CachePc>, published: seq<(string, string)>)

  /** Read and Write may fail; entries may vanish or rot at any time. */
  datatype CacheStep =
    | Read(g: nat, user: string, experiment: string, fails: bool)
    | Write(g: nat, fails: bool)
    | Announce(g: nat)
    | Evict(key: string)
    | Rot(key: string)

  ghost predicate CanCacheStep(registry: Registry, users: Users, s: CacheEngine, step: CacheStep) {
    match step
    case Read(g, user, e, _) => g in s.pcs && s.pcs[g].Resting? && user in users && e in registry
    case Write(g, _) => g in s.pcs && s.pcs[g].Picked?
    case Announce(g) => g in s.pcs && s.pcs[g].Announcing?
    case Evict(_) => true
    case Rot(_) => true
  }

  predicate Hit(cache: Cache, key: string, fails: bool) { !fails && key in cache && cache[key].Good? }

  /** What a call returns, decided at its read: the decoded entry, or else the pick. */
  function CacheReturned(hash: Hash, registry: Registry, cache: Cache, user: string, e: string, fails: bool): Variant
    requires e in registry && Buckets(registry[e]) > 0
  {
    if Hit(cache, Key(user, e), fails) then cache[Key(user, e)].variant else Pick(hash, registry, user, e)
  }

  /** The cache after a successful write of the pick. */
  function Filled(hash: Hash, registry: Registry, cache: Cache, user: string, e: string): Cache {
    if e in registry && Buckets(registry[e]) > 0 then cache[Key(user, e) := Good(Pick(hash, registry, user, e))]
    else cache
  }

  function CacheNext(hash: Hash, registry: Registry, s: CacheEngine, step: CacheStep): CacheEngine {
    match step
    case Read(g, user, e, fails) =>
      if Hit(s.cache, Key(user, e), fails) then s else s.(pcs := s.pcs[g := Picked(user, e)])
    case Write(g, fails) =>
      if g in s.pcs && s.pcs[g].Picked? then
        var user, e := s.pcs[g].user, s.pcs[g].experiment;
        s.(pcs := s.pcs[g := Announcing(user, e)],
           cache := if fails then s.cache else Filled(hash, registry, s.cache, user, e))
      else s
    case Announce(g) =>
      if g in s.pcs && s.pcs[g].Announcing? then
        s.(pcs := s.pcs[g := Resting], published := s.published + [(s.pcs[g].user, s.pcs[g].experiment)])
      else s
    case Evict(key) => s.(cache := s.cache - {key})
    case Rot(key) => if key in s.cache then s.(cache := s.cache[key := Corrupt]) else s
  }

  ghost predicate CacheStepAt(
    hash: Hash, registry: Registry, users: Users, states: seq<CacheEngine>, steps: seq<CacheStep>, i: nat)
    requires i < |steps| && |states| == |steps| + 1
  {
    && CanCacheStep(registry, users, states[i], steps[i])
    && states[i + 1] == CacheNext(hash, registry, states[i], steps[i])
  }

  ghost predicate CacheAtRest(s: CacheEngine) { forall g | g in s.pcs :: s.pcs[g].Resting? }

  ghost predicate IsCacheRun(
    hash: Hash, registry: Registry, users: Users, states: seq<CacheEngine>, steps: seq<CacheStep>) {
    && |states| == |steps| + 1
    && states[0].cache == map[] && states[0].published == [] && CacheAtRest(states[0])
    && forall i | 0 <= i < |steps| :: CacheStepAt(hash, registry, users, states, steps, i)
  }

  /** Callers under way are callers for known pairs. */
  ghost predicate CallersKnown(registry: Registry, users: Users, s: CacheEngine) {
    forall g | g in s.pcs && !s.pcs[g].Resting? :: s.pcs[g].user in users && s.pcs[g].experiment in registry
  }

  // what is returned

  ghost predicate EntriesRight(hash: Hash, registry: Registry, users: Users, cache: Cache)
    requires Sound(registry)
  {
    forall key | key in cache && cache[key].Good? :: Right(hash, registry, users, key, cache[key].variant)
  }

  ghost predicate CacheInv(hash: Hash, registry: Registry, users: Users, s: CacheEngine)
    requires Sound(registry)
  {
    EntriesRight(hash, registry, users, s.cache) && CallersKnown(registry, users, s)
  }

  lemma CacheStepKeepsInv(hash: Hash, registry: Registry, users: Users, s: CacheEngine, step: CacheStep)
    requires Sound(registry) && PicksAgree(hash, registry, users) && CanCacheStep(registry, users, s, step)
    requires CacheInv(hash, registry, users, s)
    ensures CacheInv(hash, registry, users, CacheNext(hash, registry, s, step))
  {
    if step.Write? { PickIsRight(hash, registry, users, s.pcs[step.g].user, s.pcs[step.g].experiment); }
  }

  lemma CacheInvNext(
    hash: Hash, registry: Registry, users: Users, states: seq<CacheEngine>, steps: seq<CacheStep>, i: nat)
    requires Sound(registry) && PicksAgree(hash, registry, users)
    requires IsCacheRun(hash, registry, users, states, steps) && i < |steps|
    requires CacheInv(hash, registry, users, states[i])
    ensures CacheInv(hash, registry, users, states[i + 1])
  {
    assert CacheStepAt(hash, registry, users, states, steps, i);
    CacheStepKeepsInv(hash, registry, users, states[i], steps[i]);
  }

  lemma {:induction false} CacheInvariant(
    hash: Hash, registry: Registry, users: Users, states: seq<CacheEngine>, steps: seq<CacheStep>, i: nat)
    requires Sound(registry) && PicksAgree(hash, registry, users)
    requires IsCacheRun(hash, registry, users, states, steps) && i < |states|
    ensures CacheInv(hash, registry, users, states[i])
  {
    for k := 0 to i
      invariant CacheInv(hash, registry, users, states[k])
    {
      CacheInvNext(hash, registry, users, states, steps, k);
    }
  }

  ghost predicate CacheReturnsPick(hash: Hash, registry: Registry, s: CacheEngine, step: CacheStep)
    requires Sound(registry)
  {
    step.Read? && step.experiment in registry ==>
      CacheReturned(hash, registry, s.cache, step.user, step.experiment, step.fails)
        == Pick(hash, registry, step.user, step.experiment)
  }

  ghost predicate CacheAlwaysPicks(hash: Hash, registry: Registry, users: Users)
    requires Sound(registry)
  {
    forall states, steps, i: nat | IsCacheRun(hash, registry, users, states, steps) && i < |steps| ::
      CacheReturnsPick(hash, registry, states[i], steps[i])
  }

  /** Whatever misses, errors, evictions, detected corruption and racing writes there are, every
      call returns the pure pick; exactly when pairs that share a key have the same pick. */
  lemma CacheAlwaysPicksExactlyWhenPicksAgree(hash: Hash, registry: Registry, users: Users)
    requires Sound(registry)
    ensures CacheAlwaysPicks(hash, registry, users) <==> PicksAgree(hash, registry, users)
  {
    if PicksAgree(hash, registry, users) {
      forall states, steps, i: nat | IsCacheRun(hash, registry, users, states, steps) && i < |steps|
        ensures CacheReturnsPick(hash, registry, states[i], steps[i])
      {
        CacheInvariant(hash, registry, users, states, steps, i);
        assert CacheStepAt(hash, registry, users, states, steps, i);
      }
    } else {
      var u, e, v, f :| u in users && v in users && e in registry && f in registry && Key(u, e) == Key(v, f)
        && Pick(hash, registry, u, e) != Pick(hash, registry, v, f);
      var states, steps := AliasedCacheRun(hash, registry, users, u, e, v, f);
      assert !CacheReturnsPick(hash, registry, states[3], steps[3]);
    }
  }

  /** One step more. */
  lemma CacheThen(hash: Hash, registry: Registry, users: Users, states: seq<CacheEngine>, steps: seq<CacheStep>,
                  step: CacheStep, next: CacheEngine)
    returns (states': seq<CacheEngine>, steps': seq<CacheStep>)
    requires IsCacheRun(hash, registry, users, states, steps) && CanCacheStep(registry, users, states[|steps|], step)
    requires next == CacheNext(hash, registry, states[|steps|], step)
    ensures IsCacheRun(hash, registry, users, states', steps') && |steps'| == |steps| + 1 && steps'[|steps|] == step
    ensures states'[|steps|] == states[|steps|] && states'[|steps'|] == next
  {
    states', steps' := states + [next], steps + [step];
    forall i | 0 <= i < |steps'| ensures CacheStepAt(hash, registry, users, states', steps', i) {
      if i < |steps| { assert CacheStepAt(hash, registry, users, states, steps, i); }
    }
  }

  lemma AliasedCacheRun(hash: Hash, registry: Registry, users: Users, u: string, e: string, v: string, f: string)
    returns (states: seq<CacheEngine>, steps: seq<CacheStep>)
    requires Sound(registry) && u in users && v in users && e in registry && f in registry && Key(u, e) == Key(v, f)
    ensures IsCacheRun(hash, registry, users, states, steps) && |steps| == 4 && steps[3] == Read(0, v, f, false)
    ensures CacheReturned(hash, registry, states[3].cache, v, f, false) == Pick(hash, registry, u, e)
    ensures CacheAtRest(states[4]) && states[4].published == [(u, e)]
  {
    var filled := Filled(hash, registry, map[], u, e);
    states, steps := [CacheEngine(map[], map[0 := Resting], [])], [];
    states, steps := CacheThen(hash, registry, users, states, steps, Read(0, u, e, false),
                               CacheEngine(map[], map[0 := Picked(u, e)], []));
    states, steps := CacheThen(hash, registry, users, states, steps, Write(0, false),
                               CacheEngine(filled, map[0 := Announcing(u, e)], []));
    states, steps := CacheThen(hash, registry, users, states, steps, Announce(0),
                               CacheEngine(filled, map[0 := Resting], [(u, e)]));
    states, steps := CacheThen(hash, registry, users, states, steps, Read(0, v, f, false),
                               CacheEngine(filled, map[0 := Resting], [(u, e)]));
  }

  // what is published

  predicate Owes(pc: CachePc, user: string, e: string) { pc == Picked(user, e) || pc == Announcing(user, e) }

  /** The pair has been published, or some caller is still about to. */
  ghost predicate PublishedOrOwed(s: CacheEngine, user: string, e: string) {
    (user, e) in s.published || exists g :: g in s.pcs && Owes(s.pcs[g], user, e)
  }

  lemma OwedStays(
    hash: Hash, registry: Registry, users: Users, s: CacheEngine, step: CacheStep, user: string, e: string)
    requires CanCacheStep(registry, users, s, step) && PublishedOrOwed(s, user, e)
    ensures PublishedOrOwed(CacheNext(hash, registry, s, step), user, e)
  {
    var s' := CacheNext(hash, registry, s, step);
    if (user, e) in s.published {
      assert (user, e) in s'.published;
    } else {
      var g :| g in s.pcs && Owes(s.pcs[g], user, e);
      if step == Announce(g) {
        assert s'.published[|s.published|] == (user, e);
      } else {
        assert g in s'.pcs && Owes(s'.pcs[g], user, e);
      }
    }
  }

  /** Every decodable entry's pair is published or owed. */
  ghost predicate EntriesAnnounced(registry: Registry, users: Users, s: CacheEngine) {
    forall u, e | u in users && e in registry && Hit(s.cache, Key(u, e), false) :: PublishedOrOwed(s, u, e)
  }

  lemma StepKeepsAnnounced(hash: Hash, registry: Registry, users: Users, s: CacheEngine, step: CacheStep)
    requires KeysNamePairs(registry, users) && CanCacheStep(registry, users, s, step)
    requires EntriesAnnounced(registry, users, s) && CallersKnown(registry, users, s)
    ensures EntriesAnnounced(registry, users, CacheNext(hash, registry, s, step))
    ensures CallersKnown(registry, users, CacheNext(hash, registry, s, step))
  {
    var s' := CacheNext(hash, registry, s, step);
    forall u, e | u in users && e in registry && Hit(s'.cache, Key(u, e), false) ensures PublishedOrOwed(s', u, e) {
      if Hit(s.cache, Key(u, e), false) {
        OwedStays(hash, registry, users, s, step, u, e);
      } else {
        assert step.Write? && s.pcs[step.g] == Picked(u, e);
        assert Owes(s'.pcs[step.g], u, e);
      }
    }
  }

  lemma {:induction false} AnnouncedInvariant(
    hash: Hash, registry: Registry, users: Users, states: seq<CacheEngine>, steps: seq<CacheStep>, i: nat)
    requires KeysNamePairs(registry, users) && IsCacheRun(hash, registry, users, states, steps) && i < |states|
    ensures EntriesAnnounced(registry, users, states[i]) && CallersKnown(registry, users, states[i])
  {
    if i > 0 {
      AnnouncedInvariant(hash, registry, users, states, steps, i - 1);
      assert CacheStepAt(hash, registry, users, states, steps, i - 1);
      StepKeepsAnnounced(hash, registry, users, states[i - 1], steps[i - 1]);
    }
  }

  /** A pair that was asked for at step k is published or owed ever after. */
  lemma {:induction false} AskedIsOwed(
    hash: Hash, registry: Registry, users: Users, states: seq<CacheEngine>, steps: seq<CacheStep>, k: nat, i: nat)
    requires KeysNamePairs(registry, users) && IsCacheRun(hash, registry, users, states, steps)
    requires k < i < |states| && steps[k].Read?
    ensures PublishedOrOwed(states[i], steps[k].user, steps[k].experiment)
  {
    assert CacheStepAt(hash, registry, users, states, steps, i - 1);
    var u, e := steps[k].user, steps[k].experiment;
    if k < i - 1 {
      AskedIsOwed(hash, registry, users, states, steps, k, i - 1);
      OwedStays(hash, registry, users, states[i - 1], steps[i - 1], u, e);
    } else if Hit(states[k].cache, Key(u, e), steps[k].fails) {
      AnnouncedInvariant(hash, registry, users, states, steps, k);
    } else {
      assert Owes(states[i].pcs[steps[k].g], u, e);
    }
  }

  /** If no call is under way at i, the pair asked for at k has been published. */
  ghost predicate PublishedAt(states: seq<CacheEngine>, steps: seq<CacheStep>, k: nat, i: nat) {
    k < i < |states| && k < |steps| && steps[k].Read? && CacheAtRest(states[i]) ==>
      (steps[k].user, steps[k].experiment) in states[i].published
  }

  ghost predicate PublishesEach(hash: Hash, registry: Registry, users: Users) {
    forall states, steps, k: nat, i: nat | IsCacheRun(hash, registry, users, states, steps) ::
      PublishedAt(states, steps, k, i)
  }

  /** Publishing is at least once per pair, exactly when a key names one pair. */
  lemma PublishesEachExactlyWhenKeysNamePairs(hash: Hash, registry: Registry, users: Users)
    requires Sound(registry)
    ensures PublishesEach(hash, registry, users) <==> KeysNamePairs(registry, users)
  {
    if KeysNamePairs(registry, users) {
      forall states, steps: seq<CacheStep>, k: nat, i: nat | IsCacheRun(hash, registry, users, states, steps)
        ensures PublishedAt(states, steps, k, i)
      {
        if k < i < |states| && steps[k].Read? { AskedIsOwed(hash, registry, users, states, steps, k, i); }
      }
    } else {
      var u, e, v, f :| u in users && v in users && e in registry && f in registry && Key(u, e) == Key(v, f)
        && (u, e) != (v, f);
      var states, steps := AliasedCacheRun(hash, registry, users, u, e, v, f);
      assert !PublishedAt(states, steps, 3, 4);
    }
  }

  /** More than once does happen: two callers that both miss publish the pair twice. */
  lemma RacingCallersPublishTwice(hash: Hash, registry: Registry, users: Users, u: string, e: string)
    returns (states: seq<CacheEngine>, steps: seq<CacheStep>)
    requires Sound(registry) && u in users && e in registry
    ensures IsCacheRun(hash, registry, users, states, steps) && states[|steps|].published == [(u, e), (u, e)]
  {
    states, steps := [Racing(Resting, Resting, [])], [];
    states, steps := CacheThen(hash, registry, users, states, steps, Read(0, u, e, false),
                               Racing(Picked(u, e), Resting, []));
    states, steps := CacheThen(hash, registry, users, states, steps, Read(1, u, e, false),
                               Racing(Picked(u, e), Picked(u, e), []));
    states, steps := CacheThen(hash, registry, users, states, steps, Write(0, true),
                               Racing(Announcing(u, e), Picked(u, e), []));
    states, steps := CacheThen(hash, registry, users, states, steps, Write(1, true),
                               Racing(Announcing(u, e), Announcing(u, e), []));
    states, steps := CacheThen(hash, registry, users, states, steps, Announce(0),
                               Racing(Resting, Announcing(u, e), [(u, e)]));
    states, steps := CacheThen(hash, registry, users, states, steps, Announce(1),
                               Racing(Resting, Resting, [(u, e), (u, e)]));
  }

  /** Two callers over an empty cache. */
  function Racing(first: CachePc, second: CachePc, published: seq<(string, string)>): CacheEngine {
    CacheEngine(map[], map[0 := first, 1 := second], published)
  }

  // ---------------------------------------------------------------- the objects

  datatype Assignment = Assigned(variant: Variant) | NoVariants | Panicked

  /** There is a variant to give: the list is not empty and the pick does not panic. */
  predicate Assignable(variants: seq<Variant>) { variants != [] && Buckets(variants) > 0 }

  /** The interval that holds a bucket is the one PickIndex finds. */
  lemma PickedIsPick(vs: seq<Variant>, bucket: nat, index: nat)
    requires bucket < Total(vs) && Holds(vs, bucket, index)
    ensures index == PickIndex(vs, bucket)
  {
    OneIntervalHolds(vs, bucket, index, PickIndex(vs, bucket));
  }

  /** deterministicExperimentEngine. */
  class DeterministicEngine {
    var assignments: map<string, Variant>
    var published: seq<(string, string)>

    constructor ()
      ensures assignments == map[] && published == []
    {
      assignments, published := map[], [];
    }

    /** One whole AssignVariant: the variant stored for the key stays, a new one is the pick and is
        published. */
    method AssignVariant(hash: Hash, user: string, e: string, variants: seq<Variant>) returns (r: Assignment)
      modifies this
      ensures r.NoVariants? <==> variants == []
      ensures r.Panicked? <==> variants != [] && Buckets(variants) == 0 && Key(user, e) !in old(assignments)
      ensures !r.Assigned? ==> assignments == old(assignments) && published == old(published)
      ensures r.Assigned? && Assignable(variants) ==>
        r.variant == Returned(hash, map[e := variants], Engine(old(assignments), map[], []), user, e)
      ensures r.Assigned? && Key(user, e) in old(assignments) ==> r.variant == old(assignments)[Key(user, e)]
      ensures r.Assigned? && Key(user, e) !in old(assignments) && Total(variants) < TWO_32 ==>
        exists i: nat :: Holds(variants, hash(user + ":" + e) % Total(variants), i) && r.variant == variants[i]
      ensures r.Assigned? ==> assignments == old(assignments)[Key(user, e) := r.variant]
      ensures r.Assigned? ==>
        published == old(published) + (if Key(user, e) in old(assignments) then [] else [(user, e)])
    {
      if |variants| == 0 {
        return NoVariants;
      }
      var key := Key(user, e);
      if key in assignments {
        assert published + [] == published;
        return Assigned(assignments[key]);
      }
      var p := DeterministicPick(variants, hash(key));
      if p.Panic? {
        return Panicked;
      }
      PickedIsPick(variants, BucketFor(variants, hash(key)), p.index);
      assignments := assignments[key := p.variant];
      published := published + [(user, e)];
      return Assigned(p.variant);
    }
  }

  /** cacheExperimentEngine. */
  class CacheBackedEngine {
    var cache: Cache
    var published: seq<(string, string)>

    constructor ()
      ensures cache == map[] && published == []
    {
      cache, published := map[], [];
    }

    /** One whole AssignVariant with nobody in between. */
    method AssignVariant(hash: Hash, user: string, e: string, variants: seq<Variant>, getFails: bool, setFails: bool)
      returns (r: Assignment)
      modifies this
      ensures r.NoVariants? <==> variants == []
      ensures r.Panicked? <==>
        variants != [] && Buckets(variants) == 0 && !Hit(old(cache), Key(user, e), getFails)
      ensures !r.Assigned? || Hit(old(cache), Key(user, e), getFails) ==>
        cache == old(cache) && published == old(published)
      ensures r.Assigned? && Assignable(variants) ==>
        r.variant == CacheReturned(hash, map[e := variants], old(cache), user, e, getFails)
      ensures r.Assigned? && Hit(old(cache), Key(user, e), getFails) ==>
        r.variant == old(cache)[Key(user, e)].variant
      ensures r.Assigned? && !Hit(old(cache), Key(user, e), getFails) && Total(variants) < TWO_32 ==>
        exists i: nat :: Holds(variants, hash(user + ":" + e) % Total(variants), i) && r.variant == variants[i]
      ensures r.Assigned? && !Hit(old(cache), Key(user, e), getFails) ==>
        && cache == (if setFails then old(cache) else old(cache)[Key(user, e) := Good(r.variant)])
        && published == old(published) + [(user, e)]
    {
      if |variants| == 0 {
        return NoVariants;
      }
      var key := Key(user, e);
      if !getFails && key in cache && cache[key].Good? {
        return Assigned(cache[key].variant);
      }
      var p := DeterministicPick(variants, hash(key));
      if p.Panic? {
        return Panicked;
      }
      PickedIsPick(variants, BucketFor(variants, hash(key)), p.index);
      if !setFails {
        cache := cache[key := Good(p.variant)];
      }
      published := published + [(user, e)];
      return Assigned(p.variant);
    }
  }
}
