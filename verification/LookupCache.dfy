/**
 The cache of trusted lookups: which probes may fill it, what counts as a hit, and how it is kept small.
 */
module LookupCache {
  import opened Tables

  const MAX_ENTRIES := 512
  const MAX_BYTES := 8 * 1024 * 1024

  datatype Key = Key(server: nat, epoch: int, address: string, name: string, kind: string)
  datatype Record = Record(ttl: int, expiresAt: int)
  datatype Result = Result(timestamp: int, success: bool, records: seq<Record>, answers: seq<string>, raw: string, error: string)

  /** A cached result, and the generation in which its probe began. */
  datatype Cached = Cached(result: Result, begunIn: nat)

  // ----- Size -----

  function Lengths(answers: seq<string>): nat {
    if |answers| == 0 then 0 else Lengths(answers[..|answers| - 1]) + |answers[|answers| - 1]|
  }

  function Size(r: Result): nat {
    |r.raw| + |r.error| + |r.records| * 128 + 256 + Lengths(r.answers)
  }

  ghost function Total(cache: map<Key, Cached>): nat
    decreases |cache.Keys|
  {
    if cache.Keys == {} then 0
    else
      assert |cache.Keys| > 0;
      var k :| k in cache.Keys;
      assert (cache - {k}).Keys == cache.Keys - {k};
      Size(cache[k].result) + Total(cache - {k})
  }

  lemma {:induction false} TotalWithout(cache: map<Key, Cached>, k: Key)
    requires k in cache
    ensures Total(cache) == Size(cache[k].result) + Total(cache - {k})
    decreases |cache.Keys|
  {
    var j := TotalPicks(cache, k);
    hide Total, Size;
    if j != k {
      assert (cache - {j}).Keys == cache.Keys - {j} && (cache - {k}).Keys == cache.Keys - {k};
      TotalWithout(cache - {j}, k);
      TotalWithout(cache - {k}, j);
      assert cache - {j} - {k} == cache - {k} - {j};
    }
  }

  /** The entry the sum counts first. */
  lemma TotalPicks(cache: map<Key, Cached>, k: Key) returns (j: Key)
    requires k in cache
    ensures j in cache && Total(cache) == Size(cache[j].result) + Total(cache - {j})
  {
    hide Size;
    j :| j in cache.Keys && Total(cache) == Size(cache[j].result) + Total(cache - {j});
  }

  lemma EmptyIsNothing()
    ensures forall cache: map<Key, Cached> :: cache.Keys == {} ==> Total(cache) == 0
  {
  }

  ghost predicate FitsBounds(cache: map<Key, Cached>) {
    |cache| <= MAX_ENTRIES && Total(cache) <= MAX_BYTES
  }

  ghost predicate IsPart(kept: map<Key, Cached>, cache: map<Key, Cached>) {
    forall k :: k in kept ==> k in cache && kept[k] == cache[k]
  }

  predicate IsOldest(cache: map<Key, Cached>, k: Key) {
    k in cache && forall j :: j in cache ==> cache[k].result.timestamp <= cache[j].result.timestamp
  }

  /** Nothing evicted is newer than anything kept. */
  ghost predicate OldestWent(cache: map<Key, Cached>, kept: map<Key, Cached>) {
    forall gone, k :: gone in cache && gone !in kept && k in kept
      ==> cache[gone].result.timestamp <= kept[k].result.timestamp
  }

  /** What eviction may leave: the bounds hold, the oldest went first, and the last to go had to. */
  ghost predicate IsEvicted(cache: map<Key, Cached>, kept: map<Key, Cached>) {
    && FitsBounds(kept) && IsPart(kept, cache) && OldestWent(cache, kept)
    && (kept != cache ==> exists last :: last in cache && last !in kept && !FitsBounds(kept[last := cache[last]]))
  }

  method Measure(cache: map<Key, Cached>) returns (total: nat, oldestKey: Option<Key>)
    ensures total == Total(cache)
    ensures oldestKey.None? <==> cache == map[]
    ensures oldestKey.None? ==> total == 0
    ensures oldestKey.Some? ==> IsOldest(cache, oldestKey.value)
  {
    EmptyIsNothing();
    hide Total, Lengths;
    total, oldestKey := 0, None;
    var oldest := 0;
    var todo := cache.Keys;
    assert cache - (cache.Keys - todo) == cache;
    while |todo| > 0
      invariant todo <= cache.Keys
      invariant Total(cache) == total + Total(cache - (cache.Keys - todo))
      invariant oldestKey.None? <==> todo == cache.Keys
      invariant oldestKey.Some? ==> oldestKey.value in cache && oldest == cache[oldestKey.value].result.timestamp
      invariant oldestKey.Some? ==> forall j :: j in cache && j !in todo ==> oldest <= cache[j].result.timestamp
      decreases |todo|
    {
      var k :| k in todo;
      var r := cache[k].result;
      TotalWithout(cache - (cache.Keys - todo), k);
      assert cache - (cache.Keys - todo) - {k} == cache - (cache.Keys - (todo - {k}));
      var bytes := AnswerBytes(r.answers);
      total := total + |r.raw| + |r.error| + |r.records| * 128 + 256 + bytes;
      if oldestKey.None? || r.timestamp < oldest {
        oldestKey, oldest := Some(k), r.timestamp;
      }
      todo := todo - {k};
    }
    assert (cache - (cache.Keys - todo)).Keys == {};
  }

  method AnswerBytes(answers: seq<string>) returns (bytes: nat)
    ensures bytes == Lengths(answers)
  {
    bytes := 0;
    for i := 0 to |answers|
      invariant bytes == Lengths(answers[..i])
    {
      assert answers[..i + 1][..i] == answers[..i];
      bytes := bytes + |answers[i]|;
    }
    assert answers[..|answers|] == answers;
  }

  /** Drops the oldest entry until the bounds hold; every turn drops one, so it ends. */
  method Evict(cache: map<Key, Cached>) returns (kept: map<Key, Cached>)
    ensures IsEvicted(cache, kept)
  {
    kept := cache;
    while true
      invariant IsPart(kept, cache) && OldestWent(cache, kept)
      invariant kept != cache ==> exists last :: last in cache && last !in kept && !FitsBounds(kept[last := cache[last]])
      decreases |kept.Keys|
    {
      var total, oldestKey := Measure(kept);
      assert |kept| == |kept.Keys|;
      if |kept| <= MAX_ENTRIES && total <= MAX_BYTES {
        break;
      }
      if oldestKey.None? {
        assert false;
      }
      EvictOne(cache, kept, oldestKey.value);
      kept := kept - {oldestKey.value};
    }
  }

  lemma EvictOne(cache: map<Key, Cached>, kept: map<Key, Cached>, k: Key)
    requires IsPart(kept, cache) && OldestWent(cache, kept) && IsOldest(kept, k) && !FitsBounds(kept)
    ensures IsPart(kept - {k}, cache) && OldestWent(cache, kept - {k})
    ensures k in cache && k !in kept - {k} && !FitsBounds((kept - {k})[k := cache[k]])
    ensures (kept - {k}).Keys == kept.Keys - {k} && |(kept - {k}).Keys| < |kept.Keys|
  {
    assert (kept - {k})[k := cache[k]] == kept;
  }

  // ----- Hits -----

  /** Only the first `n` records looked at. */
  predicate IsValidSoFar(r: Result, n: nat, now: int, ttlSeconds: int)
    requires n <= |r.records|
  {
    && r.success && |r.records| > 0 && 0 < ttlSeconds && now - r.timestamp < ttlSeconds * 1000
    && forall i :: 0 <= i < n ==> 0 < r.records[i].ttl && now < r.records[i].expiresAt
  }

  predicate IsValid(r: Result, now: int, ttlSeconds: int) {
    IsValidSoFar(r, |r.records|, now, ttlSeconds)
  }

  method CacheGet(cache: map<Key, Cached>, key: Key, now: int, ttlSeconds: int) returns (hit: Option<Cached>)
    ensures hit.Some? <==> key in cache && IsValid(cache[key].result, now, ttlSeconds)
    ensures hit.Some? ==> hit.value == cache[key]
  {
    if key !in cache { return None; }
    var v := cache[key];
    var r := v.result;
    var valid := r.success && |r.records| > 0 && ttlSeconds > 0 && now - r.timestamp < ttlSeconds * 1000;
    for i := 0 to |r.records|
      invariant valid == IsValidSoFar(r, i, now, ttlSeconds)
    {
      if r.records[i].ttl <= 0 || r.records[i].expiresAt <= now {
        valid := false;
        break;
      }
    }
    hit := if valid then Some(v) else None;
  }

  // ----- Runs -----

  /** `probes` holds the generation each probe under way began in; `clock` is the time, which never goes back. */
  datatype State = State(cache: map<Key, Cached>, generation: nat, probes: map<nat, nat>, clock: int)

  datatype Step =
    | Begin(worker: nat)
    /** The probe of a trusted source ends; `stored` says that the source is still as it was and that saving the
        observation, if there was one to save, succeeded. `kept` is what the eviction leaves. */
    | End(worker: nat, key: Key, result: Result, stored: bool, kept: map<Key, Cached>)
    /** The probe of any other server leaves the cache alone. */
    | Abandon(worker: nat)
    | RefreshAll
    | ReadConfiguration(allowed: set<Key>, ttlSeconds: int)
    | Tick(clock: int)

  /** The cache after a result is offered to it, before eviction. */
  function Offered(s: State, worker: nat, key: Key, result: Result, stored: bool): map<Key, Cached>
    requires worker in s.probes
  {
    if stored && s.probes[worker] == s.generation then s.cache[key := Cached(result, s.probes[worker])] else s.cache
  }

  function Unexpired(cache: map<Key, Cached>, allowed: set<Key>, now: int, ttlSeconds: int): map<Key, Cached> {
    map k | k in cache && k in allowed && now - cache[k].result.timestamp <= ttlSeconds * 1000 :: cache[k]
  }

  ghost function Next(s: State, step: Step): State {
    match step
    case Begin(w) => if w in s.probes then s else s.(probes := s.probes[w := s.generation])
    case End(w, key, result, stored, kept) =>
      if w in s.probes && result.timestamp <= s.clock && IsEvicted(Offered(s, w, key, result, stored), kept)
      then s.(cache := kept, probes := s.probes - {w}) else s
    case Abandon(w) => s.(probes := s.probes - {w})
    case RefreshAll => s.(cache := map[], generation := s.generation + 1)
    case ReadConfiguration(allowed, ttl) => s.(cache := Unexpired(s.cache, allowed, s.clock, ttl))
    case Tick(clock) => if s.clock <= clock then s.(clock := clock) else s
  }

  ghost function Run(s: State, steps: seq<Step>): State {
    if |steps| == 0 then s else Next(Run(s, steps[..|steps| - 1]), steps[|steps| - 1])
  }

  ghost predicate Inv(s: State) {
    && FitsBounds(s.cache)
    && (forall k :: k in s.cache ==> s.cache[k].begunIn == s.generation && s.cache[k].result.timestamp <= s.clock)
  }

  lemma {:induction false} PartIsSmaller(kept: map<Key, Cached>, cache: map<Key, Cached>)
    requires IsPart(kept, cache)
    ensures |kept| <= |cache| && Total(kept) <= Total(cache)
    decreases |cache.Keys|
  {
    assert |cache| == |cache.Keys| && |kept| == |kept.Keys|;
    if forall k :: k in cache ==> k in kept {
      assert kept == cache;
    } else {
      var k :| k in cache && k !in kept;
      var fewer := cache - {k};
      assert fewer.Keys == cache.Keys - {k} && |fewer| == |fewer.Keys|;
      PartIsSmaller(kept, fewer);
      TotalWithout(cache, k);
    }
  }

  lemma NextKeepsInv(s: State, step: Step)
    requires Inv(s)
    ensures Inv(Next(s, step))
  {
    match step
    case Begin(_) =>
    case End(_, _, _, _, _) =>
    case Abandon(_) =>
    case RefreshAll => assert Total(map[]) == 0;
    case ReadConfiguration(allowed, ttl) => PartIsSmaller(Unexpired(s.cache, allowed, s.clock, ttl), s.cache);
    case Tick(_) =>
  }

  lemma {:induction false} RunKeepsInv(s: State, steps: seq<Step>)
    requires Inv(s)
    ensures Inv(Run(s, steps))
  {
    if |steps| > 0 {
      RunKeepsInv(s, steps[..|steps| - 1]);
      NextKeepsInv(Run(s, steps[..|steps| - 1]), steps[|steps| - 1]);
    }
  }

  /** In every reachable state the cache is within its bounds, and every entry comes from a probe begun after the
      last refresh. */
  lemma OnlyThisGeneration(clock: int, steps: seq<Step>, k: Key)
    ensures var s := Run(State(map[], 0, map[], clock), steps);
      && |s.cache| <= MAX_ENTRIES && Total(s.cache) <= MAX_BYTES
      && (k in s.cache ==> s.cache[k].begunIn == s.generation)
  {
    var s := State(map[], 0, map[], clock);
    assert Total(s.cache) == 0;
    RunKeepsInv(s, steps);
  }

  /** A probe under way when a refresh is requested never gets into the cache, however late it ends. */
  lemma StragglerIsNotCached(s: State, steps: seq<Step>, worker: nat, key: Key, result: Result, stored: bool, kept: map<Key, Cached>)
    requires worker in s.probes && s.probes[worker] <= s.generation
    requires forall i :: 0 <= i < |steps| ==> !(steps[i].End? && steps[i].worker == worker) && !(steps[i].Abandon? && steps[i].worker == worker)
    ensures var t := Run(Next(s, RefreshAll), steps);
      IsPart(Next(t, End(worker, key, result, stored, kept)).cache, t.cache)
  {
    ProbeKeepsGeneration(Next(s, RefreshAll), steps, worker);
  }

  lemma {:induction false} ProbeKeepsGeneration(s: State, steps: seq<Step>, worker: nat)
    requires worker in s.probes
    requires forall i :: 0 <= i < |steps| ==> !(steps[i].End? && steps[i].worker == worker) && !(steps[i].Abandon? && steps[i].worker == worker)
    ensures var t := Run(s, steps);
      worker in t.probes && t.probes[worker] == s.probes[worker] && s.generation <= t.generation
  {
    if |steps| > 0 {
      ProbeKeepsGeneration(s, steps[..|steps| - 1], worker);
      var step := steps[|steps| - 1];
      assert !(step.End? && step.worker == worker) && !(step.Abandon? && step.worker == worker);
    }
  }

  // ----- What counts -----

  /** A hit is a success with records, none of them expired, looked up less than the configured seconds ago. */
  lemma HitMeaning(r: Result, now: int, ttlSeconds: int)
    ensures IsValid(r, now, ttlSeconds) <==>
      && r.success && r.records != [] && 0 < ttlSeconds && now < r.timestamp + 1000 * ttlSeconds
      && forall record :: record in r.records ==> 0 < record.ttl && now < record.expiresAt
  {
    assert forall i :: 0 <= i < |r.records| ==> r.records[i] in r.records;
  }

  /** Reading the configuration keeps the results still asked for, up to the configured age. */
  lemma ConfigurationMeaning(s: State, allowed: set<Key>, ttlSeconds: int, k: Key)
    ensures var t := Next(s, ReadConfiguration(allowed, ttlSeconds));
      && (k in t.cache <==> k in s.cache && k in allowed && s.clock <= s.cache[k].result.timestamp + 1000 * ttlSeconds)
      && (k in t.cache ==> t.cache[k] == s.cache[k])
  {
  }

  /** A probe that ends well, with nothing refreshed since it began, is what the cache is offered. */
  lemma OfferMeaning(s: State, worker: nat, key: Key, result: Result, stored: bool)
    requires worker in s.probes
    ensures var out := Offered(s, worker, key, result, stored);
      if stored && s.probes[worker] == s.generation then key in out && out[key].result == result && out - {key} == s.cache - {key}
      else out == s.cache
  {
  }

  /** What an entry weighs: its texts, 128 for each record, and 256. */
  lemma TotalOfOneMore(cache: map<Key, Cached>, k: Key, c: Cached)
    requires k !in cache
    ensures Total(cache[k := c])
            == Total(cache) + |c.result.raw| + |c.result.error| + 128 * |c.result.records| + 256 + Lengths(c.result.answers)
  {
    var more := cache[k := c];
    TotalWithout(more, k);
    assert more - {k} == cache;
    hide Total, Lengths;
  }
}
