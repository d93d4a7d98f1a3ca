/**
 The summary cache under concurrent writers. A writer commits its transaction and only then bumps
 the version counter; a reader holds the summary lock, notes the version, runs its queries one by
 one, and keeps the result only if the version is still the one it noted.
 */
module SummaryCache {
  import opened Tables

  const MAX_AGE := 5000

  /** Which writes each query of a computed summary saw; writes are numbered. */
  datatype Summary = Summary(views: seq<set<nat>>)

  datatype Cached = Cached(summary: Summary, version: nat, duration: int, at: int)

  datatype Reader = Idle | Reading(since: int, now: int, version: nat, views: seq<set<nat>>)

  /** `settled` are the writes whose version bump has finished. */
  datatype State = State(committed: set<nat>, settled: set<nat>, version: nat, cache: Option<Cached>, reader: Reader)

  const INITIAL := State({}, {}, 0, None, Idle)

  predicate Hit(s: State, since: int, now: int) {
    && s.cache.Some?
    && s.cache.value.version == s.version
    && s.cache.value.duration == now - since
    && s.cache.value.at <= now < s.cache.value.at + MAX_AGE
  }

  /** One atomic step of some thread. */
  datatype Step =
    | Commit(write: nat)
    | Bump(write: nat)
    | Start(since: int, now: int)
    | Read
    | Finish

  predicate Enabled(s: State, step: Step) {
    match step
    case Commit(w) => w !in s.committed
    case Bump(w) => w in s.committed && w !in s.settled
    case Start(since, now) => s.reader.Idle? && since < now && !Hit(s, since, now)
    case Read => s.reader.Reading?
    case Finish => s.reader.Reading?
  }

  function Next(s: State, step: Step): State
    requires Enabled(s, step)
  {
    match step
    case Commit(w) => s.(committed := s.committed + {w})
    case Bump(w) => s.(settled := s.settled + {w}, version := s.version + 1)
    case Start(since, now) => s.(reader := Reading(since, now, s.version, []))
    case Read => s.(reader := s.reader.(views := s.reader.views + [s.committed]))
    case Finish =>
      var r := s.reader;
      var cache := if s.version == r.version
                   then Some(Cached(Summary(r.views), r.version, r.now - r.since, r.now))
                   else s.cache;
      s.(cache := cache, reader := Idle)
  }

  /** Any interleaving: a step that is not enabled is skipped. */
  ghost function Run(steps: seq<Step>): State {
    if |steps| == 0 then INITIAL
    else
      var s := Run(steps[..|steps| - 1]);
      var step := steps[|steps| - 1];
      if Enabled(s, step) then Next(s, step) else s
  }

  /** The queries were all made after `settled` had that many elements. */
  ghost predicate SawSettled(s: State, views: seq<set<nat>>, version: nat) {
    exists base: set<nat> :: base <= s.settled && |base| == version && forall v :: v in views ==> base <= v
  }

  ghost predicate Invariant(s: State) {
    && s.settled <= s.committed
    && |s.settled| == s.version
    && (s.reader.Reading? ==> SawSettled(s, s.reader.views, s.reader.version))
    && (s.cache.Some? ==> SawSettled(s, s.cache.value.summary.views, s.cache.value.version))
  }

  lemma StepKeepsSaw(s: State, step: Step, views: seq<set<nat>>, version: nat)
    requires Enabled(s, step) && SawSettled(s, views, version)
    ensures SawSettled(Next(s, step), views, version)
  {
    var base: set<nat> :| base <= s.settled && |base| == version && forall v :: v in views ==> base <= v;
    assert base <= Next(s, step).settled;
  }

  lemma StepKeepsInvariant(s: State, step: Step)
    requires Invariant(s) && Enabled(s, step)
    ensures Invariant(Next(s, step))
  {
    var out := Next(s, step);
    if s.reader.Reading? { StepKeepsSaw(s, step, s.reader.views, s.reader.version); }
    if s.cache.Some? { StepKeepsSaw(s, step, s.cache.value.summary.views, s.cache.value.version); }
    match step
    case Start(_, _) =>
      assert s.settled <= out.settled && |s.settled| == s.version;
      assert SawSettled(out, [], s.version);
    case Read =>
      var views := s.reader.views;
      var base: set<nat> :| base <= s.settled && |base| == s.reader.version && forall v :: v in views ==> base <= v;
      assert forall v :: v in views + [s.committed] ==> base <= v;
      assert SawSettled(out, out.reader.views, out.reader.version);
    case _ =>
  }

  lemma {:induction false} RunKeepsInvariant(steps: seq<Step>)
    ensures Invariant(Run(steps))
  {
    if |steps| > 0 {
      var s := Run(steps[..|steps| - 1]);
      RunKeepsInvariant(steps[..|steps| - 1]);
      if Enabled(s, steps[|steps| - 1]) {
        StepKeepsInvariant(s, steps[|steps| - 1]);
      }
    }
  }

  lemma SameSizeSubset(a: set<nat>, b: set<nat>)
    requires a <= b && |a| == |b|
    ensures a == b
  {
    assert |b - a| == |b| - |a|;
  }

  /** A cache hit is younger than five seconds, was computed for the same duration, and every one of
      its queries saw every write whose version bump finished before the call. */
  lemma HitIsFresh(steps: seq<Step>, since: int, now: int)
    requires Hit(Run(steps), since, now)
    ensures var s := Run(steps);
            && 0 <= now - s.cache.value.at < MAX_AGE
            && s.cache.value.duration == now - since
            && forall v, w :: v in s.cache.value.summary.views && w in s.settled ==> w in v
  {
    var s := Run(steps);
    RunKeepsInvariant(steps);
    var views := s.cache.value.summary.views;
    var base: set<nat> :| base <= s.settled && |base| == s.cache.value.version && forall v :: v in views ==> base <= v;
    SameSizeSubset(base, s.settled);
  }

  /** Committing before bumping matters: a write that has committed but not yet bumped may be missing
      from a hit. */
  lemma UnsettledWriteMayBeMissed()
    ensures var s := Run([Start(0, 100), Read, Finish, Commit(7)]);
            Hit(s, 0, 100) && 7 in s.committed && s.cache.value.summary.views == [{}]
  {
    var a, b, c, d := Start(0, 100), Read, Finish, Commit(7);
    assert [a, b, c, d][..3] == [a, b, c] && [a, b, c][..2] == [a, b] && [a, b][..1] == [a] && [a][..0] == [];
    assert Run([]) == INITIAL;
    assert Run([a]) == Next(INITIAL, a);
    assert Run([a, b]) == Next(Run([a]), b);
    assert Run([a, b, c]) == Next(Run([a, b]), c);
    assert Run([a, b, c, d]) == Next(Run([a, b, c]), d);
  }
}
