/**
 Shared collection of trusted references: at most one collector for each domain and type, and a pause between
 two collections.
 */
module Collections {
  import opened Tables

  const MIN_INTERVAL := 30000

  type Key = string

  /** Why a collection brought nothing. The first three interrupt it from outside. */
  datatype Failure = Cancelled | Paused | Superseded | Failed(reason: string)

  predicate IsInterruption(error: Option<Failure>) {
    error.Some? && !error.value.Failed?
  }

  /** `done` is the channel its collector will close; none while nobody collects. `error` is what later callers are told
      until the next collection. */
  datatype Entry = Entry(done: Option<nat>, fingerprint: string, nextAt: int, error: Option<Failure>)

  /** What happened so far. `Ended` keeps the fingerprint its collection started with. */
  datatype Event =
    | Begun(key: Key, fingerprint: string, at: int)
    | Ended(key: Key, fingerprint: string, at: int, excused: bool)
    | Reset
    | Dropped(keys: set<Key>)

  /** `channels` counts the done channels made so far. */
  datatype Table = Table(entries: map<Key, Entry>, channels: nat, log: seq<Event>)

  const Empty := Table(map[], 0, [])

  datatype Answer = Join(done: nat) | TooSoon(error: Option<Failure>) | Lead(done: nat)

  function EntryOf(entries: map<Key, Entry>, key: Key): Entry {
    if key in entries then entries[key] else Entry(None, "", 0, None)
  }

  function AnswerFor(t: Table, key: Key, fingerprint: string, now: int): Answer {
    var e := EntryOf(t.entries, key);
    if e.done.Some? then Join(e.done.value)
    else if e.fingerprint == fingerprint && now < e.nextAt then TooSoon(e.error)
    else Lead(t.channels + 1)
  }

  function Entered(t: Table, key: Key, fingerprint: string, now: int): Table {
    var e := EntryOf(t.entries, key);
    if AnswerFor(t, key, fingerprint, now).Lead? then
      Table(t.entries[key := Entry(Some(t.channels + 1), fingerprint, e.nextAt, e.error)], t.channels + 1,
            t.log + [Begun(key, fingerprint, now)])
    else t.(entries := t.entries[key := e])
  }

  predicate IsOpen(entries: map<Key, Entry>, key: Key) {
    key in entries && entries[key].done.Some?
  }

  function Closed(t: Table, key: Key, finished: int, excused: bool, error: Option<Failure>): Table
    requires IsOpen(t.entries, key)
  {
    var e := t.entries[key];
    t.(entries := t.entries[key := Entry(None, e.fingerprint, if excused then 0 else finished + MIN_INTERVAL, error)],
       log := t.log + [Ended(key, e.fingerprint, finished, excused)])
  }

  function Forgiven(entries: map<Key, Entry>): map<Key, Entry> {
    map k | k in entries :: entries[k].(nextAt := 0)
  }

  function Forgotten(t: Table): Table {
    t.(entries := Forgiven(t.entries), log := t.log + [Reset])
  }

  function Unused(entries: map<Key, Entry>, allowed: set<Key>): set<Key> {
    set k | k in entries && k !in allowed && entries[k].done.None?
  }

  function Pruned(t: Table, allowed: set<Key>): Table {
    var gone := Unused(t.entries, allowed);
    t.(entries := t.entries - gone, log := t.log + [Dropped(gone)])
  }

  // ----- The map the monitor keeps -----

  class Collector {
    var entries: map<Key, Entry>
    var channels: nat
    ghost var log: seq<Event>

    ghost function Value(): Table
      reads this
    {
      Table(entries, channels, log)
    }

    constructor ()
      ensures Value() == Empty
    {
      entries, channels, log := map[], 0, [];
    }

    /** What a caller without usable references is told: wait for the collector, make do, or collect. */
    method Enter(key: Key, fingerprint: string, now: int) returns (answer: Answer)
      modifies this
      ensures answer == AnswerFor(old(Value()), key, fingerprint, now)
      ensures Value() == Entered(old(Value()), key, fingerprint, now)
    {
      if key !in entries {
        entries := entries[key := Entry(None, "", 0, None)];
      }
      var state := entries[key];
      if state.done.Some? {
        assert entries == old(entries)[key := state];
        return Join(state.done.value);
      }
      if state.fingerprint == fingerprint && now < state.nextAt {
        assert entries == old(entries)[key := state];
        return TooSoon(state.error);
      }
      channels := channels + 1;
      entries := entries[key := state.(done := Some(channels), fingerprint := fingerprint)];
      log := log + [Begun(key, fingerprint, now)];
      return Lead(channels);
    }

    /** What an interruption leaves behind does not delay anyone. */
    method End(key: Key, finished: int, excused: bool, error: Option<Failure>)
      requires IsOpen(entries, key)
      modifies this`entries, this`log
      ensures Value() == Closed(old(Value()), key, finished, excused, error)
    {
      log := log + [Ended(key, entries[key].fingerprint, finished, excused)];
      entries := entries[key := entries[key].(error := error, nextAt := finished + MIN_INTERVAL)];
      if excused {
        entries := entries[key := entries[key].(nextAt := 0)];
      }
      entries := entries[key := entries[key].(done := None)];
    }

    /** A refresh lets every collection be repeated at once. */
    method Forget()
      modifies this`entries, this`log
      ensures Value() == Forgotten(old(Value()))
    {
      entries := Forgive(entries);
      log := log + [Reset];
    }

    /** The entries of domains no longer configured go, unless a collector still works for one. */
    method Prune(allowed: set<Key>)
      modifies this`entries, this`log
      ensures Value() == Pruned(old(Value()), allowed)
    {
      log := log + [Dropped(Unused(entries, allowed))];
      entries := Used(entries, allowed);
    }
  }

  method Forgive(entries: map<Key, Entry>) returns (forgiven: map<Key, Entry>)
    ensures forgiven == Forgiven(entries)
  {
    forgiven := entries;
    var todo := entries.Keys;
    while |todo| > 0
      invariant todo <= entries.Keys && forgiven.Keys == entries.Keys
      invariant forall k :: k in entries ==> forgiven[k] == if k in todo then entries[k] else entries[k].(nextAt := 0)
      decreases |todo|
    {
      var key :| key in todo;
      forgiven := forgiven[key := forgiven[key].(nextAt := 0)];
      todo := todo - {key};
    }
  }

  method Used(entries: map<Key, Entry>, allowed: set<Key>) returns (kept: map<Key, Entry>)
    ensures kept == entries - Unused(entries, allowed)
  {
    kept := entries;
    var todo := entries.Keys;
    while |todo| > 0
      invariant todo <= entries.Keys
      invariant kept == entries - (Unused(entries, allowed) - todo)
      decreases |todo|
    {
      var key :| key in todo;
      if key !in allowed && kept[key].done.None? {
        kept := kept - {key};
      }
      todo := todo - {key};
    }
    assert Unused(entries, allowed) - todo == Unused(entries, allowed);
  }

  // ----- The pause between collections -----

  /** After such an event the last collection of the key no longer binds the next one. */
  predicate Lifts(e: Event, key: Key) {
    match e
    case Begun(k, _, _) => k == key
    case Ended(k, _, _, _) => k == key
    case Reset => true
    case Dropped(keys) => key in keys
  }

  predicate IsPlainEnd(e: Event) {
    e.Ended? && !e.excused
  }

  /** The collection that ended at `i` binds until `n`. */
  ghost predicate Binds(log: seq<Event>, i: nat, n: nat) {
    i < n <= |log| && IsPlainEnd(log[i]) && forall k :: i < k < n ==> !Lifts(log[k], log[i].key)
  }

  /** A collection starts no sooner than the pause after the previous one from the same sources, unless that one
      was interrupted, or a refresh or a pruning came between. */
  ghost predicate Spaced(log: seq<Event>) {
    forall i, j {:trigger Binds(log, i, j)} :: 0 <= i < j < |log| && Binds(log, i, j)
      && log[j].Begun? && log[j].key == log[i].key && log[j].fingerprint == log[i].fingerprint
      ==> log[i].at + MIN_INTERVAL <= log[j].at
  }

  ghost predicate Remembers(t: Table, i: nat)
    requires i < |t.log| && IsPlainEnd(t.log[i])
  {
    var e := t.log[i];
    e.key in t.entries && t.entries[e.key] == Entry(None, e.fingerprint, e.at + MIN_INTERVAL, t.entries[e.key].error)
  }

  ghost predicate Inv(t: Table) {
    && Spaced(t.log)
    && (forall i: nat {:trigger Binds(t.log, i, |t.log|)} :: Binds(t.log, i, |t.log|) ==> Remembers(t, i))
    && (forall k :: IsOpen(t.entries, k) ==> t.entries[k].done.value <= t.channels)
    && (forall k :: k in t.entries && IsInterruption(t.entries[k].error) ==> t.entries[k].nextAt == 0)
  }

  /** Adding an event keeps the spacing if the event itself is late enough. */
  lemma SpacedGrows(t: Table, e: Event)
    requires Inv(t)
    requires forall i: nat :: Binds(t.log, i, |t.log|) && e.Begun? && e.key == t.log[i].key && e.fingerprint == t.log[i].fingerprint
               ==> t.log[i].at + MIN_INTERVAL <= e.at
    ensures Spaced(t.log + [e])
  {
    var log := t.log + [e];
    forall i, j | 0 <= i < j < |log| && Binds(log, i, j)
      && log[j].Begun? && log[j].key == log[i].key && log[j].fingerprint == log[i].fingerprint
      ensures log[i].at + MIN_INTERVAL <= log[j].at
    {
      BindsOfPrefix(t.log, e, i, j);
    }
  }

  lemma BindsOfPrefix(log: seq<Event>, e: Event, i: nat, n: nat)
    requires Binds(log + [e], i, n) && n <= |log|
    ensures Binds(log, i, n)
  {
    forall k | i < k < n ensures !Lifts(log[k], log[i].key) {
      assert (log + [e])[k] == log[k];
    }
  }

  lemma BindsShrinks(log: seq<Event>, e: Event, i: nat)
    requires Binds(log + [e], i, |log| + 1)
    ensures i == |log| || (Binds(log, i, |log|) && !Lifts(e, log[i].key))
  {
    if i < |log| {
      assert (log + [e])[|log|] == e;
      forall k | i < k < |log| ensures !Lifts(log[k], log[i].key) {
        assert (log + [e])[k] == log[k];
      }
    }
  }

  lemma EnteringKeepsInv(t: Table, key: Key, fingerprint: string, now: int)
    requires Inv(t)
    ensures Inv(Entered(t, key, fingerprint, now))
  {
    var u := Entered(t, key, fingerprint, now);
    if AnswerFor(t, key, fingerprint, now).Lead? {
      SpacedGrows(t, Begun(key, fingerprint, now));
      forall i: nat | Binds(u.log, i, |u.log|) ensures Remembers(u, i) {
        BindsShrinks(t.log, Begun(key, fingerprint, now), i);
      }
    }
  }

  lemma ClosingKeepsInv(t: Table, key: Key, finished: int, excused: bool, error: Option<Failure>)
    requires Inv(t) && IsOpen(t.entries, key) && (IsInterruption(error) ==> excused)
    ensures Inv(Closed(t, key, finished, excused, error))
  {
    var u := Closed(t, key, finished, excused, error);
    var e := Ended(key, t.entries[key].fingerprint, finished, excused);
    SpacedGrows(t, e);
    forall i: nat | Binds(u.log, i, |u.log|) ensures Remembers(u, i) {
      BindsShrinks(t.log, e, i);
    }
  }

  lemma ForgettingKeepsInv(t: Table)
    requires Inv(t)
    ensures Inv(Forgotten(t))
  {
    var u := Forgotten(t);
    SpacedGrows(t, Reset);
    assert u.log[|t.log|] == Reset;
    assert forall i: nat :: !Binds(u.log, i, |u.log|);
    forall k | IsOpen(u.entries, k) ensures u.entries[k].done.value <= u.channels {
      assert IsOpen(t.entries, k);
    }
  }

  lemma PruningKeepsInv(t: Table, allowed: set<Key>)
    requires Inv(t)
    ensures Inv(Pruned(t, allowed))
  {
    var u := Pruned(t, allowed);
    var e := Dropped(Unused(t.entries, allowed));
    SpacedGrows(t, e);
    forall i: nat | Binds(u.log, i, |u.log|) ensures Remembers(u, i) {
      BindsShrinks(t.log, e, i);
    }
    forall k | IsOpen(u.entries, k) ensures u.entries[k].done.value <= u.channels {
      assert IsOpen(t.entries, k);
    }
  }

  /** A caller told to make do is never told of an interruption: an interrupted collection is repeated at once. */
  lemma NobodyIsToldOfInterruptions(t: Table, key: Key, fingerprint: string, now: int)
    requires Inv(t) && 0 <= now
    ensures var answer := AnswerFor(t, key, fingerprint, now); answer.TooSoon? ==> !IsInterruption(answer.error)
  {
    var e := EntryOf(t.entries, key);
    if key in t.entries && IsInterruption(e.error) {
      assert e.nextAt == 0;
    }
  }

  // ----- Who is collecting -----

  /** The collections under way, each with its channel. */
  function Open(entries: map<Key, Entry>): set<(Key, nat)> {
    set k | k in entries && entries[k].done.Some? :: (k, entries[k].done.value)
  }

  lemma OpenMeans(entries: map<Key, Entry>, p: (Key, nat))
    ensures p in Open(entries) <==> p.0 in entries && entries[p.0].done == Some(p.1)
  {
    if p.0 in entries && entries[p.0].done == Some(p.1) {
      assert p == (p.0, entries[p.0].done.value);
    }
  }

  lemma EnteringOpens(t: Table, key: Key, fingerprint: string, now: int)
    ensures var under := Open(Entered(t, key, fingerprint, now).entries);
      match AnswerFor(t, key, fingerprint, now)
      case Lead(done) => under == Open(t.entries) + {(key, done)} && !IsOpen(t.entries, key)
      case Join(done) => under == Open(t.entries) && (key, done) in under
      case TooSoon(_) => under == Open(t.entries)
  {
    var entries := Entered(t, key, fingerprint, now).entries;
    var answer := AnswerFor(t, key, fingerprint, now);
    forall p ensures p in Open(entries) <==> p in Open(t.entries) || (answer.Lead? && p == (key, answer.done)) {
      OpenMeans(entries, p);
      OpenMeans(t.entries, p);
    }
    if answer.Join? {
      OpenMeans(entries, (key, answer.done));
    }
  }

  lemma ClosingCloses(t: Table, key: Key, finished: int, excused: bool, error: Option<Failure>)
    requires IsOpen(t.entries, key)
    ensures var u := Closed(t, key, finished, excused, error);
      Open(u.entries) == Open(t.entries) - {(key, t.entries[key].done.value)}
  {
    var u := Closed(t, key, finished, excused, error);
    forall p ensures p in Open(u.entries) <==> p in Open(t.entries) && p != (key, t.entries[key].done.value) {
      OpenMeans(u.entries, p);
      OpenMeans(t.entries, p);
    }
  }

  lemma ForgettingOpensNothing(t: Table)
    ensures Open(Forgotten(t).entries) == Open(t.entries)
  {
    var u := Forgotten(t);
    forall p ensures p in Open(u.entries) <==> p in Open(t.entries) {
      OpenMeans(u.entries, p);
      OpenMeans(t.entries, p);
    }
  }

  lemma PruningOpensNothing(t: Table, allowed: set<Key>)
    ensures Open(Pruned(t, allowed).entries) == Open(t.entries)
  {
    var u := Pruned(t, allowed);
    forall p ensures p in Open(u.entries) <==> p in Open(t.entries) {
      OpenMeans(u.entries, p);
      OpenMeans(t.entries, p);
    }
  }

  // ----- What a caller is told -----

  /** A caller waits for the collector at work; it makes do if the same sources were asked too recently; otherwise it
      collects itself, under a channel never used before. */
  lemma EnterMeaning(t: Table, key: Key, fingerprint: string, now: int)
    requires 0 <= now
    ensures var answer, open := AnswerFor(t, key, fingerprint, now), key in t.entries && t.entries[key].done.Some?;
      && (answer.Join? <==> open) && (open ==> answer == Join(t.entries[key].done.value))
      && (answer.Lead? <==> !open && (key in t.entries ==> t.entries[key].fingerprint != fingerprint || t.entries[key].nextAt <= now))
      && (answer.Lead? ==> answer == Lead(t.channels + 1))
      && (answer.TooSoon? && key in t.entries ==> answer == TooSoon(t.entries[key].error))
  {
  }

  /** After a collection that ran to its end the same sources are asked again exactly 30 seconds later, and until then
      callers are told its error; other sources, and the same ones after an interruption, are asked at once. */
  lemma PauseIsExact(t: Table, key: Key, finished: int, error: Option<Failure>, fingerprint: string, now: int)
    requires IsOpen(t.entries, key) && 0 <= now
    ensures var u := Closed(t, key, finished, false, error);
      AnswerFor(u, key, fingerprint, now)
      == if fingerprint == t.entries[key].fingerprint && now < finished + 30000 then TooSoon(error) else Lead(t.channels + 1)
    ensures AnswerFor(Closed(t, key, finished, true, error), key, fingerprint, now) == Lead(t.channels + 1)
    ensures AnswerFor(Forgotten(Closed(t, key, finished, false, error)), key, fingerprint, now) == Lead(t.channels + 1)
  {
  }

  /** A collection that was begun is the one the next callers join. */
  lemma NextCallerJoins(t: Table, key: Key, fingerprint: string, now: int, other: string, later: int)
    requires AnswerFor(t, key, fingerprint, now).Lead?
    ensures AnswerFor(Entered(t, key, fingerprint, now), key, other, later) == Join(t.channels + 1)
  {
  }
}
