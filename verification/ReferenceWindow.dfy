/**
 Which pooled observations still count as references, and why pruning the pool is invisible.
 */
module ReferenceWindow {
  import opened Tables
  import opened TrustedPool

  const HOUR := 3600000.0

  /** now - int64(hours * 3600000), with the window capped at 720 hours and off at zero or less. */
  function Cutoff(now: int, hours: real): int {
    if hours <= 0.0 then now
    else now - ((if 720.0 < hours then 720.0 else hours) * HOUR).Floor
  }

  /** The WHERE clause that reads references. */
  predicate IsReference(e: Entry, now: int, hours: real) {
    && now - RETENTION <= e.observedAt
    && (now < e.expiresAt || (0.0 < hours && Cutoff(now, hours) < e.observedAt))
  }

  /** The WHERE clause that prunes the pool. */
  predicate IsPrunable(e: Entry, now: int, hours: real) {
    || e.observedAt < now - RETENTION
    || (e.expiresAt <= now && (hours <= 0.0 || e.observedAt <= Cutoff(now, hours)))
  }

  function Prune(pool: map<Key, Entry>, now: int, hours: real): map<Key, Entry> {
    map k | k in pool && !IsPrunable(pool[k], now, hours) :: pool[k]
  }

  predicate IsSource(servers: map<nat, Server>, k: Key, e: Entry) {
    && k.server in servers
    && servers[k.server].trusted && servers[k.server].enabled && e.address == servers[k.server].address
  }

  /** The references for a domain at a time, under a history setting. */
  function References(servers: map<nat, Server>, pool: map<Key, Entry>, domain: string, now: int, hours: real): map<Key, Entry> {
    map k | k in pool && k.domain == domain && IsSource(servers, k, pool[k]) && IsReference(pool[k], now, hours) :: pool[k]
  }

  lemma WindowGrowsWithHours(a: real, b: real)
    requires 0.0 < a <= b
    ensures (if 720.0 < a then 720.0 else a) * HOUR <= (if 720.0 < b then 720.0 else b) * HOUR
  {
  }

  /** Pruning removes exactly the rows that are no reference now. */
  lemma PrunableIffNotReference(e: Entry, now: int, hours: real)
    ensures IsPrunable(e, now, hours) <==> !IsReference(e, now, hours)
  {
  }

  lemma CutoffMoves(now: int, hours: real, later: int, fewer: real)
    requires now <= later && fewer <= hours && 0.0 < fewer
    ensures Cutoff(now, hours) <= Cutoff(later, fewer)
  {
    WindowGrowsWithHours(fewer, hours);
    FloorGrows((if 720.0 < fewer then 720.0 else fewer) * HOUR, (if 720.0 < hours then 720.0 else hours) * HOUR);
  }

  /** The history window never reaches further back than retention does. */
  lemma CutoffIsBounded(now: int, hours: real)
    ensures now - RETENTION <= Cutoff(now, hours) <= now
  {
    if 0.0 < hours {
      var h := if 720.0 < hours then 720.0 else hours;
      assert 0.0 <= h * HOUR <= 720.0 * HOUR;
      FloorGrows(h * HOUR, 720.0 * HOUR);
      assert (720.0 * HOUR).Floor == RETENTION;
    }
  }

  lemma FloorGrows(a: real, b: real)
    requires a <= b
    ensures a.Floor <= b.Floor
  {
  }

  /** What saving an observation guarantees, given that a lookup stamps expiry as observation plus TTL. */
  ghost predicate WellFormed(e: Entry) {
    && 0 < e.observedAt <= e.expiresAt <= e.observedAt + RETENTION
    && 0 <= e.ttl && e.expiresAt <= e.observedAt + 1000 * e.ttl
  }

  ghost predicate ObservedBy(pool: map<Key, Entry>, now: int) {
    forall k :: k in pool ==> WellFormed(pool[k]) && pool[k].observedAt <= now
  }

  /** A later read under another history setting looks no further back than the pruning did; times are positive, so
      looking back beyond zero makes no difference. */
  predicate LooksNoFurther(now: int, hours: real, later: int, other: real) {
    other <= 0.0 || Cutoff(now, hours) <= Max(0, Cutoff(later, other))
  }

  /** Whatever the pool holds when it is pruned, a later read under the other setting returns what it would have
      returned without pruning. */
  ghost predicate Invisible(now: int, hours: real, later: int, other: real) {
    forall servers, pool, domain :: ObservedBy(pool, now) ==>
      References(servers, Prune(pool, now, hours), domain, later, other) == References(servers, pool, domain, later, other)
  }

  lemma PrunedStaysUnreferenced(e: Entry, now: int, hours: real, later: int, other: real)
    requires now <= later && IsPrunable(e, now, hours)
    requires LooksNoFurther(now, hours, later, other)
    requires WellFormed(e) || other <= hours
    ensures !IsReference(e, later, other)
  {
    CutoffIsBounded(now, hours);
    if 0.0 < other <= hours { CutoffMoves(now, hours, later, other); }
  }

  lemma PrunedRowsAreUnread(servers: map<nat, Server>, pool: map<Key, Entry>, domain: string,
                            now: int, hours: real, later: int, other: real)
    requires forall k :: k in pool && IsPrunable(pool[k], now, hours) ==> !IsReference(pool[k], later, other)
    ensures References(servers, Prune(pool, now, hours), domain, later, other) == References(servers, pool, domain, later, other)
  {
    hide IsReference, IsPrunable;
  }

  /** Pruning is invisible to a later read exactly when that read looks no further back than the pruning did. */
  lemma PruningIsInvisibleIff(now: int, hours: real, later: int, other: real)
    requires now <= later
    ensures Invisible(now, hours, later, other) <==> LooksNoFurther(now, hours, later, other)
  {
    if LooksNoFurther(now, hours, later, other) {
      forall servers, pool, domain | ObservedBy(pool, now)
        ensures References(servers, Prune(pool, now, hours), domain, later, other) == References(servers, pool, domain, later, other)
      {
        forall k | k in pool && IsPrunable(pool[k], now, hours) ensures !IsReference(pool[k], later, other) {
          PrunedStaysUnreferenced(pool[k], now, hours, later, other);
        }
        PrunedRowsAreUnread(servers, pool, domain, now, hours, later, other);
      }
    } else {
      MissedRow(now, hours, later, other);
    }
  }

  /** Otherwise the last row the pruning drops is missed. */
  lemma MissedRow(now: int, hours: real, later: int, other: real)
    requires now <= later && !LooksNoFurther(now, hours, later, other)
    ensures !Invisible(now, hours, later, other)
  {
    CutoffIsBounded(now, hours);
    CutoffIsBounded(later, other);
    var at := Cutoff(now, hours);
    var e := Entry("192.0.2.1:53", 0, at, at, 0);
    var k := Key(1, "example", "192.0.2.10");
    var servers, pool := map[1 := Server("192.0.2.1:53", true, true, 0)], map[k := e];
    assert IsPrunable(e, now, hours) && IsReference(e, later, other) && ObservedBy(pool, now);
    assert k in References(servers, pool, "example", later, other);
    assert k !in References(servers, Prune(pool, now, hours), "example", later, other);
  }

  /** In particular at any later time, under any history setting that is not longer, every read returns what it would
      have returned without pruning, whatever rows the pool holds. */
  lemma PruningIsInvisible(servers: map<nat, Server>, pool: map<Key, Entry>, domain: string,
                           now: int, hours: real, later: int, fewer: real)
    requires now <= later && fewer <= hours
    ensures References(servers, Prune(pool, now, hours), domain, later, fewer) == References(servers, pool, domain, later, fewer)
    ensures LooksNoFurther(now, hours, later, fewer)
  {
    if 0.0 < fewer { CutoffMoves(now, hours, later, fewer); }
    forall k | k in pool && IsPrunable(pool[k], now, hours) ensures !IsReference(pool[k], later, fewer) {
      PrunedStaysUnreferenced(pool[k], now, hours, later, fewer);
    }
    PrunedRowsAreUnread(servers, pool, domain, now, hours, later, fewer);
  }

  /** A longer history setting can miss a pruned row: one hour of history, pruned, then raised to two. */
  lemma LongerHistoryMayMissPruned()
    ensures !Invisible(105400000, 1.0, 105400000, 2.0)
    ensures Invisible(105400000, 1.0, 105400000 + 3600000, 2.0)
  {
    assert (1.0 * HOUR).Floor == 3600000 && (2.0 * HOUR).Floor == 7200000;
    PruningIsInvisibleIff(105400000, 1.0, 105400000, 2.0);
    PruningIsInvisibleIff(105400000, 1.0, 105400000 + 3600000, 2.0);
  }

  // ----- What the query reads -----

  /** A row is read if its server is trusted, enabled and at the same address, and it was observed in the last 30 days
      and is unexpired or inside the history window, which is at most 720 hours. */
  lemma ReferencesMean(servers: map<nat, Server>, pool: map<Key, Entry>, domain: string, now: int, hours: real, k: Key)
    ensures var refs := References(servers, pool, domain, now, hours);
      && (k in refs <==>
            && k in pool && k.domain == domain && k.server in servers
            && servers[k.server].trusted && servers[k.server].enabled && servers[k.server].address == pool[k].address
            && now - 30 * 24 * 3600000 <= pool[k].observedAt
            && (now < pool[k].expiresAt || InHistory(pool[k].observedAt, now, hours)))
      && (k in refs ==> refs[k] == pool[k])
  {
  }

  predicate InHistory(at: int, now: int, hours: real) {
    0.0 < hours && now - ((if hours <= 720.0 then hours else 720.0) * 3600000.0).Floor < at
  }

  /** Saving a record the way a lookup stamps it yields a well-formed row. */
  lemma SavedRecordIsWellFormed(p: Source, address: string, r: Record)
    requires 0 < r.observedAt && 0 <= r.ttl && r.expiresAt == r.observedAt + 1000 * r.ttl
    ensures WellFormed(Entry(address, r.ttl, r.observedAt, Bounded(r), p.begun))
  {
  }
}
