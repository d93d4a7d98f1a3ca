/**
 What each transaction does to the pool of trusted observations, in terms of servers, records and rows.
 */
module PoolMeaning {
  import opened Tables
  import opened Ranking
  import opened TrustedPool
  import E = Eviction

  // ----- Servers -----

  /** A server's row always takes the new values. If its trust, enablement or address changes, its epoch rises by one and
      its rows leave the pool; otherwise neither happens. */
  lemma EditMeaning(db: Db, id: nat, address: string, enabled: bool, trusted: bool)
    requires id in db.servers
    ensures var out, was := Edited(db, id, address, enabled, trusted), db.servers[id];
      var same := was.address == address && was.enabled == enabled && was.trusted == trusted;
      && out.servers == db.servers[id := Server(address, enabled, trusted, if same then was.epoch else was.epoch + 1)]
      && out.lastServer == db.lastServer
      && (forall k :: k in out.pool <==> k in db.pool && (same || k.server != id))
      && (forall k :: k in out.pool ==> out.pool[k] == db.pool[k])
  {
  }

  /** A deleted server leaves with its rows. */
  lemma DeleteMeaning(db: Db, id: nat)
    ensures var out := Deleted(db, id);
      && out.servers == db.servers - {id} && out.lastServer == db.lastServer
      && (forall k :: k in out.pool <==> k in db.pool && k.server != id)
      && (forall k :: k in out.pool ==> out.pool[k] == db.pool[k])
  {
  }

  // ----- Saving records -----

  /** A record that can be stored under the key: an address, observed at a positive time, with a TTL that is not negative. */
  predicate IsFor(r: Record, p: Source, domain: string, k: Key) {
    k.server == p.id && k.domain == domain && r.value == Some(k.value) && 0 < r.observedAt && 0 <= r.ttl
  }

  /** The row of a record: it expires when the record does, but not before it was observed and at most 30 days later. */
  predicate IsRowOf(e: Entry, r: Record, p: Source, address: string) {
    && e.address == address && e.ttl == r.ttl && e.observedAt == r.observedAt && e.begun == p.begun
    && e.expiresAt == (
         if r.expiresAt < r.observedAt then r.observedAt
         else if r.observedAt + 2592000000 < r.expiresAt then r.observedAt + 2592000000
         else r.expiresAt)
  }

  ghost predicate HasRecord(records: seq<Record>, p: Source, domain: string, k: Key) {
    exists r :: r in records && IsFor(r, p, domain, k)
  }

  /** The row under a key after some records were stored: the latest of the old row and of the records for the key. */
  ghost predicate HoldsLatest(pool: map<Key, Entry>, out: map<Key, Entry>, p: Source, address: string, domain: string, records: seq<Record>, k: Key) {
    && (k in out <==> k in pool || HasRecord(records, p, domain, k))
    && (k in out ==>
         && (k in pool ==> pool[k].observedAt <= out[k].observedAt)
         && (forall r :: r in records && IsFor(r, p, domain, k) ==> r.observedAt <= out[k].observedAt)
         && ((k in pool && out[k] == pool[k]) || exists r :: r in records && IsFor(r, p, domain, k) && IsRowOf(out[k], r, p, address)))
  }

  lemma {:induction false} StoringMeaning(pool: map<Key, Entry>, p: Source, address: string, domain: string, records: seq<Record>, k: Key)
    ensures HoldsLatest(pool, AllStored(pool, p, address, domain, records), p, address, domain, records, k)
  {
    if |records| > 0 {
      var n := |records| - 1;
      StoringMeaning(pool, p, address, domain, records[..n], k);
      OneMoreStored(pool, AllStored(pool, p, address, domain, records[..n]), p, address, domain, records, k);
    }
  }

  lemma OneMoreStored(pool: map<Key, Entry>, out: map<Key, Entry>, p: Source, address: string, domain: string, records: seq<Record>, k: Key)
    requires |records| > 0 && HoldsLatest(pool, out, p, address, domain, records[..|records| - 1], k)
    ensures HoldsLatest(pool, Stored(out, p, address, domain, records[|records| - 1]), p, address, domain, records, k)
  {
    var n := |records| - 1;
    var r := records[n];
    assert forall x :: x in records <==> x in records[..n] || x == r;
    StoredUnder(out, p, address, domain, r, k);
    hide Stored, IsRowOf, IsFor;
  }

  lemma StoredUnder(pool: map<Key, Entry>, p: Source, address: string, domain: string, r: Record, k: Key)
    ensures var out := Stored(pool, p, address, domain, r);
      if IsFor(r, p, domain, k) && (k in pool ==> pool[k].observedAt <= r.observedAt)
      then k in out && IsRowOf(out[k], r, p, address) && out[k].observedAt == r.observedAt
      else (k in out <==> k in pool) && (k in pool ==> out[k] == pool[k])
  {
  }

  // ----- Limits -----

  /** At most so many of the keys are kept, and a row goes only when that many are and none of them was observed before it. */
  ghost predicate KeepsLatest(pool: map<Key, Entry>, out: map<Key, Entry>, keys: set<Key>, limit: nat) {
    && (forall k :: k in out ==> k in pool && out[k] == pool[k])
    && (forall k :: k in pool && k !in keys ==> k in out)
    && |out.Keys * keys| <= limit
    && forall gone, k :: gone in pool && gone !in out ==>
         |out.Keys * keys| == limit && (k in out && k in keys ==> pool[gone].observedAt <= pool[k].observedAt)
  }

  lemma TrimmingKeepsLatest(pool: map<Key, Entry>, keys: set<Key>, limit: nat)
    requires keys <= pool.Keys
    ensures KeepsLatest(pool, TrimmedTo(pool, keys, limit), keys, limit)
  {
    E.TrimmingEvictsOldest(pool, keys, limit);
    hide TrimmedTo;
    forall a, b | Precedes(pool, a, b) ensures pool[b].observedAt <= pool[a].observedAt {}
    hide Precedes;
  }

  /** The rows of a server for a domain. */
  ghost predicate AreOf(keys: set<Key>, pool: map<Key, Entry>, server: nat, domain: string) {
    forall k :: k in keys <==> k in pool && k.server == server && k.domain == domain
  }

  /** What a probe that passes leaves in the pool: its records are stored, then the server's rows for the domain are cut to
      256 and the pool to 16384. */
  ghost predicate SavesRecords(pool: map<Key, Entry>, out: map<Key, Entry>, p: Source, address: string, domain: string, records: seq<Record>) {
    exists stored, subject, trimmed ::
      && (forall k :: HoldsLatest(pool, stored, p, address, domain, records, k))
      && AreOf(subject, stored, p.id, domain) && KeepsLatest(stored, trimmed, subject, 256)
      && KeepsLatest(trimmed, out, trimmed.Keys, 16384)
  }

  lemma SavedPoolMeaning(pool: map<Key, Entry>, p: Source, address: string, domain: string, records: seq<Record>)
    ensures SavesRecords(pool, SavedPool(pool, p, address, domain, records), p, address, domain, records)
  {
    hide AllStored, TrimmedTo, HoldsLatest, KeepsLatest;
    var stored := AllStored(pool, p, address, domain, records);
    forall k ensures HoldsLatest(pool, stored, p, address, domain, records, k) {
      StoringMeaning(pool, p, address, domain, records, k);
    }
    var subject := SubjectKeys(stored, p.id, domain);
    TrimmingKeepsLatest(stored, subject, SUBJECT_LIMIT);
    var trimmed := TrimmedTo(stored, subject, SUBJECT_LIMIT);
    TrimmingKeepsLatest(trimmed, trimmed.Keys, POOL_LIMIT);
    assert AreOf(subject, stored, p.id, domain);
  }

  /** A probe passes if its server is still there, enabled and trusted, at the address and in the epoch it was probed with;
      otherwise, or without a domain or records, nothing changes. */
  lemma ObservedMeaning(db: Db, p: Source, domain: string, records: seq<Record>)
    ensures var out := Observed(db, p, domain, records);
      var passes := domain != "" && records != [] && p.id in db.servers && db.servers[p.id].enabled && db.servers[p.id].trusted
        && db.servers[p.id].address == p.server.address && db.servers[p.id].epoch == p.server.epoch;
      && out.servers == db.servers && out.lastServer == db.lastServer
      && if passes then SavesRecords(db.pool, out.pool, p, p.server.address, domain, records) else out.pool == db.pool
  {
    hide SavedPool, SavesRecords;
    if IsCurrent(db, p) { SavedPoolMeaning(db.pool, p, db.servers[p.id].address, domain, records); }
  }
}
