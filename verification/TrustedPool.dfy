/**
 The pool of trusted observations and the epoch protocol that guards it.

 A probe of a trusted server reads the server's row, runs for a while, and then tries to save what
 it observed. Meanwhile the server can be edited or deleted. The transaction that saves compares the
 row's trust epoch with the one the probe started under; a trigger bumps the epoch and empties the
 server's share of the pool on every change of trust, enablement or address.
 */
module TrustedPool {
  import opened Tables
  import opened Ranking

  const SUBJECT_LIMIT := 256
  const POOL_LIMIT := 16384
  const RETENTION := 30 * 24 * 60 * 60 * 1000

  datatype Server = Server(address: string, enabled: bool, trusted: bool, epoch: nat)

  datatype Key = Key(server: nat, domain: string, value: string)

  /** `begun` is the step at which the probe behind the observation read its server's row. */
  datatype Entry = Entry(address: string, ttl: int, observedAt: int, expiresAt: int, begun: nat)

  datatype Db = Db(servers: map<nat, Server>, lastServer: nat, pool: map<Key, Entry>)

  // ----- Editing servers -----

  /** The trigger's condition. */
  predicate TrustChanges(s: Server, address: string, enabled: bool, trusted: bool) {
    s.trusted != trusted || s.enabled != enabled || s.address != address
  }

  function WithoutServer(pool: map<Key, Entry>, server: nat): map<Key, Entry> {
    map k | k in pool && k.server != server :: pool[k]
  }

  function Edited(db: Db, id: nat, address: string, enabled: bool, trusted: bool): Db
    requires id in db.servers
  {
    var s := db.servers[id];
    if TrustChanges(s, address, enabled, trusted)
    then db.(servers := db.servers[id := Server(address, enabled, trusted, s.epoch + 1)],
             pool := WithoutServer(db.pool, id))
    else db
  }

  function Deleted(db: Db, id: nat): Db {
    db.(servers := db.servers - {id}, pool := WithoutServer(db.pool, id))
  }

  // ----- Saving an observation -----

  /** An answer record; the value is the dotted IPv4 text, if it parses as one. */
  datatype Record = Record(value: Option<string>, ttl: int, observedAt: int, expiresAt: int)

  /** What a probe started from. */
  datatype Source = Source(id: nat, server: Server, begun: nat)

  predicate IsCurrent(db: Db, p: Source) {
    && p.id in db.servers
    && var s := db.servers[p.id];
       s.enabled && s.trusted && s.address == p.server.address && s.epoch == p.server.epoch
  }

  function Bounded(r: Record): int {
    Max(r.observedAt, Min(r.expiresAt, r.observedAt + RETENTION))
  }

  /** INSERT ... ON CONFLICT DO UPDATE ... WHERE excluded.observed_at>=observed_at */
  function Upserted(pool: map<Key, Entry>, k: Key, e: Entry): map<Key, Entry> {
    if k in pool && e.observedAt < pool[k].observedAt then pool else pool[k := e]
  }

  function Stored(pool: map<Key, Entry>, p: Source, address: string, domain: string, r: Record): map<Key, Entry> {
    if r.value.None? || r.observedAt <= 0 || r.ttl < 0 then pool
    else Upserted(pool, Key(p.id, domain, r.value.value), Entry(address, r.ttl, r.observedAt, Bounded(r), p.begun))
  }

  function AllStored(pool: map<Key, Entry>, p: Source, address: string, domain: string, records: seq<Record>): map<Key, Entry> {
    if |records| == 0 then pool
    else
      var n := |records| - 1;
      Stored(AllStored(pool, p, address, domain, records[..n]), p, address, domain, records[n])
  }

  predicate KeyLess(a: Key, b: Key) {
    a.server < b.server
    || (a.server == b.server && (TextLess(a.domain, b.domain) || (a.domain == b.domain && TextLess(a.value, b.value))))
  }

  /** ORDER BY observed_at DESC, server_id, domain, type, value */
  predicate Precedes(pool: map<Key, Entry>, a: Key, b: Key) {
    a in pool && b in pool &&
    (pool[a].observedAt > pool[b].observedAt || (pool[a].observedAt == pool[b].observedAt && KeyLess(a, b)))
  }

  function SubjectKeys(pool: map<Key, Entry>, server: nat, domain: string): set<Key> {
    set k | k in pool && k.server == server && k.domain == domain
  }

  function Restricted(pool: map<Key, Entry>, gone: set<Key>): map<Key, Entry> {
    map k | k in pool && k !in gone :: pool[k]
  }

  function TrimmedTo(pool: map<Key, Entry>, keys: set<Key>, limit: nat): map<Key, Entry> {
    Restricted(pool, keys - FirstRows(keys, (a: Key, b: Key) => Precedes(pool, a, b), limit))
  }

  /** The pool after a save that is let through: the upserts, then both limits. */
  function SavedPool(pool: map<Key, Entry>, p: Source, address: string, domain: string, records: seq<Record>): map<Key, Entry> {
    var stored := AllStored(pool, p, address, domain, records);
    var trimmed := TrimmedTo(stored, SubjectKeys(stored, p.id, domain), SUBJECT_LIMIT);
    TrimmedTo(trimmed, trimmed.Keys, POOL_LIMIT)
  }

  function Observed(db: Db, p: Source, domain: string, records: seq<Record>): Db {
    if domain == "" || |records| == 0 || !IsCurrent(db, p) then db
    else
      db.(pool := SavedPool(db.pool, p, db.servers[p.id].address, domain, records))
  }

  /** The tables, updated in place. */
  class TrustedStore {
    var db: Db

    constructor ()
      ensures db == Db(map[], 0, map[])
    {
      db := Db(map[], 0, map[]);
    }

    /** Saves a probe's records if its source is still the one it probed. */
    method SaveTrustedObservation(p: Source, success: bool, domain: string, records: seq<Record>)
      modifies this
      ensures db == if success then Observed(old(db), p, domain, records) else old(db)
    {
      if !success || domain == "" || |records| == 0 {
        return;
      }
      if p.id !in db.servers {
        return;
      }
      var current := db.servers[p.id];
      if !current.enabled || !current.trusted || current.address != p.server.address || current.epoch != p.server.epoch {
        return;
      }
      hide TrimmedTo, Stored;
      var tx := db.pool;
      for i := 0 to |records|
        modifies {}
        invariant tx == AllStored(db.pool, p, current.address, domain, records[..i])
      {
        assert records[..i + 1][..i] == records[..i];
        tx := Stored(tx, p, current.address, domain, records[i]);
      }
      assert records[..|records|] == records;
      tx := TrimmedTo(tx, SubjectKeys(tx, p.id, domain), SUBJECT_LIMIT);
      tx := TrimmedTo(tx, tx.Keys, POOL_LIMIT);
      db := db.(pool := tx);
    }

    /** Updates a server; the trigger runs in the same transaction. */
    method SaveServer(id: nat, address: string, enabled: bool, trusted: bool) returns (ok: bool)
      modifies this
      ensures ok <==> id in old(db).servers
      ensures db == if ok then Edited(old(db), id, address, enabled, trusted) else old(db)
    {
      if id !in db.servers {
        return false;
      }
      var was := db.servers[id];
      db := db.(servers := db.servers[id := Server(address, enabled, trusted, was.epoch)]);
      if was.trusted != trusted || was.enabled != enabled || was.address != address {
        var updated := db.servers[id];
        db := db.(pool := WithoutServer(db.pool, id), servers := db.servers[id := updated.(epoch := updated.epoch + 1)]);
      }
      return true;
    }
  }
}
