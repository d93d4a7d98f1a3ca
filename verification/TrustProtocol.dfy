/**
 Every interleaving of server edits, deletions, probes in flight and saves of what they observed.
 */
module TrustProtocol {
  import opened Tables
  import opened TrustedPool
  import opened Eviction

  /** `lastEdit` remembers when a live server was created or last had its trust, enablement or
      address changed; `clock` counts steps. */
  datatype State = State(db: Db, inFlight: set<Source>, clock: nat, lastEdit: map<nat, nat>)

  const INITIAL := State(Db(map[], 0, map[]), {}, 1, map[])

  datatype Step =
    | AddServer(address: string, enabled: bool, trusted: bool)
    | EditServer(id: nat, newAddress: string, nowEnabled: bool, nowTrusted: bool)
    | DeleteServer(gone: nat)
    | Begin(server: nat)
    | Save(probe: Source, domain: string, records: seq<Record>)
    | Prune(keys: set<Key>)

  function Next(s: State, step: Step): State {
    var db := s.db;
    var out := match step
      case AddServer(address, enabled, trusted) =>
        var id := db.lastServer + 1;
        s.(db := db.(servers := db.servers[id := Server(address, enabled, trusted, 0)], lastServer := id),
           lastEdit := s.lastEdit[id := s.clock])
      case EditServer(id, address, enabled, trusted) =>
        if id !in db.servers then s
        else s.(db := Edited(db, id, address, enabled, trusted),
                lastEdit := if TrustChanges(db.servers[id], address, enabled, trusted) then s.lastEdit[id := s.clock] else s.lastEdit)
      case DeleteServer(id) => s.(db := Deleted(db, id), lastEdit := s.lastEdit - {id})
      case Begin(id) =>
        if id in db.servers then s.(inFlight := s.inFlight + {Source(id, db.servers[id], s.clock)}) else s
      case Save(probe, domain, records) =>
        if probe in s.inFlight then s.(db := Observed(db, probe, domain, records)) else s
      case Prune(keys) => s.(db := db.(pool := Restricted(db.pool, keys)));
    out.(clock := s.clock + 1)
  }

  ghost function Run(steps: seq<Step>): State {
    if |steps| == 0 then INITIAL else Next(Run(steps[..|steps| - 1]), steps[|steps| - 1])
  }

  // ----- Invariant -----

  ghost predicate Clocked(s: State) {
    && s.lastEdit.Keys == s.db.servers.Keys
    && (forall id :: id in s.db.servers ==> id <= s.db.lastServer && s.lastEdit[id] < s.clock)
    && (forall p :: p in s.inFlight ==> p.id <= s.db.lastServer && p.begun < s.clock)
  }

  /** A probe in flight still holds the server's epoch exactly when nothing that matters to trust
      has changed since it began, and then it holds the server's current row. */
  ghost predicate EpochsTell(s: State) {
    forall p :: p in s.inFlight && p.id in s.db.servers ==>
      && p.server.epoch <= s.db.servers[p.id].epoch
      && p.id in s.lastEdit
      && (p.server.epoch == s.db.servers[p.id].epoch <==> s.lastEdit[p.id] < p.begun)
      && (p.server.epoch == s.db.servers[p.id].epoch ==> p.server == s.db.servers[p.id])
  }

  ghost predicate EntryIsCurrent(s: State, k: Key) {
    && k in s.db.pool && k.server in s.db.servers && k.server in s.lastEdit
    && s.db.servers[k.server].trusted && s.db.servers[k.server].enabled
    && s.db.pool[k].address == s.db.servers[k.server].address
    && s.lastEdit[k.server] < s.db.pool[k].begun
  }

  ghost predicate PoolIsCurrent(s: State) {
    forall k {:trigger EntryIsCurrent(s, k)} {:trigger k in s.db.pool} :: k in s.db.pool ==> EntryIsCurrent(s, k)
  }

  ghost predicate PoolIsBounded(pool: map<Key, Entry>) {
    && |pool| <= POOL_LIMIT
    && forall server, domain :: |SubjectKeys(pool, server, domain)| <= SUBJECT_LIMIT
  }

  ghost predicate Invariant(s: State) {
    Clocked(s) && EpochsTell(s) && PoolIsCurrent(s) && PoolIsBounded(s.db.pool)
  }

  // ----- Saving -----

  lemma {:induction false} StoredEntries(pool: map<Key, Entry>, p: Source, address: string, domain: string, records: seq<Record>)
    ensures var out := AllStored(pool, p, address, domain, records);
            && pool.Keys <= out.Keys
            && forall k :: k in out ==>
                 || (k in pool && out[k] == pool[k])
                 || (k.server == p.id && k.domain == domain && out[k].address == address && out[k].begun == p.begun)
  {
    if |records| > 0 {
      StoredEntries(pool, p, address, domain, records[..|records| - 1]);
    }
  }

  lemma TrimIsSubset(pool: map<Key, Entry>, keys: set<Key>, limit: nat)
    requires keys <= pool.Keys
    ensures var out := TrimmedTo(pool, keys, limit);
            && out.Keys <= pool.Keys && (forall k :: k in out ==> out[k] == pool[k])
            && |out.Keys * keys| <= limit
  {
    TrimmingEvictsOldest(pool, keys, limit);
  }

  lemma SubjectShrinks(pool: map<Key, Entry>, out: map<Key, Entry>, server: nat, domain: string)
    requires forall k :: k in out && k.server == server && k.domain == domain ==> k in pool
    ensures |SubjectKeys(out, server, domain)| <= |SubjectKeys(pool, server, domain)|
  {
    var a, b := SubjectKeys(out, server, domain), SubjectKeys(pool, server, domain);
    assert a + (b - a) == b;
  }

  lemma KeysCount(pool: map<Key, Entry>)
    ensures |pool| == |pool.Keys|
  {
  }

  /** After every save the pool is within both limits. */
  lemma SavingKeepsBounds(db: Db, p: Source, domain: string, records: seq<Record>)
    requires PoolIsBounded(db.pool)
    ensures PoolIsBounded(Observed(db, p, domain, records).pool)
  {
    hide TrimmedTo, AllStored, PoolIsBounded, SubjectKeys;
    if domain != "" && |records| > 0 && IsCurrent(db, p) {
      var address := db.servers[p.id].address;
      var stored := AllStored(db.pool, p, address, domain, records);
      SavedPoolBounded(db.pool, stored, p, address, domain, records);
    }
  }

  lemma SavedPoolBounded(pool: map<Key, Entry>, stored: map<Key, Entry>, p: Source, address: string, domain: string, records: seq<Record>)
    requires PoolIsBounded(pool) && stored == AllStored(pool, p, address, domain, records)
    ensures var trimmed := TrimmedTo(stored, SubjectKeys(stored, p.id, domain), SUBJECT_LIMIT);
            PoolIsBounded(TrimmedTo(trimmed, trimmed.Keys, POOL_LIMIT))
  {
    hide TrimmedTo, AllStored;
    StoredEntries(pool, p, address, domain, records);
    var subject := SubjectKeys(stored, p.id, domain);
    var trimmed := TrimmedTo(stored, subject, SUBJECT_LIMIT);
    TrimIsSubset(stored, subject, SUBJECT_LIMIT);
    var out := TrimmedTo(trimmed, trimmed.Keys, POOL_LIMIT);
    TrimIsSubset(trimmed, trimmed.Keys, POOL_LIMIT);
    assert out.Keys * trimmed.Keys == out.Keys;
    KeysCount(out);
    forall server, d ensures |SubjectKeys(out, server, d)| <= SUBJECT_LIMIT {
      if server == p.id && d == domain {
        assert SubjectKeys(trimmed, server, d) == trimmed.Keys * subject;
        SubjectShrinks(trimmed, out, server, d);
      } else {
        SubjectShrinks(pool, out, server, d);
      }
    }
  }

  lemma SavedEntries(db: Db, p: Source, domain: string, records: seq<Record>, k: Key)
    requires k in Observed(db, p, domain, records).pool
    ensures var e := Observed(db, p, domain, records).pool[k];
            || (k in db.pool && e == db.pool[k])
            || (IsCurrent(db, p) && k.server == p.id && e.address == db.servers[p.id].address && e.begun == p.begun)
  {
    hide TrimmedTo, AllStored;
    if domain != "" && |records| > 0 && IsCurrent(db, p) {
      var address := db.servers[p.id].address;
      var stored := AllStored(db.pool, p, address, domain, records);
      StoredEntries(db.pool, p, address, domain, records);
      var subject := SubjectKeys(stored, p.id, domain);
      TrimIsSubset(stored, subject, SUBJECT_LIMIT);
      var trimmed := TrimmedTo(stored, subject, SUBJECT_LIMIT);
      TrimIsSubset(trimmed, trimmed.Keys, POOL_LIMIT);
    }
  }

  // ----- Every step keeps the invariant -----

  lemma StepKeepsClocks(s: State, step: Step)
    requires Invariant(s)
    ensures Clocked(Next(s, step)) && EpochsTell(Next(s, step))
  {
    hide PoolIsBounded, PoolIsCurrent, Observed, Restricted, WithoutServer;
    if step.Save? {
      SavingKeepsServers(s.db, step.probe, step.domain, step.records);
    }
  }

  lemma SavingKeepsServers(db: Db, p: Source, domain: string, records: seq<Record>)
    ensures var out := Observed(db, p, domain, records);
            out.servers == db.servers && out.lastServer == db.lastServer
  {
    hide TrimmedTo, AllStored;
  }

  lemma StepKeepsPoolCurrent(s: State, step: Step)
    requires Invariant(s)
    ensures PoolIsCurrent(Next(s, step))
  {
    hide PoolIsBounded, Observed;
    var out := Next(s, step);
    forall k | k in out.db.pool ensures EntryIsCurrent(out, k) {
      if step.Save? && step.probe in s.inFlight {
        SavedEntries(s.db, step.probe, step.domain, step.records, k);
        SavingKeepsServers(s.db, step.probe, step.domain, step.records);
        if k in s.db.pool { assert EntryIsCurrent(s, k); }
      } else {
        assert EntryIsCurrent(s, k);
      }
    }
  }

  lemma ShrinkKeepsBounds(pool: map<Key, Entry>, out: map<Key, Entry>)
    requires PoolIsBounded(pool) && out.Keys <= pool.Keys
    ensures PoolIsBounded(out)
  {
    assert out.Keys + (pool.Keys - out.Keys) == pool.Keys;
    KeysCount(out);
    KeysCount(pool);
    forall server, domain ensures |SubjectKeys(out, server, domain)| <= SUBJECT_LIMIT {
      SubjectShrinks(pool, out, server, domain);
    }
  }

  lemma StepKeepsInvariant(s: State, step: Step)
    requires Invariant(s)
    ensures Invariant(Next(s, step))
  {
    hide Clocked, EpochsTell, PoolIsCurrent, PoolIsBounded, Observed;
    StepKeepsClocks(s, step);
    StepKeepsPoolCurrent(s, step);
    match step
    case Save(p, domain, records) => SavingKeepsBounds(s.db, p, domain, records);
    case _ => ShrinkKeepsBounds(s.db.pool, Next(s, step).db.pool);
  }

  lemma {:induction false} RunKeepsInvariant(steps: seq<Step>)
    ensures Invariant(Run(steps))
  {
    if |steps| > 0 {
      RunKeepsInvariant(steps[..|steps| - 1]);
      hide Invariant;
      StepKeepsInvariant(Run(steps[..|steps| - 1]), steps[|steps| - 1]);
    } else {
      forall server, domain ensures SubjectKeys(map[], server, domain) == {} {}
    }
  }

  // ----- What the protocol guarantees -----

  /** In every run, a pooled observation belongs to a live, trusted, enabled server at the same
      address, and its probe began after the last change of any of those; the pool is bounded. */
  lemma PoolNeverHoldsRevokedEvidence(steps: seq<Step>, k: Key)
    requires k in Run(steps).db.pool
    ensures var s := Run(steps);
            && k.server in s.db.servers
            && s.db.servers[k.server].trusted && s.db.servers[k.server].enabled
            && s.db.pool[k].address == s.db.servers[k.server].address
            && k.server in s.lastEdit && s.lastEdit[k.server] < s.db.pool[k].begun
            && |s.db.pool| <= POOL_LIMIT
            && |SubjectKeys(s.db.pool, k.server, k.domain)| <= SUBJECT_LIMIT
  {
    RunKeepsInvariant(steps);
    hide Run;
    assert EntryIsCurrent(Run(steps), k);
  }

  /** The save transaction accepts a probe exactly when its server is live, was trusted and enabled
      when the probe began, and has not changed trust, enablement or address since. In particular a
      probe that straddles "untrust, trust again" is refused although every field looks the same. */
  lemma AcceptedIffUntouched(steps: seq<Step>, p: Source)
    requires p in Run(steps).inFlight
    ensures var s := Run(steps);
            IsCurrent(s.db, p) <==>
            p.id in s.db.servers && p.server.trusted && p.server.enabled
            && p.id in s.lastEdit && s.lastEdit[p.id] < p.begun
  {
    RunKeepsInvariant(steps);
    hide Run, PoolIsBounded, PoolIsCurrent;
  }
}
