/**
 Pruning the pool while servers change and probes save, compared with never pruning it.
 */
module PruningOverTime {
  import opened Tables
  import opened Ranking
  import opened TrustedPool
  import opened ReferenceWindow
  import E = Eviction
  import T = TrustProtocol

  datatype Pruning = Pruning(now: int, hours: real)

  /** What happens to the trusted evidence: a step of the protocol, or the monitor's regular pruning. */
  datatype Event = Moves(step: T.Step) | Prunes(pruning: Pruning)

  function Expired(pool: map<Key, Entry>, p: Pruning): set<Key> {
    set k | k in pool && IsPrunable(pool[k], p.now, p.hours)
  }

  function After(s: T.State, e: Event, pruning: bool): T.State {
    match e
    case Moves(step) => T.Next(s, step)
    case Prunes(p) => T.Next(s, T.Prune(if pruning then Expired(s.db.pool, p) else {}))
  }

  /** The run with its prunings, or the same run with each of them skipped. */
  ghost function Played(s: T.State, events: seq<Event>, pruning: bool): T.State {
    if |events| == 0 then s else After(Played(s, events[..|events| - 1], pruning), events[|events| - 1], pruning)
  }

  // ----- Two pools, one of them pruned -----

  /** Some rows are gone and the rest is the same. */
  ghost predicate Submap(thin: map<Key, Entry>, full: map<Key, Entry>) {
    thin.Keys <= full.Keys && forall k :: k in thin ==> thin[k] == full[k]
  }

  ghost predicate IsPast(e: Entry, ps: set<Pruning>) {
    exists p :: p in ps && IsPrunable(e, p.now, p.hours)
  }

  /** Every row that is gone was one of the prunings' to drop. */
  ghost predicate Thins(full: map<Key, Entry>, thin: map<Key, Entry>, ps: set<Pruning>) {
    Submap(thin, full) && forall k :: k in full && k !in thin ==> IsPast(full[k], ps)
  }

  ghost predicate AllWellFormed(pool: map<Key, Entry>) {
    forall k :: k in pool ==> WellFormed(pool[k])
  }

  predicate IsStorable(r: Record) {
    r.value.Some? && 0 < r.observedAt && 0 <= r.ttl
  }

  function KeyOf(p: Source, domain: string, r: Record): Key
    requires r.value.Some?
  {
    Key(p.id, domain, r.value.value)
  }

  /** The record would be refused if the pruned row were still there. */
  predicate IsBackdated(full: map<Key, Entry>, left: set<Key>, p: Source, domain: string, r: Record) {
    && IsStorable(r)
    && var k := KeyOf(p, domain, r);
       k in full && k !in left && r.observedAt < full[k].observedAt
  }

  /** The rows among these that a limit keeps. */
  function Best(full: map<Key, Entry>, keys: set<Key>, limit: nat): set<Key> {
    FirstRows(keys, (a: Key, b: Key) => Precedes(full, a, b), limit)
  }

  /** The cut drops none of the rows that are left, or keeps only rows that are left. */
  predicate IsFairCut(full: map<Key, Entry>, left: set<Key>, keys: set<Key>, limit: nat) {
    keys * left <= Best(full, keys, limit) || Best(full, keys, limit) <= left
  }

  /** One upsert treats both pools alike exactly when the record is not backdated. */
  lemma UpsertStaysThinIff(full: map<Key, Entry>, thin: map<Key, Entry>, ps: set<Pruning>, p: Source, address: string, domain: string, r: Record)
    requires Thins(full, thin, ps)
    ensures Thins(Stored(full, p, address, domain, r), Stored(thin, p, address, domain, r), ps)
            <==> !IsBackdated(full, thin.Keys, p, domain, r)
  {
    hide IsPast;
    if IsBackdated(full, thin.Keys, p, domain, r) {
      var k := KeyOf(p, domain, r);
      assert Stored(thin, p, address, domain, r)[k].observedAt == r.observedAt;
      assert Stored(full, p, address, domain, r)[k] == full[k];
    }
  }

  /** One cut treats both pools alike exactly when it is fair; in any case it costs the pruned pool no row that the
      other one keeps. */
  lemma CuttingStaysThinIff(full: map<Key, Entry>, thin: map<Key, Entry>, ps: set<Pruning>, keys: set<Key>, limit: nat)
    requires Thins(full, thin, ps) && keys <= full.Keys
    ensures var f, t := TrimmedTo(full, keys, limit), TrimmedTo(thin, keys * thin.Keys, limit);
            && (forall k :: k in f && k in thin ==> k in t)
            && (Thins(f, t, ps) <==> IsFairCut(full, thin.Keys, keys, limit))
  {
    hide IsPast, FirstRows, Precedes;
    var less, lessThin := (a: Key, b: Key) => Precedes(full, a, b), (a: Key, b: Key) => Precedes(thin, a, b);
    E.PrecedesIsOrder(full, keys);
    FirstRowsOfSubset(keys, keys * thin.Keys, less, limit);
    SameCut(full, thin, keys * thin.Keys, limit);
    FirstRowsAreFirst(keys, less, limit);
    var kept, keptThin := FirstRows(keys, less, limit), FirstRows(keys * thin.Keys, lessThin, limit);
    assert FirstRows(keys * thin.Keys, less, limit) == keptThin;
    CutIsSubmap(full, thin, keys, kept, keptThin);
  }

  /** The order looks only at the rows compared. */
  lemma SameCut(full: map<Key, Entry>, thin: map<Key, Entry>, keys: set<Key>, limit: nat)
    requires Submap(thin, full) && keys <= thin.Keys
    ensures FirstRows(keys, (a: Key, b: Key) => Precedes(thin, a, b), limit)
            == FirstRows(keys, (a: Key, b: Key) => Precedes(full, a, b), limit) <= keys
  {
    var less, lessThin := (a: Key, b: Key) => Precedes(full, a, b), (a: Key, b: Key) => Precedes(thin, a, b);
    forall k | k in keys ensures Ahead(keys, less, k) == Ahead(keys, lessThin, k) {
      hide KeyLess;
    }
  }

  lemma CutIsSubmap(full: map<Key, Entry>, thin: map<Key, Entry>, keys: set<Key>, kept: set<Key>, keptThin: set<Key>)
    requires Submap(thin, full) && keys <= full.Keys && kept <= keys && keptThin <= keys * thin.Keys
    ensures var f, t := Restricted(full, keys - kept), Restricted(thin, keys * thin.Keys - keptThin);
            && (Submap(t, f) <==> keptThin <= kept)
            && (kept * thin.Keys <= keptThin ==> forall k :: k in f && k in thin ==> k in t)
  {
    var f, t := Restricted(full, keys - kept), Restricted(thin, keys * thin.Keys - keptThin);
    if Submap(t, f) {
      forall k | k in keptThin ensures k in kept { assert k in t; }
    }
  }

  // ----- A whole save -----

  ghost predicate IsSmoothStoring(full: map<Key, Entry>, thin: map<Key, Entry>, p: Source, domain: string, records: seq<Record>) {
    forall r :: r in records ==> !IsBackdated(full, thin.Keys, p, domain, r)
  }

  /** The limit on the whole pool keeps only rows that are left, or it drops none of them after a fair limit on the
      subject. */
  ghost predicate AreFairCuts(full: map<Key, Entry>, left: set<Key>, subject: set<Key>) {
    var trimmed := TrimmedTo(full, subject, SUBJECT_LIMIT);
    var kept := TrimmedTo(trimmed, trimmed.Keys, POOL_LIMIT).Keys;
    kept <= left || (IsFairCut(full, left, subject, SUBJECT_LIMIT) && trimmed.Keys * left <= kept)
  }

  /** No record is backdated and both cuts are fair. */
  ghost predicate IsSmoothSave(full: map<Key, Entry>, thin: map<Key, Entry>, p: Source, address: string, domain: string, records: seq<Record>) {
    && IsSmoothStoring(full, thin, p, domain, records)
    && var f, t := AllStored(full, p, address, domain, records), AllStored(thin, p, address, domain, records);
       AreFairCuts(f, t.Keys, SubjectKeys(f, p.id, domain))
  }

  /** A row missing after storing was missing before and is the same. */
  lemma StoredMissing(full: map<Key, Entry>, thin: map<Key, Entry>, p: Source, address: string, domain: string, r: Record)
    requires Submap(thin, full) && !IsBackdated(full, thin.Keys, p, domain, r)
    ensures var f, t := Stored(full, p, address, domain, r), Stored(thin, p, address, domain, r);
            forall k :: k in f && k !in t ==> k in full && k !in thin && f[k] == full[k]
  {
  }

  lemma {:induction false} StoringStaysThin(full: map<Key, Entry>, thin: map<Key, Entry>, ps: set<Pruning>,
                                            p: Source, address: string, domain: string, records: seq<Record>)
    requires Thins(full, thin, ps) && IsSmoothStoring(full, thin, p, domain, records)
    ensures var f, t := AllStored(full, p, address, domain, records), AllStored(thin, p, address, domain, records);
            && Thins(f, t, ps)
            && forall k :: k in f && k !in t ==> k in full && k !in thin && f[k] == full[k]
  {
    if |records| > 0 {
      var r, before := records[|records| - 1], records[..|records| - 1];
      StoringStaysThin(full, thin, ps, p, address, domain, before);
      var f, t := AllStored(full, p, address, domain, before), AllStored(thin, p, address, domain, before);
      hide Stored, Thins;
      assert !IsBackdated(full, thin.Keys, p, domain, r);
      assert !IsBackdated(f, t.Keys, p, domain, r);
      UpsertStaysThinIff(f, t, ps, p, address, domain, r);
      StillThin(f, t, ps);
      StoredMissing(f, t, p, address, domain, r);
    }
  }

  /** Storing never takes a row back in time, and a row it adds bears the time of the records. */
  lemma {:induction false} StoredTimes(pool: map<Key, Entry>, p: Source, address: string, domain: string, records: seq<Record>, at: int, k: Key)
    requires forall r :: r in records ==> r.observedAt == at
    ensures var out := AllStored(pool, p, address, domain, records);
            && (k in pool ==> k in out && pool[k].observedAt <= out[k].observedAt)
            && (k !in pool && k in out ==> out[k].observedAt == at)
            && (forall r :: r in records && IsStorable(r) && KeyOf(p, domain, r) == k ==> k in out)
  {
    if |records| > 0 {
      var n := |records| - 1;
      assert forall r :: r in records <==> r in records[..n] || r == records[n];
      StoredTimes(pool, p, address, domain, records[..n], at, k);
    }
  }

  /** The records of one probe bear one time; storing them treats both pools alike exactly when none is backdated. */
  lemma StoringStaysThinIff(full: map<Key, Entry>, thin: map<Key, Entry>, ps: set<Pruning>,
                            p: Source, address: string, domain: string, records: seq<Record>, at: int)
    requires Thins(full, thin, ps) && forall r :: r in records ==> r.observedAt == at
    ensures Thins(AllStored(full, p, address, domain, records), AllStored(thin, p, address, domain, records), ps)
            <==> IsSmoothStoring(full, thin, p, domain, records)
  {
    hide AllStored, IsPast;
    if IsSmoothStoring(full, thin, p, domain, records) {
      StoringStaysThin(full, thin, ps, p, address, domain, records);
    } else {
      var r :| r in records && IsBackdated(full, thin.Keys, p, domain, r);
      StoredTimes(full, p, address, domain, records, at, KeyOf(p, domain, r));
      StoredTimes(thin, p, address, domain, records, at, KeyOf(p, domain, r));
    }
  }

  lemma StillThin(full: map<Key, Entry>, thin: map<Key, Entry>, ps: set<Pruning>)
    requires Thins(full, thin, ps)
    ensures Submap(thin, full)
  {
  }

  /** After storing, both limits together treat both pools alike exactly when they are fair. */
  lemma CuttingTwiceStaysThinIff(full: map<Key, Entry>, thin: map<Key, Entry>, ps: set<Pruning>, subject: set<Key>)
    requires Thins(full, thin, ps) && subject <= full.Keys
    ensures var f, t := TrimmedTo(full, subject, SUBJECT_LIMIT), TrimmedTo(thin, subject * thin.Keys, SUBJECT_LIMIT);
            Thins(TrimmedTo(f, f.Keys, POOL_LIMIT), TrimmedTo(t, t.Keys, POOL_LIMIT), ps) <==> AreFairCuts(full, thin.Keys, subject)
  {
    hide TrimmedTo, Thins, Submap, AreFairCuts;
    var f, t := TrimmedTo(full, subject, SUBJECT_LIMIT), TrimmedTo(thin, subject * thin.Keys, SUBJECT_LIMIT);
    var out, outThin := TrimmedTo(f, f.Keys, POOL_LIMIT), TrimmedTo(t, t.Keys, POOL_LIMIT);
    StillThin(full, thin, ps);
    CutIsPart(full, subject, SUBJECT_LIMIT);
    CutIsPart(thin, subject * thin.Keys, SUBJECT_LIMIT);
    CutIsPart(f, f.Keys, POOL_LIMIT);
    CutIsPart(t, t.Keys, POOL_LIMIT);
    SubmapTwice(out, f, full);
    SubmapTwice(outThin, t, thin);
    TwoCutsOfPool(full, thin, subject);
    ThinsWhenFewer(full, thin, ps, out, outThin);
  }

  lemma CutIsPart(pool: map<Key, Entry>, keys: set<Key>, limit: nat)
    ensures Submap(TrimmedTo(pool, keys, limit), pool)
  {
    hide FirstRows;
  }

  lemma SubmapTwice(a: map<Key, Entry>, b: map<Key, Entry>, c: map<Key, Entry>)
    requires Submap(a, b) && Submap(b, c)
    ensures Submap(a, c)
  {
  }

  lemma TwoCutsOfPool(full: map<Key, Entry>, thin: map<Key, Entry>, subject: set<Key>)
    requires Submap(thin, full) && subject <= full.Keys
    ensures var f, t := TrimmedTo(full, subject, SUBJECT_LIMIT), TrimmedTo(thin, subject * thin.Keys, SUBJECT_LIMIT);
            var out, outThin := TrimmedTo(f, f.Keys, POOL_LIMIT), TrimmedTo(t, t.Keys, POOL_LIMIT);
            && (outThin.Keys <= out.Keys <==> AreFairCuts(full, thin.Keys, subject))
            && (outThin.Keys <= out.Keys ==> out.Keys * thin.Keys <= outThin.Keys)
  {
    hide TrimmedTo, Best;
    var f, t := TrimmedTo(full, subject, SUBJECT_LIMIT), TrimmedTo(thin, subject * thin.Keys, SUBJECT_LIMIT);
    ThinsItself(full, {});
    CutKeys(full, full, subject, SUBJECT_LIMIT);
    CutKeys(full, thin, subject * thin.Keys, SUBJECT_LIMIT);
    CutKeys(full, f, f.Keys, POOL_LIMIT);
    CutKeys(full, t, t.Keys, POOL_LIMIT);
    hide Submap;
    TwoBest(full, thin.Keys, subject, f.Keys, t.Keys);
  }

  lemma TwoBest(full: map<Key, Entry>, left: set<Key>, subject: set<Key>, rest: set<Key>, restThin: set<Key>)
    requires left <= full.Keys && subject <= full.Keys
    requires rest == full.Keys - (subject - Best(full, subject, SUBJECT_LIMIT))
    requires restThin == left - (subject * left - Best(full, subject * left, SUBJECT_LIMIT))
    ensures var out, outThin := Best(full, rest, POOL_LIMIT), Best(full, restThin, POOL_LIMIT);
            && (outThin <= out <==> out <= left || (IsFairCut(full, left, subject, SUBJECT_LIMIT) && rest * left <= out))
            && (outThin <= out ==> out * left <= outThin)
  {
    var less := (a: Key, b: Key) => Precedes(full, a, b);
    E.PrecedesIsOrder(full, full.Keys);
    hide FirstRows, Precedes;
    TwoCuts(full.Keys, left, subject, less, SUBJECT_LIMIT, POOL_LIMIT);
  }

  /** Which rows a cut leaves, by the order of a larger pool. */
  lemma CutKeys(full: map<Key, Entry>, pool: map<Key, Entry>, keys: set<Key>, limit: nat)
    requires Submap(pool, full) && keys <= pool.Keys
    ensures var out := TrimmedTo(pool, keys, limit);
            && Submap(out, pool) && Submap(out, full)
            && out.Keys == pool.Keys - (keys - Best(full, keys, limit))
    ensures keys == pool.Keys ==> TrimmedTo(pool, keys, limit).Keys == Best(full, keys, limit)
  {
    hide Precedes, FirstRows;
    SameCut(full, pool, keys, limit);
  }

  lemma ThinsWhenFewer(full: map<Key, Entry>, thin: map<Key, Entry>, ps: set<Pruning>, f: map<Key, Entry>, t: map<Key, Entry>)
    requires Thins(full, thin, ps) && Submap(f, full) && Submap(t, thin)
    requires t.Keys <= f.Keys ==> f.Keys * thin.Keys <= t.Keys
    ensures Thins(f, t, ps) <==> t.Keys <= f.Keys
  {
    hide IsPast;
  }

  /** If no record is backdated, a whole save treats both pools alike exactly when its limits are fair. */
  lemma SavingStaysThinIff(full: map<Key, Entry>, thin: map<Key, Entry>, ps: set<Pruning>,
                           p: Source, address: string, domain: string, records: seq<Record>)
    requires Thins(full, thin, ps) && IsSmoothStoring(full, thin, p, domain, records)
    ensures Thins(SavedPool(full, p, address, domain, records), SavedPool(thin, p, address, domain, records), ps)
            <==> IsSmoothSave(full, thin, p, address, domain, records)
  {
    hide TrimmedTo, AllStored, IsPast, AreFairCuts;
    StoringStaysThin(full, thin, ps, p, address, domain, records);
    var f, t := AllStored(full, p, address, domain, records), AllStored(thin, p, address, domain, records);
    var subject := SubjectKeys(f, p.id, domain);
    assert SubjectKeys(t, p.id, domain) == subject * t.Keys;
    CuttingTwiceStaysThinIff(f, t, ps, subject);
  }

  // ----- Rows stay well formed -----

  /** A lookup stamps expiry as observation plus TTL. */
  predicate IsStamped(r: Record) {
    0 < r.observedAt && 0 <= r.ttl ==> r.expiresAt == r.observedAt + 1000 * r.ttl
  }

  lemma {:induction false} StoringKeepsWellFormed(pool: map<Key, Entry>, p: Source, address: string, domain: string, records: seq<Record>)
    requires AllWellFormed(pool) && forall r :: r in records ==> IsStamped(r)
    ensures AllWellFormed(AllStored(pool, p, address, domain, records))
  {
    hide WellFormed;
    if |records| > 0 {
      var r := records[|records| - 1];
      StoringKeepsWellFormed(pool, p, address, domain, records[..|records| - 1]);
      assert IsStamped(r);
      if IsStorable(r) { SavedRecordIsWellFormed(p, address, r); }
    }
  }

  lemma SavingKeepsWellFormed(pool: map<Key, Entry>, p: Source, address: string, domain: string, records: seq<Record>)
    requires AllWellFormed(pool) && forall r :: r in records ==> IsStamped(r)
    ensures AllWellFormed(SavedPool(pool, p, address, domain, records))
  {
    hide TrimmedTo, AllStored, WellFormed;
    StoringKeepsWellFormed(pool, p, address, domain, records);
    var stored := AllStored(pool, p, address, domain, records);
    var subject := SubjectKeys(stored, p.id, domain);
    T.TrimIsSubset(stored, subject, SUBJECT_LIMIT);
    var trimmed := TrimmedTo(stored, subject, SUBJECT_LIMIT);
    T.TrimIsSubset(trimmed, trimmed.Keys, POOL_LIMIT);
  }

  // ----- Runs -----

  /** Same servers, same probes in flight, same clock; the pools differ by rows that were to be pruned. */
  ghost predicate Related(full: T.State, thin: T.State, ps: set<Pruning>) {
    && thin == full.(db := full.db.(pool := thin.db.pool))
    && Thins(full.db.pool, thin.db.pool, ps)
    && AllWellFormed(full.db.pool)
  }

  /** A save the store lets through. */
  predicate Saves(s: T.State, e: Event) {
    && e.Moves? && e.step.Save? && e.step.probe in s.inFlight
    && e.step.domain != "" && |e.step.records| > 0 && IsCurrent(s.db, e.step.probe)
  }

  ghost predicate IsSmooth(full: T.State, thin: T.State, e: Event) {
    Saves(full, e) ==>
      var p := e.step.probe;
      IsSmoothSave(full.db.pool, thin.db.pool, p, full.db.servers[p.id].address, e.step.domain, e.step.records)
  }

  ghost predicate IsSmoothRun(s: T.State, events: seq<Event>) {
    |events| > 0 ==>
      && IsSmoothRun(s, events[..|events| - 1])
      && IsSmooth(Played(s, events[..|events| - 1], false), Played(s, events[..|events| - 1], true), events[|events| - 1])
  }

  /** Lookups stamp the records saved, and the prunings are among those given. */
  predicate Admits(e: Event, ps: set<Pruning>) {
    match e
    case Moves(step) => step.Save? ==> forall r :: r in step.records ==> IsStamped(r)
    case Prunes(p) => p in ps
  }

  predicate AdmitsAll(events: seq<Event>, ps: set<Pruning>) {
    forall e :: e in events ==> Admits(e, ps)
  }

  lemma SaveStaysRelated(full: T.State, thin: T.State, ps: set<Pruning>, e: Event)
    requires Related(full, thin, ps) && IsSmooth(full, thin, e) && Admits(e, ps) && Saves(full, e)
    ensures Related(After(full, e, false), After(thin, e, true), ps)
  {
    assert IsSmoothStoring(full.db.pool, thin.db.pool, e.step.probe, e.step.domain, e.step.records);
    hide SavedPool, Thins, AllWellFormed, IsSmoothSave, IsSmoothStoring;
    var p, domain, records := e.step.probe, e.step.domain, e.step.records;
    var address := full.db.servers[p.id].address;
    SavingStaysThinIff(full.db.pool, thin.db.pool, ps, p, address, domain, records);
    SavingKeepsWellFormed(full.db.pool, p, address, domain, records);
  }

  lemma StepStaysRelated(full: T.State, thin: T.State, ps: set<Pruning>, e: Event)
    requires Related(full, thin, ps) && IsSmooth(full, thin, e) && Admits(e, ps)
    ensures Related(After(full, e, false), After(thin, e, true), ps)
  {
    if Saves(full, e) {
      SaveStaysRelated(full, thin, ps, e);
    } else {
      hide Thins, AllWellFormed, Observed, Restricted, WithoutServer, Expired;
      var f, t := full.db.pool, thin.db.pool;
      match e
      case Prunes(p) =>
        SkippingStaysThin(f, t, ps, p);
        DroppingStaysThin(f, t, ps, {});
      case Moves(Save(_, _, _)) => OtherwiseNothingSaved(full, thin, e);
      case Moves(EditServer(id, _, _, _)) => LeavingStaysThin(f, t, ps, id);
      case Moves(DeleteServer(id)) => LeavingStaysThin(f, t, ps, id);
      case Moves(Prune(keys)) => DroppingStaysThin(f, t, ps, keys);
      case _ =>
    }
  }

  lemma LeavingStaysThin(full: map<Key, Entry>, thin: map<Key, Entry>, ps: set<Pruning>, id: nat)
    requires Thins(full, thin, ps) && AllWellFormed(full)
    ensures Thins(WithoutServer(full, id), WithoutServer(thin, id), ps) && AllWellFormed(WithoutServer(full, id))
  {
    hide WellFormed, IsPast;
  }

  lemma DroppingStaysThin(full: map<Key, Entry>, thin: map<Key, Entry>, ps: set<Pruning>, keys: set<Key>)
    requires Thins(full, thin, ps) && AllWellFormed(full)
    ensures Thins(Restricted(full, keys), Restricted(thin, keys), ps) && AllWellFormed(Restricted(full, keys))
  {
    hide WellFormed, IsPast;
  }

  /** Pruning one pool and skipping that in the other. */
  lemma SkippingStaysThin(full: map<Key, Entry>, thin: map<Key, Entry>, ps: set<Pruning>, p: Pruning)
    requires Thins(full, thin, ps) && p in ps
    ensures Thins(Restricted(full, {}), Restricted(thin, Expired(thin, p)), ps)
  {
    hide IsPrunable;
  }

  lemma OtherwiseNothingSaved(full: T.State, thin: T.State, e: Event)
    requires thin == full.(db := full.db.(pool := thin.db.pool)) && !Saves(full, e)
    ensures e.Moves? && e.step.Save? ==>
      After(full, e, false) == full.(clock := full.clock + 1) && After(thin, e, true) == thin.(clock := thin.clock + 1)
  {
  }

  lemma {:induction false} RunStaysRelated(s: T.State, events: seq<Event>, ps: set<Pruning>)
    requires AllWellFormed(s.db.pool) && AdmitsAll(events, ps) && IsSmoothRun(s, events)
    ensures Related(Played(s, events, false), Played(s, events, true), ps)
  {
    hide After, IsSmooth, Admits, Thins, AllWellFormed;
    if |events| > 0 {
      var before, e := events[..|events| - 1], events[|events| - 1];
      assert e in events;
      RunStaysRelated(s, before, ps);
      hide Related;
      StepStaysRelated(Played(s, before, false), Played(s, before, true), ps, e);
    } else {
      ThinsItself(s.db.pool, ps);
    }
  }

  lemma ThinsItself(pool: map<Key, Entry>, ps: set<Pruning>)
    ensures Thins(pool, pool, ps)
  {
  }

  // ----- Reading after a run -----

  ghost predicate SameReferences(full: Db, thin: Db, later: int, other: real) {
    forall domain :: References(thin.servers, thin.pool, domain, later, other) == References(full.servers, full.pool, domain, later, other)
  }

  ghost predicate AllLookNoFurther(ps: set<Pruning>, later: int, other: real) {
    forall p :: p in ps ==> p.now <= later && LooksNoFurther(p.now, p.hours, later, other)
  }

  lemma RelatedReadsAgree(full: T.State, thin: T.State, ps: set<Pruning>, later: int, other: real)
    requires Related(full, thin, ps) && AllLookNoFurther(ps, later, other)
    ensures SameReferences(full.db, thin.db, later, other)
  {
    var f, t := full.db.pool, thin.db.pool;
    forall k | k in f && k !in t ensures !IsReference(f[k], later, other) {
      var p :| p in ps && IsPrunable(f[k], p.now, p.hours);
      PrunedStaysUnreferenced(f[k], p.now, p.hours, later, other);
    }
    hide IsReference, WellFormed, Admits;
  }

  /** Every smooth run with these prunings reads later what the same run without them reads. */
  ghost predicate InvisibleOverRuns(ps: set<Pruning>, later: int, other: real) {
    forall s: T.State, events :: AllWellFormed(s.db.pool) && AdmitsAll(events, ps) && IsSmoothRun(s, events)
      ==> SameReferences(Played(s, events, false).db, Played(s, events, true).db, later, other)
  }

  /** The prunings of a smooth run are invisible to a later read exactly when the read looks no further back than
      each of them did. */
  lemma PruningsAreInvisibleIff(ps: set<Pruning>, later: int, other: real)
    requires forall p :: p in ps ==> p.now <= later
    ensures InvisibleOverRuns(ps, later, other) <==> AllLookNoFurther(ps, later, other)
  {
    hide LooksNoFurther, SameReferences, IsSmoothRun, AdmitsAll, AllWellFormed, Played;
    if AllLookNoFurther(ps, later, other) {
      forall s: T.State, events | AllWellFormed(s.db.pool) && AdmitsAll(events, ps) && IsSmoothRun(s, events)
        ensures SameReferences(Played(s, events, false).db, Played(s, events, true).db, later, other)
      {
        hide AllLookNoFurther, Related;
        RunStaysRelated(s, events, ps);
        RelatedReadsAgree(Played(s, events, false), Played(s, events, true), ps, later, other);
      }
    } else {
      var p :| p in ps && !LooksNoFurther(p.now, p.hours, later, other);
      var s := FurtherReadMisses(p, ps, later, other);
    }
  }

  /** A single pruning that the read looks beyond is enough to miss a row. */
  lemma FurtherReadMisses(p: Pruning, ps: set<Pruning>, later: int, other: real) returns (s: T.State)
    requires p in ps && p.now <= later && !LooksNoFurther(p.now, p.hours, later, other)
    ensures AllWellFormed(s.db.pool) && AdmitsAll([Prunes(p)], ps) && IsSmoothRun(s, [Prunes(p)])
    ensures !SameReferences(Played(s, [Prunes(p)], false).db, Played(s, [Prunes(p)], true).db, later, other)
  {
    hide Invisible, LooksNoFurther, WellFormed;
    MissedRow(p.now, p.hours, later, other);
    var servers, pool, domain := SomeMissed(p.now, p.hours, later, other);
    s := T.State(Db(servers, 0, pool), {}, 0, map[]);
    var events := [Prunes(p)];
    assert events[..0] == [];
    assert Played(s, events, false) == After(s, events[0], false);
    assert Played(s, events, true) == After(s, events[0], true);
    assert Restricted(pool, {}) == pool;
    assert Restricted(pool, Expired(pool, p)) == Prune(pool, p.now, p.hours);
  }

  lemma SomeMissed(now: int, hours: real, later: int, other: real) returns (servers: map<nat, Server>, pool: map<Key, Entry>, domain: string)
    requires !Invisible(now, hours, later, other)
    ensures AllWellFormed(pool)
    ensures References(servers, Prune(pool, now, hours), domain, later, other) != References(servers, pool, domain, later, other)
  {
    hide References, Prune, WellFormed;
    servers, pool, domain :| ObservedBy(pool, now)
      && References(servers, Prune(pool, now, hours), domain, later, other) != References(servers, pool, domain, later, other);
  }

  // ----- With room in the pool every run is smooth -----

  /** Nothing is observed before what the pool holds for its key, and no limit is passed. */
  ghost predicate IsRoomySave(pool: map<Key, Entry>, p: Source, address: string, domain: string, records: seq<Record>) {
    && (forall r :: r in records ==> !IsBackdated(pool, {}, p, domain, r))
    && var stored := AllStored(pool, p, address, domain, records);
       |SubjectKeys(stored, p.id, domain)| <= SUBJECT_LIMIT && |stored.Keys| <= POOL_LIMIT
  }

  /** Judged by the run that skips the prunings alone. */
  ghost predicate IsRoomyRun(s: T.State, events: seq<Event>) {
    |events| > 0 ==>
      var now, e := Played(s, events[..|events| - 1], false), events[|events| - 1];
      && IsRoomyRun(s, events[..|events| - 1])
      && (Saves(now, e) ==>
            var p := e.step.probe;
            IsRoomySave(now.db.pool, p, now.db.servers[p.id].address, e.step.domain, e.step.records))
  }

  lemma RoomForAll(pool: map<Key, Entry>, keys: set<Key>, limit: nat)
    requires keys <= pool.Keys && |keys| <= limit
    ensures TrimmedTo(pool, keys, limit) == pool
    ensures forall left :: IsFairCut(pool, left, keys, limit)
  {
    hide Precedes, FirstRows;
    var less := (a: Key, b: Key) => Precedes(pool, a, b);
    E.PrecedesIsOrder(pool, keys);
    FirstRowsAreFirst(keys, less, limit);
    var kept := FirstRows(keys, less, limit);
    assert keys == kept + (keys - kept);
  }

  lemma RoomySaveIsSmooth(full: map<Key, Entry>, thin: map<Key, Entry>, p: Source, address: string, domain: string, records: seq<Record>)
    requires IsRoomySave(full, p, address, domain, records)
    ensures IsSmoothSave(full, thin, p, address, domain, records)
  {
    hide TrimmedTo, AllStored, IsFairCut;
    var stored := AllStored(full, p, address, domain, records);
    RoomForAll(stored, SubjectKeys(stored, p.id, domain), SUBJECT_LIMIT);
    RoomForAll(stored, stored.Keys, POOL_LIMIT);
    forall r | r in records ensures !IsBackdated(full, thin.Keys, p, domain, r) {
      assert !IsBackdated(full, {}, p, domain, r);
    }
  }

  lemma {:induction false} RoomyRunIsSmooth(s: T.State, events: seq<Event>)
    requires IsRoomyRun(s, events)
    ensures IsSmoothRun(s, events)
  {
    hide After, IsRoomySave, IsSmoothSave;
    if |events| > 0 {
      var before, e := events[..|events| - 1], events[|events| - 1];
      RoomyRunIsSmooth(s, before);
      var full, thin := Played(s, before, false), Played(s, before, true);
      if Saves(full, e) {
        var p := e.step.probe;
        RoomySaveIsSmooth(full.db.pool, thin.db.pool, p, full.db.servers[p.id].address, e.step.domain, e.step.records);
      }
    }
  }

  /** While no save passes a limit or goes back in time, prunings are invisible to reads that look no further back. */
  lemma PruningsAreInvisibleWithRoom(s: T.State, events: seq<Event>, ps: set<Pruning>, later: int, other: real)
    requires AllWellFormed(s.db.pool) && AdmitsAll(events, ps) && IsRoomyRun(s, events)
    requires AllLookNoFurther(ps, later, other)
    ensures SameReferences(Played(s, events, false).db, Played(s, events, true).db, later, other)
  {
    RoomyRunIsSmooth(s, events);
    RunStaysRelated(s, events, ps);
    RelatedReadsAgree(Played(s, events, false), Played(s, events, true), ps, later, other);
  }

  // ----- Where a single statement after a pruning shows it -----

  /** Every read at or after the pruning that looks no further back gives the same. */
  ghost predicate ReadsAgree(servers: map<nat, Server>, full: map<Key, Entry>, thin: map<Key, Entry>, p: Pruning) {
    forall later, other, domain | p.now <= later && LooksNoFurther(p.now, p.hours, later, other) ::
      References(servers, thin, domain, later, other) == References(servers, full, domain, later, other)
  }

  ghost predicate AllFromSources(servers: map<nat, Server>, pool: map<Key, Entry>) {
    forall k :: k in pool ==> IsSource(servers, k, pool[k])
  }

  /** Two pools read the same exactly when they hold the same rows that the pruning would leave. */
  lemma ReadsAgreeIff(servers: map<nat, Server>, full: map<Key, Entry>, thin: map<Key, Entry>, p: Pruning)
    requires AllWellFormed(full) && AllWellFormed(thin) && AllFromSources(servers, full) && AllFromSources(servers, thin)
    ensures ReadsAgree(servers, full, thin, p) <==> Prune(full, p.now, p.hours) == Prune(thin, p.now, p.hours)
  {
    var f, t := Prune(full, p.now, p.hours), Prune(thin, p.now, p.hours);
    if f == t {
      forall later, other, domain | p.now <= later && LooksNoFurther(p.now, p.hours, later, other)
        ensures References(servers, thin, domain, later, other) == References(servers, full, domain, later, other)
      {
        UnprunedReads(servers, full, domain, p, later, other);
        UnprunedReads(servers, thin, domain, p, later, other);
      }
    } else {
      hide WellFormed;
      assert LooksNoFurther(p.now, p.hours, p.now, p.hours);
      var k :| (k in f || k in t) && !(k in f && k in t && f[k] == t[k]);
      PrunableOrRead(servers, full, k, p);
      PrunableOrRead(servers, thin, k, p);
      assert References(servers, thin, k.domain, p.now, p.hours) != References(servers, full, k.domain, p.now, p.hours);
    }
  }

  lemma UnprunedReads(servers: map<nat, Server>, pool: map<Key, Entry>, domain: string, p: Pruning, later: int, other: real)
    requires AllWellFormed(pool) && p.now <= later && LooksNoFurther(p.now, p.hours, later, other)
    ensures References(servers, Prune(pool, p.now, p.hours), domain, later, other) == References(servers, pool, domain, later, other)
  {
    forall k | k in pool && IsPrunable(pool[k], p.now, p.hours) ensures !IsReference(pool[k], later, other) {
      PrunedStaysUnreferenced(pool[k], p.now, p.hours, later, other);
    }
    PrunedRowsAreUnread(servers, pool, domain, p.now, p.hours, later, other);
  }

  lemma PrunableOrRead(servers: map<nat, Server>, pool: map<Key, Entry>, k: Key, p: Pruning)
    requires AllFromSources(servers, pool)
    ensures var kept, read := Prune(pool, p.now, p.hours), References(servers, pool, k.domain, p.now, p.hours);
            (k in kept <==> k in read) && (k in kept ==> kept[k] == read[k])
  {
    if k in pool { PrunableIffNotReference(pool[k], p.now, p.hours); }
  }

  /** A limit applied after a pruning shows it, to some read, exactly when it would have dropped a row the pruning
      left while keeping one it dropped. */
  lemma CutShowsIff(servers: map<nat, Server>, pool: map<Key, Entry>, p: Pruning, keys: set<Key>, limit: nat)
    requires AllWellFormed(pool) && AllFromSources(servers, pool) && keys <= pool.Keys
    ensures var thin := Prune(pool, p.now, p.hours);
            ReadsAgree(servers, TrimmedTo(pool, keys, limit), TrimmedTo(thin, keys * thin.Keys, limit), p)
            <==> IsFairCut(pool, thin.Keys, keys, limit)
  {
    var thin := Prune(pool, p.now, p.hours);
    hide TrimmedTo, IsFairCut, WellFormed, IsSource, ReadsAgree, IsPrunable, Prune;
    var f, t := TrimmedTo(pool, keys, limit), TrimmedTo(thin, keys * thin.Keys, limit);
    PruneThins(pool, p);
    CuttingStaysThinIff(pool, thin, {p}, keys, limit);
    E.TrimmingEvictsOldest(pool, keys, limit);
    E.TrimmingEvictsOldest(thin, keys * thin.Keys, limit);
    PartsPruned(pool, f, t, p);
    ReadsAgreeIff(servers, f, t, p);
  }

  lemma PruneThins(pool: map<Key, Entry>, p: Pruning)
    ensures Thins(pool, Prune(pool, p.now, p.hours), {p})
  {
    hide IsPrunable;
  }

  lemma PartsPruned(pool: map<Key, Entry>, f: map<Key, Entry>, t: map<Key, Entry>, p: Pruning)
    requires var thin := Prune(pool, p.now, p.hours);
             Submap(f, pool) && Submap(t, thin) && forall k :: k in f && k in thin ==> k in t
    ensures Prune(t, p.now, p.hours) == t
    ensures Prune(f, p.now, p.hours) == t <==> Thins(f, t, {p})
  {
    hide IsPrunable;
    if Thins(f, t, {p}) {
      assert Prune(f, p.now, p.hours) == t;
    }
  }

  /** A record stored after a pruning shows it, to some read, exactly when the pruned row would have refused it and
      its own TTL outlasts the pruning. */
  lemma StoreShowsIff(servers: map<nat, Server>, pool: map<Key, Entry>, pruning: Pruning, p: Source, domain: string, r: Record)
    requires AllWellFormed(pool) && AllFromSources(servers, pool) && IsStamped(r)
    requires p.id in servers && servers[p.id].trusted && servers[p.id].enabled
    ensures var thin, address := Prune(pool, pruning.now, pruning.hours), servers[p.id].address;
            ReadsAgree(servers, Stored(pool, p, address, domain, r), Stored(thin, p, address, domain, r), pruning)
            <==> !(IsBackdated(pool, thin.Keys, p, domain, r) && pruning.now < Bounded(r))
  {
    var thin, address := Prune(pool, pruning.now, pruning.hours), servers[p.id].address;
    var f, t := Stored(pool, p, address, domain, r), Stored(thin, p, address, domain, r);
    PruneAgain(pool, pruning);
    if IsStorable(r) {
      SavedRecordIsWellFormed(p, address, r);
      var k, e := KeyOf(p, domain, r), Entry(address, r.ttl, r.observedAt, Bounded(r), p.begun);
      if IsBackdated(pool, thin.Keys, p, domain, r) { OlderIsPrunable(pool[k], e, pruning); }
      hide IsPrunable, WellFormed, Prune, ReadsAgree;
      UpsertPruned(pool, k, e, pruning);
      ReadsAgreeIff(servers, f, t, pruning);
    } else {
      hide IsPrunable, WellFormed, Prune, ReadsAgree;
      ReadsAgreeIff(servers, f, t, pruning);
    }
  }

  lemma PruneAgain(pool: map<Key, Entry>, p: Pruning)
    ensures var thin := Prune(pool, p.now, p.hours);
            && Prune(thin, p.now, p.hours) == thin && Submap(thin, pool)
            && forall k :: k in pool ==> (k in thin <==> !IsPrunable(pool[k], p.now, p.hours))
  {
    hide IsPrunable;
  }

  /** Below a prunable row only the TTL can keep a row. */
  lemma OlderIsPrunable(was: Entry, e: Entry, p: Pruning)
    requires WellFormed(was) && WellFormed(e) && IsPrunable(was, p.now, p.hours) && e.observedAt < was.observedAt
    ensures IsPrunable(e, p.now, p.hours) <==> e.expiresAt <= p.now
  {
    CutoffIsBounded(p.now, p.hours);
  }

  lemma UpsertPruned(pool: map<Key, Entry>, k: Key, e: Entry, p: Pruning)
    ensures var thin := Prune(pool, p.now, p.hours);
            Prune(Upserted(pool, k, e), p.now, p.hours) == Prune(Upserted(thin, k, e), p.now, p.hours)
            <==> !(k in pool && k !in thin && e.observedAt < pool[k].observedAt && !IsPrunable(e, p.now, p.hours))
  {
    hide IsPrunable;
    var f, t := Upserted(pool, k, e), Upserted(Prune(pool, p.now, p.hours), k, e);
    assert k in t && (t[k] == e || t[k] == f[k]);
    if k in pool && e.observedAt < pool[k].observedAt && IsPrunable(pool[k], p.now, p.hours) {
      assert f[k] == pool[k] && t[k] == e;
      assert k !in Prune(f, p.now, p.hours);
    }
  }

  // ----- Runs in which the pruning shows -----

  const ONE_SERVER := map[1 := Server("192.0.2.1:53", true, true, 0)]
  const PROBE := Source(1, Server("192.0.2.1:53", true, true, 0), 0)

  function Text(n: nat): string {
    seq(n, i => 'x')
  }

  /** The one row with a day to live, observed first, and n rows that expired at once. */
  function Crowd(n: nat): map<Key, Entry> {
    if n == 0 then map[FIRST := Entry("192.0.2.1:53", 86400, 50, 86400050, 0)]
    else Crowd(n - 1)[Key(1, "d", Text(n)) := Entry("192.0.2.1:53", 0, 100, 100, 0)]
  }

  const FIRST := Key(1, "d", Text(0))
  const LATE := Record(Some(Text(256)), 60, 300, 60300)
  const CROWDED := T.State(Db(ONE_SERVER, 1, Crowd(255)), {PROBE}, 1, map[])
  const CROWDING := [Prunes(Pruning(200, 0.0)), Moves(T.Save(PROBE, "d", [LATE]))]

  /** The first row is live, and every other one of the same subject has expired. */
  ghost predicate IsCrowd(pool: map<Key, Entry>, rows: nat) {
    && |pool.Keys| == rows
    && FIRST in pool && pool[FIRST] == Entry("192.0.2.1:53", 86400, 50, 86400050, 0)
    && forall k :: k in pool ==>
         && k.server == 1 && k.domain == "d" && |k.value| < rows
         && (k == FIRST || pool[k] == Entry("192.0.2.1:53", 0, 100, 100, 0))
  }

  lemma {:induction false} CrowdIs(n: nat)
    ensures IsCrowd(Crowd(n), n + 1)
  {
    if n > 0 {
      CrowdIs(n - 1);
      assert |Text(n)| == n;
      hide Text;
      JoinCrowd(Crowd(n - 1), n, Key(1, "d", Text(n)));
    }
  }

  lemma JoinCrowd(pool: map<Key, Entry>, rows: nat, k: Key)
    requires IsCrowd(pool, rows) && k.server == 1 && k.domain == "d" && |k.value| == rows
    ensures IsCrowd(pool[k := Entry("192.0.2.1:53", 0, 100, 100, 0)], rows + 1)
  {
    hide Text;
    assert pool[k := Entry("192.0.2.1:53", 0, 100, 100, 0)].Keys == pool.Keys + {k};
  }

  lemma OneRecord(pool: map<Key, Entry>, p: Source, address: string, domain: string, r: Record)
    requires IsStorable(r) && KeyOf(p, domain, r) !in pool
    ensures AllStored(pool, p, address, domain, [r])
            == pool[KeyOf(p, domain, r) := Entry(address, r.ttl, r.observedAt, Bounded(r), p.begun)]
  {
    assert [r][..0] == [];
  }

  /** A subject one row over the limit loses the row observed first. */
  lemma FullSubjectLosesFirst(pool: map<Key, Entry>, server: nat, domain: string, first: Key)
    requires |pool.Keys| == SUBJECT_LIMIT + 1 && SubjectKeys(pool, server, domain) == pool.Keys
    requires first in pool && forall k :: k in pool && k != first ==> pool[first].observedAt < pool[k].observedAt
    ensures var trimmed := TrimmedTo(pool, SubjectKeys(pool, server, domain), SUBJECT_LIMIT);
            first !in TrimmedTo(trimmed, trimmed.Keys, POOL_LIMIT)
  {
    hide TrimmedTo;
    var trimmed := TrimmedTo(pool, pool.Keys, SUBJECT_LIMIT);
    E.TrimmingEvictsOldest(pool, pool.Keys, SUBJECT_LIMIT);
    assert trimmed.Keys * pool.Keys == trimmed.Keys;
    assert trimmed.Keys != pool.Keys;
    var gone :| gone in pool && gone !in trimmed;
    assert gone == first || !Precedes(pool, first, gone);
    E.TrimmingEvictsOldest(trimmed, trimmed.Keys, POOL_LIMIT);
  }

  /** One row too many: the expired rows, had they stayed, would have pushed the only live one out. */
  lemma CrowdLosesFirst(pool: map<Key, Entry>)
    requires IsCrowd(pool, SUBJECT_LIMIT)
    ensures FIRST !in SavedPool(pool, PROBE, "192.0.2.1:53", "d", [LATE])
  {
    assert |Text(256)| == 256 && |Text(0)| == 0;
    hide Text, TrimmedTo, AllStored;
    OneRecord(pool, PROBE, "192.0.2.1:53", "d", LATE);
    var stored := AllStored(pool, PROBE, "192.0.2.1:53", "d", [LATE]);
    assert stored.Keys == pool.Keys + {Key(1, "d", Text(256))};
    assert SubjectKeys(stored, 1, "d") == stored.Keys;
    FullSubjectLosesFirst(stored, 1, "d", FIRST);
  }

  /** Pruning first makes room for both. */
  lemma PrunedCrowdKeepsFirst(pool: map<Key, Entry>)
    requires pool.Keys == {FIRST}
    ensures var out := SavedPool(pool, PROBE, "192.0.2.1:53", "d", [LATE]);
            FIRST in out && out[FIRST] == pool[FIRST]
  {
    assert |Text(256)| == 256 && |Text(0)| == 0;
    hide Text, TrimmedTo, AllStored;
    OneRecord(pool, PROBE, "192.0.2.1:53", "d", LATE);
    var stored := AllStored(pool, PROBE, "192.0.2.1:53", "d", [LATE]);
    assert stored.Keys == {FIRST, Key(1, "d", Text(256))};
    assert SubjectKeys(stored, 1, "d") == stored.Keys;
    RoomForAll(stored, stored.Keys, SUBJECT_LIMIT);
    RoomForAll(stored, stored.Keys, POOL_LIMIT);
  }

  lemma CrowdExpires(pool: map<Key, Entry>)
    requires IsCrowd(pool, SUBJECT_LIMIT)
    ensures var left := Restricted(pool, Expired(pool, Pruning(200, 0.0)));
            left.Keys == {FIRST} && left[FIRST] == pool[FIRST]
    ensures AllWellFormed(pool) && ObservedBy(pool, 200)
  {
    hide Text;
  }

  /** A run of a pruning and a save. */
  lemma PrunedThenSaved(s: T.State, pruning: Pruning, p: Source, domain: string, records: seq<Record>)
    requires p in s.inFlight && domain != "" && |records| > 0 && IsCurrent(s.db, p)
    ensures var events, address := [Prunes(pruning), Moves(T.Save(p, domain, records))], s.db.servers[p.id].address;
            && Played(s, events, false).db == s.db.(pool := SavedPool(s.db.pool, p, address, domain, records))
            && Played(s, events, true).db
               == s.db.(pool := SavedPool(Restricted(s.db.pool, Expired(s.db.pool, pruning)), p, address, domain, records))
  {
    hide SavedPool, Expired;
    var events := [Prunes(pruning), Moves(T.Save(p, domain, records))];
    assert events[..1] == [events[0]] && events[..1][..0] == [];
    assert Restricted(s.db.pool, {}) == s.db.pool;
    assert Played(s, events[..1], false) == After(s, events[0], false);
    assert Played(s, events[..1], true) == After(s, events[0], true);
  }

  /** The limits make pruning show: the read looks no further back than the pruning, the record saved in between is the
      latest, and still the run with its pruning reads a row that the run without it has evicted. */
  lemma LimitMakesPruningShow()
    ensures AllWellFormed(CROWDED.db.pool) && ObservedBy(CROWDED.db.pool, 200)
    ensures AdmitsAll(CROWDING, {Pruning(200, 0.0)}) && AllLookNoFurther({Pruning(200, 0.0)}, 400, 0.0)
    ensures !SameReferences(Played(CROWDED, CROWDING, false).db, Played(CROWDED, CROWDING, true).db, 400, 0.0)
  {
    hide Crowd, Text, SavedPool, Played, Restricted, Expired, ObservedBy, AllWellFormed;
    var pool := CROWDED.db.pool;
    CrowdIs(255);
    CrowdExpires(pool);
    CrowdLosesFirst(pool);
    PrunedCrowdKeepsFirst(Restricted(pool, Expired(pool, Pruning(200, 0.0))));
    PrunedThenSaved(CROWDED, Pruning(200, 0.0), PROBE, "d", [LATE]);
    var f, t := Played(CROWDED, CROWDING, false).db, Played(CROWDED, CROWDING, true).db;
    assert FIRST in References(t.servers, t.pool, "d", 400, 0.0);
    assert FIRST !in References(f.servers, f.pool, "d", 400, 0.0);
  }

  const SLOW := Record(Some(Text(0)), 60, 90, 60090)
  const STALE := T.State(Db(ONE_SERVER, 1, map[FIRST := Entry("192.0.2.1:53", 0, 100, 100, 0)]), {PROBE}, 1, map[])
  const REPLAYING := [Prunes(Pruning(200, 0.0)), Moves(T.Save(PROBE, "d", [SLOW]))]

  /** A record observed before the pruned row makes pruning show too: the row would have refused it. */
  lemma BackdatedSaveShows()
    ensures AllWellFormed(STALE.db.pool) && ObservedBy(STALE.db.pool, 200)
    ensures AdmitsAll(REPLAYING, {Pruning(200, 0.0)}) && AllLookNoFurther({Pruning(200, 0.0)}, 400, 0.0)
    ensures !SameReferences(Played(STALE, REPLAYING, false).db, Played(STALE, REPLAYING, true).db, 400, 0.0)
  {
    hide Text, TrimmedTo, AllStored, Played;
    var full := STALE.db.pool;
    var thin := Restricted(full, Expired(full, Pruning(200, 0.0)));
    assert thin == map[];
    PrunedThenSaved(STALE, Pruning(200, 0.0), PROBE, "d", [SLOW]);
    OneRecord(thin, PROBE, "192.0.2.1:53", "d", SLOW);
    RefusedRecord(full);
    OneRowStays(full, full);
    OneRowStays(thin, map[FIRST := Entry("192.0.2.1:53", 60, 90, 60090, 0)]);
    var f, t := Played(STALE, REPLAYING, false).db, Played(STALE, REPLAYING, true).db;
    assert FIRST in References(t.servers, t.pool, "d", 400, 0.0);
    assert FIRST !in References(f.servers, f.pool, "d", 400, 0.0);
  }

  lemma RefusedRecord(pool: map<Key, Entry>)
    requires FIRST in pool && 90 < pool[FIRST].observedAt
    ensures AllStored(pool, PROBE, "192.0.2.1:53", "d", [SLOW]) == pool
  {
    hide Text;
    assert [SLOW][..0] == [];
  }

  lemma OneRowStays(pool: map<Key, Entry>, stored: map<Key, Entry>)
    requires stored == AllStored(pool, PROBE, "192.0.2.1:53", "d", [SLOW]) && stored.Keys == {FIRST}
    ensures SavedPool(pool, PROBE, "192.0.2.1:53", "d", [SLOW]) == stored
  {
    hide Text, TrimmedTo, AllStored;
    assert SubjectKeys(stored, 1, "d") == stored.Keys;
    RoomForAll(stored, stored.Keys, SUBJECT_LIMIT);
    RoomForAll(stored, stored.Keys, POOL_LIMIT);
  }
}
