/**
 The store: transactions that work on the tables step by step, each proved to commit exactly the
 database value its specification gives, or nothing.
 */
module Store {
  import opened Tables
  import opened Timeline
  import opened Evidence
  import opened Database
  import opened Snapshots
  import C = CurrentEvaluation
  import E = Evaluation

  // ----- The two passes of SaveRound over a report's results -----

  ghost predicate AllFinite(v: RoundReport, n: nat)
    requires n <= |v.results|
  {
    forall k :: 0 <= k < n ==> v.results[k].latency.Finite?
  }

  /** One step of recomputing the sums over the rows of a report. */
  lemma RowsTotalsStep(db: Db, v: RoundReport, id: nat, i: nat)
    requires i < |v.results|
    ensures Totals(Rows(db, v, id, 0), id) == NOTHING
    ensures Totals(Rows(db, v, id, i + 1), id) == Plus(Totals(Rows(db, v, id, i), id), Row(db, v, id, i))
    ensures var p, row := v.results[i], Row(db, v, id, i);
            row.received == p.received && row.success == p.success && (p.latency.Finite? ==> row.latency == p.latency.ms)
  {
    hide EffectiveCode, OverrideFor, OldestReference, Plus;
    TotalsOfLast(Rows(db, v, id, i), Row(db, v, id, i), id);
  }

  lemma FiniteStep(v: RoundReport, i: nat)
    requires i < |v.results|
    ensures AllFinite(v, i + 1) <==> AllFinite(v, i) && v.results[i].latency.Finite?
    ensures AllFinite(v, |v.results|) ==> v.results[i].latency.Finite?
    ensures AllFinite(v, 0)
  {
  }

  lemma InsertStep(db: Db, v: RoundReport, id: nat, i: nat)
    requires i < |v.results|
    ensures Rows(db, v, id, i + 1) == Rows(db, v, id, i) + [Row(db, v, id, i)]
    ensures var t := Totals(Rows(db, v, id, i), id);
            var t' := Totals(Rows(db, v, id, i + 1), id);
            t'.samples == t.samples + 1 && t'.pollution == Max(t.pollution, Row(db, v, id, i).effective)
  {
    hide Totals, Row, Bucket;
    RowsTotalsStep(db, v, id, i);
  }

  /** The sums after one more result; its verdict is only known once it is inserted. */
  function Counted(a: Aggregate, p: ProbeResult): Aggregate {
    var timed := p.success && p.latency.Finite? && 0.0 <= p.latency.ms;
    a.(received := a.received + if p.received then 1 else 0,
       successes := a.successes + if p.success then 1 else 0,
       latencyCount := a.latencyCount + if timed then 1 else 0,
       latencySum := a.latencySum + if timed then p.latency.ms else 0.0,
       histogram := a.histogram + if timed then multiset{Bucket(p.latency.ms)} else multiset{})
  }

  function Unjudged(a: Aggregate): Aggregate {
    a.(samples := 0, pollution := 0)
  }

  lemma CountedStep(db: Db, v: RoundReport, id: nat, i: nat)
    requires i < |v.results|
    ensures v.results[i].latency.Finite? ==>
              Unjudged(Totals(Rows(db, v, id, i + 1), id)) == Counted(Unjudged(Totals(Rows(db, v, id, i), id)), v.results[i])
    ensures Unjudged(Totals(Rows(db, v, id, 0), id)) == NOTHING
  {
    RowsTotalsStep(db, v, id, i);
    hide Totals, Rows, Row, Bucket;
  }

  /** Sums the report. A latency that is not a finite number is left out here and refused later. */
  method SumReport(db: Db, v: RoundReport, ghost id: nat) returns (agg: Aggregate)
    ensures AllFinite(v, |v.results|) ==> agg == Unjudged(Totals(Rows(db, v, id, |v.results|), id))
  {
    agg := NOTHING;
    assert Unjudged(Totals(Rows(db, v, id, 0), id)) == NOTHING;
    hide *;
    for i := 0 to |v.results|
      invariant AllFinite(v, i) ==> agg == Unjudged(Totals(Rows(db, v, id, i), id))
    {
      FiniteStep(v, i);
      CountedStep(db, v, id, i);
      agg := Counted(agg, v.results[i]);
    }
  }

  /** Inserts the report's results one by one and tracks the worst verdict; fails where encoding fails. */
  method InsertResults(db: Db, v: RoundReport, id: nat)
    returns (ok: bool, results: seq<Result>, maxPollution: nat)
    ensures ok <==> AllFinite(v, |v.results|)
    ensures ok ==> results == db.results + Rows(db, v, id, |v.results|)
    ensures ok ==> maxPollution == Totals(Rows(db, v, id, |v.results|), id).pollution
    ensures ok ==> |v.results| == Totals(Rows(db, v, id, |v.results|), id).samples
  {
    assert Totals(Rows(db, v, id, 0), id) == NOTHING && AllFinite(v, 0) && Rows(db, v, id, 0) == [];
    hide *;
    ok, results, maxPollution := true, db.results, 0;
    for i := 0 to |v.results|
      invariant AllFinite(v, i)
      invariant results == db.results + Rows(db, v, id, i)
      invariant maxPollution == Totals(Rows(db, v, id, i), id).pollution
      invariant i == Totals(Rows(db, v, id, i), id).samples
    {
      var p := v.results[i];
      FiniteStep(v, i);
      if p.latency.NotFinite? {
        return false, results, maxPollution;
      }
      var row := Row(db, v, id, i);
      InsertStep(db, v, id, i);
      maxPollution := Max(maxPollution, row.effective);
      results := results + [row];
    }
  }

  /** Clips the predecessor and appends the new round. */
  method InsertRound(rs: seq<Round>, v: Probe) returns (rounds: seq<Round>)
    requires OrderedIds(rs)
    ensures rounds == Inserted(rs, v)
    ensures |rounds| == |rs| + 1 && rounds[|rs|].id == NextId(rs)
  {
    hide LastIndex, MinFinished;
    var coveredUntil := v.nextDue;
    if !v.auxiliary {
      var next := QueryMinFinished(rs, v.server, v.finished);
      if next.Some? && next.value < coveredUntil {
        coveredUntil := next.value;
      }
    }
    var id := if |rs| == 0 then 1 else rs[|rs| - 1].id + 1;
    rounds := rs + [Round(id, v.server, v.started, v.finished, v.nextDue, coveredUntil, v.auxiliary, v.agg)];
    if !v.auxiliary {
      var predecessor := QueryLastIndex(rs, v.server, v.finished);
      if predecessor != -1 {
        var p := rs[predecessor];
        rounds := rounds[predecessor := p.(coveredUntil := Min(p.nextDue, v.finished))];
      }
    }
  }

  class Store {
    var db: Db
    var version: nat
    /** The thresholds and weights in force. */
    var config: C.Thresholds
    var snapshots: map<nat, Snapshot>

    ghost predicate Valid()
      reads this
    {
      Invariant(db) && Attached(snapshots, db.rounds)
    }

    constructor (th: C.Thresholds)
      ensures Valid() && db == EMPTY && version == 0 && config == th && snapshots == map[]
    {
      db := EMPTY;
      version := 0;
      config := th;
      snapshots := map[];
    }

    /** Commits a probe round, its results and, for a formal round, the evaluation captured with it atomically, or
        rejects it and changes nothing. */
    method SaveRound(v: RoundReport) returns (ok: bool)
      requires Valid()
      modifies this
      ensures Valid() && config == old(config)
      ensures ok <==> Acceptable(old(db), v) && (v.auxiliary || C.Valid(config, v.finished))
      ensures ok ==> db == SavedRound(old(db), v) && version == old(version) + 1
      ensures ok ==> snapshots == Captured(old(snapshots), old(db), db, v, config)
      ensures !ok ==> db == old(db) && version == old(version) && snapshots == old(snapshots)
    {
      hide Totals, Inserted, Linked, Summed, Judged, Dated, Bounded, Disjoint, Attached, Captured, C.CurrentReport, C.Valid;
      if v.server == 0 || v.started <= 0 || v.finished < v.started || v.nextDue <= v.finished {
        return false;
      }
      var agg := SumReport(db, v, NextId(db.rounds));
      if v.server !in db.servers {
        return false;
      }
      var encoded, results, maxPollution := InsertResults(db, v, NextId(db.rounds));
      assert AllFinite(v, |v.results|) <==> forall p :: p in v.results ==> p.latency.Finite?;
      if !encoded {
        return false;
      }
      agg := agg.(samples := |v.results|, pollution := maxPollution);
      var rounds := InsertRound(db.rounds, Probe(v.server, v.started, v.finished, v.nextDue, v.auxiliary, agg));
      CapturingKeepsAttached(snapshots, db, v, config);
      var tx := db.(rounds := rounds, results := results, lastResult := db.lastResult + |v.results|);
      assert tx == SavedRound(db, v);
      var captured := snapshots;
      if !v.auxiliary {
        var snapshot := CaptureSnapshot(tx, v.server, v.finished, config);
        if snapshot.None? {
          return false;
        }
        captured := captured[rounds[|rounds| - 1].id := snapshot.value];
      }
      CapturedIs(snapshots, db, tx, v, config, captured);
      db := tx;
      snapshots := captured;
      version := version + 1;
      return true;
    }

    /** Records or withdraws a manual verdict, or refuses and changes nothing. */
    method SaveOverride(server: nat, subject: Subject, verdict: Option<Verdict>) returns (ok: bool)
      requires Valid()
      modifies this
      ensures Valid()
      ensures ok <==> OverrideAllowed(old(db), server, subject, verdict)
      ensures ok ==> db == Overridden(old(db), server, subject, verdict) && version == old(version) + 1
      ensures !ok ==> db == old(db) && version == old(version)
      ensures config == old(config) && snapshots == old(snapshots)
    {
      if subject.domain == "" || subject.recordType == "" {
        return false;
      }
      if server !in db.servers {
        return false;
      }
      if verdict == Some(PollutedVerdict) && db.servers[server] {
        return false;
      }
      OverridingKeepsValid(db, snapshots, server, subject, verdict);
      hide Invariant, Repolluted, Rejudged, Attached;
      var tx := db;
      var key := OverrideKey(server, subject);
      match verdict {
        case None =>
          tx := tx.(overrides := tx.overrides - {key});
        case Some(v) =>
          tx := tx.(overrides := tx.overrides[key := v]);
      }
      tx := tx.(results := Rejudged(tx.results, server, subject, verdict));
      tx := tx.(rounds := Repolluted(tx.rounds, tx.results, server, subject));
      db := tx;
      version := version + 1;
      return true;
    }

    /** Deletes a server with everything recorded for it. */
    method DeleteServer(server: nat) returns (ok: bool)
      requires Valid()
      modifies this
      ensures Valid()
      ensures ok <==> server in old(db).servers
      ensures ok ==> db == ServerDeleted(old(db), server) && version == old(version) + 1
      ensures ok ==> snapshots == Live(old(snapshots), db.rounds)
      ensures !ok ==> db == old(db) && version == old(version) && snapshots == old(snapshots)
      ensures config == old(config)
    {
      if server !in db.servers {
        return false;
      }
      DeletingServerKeepsInvariant(db, server);
      WithoutDescends(db.rounds, RoundIdsOf(db.rounds, server));
      hide Invariant, Attached, Live, Descends;
      InvariantIsOrdered(db);
      LiveStaysAttached(snapshots, db.rounds, ServerDeleted(db, server).rounds);
      db := ServerDeleted(db, server);
      snapshots := Live(snapshots, db.rounds);
      version := version + 1;
      return true;
    }

    /** Opens a database written by the given schema version. */
    method Migrate(schema: nat) returns (ok: bool)
      requires if schema == 0 then LegacyInvariant(db) && snapshots == map[] else Valid()
      modifies this
      ensures ok <==> schema <= 2
      ensures config == old(config) && snapshots == old(snapshots)
      ensures ok ==> Valid()
      ensures db == if schema == 0 then Migrated(old(db)) else old(db)
    {
      if schema > 2 {
        return false;
      }
      if schema == 0 {
        MigrationEstablishesInvariant(db);
        var tx := db;
        tx := tx.(results := MigratedResults(tx));
        db := tx.(rounds := MigratedRounds(tx.rounds, tx.results));
      }
      return true;
    }

    /** Prunes stale reference evidence, 250 results a transaction. */
    method PruneReferences(before: int)
      requires Valid()
      modifies this`db
      ensures Valid()
      ensures db == old(db).(results := db.results) && AllPruned(old(db).results, db.results, before)
    {
      hide Invariant, PrunedRow, ReferencesPruned, Attached;
      ghost var was := db;
      var more := true;
      while more
        invariant Valid()
        invariant db == was.(results := db.results)
        invariant PartlyPruned(was.results, db.results, before)
        invariant !more ==> StaleIds(db.results, before) == {}
        decreases |StaleIds(db.results, before)|, more
      {
        var batch := Limit(StaleIds(db.results, before), 250);
        PruneStep(db, was.results, batch, before);
        more := |batch| == 250;
        db := db.(results := ReferencesPruned(db.results, batch, before));
      }
      PrunedThrough(was.results, db.results, before);
    }

    /** Deletes expired rounds, 1000 a transaction. */
    method DropExpired(before: int)
      requires Valid()
      modifies this`db, this`snapshots
      ensures Valid()
      ensures db == RoundsDropped(old(db), ExpiredRoundIds(old(db).rounds, before))
      ensures snapshots == Live(old(snapshots), db.rounds)
    {
      ghost var was, all := db, snapshots;
      ghost var dropped := {};
      var more := true;
      DropsNothingYet(db, snapshots, before);
      hide *;
      while more
        invariant Drops(was, db, all, snapshots, dropped, before)
        invariant !more ==> ExpiredRoundIds(db.rounds, before) == {}
        decreases |ExpiredRoundIds(db.rounds, before)|, more
      {
        more, dropped := DropSome(before, was, all, dropped);
      }
      DropsAll(was, db, all, snapshots, dropped, before);
      ItIsValid(this);
    }

    /** One transaction. */
    method DropSome(before: int, ghost was: Db, ghost all: map<nat, Snapshot>, ghost dropped: set<nat>)
      returns (more: bool, ghost now: set<nat>)
      requires Drops(was, db, all, snapshots, dropped, before)
      modifies this`db, this`snapshots
      ensures Drops(was, db, all, snapshots, now, before)
      ensures !more ==> ExpiredRoundIds(db.rounds, before) == {}
      ensures |ExpiredRoundIds(db.rounds, before)| <= |ExpiredRoundIds(old(db).rounds, before)|
      ensures more ==> |ExpiredRoundIds(db.rounds, before)| < |ExpiredRoundIds(old(db).rounds, before)|
    {
      hide *;
      var batch := Limit(ExpiredRoundIds(db.rounds, before), 1000);
      DropBatch(was, db, all, snapshots, dropped, batch, before);
      more, now := |batch| == 1000, dropped + batch;
      var rest := RoundsDropped(db, batch);
      db, snapshots := rest, Live(snapshots, rest.rounds);
    }

    /** Deletes expired results of surviving rounds and rebuilds those rounds, 100 a transaction. */
    method TrimPartlyExpired(before: int)
      requires Valid()
      modifies this`db, this`snapshots
      ensures Valid()
      ensures Trimmed(old(db), db, PartlyExpired(old(db).results, before), before)
      ensures snapshots == Live(old(snapshots), db.rounds)
    {
      StartFollows(snapshots, db.rounds);
      ghost var was, all := db, snapshots;
      ghost var done := {};
      var more := true;
      TrimNothing(db, before);
      hide *;
      while more
        invariant Invariant(db) && Follows(all, snapshots, db.rounds)
        invariant Trimmed(was, db, done, before)
        invariant done + PartlyExpired(db.results, before) == PartlyExpired(was.results, before)
        invariant !more ==> PartlyExpired(db.results, before) == {}
        decreases |PartlyExpired(db.results, before)|, more
      {
        ghost var expired := PartlyExpired(db.results, before);
        var todo := Limit(PartlyExpired(db.results, before), 100);
        more := |todo| == 100;
        TrimRounds(todo, before, was, all, done);
        BatchLeaves(expired, todo, PartlyExpired(was.results, before), done, 100);
        done := done + todo;
      }
      FollowsMeans(all, snapshots, db.rounds);
      ItIsValid(this);
    }

    /** The rounds of one batch, one after the other. */
    method TrimRounds(ids: set<nat>, before: int, ghost was: Db, ghost all: map<nat, Snapshot>, ghost done: set<nat>)
      requires Invariant(db) && Follows(all, snapshots, db.rounds) && Trimmed(was, db, done, before)
      requires ids <= PartlyExpired(db.results, before)
      requires done + PartlyExpired(db.results, before) == PartlyExpired(was.results, before)
      modifies this`db, this`snapshots
      ensures Invariant(db) && Follows(all, snapshots, db.rounds) && Trimmed(was, db, done + ids, before)
      ensures PartlyExpired(db.results, before) == PartlyExpired(old(db).results, before) - ids
    {
      hide *;
      var todo := ids;
      ghost var now, expired := done, PartlyExpired(db.results, before);
      while todo != {}
        invariant Invariant(db) && Follows(all, snapshots, db.rounds) && Trimmed(was, db, now, before)
        invariant todo <= ids && now == done + (ids - todo)
        invariant PartlyExpired(db.results, before) == expired - (ids - todo)
        invariant now + PartlyExpired(db.results, before) == PartlyExpired(was.results, before)
        decreases todo
      {
        var id :| id in todo;
        TrimOne(was, db, all, snapshots, now, id, before);
        todo := todo - {id};
        now := now + {id};
        var rest := RoundTrimmed(db, id, before);
        db, snapshots := rest, Live(snapshots, rest.rounds);
      }
      assert now == done + ids && expired - ids == expired - (ids - todo);
    }

    /** Retention, in bounded batches that each commit on their own. */
    method Cleanup(before: int)
      requires Valid()
      modifies this
      ensures Valid()
      ensures CleanedUp(old(db), db, before)
      ensures snapshots == Live(old(snapshots), db.rounds) && config == old(config)
      ensures version == old(version) + 1
    {
      hide Invariant, Trimmed, RoundsDropped, AllPruned, CleanedUp, Attached, Live;
      ghost var was := db;
      PruneReferences(before);
      ghost var pruned := db;
      DropExpired(before);
      ghost var dropped := db;
      TrimPartlyExpired(before);
      CleanupPhases(was, pruned, dropped, db, before);
      TrimmedDescends(dropped, db, PartlyExpired(dropped.results, before), before);
      LiveTwice(old(snapshots), dropped.rounds, db.rounds);
      version := version + 1;
    }
  }

  // ----- Snapshots -----

  /** The evaluation captured inside the transaction; none if the thresholds are invalid. */
  method CaptureSnapshot(db: Db, server: nat, at: int, th: C.Thresholds) returns (snapshot: Option<Snapshot>)
    requires Invariant(db) && server in db.servers
    ensures snapshot == if C.Valid(th, at) then Some(SnapshotOf(db, server, at, th)) else None
  {
    InvariantIsSane(db);
    hide Linked, Summed, Judged, Dated, C.CurrentReport;
    var trusted := db.servers[server];
    var report := C.EvaluateCurrent(db.rounds, db.results, server, trusted, th, at);
    if report.None? {
      return None;
    }
    return Some(Snapshot(server, at, trusted, if trusted then CLEAN else report.value.quality, report.value));
  }

  lemma InvariantIsSane(db: Db)
    requires Invariant(db)
    ensures Consistent(db.rounds) && E.Sane(db.rounds)
  {
    hide Linked, Judged, Dated, Totals;
  }

  lemma CapturedIs(snapshots: map<nat, Snapshot>, was: Db, db: Db, v: RoundReport, th: C.Thresholds, captured: map<nat, Snapshot>)
    requires OrderedIds(db.rounds) && v.server in db.servers
    requires captured == if v.auxiliary then snapshots else snapshots[NextId(was.rounds) := SnapshotOf(db, v.server, v.finished, th)]
    ensures captured == Captured(snapshots, was, db, v, th)
  {
  }

  /** The snapshots are those of the rounds that are left. */
  ghost predicate Follows(all: map<nat, Snapshot>, snapshots: map<nat, Snapshot>, rounds: seq<Round>) {
    Attached(snapshots, rounds) && snapshots == Live(all, rounds)
  }

  lemma ItIsValid(store: Store)
    requires Invariant(store.db) && Attached(store.snapshots, store.db.rounds)
    ensures store.Valid()
  {
  }

  lemma FollowsMeans(all: map<nat, Snapshot>, snapshots: map<nat, Snapshot>, rounds: seq<Round>)
    requires Follows(all, snapshots, rounds)
    ensures Attached(snapshots, rounds) && snapshots == Live(all, rounds)
  {
  }

  lemma StartFollows(snapshots: map<nat, Snapshot>, rounds: seq<Round>)
    requires Attached(snapshots, rounds)
    ensures Follows(snapshots, snapshots, rounds)
  {
    AllAreLive(snapshots, rounds);
  }

  /** What the batches keep while expired rounds are dropped. */
  ghost predicate Drops(was: Db, db: Db, all: map<nat, Snapshot>, snapshots: map<nat, Snapshot>, dropped: set<nat>, before: int) {
    && Invariant(db) && Follows(all, snapshots, db.rounds)
    && db == RoundsDropped(was, dropped)
    && dropped + ExpiredRoundIds(db.rounds, before) == ExpiredRoundIds(was.rounds, before)
  }

  lemma DropsNothingYet(db: Db, snapshots: map<nat, Snapshot>, before: int)
    requires Invariant(db) && Attached(snapshots, db.rounds)
    ensures Drops(db, db, snapshots, snapshots, {}, before)
  {
    hide Invariant, Follows, RoundsDropped;
    DropNothing(db);
    StartFollows(snapshots, db.rounds);
  }

  lemma DropsAll(was: Db, db: Db, all: map<nat, Snapshot>, snapshots: map<nat, Snapshot>, dropped: set<nat>, before: int)
    requires Drops(was, db, all, snapshots, dropped, before) && ExpiredRoundIds(db.rounds, before) == {}
    ensures db == RoundsDropped(was, ExpiredRoundIds(was.rounds, before))
    ensures Invariant(db) && Attached(snapshots, db.rounds) && snapshots == Live(all, db.rounds)
  {
    hide Invariant, RoundsDropped, ExpiredRoundIds, Live, Attached;
    assert dropped + {} == dropped;
  }

  /** One batch of expired rounds. */
  lemma DropBatch(was: Db, db: Db, all: map<nat, Snapshot>, snapshots: map<nat, Snapshot>, dropped: set<nat>, batch: set<nat>, before: int)
    requires Drops(was, db, all, snapshots, dropped, before)
    requires var expired := ExpiredRoundIds(db.rounds, before);
      batch <= expired && |batch| == if |expired| <= 1000 then |expired| else 1000
    ensures var rest := RoundsDropped(db, batch);
      && Drops(was, rest, all, Live(snapshots, rest.rounds), dropped + batch, before)
      && (|batch| != 1000 ==> ExpiredRoundIds(rest.rounds, before) == {})
      && |ExpiredRoundIds(rest.rounds, before)| == |ExpiredRoundIds(db.rounds, before)| - |batch|
  {
    hide Invariant, RoundsDropped, ExpiredRoundIds, Live, Attached, Follows;
    DropStep(db, was, dropped, batch, before);
    DropKeepsSnapshots(all, snapshots, db, batch);
  }

  lemma DropKeepsSnapshots(all: map<nat, Snapshot>, snapshots: map<nat, Snapshot>, db: Db, batch: set<nat>)
    requires Invariant(db) && Follows(all, snapshots, db.rounds)
    ensures var out := RoundsDropped(db, batch).rounds; Follows(all, Live(snapshots, out), out)
  {
    InvariantIsOrdered(db);
    WithoutDescends(db.rounds, batch);
    hide Invariant, Attached, Live, Descends, Without;
    var out := RoundsDropped(db, batch).rounds;
    LiveStaysAttached(snapshots, db.rounds, out);
    LiveTwice(all, db.rounds, out);
  }

  lemma BatchLeaves(expired: set<nat>, batch: set<nat>, all: set<nat>, done: set<nat>, limit: nat)
    requires batch <= expired && |batch| == if |expired| <= limit then |expired| else limit
    requires done + expired == all
    ensures done + batch + (expired - batch) == all
    ensures |expired - batch| == |expired| - |batch| && (|batch| != limit ==> expired - batch == {})
  {
    Shrinks(expired, batch);
  }

  /** One rebuilt round, with everything the loop keeps. */
  lemma TrimOne(was: Db, db: Db, all: map<nat, Snapshot>, snapshots: map<nat, Snapshot>, done: set<nat>, id: nat, before: int)
    requires Invariant(db) && Trimmed(was, db, done, before) && Follows(all, snapshots, db.rounds)
    requires id in PartlyExpired(db.results, before)
    requires done + PartlyExpired(db.results, before) == PartlyExpired(was.results, before)
    ensures var rest := RoundTrimmed(db, id, before);
      && Invariant(rest) && Trimmed(was, rest, done + {id}, before) && Follows(all, Live(snapshots, rest.rounds), rest.rounds)
      && PartlyExpired(rest.results, before) == PartlyExpired(db.results, before) - {id}
      && done + {id} + PartlyExpired(rest.results, before) == PartlyExpired(was.results, before)
  {
    hide *;
    TrimStep(was, db, done, id, before);
    TrimKeepsSnapshots(all, snapshots, db, id, before);
  }

  lemma TrimKeepsSnapshots(all: map<nat, Snapshot>, snapshots: map<nat, Snapshot>, db: Db, id: nat, before: int)
    requires Invariant(db) && Follows(all, snapshots, db.rounds)
    ensures var out := RoundTrimmed(db, id, before).rounds; Follows(all, Live(snapshots, out), out)
  {
    InvariantIsOrdered(db);
    TrimDescends(db, id, before);
    hide Invariant, Attached, Live, Descends, RoundTrimmed;
    var out := RoundTrimmed(db, id, before).rounds;
    LiveStaysAttached(snapshots, db.rounds, out);
    LiveTwice(all, db.rounds, out);
  }

  lemma DescendsTwice(a: seq<Round>, b: seq<Round>, c: seq<Round>)
    requires Descends(b, a) && Descends(c, b)
    ensures Descends(c, a)
  {
    forall r | r in c ensures exists q :: q in a && r == q.(coveredUntil := r.coveredUntil, agg := r.agg) {
      var k :| k in b && r == k.(coveredUntil := r.coveredUntil, agg := r.agg);
      var q :| q in a && k == q.(coveredUntil := k.coveredUntil, agg := k.agg);
    }
  }

  lemma TrimmedDescends(was: Db, now: Db, done: set<nat>, before: int)
    requires Trimmed(was, now, done, before)
    ensures Descends(now.rounds, was.rounds)
  {
    var gone := EmptiedAmong(was, done, before);
    assert SameTimeline(Without(was.rounds, gone), now.rounds);
    hide *;
    WithoutDescends(was.rounds, gone);
    SameTimelineDescends(Without(was.rounds, gone), now.rounds);
    DescendsTwice(was.rounds, Without(was.rounds, gone), now.rounds);
  }

  // ----- Batches -----

  /** LIMIT n: which rows a batch picks is up to the database. */
  method Limit(q: set<nat>, n: nat) returns (batch: set<nat>)
    ensures batch <= q && |batch| == if |q| <= n then |q| else n
  {
    batch := {};
    var rest := q;
    while |batch| < n && rest != {}
      invariant batch !! rest && batch + rest == q
      invariant |batch| <= n && |batch| + |rest| == |q|
      decreases rest
    {
      var x :| x in rest;
      assert (batch + {x}) + (rest - {x}) == q;
      batch, rest := batch + {x}, rest - {x};
    }
  }

  lemma Shrinks(q: set<nat>, batch: set<nat>)
    requires batch <= q
    ensures |q - batch| == |q| - |batch|
    ensures |batch| == |q| ==> q - batch == {}
  {
    assert (q - batch) + batch == q;
  }

  ghost predicate PartlyPruned(was: seq<Result>, now: seq<Result>, before: int) {
    |was| == |now| && forall i :: 0 <= i < |was| ==> now[i] == was[i] || now[i] == PrunedRow(was[i], before)
  }

  lemma PrunedTwice(r: Result, before: int)
    ensures !HasStaleReference(PrunedRow(r, before), before)
    ensures PrunedRow(PrunedRow(r, before), before) == PrunedRow(r, before)
    ensures PrunedRow(r, before).id == r.id
  {
    PrunedIsFresh(r.references, before);
  }

  /** One batch prunes its rows for good. */
  lemma PruneStep(db: Db, was: seq<Result>, batch: set<nat>, before: int)
    requires Invariant(db) && PartlyPruned(was, db.results, before)
    requires batch <= StaleIds(db.results, before)
    ensures var out := ReferencesPruned(db.results, batch, before);
            && Invariant(db.(results := out)) && PartlyPruned(was, out, before)
            && StaleIds(out, before) == StaleIds(db.results, before) - batch
            && |StaleIds(out, before)| == |StaleIds(db.results, before)| - |batch|
            && (|batch| == |StaleIds(db.results, before)| ==> StaleIds(out, before) == {})
  {
    hide PrunedRow, HasStaleReference;
    var out := ReferencesPruned(db.results, batch, before);
    PruningKeepsInvariant(db, batch, before);
    forall i | 0 <= i < |was| ensures out[i] == was[i] || out[i] == PrunedRow(was[i], before) {
      PrunedTwice(was[i], before);
    }
    StaleAfterPrune(db.results, batch, before);
    Shrinks(StaleIds(db.results, before), batch);
  }

  lemma StaleAfterPrune(rs: seq<Result>, batch: set<nat>, before: int)
    requires OrderedResults(rs)
    ensures StaleIds(ReferencesPruned(rs, batch, before), before) == StaleIds(rs, before) - batch
  {
    hide PrunedRow, HasStaleReference;
    var out := ReferencesPruned(rs, batch, before);
    forall i | 0 <= i < |rs| ensures out[i].id == rs[i].id && (rs[i].id in batch ==> !HasStaleReference(out[i], before)) {
      PrunedTwice(rs[i], before);
    }
    forall id | id in StaleIds(out, before) ensures id in StaleIds(rs, before) && id !in batch {
      var r :| r in out && HasStaleReference(r, before) && r.id == id;
      var i :| 0 <= i < |out| && out[i] == r;
      assert rs[i] in rs;
    }
    forall id | id in StaleIds(rs, before) && id !in batch ensures id in StaleIds(out, before) {
      var r :| r in rs && HasStaleReference(r, before) && r.id == id;
      var i :| 0 <= i < |rs| && rs[i] == r;
      assert out[i] in out;
    }
  }

  lemma PrunedThrough(was: seq<Result>, now: seq<Result>, before: int)
    requires PartlyPruned(was, now, before) && StaleIds(now, before) == {}
    ensures AllPruned(was, now, before)
  {
    forall i | 0 <= i < |was| ensures now[i] == PrunedRow(was[i], before) {
      NoneStale(now, before, now[i]);
    }
  }

  lemma NoneStale(rs: seq<Result>, before: int, r: Result)
    requires StaleIds(rs, before) == {} && r in rs
    ensures !HasStaleReference(r, before)
  {
    assert r.id in (set x | x in rs && HasStaleReference(x, before) :: x.id) <==> r.id in StaleIds(rs, before);
  }

  lemma DropNothing(db: Db)
    ensures RoundsDropped(db, {}) == db
  {
    var none: set<nat> := {};
    WithoutNothing(db.rounds);
    KeepAll(db.results, (r: Result) => r.round !in none);
    assert RoundsDropped(db, none) == db;
  }

  lemma {:induction false} WithoutNothing(rs: seq<Round>)
    ensures Without(rs, {}) == rs
  {
    if |rs| > 0 { WithoutNothing(rs[..|rs| - 1]); }
  }

  lemma OverridingKeepsValid(db: Db, snapshots: map<nat, Snapshot>, server: nat, subject: Subject, verdict: Option<Verdict>)
    requires Invariant(db) && Attached(snapshots, db.rounds) && OverrideAllowed(db, server, subject, verdict)
    ensures var out := Overridden(db, server, subject, verdict); Invariant(out) && Attached(snapshots, out.rounds)
  {
    OverridingKeepsInvariant(db, server, subject, verdict);
    hide Invariant, Rejudged, Attached;
    SameTimelineKeepsAttached(snapshots, db.rounds, Overridden(db, server, subject, verdict).rounds);
  }

  lemma {:induction false} KeepAll(rs: seq<Result>, keep: Result -> bool)
    requires forall r :: r in rs ==> keep(r)
    ensures Keep(rs, keep) == rs
  {
    if |rs| > 0 {
      var n := |rs| - 1;
      assert rs[n] in rs && forall r :: r in rs[..n] ==> r in rs;
      KeepAll(rs[..n], keep);
      KeepLast(rs[..n], rs[n], keep);
      hide Keep;
      assert rs[..n] + [rs[n]] == rs;
    }
  }

  lemma DropStep(db: Db, was: Db, dropped: set<nat>, batch: set<nat>, before: int)
    requires Invariant(db) && db == RoundsDropped(was, dropped)
    requires batch <= ExpiredRoundIds(db.rounds, before)
    ensures Invariant(RoundsDropped(db, batch))
    ensures RoundsDropped(db, batch) == RoundsDropped(was, dropped + batch)
    ensures var expired := ExpiredRoundIds(RoundsDropped(db, batch).rounds, before);
            && expired == ExpiredRoundIds(db.rounds, before) - batch
            && |expired| == |ExpiredRoundIds(db.rounds, before)| - |batch|
            && (|batch| == |ExpiredRoundIds(db.rounds, before)| ==> expired == {})
  {
    hide Without, Keep, Invariant;
    DroppingKeepsInvariant(db, batch);
    WithoutTwice(was.rounds, dropped, batch);
    var p, q := (r: Result) => r.round !in dropped, (r: Result) => r.round !in batch;
    KeepTwice(was.results, p, q);
    assert RoundsDropped(db, batch).results == Keep(Keep(was.results, p), q);
    KeepAgrees(was.results, (r: Result) => p(r) && q(r), (r: Result) => r.round !in dropped + batch);
    Shrinks(ExpiredRoundIds(db.rounds, before), batch);
  }

  // ----- Trimming -----

  ghost function EmptiedAmong(was: Db, done: set<nat>, before: int): set<nat> {
    set q | q in was.rounds && q.id in done && Emptied(was.results, q.id, before) :: q.id
  }

  /** The rounds in `done` lost their expired results, and went away if nothing was left. */
  ghost predicate Trimmed(was: Db, now: Db, done: set<nat>, before: int) {
    && now == was.(rounds := now.rounds, results := now.results)
    && now.results == Keep(was.results, (r: Result) => !(r.round in done && r.timestamp < before))
    && SameTimeline(Without(was.rounds, EmptiedAmong(was, done, before)), now.rounds)
  }

  lemma TrimNothing(db: Db, before: int)
    ensures Trimmed(db, db, {}, before)
  {
    var none: set<nat> := {};
    assert EmptiedAmong(db, none, before) == {};
    WithoutNothing(db.rounds);
    KeepAll(db.results, (r: Result) => !(r.round in none && r.timestamp < before));
    assert Trimmed(db, db, none, before);
  }

  lemma TrimStep(was: Db, db: Db, done: set<nat>, id: nat, before: int)
    requires Invariant(db) && Trimmed(was, db, done, before) && id in PartlyExpired(db.results, before)
    ensures var out := RoundTrimmed(db, id, before);
            && Invariant(out) && Trimmed(was, out, done + {id}, before)
            && PartlyExpired(out.results, before) == PartlyExpired(db.results, before) - {id}
  {
    hide Invariant, Trimmed, RoundTrimmed;
    TrimmingKeepsInvariant(db, id, before);
    TrimStepResults(was, db, done, id, before);
    TrimStepRounds(was, db, done, id, before);
    TrimStepCommits(was, db, done, id, before);
  }

  lemma TrimStepCommits(was: Db, db: Db, done: set<nat>, id: nat, before: int)
    requires Trimmed(was, db, done, before)
    requires var out := RoundTrimmed(db, id, before);
             && out.results == Keep(was.results, (r: Result) => !(r.round in done + {id} && r.timestamp < before))
             && SameTimeline(Without(was.rounds, EmptiedAmong(was, done + {id}, before)), out.rounds)
    ensures Trimmed(was, RoundTrimmed(db, id, before), done + {id}, before)
  {
    hide Keep, Without, EmptiedAmong, Resummed, SameTimeline;
  }

  lemma TrimStepResults(was: Db, db: Db, done: set<nat>, id: nat, before: int)
    requires Trimmed(was, db, done, before) && id in PartlyExpired(db.results, before)
    ensures var out := RoundTrimmed(db, id, before);
            && out.results == Keep(was.results, (r: Result) => !(r.round in done + {id} && r.timestamp < before))
            && PartlyExpired(out.results, before) == PartlyExpired(db.results, before) - {id}
  {
    hide Keep, Without, Resummed, SameTimeline, Totals;
    var p := (r: Result) => !(r.round in done && r.timestamp < before);
    var q := (r: Result) => !Expired(r, id, before);
    KeepTwice(was.results, p, q);
    KeepAgrees(was.results, (r: Result) => p(r) && q(r), (r: Result) => !(r.round in done + {id} && r.timestamp < before));
    var out := RoundTrimmed(db, id, before);
    assert out.results == Keep(db.results, q);
    assert db.results == Keep(was.results, p);
  }

  lemma TrimStepRounds(was: Db, db: Db, done: set<nat>, id: nat, before: int)
    requires Invariant(db) && Trimmed(was, db, done, before) && id in PartlyExpired(db.results, before)
    ensures var out := RoundTrimmed(db, id, before);
            SameTimeline(Without(was.rounds, EmptiedAmong(was, done + {id}, before)), out.rounds)
  {
    hide Keep, Without, Resummed, Totals, Invariant, Emptied;
    var out := RoundTrimmed(db, id, before);
    var gone, gone' := EmptiedAmong(was, done, before), EmptiedAmong(was, done + {id}, before);
    TrimEmpties(was, db, done, id, before);
    if Totals(out.results, id).samples == 0 {
      WithoutTwice(was.rounds, gone, {id});
      SameTimelineWithout(Without(was.rounds, gone), db.rounds, {id});
      WithoutAgrees(was.rounds, gone + {id}, gone');
    } else {
      assert gone' == gone;
    }
  }

  /** A trimmed round is empty exactly when all its results had expired. */
  lemma TrimEmpties(was: Db, db: Db, done: set<nat>, id: nat, before: int)
    requires Trimmed(was, db, done, before) && id in PartlyExpired(db.results, before)
    ensures Totals(RoundTrimmed(db, id, before).results, id).samples == 0 <==> Emptied(was.results, id, before)
  {
    hide Keep, Without, Resummed, SameTimeline, Totals;
    var out := RoundTrimmed(db, id, before);
    NoResultsNoTotals(out.results, id);
    var r :| r in db.results && r.timestamp < before && r.round == id;
    if forall x :: x in out.results ==> x.round != id {
      forall x | x in was.results && x.round == id ensures x.timestamp < before {
        assert before <= x.timestamp ==> x in db.results && x in out.results;
      }
    }
  }

  // ----- The phases together -----

  lemma CleanupPhases(was: Db, pruned: Db, dropped: Db, now: Db, before: int)
    requires Invariant(was)
    requires pruned == was.(results := pruned.results) && AllPruned(was.results, pruned.results, before)
    requires dropped == RoundsDropped(pruned, ExpiredRoundIds(pruned.rounds, before))
    requires Trimmed(dropped, now, PartlyExpired(dropped.results, before), before)
    ensures CleanedUp(was, now, before)
  {
    hide Keep, Without, Totals, Invariant, AllPruned, SameTimeline;
    PhasesResults(was, pruned, dropped, now, before);
    PhasesRounds(was, pruned, dropped, before);
  }

  lemma PhasesResults(was: Db, pruned: Db, dropped: Db, now: Db, before: int)
    requires pruned == was.(results := pruned.results)
    requires dropped == RoundsDropped(pruned, ExpiredRoundIds(pruned.rounds, before))
    requires Trimmed(dropped, now, PartlyExpired(dropped.results, before), before)
    ensures now.results == Keep(pruned.results, (r: Result) => r.round !in ExpiredRoundIds(was.rounds, before) && before <= r.timestamp)
  {
    hide Keep, Without, SameTimeline, ExpiredRoundIds;
    var gone := ExpiredRoundIds(was.rounds, before);
    var done := PartlyExpired(dropped.results, before);
    var p := (r: Result) => r.round !in gone;
    var q := (r: Result) => !(r.round in done && r.timestamp < before);
    var q' := (r: Result) => before <= r.timestamp;
    assert dropped.results == Keep(pruned.results, p);
    KeepAgrees(dropped.results, q, q');
    KeepTwice(pruned.results, p, q');
    KeepAgrees(pruned.results, (r: Result) => p(r) && q'(r), (r: Result) => r.round !in ExpiredRoundIds(was.rounds, before) && before <= r.timestamp);
  }

  lemma PhasesRounds(was: Db, pruned: Db, dropped: Db, before: int)
    requires Invariant(was)
    requires pruned == was.(results := pruned.results) && AllPruned(was.results, pruned.results, before)
    requires dropped == RoundsDropped(pruned, ExpiredRoundIds(pruned.rounds, before))
    ensures Without(dropped.rounds, EmptiedAmong(dropped, PartlyExpired(dropped.results, before), before))
            == Without(was.rounds, GoneRounds(was, before))
  {
    hide Keep, Without, Totals, Linked, Summed, Judged, Dated, Bounded, Disjoint, PrunedRow;
    var expired := ExpiredRoundIds(was.rounds, before);
    var done := PartlyExpired(dropped.results, before);
    var emptied := EmptiedAmong(dropped, done, before);
    WithoutTwice(was.rounds, expired, emptied);
    forall q | q in was.rounds ensures q.id in expired + emptied <==> q.id in GoneRounds(was, before) {
      GoneIs(was, pruned, dropped, q, before);
    }
    WithoutAgrees(was.rounds, expired + emptied, GoneRounds(was, before));
  }

  lemma GoneIs(was: Db, pruned: Db, dropped: Db, q: Round, before: int)
    requires OrderedIds(was.rounds) && q in was.rounds
    requires pruned == was.(results := pruned.results) && AllPruned(was.results, pruned.results, before)
    requires dropped == RoundsDropped(pruned, ExpiredRoundIds(pruned.rounds, before))
    ensures var expired := ExpiredRoundIds(was.rounds, before);
            var emptied := EmptiedAmong(dropped, PartlyExpired(dropped.results, before), before);
            q.id in expired + emptied <==> q.id in GoneRounds(was, before)
  {
    hide Keep, Without, PrunedRow, AllPruned;
    var expired := ExpiredRoundIds(was.rounds, before);
    forall x | x in was.rounds && x.id == q.id ensures x == q { IdsAreUnique(was.rounds, x, q); }
    assert q.id in expired <==> q.finished < before;
    if q.id !in expired {
      assert q in dropped.rounds;
      PrunedEmptiesSame(was.results, pruned.results, q.id, before);
      assert forall r: Result :: r.round == q.id ==> (r in dropped.results <==> r in pruned.results);
      assert Emptied(dropped.results, q.id, before) <==> Emptied(was.results, q.id, before);
    }
  }

  lemma PrunedEmptiesSame(was: seq<Result>, now: seq<Result>, round: nat, before: int)
    requires AllPruned(was, now, before)
    ensures Emptied(was, round, before) <==> Emptied(now, round, before)
  {
    forall i | 0 <= i < |was| ensures now[i].round == was[i].round && now[i].timestamp == was[i].timestamp {}
    hide PrunedRow, AllPruned;
    EmptiesSame(was, now, round, before);
    EmptiesSame(now, was, round, before);
  }

  lemma EmptiesSame(rs: seq<Result>, ts: seq<Result>, round: nat, before: int)
    requires |rs| == |ts|
    requires forall i :: 0 <= i < |rs| ==> rs[i].round == ts[i].round && rs[i].timestamp == ts[i].timestamp
    ensures Emptied(rs, round, before) ==> Emptied(ts, round, before)
  {
    if Emptied(rs, round, before) {
      var r :| r in rs && r.round == round;
      var i :| 0 <= i < |rs| && rs[i] == r;
      assert ts[i] in ts;
      forall x | x in ts && x.round == round ensures x.timestamp < before {
        var k :| 0 <= k < |ts| && ts[k] == x;
        assert rs[k] in rs;
      }
    }
  }
}
