/**
 The statistics database as a value: what each committed transaction of the store does to it,
 the invariant every transaction keeps, and what manual verdicts and retention mean.
 */
module Database {
  import opened Tables
  import opened Timeline
  import opened Evidence

  datatype OverrideKey = OverrideKey(server: nat, subject: Subject)

  /** Live servers map to their trust mark. */
  datatype Db = Db(
    servers: map<nat, bool>,
    lastServer: nat,
    rounds: seq<Round>,
    results: seq<Result>,
    lastResult: nat,
    overrides: map<OverrideKey, Verdict>)

  const EMPTY := Db(map[], 0, [], [], 0, map[])

  function OverrideFor(overrides: map<OverrideKey, Verdict>, server: nat, subject: Subject): Option<Verdict> {
    var key := OverrideKey(server, subject);
    if key in overrides then Some(overrides[key]) else None
  }

  // ----- Invariant -----

  ghost predicate HasRound(rounds: seq<Round>, id: nat, server: nat) {
    exists q :: q in rounds && q.id == id && q.server == server
  }

  /** Rows reference live rows. */
  ghost predicate Linked(db: Db) {
    && OrderedResults(db.results)
    && (forall r :: r in db.results ==> r.id <= db.lastResult)
    && (forall s :: s in db.servers ==> s <= db.lastServer)
    && (forall r :: r in db.results ==> HasRound(db.rounds, r.round, r.server))
    && (forall q :: q in db.rounds ==> q.server in db.servers)
    && (forall k :: k in db.overrides ==> k.server in db.servers)
  }

  /** Every materialised round equals a recomputation from its results. */
  ghost predicate Summed(rounds: seq<Round>, results: seq<Result>) {
    forall q :: q in rounds ==> q.agg == Totals(results, q.id)
  }

  /** Every materialised verdict equals the policy applied to the evidence and the current override. */
  ghost predicate Judged(results: seq<Result>, overrides: map<OverrideKey, Verdict>) {
    forall r :: r in results ==>
      r.effective == EffectiveCode(r.detected, r.policy, OverrideFor(overrides, r.server, r.subject))
  }

  /** The index column equals a recomputation from the reference evidence. */
  ghost predicate Dated(results: seq<Result>) {
    forall r :: r in results ==> r.oldestReference == OldestReference(r.references)
  }

  ghost predicate Invariant(db: Db) {
    Consistent(db.rounds) && Linked(db) && Summed(db.rounds, db.results) &&
    Judged(db.results, db.overrides) && Dated(db.results)
  }

  // ----- Saving a round -----

  /** What a probe reports; JSON encoding refuses a latency that is not a finite number. */
  datatype Latency = Finite(ms: real) | NotFinite

  datatype ProbeResult = ProbeResult(
    timestamp: int,
    subject: Subject,
    received: bool,
    success: bool,
    latency: Latency,
    detected: nat,
    policy: int,
    references: seq<Reference>)

  datatype RoundReport = RoundReport(
    server: nat, started: int, finished: int, nextDue: int, auxiliary: bool, results: seq<ProbeResult>)

  ghost predicate Acceptable(db: Db, v: RoundReport) {
    && ValidProbe(Probe(v.server, v.started, v.finished, v.nextDue, v.auxiliary, NOTHING))
    && v.server in db.servers
    && forall p :: p in v.results ==> p.latency.Finite?
  }

  function Row(db: Db, v: RoundReport, round: nat, k: nat): Result
    requires k < |v.results|
  {
    var p := v.results[k];
    var judged := EffectiveCode(p.detected, p.policy, OverrideFor(db.overrides, v.server, p.subject));
    Result(db.lastResult + k + 1, round, v.server, if p.timestamp == 0 then v.finished else p.timestamp,
           p.subject, p.detected, judged, p.policy, OldestReference(p.references), p.received, p.success,
           if p.latency.Finite? then p.latency.ms else 0.0, p.references)
  }

  function Rows(db: Db, v: RoundReport, round: nat, n: nat): (rows: seq<Result>)
    requires n <= |v.results|
    ensures |rows| == n
    ensures forall k :: 0 <= k < n ==> rows[k] == Row(db, v, round, k)
  {
    if n == 0 then [] else Rows(db, v, round, n - 1) + [Row(db, v, round, n - 1)]
  }

  ghost function SavedRound(db: Db, v: RoundReport): Db
    requires OrderedIds(db.rounds)
  {
    var rows := Rows(db, v, NextId(db.rounds), |v.results|);
    var probe := Probe(v.server, v.started, v.finished, v.nextDue, v.auxiliary, Totals(rows, NextId(db.rounds)));
    db.(rounds := Inserted(db.rounds, probe), results := db.results + rows, lastResult := db.lastResult + |v.results|)
  }

  lemma NextIdIsFresh(rs: seq<Round>)
    requires OrderedIds(rs)
    ensures forall q :: q in rs ==> q.id < NextId(rs)
  {
  }

  /** The database after a committed SaveRound keeps every materialised column right. */
  lemma SavingKeepsInvariant(db: Db, v: RoundReport)
    requires Invariant(db) && Acceptable(db, v)
    ensures Invariant(SavedRound(db, v))
  {
    var id := NextId(db.rounds);
    var rows := Rows(db, v, id, |v.results|);
    var probe := Probe(v.server, v.started, v.finished, v.nextDue, v.auxiliary, Totals(rows, id));
    InsertionKeepsConsistent(db.rounds, probe);
    SavingKeepsLinked(db, v, probe);
    SavingKeepsSummed(db, v, probe);
    hide Consistent, Linked, Summed, Inserted, Totals;
    RowsAreJudged(db, v, id);
  }

  lemma RowsAreJudged(db: Db, v: RoundReport, id: nat)
    requires Judged(db.results, db.overrides) && Dated(db.results)
    ensures var results := db.results + Rows(db, v, id, |v.results|);
      Judged(results, db.overrides) && Dated(results)
  {
    hide EffectiveCode, OldestReference;
  }

  lemma SavingKeepsLinked(db: Db, v: RoundReport, probe: Probe)
    requires Invariant(db) && Acceptable(db, v)
    requires probe.server == v.server
    ensures var rounds := Inserted(db.rounds, probe);
            var results := db.results + Rows(db, v, NextId(db.rounds), |v.results|);
            Linked(db.(rounds := rounds, results := results, lastResult := db.lastResult + |v.results|))
  {
    hide Bounded, Disjoint, Totals, OldestReference, EffectiveCode, Inserted, MinFinished, Judged, Dated, LastIndex;
    var id := NextId(db.rounds);
    var rounds := Inserted(db.rounds, probe);
    var rows := Rows(db, v, id, |v.results|);
    var results := db.results + rows;
    forall r | r in results ensures HasRound(rounds, r.round, r.server) && r.id <= db.lastResult + |v.results| {
      if r in db.results {
        RoundSurvivesInsert(db.rounds, probe, r.round, r.server);
      } else {
        InsertedRows(db.rounds, probe, NewRound(db.rounds, probe));
        assert NewRound(db.rounds, probe) in rounds;
      }
    }
    forall q | q in rounds ensures q.server in db.servers {
      InsertedRows(db.rounds, probe, q);
    }
    forall i, j | 0 <= i < j < |results| ensures results[i].id < results[j].id {
      if i < |db.results| { assert results[i] in db.results; }
    }
  }

  lemma RoundSurvivesInsert(rs: seq<Round>, probe: Probe, id: nat, server: nat)
    requires OrderedIds(rs) && HasRound(rs, id, server)
    ensures HasRound(Inserted(rs, probe), id, server)
  {
    hide Inserted, MinFinished, LastIndex;
    var q :| q in rs && q.id == id && q.server == server;
    InsertedRows(rs, probe, q);
    InsertedRows(rs, probe, Reclipped(q, probe.finished));
    assert q in Inserted(rs, probe) || Reclipped(q, probe.finished) in Inserted(rs, probe);
  }

  lemma SavingKeepsSummed(db: Db, v: RoundReport, probe: Probe)
    requires Invariant(db) && Acceptable(db, v)
    requires probe.agg == Totals(Rows(db, v, NextId(db.rounds), |v.results|), NextId(db.rounds))
    ensures Summed(Inserted(db.rounds, probe), db.results + Rows(db, v, NextId(db.rounds), |v.results|))
  {
    hide Bounded, Disjoint, Totals, Inserted, MinFinished, LastIndex, Judged, Dated;
    var id := NextId(db.rounds);
    var rows := Rows(db, v, id, |v.results|);
    NextIdIsFresh(db.rounds);
    forall r | r in db.results ensures r.round != id {
      assert HasRound(db.rounds, r.round, r.server);
    }
    forall q | q in Inserted(db.rounds, probe) ensures q.agg == Totals(db.results + rows, q.id) {
      InsertedRows(db.rounds, probe, q);
      TotalsOfAppended(db.results, rows, q.id);
      if q.id != id {
        var p := LastIndex(db.rounds, probe.server, probe.finished);
        if p != -1 { assert db.rounds[p] in db.rounds; }
      }
    }
  }

  // ----- Manual verdicts -----

  /** UPDATE results SET effective_pollution=CASE ... WHERE server_id=server AND domain/type=subject */
  function Rejudged(rs: seq<Result>, server: nat, subject: Subject, verdict: Option<Verdict>): (out: seq<Result>)
    ensures |out| == |rs|
    ensures forall i :: 0 <= i < |rs| ==> out[i] == RejudgedRow(rs[i], server, subject, verdict)
  {
    seq(|rs|, i requires 0 <= i < |rs| => RejudgedRow(rs[i], server, subject, verdict))
  }

  function RejudgedRow(r: Result, server: nat, subject: Subject, verdict: Option<Verdict>): Result {
    if r.server == server && r.subject == subject
    then r.(effective := EffectiveCode(r.detected, r.policy, verdict))
    else r
  }

  predicate Affected(rs: seq<Result>, server: nat, subject: Subject, round: nat) {
    exists r :: r in rs && r.server == server && r.subject == subject && r.round == round
  }

  /** UPDATE rounds SET pollution=COALESCE(MAX(effective_pollution),0) WHERE id IN (affected rounds) */
  function Repolluted(rounds: seq<Round>, results: seq<Result>, server: nat, subject: Subject): (out: seq<Round>)
    ensures |out| == |rounds|
    ensures forall i :: 0 <= i < |rounds| ==> out[i] == RepollutedRow(rounds[i], results, server, subject)
  {
    seq(|rounds|, i requires 0 <= i < |rounds| => RepollutedRow(rounds[i], results, server, subject))
  }

  function RepollutedRow(q: Round, results: seq<Result>, server: nat, subject: Subject): Round {
    if Affected(results, server, subject, q.id)
    then q.(agg := q.agg.(pollution := MaxEffective(results, q.id)))
    else q
  }

  predicate OverrideAllowed(db: Db, server: nat, subject: Subject, verdict: Option<Verdict>) {
    && subject.domain != "" && subject.recordType != ""
    && server in db.servers
    && (verdict == Some(PollutedVerdict) ==> !db.servers[server])
  }

  /** SaveOverride; no verdict stands for the automatic one. */
  function Overridden(db: Db, server: nat, subject: Subject, verdict: Option<Verdict>): Db {
    var key := OverrideKey(server, subject);
    var overrides := if verdict.Some? then db.overrides[key := verdict.value] else db.overrides - {key};
    var results := Rejudged(db.results, server, subject, verdict);
    db.(overrides := overrides, results := results, rounds := Repolluted(db.rounds, results, server, subject))
  }

  /** Rewriting sums leaves ids, servers and coverage alone. */
  ghost predicate SameTimeline(rs: seq<Round>, ts: seq<Round>) {
    |rs| == |ts| && forall i :: 0 <= i < |rs| ==> ts[i] == rs[i].(agg := ts[i].agg)
  }

  lemma SameTimelineKeepsConsistent(rs: seq<Round>, ts: seq<Round>)
    requires Consistent(rs) && SameTimeline(rs, ts)
    ensures Consistent(ts)
  {
    forall a, b | a in ts && b in ts && SameLane(a, b) && Before(a, b) ensures a.coveredUntil <= b.finished {
      var i :| 0 <= i < |ts| && ts[i] == a;
      var j :| 0 <= j < |ts| && ts[j] == b;
      assert rs[i] in rs && rs[j] in rs;
      assert SameLane(rs[i], rs[j]) && Before(rs[i], rs[j]);
    }
  }

  lemma SameTimelineKeepsRounds(rs: seq<Round>, ts: seq<Round>, id: nat, server: nat)
    requires SameTimeline(rs, ts) && HasRound(rs, id, server)
    ensures HasRound(ts, id, server)
  {
    var q :| q in rs && q.id == id && q.server == server;
    var i :| 0 <= i < |rs| && rs[i] == q;
    assert ts[i] in ts;
  }

  /** A manual verdict, or its withdrawal, keeps every materialised column right. */
  lemma OverridingKeepsInvariant(db: Db, server: nat, subject: Subject, verdict: Option<Verdict>)
    requires Invariant(db) && OverrideAllowed(db, server, subject, verdict)
    ensures Invariant(Overridden(db, server, subject, verdict))
  {
    hide Consistent, Linked, Summed, Judged, Dated;
    SameTimelineKeepsConsistent(db.rounds, Overridden(db, server, subject, verdict).rounds);
    OverridingKeepsLinked(db, server, subject, verdict);
    OverridingKeepsJudged(db, server, subject, verdict);
    OverridingKeepsSummed(db, server, subject, verdict);
  }

  lemma OverridingKeepsJudged(db: Db, server: nat, subject: Subject, verdict: Option<Verdict>)
    requires Judged(db.results, db.overrides) && Dated(db.results)
    ensures var out := Overridden(db, server, subject, verdict);
            Judged(out.results, out.overrides) && Dated(out.results)
  {
    hide OldestReference, EffectiveCode, Repolluted;
    var out := Overridden(db, server, subject, verdict);
    forall r | r in out.results
      ensures r.oldestReference == OldestReference(r.references)
      ensures r.effective == EffectiveCode(r.detected, r.policy, OverrideFor(out.overrides, r.server, r.subject))
    {
      var i :| 0 <= i < |out.results| && out.results[i] == r;
      assert db.results[i] in db.results;
    }
  }

  lemma OverridingKeepsLinked(db: Db, server: nat, subject: Subject, verdict: Option<Verdict>)
    requires Linked(db) && server in db.servers
    ensures Linked(Overridden(db, server, subject, verdict))
  {
    hide EffectiveCode, MaxEffective, HasRound, Affected;
    var out := Overridden(db, server, subject, verdict);
    forall r | r in out.results ensures HasRound(out.rounds, r.round, r.server) && r.id <= out.lastResult {
      var i :| 0 <= i < |out.results| && out.results[i] == r;
      assert db.results[i] in db.results;
      SameTimelineKeepsRounds(db.rounds, out.rounds, r.round, r.server);
    }
    forall q | q in out.rounds ensures q.server in out.servers {
      var i :| 0 <= i < |out.rounds| && out.rounds[i] == q;
      assert db.rounds[i] in db.rounds;
    }
  }

  lemma OverridingKeepsSummed(db: Db, server: nat, subject: Subject, verdict: Option<Verdict>)
    requires Invariant(db)
    ensures var out := Overridden(db, server, subject, verdict); Summed(out.rounds, out.results)
  {
    hide Consistent, OldestReference, EffectiveCode, Totals, MaxEffective, Linked, Judged, Dated;
    var out := Overridden(db, server, subject, verdict);
    forall q | q in out.rounds ensures q.agg == Totals(out.results, q.id) {
      var i :| 0 <= i < |out.rounds| && out.rounds[i] == q;
      assert db.rounds[i] in db.rounds;
      if Affected(out.results, server, subject, q.id) {
        TotalsAfterReverdict(db.results, out.results, q.id);
      } else {
        UnaffectedTotals(db.results, server, subject, verdict, q.id);
      }
    }
  }

  lemma UnaffectedTotals(rs: seq<Result>, server: nat, subject: Subject, verdict: Option<Verdict>, round: nat)
    requires !Affected(Rejudged(rs, server, subject, verdict), server, subject, round)
    ensures Totals(Rejudged(rs, server, subject, verdict), round) == Totals(rs, round)
  {
    hide EffectiveCode, Totals;
    var out := Rejudged(rs, server, subject, verdict);
    forall k | 0 <= k < |rs| && rs[k].round == round ensures rs[k].effective == out[k].effective {
      assert out[k] in out;
    }
    TotalsDependOn(rs, out, round);
  }

  /** Only the last manual verdict on a subject matters. */
  lemma LastVerdictWins(db: Db, server: nat, subject: Subject, first: Option<Verdict>, last: Option<Verdict>)
    requires Invariant(db)
    ensures Overridden(Overridden(db, server, subject, first), server, subject, last)
            == Overridden(db, server, subject, last)
  {
    hide Consistent, OldestReference, EffectiveCode, Totals, MaxEffective, Linked, Judged, Dated, Summed;
    var once := Overridden(db, server, subject, last);
    var mid := Overridden(db, server, subject, first);
    var twice := Overridden(mid, server, subject, last);
    assert twice.results == once.results;
    assert twice.overrides == once.overrides;
    forall i | 0 <= i < |db.rounds| ensures twice.rounds[i] == once.rounds[i] {
      SameAffected(mid.results, once.results, server, subject, db.rounds[i].id);
    }
    assert twice.rounds == once.rounds;
  }

  lemma SameAffected(rs: seq<Result>, ts: seq<Result>, server: nat, subject: Subject, round: nat)
    requires |rs| == |ts|
    requires forall i :: 0 <= i < |rs| ==> rs[i].server == ts[i].server && rs[i].subject == ts[i].subject && rs[i].round == ts[i].round
    ensures Affected(rs, server, subject, round) <==> Affected(ts, server, subject, round)
  {
    if Affected(rs, server, subject, round) {
      var r :| r in rs && r.server == server && r.subject == subject && r.round == round;
      var i :| 0 <= i < |rs| && rs[i] == r;
      assert ts[i] in ts;
    }
    if Affected(ts, server, subject, round) {
      var r :| r in ts && r.server == server && r.subject == subject && r.round == round;
      var i :| 0 <= i < |ts| && ts[i] == r;
      assert rs[i] in rs;
    }
  }

  /** Re-applying the verdict in force changes nothing. */
  lemma CurrentVerdictIsStable(db: Db, server: nat, subject: Subject)
    requires Invariant(db)
    ensures Overridden(db, server, subject, OverrideFor(db.overrides, server, subject)) == db
  {
    hide Consistent, OldestReference, EffectiveCode, Totals, MaxEffective, Linked, Dated;
    var verdict := OverrideFor(db.overrides, server, subject);
    var out := Overridden(db, server, subject, verdict);
    assert out.overrides == db.overrides;
    forall i | 0 <= i < |db.results| ensures out.results[i] == db.results[i] {
      assert db.results[i] in db.results;
    }
    assert out.results == db.results;
    forall i | 0 <= i < |db.rounds| ensures out.rounds[i] == db.rounds[i] {
      assert db.rounds[i] in db.rounds;
      TotalsAfterReverdict(db.results, db.results, db.rounds[i].id);
    }
    assert out.rounds == db.rounds;
  }

  /** A manual verdict followed by "auto" restores exactly what no verdict would have given. */
  lemma OverrideThenAutoRestores(db: Db, server: nat, subject: Subject, verdict: Verdict)
    requires Invariant(db)
    ensures var restored := Overridden(Overridden(db, server, subject, Some(verdict)), server, subject, None);
            restored == Overridden(db, server, subject, None)
            && (OverrideKey(server, subject) !in db.overrides ==> restored == db)
  {
    LastVerdictWins(db, server, subject, Some(verdict), None);
    if OverrideKey(server, subject) !in db.overrides {
      CurrentVerdictIsStable(db, server, subject);
    }
  }

  // ----- Deletion -----

  /** Deleting rounds cascades to their results. */
  function RoundsDropped(db: Db, ids: set<nat>): Db {
    db.(rounds := Without(db.rounds, ids), results := Keep(db.results, (r: Result) => r.round !in ids))
  }

  lemma DroppingKeepsInvariant(db: Db, ids: set<nat>)
    requires Invariant(db)
    ensures Invariant(RoundsDropped(db, ids))
  {
    hide Bounded, Disjoint, OldestReference, EffectiveCode, Totals, Without, Keep;
    var keep := (r: Result) => r.round !in ids;
    var out := RoundsDropped(db, ids);
    DeletionKeepsConsistent(db.rounds, ids);
    KeepIsOrdered(db.results, keep);
    assert out.results == Keep(db.results, keep);
    forall r | r in out.results ensures HasRound(out.rounds, r.round, r.server) {
      assert HasRound(db.rounds, r.round, r.server);
    }
    forall q | q in out.rounds ensures q.agg == Totals(out.results, q.id) {
      TotalsOfKept(db.results, keep, q.id);
    }
  }

  /** Deleting a server cascades to its rounds, their results, and its overrides. */
  function ServerDeleted(db: Db, server: nat): Db {
    db.(servers := db.servers - {server},
        rounds := Without(db.rounds, RoundIdsOf(db.rounds, server)),
        results := Keep(db.results, (r: Result) => r.server != server),
        overrides := map k | k in db.overrides && k.server != server :: db.overrides[k])
  }

  function RoundIdsOf(rounds: seq<Round>, server: nat): set<nat> {
    set q | q in rounds && q.server == server :: q.id
  }

  lemma DeletingServerKeepsInvariant(db: Db, server: nat)
    requires Invariant(db)
    ensures Invariant(ServerDeleted(db, server))
  {
    hide Bounded, Disjoint, OldestReference, EffectiveCode, Totals, Without, Keep;
    var keep := (r: Result) => r.server != server;
    var ids := RoundIdsOf(db.rounds, server);
    var out := ServerDeleted(db, server);
    DeletionKeepsConsistent(db.rounds, ids);
    KeepIsOrdered(db.results, keep);
    assert out.results == Keep(db.results, keep);
    forall r | r in out.results ensures HasRound(out.rounds, r.round, r.server) {
      assert HasRound(db.rounds, r.round, r.server);
      var q :| q in db.rounds && q.id == r.round && q.server == r.server;
      assert q.id !in ids by {
        forall q' | q' in db.rounds && q'.id == q.id ensures q' == q { IdsAreUnique(db.rounds, q, q'); }
      }
    }
    forall q | q in out.rounds ensures q.agg == Totals(out.results, q.id) && q.server in out.servers {
      assert q.id !in ids;
      forall r | r in db.results && r.round == q.id ensures keep(r) {
        assert HasRound(db.rounds, r.round, r.server);
        var q' :| q' in db.rounds && q'.id == r.round && q'.server == r.server;
        IdsAreUnique(db.rounds, q, q');
      }
      TotalsOfKept(db.results, keep, q.id);
    }
  }

  // ----- Retention -----

  /** A row with reference evidence older than the cutoff loses that evidence. */
  predicate HasStaleReference(r: Result, before: int) {
    0 < r.oldestReference < before
  }

  function PrunedRow(r: Result, before: int): Result {
    if HasStaleReference(r, before)
    then
      var kept := KeptReferences(r.references, before);
      r.(references := kept, oldestReference := OldestReference(kept))
    else r
  }

  function ReferencesPruned(rs: seq<Result>, ids: set<nat>, before: int): (out: seq<Result>)
    ensures |out| == |rs|
    ensures forall i :: 0 <= i < |rs| ==> out[i] == if rs[i].id in ids then PrunedRow(rs[i], before) else rs[i]
  {
    seq(|rs|, i requires 0 <= i < |rs| => if rs[i].id in ids then PrunedRow(rs[i], before) else rs[i])
  }

  lemma PruningKeepsInvariant(db: Db, ids: set<nat>, before: int)
    requires Invariant(db)
    ensures Invariant(db.(results := ReferencesPruned(db.results, ids, before)))
  {
    hide Consistent, OldestReference, EffectiveCode, Totals, KeptReferences, HasRound, ReferencesPruned;
    var out := ReferencesPruned(db.results, ids, before);
    forall r | r in out
      ensures HasRound(db.rounds, r.round, r.server) && r.id <= db.lastResult
      ensures r.oldestReference == OldestReference(r.references)
      ensures r.effective == EffectiveCode(r.detected, r.policy, OverrideFor(db.overrides, r.server, r.subject))
    {
      var i :| 0 <= i < |out| && out[i] == r;
      assert db.results[i] in db.results;
    }
    forall q | q in db.rounds ensures q.agg == Totals(out, q.id) {
      TotalsDependOn(db.results, out, q.id);
    }
  }

  predicate Expired(r: Result, round: nat, before: int) {
    r.round == round && r.timestamp < before
  }

  function Resummed(rounds: seq<Round>, results: seq<Result>, id: nat): (out: seq<Round>)
    ensures SameTimeline(rounds, out)
    ensures forall i :: 0 <= i < |rounds| ==>
      out[i] == if rounds[i].id == id then rounds[i].(agg := Totals(results, id)) else rounds[i]
  {
    seq(|rounds|, i requires 0 <= i < |rounds| =>
      if rounds[i].id == id then rounds[i].(agg := Totals(results, id)) else rounds[i])
  }

  function RoundTrimmed(db: Db, id: nat, before: int): Db {
    var results := Keep(db.results, (r: Result) => !Expired(r, id, before));
    var rounds := if Totals(results, id).samples == 0 then Without(db.rounds, {id}) else Resummed(db.rounds, results, id);
    db.(results := results, rounds := rounds)
  }

  /** Rebuilding a partly expired round recomputes its sums; an emptied round goes away. */
  lemma TrimmingKeepsInvariant(db: Db, id: nat, before: int)
    requires Invariant(db)
    ensures Invariant(RoundTrimmed(db, id, before))
  {
    hide Consistent, OldestReference, EffectiveCode, Totals, Without, Keep, Resummed, HasRound;
    var keep := (r: Result) => !Expired(r, id, before);
    var out := RoundTrimmed(db, id, before);
    assert out.results == Keep(db.results, keep);
    assert OrderedIds(db.rounds) by { ConsistentIsOrdered(db.rounds); }
    KeepIsOrdered(db.results, keep);
    NoResultsNoTotals(out.results, id);
    forall q | q in db.rounds && q.id != id ensures q.agg == Totals(out.results, q.id) {
      TotalsOfKept(db.results, keep, q.id);
    }
    if Totals(out.results, id).samples == 0 {
      DeletionKeepsConsistent(db.rounds, {id});
      forall r | r in out.results ensures HasRound(out.rounds, r.round, r.server) {
        RoundSurvivesDrop(db.rounds, {id}, r.round, r.server);
      }
    } else {
      RebuildingKeepsRounds(db, out, id);
    }
  }

  /** A partly expired round that keeps a result is rebuilt in place. */
  lemma RebuildingKeepsRounds(db: Db, out: Db, id: nat)
    requires Consistent(db.rounds) && Linked(db)
    requires out.rounds == Resummed(db.rounds, out.results, id) && SameTimeline(db.rounds, out.rounds)
    requires forall r :: r in out.results ==> r in db.results
    requires forall q :: q in db.rounds && q.id != id ==> q.agg == Totals(out.results, q.id)
    ensures Consistent(out.rounds)
    ensures forall r :: r in out.results ==> HasRound(out.rounds, r.round, r.server)
    ensures forall q :: q in out.rounds ==> q.agg == Totals(out.results, q.id) && q.server in db.servers
  {
    hide Consistent, Totals, HasRound;
    SameTimelineKeepsConsistent(db.rounds, out.rounds);
    forall r | r in out.results ensures HasRound(out.rounds, r.round, r.server) {
      SameTimelineKeepsRounds(db.rounds, out.rounds, r.round, r.server);
    }
    forall q | q in out.rounds ensures q.agg == Totals(out.results, q.id) && q.server in db.servers {
      var i :| 0 <= i < |out.rounds| && out.rounds[i] == q;
      assert db.rounds[i] in db.rounds;
    }
  }

  lemma ConsistentIsOrdered(rs: seq<Round>)
    requires Consistent(rs)
    ensures OrderedIds(rs)
  {
  }

  lemma RoundSurvivesDrop(rs: seq<Round>, ids: set<nat>, id: nat, server: nat)
    requires HasRound(rs, id, server) && id !in ids
    ensures HasRound(Without(rs, ids), id, server)
  {
    hide Without;
    var q :| q in rs && q.id == id && q.server == server;
    assert q in Without(rs, ids);
  }

  // ----- A whole retention run -----

  /** The results whose reference evidence a cutoff still has to prune. */
  function StaleIds(rs: seq<Result>, before: int): set<nat> {
    set r | r in rs && HasStaleReference(r, before) :: r.id
  }

  function ExpiredRoundIds(rounds: seq<Round>, before: int): set<nat> {
    set q | q in rounds && q.finished < before :: q.id
  }

  /** SELECT DISTINCT round_id FROM results WHERE timestamp<before */
  function PartlyExpired(rs: seq<Result>, before: int): set<nat> {
    set r | r in rs && r.timestamp < before :: r.round
  }

  ghost predicate Emptied(rs: seq<Result>, round: nat, before: int) {
    && (exists r :: r in rs && r.round == round)
    && (forall r :: r in rs && r.round == round ==> r.timestamp < before)
  }

  ghost function GoneRounds(db: Db, before: int): set<nat> {
    set q | q in db.rounds && (q.finished < before || Emptied(db.results, q.id, before)) :: q.id
  }

  ghost predicate AllPruned(was: seq<Result>, now: seq<Result>, before: int) {
    |was| == |now| && forall i :: 0 <= i < |was| ==> now[i] == PrunedRow(was[i], before)
  }

  /** What a completed Cleanup leaves: rounds that finished in time and still have a result (or never
      had one), the results inside the retention window, and their evidence inside it. */
  ghost predicate CleanedUp(was: Db, now: Db, before: int) {
    && now.servers == was.servers && now.lastServer == was.lastServer
    && now.lastResult == was.lastResult && now.overrides == was.overrides
    && SameTimeline(Without(was.rounds, GoneRounds(was, before)), now.rounds)
    && exists pruned :: AllPruned(was.results, pruned, before)
         && now.results == Keep(pruned, (r: Result) => r.round !in ExpiredRoundIds(was.rounds, before) && before <= r.timestamp)
  }

  /** Nothing older than the cutoff is left. */
  lemma CleanedUpIsFresh(was: Db, now: Db, before: int)
    requires Invariant(was) && Invariant(now) && CleanedUp(was, now, before)
    ensures forall q :: q in now.rounds ==> before <= q.finished
    ensures forall r :: r in now.results ==> before <= r.timestamp && NoneOlder(r.references, before)
    ensures forall q :: q in now.rounds ==> q.agg == Totals(now.results, q.id)
  {
    hide Consistent, Totals, Keep, Without, OldestReference, KeptReferences, Emptied, Judged, Linked, NoneOlder;
    forall r | r in now.results ensures before <= r.timestamp && NoneOlder(r.references, before) {
      var pruned :| AllPruned(was.results, pruned, before)
        && now.results == Keep(pruned, (r: Result) => r.round !in ExpiredRoundIds(was.rounds, before) && before <= r.timestamp);
      var i :| 0 <= i < |pruned| && pruned[i] == r;
      PrunedIsFresh(was.results[i].references, before);
      SkippedIsFresh(r.references, before);
    }
    forall q | q in now.rounds ensures before <= q.finished {
      var kept := Without(was.rounds, GoneRounds(was, before));
      var i :| 0 <= i < |kept| && now.rounds[i] == q;
      assert kept[i] in kept;
      assert kept[i].id !in GoneRounds(was, before);
    }
  }

  lemma {:induction false} SameTimelineWithout(rs: seq<Round>, ts: seq<Round>, ids: set<nat>)
    requires SameTimeline(rs, ts)
    ensures SameTimeline(Without(rs, ids), Without(ts, ids))
  {
    if |rs| > 0 {
      var n := |rs| - 1;
      SameTimelineWithout(rs[..n], ts[..n], ids);
      var a, b := Without(rs[..n], ids), Without(ts[..n], ids);
      assert ts[n] == rs[n].(agg := ts[n].agg);
      assert Without(rs, ids) == if rs[n].id in ids then a else a + [rs[n]];
      assert Without(ts, ids) == if rs[n].id in ids then b else b + [ts[n]];
      hide Without;
    }
  }

  // ----- Migration from the first schema -----

  /** Old codes: unknown 0, clean 1, polluted 2. */
  function ModernCode(code: nat): nat {
    match code
    case 1 => CLEAN
    case 2 => POLLUTED
    case _ => UNKNOWN
  }

  function MigratedRow(r: Result, overrides: map<OverrideKey, Verdict>): Result {
    var detected := ModernCode(r.detected);
    var effective := match OverrideFor(overrides, r.server, r.subject)
      case Some(PollutedVerdict) => POLLUTED
      case Some(CleanVerdict) => CLEAN
      case None => if detected == POLLUTED then UNKNOWN else detected;
    r.(detected := detected, effective := effective, policy := 0)
  }

  function MigratedResults(db: Db): (out: seq<Result>)
    ensures |out| == |db.results|
    ensures forall i :: 0 <= i < |out| ==> out[i] == MigratedRow(db.results[i], db.overrides)
  {
    seq(|db.results|, i requires 0 <= i < |db.results| => MigratedRow(db.results[i], db.overrides))
  }

  function MigratedRounds(rounds: seq<Round>, results: seq<Result>): (out: seq<Round>)
    ensures |out| == |rounds|
    ensures forall i :: 0 <= i < |out| ==>
      out[i] == rounds[i].(agg := rounds[i].agg.(pollution := MaxEffective(results, rounds[i].id)))
  {
    seq(|rounds|, i requires 0 <= i < |rounds| =>
      rounds[i].(agg := rounds[i].agg.(pollution := MaxEffective(results, rounds[i].id))))
  }

  function Migrated(db: Db): Db {
    db.(results := MigratedResults(db), rounds := MigratedRounds(db.rounds, MigratedResults(db)))
  }

  /** The first schema kept the same sums, apart from verdicts in their old coding. */
  ghost predicate LegacyInvariant(db: Db) {
    && Consistent(db.rounds) && Linked(db) && Dated(db.results)
    && forall q :: q in db.rounds ==> q.agg == Totals(db.results, q.id).(pollution := q.agg.pollution)
  }

  lemma MigratedIsJudged(db: Db)
    requires Dated(db.results)
    ensures var out := Migrated(db); Judged(out.results, out.overrides) && Dated(out.results)
  {
    hide OldestReference;
    var out := Migrated(db);
    forall r | r in out.results
      ensures r.oldestReference == OldestReference(r.references)
      ensures r.effective == EffectiveCode(r.detected, r.policy, OverrideFor(out.overrides, r.server, r.subject))
    {
      var i :| 0 <= i < |out.results| && out.results[i] == r;
      assert db.results[i] in db.results;
    }
  }

  lemma MigratedIsLinked(db: Db)
    requires Linked(db)
    ensures Linked(Migrated(db))
  {
    hide EffectiveCode, MaxEffective, HasRound, ModernCode, OverrideFor;
    var out := Migrated(db);
    forall r | r in out.results ensures HasRound(out.rounds, r.round, r.server) && r.id <= out.lastResult {
      var i :| 0 <= i < |out.results| && out.results[i] == r;
      assert db.results[i] in db.results;
      SameTimelineKeepsRounds(db.rounds, out.rounds, r.round, r.server);
    }
    forall q | q in out.rounds ensures q.server in out.servers {
      var i :| 0 <= i < |out.rounds| && out.rounds[i] == q;
      assert db.rounds[i] in db.rounds;
    }
  }

  lemma MigratedIsSummed(db: Db)
    requires LegacyInvariant(db)
    ensures var out := Migrated(db); Summed(out.rounds, out.results)
  {
    hide Consistent, Linked, Dated, Totals, MaxEffective, ModernCode, OverrideFor;
    var out := Migrated(db);
    forall q | q in out.rounds ensures q.agg == Totals(out.results, q.id) {
      var i :| 0 <= i < |out.rounds| && out.rounds[i] == q;
      assert db.rounds[i] in db.rounds;
      TotalsAfterReverdict(db.results, out.results, q.id);
    }
  }

  /** Whatever verdict codes the old schema held, the migrated columns agree with the new policy. */
  lemma MigrationEstablishesInvariant(db: Db)
    requires LegacyInvariant(db)
    ensures Invariant(Migrated(db))
    ensures forall i :: 0 <= i < |db.results| ==> MigratedRightly(db, i)
  {
    hide Consistent, Linked, Summed, Judged, Dated;
    SameTimelineKeepsConsistent(db.rounds, Migrated(db).rounds);
    MigratedIsJudged(db);
    MigratedIsLinked(db);
    MigratedIsSummed(db);
  }

  /** The evidence is recoded, and without an override nothing stays convicted. */
  predicate MigratedRightly(db: Db, i: nat)
    requires i < |db.results|
  {
    var r := Migrated(db).results[i];
    && r.detected == ModernCode(db.results[i].detected)
    && (OverrideFor(db.overrides, r.server, r.subject) == None ==> r.effective != POLLUTED)
  }

  // ----- Runs -----

  /** One committed transaction. Retention runs as many small ones, over whatever rows a batch picks. */
  datatype Event =
    | AddServer(trusted: bool)
    | EditServer(server: nat, trusted: bool)
    | DeleteServer(server: nat)
    | SaveRound(report: RoundReport)
    | SaveOverride(server: nat, subject: Subject, verdict: Option<Verdict>)
    | PruneReferences(ids: set<nat>, before: int)
    | DropRounds(ids: set<nat>)
    | TrimRound(round: nat, before: int)

  ghost function Apply(db: Db, e: Event): Db
    requires OrderedIds(db.rounds)
  {
    match e
    case AddServer(trusted) => db.(servers := db.servers[db.lastServer + 1 := trusted], lastServer := db.lastServer + 1)
    case EditServer(server, trusted) => if server in db.servers then db.(servers := db.servers[server := trusted]) else db
    case DeleteServer(server) => ServerDeleted(db, server)
    case SaveRound(report) => if Acceptable(db, report) then SavedRound(db, report) else db
    case SaveOverride(server, subject, verdict) =>
      if OverrideAllowed(db, server, subject, verdict) then Overridden(db, server, subject, verdict) else db
    case PruneReferences(ids, before) => db.(results := ReferencesPruned(db.results, ids, before))
    case DropRounds(ids) => RoundsDropped(db, ids)
    case TrimRound(round, before) => RoundTrimmed(db, round, before)
  }

  lemma ApplyKeepsInvariant(db: Db, e: Event)
    requires Invariant(db)
    ensures Invariant(Apply(db, e))
  {
    hide Consistent, Summed, Judged, Dated, SavedRound, Overridden, ReferencesPruned, RoundsDropped, RoundTrimmed,
         ServerDeleted, Acceptable, OverrideAllowed, HasRound;
    assert OrderedIds(db.rounds) by { ConsistentIsOrdered(db.rounds); }
    match e
    case AddServer(_) =>
    case EditServer(_, _) =>
    case DeleteServer(server) => DeletingServerKeepsInvariant(db, server);
    case SaveRound(report) => if Acceptable(db, report) { SavingKeepsInvariant(db, report); }
    case SaveOverride(server, subject, verdict) =>
      if OverrideAllowed(db, server, subject, verdict) { OverridingKeepsInvariant(db, server, subject, verdict); }
    case PruneReferences(ids, before) => PruningKeepsInvariant(db, ids, before);
    case DropRounds(ids) => DroppingKeepsInvariant(db, ids);
    case TrimRound(round, before) => TrimmingKeepsInvariant(db, round, before);
  }

  ghost function RunAll(es: seq<Event>): (db: Db)
    ensures Invariant(db)
  {
    if |es| == 0 then EMPTY
    else
      var db := RunAll(es[..|es| - 1]);
      ApplyKeepsInvariant(db, es[|es| - 1]);
      Apply(db, es[|es| - 1])
  }

  /** What a round displays is what its stored results say under the verdicts in force now. */
  ghost predicate Recomputable(db: Db, q: Round) {
    && q.agg == Totals(db.results, q.id)
    && q.agg.received <= q.agg.samples && q.agg.successes <= q.agg.samples
    && |q.agg.histogram| == q.agg.latencyCount
    && forall r :: r in db.results && r.round == q.id ==>
         r.server == q.server
         && r.effective == EffectiveCode(r.detected, r.policy, OverrideFor(db.overrides, r.server, r.subject))
         && r.effective <= q.agg.pollution
  }

  /** In every reachable database every round is recomputable. */
  lemma EveryRunIsRecomputable(es: seq<Event>)
    ensures forall q :: q in RunAll(es).rounds ==> Recomputable(RunAll(es), q)
  {
    forall q | q in RunAll(es).rounds ensures Recomputable(RunAll(es), q) {
      InvariantMeansRecomputable(RunAll(es), q);
    }
  }

  lemma InvariantMeansRecomputable(db: Db, q: Round)
    requires Invariant(db) && q in db.rounds
    ensures Recomputable(db, q)
  {
    hide Totals, EffectiveCode;
    forall r | r in db.results && r.round == q.id ensures r.server == q.server && r.effective <= q.agg.pollution {
      var q' :| q' in db.rounds && q'.id == r.round && q'.server == r.server;
      IdsAreUnique(db.rounds, q, q');
      WorstVerdict(db.results, q.id, r);
    }
  }

  lemma {:induction false} WorstVerdict(rs: seq<Result>, round: nat, r: Result)
    requires r in rs && r.round == round
    ensures r.effective <= Totals(rs, round).pollution
  {
    var n := |rs| - 1;
    if r in rs[..n] {
      WorstVerdict(rs[..n], round, r);
    } else {
      assert r == rs[n];
    }
  }
}
