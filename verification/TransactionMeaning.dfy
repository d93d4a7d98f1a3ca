/**
 What each committed transaction leaves in the tables, in terms of the columns alone.
 */
module TransactionMeaning {
  import opened Tables
  import opened Timeline
  import opened Evidence
  import opened Database

  // ----- Verdicts -----

  /** Codes: 0 unknown, 1 matched, 2 clean, 3 suspicious, 4 polluted. */
  predicate IsJudged(effective: nat, detected: nat, policy: int, manual: Option<Verdict>) {
    match manual
    case Some(CleanVerdict) => effective == 2
    case Some(PollutedVerdict) => effective == 4
    case None => if detected == 4 && policy < 2 then effective == 0 else effective == detected
  }

  ghost predicate IsWorst(results: seq<Result>, round: nat, worst: nat) {
    && (forall r :: r in results && r.round == round ==> r.effective <= worst)
    && (worst == 0 || exists r :: r in results && r.round == round && r.effective == worst)
  }

  lemma JudgedIs(detected: nat, policy: int, manual: Option<Verdict>)
    ensures IsJudged(EffectiveCode(detected, policy, manual), detected, policy, manual)
  {
  }

  lemma {:induction false} TotalsAreWorst(results: seq<Result>, round: nat)
    ensures IsWorst(results, round, Totals(results, round).pollution)
  {
    if |results| > 0 {
      var n := |results| - 1;
      TotalsAreWorst(results[..n], round);
      TotalsOfLast(results[..n], results[n], round);
      assert results[..n] + [results[n]] == results;
      hide Totals, Bucket;
      assert forall r :: r in results <==> r in results[..n] || r == results[n];
    }
  }

  // ----- Saving a round -----

  /** When a report is saved and when it is refused. */
  lemma AcceptableMeaning(db: Db, v: RoundReport)
    ensures Acceptable(db, v) <==>
      && v.server in db.servers && 0 < v.server
      && 0 < v.started && v.started <= v.finished && v.finished < v.nextDue
      && forall k :: 0 <= k < |v.results| ==> v.results[k].latency.Finite?
  {
  }

  /** What the row of a probe result holds. */
  ghost predicate HoldsResult(r: Result, v: RoundReport, k: nat, overrides: map<OverrideKey, Verdict>)
    requires k < |v.results|
  {
    var p := v.results[k];
    var key := OverrideKey(v.server, p.subject);
    && r.server == v.server && r.subject == p.subject && r.detected == p.detected && r.policy == p.policy
    && r.received == p.received && r.success == p.success && p.latency == Finite(r.latency) && r.references == p.references
    && r.timestamp == (if p.timestamp == 0 then v.finished else p.timestamp)
    && IsJudged(r.effective, p.detected, p.policy, if key in overrides then Some(overrides[key]) else None)
  }

  lemma RowHolds(db: Db, v: RoundReport, round: nat, k: nat)
    requires k < |v.results| && v.results[k].latency.Finite?
    ensures var r := Row(db, v, round, k); r.round == round && HoldsResult(r, v, k, db.overrides)
  {
    var p := v.results[k];
    JudgedIs(p.detected, p.policy, OverrideFor(db.overrides, v.server, p.subject));
    hide EffectiveCode, OldestReference;
  }

  /** What the row of a round holds; its end of coverage is the timeline's. */
  predicate HoldsRound(q: Round, v: RoundReport) {
    && q.server == v.server && q.started == v.started && q.finished == v.finished && q.nextDue == v.nextDue
    && q.auxiliary == v.auxiliary && q.agg.samples == |v.results|
  }

  /** The rows a save adds are those of the report's results, in order. */
  ghost predicate HoldsReport(rows: seq<Result>, v: RoundReport, round: nat, overrides: map<OverrideKey, Verdict>) {
    |rows| == |v.results| && forall k :: 0 <= k < |rows| ==> rows[k].round == round && HoldsResult(rows[k], v, k, overrides)
  }

  /** A committed save adds one row for the round and one for each of its results, in order, and otherwise changes only
      where an earlier round's coverage ends. The round's verdict is the worst of its rows. */
  lemma SavedMeaning(db: Db, v: RoundReport)
    requires Invariant(db) && Acceptable(db, v)
    ensures var out, m, n := SavedRound(db, v), |db.results|, |db.rounds|;
      && out.servers == db.servers && out.overrides == db.overrides
      && |out.rounds| == n + 1 && (forall q :: q in db.rounds ==> q.id < out.rounds[n].id)
      && (forall i :: 0 <= i < n ==> out.rounds[i] == db.rounds[i].(coveredUntil := out.rounds[i].coveredUntil))
      && HoldsRound(out.rounds[n], v)
      && m <= |out.results| && out.results[..m] == db.results
      && HoldsReport(out.results[m..], v, out.rounds[n].id, db.overrides)
      && IsWorst(out.results, out.rounds[n].id, out.rounds[n].agg.pollution)
  {
    var id := NextId(db.rounds);
    var rows := Rows(db, v, id, |v.results|);
    var out := SavedRound(db, v);
    SavedRowsHold(db, v, id);
    SavedTimeline(db, v, Probe(v.server, v.started, v.finished, v.nextDue, v.auxiliary, Totals(rows, id)));
    assert out.results == db.results + rows;
    VerdictIsSaved(db, v);
    TotalsAreWorst(out.results, id);
    hide *;
    assert (db.results + rows)[..|db.results|] == db.results && (db.results + rows)[|db.results|..] == rows;
  }

  lemma SavedRowsHold(db: Db, v: RoundReport, id: nat)
    requires Acceptable(db, v)
    ensures HoldsReport(Rows(db, v, id, |v.results|), v, id, db.overrides)
    ensures Totals(Rows(db, v, id, |v.results|), id).samples == |v.results|
  {
    hide Row, HoldsResult;
    forall k | 0 <= k < |v.results| ensures Row(db, v, id, k).round == id && HoldsResult(Row(db, v, id, k), v, k, db.overrides) {
      assert v.results[k] in v.results;
      RowHolds(db, v, id, k);
    }
    RowsCount(db, v, id, |v.results|);
  }

  lemma SavedTimeline(db: Db, v: RoundReport, probe: Probe)
    requires OrderedIds(db.rounds)
    requires probe == Probe(v.server, v.started, v.finished, v.nextDue, v.auxiliary, probe.agg) && probe.agg.samples == |v.results|
    ensures var rounds, n := Inserted(db.rounds, probe), |db.rounds|;
      && |rounds| == n + 1 && rounds[n].id == NextId(db.rounds) && rounds[n].agg == probe.agg && HoldsRound(rounds[n], v)
      && (forall q :: q in db.rounds ==> q.id < rounds[n].id)
      && (forall i :: 0 <= i < n ==> rounds[i] == db.rounds[i].(coveredUntil := rounds[i].coveredUntil))
  {
    NextIdIsFresh(db.rounds);
    hide LastIndex, MinFinished;
  }

  lemma VerdictIsSaved(db: Db, v: RoundReport)
    requires Invariant(db) && Acceptable(db, v)
    ensures var out, n := SavedRound(db, v), |db.rounds|;
      |out.rounds| == n + 1 && out.rounds[n].agg == Totals(out.results, out.rounds[n].id) && out.rounds[n].id == NextId(db.rounds)
  {
    SavingKeepsInvariant(db, v);
    hide LastIndex, MinFinished, Totals, Rows, Linked, Judged, Dated, Consistent;
    var out := SavedRound(db, v);
    assert out.rounds[|db.rounds|] in out.rounds;
  }

  lemma {:induction false} RowsCount(db: Db, v: RoundReport, id: nat, n: nat)
    requires n <= |v.results|
    ensures Totals(Rows(db, v, id, n), id).samples == n
  {
    hide Totals, Row, Plus;
    if n > 0 {
      RowsCount(db, v, id, n - 1);
      TotalsOfLast(Rows(db, v, id, n - 1), Row(db, v, id, n - 1), id);
      PlusCounts(Totals(Rows(db, v, id, n - 1), id), Row(db, v, id, n - 1));
      RowIsOf(db, v, id, n - 1);
    } else {
      NoResultsNoTotals([], id);
    }
  }

  lemma PlusCounts(a: Aggregate, r: Result)
    ensures Plus(a, r).samples == a.samples + 1
  {
  }

  lemma RowIsOf(db: Db, v: RoundReport, id: nat, k: nat)
    requires k < |v.results|
    ensures Row(db, v, id, k).round == id
  {
  }

  // ----- Manual verdicts -----

  /** Which manual verdicts are accepted: a trusted server cannot be called polluted. */
  lemma OverrideAllowedMeaning(db: Db, server: nat, subject: Subject, verdict: Option<Verdict>)
    ensures OverrideAllowed(db, server, subject, verdict) <==>
      && subject.domain != "" && subject.recordType != "" && server in db.servers
      && (verdict == Some(PollutedVerdict) ==> !db.servers[server])
  {
  }

  /** The same row, judged again if it is about the subject. */
  ghost predicate HoldsVerdict(r: Result, was: Result, server: nat, subject: Subject, verdict: Option<Verdict>) {
    && r == was.(effective := r.effective)
    && if was.server == server && was.subject == subject then IsJudged(r.effective, was.detected, was.policy, verdict)
       else r.effective == was.effective
  }

  /** A manual verdict is remembered or withdrawn, decides every stored result about its subject, and so the verdict of
      their rounds; nothing else changes. */
  lemma OverriddenMeaning(db: Db, server: nat, subject: Subject, verdict: Option<Verdict>)
    requires Invariant(db) && OverrideAllowed(db, server, subject, verdict)
    ensures var out, key := Overridden(db, server, subject, verdict), OverrideKey(server, subject);
      && out.servers == db.servers
      && (forall k :: k != key ==> (k in out.overrides <==> k in db.overrides) && (k in db.overrides ==> out.overrides[k] == db.overrides[k]))
      && (key in out.overrides <==> verdict.Some?) && (verdict.Some? ==> out.overrides[key] == verdict.value)
      && |out.results| == |db.results|
      && (forall i :: 0 <= i < |out.results| ==> HoldsVerdict(out.results[i], db.results[i], server, subject, verdict))
      && |out.rounds| == |db.rounds|
      && (forall i :: 0 <= i < |out.rounds| ==>
            && out.rounds[i] == db.rounds[i].(agg := db.rounds[i].agg.(pollution := out.rounds[i].agg.pollution))
            && IsWorst(out.results, out.rounds[i].id, out.rounds[i].agg.pollution))
  {
    var out := Overridden(db, server, subject, verdict);
    OverridingKeepsInvariant(db, server, subject, verdict);
    hide Totals, MaxEffective, EffectiveCode, Affected, Linked, Judged, Dated, Consistent, IsWorst;
    forall i | 0 <= i < |out.results| ensures HoldsVerdict(out.results[i], db.results[i], server, subject, verdict) {
      JudgedIs(db.results[i].detected, db.results[i].policy, verdict);
    }
    forall i | 0 <= i < |out.rounds| ensures IsWorst(out.results, out.rounds[i].id, out.rounds[i].agg.pollution) {
      TotalsAreWorst(out.results, out.rounds[i].id);
      assert out.rounds[i] in out.rounds;
    }
  }

  // ----- Deleting -----

  /** Dropping rounds takes their results along and nothing else. */
  lemma DroppedMeaning(db: Db, ids: set<nat>)
    ensures var out := RoundsDropped(db, ids);
      && out.servers == db.servers && out.overrides == db.overrides && out.lastResult == db.lastResult
      && (forall q :: q in out.rounds <==> q in db.rounds && q.id !in ids)
      && (forall r :: r in out.results <==> r in db.results && r.round !in ids)
  {
  }

  /** Deleting a server takes along its rounds, results and manual verdicts, and nothing of another server. */
  lemma ServerDeletedMeaning(db: Db, server: nat)
    requires Invariant(db)
    ensures var out := ServerDeleted(db, server);
      && out.servers == db.servers - {server} && out.lastServer == db.lastServer
      && (forall q :: q in out.rounds <==> q in db.rounds && q.server != server)
      && (forall r :: r in out.results <==> r in db.results && r.server != server)
      && (forall k :: k in out.overrides <==> k in db.overrides && k.server != server)
      && (forall k :: k in out.overrides ==> out.overrides[k] == db.overrides[k])
  {
    hide Linked, Judged, Dated, Bounded, Disjoint;
    var out := ServerDeleted(db, server);
    forall q | q in db.rounds && q.server != server ensures q in out.rounds {
      if q.id in RoundIdsOf(db.rounds, server) {
        var x :| x in db.rounds && x.server == server && x.id == q.id;
        IdsAreUnique(db.rounds, q, x);
      }
    }
  }

  /** The round as it was, but for its sums. */
  ghost predicate IsRebuilt(q: Round, rounds: seq<Round>, results: seq<Result>, id: nat) {
    q.id == id && q.agg == Totals(results, id) && exists x :: x in rounds && q == x.(agg := q.agg)
  }

  /** Trimming a round takes away its results older than the cutoff; it goes with the last of them, and otherwise keeps
      everything but its sums, which are those of the results left. */
  lemma TrimmedMeaning(db: Db, id: nat, before: int)
    requires Invariant(db)
    ensures var out := RoundTrimmed(db, id, before);
      && out.servers == db.servers && out.overrides == db.overrides
      && (forall r :: r in out.results <==> r in db.results && !(r.round == id && r.timestamp < before))
      && (forall q :: q in db.rounds && q.id != id ==> q in out.rounds)
      && (forall q :: q in out.rounds ==> q in db.rounds || IsRebuilt(q, db.rounds, out.results, id))
      && ((exists q :: q in out.rounds && q.id == id) ==> exists r :: r in out.results && r.round == id)
      && ((exists q :: q in db.rounds && q.id == id) && (exists r :: r in out.results && r.round == id) ==>
            exists q :: q in out.rounds && q.id == id)
  {
    var out := RoundTrimmed(db, id, before);
    NoResultsNoTotals(out.results, id);
    hide Totals, Invariant;
    if Totals(out.results, id).samples != 0 {
      forall q | q in db.rounds ensures q.(agg := if q.id == id then Totals(out.results, id) else q.agg) in out.rounds {
        var i :| 0 <= i < |db.rounds| && db.rounds[i] == q;
        assert out.rounds[i] in out.rounds;
      }
      forall q | q in out.rounds
        ensures q in db.rounds || IsRebuilt(q, db.rounds, out.results, id)
      {
        var i :| 0 <= i < |out.rounds| && out.rounds[i] == q;
        assert db.rounds[i] in db.rounds;
      }
    }
  }

  // ----- Migrating -----

  /** The same row with modern codes: an old automatic conviction counts as unknown. */
  ghost predicate HoldsModernCodes(r: Result, was: Result, overrides: map<OverrideKey, Verdict>) {
    var key := OverrideKey(was.server, was.subject);
    && r == was.(detected := r.detected, effective := r.effective, policy := 0)
    && r.detected == (if was.detected == 1 then 2 else if was.detected == 2 then 4 else 0)
    && IsJudged(r.effective, r.detected, 0, if key in overrides then Some(overrides[key]) else None)
  }

  /** The first schema had 1 for clean and 2 for polluted. */
  lemma MigratedMeaning(db: Db)
    requires LegacyInvariant(db)
    ensures var out := Migrated(db);
      && out == db.(results := out.results, rounds := out.rounds)
      && |out.results| == |db.results|
      && (forall i :: 0 <= i < |out.results| ==> HoldsModernCodes(out.results[i], db.results[i], db.overrides))
      && |out.rounds| == |db.rounds|
      && (forall i :: 0 <= i < |out.rounds| ==>
            && out.rounds[i] == db.rounds[i].(agg := db.rounds[i].agg.(pollution := out.rounds[i].agg.pollution))
            && IsWorst(out.results, out.rounds[i].id, out.rounds[i].agg.pollution))
  {
    var out := Migrated(db);
    MigrationEstablishesInvariant(db);
    CodesAreModern(db);
    hide Totals, MaxEffective, Linked, Judged, Dated, Consistent, IsWorst, HoldsModernCodes, MigratedRow, LegacyInvariant;
    forall i | 0 <= i < |out.rounds| ensures IsWorst(out.results, out.rounds[i].id, out.rounds[i].agg.pollution) {
      TotalsAreWorst(out.results, out.rounds[i].id);
      assert out.rounds[i] in out.rounds;
    }
  }

  lemma CodesAreModern(db: Db)
    ensures forall i :: 0 <= i < |db.results| ==> HoldsModernCodes(MigratedRow(db.results[i], db.overrides), db.results[i], db.overrides)
  {
  }

  // ----- Retention -----

  /** `kept` holds what `all` holds at these positions, in order. */
  ghost predicate InOrder(positions: seq<nat>, length: nat) {
    && (forall k :: 0 <= k < |positions| ==> positions[k] < length)
    && forall j, k :: 0 <= j < k < |positions| ==> positions[j] < positions[k]
  }

  /** The records observed at or after the cutoff, in order. */
  ghost predicate AreRecordsSince(kept: seq<Record>, all: seq<Record>, before: int, positions: seq<nat>) {
    && InOrder(positions, |all|) && |kept| == |positions|
    && (forall i :: 0 <= i < |all| ==> (i in positions <==> before <= all[i].observedAt))
    && forall k :: 0 <= k < |kept| ==> kept[k] == all[positions[k]]
  }

  /** A reference survives a cutoff if it was collected since and had no records or still has one. */
  ghost predicate Survives(f: Reference, before: int) {
    before <= f.timestamp && (f.records == [] || exists x :: x in f.records && before <= x.observedAt)
  }

  ghost predicate IsReferenceSince(kept: Reference, f: Reference, before: int) {
    kept.timestamp == f.timestamp && exists positions :: AreRecordsSince(kept.records, f.records, before, positions)
  }

  /** The surviving references, in order, each with its timestamp and exactly its surviving records. */
  ghost predicate AreReferencesSince(kept: seq<Reference>, all: seq<Reference>, before: int, positions: seq<nat>) {
    && InOrder(positions, |all|) && |kept| == |positions|
    && (forall i :: 0 <= i < |all| ==> (i in positions <==> Survives(all[i], before)))
    && forall k :: 0 <= k < |kept| ==> IsReferenceSince(kept[k], all[positions[k]], before)
  }

  lemma OneMorePosition(rest: seq<nat>, n: nat)
    requires InOrder(rest, n)
    ensures InOrder(rest, n + 1) && InOrder(rest + [n], n + 1)
    ensures forall i :: i in rest ==> i < n
    ensures forall i :: i in rest + [n] <==> i in rest || i == n
  {
  }

  lemma {:induction false} RecordsSince(all: seq<Record>, before: int) returns (positions: seq<nat>)
    ensures AreRecordsSince(KeptRecords(all, before), all, before, positions)
  {
    positions := [];
    hide AreRecordsSince;
    if |all| > 0 {
      var n := |all| - 1;
      var rest := RecordsSince(all[..n], before);
      positions := if before <= all[n].observedAt then rest + [n] else rest;
      OneMoreRecord(KeptRecords(all[..n], before), all, before, rest);
    } else {
      NoRecords(before);
    }
  }

  lemma NoRecords(before: int)
    ensures AreRecordsSince([], [], before, [])
  {
  }

  lemma OneMoreRecord(kept: seq<Record>, all: seq<Record>, before: int, rest: seq<nat>)
    requires |all| > 0 && AreRecordsSince(kept, all[..|all| - 1], before, rest)
    ensures var last, n := all[|all| - 1], |all| - 1;
      if before <= last.observedAt then AreRecordsSince(kept + [last], all, before, rest + [n])
      else AreRecordsSince(kept, all, before, rest)
  {
    var n := |all| - 1;
    OneMorePosition(rest, n);
    hide InOrder;
    assert forall i :: 0 <= i < n ==> all[..n][i] == all[i];
    assert forall k :: 0 <= k < |rest| ==> rest[k] in rest;
  }

  lemma {:induction false} ReferencesSince(all: seq<Reference>, before: int) returns (positions: seq<nat>)
    ensures AreReferencesSince(KeptReferences(all, before), all, before, positions)
  {
    positions := [];
    hide AreReferencesSince, Survives, KeptRecords;
    if |all| > 0 {
      var n := |all| - 1;
      var rest := ReferencesSince(all[..n], before);
      SurvivesIff(all[n], before);
      positions := if Survives(all[n], before) then rest + [n] else rest;
      OneMoreReference(KeptReferences(all[..n], before), all, before, rest);
    } else {
      NoReferences(before);
    }
  }

  lemma NoReferences(before: int)
    ensures AreReferencesSince([], [], before, [])
  {
  }

  lemma OneMoreReference(kept: seq<Reference>, all: seq<Reference>, before: int, rest: seq<nat>)
    requires |all| > 0 && AreReferencesSince(kept, all[..|all| - 1], before, rest)
    ensures var last, n := all[|all| - 1], |all| - 1;
      if Survives(last, before)
      then AreReferencesSince(kept + [Reference(last.timestamp, KeptRecords(last.records, before))], all, before, rest + [n])
      else AreReferencesSince(kept, all, before, rest)
  {
    var n := |all| - 1;
    LastReferenceSince(all[n], before);
    OneMorePosition(rest, n);
    hide InOrder, Survives, IsReferenceSince, KeptRecords;
    assert forall i :: 0 <= i < n ==> all[..n][i] == all[i];
    assert forall k :: 0 <= k < |rest| ==> rest[k] in rest;
  }

  lemma LastReferenceSince(f: Reference, before: int)
    ensures IsReferenceSince(Reference(f.timestamp, KeptRecords(f.records, before)), f, before)
  {
    var positions := RecordsSince(f.records, before);
    hide AreRecordsSince, KeptRecords;
  }

  lemma SurvivesIff(f: Reference, before: int)
    ensures Survives(f, before) <==> before <= f.timestamp && !(|f.records| > 0 && |KeptRecords(f.records, before)| == 0)
  {
    var kept := KeptRecords(f.records, before);
    if |kept| > 0 { assert kept[0] in f.records; }
    if x :| x in f.records && before <= x.observedAt { assert x in kept; }
  }

  /** What retention does to one row: only a row with a timestamp older than the cutoff is touched, and of its evidence
      exactly what is older than the cutoff goes. */
  ghost predicate HoldsEvidenceSince(r: Result, was: Result, before: int) {
    && r == was.(references := r.references, oldestReference := r.oldestReference)
    && if 0 < was.oldestReference < before
       then exists positions :: AreReferencesSince(r.references, was.references, before, positions)
       else r == was
  }

  lemma PrunedMeaning(r: Result, before: int)
    ensures HoldsEvidenceSince(PrunedRow(r, before), r, before)
  {
    if 0 < r.oldestReference < before {
      var positions := ReferencesSince(r.references, before);
    }
    hide AreReferencesSince, KeptReferences, OldestReference;
  }

  /** A round outlives a cutoff if it finished since, and had no result or still has one. */
  ghost predicate Outlives(q: Round, results: seq<Result>, before: int) {
    && before <= q.finished
    && ((forall r :: r in results ==> r.round != q.id) || exists r :: r in results && r.round == q.id && before <= r.timestamp)
  }

  /** Of a row that outlives it, a cleanup leaves everything but old evidence. */
  ghost predicate LeavesResult(now: seq<Result>, was: Result, before: int) {
    exists r :: r in now && HoldsEvidenceSince(r, was, before)
  }

  /** No row of its round says that it finished before the cutoff. */
  ghost predicate InTime(r: Result, rounds: seq<Round>, before: int) {
    before <= r.timestamp && forall q :: q in rounds && q.id == r.round ==> before <= q.finished
  }

  ghost predicate ComesFrom(r: Result, was: seq<Result>, before: int) {
    exists x :: x in was && HoldsEvidenceSince(r, x, before)
  }

  /** What retention leaves: the rounds that outlive the cutoff, as they were but for their sums; of their results those
      since the cutoff; and of these everything but old evidence. */
  lemma CleanedUpMeaning(was: Db, now: Db, before: int)
    requires Invariant(was) && CleanedUp(was, now, before)
    ensures now.servers == was.servers && now.overrides == was.overrides
    ensures forall q :: q in was.rounds ==>
      (Outlives(q, was.results, before) <==> exists x :: x in now.rounds && x == q.(agg := x.agg))
    ensures forall x :: x in now.rounds ==> exists q :: q in was.rounds && x == q.(agg := x.agg)
    ensures forall r :: r in was.results && InTime(r, was.rounds, before) ==> LeavesResult(now.results, r, before)
    ensures forall r :: r in now.results ==> InTime(r, was.rounds, before) && ComesFrom(r, was.results, before)
  {
    RoundsLeft(was, now, before);
    var pruned :| AllPruned(was.results, pruned, before)
      && now.results == Keep(pruned, (r: Result) => r.round !in ExpiredRoundIds(was.rounds, before) && before <= r.timestamp);
    hide *;
    ResultsLeft(was, now, before, pruned);
  }

  lemma InTimeIff(r: Result, rounds: seq<Round>, before: int)
    ensures InTime(r, rounds, before) <==> r.round !in ExpiredRoundIds(rounds, before) && before <= r.timestamp
  {
  }

  lemma ResultsLeft(was: Db, now: Db, before: int, pruned: seq<Result>)
    requires AllPruned(was.results, pruned, before)
    requires now.results == Keep(pruned, (r: Result) => r.round !in ExpiredRoundIds(was.rounds, before) && before <= r.timestamp)
    ensures forall r :: r in was.results && InTime(r, was.rounds, before) ==> LeavesResult(now.results, r, before)
    ensures forall r :: r in now.results ==> InTime(r, was.rounds, before) && ComesFrom(r, was.results, before)
  {
    hide PrunedRow, HoldsEvidenceSince, InTime, ExpiredRoundIds;
    forall i | 0 <= i < |pruned|
      ensures HoldsEvidenceSince(pruned[i], was.results[i], before)
      ensures InTime(pruned[i], was.rounds, before) <==> InTime(was.results[i], was.rounds, before)
    {
      PrunedMeaning(was.results[i], before);
      KeepsKey(pruned[i], was.results[i], before);
      InTimeIff(pruned[i], was.rounds, before);
      InTimeIff(was.results[i], was.rounds, before);
    }
    forall r | r in pruned ensures r in now.results <==> InTime(r, was.rounds, before) {
      InTimeIff(r, was.rounds, before);
    }
    assert forall r :: r in now.results ==> r in pruned;
    hide Keep;
    forall r | r in was.results && InTime(r, was.rounds, before) ensures LeavesResult(now.results, r, before) {
      var i :| 0 <= i < |was.results| && was.results[i] == r;
      assert pruned[i] in pruned;
    }
    forall r | r in now.results ensures ComesFrom(r, was.results, before) {
      var i :| 0 <= i < |pruned| && pruned[i] == r;
      assert was.results[i] in was.results;
    }
  }

  lemma KeepsKey(r: Result, was: Result, before: int)
    requires HoldsEvidenceSince(r, was, before)
    ensures r.round == was.round && r.timestamp == was.timestamp
  {
    hide AreReferencesSince;
  }

  lemma RoundsLeft(was: Db, now: Db, before: int)
    requires Invariant(was) && CleanedUp(was, now, before)
    ensures forall q :: q in was.rounds ==>
      (Outlives(q, was.results, before) <==> exists x :: x in now.rounds && x == q.(agg := x.agg))
    ensures forall x :: x in now.rounds ==> exists q :: q in was.rounds && x == q.(agg := x.agg)
  {
    var kept := Without(was.rounds, GoneRounds(was, before));
    forall q | q in was.rounds ensures Outlives(q, was.results, before) <==> q in kept {
      OutlivesIff(was, q, before);
    }
    assert SameTimeline(kept, now.rounds) && OrderedIds(was.rounds);
    hide *;
    KeptRounds(was.rounds, kept, now.rounds);
  }

  lemma KeptRounds(rounds: seq<Round>, kept: seq<Round>, now: seq<Round>)
    requires OrderedIds(rounds) && SameTimeline(kept, now) && forall x :: x in kept ==> x in rounds
    ensures forall q :: q in rounds ==> (q in kept <==> exists x :: x in now && x == q.(agg := x.agg))
    ensures forall x :: x in now ==> exists q :: q in rounds && x == q.(agg := x.agg)
  {
    hide OrderedIds;
    forall q | q in rounds ensures q in kept <==> exists x :: x in now && x == q.(agg := x.agg) {
      RoundLeft(rounds, kept, now, q);
    }
    forall x | x in now ensures exists q :: q in rounds && x == q.(agg := x.agg) {
      var i :| 0 <= i < |now| && now[i] == x;
      assert kept[i] in kept;
    }
  }

  lemma RoundLeft(rounds: seq<Round>, kept: seq<Round>, now: seq<Round>, q: Round)
    requires OrderedIds(rounds) && SameTimeline(kept, now) && q in rounds && forall x :: x in kept ==> x in rounds
    ensures q in kept <==> exists x :: x in now && x == q.(agg := x.agg)
  {
    if q in kept {
      var i :| 0 <= i < |kept| && kept[i] == q;
      assert now[i] in now;
    }
    if x :| x in now && x == q.(agg := x.agg) {
      var i :| 0 <= i < |now| && now[i] == x;
      assert kept[i] in kept;
      IdsAreUnique(rounds, q, kept[i]);
    }
  }

  lemma OutlivesIff(was: Db, q: Round, before: int)
    requires Invariant(was) && q in was.rounds
    ensures Outlives(q, was.results, before) <==> q.id !in GoneRounds(was, before)
  {
    hide Linked, Judged, Dated, Bounded, Disjoint;
    if q.id in GoneRounds(was, before) {
      var x :| x in was.rounds && x.id == q.id && (x.finished < before || Emptied(was.results, x.id, before));
      IdsAreUnique(was.rounds, q, x);
    }
  }
}
