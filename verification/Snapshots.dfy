/**
 What an evaluation captured with a round sees. The capture runs inside the transaction that saved the round, at the
 round's own finish time, and depends on nothing that finishes later, whenever that is saved.
 */
module Snapshots {
  import opened Tables
  import opened Timeline
  import opened Evidence
  import opened Database
  import E = Evaluation
  import C = CurrentEvaluation
  import R = Rating

  // ----- Two tables that agree up to a moment -----

  /** The same row, but for what it covers. */
  predicate SameRow(a: Round, b: Round) {
    b == a.(coveredUntil := b.coveredUntil)
  }

  /** `ys` is `xs` with later rounds saved on top: rows that finish after `now` were added, and of the server's rounds
      up to `now` only the latest may cover a different span. */
  ghost predicate ExtendsAfter(xs: seq<Round>, ys: seq<Round>, server: nat, now: int)
    requires OrderedIds(xs)
  {
    && |xs| <= |ys| && OrderedIds(ys)
    && (forall i :: 0 <= i < |xs| ==> SameRow(xs[i], ys[i]))
    && (forall i :: |xs| <= i < |ys| ==> now < ys[i].finished)
    && forall i :: 0 <= i < |xs| && Formal(xs[i], server) && xs[i].finished <= now && i != LastIndex(xs, server, now)
         ==> xs[i] == ys[i]
  }

  lemma LatestIsShared(xs: seq<Round>, ys: seq<Round>, server: nat, now: int)
    requires OrderedIds(xs) && ExtendsAfter(xs, ys, server, now)
    ensures LastIndex(ys, server, now) == LastIndex(xs, server, now)
  {
    hide LastIndex;
    var p := LastIndex(xs, server, now);
    if p == -1 {
      forall r | r in ys && Formal(r, server) ensures now < r.finished {
        var i :| 0 <= i < |ys| && ys[i] == r;
        if i < |xs| { assert xs[i] in xs && SameRow(xs[i], ys[i]); }
      }
      forall q | 0 <= q < |ys| ensures !IsLatest(ys, server, now, q) {
        assert ys[q] in ys;
      }
    } else {
      assert SameRow(xs[p], ys[p]);
      forall r | r in ys && Formal(r, server) && r.finished <= now && r != ys[p] ensures Before(r, ys[p]) {
        var i :| 0 <= i < |ys| && ys[i] == r;
        assert xs[i] in xs && SameRow(xs[i], ys[i]) && xs[i] != xs[p];
      }
      assert IsLatest(ys, server, now, p);
      LatestIsUnique(ys, server, now, p, LastIndex(ys, server, now));
    }
  }

  lemma OneLaterExtends(xs: seq<Round>, ys: seq<Round>, server: nat, now: int, v: Probe)
    requires OrderedIds(xs) && ExtendsAfter(xs, ys, server, now) && now < v.finished
    ensures ExtendsAfter(xs, Inserted(ys, v), server, now)
  {
    hide LastIndex, NewRound;
    LatestIsShared(xs, ys, server, now);
    InsertionKeepsOrder(ys, v);
    var out := Inserted(ys, v);
    var q := LastIndex(ys, v.server, v.finished);
    forall i | 0 <= i < |ys| ensures SameRow(ys[i], out[i]) && (v.auxiliary || i != q ==> out[i] == ys[i]) {
    }
    assert out[|ys|] == NewRound(ys, v) && NewRound(ys, v).finished == v.finished by { NewFinishes(ys, v); }
    forall i | 0 <= i < |xs| && Formal(xs[i], server) && xs[i].finished <= now && i != LastIndex(xs, server, now)
      ensures xs[i] == out[i]
    {
      if !v.auxiliary && i == q {
        LaterPredecessor(ys, server, now, v, i);
      }
    }
  }

  lemma NewFinishes(rs: seq<Round>, v: Probe)
    requires OrderedIds(rs)
    ensures Inserted(rs, v)[|rs|] == NewRound(rs, v) && NewRound(rs, v).finished == v.finished
  {
    hide LastIndex, MinFinished;
  }

  /** The row a later round follows is the latest one up to now, if it is one up to now at all. */
  lemma LaterPredecessor(rs: seq<Round>, server: nat, now: int, v: Probe, i: nat)
    requires OrderedIds(rs) && now < v.finished && i < |rs| && i == LastIndex(rs, v.server, v.finished)
    requires Formal(rs[i], server) && rs[i].finished <= now
    ensures i == LastIndex(rs, server, now)
  {
    hide LastIndex;
    assert IsLatest(rs, server, now, i);
    LatestIsUnique(rs, server, now, i, LastIndex(rs, server, now));
  }

  lemma SameExtends(xs: seq<Round>, server: nat, now: int)
    requires OrderedIds(xs)
    ensures ExtendsAfter(xs, xs, server, now)
  {
    hide LastIndex;
  }

  // ----- They give the same sums -----

  /** Rows that a window ending at `now` cannot tell apart. */
  predicate Alike(a: Round, b: Round, server: nat, since: int, now: int) {
    SameRow(a, b) && (Formal(a, server) && a.finished <= now ==> E.Overlap(a, since, now) == E.Overlap(b, since, now))
  }

  lemma AlikeCountsAlike(t: E.Tally, a: Round, b: Round, server: nat, since: int, now: int)
    requires Alike(a, b, server, since, now) && since < now && Formal(a, server)
    ensures E.PlusRow(t, a, E.Window(since, now)) == E.PlusRow(t, b, E.Window(since, now))
  {
    if a.finished <= now {
      C.SameOverlapSameRow(t, a, b, since, now);
    } else {
      E.UntouchedAddsNothing(t, a, since, now);
      E.UntouchedAddsNothing(t, b, since, now);
    }
  }

  lemma {:induction false} SameSums(xs: seq<Round>, ys: seq<Round>, server: nat, since: int, now: int)
    requires since < now && |xs| <= |ys|
    requires forall i :: 0 <= i < |xs| ==> Alike(xs[i], ys[i], server, since, now)
    requires forall i :: |xs| <= i < |ys| ==> now < ys[i].finished
    ensures E.TallyOf(xs, server, E.Window(since, now)) == E.TallyOf(ys, server, E.Window(since, now))
    ensures E.ReceivedIn(xs, server, E.Window(since, now)) == E.ReceivedIn(ys, server, E.Window(since, now))
    decreases |ys|
  {
    hide E.PlusRow, Alike, E.Window;
    if |ys| > 0 {
      var w := E.Window(since, now);
      var n := |ys| - 1;
      if |xs| == |ys| {
        SameSums(xs[..n], ys[..n], server, since, now);
        assert Alike(xs[n], ys[n], server, since, now);
        AlikeRows(xs[n], ys[n], server, since, now);
        if Formal(xs[n], server) { AlikeCountsAlike(E.TallyOf(xs[..n], server, w), xs[n], ys[n], server, since, now); }
      } else {
        SameSums(xs, ys[..n], server, since, now);
        LaterIsUncounted(ys[n], since, now);
        E.UntouchedAddsNothing(E.TallyOf(ys[..n], server, w), ys[n], since, now);
      }
    }
  }

  lemma AlikeRows(a: Round, b: Round, server: nat, since: int, now: int)
    requires Alike(a, b, server, since, now)
    ensures SameRow(a, b) && Formal(a, server) == Formal(b, server)
    ensures E.Counts(a, E.Window(since, now)) == E.Counts(b, E.Window(since, now))
  {
  }

  lemma LaterIsUncounted(q: Round, since: int, now: int)
    requires since < now < q.finished
    ensures !E.Counts(q, E.Window(since, now)) && !E.TouchesWindow(q, since, now)
  {
  }

  /** A round that finishes right now covers nothing of the window yet. */
  lemma NothingCoveredYet(q: Round, since: int, now: int)
    requires q.finished == now && since < now
    ensures E.Overlap(q, since, now) == 0
  {
  }

  lemma ExtensionIsAlike(xs: seq<Round>, ys: seq<Round>, server: nat, since: int, now: int, i: nat)
    requires OrderedIds(xs) && ExtendsAfter(xs, ys, server, now) && since < now && i < |xs|
    requires var p := LastIndex(xs, server, now); p != -1 ==> xs[p].finished == now
    ensures Alike(xs[i], ys[i], server, since, now)
  {
    hide LastIndex, E.Overlap;
    assert SameRow(xs[i], ys[i]);
    if i == LastIndex(xs, server, now) {
      NothingCoveredYet(xs[i], since, now);
      NothingCoveredYet(ys[i], since, now);
    }
  }

  // ----- They give the same report -----

  ghost predicate LatestEndsNow(rs: seq<Round>, server: nat, now: int)
    requires OrderedIds(rs)
  {
    var p := LastIndex(rs, server, now);
    p != -1 && rs[p].finished == now
  }

  /** Two tables whose latest rounds end now and agree, and whose sums agree, give the same report. */
  lemma EqualParts(a: seq<Round>, b: seq<Round>, ar: seq<Result>, br: seq<Result>, server: nat, trusted: bool, th: C.Thresholds, now: int)
    requires OrderedIds(a) && OrderedIds(b) && C.Valid(th, now) && LatestEndsNow(a, server, now) && LatestEndsNow(b, server, now)
    requires var p, q := a[LastIndex(a, server, now)], b[LastIndex(b, server, now)];
      p.agg == q.agg && C.WorstSeverity(ar, p.id) == C.WorstSeverity(br, q.id)
    requires var w := E.Window(now - C.WindowLength(th), now);
      E.TallyOf(a, server, w) == E.TallyOf(b, server, w) && E.ReceivedIn(a, server, w) == E.ReceivedIn(b, server, w)
    ensures C.CurrentReport(a, ar, server, trusted, th, now) == C.CurrentReport(b, br, server, trusted, th, now)
  {
    hide E.TallyOf, E.ReceivedIn, LastIndex, C.ReportFor, R.P95, C.WorstSeverity;
  }

  lemma ExtensionSums(xs: seq<Round>, ys: seq<Round>, server: nat, since: int, now: int)
    requires OrderedIds(xs) && ExtendsAfter(xs, ys, server, now) && since < now
    requires var p := LastIndex(xs, server, now); p != -1 ==> xs[p].finished == now
    ensures var w := E.Window(since, now);
      E.TallyOf(xs, server, w) == E.TallyOf(ys, server, w) && E.ReceivedIn(xs, server, w) == E.ReceivedIn(ys, server, w)
  {
    hide LastIndex, Alike, SameRow, E.Window, E.TallyOf, E.ReceivedIn;
    forall i | 0 <= i < |xs| ensures Alike(xs[i], ys[i], server, since, now) {
      ExtensionIsAlike(xs, ys, server, since, now, i);
    }
    SameSums(xs, ys, server, since, now);
  }

  lemma ExtensionEndsNow(xs: seq<Round>, ys: seq<Round>, server: nat, now: int)
    requires OrderedIds(xs) && ExtendsAfter(xs, ys, server, now) && LatestEndsNow(xs, server, now)
    ensures OrderedIds(ys) && LatestEndsNow(ys, server, now)
    ensures LastIndex(ys, server, now) == LastIndex(xs, server, now)
    ensures var p := LastIndex(xs, server, now); SameRow(xs[p], ys[p])
  {
    hide LastIndex;
    LatestIsShared(xs, ys, server, now);
    assert SameRow(xs[LastIndex(xs, server, now)], ys[LastIndex(xs, server, now)]);
  }

  lemma SameReport(xs: seq<Round>, ys: seq<Round>, xr: seq<Result>, yr: seq<Result>, server: nat, trusted: bool, th: C.Thresholds, now: int)
    requires OrderedIds(xs) && ExtendsAfter(xs, ys, server, now) && LatestEndsNow(xs, server, now) && C.Valid(th, now)
    requires var id := xs[LastIndex(xs, server, now)].id; C.WorstSeverity(xr, id) == C.WorstSeverity(yr, id)
    ensures OrderedIds(ys)
    ensures C.CurrentReport(xs, xr, server, trusted, th, now) == C.CurrentReport(ys, yr, server, trusted, th, now)
  {
    hide LastIndex, ExtendsAfter, OrderedIds, E.Window, E.TallyOf, E.ReceivedIn, C.CurrentReport, C.WorstSeverity;
    ExtensionEndsNow(xs, ys, server, now);
    ExtensionSums(xs, ys, server, now - C.WindowLength(th), now);
    EqualParts(xs, ys, xr, yr, server, trusted, th, now);
  }

  // ----- Later saves -----

  /** The database after some reports arrived; a report that is refused changes nothing. */
  ghost function SavedAll(db: Db, vs: seq<RoundReport>): (out: Db)
    requires Invariant(db)
    ensures Invariant(out)
  {
    if |vs| == 0 then db
    else
      var d := SavedAll(db, vs[..|vs| - 1]);
      var v := vs[|vs| - 1];
      if Acceptable(d, v) then
        SavingKeepsInvariant(d, v);
        SavedRound(d, v)
      else d
  }

  ghost predicate AllAfter(vs: seq<RoundReport>, now: int) {
    forall v :: v in vs ==> now < v.finished
  }

  /** What a later state keeps: the servers, the overrides, and all results, to which only those of new rounds are added. */
  ghost predicate KeepsResults(was: Db, db: Db) {
    && db.servers == was.servers && db.overrides == was.overrides
    && NextId(was.rounds) <= NextId(db.rounds) && was.results <= db.results
    && forall i :: |was.results| <= i < |db.results| ==> NextId(was.rounds) <= db.results[i].round
  }

  lemma OneSaveKeepsResults(was: Db, db: Db, v: RoundReport)
    requires OrderedIds(db.rounds) && KeepsResults(was, db)
    ensures KeepsResults(was, SavedRound(db, v)) && NextId(SavedRound(db, v).rounds) == NextId(db.rounds) + 1
  {
    var id := NextId(db.rounds);
    var rows := Rows(db, v, id, |v.results|);
    var probe := Probe(v.server, v.started, v.finished, v.nextDue, v.auxiliary, Totals(rows, id));
    NewFinishes(db.rounds, probe);
    assert Inserted(db.rounds, probe)[|db.rounds|].id == id by { hide LastIndex, MinFinished, Totals, Rows; }
    hide Inserted, Totals, Rows, Row;
    RowsBelongTo(db, v, id);
  }

  lemma RowsBelongTo(db: Db, v: RoundReport, id: nat)
    ensures forall i :: 0 <= i < |v.results| ==> Rows(db, v, id, |v.results|)[i].round == id
  {
    hide EffectiveCode, OverrideFor, OldestReference, Rows;
  }

  lemma {:induction false} LaterSavesExtend(db: Db, vs: seq<RoundReport>, server: nat, now: int)
    requires Invariant(db) && AllAfter(vs, now)
    ensures ExtendsAfter(db.rounds, SavedAll(db, vs).rounds, server, now) && KeepsResults(db, SavedAll(db, vs))
  {
    hide Linked, Summed, Judged, Dated, Bounded, Disjoint, SavedRound, ExtendsAfter, KeepsResults;
    if |vs| == 0 {
      SameExtends(db.rounds, server, now);
      KeptByItself(db);
    } else {
      var d, v := SavedAll(db, vs[..|vs| - 1]), vs[|vs| - 1];
      assert v in vs && forall u :: u in vs[..|vs| - 1] ==> u in vs;
      LaterSavesExtend(db, vs[..|vs| - 1], server, now);
      if Acceptable(d, v) {
        SaveInserts(d, v);
        OneLaterExtends(db.rounds, d.rounds, server, now, ProbeOf(d, v));
        OneSaveKeepsResults(db, d, v);
      }
    }
  }

  lemma KeptByItself(db: Db)
    ensures KeepsResults(db, db)
  {
  }

  ghost function ProbeOf(db: Db, v: RoundReport): Probe {
    var id := NextId(db.rounds);
    Probe(v.server, v.started, v.finished, v.nextDue, v.auxiliary, Totals(Rows(db, v, id, |v.results|), id))
  }

  lemma SaveInserts(db: Db, v: RoundReport)
    requires OrderedIds(db.rounds)
    ensures SavedRound(db, v).rounds == Inserted(db.rounds, ProbeOf(db, v))
    ensures SavedRound(db, v).results == db.results + Rows(db, v, NextId(db.rounds), |v.results|)
  {
    hide Inserted, Totals, Rows;
  }

  lemma {:induction false} WorstOfExtended(rs: seq<Result>, ts: seq<Result>, round: nat)
    requires rs <= ts && forall i :: |rs| <= i < |ts| ==> ts[i].round != round
    ensures C.WorstSeverity(ts, round) == C.WorstSeverity(rs, round)
    decreases |ts|
  {
    if |ts| > |rs| {
      WorstOfExtended(rs, ts[..|ts| - 1], round);
    } else {
      assert rs == ts;
    }
  }

  lemma NewIsLatest(rs: seq<Round>, v: Probe)
    requires OrderedIds(rs) && !v.auxiliary
    ensures OrderedIds(Inserted(rs, v)) && |Inserted(rs, v)| == |rs| + 1
    ensures LastIndex(Inserted(rs, v), v.server, v.finished) == |rs|
    ensures Inserted(rs, v)[|rs|] == NewRound(rs, v) && NewRound(rs, v).finished == v.finished
  {
    InsertionKeepsOrder(rs, v);
    NewFinishes(rs, v);
    hide LastIndex, Inserted, MinFinished;
    var out := Inserted(rs, v);
    forall r | r in out && Formal(r, v.server) && r.finished <= v.finished && r != out[|rs|] ensures Before(r, out[|rs|]) {
      var i :| 0 <= i < |out| && out[i] == r;
    }
    assert IsLatest(out, v.server, v.finished, |rs|);
    LatestIsUnique(out, v.server, v.finished, |rs|, LastIndex(out, v.server, v.finished));
  }

  /** A snapshot is final: whatever rounds that finish later are saved afterwards, the same evaluation at the same moment
      would still give what was captured. */
  lemma SnapshotIsFinal(db: Db, v: RoundReport, later: seq<RoundReport>, trusted: bool, th: C.Thresholds)
    requires Invariant(db) && Acceptable(db, v) && !v.auxiliary && AllAfter(later, v.finished) && C.Valid(th, v.finished)
    ensures Invariant(SavedRound(db, v))
    ensures var first, last := SavedRound(db, v), SavedAll(SavedRound(db, v), later);
      C.CurrentReport(first.rounds, first.results, v.server, trusted, th, v.finished)
      == C.CurrentReport(last.rounds, last.results, v.server, trusted, th, v.finished)
  {
    SavingKeepsInvariant(db, v);
    SaveInserts(db, v);
    NewIsLatest(db.rounds, ProbeOf(db, v));
    var first := SavedRound(db, v);
    var last := SavedAll(first, later);
    hide SavedRound, Inserted, LastIndex, Linked, Summed, Judged, Dated, Bounded, Disjoint, C.CurrentReport, C.WorstSeverity;
    LaterSavesExtend(first, later, v.server, v.finished);
    var p := LastIndex(first.rounds, v.server, v.finished);
    NextIdIsFresh(first.rounds);
    assert first.rounds[p] in first.rounds;
    WorstOfExtended(first.results, last.results, first.rounds[p].id);
    assert LatestEndsNow(first.rounds, v.server, v.finished);
    SameReport(first.rounds, last.rounds, first.results, last.results, v.server, trusted, th, v.finished);
  }

  // ----- A late save -----

  lemma {:induction false} RowsTotals(a: Db, b: Db, v: RoundReport, ia: nat, ib: nat, n: nat)
    requires a.overrides == b.overrides && n <= |v.results|
    ensures Totals(Rows(a, v, ia, n), ia) == Totals(Rows(b, v, ib, n), ib)
    ensures C.WorstSeverity(Rows(a, v, ia, n), ia) == C.WorstSeverity(Rows(b, v, ib, n), ib)
  {
    if n > 0 {
      hide Row, Totals, C.WorstSeverity, C.Speaks;
      RowsTotals(a, b, v, ia, ib, n - 1);
      RowsAlike(a, b, v, ia, ib, n - 1);
      var xs, ys := Rows(a, v, ia, n - 1), Rows(b, v, ib, n - 1);
      var x, y := Row(a, v, ia, n - 1), Row(b, v, ib, n - 1);
      assert Rows(a, v, ia, n) == xs + [x] && Rows(b, v, ib, n) == ys + [y];
      hide *;
      OneRowMore(xs, ys, x, y, ia, ib);
    }
  }

  lemma OneRowMore(xs: seq<Result>, ys: seq<Result>, x: Result, y: Result, ia: nat, ib: nat)
    requires Totals(xs, ia) == Totals(ys, ib) && C.WorstSeverity(xs, ia) == C.WorstSeverity(ys, ib)
    requires x.round == ia && y.round == ib && (C.Speaks(x, ia) <==> C.Speaks(y, ib))
    requires x.received == y.received && x.success == y.success && x.latency == y.latency && x.effective == y.effective
    ensures Totals(xs + [x], ia) == Totals(ys + [y], ib)
    ensures C.WorstSeverity(xs + [x], ia) == C.WorstSeverity(ys + [y], ib)
  {
    hide *;
    TotalsOfLast(xs, x, ia);
    TotalsOfLast(ys, y, ib);
    SamePlus(Totals(xs, ia), x, y);
    WorstOfLast(xs, x, ia);
    WorstOfLast(ys, y, ib);
  }

  /** Rows of the same report differ only in their keys. */
  lemma RowsAlike(a: Db, b: Db, v: RoundReport, ia: nat, ib: nat, k: nat)
    requires a.overrides == b.overrides && k < |v.results|
    ensures var x, y := Row(a, v, ia, k), Row(b, v, ib, k);
      && x.round == ia && y.round == ib && (C.Speaks(x, ia) <==> C.Speaks(y, ib))
      && x.received == y.received && x.success == y.success && x.latency == y.latency && x.effective == y.effective
  {
    hide EffectiveCode, OldestReference;
  }

  lemma WorstOfLast(rs: seq<Result>, r: Result, round: nat)
    ensures C.WorstSeverity(rs + [r], round)
            == if C.Speaks(r, round) then Max(C.WorstSeverity(rs, round), C.Severity(r.effective)) else C.WorstSeverity(rs, round)
  {
    assert (rs + [r])[..|rs|] == rs;
  }

  lemma SamePlus(t: Aggregate, x: Result, y: Result)
    requires x.received == y.received && x.success == y.success && x.latency == y.latency && x.effective == y.effective
    ensures Plus(t, x) == Plus(t, y)
  {
    hide Bucket;
  }

  lemma {:induction false} WorstOfNewRows(earlier: seq<Result>, rows: seq<Result>, round: nat)
    requires forall i :: 0 <= i < |earlier| ==> earlier[i].round != round
    ensures C.WorstSeverity(earlier + rows, round) == C.WorstSeverity(rows, round)
    decreases |rows|
  {
    if |rows| == 0 {
      assert earlier + rows == earlier;
      WorstOfExtended([], earlier, round);
    } else {
      var n := |rows| - 1;
      WorstOfNewRows(earlier, rows[..n], round);
      assert (earlier + rows)[..|earlier| + n] == earlier + rows[..n];
    }
  }

  /** The quality of a round just saved only depends on the report and the overrides. */
  lemma NewRoundQuality(db: Db, v: RoundReport)
    requires Invariant(db)
    ensures var id := NextId(db.rounds);
      C.WorstSeverity(SavedRound(db, v).results, id) == C.WorstSeverity(Rows(db, v, id, |v.results|), id)
  {
    SaveInserts(db, v);
    var id := NextId(db.rounds);
    NextIdIsFresh(db.rounds);
    forall i | 0 <= i < |db.results| ensures db.results[i].round != id {
      assert HasRound(db.rounds, db.results[i].round, db.results[i].server);
    }
    hide SavedRound, Rows, C.WorstSeverity, Invariant;
    WorstOfNewRows(db.results, Rows(db, v, id, |v.results|), id);
  }

  /** Both saves re-clip the same predecessor to the same span. */
  lemma LateSaveIsAlike(xs: seq<Round>, ys: seq<Round>, v: Probe, u: Probe, since: int, i: nat)
    requires OrderedIds(xs) && ExtendsAfter(xs, ys, v.server, v.finished) && since < v.finished && i < |xs|
    requires !v.auxiliary && u == v.(agg := u.agg)
    ensures |Inserted(xs, v)| == |xs| + 1 && |Inserted(ys, u)| == |ys| + 1
    ensures Alike(Inserted(xs, v)[i], Inserted(ys, u)[i], v.server, since, v.finished)
  {
    LatestIsShared(xs, ys, v.server, v.finished);
    assert SameRow(xs[i], ys[i]);
    hide LastIndex, E.Overlap, NewRound;
  }

  lemma LaterRowsStayLater(xs: seq<Round>, ys: seq<Round>, u: Probe, i: nat)
    requires OrderedIds(xs) && ExtendsAfter(xs, ys, u.server, u.finished) && |xs| <= i < |ys|
    ensures |Inserted(ys, u)| == |ys| + 1 && u.finished < Inserted(ys, u)[i].finished
  {
    hide LastIndex, NewRound;
  }

  lemma SameNewRow(t: E.Tally, a: Round, b: Round, since: int, now: int)
    requires a.finished == now == b.finished && a.agg == b.agg && since < now
    ensures E.PlusRow(t, a, E.Window(since, now)) == E.PlusRow(t, b, E.Window(since, now))
  {
    NothingCoveredYet(a, since, now);
    NothingCoveredYet(b, since, now);
    assert E.Ratio(a) == E.Ratio(b);
    hide E.Overlap, E.Ratio;
  }

  /** Saved before or after rounds that finish later, a round sees the same window. */
  lemma LateSaveSums(xs: seq<Round>, ys: seq<Round>, v: Probe, u: Probe, since: int)
    requires OrderedIds(xs) && ExtendsAfter(xs, ys, v.server, v.finished) && since < v.finished
    requires !v.auxiliary && u == v
    ensures var w := E.Window(since, v.finished);
      && E.TallyOf(Inserted(xs, v), v.server, w) == E.TallyOf(Inserted(ys, u), v.server, w)
      && E.ReceivedIn(Inserted(xs, v), v.server, w) == E.ReceivedIn(Inserted(ys, u), v.server, w)
  {
    hide E.TallyOf, E.ReceivedIn, E.PlusRow, E.Counts, E.Window, Inserted, Alike, LastIndex, NewRound, ExtendsAfter, OrderedIds;
    var now, w := v.finished, E.Window(since, v.finished);
    LateSavePrefix(xs, ys, v, u, since);
    NewRowOf(xs, v);
    NewRowOf(ys, u);
    var a, b := Inserted(xs, v), Inserted(ys, u);
    var ap, bp := a[..|xs|], b[..|ys|];
    SameSums(ap, bp, v.server, since, now);
    assert a[..|a| - 1] == ap && b[..|b| - 1] == bp;
    SameNewRow(E.TallyOf(ap, v.server, w), a[|xs|], b[|ys|], since, now);
    SameCounted(a[|xs|], b[|ys|], w);
    SumsOfLast(a, v.server, w);
    SumsOfLast(b, v.server, w);
  }

  lemma SumsOfLast(rs: seq<Round>, server: nat, w: E.Span)
    requires |rs| > 0
    ensures var rest, q := rs[..|rs| - 1], rs[|rs| - 1];
      && E.TallyOf(rs, server, w) == (if Formal(q, server) then E.PlusRow(E.TallyOf(rest, server, w), q, w) else E.TallyOf(rest, server, w))
      && E.ReceivedIn(rs, server, w) == E.ReceivedIn(rest, server, w) + if Formal(q, server) && E.Counts(q, w) then q.agg.received else 0
  {
    hide E.PlusRow, E.Counts;
  }

  lemma LateSavePrefix(xs: seq<Round>, ys: seq<Round>, v: Probe, u: Probe, since: int)
    requires OrderedIds(xs) && ExtendsAfter(xs, ys, v.server, v.finished) && since < v.finished
    requires !v.auxiliary && u == v
    ensures OrderedIds(ys) && |Inserted(xs, v)| == |xs| + 1 && |xs| <= |ys| && |Inserted(ys, u)| == |ys| + 1
    ensures Inserted(xs, v)[|xs|] == NewRound(xs, v) && Inserted(ys, u)[|ys|] == NewRound(ys, u)
    ensures forall i :: 0 <= i < |xs| ==> Alike(Inserted(xs, v)[..|xs|][i], Inserted(ys, u)[..|ys|][i], v.server, since, v.finished)
    ensures forall i :: |xs| <= i < |ys| ==> v.finished < Inserted(ys, u)[..|ys|][i].finished
  {
    NewIsLatest(xs, v);
    NewIsLatest(ys, u);
    var ap, bp := Inserted(xs, v)[..|xs|], Inserted(ys, u)[..|ys|];
    forall i | 0 <= i < |xs| ensures Alike(ap[i], bp[i], v.server, since, v.finished) {
      LateSaveIsAlike(xs, ys, v, u, since, i);
    }
    forall i | |xs| <= i < |ys| ensures v.finished < bp[i].finished {
      LaterRowsStayLater(xs, ys, u, i);
    }
    hide Inserted, Alike;
  }

  lemma SameCounted(a: Round, b: Round, w: E.Span)
    requires a.finished == b.finished
    ensures E.Counts(a, w) == E.Counts(b, w)
  {
  }

  lemma NewRowOf(rs: seq<Round>, v: Probe)
    ensures var q := NewRound(rs, v);
      q.finished == v.finished && q.agg == v.agg && q.server == v.server && q.auxiliary == v.auxiliary && q.id == NextId(rs)
  {
    hide MinFinished;
  }

  /** What saving a formal round leaves as the latest one. */
  lemma SavedEndsNow(db: Db, v: RoundReport)
    requires Invariant(db) && Acceptable(db, v) && !v.auxiliary
    ensures Invariant(SavedRound(db, v)) && SavedRound(db, v).rounds == Inserted(db.rounds, ProbeOf(db, v))
    ensures LatestEndsNow(SavedRound(db, v).rounds, v.server, v.finished)
    ensures var q := SavedRound(db, v).rounds[LastIndex(SavedRound(db, v).rounds, v.server, v.finished)];
      && q.agg == ProbeOf(db, v).agg && q.id == NextId(db.rounds)
      && C.WorstSeverity(SavedRound(db, v).results, q.id) == C.WorstSeverity(Rows(db, v, q.id, |v.results|), q.id)
  {
    SavingKeepsInvariant(db, v);
    SaveInserts(db, v);
    NewIsLatest(db.rounds, ProbeOf(db, v));
    NewRowOf(db.rounds, ProbeOf(db, v));
    NewRoundQuality(db, v);
    hide SavedRound, Inserted, LastIndex, Linked, Summed, Judged, Dated, Bounded, Disjoint, NewRound, Rows, Totals, C.WorstSeverity;
  }

  lemma LateSums(db: Db, d: Db, v: RoundReport, th: C.Thresholds)
    requires OrderedIds(db.rounds) && OrderedIds(d.rounds) && !v.auxiliary && C.Valid(th, v.finished)
    requires ExtendsAfter(db.rounds, d.rounds, v.server, v.finished) && ProbeOf(d, v) == ProbeOf(db, v)
    ensures var w := E.Window(v.finished - C.WindowLength(th), v.finished);
      && E.TallyOf(SavedRound(db, v).rounds, v.server, w) == E.TallyOf(SavedRound(d, v).rounds, v.server, w)
      && E.ReceivedIn(SavedRound(db, v).rounds, v.server, w) == E.ReceivedIn(SavedRound(d, v).rounds, v.server, w)
  {
    SaveInserts(db, v);
    SaveInserts(d, v);
    ProbeFields(db, v);
    var probe, since := ProbeOf(db, v), v.finished - C.WindowLength(th);
    assert since < v.finished;
    assert ExtendsAfter(db.rounds, d.rounds, probe.server, probe.finished);
    hide *;
    LateSaveSums(db.rounds, d.rounds, probe, probe, since);
  }

  lemma ProbeFields(db: Db, v: RoundReport)
    ensures var p := ProbeOf(db, v); p.server == v.server && p.finished == v.finished && p.auxiliary == v.auxiliary
  {
  }

  lemma StillAcceptable(db: Db, d: Db, v: RoundReport)
    requires Acceptable(db, v) && KeepsResults(db, d)
    ensures Acceptable(d, v)
  {
  }

  lemma SameProbe(db: Db, d: Db, v: RoundReport)
    requires KeepsResults(db, d)
    ensures ProbeOf(d, v) == ProbeOf(db, v)
    ensures C.WorstSeverity(Rows(db, v, NextId(db.rounds), |v.results|), NextId(db.rounds))
         == C.WorstSeverity(Rows(d, v, NextId(d.rounds), |v.results|), NextId(d.rounds))
  {
    RowsTotals(db, d, v, NextId(db.rounds), NextId(d.rounds), |v.results|);
    hide Totals, Rows, C.WorstSeverity;
  }

  lemma InvariantIsOrdered(db: Db)
    requires Invariant(db)
    ensures OrderedIds(db.rounds)
  {
  }

  lemma LateReport(db: Db, d: Db, v: RoundReport, trusted: bool, th: C.Thresholds)
    requires Invariant(db) && Invariant(d) && Acceptable(db, v) && Acceptable(d, v) && !v.auxiliary && C.Valid(th, v.finished)
    requires OrderedIds(db.rounds) && ExtendsAfter(db.rounds, d.rounds, v.server, v.finished) && KeepsResults(db, d)
    ensures Invariant(SavedRound(db, v)) && Invariant(SavedRound(d, v))
    ensures C.CurrentReport(SavedRound(db, v).rounds, SavedRound(db, v).results, v.server, trusted, th, v.finished)
         == C.CurrentReport(SavedRound(d, v).rounds, SavedRound(d, v).results, v.server, trusted, th, v.finished)
  {
    hide *;
    InvariantIsOrdered(d);
    SavedEndsNow(db, v);
    SavedEndsNow(d, v);
    SameProbe(db, d, v);
    var early, late := SavedRound(db, v), SavedRound(d, v);
    InvariantIsOrdered(early);
    InvariantIsOrdered(late);
    LateSums(db, d, v, th);
    EqualParts(early.rounds, late.rounds, early.results, late.results, v.server, trusted, th, v.finished);
  }

  /** A round saved late, with rounds that finish later already stored, captures what it would have captured had it been
      saved before them. */
  lemma LateSaveSeesNoFuture(db: Db, v: RoundReport, later: seq<RoundReport>, trusted: bool, th: C.Thresholds)
    requires Invariant(db) && Acceptable(db, v) && !v.auxiliary && AllAfter(later, v.finished) && C.Valid(th, v.finished)
    ensures Acceptable(SavedAll(db, later), v)
    ensures Invariant(SavedRound(db, v)) && Invariant(SavedRound(SavedAll(db, later), v))
    ensures var early, late := SavedRound(db, v), SavedRound(SavedAll(db, later), v);
      C.CurrentReport(early.rounds, early.results, v.server, trusted, th, v.finished)
      == C.CurrentReport(late.rounds, late.results, v.server, trusted, th, v.finished)
  {
    LaterSavesExtend(db, later, v.server, v.finished);
    hide *;
    StillAcceptable(db, SavedAll(db, later), v);
    LateReport(db, SavedAll(db, later), v, trusted, th);
  }

  /** Altogether: what a round captures does not depend on which rounds that finish later were saved before it or are saved
      after it. */
  lemma SnapshotIsTimeless(db: Db, v: RoundReport, before: seq<RoundReport>, after: seq<RoundReport>, trusted: bool, th: C.Thresholds)
    requires Invariant(db) && Acceptable(db, v) && !v.auxiliary && C.Valid(th, v.finished)
    requires AllAfter(before, v.finished) && AllAfter(after, v.finished)
    ensures Invariant(SavedRound(db, v)) && Invariant(SavedRound(SavedAll(db, before), v))
    ensures var alone, among := SavedRound(db, v), SavedAll(SavedRound(SavedAll(db, before), v), after);
      C.CurrentReport(alone.rounds, alone.results, v.server, trusted, th, v.finished)
      == C.CurrentReport(among.rounds, among.results, v.server, trusted, th, v.finished)
  {
    hide SavedAll, SavedRound, Invariant, Acceptable, AllAfter, C.CurrentReport;
    LateSaveSeesNoFuture(db, v, before, trusted, th);
    SnapshotIsFinal(SavedAll(db, before), v, after, trusted, th);
  }

  // ----- The snapshots kept -----

  /** A captured evaluation; for a trusted server the quality shown is clean. */
  datatype Snapshot = Snapshot(server: nat, at: int, trusted: bool, quality: nat, report: C.Report)

  ghost function SnapshotOf(db: Db, server: nat, at: int, th: C.Thresholds): Snapshot
    requires OrderedIds(db.rounds) && server in db.servers
  {
    var trusted := db.servers[server];
    var report := C.CurrentReport(db.rounds, db.results, server, trusted, th, at);
    Snapshot(server, at, trusted, if trusted then CLEAN else report.quality, report)
  }

  /** Snapshots are kept by round; auxiliary rounds have none. */
  ghost function Captured(snapshots: map<nat, Snapshot>, was: Db, db: Db, v: RoundReport, th: C.Thresholds): map<nat, Snapshot>
    requires OrderedIds(db.rounds) && v.server in db.servers
  {
    if v.auxiliary then snapshots else snapshots[NextId(was.rounds) := SnapshotOf(db, v.server, v.finished, th)]
  }

  function Ids(rounds: seq<Round>): set<nat> {
    set q | q in rounds :: q.id
  }

  /** Deleting a round deletes its snapshot. */
  function Live(snapshots: map<nat, Snapshot>, rounds: seq<Round>): map<nat, Snapshot> {
    map id | id in snapshots && id in Ids(rounds) :: snapshots[id]
  }

  predicate Belongs(snapshot: Snapshot, id: nat, q: Round) {
    q.id == id && Formal(q, snapshot.server) && q.finished == snapshot.at
  }

  /** Every snapshot belongs to a stored formal round of its server and was taken when that round finished. */
  ghost predicate Attached(snapshots: map<nat, Snapshot>, rounds: seq<Round>) {
    forall id :: id in snapshots ==> exists q :: q in rounds && Belongs(snapshots[id], id, q)
  }

  /** Each row was there before, up to what it covers and sums up to. */
  ghost predicate Descends(out: seq<Round>, rounds: seq<Round>) {
    forall r :: r in out ==> exists q :: q in rounds && r == q.(coveredUntil := r.coveredUntil, agg := r.agg)
  }

  lemma LiveStaysAttached(snapshots: map<nat, Snapshot>, rounds: seq<Round>, out: seq<Round>)
    requires OrderedIds(rounds) && Attached(snapshots, rounds) && Descends(out, rounds)
    ensures Attached(Live(snapshots, out), out)
  {
    forall id | id in Live(snapshots, out) ensures exists r :: r in out && Belongs(snapshots[id], id, r) {
      var r :| r in out && r.id == id;
      var q :| q in rounds && r == q.(coveredUntil := r.coveredUntil, agg := r.agg);
      var x :| x in rounds && Belongs(snapshots[id], id, x);
      IdsAreUnique(rounds, q, x);
      assert Belongs(snapshots[id], id, r);
    }
  }

  lemma AllAreLive(snapshots: map<nat, Snapshot>, rounds: seq<Round>)
    requires Attached(snapshots, rounds)
    ensures Live(snapshots, rounds) == snapshots
  {
    forall id | id in snapshots ensures id in Ids(rounds) {
      var q :| q in rounds && Belongs(snapshots[id], id, q);
    }
  }

  lemma LiveTwice(snapshots: map<nat, Snapshot>, mid: seq<Round>, out: seq<Round>)
    requires Descends(out, mid)
    ensures Live(Live(snapshots, mid), out) == Live(snapshots, out)
  {
    forall id | id in Ids(out) ensures id in Ids(mid) {
      var r :| r in out && r.id == id;
      var q :| q in mid && r == q.(coveredUntil := r.coveredUntil, agg := r.agg);
    }
  }

  lemma SameTimelineDescends(rs: seq<Round>, ts: seq<Round>)
    requires SameTimeline(rs, ts)
    ensures Descends(ts, rs)
  {
    forall r | r in ts ensures exists q :: q in rs && r == q.(coveredUntil := r.coveredUntil, agg := r.agg) {
      var i :| 0 <= i < |ts| && ts[i] == r;
      assert rs[i] in rs;
    }
  }

  lemma SameTimelineKeepsAttached(snapshots: map<nat, Snapshot>, rs: seq<Round>, ts: seq<Round>)
    requires SameTimeline(rs, ts) && Attached(snapshots, rs)
    ensures Attached(snapshots, ts)
  {
    forall id | id in snapshots ensures exists r :: r in ts && Belongs(snapshots[id], id, r) {
      var q :| q in rs && Belongs(snapshots[id], id, q);
      var i :| 0 <= i < |rs| && rs[i] == q;
      assert ts[i] in ts && Belongs(snapshots[id], id, ts[i]);
    }
  }

  lemma WithoutDescends(rs: seq<Round>, ids: set<nat>)
    ensures Descends(Without(rs, ids), rs)
  {
    hide Without;
  }

  lemma TrimDescends(db: Db, id: nat, before: int)
    ensures Descends(RoundTrimmed(db, id, before).rounds, db.rounds)
  {
    var results := Keep(db.results, (r: Result) => !Expired(r, id, before));
    WithoutDescends(db.rounds, {id});
    SameTimelineDescends(db.rounds, Resummed(db.rounds, results, id));
    hide Descends, Keep, Without, Resummed, Totals;
  }

  /** Saving a round adds its snapshot under an id that no older one has, so none is overwritten. */
  lemma CapturingKeepsAttached(snapshots: map<nat, Snapshot>, db: Db, v: RoundReport, th: C.Thresholds)
    requires Invariant(db) && Acceptable(db, v) && Attached(snapshots, db.rounds)
    ensures Invariant(SavedRound(db, v)) && NextId(db.rounds) !in snapshots
    ensures Attached(Captured(snapshots, db, SavedRound(db, v), v, th), SavedRound(db, v).rounds)
  {
    SavingKeepsInvariant(db, v);
    SaveInserts(db, v);
    InvariantIsOrdered(db);
    NextIdIsFresh(db.rounds);
    var probe, after := ProbeOf(db, v), SavedRound(db, v);
    ProbeFields(db, v);
    OldOnesStayAttached(snapshots, db.rounds, probe);
    if !v.auxiliary {
      NewOneIsAttached(after, db.rounds, probe, v.server, v.finished, th);
    }
    hide *;
    MoreAttached(snapshots, after, db, v, th);
  }

  lemma MoreAttached(snapshots: map<nat, Snapshot>, after: Db, db: Db, v: RoundReport, th: C.Thresholds)
    requires OrderedIds(after.rounds) && v.server in after.servers && Attached(snapshots, after.rounds)
    requires !v.auxiliary ==>
      exists r :: r in after.rounds && Belongs(SnapshotOf(after, v.server, v.finished, th), NextId(db.rounds), r)
    ensures Attached(Captured(snapshots, db, after, v, th), after.rounds)
  {
    hide C.CurrentReport;
  }

  lemma OldOnesStayAttached(snapshots: map<nat, Snapshot>, rounds: seq<Round>, v: Probe)
    requires OrderedIds(rounds) && Attached(snapshots, rounds)
    ensures NextId(rounds) !in snapshots && Attached(snapshots, Inserted(rounds, v))
  {
    hide Inserted;
    NextIdIsFresh(rounds);
    forall id | id in snapshots ensures id != NextId(rounds) && exists r :: r in Inserted(rounds, v) && Belongs(snapshots[id], id, r) {
      var q :| q in rounds && Belongs(snapshots[id], id, q);
      RowSurvivesInsert(rounds, v, q, snapshots[id], id);
    }
  }

  lemma NewOneIsAttached(after: Db, rounds: seq<Round>, probe: Probe, server: nat, at: int, th: C.Thresholds)
    requires OrderedIds(rounds) && after.rounds == Inserted(rounds, probe) && OrderedIds(after.rounds)
    requires !probe.auxiliary && probe.server == server && probe.finished == at && server in after.servers
    ensures exists r :: r in after.rounds && Belongs(SnapshotOf(after, server, at, th), NextId(rounds), r)
  {
    NewFinishes(rounds, probe);
    NewRowOf(rounds, probe);
    InsertedNewest(rounds, probe);
    hide Inserted, NewRound, C.CurrentReport;
    var r := after.rounds[|rounds|];
    assert r in after.rounds && Belongs(SnapshotOf(after, server, at, th), NextId(rounds), r);
  }

  lemma InsertedNewest(rounds: seq<Round>, v: Probe)
    requires OrderedIds(rounds)
    ensures |Inserted(rounds, v)| == |rounds| + 1
  {
    hide LastIndex, MinFinished;
  }

  lemma RowSurvivesInsert(rs: seq<Round>, v: Probe, q: Round, snapshot: Snapshot, id: nat)
    requires OrderedIds(rs) && q in rs && Belongs(snapshot, id, q)
    ensures exists r :: r in Inserted(rs, v) && Belongs(snapshot, id, r)
  {
    InsertedRows(rs, v, q);
    InsertedRows(rs, v, Reclipped(q, v.finished));
    hide LastIndex, Inserted, NewRound;
    assert Belongs(snapshot, id, q) && Belongs(snapshot, id, Reclipped(q, v.finished));
  }

  // ----- What a snapshot holds -----

  /** One snapshot more, under the id: of the server at the time, with the report over these tables and quality 2 for a
      trusted server. */
  ghost predicate HoldsSnapshot(out: map<nat, Snapshot>, snapshots: map<nat, Snapshot>, id: nat, after: Db, server: nat, at: int, th: C.Thresholds)
    requires OrderedIds(after.rounds) && server in after.servers
  {
    var trusted := after.servers[server];
    && out.Keys == snapshots.Keys + {id} && (forall k :: k in snapshots && k != id ==> out[k] == snapshots[k])
    && out[id].server == server && out[id].at == at && out[id].trusted == trusted
    && out[id].report == C.CurrentReport(after.rounds, after.results, server, trusted, th, at)
    && out[id].quality == if trusted then 2 else out[id].report.quality
  }

  /** A formal round adds one snapshot, taken at its finish from the tables it is part of; an auxiliary round adds none. */
  lemma CapturedMeaning(snapshots: map<nat, Snapshot>, db: Db, v: RoundReport, th: C.Thresholds)
    requires Invariant(db) && Acceptable(db, v)
    ensures var after, id := SavedRound(db, v), NextId(db.rounds);
      && OrderedIds(after.rounds) && v.server in after.servers && after.servers == db.servers
      && after.rounds != [] && after.rounds[|after.rounds| - 1].id == id
      && var out := Captured(snapshots, db, after, v, th);
         if v.auxiliary then out == snapshots else HoldsSnapshot(out, snapshots, id, after, v.server, v.finished, th)
  {
    SavingKeepsInvariant(db, v);
    SavedShape(db, v);
    hide *;
    CapturedHolds(snapshots, db, SavedRound(db, v), v, th);
  }

  lemma CapturedHolds(snapshots: map<nat, Snapshot>, db: Db, after: Db, v: RoundReport, th: C.Thresholds)
    requires OrderedIds(after.rounds) && v.server in after.servers
    ensures var out := Captured(snapshots, db, after, v, th);
      if v.auxiliary then out == snapshots else HoldsSnapshot(out, snapshots, NextId(db.rounds), after, v.server, v.finished, th)
  {
    hide C.CurrentReport, OrderedIds;
  }

  lemma SavedShape(db: Db, v: RoundReport)
    requires Invariant(db) && Invariant(SavedRound(db, v)) && Acceptable(db, v)
    ensures var after := SavedRound(db, v);
      && OrderedIds(after.rounds) && after.servers == db.servers && v.server in after.servers
      && after.rounds != [] && after.rounds[|after.rounds| - 1].id == NextId(db.rounds)
  {
    hide Linked, Summed, Judged, Dated, Bounded, Disjoint, LastIndex, MinFinished, Rows, Totals, Reclipped;
  }

  /** A snapshot lives exactly as long as its round. */
  lemma LiveMeaning(snapshots: map<nat, Snapshot>, rounds: seq<Round>, id: nat)
    ensures id in Live(snapshots, rounds) <==> id in snapshots && exists q :: q in rounds && q.id == id
    ensures id in Live(snapshots, rounds) ==> Live(snapshots, rounds)[id] == snapshots[id]
  {
  }
}
