/**
 Stored probe results, the verdict policy, and the per-round sums recomputed from them.
 */
module Evidence {
  import opened Tables

  /** Verdict codes, ordered by severity: unknown, matched, clean, suspicious, polluted. */
  const UNKNOWN := 0
  const MATCHED := 1
  const CLEAN := 2
  const SUSPICIOUS := 3
  const POLLUTED := 4

  datatype Verdict = CleanVerdict | PollutedVerdict

  /** A cached reference answer and when each of its records was observed. */
  datatype Record = Record(value: string, observedAt: int)
  datatype Reference = Reference(timestamp: int, records: seq<Record>)

  /** A row of `results`, with the parts of its stored evidence that statistics use. */
  datatype Result = Result(
    id: nat,
    round: nat,
    server: nat,
    timestamp: int,
    subject: Subject,
    detected: nat,
    effective: nat,
    policy: int,
    oldestReference: int,
    received: bool,
    success: bool,
    latency: real,
    references: seq<Reference>)

  /** A manual verdict wins; an automatic conviction under the old policy counts as unknown. */
  function EffectiveCode(detected: nat, policy: int, manual: Option<Verdict>): nat {
    match manual
    case Some(CleanVerdict) => CLEAN
    case Some(PollutedVerdict) => POLLUTED
    case None => if policy < 2 && detected == POLLUTED then UNKNOWN else detected
  }

  // ----- Latency buckets -----

  const MAX_LATENCY := 3600000.0

  function Clamped(ms: real): real {
    if ms <= MAX_LATENCY then ms else MAX_LATENCY
  }

  function Ceil(x: real): int {
    -((-x).Floor)
  }

  function Bucket(ms: real): int {
    Ceil(Clamped(ms))
  }

  // ----- Per-round sums -----

  const NOTHING := Aggregate(0, 0, 0, 0, 0.0, 0, multiset{})

  predicate Timed(r: Result) {
    r.success && 0.0 <= r.latency
  }

  function Plus(a: Aggregate, r: Result): Aggregate {
    Aggregate(
      a.samples + 1,
      a.received + if r.received then 1 else 0,
      a.successes + if r.success then 1 else 0,
      a.latencyCount + if Timed(r) then 1 else 0,
      a.latencySum + if Timed(r) then r.latency else 0.0,
      if a.pollution < r.effective then r.effective else a.pollution,
      a.histogram + if Timed(r) then multiset{Bucket(r.latency)} else multiset{})
  }

  /** The sums of one round, recomputed from the results table. */
  function Totals(rs: seq<Result>, round: nat): (a: Aggregate)
    ensures a.received <= a.samples && a.successes <= a.samples
    ensures a.latencyCount == |a.histogram| <= a.successes
  {
    if |rs| == 0 then NOTHING
    else
      var a := Totals(rs[..|rs| - 1], round);
      var last := rs[|rs| - 1];
      if last.round == round then Plus(a, last) else a
  }

  /** SELECT COALESCE(MAX(effective_pollution),0) FROM results WHERE round_id=round */
  function MaxEffective(rs: seq<Result>, round: nat): nat {
    if |rs| == 0 then 0
    else
      var m := MaxEffective(rs[..|rs| - 1], round);
      var last := rs[|rs| - 1];
      if last.round == round && m < last.effective then last.effective else m
  }

  ghost predicate SameButVerdict(a: Result, b: Result) {
    a.round == b.round && a.received == b.received && a.success == b.success && a.latency == b.latency
  }

  lemma {:induction false} TotalsAfterReverdict(rs: seq<Result>, ts: seq<Result>, round: nat)
    requires |rs| == |ts|
    requires forall i :: 0 <= i < |rs| ==> SameButVerdict(rs[i], ts[i])
    ensures Totals(ts, round) == Totals(rs, round).(pollution := MaxEffective(ts, round))
  {
    hide Plus, Timed;
    if |rs| > 0 {
      var n := |rs| - 1;
      assert SameButVerdict(rs[n], ts[n]);
      TotalsAfterReverdict(rs[..n], ts[..n], round);
      PlusAfterReverdict(Totals(rs[..n], round), rs[n], ts[n], MaxEffective(ts[..n], round));
    }
  }

  lemma PlusAfterReverdict(a: Aggregate, r: Result, t: Result, worst: nat)
    requires SameButVerdict(r, t)
    ensures Plus(a.(pollution := worst), t)
            == Plus(a, r).(pollution := if worst < t.effective then t.effective else worst)
  {
    hide Bucket;
  }

  /** Only a round's own results, and of those only the evidence and verdict, enter its sums. */
  lemma {:induction false} TotalsDependOn(rs: seq<Result>, ts: seq<Result>, round: nat)
    requires |rs| == |ts|
    requires forall i :: 0 <= i < |rs| ==> SameButVerdict(rs[i], ts[i])
    requires forall i :: 0 <= i < |rs| && rs[i].round == round ==> rs[i].effective == ts[i].effective
    ensures Totals(ts, round) == Totals(rs, round)
  {
    if |rs| > 0 {
      var n := |rs| - 1;
      assert SameButVerdict(rs[n], ts[n]);
      TotalsDependOn(rs[..n], ts[..n], round);
    }
  }

  lemma {:induction false} TotalsOfAppended(rs: seq<Result>, more: seq<Result>, round: nat)
    ensures (forall r :: r in more ==> r.round != round) ==> Totals(rs + more, round) == Totals(rs, round)
    ensures (forall r :: r in rs ==> r.round != round) ==> Totals(rs + more, round) == Totals(more, round)
  {
    if |more| == 0 {
      assert rs + more == rs;
      if forall r :: r in rs ==> r.round != round { NoResultsNoTotals(rs, round); }
    } else {
      var n := |more| - 1;
      TotalsOfAppended(rs, more[..n], round);
      assert (rs + more)[..|rs| + n] == rs + more[..n];
      assert more[n] in more;
    }
  }

  lemma {:induction false} NoResultsNoTotals(rs: seq<Result>, round: nat)
    ensures (forall r :: r in rs ==> r.round != round) <==> Totals(rs, round).samples == 0
    ensures (forall r :: r in rs ==> r.round != round) ==> Totals(rs, round) == NOTHING
  {
    if |rs| > 0 {
      var n := |rs| - 1;
      NoResultsNoTotals(rs[..n], round);
      assert forall r :: r in rs <==> r in rs[..n] || r == rs[n];
    }
  }

  // ----- Deleting results -----

  /** DELETE FROM results WHERE NOT keep */
  function Keep(rs: seq<Result>, keep: Result -> bool): (out: seq<Result>)
    ensures forall r :: r in out <==> r in rs && keep(r)
  {
    if |rs| == 0 then []
    else
      var n := |rs| - 1;
      assert forall r :: r in rs <==> r in rs[..n] || r == rs[n];
      if keep(rs[n]) then Keep(rs[..n], keep) + [rs[n]] else Keep(rs[..n], keep)
  }

  lemma {:induction false} KeepTwice(rs: seq<Result>, p: Result -> bool, q: Result -> bool)
    ensures Keep(Keep(rs, p), q) == Keep(rs, (r: Result) => p(r) && q(r))
  {
    if |rs| > 0 {
      var n := |rs| - 1;
      KeepTwice(rs[..n], p, q);
      if p(rs[n]) {
        KeepLast(Keep(rs[..n], p), rs[n], q);
      }
    }
  }

  lemma {:induction false} KeepAgrees(rs: seq<Result>, p: Result -> bool, q: Result -> bool)
    requires forall r :: r in rs ==> p(r) == q(r)
    ensures Keep(rs, p) == Keep(rs, q)
  {
    if |rs| > 0 {
      var n := |rs| - 1;
      assert rs[n] in rs && forall r :: r in rs[..n] ==> r in rs;
      KeepAgrees(rs[..n], p, q);
    }
  }

  ghost predicate OrderedResults(rs: seq<Result>) {
    forall i, j :: 0 <= i < j < |rs| ==> rs[i].id < rs[j].id
  }

  lemma {:induction false} KeepIsOrdered(rs: seq<Result>, keep: Result -> bool)
    requires OrderedResults(rs)
    ensures OrderedResults(Keep(rs, keep))
  {
    if |rs| > 0 {
      var n := |rs| - 1;
      KeepIsOrdered(rs[..n], keep);
      var w := Keep(rs[..n], keep);
      forall k | 0 <= k < |w| ensures w[k].id < rs[n].id {
        assert w[k] in rs[..n];
      }
    }
  }

  lemma {:induction false} TotalsOfKept(rs: seq<Result>, keep: Result -> bool, round: nat)
    requires forall r :: r in rs && r.round == round ==> keep(r)
    ensures Totals(Keep(rs, keep), round) == Totals(rs, round)
  {
    hide Plus, Timed;
    if |rs| > 0 {
      var n := |rs| - 1;
      assert rs[n] in rs;
      assert forall r :: r in rs[..n] ==> r in rs;
      TotalsOfKept(rs[..n], keep, round);
      var w := Keep(rs[..n], keep);
      TotalsOfLast(w, rs[n], round);
      TotalsOfLast(rs[..n], rs[n], round);
      assert rs[..n] + [rs[n]] == rs;
      KeepLast(rs[..n], rs[n], keep);
    }
  }

  lemma KeepLast(rs: seq<Result>, r: Result, keep: Result -> bool)
    ensures Keep(rs + [r], keep) == if keep(r) then Keep(rs, keep) + [r] else Keep(rs, keep)
  {
    assert (rs + [r])[..|rs|] == rs;
  }

  lemma TotalsOfLast(rs: seq<Result>, r: Result, round: nat)
    ensures Totals(rs + [r], round) == if r.round == round then Plus(Totals(rs, round), r) else Totals(rs, round)
  {
    assert (rs + [r])[..|rs|] == rs;
  }

  // ----- Reference evidence -----

  function Older(at: int, candidate: int): int {
    if 0 < candidate && (at == 0 || candidate < at) then candidate else at
  }

  function OldestRecord(at: int, records: seq<Record>): int {
    if |records| == 0 then at
    else Older(OldestRecord(at, records[..|records| - 1]), records[|records| - 1].observedAt)
  }

  /** The least positive timestamp in the reference evidence, 0 if there is none. */
  function OldestReference(refs: seq<Reference>): int {
    if |refs| == 0 then 0
    else
      var at := OldestReference(refs[..|refs| - 1]);
      var last := refs[|refs| - 1];
      OldestRecord(Older(at, last.timestamp), last.records)
  }

  function KeptRecords(records: seq<Record>, before: int): (out: seq<Record>)
    ensures forall r :: r in out <==> r in records && before <= r.observedAt
  {
    if |records| == 0 then []
    else
      var n := |records| - 1;
      assert forall r :: r in records <==> r in records[..n] || r == records[n];
      if before <= records[n].observedAt then KeptRecords(records[..n], before) + [records[n]]
      else KeptRecords(records[..n], before)
  }

  /** The references that survive a retention cutoff: stale records go, a reference that loses all
      its records goes with them, and so does one collected before the cutoff. */
  function KeptReferences(refs: seq<Reference>, before: int): seq<Reference> {
    if |refs| == 0 then []
    else
      var n := |refs| - 1;
      var kept := KeptReferences(refs[..n], before);
      var records := KeptRecords(refs[n].records, before);
      if |refs[n].records| > 0 && |records| == 0 then kept
      else if before <= refs[n].timestamp then kept + [Reference(refs[n].timestamp, records)]
      else kept
  }

  lemma {:induction false} OldestRecordBound(at: int, records: seq<Record>, before: int)
    requires at == 0 || before <= at
    requires forall r :: r in records ==> before <= r.observedAt
    ensures OldestRecord(at, records) == 0 || before <= OldestRecord(at, records)
  {
    if |records| > 0 {
      var n := |records| - 1;
      assert records[n] in records;
      assert forall r :: r in records[..n] ==> r in records;
      OldestRecordBound(at, records[..n], before);
    }
  }

  /** After pruning, no evidence is older than the cutoff, so the row never qualifies again. */
  lemma {:induction false} PrunedIsFresh(refs: seq<Reference>, before: int)
    ensures var at := OldestReference(KeptReferences(refs, before));
            at == 0 || before <= at
  {
    if |refs| > 0 {
      var n := |refs| - 1;
      PrunedIsFresh(refs[..n], before);
      var kept := KeptReferences(refs[..n], before);
      var records := KeptRecords(refs[n].records, before);
      if before <= refs[n].timestamp {
        OldestRecordBound(Older(OldestReference(kept), refs[n].timestamp), records, before);
        assert (kept + [Reference(refs[n].timestamp, records)])[..|kept|] == kept;
      }
    }
  }

  /** The index column lets retention skip exactly the rows it would not change. */
  ghost predicate Fresh(refs: seq<Reference>, before: int) {
    forall f :: f in refs ==> before <= f.timestamp && forall r :: r in f.records ==> before <= r.observedAt
  }

  lemma {:induction false} FreshKeepsEverything(refs: seq<Reference>, before: int)
    requires Fresh(refs, before)
    ensures KeptReferences(refs, before) == refs
  {
    if |refs| > 0 {
      var n := |refs| - 1;
      assert refs[n] in refs;
      assert forall f :: f in refs[..n] ==> f in refs;
      FreshKeepsEverything(refs[..n], before);
      FreshRecordsStay(refs[n].records, before);
      hide Fresh, KeptRecords;
      assert refs == refs[..n] + [Reference(refs[n].timestamp, refs[n].records)];
    }
  }

  lemma {:induction false} FreshRecordsStay(records: seq<Record>, before: int)
    requires forall r :: r in records ==> before <= r.observedAt
    ensures KeptRecords(records, before) == records
  {
    if |records| > 0 {
      var n := |records| - 1;
      assert records[n] in records;
      assert forall r :: r in records[..n] ==> r in records;
      FreshRecordsStay(records[..n], before);
      assert records == records[..n] + [records[n]];
    }
  }

  /** Every timestamp in the evidence. */
  ghost function TimesOf(refs: seq<Reference>): set<int> {
    (set f | f in refs :: f.timestamp) + set f, r | f in refs && r in f.records :: r.observedAt
  }

  /** The index column holds the least positive timestamp, or 0 if there is none. */
  lemma OldestIsLeast(refs: seq<Reference>)
    ensures var at := OldestReference(refs);
            && (at == 0 || (0 < at && at in TimesOf(refs)))
            && forall t :: t in TimesOf(refs) && 0 < t ==> 0 < at <= t
  {
    OldestIsReached(refs);
    forall t | t in TimesOf(refs) && 0 < t ensures 0 < OldestReference(refs) <= t {
      var f :| f in refs && (f.timestamp == t || exists r :: r in f.records && r.observedAt == t);
      OldestIsBelow(refs, f);
    }
  }

  lemma {:induction false} OldestIsReached(refs: seq<Reference>)
    ensures var at := OldestReference(refs); at == 0 || (0 < at && at in TimesOf(refs))
  {
    if |refs| > 0 {
      var n := |refs| - 1;
      OldestIsReached(refs[..n]);
      OldestRecordIsReached(Older(OldestReference(refs[..n]), refs[n].timestamp), refs[n].records);
      assert refs[n] in refs && forall f :: f in refs[..n] ==> f in refs;
      assert TimesOf(refs[..n]) <= TimesOf(refs);
    }
  }

  lemma {:induction false} OldestRecordIsReached(at: int, records: seq<Record>)
    requires 0 <= at
    ensures var least := OldestRecord(at, records);
            least == at || (0 < least && exists r :: r in records && r.observedAt == least)
  {
    if |records| > 0 {
      var n := |records| - 1;
      OldestRecordIsReached(at, records[..n]);
      assert records[n] in records && forall r :: r in records[..n] ==> r in records;
    }
  }

  /** No positive timestamp in the evidence is older than the cutoff. */
  ghost predicate NoneOlder(refs: seq<Reference>, before: int) {
    forall f :: f in refs ==>
      && (0 < f.timestamp ==> before <= f.timestamp)
      && forall r :: r in f.records && 0 < r.observedAt ==> before <= r.observedAt
  }

  /** A skipped row has no timestamp older than the cutoff, and only fresh evidence as long as every timestamp in it
      is positive. */
  lemma {:induction false} SkippedIsFresh(refs: seq<Reference>, before: int)
    requires var at := OldestReference(refs);
             !(0 < at < before)
    ensures NoneOlder(refs, before)
    ensures (forall f :: f in refs ==> 0 < f.timestamp && forall r :: r in f.records ==> 0 < r.observedAt) ==> Fresh(refs, before)
  {
    forall f | f in refs
      ensures 0 < f.timestamp ==> before <= f.timestamp
      ensures forall r :: r in f.records && 0 < r.observedAt ==> before <= r.observedAt
    {
      OldestIsBelow(refs, f);
    }
  }

  lemma {:induction false} OldestRecordIsBelow(at: int, records: seq<Record>)
    requires 0 <= at
    ensures 0 <= OldestRecord(at, records)
    ensures 0 < at ==> 0 < OldestRecord(at, records) <= at
    ensures forall r :: r in records && 0 < r.observedAt ==> 0 < OldestRecord(at, records) <= r.observedAt
  {
    if |records| > 0 {
      var n := |records| - 1;
      assert forall r :: r in records <==> r in records[..n] || r == records[n];
      OldestRecordIsBelow(at, records[..n]);
    }
  }

  lemma {:induction false} OldestIsBelow(refs: seq<Reference>, f: Reference)
    ensures 0 <= OldestReference(refs)
    ensures f in refs && 0 < f.timestamp ==> 0 < OldestReference(refs) <= f.timestamp
    ensures f in refs ==> forall r :: r in f.records && 0 < r.observedAt ==> 0 < OldestReference(refs) <= r.observedAt
  {
    if |refs| > 0 {
      var n := |refs| - 1;
      assert f in refs <==> f in refs[..n] || f == refs[n];
      OldestIsBelow(refs[..n], f);
      OldestRecordIsBelow(Older(OldestReference(refs[..n]), refs[n].timestamp), refs[n].records);
    }
  }

  // ----- Latency buckets, in milliseconds -----

  /** A latency is counted in whole milliseconds, rounded up, at most an hour. */
  lemma BucketMeaning(ms: real)
    ensures ms <= 3600000.0 ==> ms <= Bucket(ms) as real < ms + 1.0
    ensures 3600000.0 <= ms ==> Bucket(ms) == 3600000
  {
  }
}
