/**
 The current evaluation of a server: recent performance over a sliding window, the answer quality of its latest
 round, and the grade that follows from both.
 */
module CurrentEvaluation {
  import opened Tables
  import opened Timeline
  import opened Evidence
  import E = Evaluation
  import R = Rating

  datatype Thresholds = Thresholds(windowMinutes: int, minSamples: int, minCoverageMinutes: int, weights: R.Weights)

  datatype Grade = Graded(grade: R.Grade) | Unavailable

  datatype Reason = NoSamples | QualityUnknown | FewSamples | LittleCoverage

  datatype Report = Report(metrics: R.Metrics, quality: nat, grade: Grade, score: real, pending: Option<Reason>)

  predicate Valid(th: Thresholds, now: int) {
    0 < now && 0 < th.windowMinutes && 0 < th.minSamples && 0 <= th.minCoverageMinutes <= th.windowMinutes
  }

  function WindowLength(th: Thresholds): int {
    th.windowMinutes * 60 * 1000
  }

  // ----- Answer quality of one round -----

  /** Results of other types than A only speak through an explicit verdict. */
  predicate Speaks(r: Result, round: nat) {
    r.round == round && (r.subject.recordType == "A" || 0 < r.effective)
  }

  /** Unknown ranks above clean and matched here. */
  function Severity(effective: nat): nat {
    match effective
    case 4 => 5
    case 3 => 4
    case 0 => 3
    case 2 => 2
    case 1 => 1
    case _ => 3
  }

  function QualityOf(severity: nat): nat {
    match severity
    case 5 => POLLUTED
    case 4 => SUSPICIOUS
    case 2 => CLEAN
    case 1 => MATCHED
    case _ => UNKNOWN
  }

  /** SELECT COALESCE(MAX(severity),0) FROM results WHERE round_id=round AND (type='A' OR effective_pollution>0) */
  function WorstSeverity(results: seq<Result>, round: nat): nat {
    if |results| == 0 then 0
    else
      var m := WorstSeverity(results[..|results| - 1], round);
      var last := results[|results| - 1];
      if Speaks(last, round) then Max(m, Severity(last.effective)) else m
  }

  ghost predicate SomeSpeaks(results: seq<Result>, round: nat, severity: nat) {
    exists r :: r in results && Speaks(r, round) && Severity(r.effective) == severity
  }

  lemma {:induction false} WorstIsReached(results: seq<Result>, round: nat)
    ensures var m := WorstSeverity(results, round);
      && m <= 5
      && (m == 0 <==> forall r :: r in results ==> !Speaks(r, round))
      && (m > 0 ==> SomeSpeaks(results, round, m))
      && (forall r :: r in results && Speaks(r, round) ==> Severity(r.effective) <= m)
  {
    if |results| > 0 {
      var n := |results| - 1;
      WorstIsReached(results[..n], round);
      assert forall r :: r in results <==> r in results[..n] || r == results[n];
      var m := WorstSeverity(results[..n], round);
      if SomeSpeaks(results[..n], round, m) {
        var r :| r in results[..n] && Speaks(r, round) && Severity(r.effective) == m;
        assert SomeSpeaks(results, round, m);
      }
      if Speaks(results[n], round) {
        assert SomeSpeaks(results, round, Severity(results[n].effective));
      }
    }
  }

  lemma QualityOfSpeaking(results: seq<Result>, round: nat)
    requires forall r :: r in results ==> r.effective <= POLLUTED
    ensures var q := QualityOf(WorstSeverity(results, round));
      && (q == POLLUTED <==> exists r :: r in results && Speaks(r, round) && r.effective == POLLUTED)
      && (q in {POLLUTED, SUSPICIOUS} <==> exists r :: r in results && Speaks(r, round) && r.effective >= SUSPICIOUS)
      && (q in {CLEAN, MATCHED} <==> (exists r :: r in results && Speaks(r, round))
                                     && forall r :: r in results && Speaks(r, round) ==> r.effective in {CLEAN, MATCHED})
      && (q == MATCHED <==> (exists r :: r in results && Speaks(r, round))
                            && forall r :: r in results && Speaks(r, round) ==> r.effective == MATCHED)
  {
    hide WorstSeverity, Speaks;
    WorstIsReached(results, round);
    var m := WorstSeverity(results, round);
    if m > 0 {
      var r :| r in results && Speaks(r, round) && Severity(r.effective) == m;
    }
  }

  /** A result speaks for its round if it is about addresses or has any verdict. */
  ghost function Speaking(results: seq<Result>, round: nat): set<Result> {
    set r | r in results && r.round == round && (r.subject.recordType == "A" || 0 < r.effective)
  }

  /** The quality of a round: polluted or suspicious if any answer is; otherwise clean or matched only if every
      answer that speaks is known, and at least one speaks. Codes: 1 matched, 2 clean, 3 suspicious, 4 polluted. */
  lemma QualityMeaning(results: seq<Result>, round: nat)
    requires forall r :: r in results ==> r.effective <= 4
    ensures var q, ss := QualityOf(WorstSeverity(results, round)), Speaking(results, round);
      && (q == 4 <==> exists r :: r in ss && r.effective == 4)
      && (q == 3 <==> (exists r :: r in ss && r.effective == 3) && forall r :: r in ss ==> r.effective != 4)
      && (q == 2 <==> (exists r :: r in ss && r.effective == 2) && forall r :: r in ss ==> r.effective in {1, 2})
      && (q == 1 <==> ss != {} && forall r :: r in ss ==> r.effective == 1)
      && (q == 0 <==> ss == {} || ((exists r :: r in ss && r.effective == 0) && forall r :: r in ss ==> r.effective < 3))
  {
    hide WorstSeverity;
    assert forall r :: r in Speaking(results, round) <==> r in results && Speaks(r, round);
    QualityOfSpeaking(results, round);
    QualityIsCode(results, round);
  }

  lemma QualityIsCode(results: seq<Result>, round: nat)
    ensures QualityOf(WorstSeverity(results, round)) <= 4
  {
    hide WorstSeverity;
  }

  /** When there is an evaluation at all. */
  lemma ValidMeaning(th: Thresholds, now: int)
    ensures Valid(th, now) <==>
      1 <= now && 1 <= th.windowMinutes && 1 <= th.minSamples && 0 <= th.minCoverageMinutes && th.minCoverageMinutes <= th.windowMinutes
  {
  }

  // ----- The grade -----

  /** The report that follows from the window's sums, the quality of the latest round in the window, and whether the
      latest formal round on record had no success at all. */
  function ReportFor(t: E.Tally, received: nat, quality: nat, down: bool, trusted: bool,
                     th: Thresholds, p95: int): Report
  {
    var preset := if t.covered == 0 && 0 < t.samples then R.Percent(received as real, t.samples as real) else 0.0;
    var minCoverage := th.minCoverageMinutes * 60000;
    var m := R.Finish(t.(pollution := quality), p95, WindowLength(th), th.minSamples, minCoverage, th.weights, preset);
    var plain := Report(m, quality, Graded(m.grade), m.score, None);
    if down then
      plain.(grade := Unavailable, score := 0.0)
    else if SUSPICIOUS <= quality then plain
    else if t.samples == 0 then plain.(grade := Graded(R.Pending), pending := Some(NoSamples))
    else if !trusted && quality == UNKNOWN then plain.(grade := Graded(R.Pending), pending := Some(QualityUnknown))
    else if t.samples < th.minSamples then plain.(pending := Some(FewSamples))
    else if t.covered < minCoverage then plain.(pending := Some(LittleCoverage))
    else plain
  }

  /** Every grade, by what it takes to get it; a pending grade always comes with its reason, and no other does. */
  lemma GradeMeaning(t: E.Tally, received: nat, quality: nat, down: bool, trusted: bool, th: Thresholds, p95: int)
    requires 0 < th.minSamples && quality <= POLLUTED
    ensures var e := ReportFor(t, received, quality, down, trusted, th, p95);
      var warm := th.minSamples <= t.samples && th.minCoverageMinutes * 60000 <= t.covered;
      && (e.grade == Unavailable <==> down)
      && (e.grade == Graded(R.F) <==> !down && quality == POLLUTED)
      && (e.grade == Graded(R.E) <==> !down && quality == SUSPICIOUS)
      && (e.grade == Graded(R.Pending) <==> e.pending.Some?)
      && (e.pending.Some? <==> !down && quality < SUSPICIOUS && !(warm && (trusted || quality != UNKNOWN)))
      && (e.grade in {Graded(R.A), Graded(R.B), Graded(R.C), Graded(R.D)} <==>
            !down && quality < SUSPICIOUS && warm && (trusted || quality != UNKNOWN))
      && (e.grade == Graded(R.A) ==> 95.0 <= e.score)
      && (e.grade == Graded(R.B) ==> 85.0 <= e.score < 95.0)
      && (e.grade == Graded(R.C) ==> 70.0 <= e.score < 85.0)
      && (e.grade == Graded(R.D) ==> e.score < 70.0)
      && (e.grade in {Unavailable, Graded(R.F)} ==> e.score == 0.0)
  {
    hide R.Percent, R.Clamp100;
  }

  // ----- The query -----

  predicate IsDown(latest: Option<Round>) {
    latest.Some? && 0 < latest.value.agg.samples && latest.value.agg.successes == 0
  }

  ghost function LatestUntil(rs: seq<Round>, server: nat, until: int): Option<Round>
    requires OrderedIds(rs)
  {
    var p := LastIndex(rs, server, until);
    if p == -1 then None else Some(rs[p])
  }

  /** Trust exempts a server from verdicts; otherwise the latest round of the window decides. */
  ghost function QualityAt(rs: seq<Round>, results: seq<Result>, server: nat, trusted: bool, since: int, now: int): nat
    requires OrderedIds(rs)
  {
    var latest := LatestUntil(rs, server, now);
    if trusted then MATCHED
    else if latest.Some? && since <= latest.value.finished then QualityOf(WorstSeverity(results, latest.value.id))
    else UNKNOWN
  }

  method QueryWorstSeverity(results: seq<Result>, round: nat) returns (severity: nat)
    ensures severity == WorstSeverity(results, round)
  {
    severity := 0;
    for i := 0 to |results|
      invariant severity == WorstSeverity(results[..i], round)
    {
      assert results[..i + 1][..i] == results[..i];
      if Speaks(results[i], round) && severity < Severity(results[i].effective) {
        severity := Severity(results[i].effective);
      }
    }
    assert results[..|results|] == results;
  }

  /** The evaluation of a server at a given time. */
  ghost function CurrentReport(rs: seq<Round>, results: seq<Result>, server: nat, trusted: bool, th: Thresholds, now: int): Report
    requires OrderedIds(rs)
  {
    var since := now - WindowLength(th);
    var w := E.Window(since, now);
    var t := E.TallyOf(rs, server, w);
    ReportFor(E.Unjudged(t), E.ReceivedIn(rs, server, w), QualityAt(rs, results, server, trusted, since, now),
              IsDown(LatestUntil(rs, server, now)), trusted, th, R.P95(t.histogram))
  }

  method EvaluateCurrent(rs: seq<Round>, results: seq<Result>, server: nat, trusted: bool, th: Thresholds, now: int)
    returns (report: Option<Report>)
    requires Consistent(rs) && E.Sane(rs)
    ensures report == if Valid(th, now) then Some(CurrentReport(rs, results, server, trusted, th, now)) else None
  {
    hide LastIndex, WorstSeverity, E.TallyOf, ReportFor, R.P95;
    if !Valid(th, now) {
      return None;
    }
    var since := now - WindowLength(th);
    var t, received := E.CurrentSums(rs, server, since, now);
    var p := QueryLastIndex(rs, server, now);
    var down := p != -1 && 0 < rs[p].agg.samples && rs[p].agg.successes == 0;
    var quality := UNKNOWN;
    if trusted {
      quality := MATCHED;
    } else if p != -1 && since <= rs[p].finished {
      var severity := QueryWorstSeverity(results, rs[p].id);
      quality := QualityOf(severity);
    }
    var p95 := R.Percentile(t.histogram);
    return Some(ReportFor(t, received, quality, down, trusted, th, p95));
  }

  /** The last formal round of a server that has finished by `now`. */
  ghost predicate IsLast(rs: seq<Round>, server: nat, now: int, q: Round) {
    && q in rs && !q.auxiliary && q.server == server && q.finished <= now
    && forall x :: x in rs && !x.auxiliary && x.server == server && x.finished <= now ==>
         x.finished < q.finished || (x.finished == q.finished && x.id <= q.id)
  }

  ghost predicate HasLast(rs: seq<Round>, server: nat, now: int) {
    exists q :: q in rs && !q.auxiliary && q.server == server && q.finished <= now
  }

  lemma LatestIsLast(rs: seq<Round>, server: nat, now: int)
    requires OrderedIds(rs)
    ensures forall q :: IsLast(rs, server, now, q) <==> LatestUntil(rs, server, now) == Some(q)
    ensures HasLast(rs, server, now) <==> LatestUntil(rs, server, now).Some?
  {
    var p := LastIndex(rs, server, now);
    hide LastIndex;
    if p != -1 {
      assert IsLast(rs, server, now, rs[p]);
      forall q | IsLast(rs, server, now, q) ensures q == rs[p] {
        var i :| 0 <= i < |rs| && rs[i] == q;
      }
    }
  }

  /** A server is down when its last formal round brought results and no success. The quality is that of this round if it
      finished in the window, unless the server is trusted. */
  lemma LatestDecides(rs: seq<Round>, results: seq<Result>, server: nat, trusted: bool, since: int, now: int)
    requires OrderedIds(rs)
    ensures IsDown(LatestUntil(rs, server, now)) <==> exists q :: IsLast(rs, server, now, q) && 0 < q.agg.samples && q.agg.successes == 0
    ensures var quality := QualityAt(rs, results, server, trusted, since, now);
      && (trusted ==> quality == 1)
      && (!trusted ==> forall q :: IsLast(rs, server, now, q) ==>
            quality == if since <= q.finished then QualityOf(WorstSeverity(results, q.id)) else 0)
      && (!trusted && !HasLast(rs, server, now) ==> quality == 0)
  {
    LatestIsLast(rs, server, now);
    hide LatestUntil, IsLast, HasLast, WorstSeverity;
  }

  /** What the current evaluation says of the last `windowMinutes` minutes; the score is the weighted sum of its figures
      unless the server is unavailable or polluted. */
  lemma ReportMeaning(rs: seq<Round>, results: seq<Result>, server: nat, trusted: bool, th: Thresholds, now: int)
    requires OrderedIds(rs)
    ensures var e, since := CurrentReport(rs, results, server, trusted, th, now), now - th.windowMinutes * 60000;
      && (e.grade == Unavailable <==> exists q :: IsLast(rs, server, now, q) && 0 < q.agg.samples && q.agg.successes == 0)
      && (trusted ==> e.quality == 1)
      && (!trusted ==> forall q :: IsLast(rs, server, now, q) ==>
            e.quality == if since <= q.finished then QualityOf(WorstSeverity(results, q.id)) else 0)
      && (!trusted && !HasLast(rs, server, now) ==> e.quality == 0)
      && e.score == (if e.grade == Unavailable || e.quality == 4 then 0.0 else Weighted(th.weights, e.metrics))
    ensures var e, since := CurrentReport(rs, results, server, trusted, th, now), now - th.windowMinutes * 60000;
      var w := E.Span(since, now + 1, since, now);
      var t, received := E.TallyOf(rs, server, w), E.ReceivedIn(rs, server, w);
      && (0 < t.covered ==> e.metrics.availability * t.covered as real == 100.0 * t.available)
      && (t.covered == 0 && 0 < t.samples ==> e.metrics.availability * t.samples as real == 100.0 * received as real)
      && (0 < t.samples ==> e.metrics.successRate * t.samples as real == 100.0 * t.successes as real)
      && (0 < th.windowMinutes && t.covered <= th.windowMinutes * 60000 ==>
            e.metrics.coverage * (th.windowMinutes * 60000) as real == 100.0 * t.covered as real)
  {
    hide *;
    var since := now - th.windowMinutes * 60000;
    var w := E.Span(since, now + 1, since, now);
    var t, received := E.TallyOf(rs, server, w), E.ReceivedIn(rs, server, w);
    var quality := QualityAt(rs, results, server, trusted, since, now);
    var down, p95 := IsDown(LatestUntil(rs, server, now)), R.P95(t.histogram);
    ReportIs(rs, results, server, trusted, th, now, w);
    LatestDecides(rs, results, server, trusted, since, now);
    ReportPercentages(t, received, quality, down, trusted, th, p95);
    GradeIsDown(E.Unjudged(t), received, quality, down, trusted, th, p95);
  }

  lemma ReportIs(rs: seq<Round>, results: seq<Result>, server: nat, trusted: bool, th: Thresholds, now: int, w: E.Span)
    requires OrderedIds(rs) && w == E.Span(now - th.windowMinutes * 60000, now + 1, now - th.windowMinutes * 60000, now)
    ensures var t := E.TallyOf(rs, server, w);
      CurrentReport(rs, results, server, trusted, th, now)
      == ReportFor(E.Unjudged(t), E.ReceivedIn(rs, server, w), QualityAt(rs, results, server, trusted, w.lo, now),
                   IsDown(LatestUntil(rs, server, now)), trusted, th, R.P95(t.histogram))
  {
    hide E.TallyOf, E.ReceivedIn, QualityAt, IsDown, LatestUntil, ReportFor, R.P95;
  }

  lemma ReportPercentages(t: E.Tally, received: nat, quality: nat, down: bool, trusted: bool, th: Thresholds, p95: int)
    ensures var e := ReportFor(E.Unjudged(t), received, quality, down, trusted, th, p95);
      && (0 < t.covered ==> e.metrics.availability * t.covered as real == 100.0 * t.available)
      && (t.covered == 0 && 0 < t.samples ==> e.metrics.availability * t.samples as real == 100.0 * received as real)
      && (0 < t.samples ==> e.metrics.successRate * t.samples as real == 100.0 * t.successes as real)
      && (0 < th.windowMinutes && t.covered <= th.windowMinutes * 60000 ==>
            e.metrics.coverage * (th.windowMinutes * 60000) as real == 100.0 * t.covered as real)
  {
    hide R.Finish, R.Percent;
    var preset := if t.covered == 0 && 0 < t.samples then R.Percent(received as real, t.samples as real) else 0.0;
    if t.covered == 0 && 0 < t.samples { R.PercentMeans(received as real, t.samples as real); }
    R.PercentagesMean(t.(pollution := quality), p95, WindowLength(th), th.minSamples, th.minCoverageMinutes * 60000, th.weights, preset);
  }

  lemma GradeIsDown(t: E.Tally, received: nat, quality: nat, down: bool, trusted: bool, th: Thresholds, p95: int)
    ensures var e := ReportFor(t, received, quality, down, trusted, th, p95);
      && e.quality == quality && (e.grade == Unavailable <==> down)
      && e.score == if down || quality == 4 then 0.0 else Weighted(th.weights, e.metrics)
  {
    hide R.Finish, R.Percent;
    var preset := if t.covered == 0 && 0 < t.samples then R.Percent(received as real, t.samples as real) else 0.0;
    R.ScoreIs(t.(pollution := quality), p95, WindowLength(th), th.minSamples, th.minCoverageMinutes * 60000, th.weights, preset);
  }

  function Weighted(w: R.Weights, m: R.Metrics): real {
    w.availability * m.availability + w.successRate * m.successRate + w.latency * m.latencyScore
  }

  /** For every consistent table the reported percentages are percentages and the score is at most 100 times the weights,
      also when nothing is covered yet. */
  lemma ReportFits(rs: seq<Round>, results: seq<Result>, server: nat, trusted: bool, th: Thresholds, now: int)
    requires Consistent(rs) && E.Sane(rs) && Valid(th, now)
    requires 0.0 <= th.weights.availability && 0.0 <= th.weights.successRate && 0.0 <= th.weights.latency
    ensures var e := CurrentReport(rs, results, server, trusted, th, now);
      && 0.0 <= e.metrics.availability <= 100.0
      && 0.0 <= e.metrics.successRate <= 100.0
      && 0.0 <= e.metrics.coverage <= 100.0
      && 0.0 <= e.score <= 100.0 * (th.weights.availability + th.weights.successRate + th.weights.latency)
  {
    var length := WindowLength(th);
    var w := E.Window(now - length, now);
    var t, received := E.Unjudged(E.TallyOf(rs, server, w)), E.ReceivedIn(rs, server, w);
    E.WindowIsMeaningful(rs, server, now - length, now);
    E.ReceivedFits(rs, server, w);
    assert R.Meaningful(t, length) && received <= t.samples;
    hide E.TallyOf, E.ReceivedIn, Consistent, E.Sane, ReportFor, R.P95, QualityAt, LastIndex, IsDown, R.Meaningful;
    ReportIsBounded(t, received, QualityAt(rs, results, server, trusted, now - length, now), IsDown(LatestUntil(rs, server, now)),
                    trusted, th, R.P95(t.histogram));
  }

  lemma ReportIsBounded(t: E.Tally, received: nat, quality: nat, down: bool, trusted: bool, th: Thresholds, p95: int)
    requires R.Meaningful(t, WindowLength(th)) && received <= t.samples
    requires 0.0 <= th.weights.availability && 0.0 <= th.weights.successRate && 0.0 <= th.weights.latency
    ensures var e := ReportFor(t, received, quality, down, trusted, th, p95);
      && 0.0 <= e.metrics.availability <= 100.0
      && 0.0 <= e.metrics.successRate <= 100.0
      && 0.0 <= e.metrics.coverage <= 100.0
      && 0.0 <= e.score <= 100.0 * (th.weights.availability + th.weights.successRate + th.weights.latency)
  {
    hide R.Finish, R.Percent, R.Meaningful;
    var length := WindowLength(th);
    var preset := if t.covered == 0 && 0 < t.samples then R.Percent(received as real, t.samples as real) else 0.0;
    if t.covered == 0 && 0 < t.samples {
      R.PercentFits(received as real, t.samples as real);
    }
    var judged := t.(pollution := quality);
    assert R.Meaningful(judged, length) by { JudgedIsMeaningful(t, quality, length); }
    R.PercentagesFit(judged, p95, length, th.minSamples, th.minCoverageMinutes * 60000, th.weights, preset);
    R.ScoreFits(judged, p95, length, th.minSamples, th.minCoverageMinutes * 60000, th.weights, preset);
    WeightsFit(th.weights);
  }

  lemma JudgedIsMeaningful(t: E.Tally, quality: nat, length: int)
    requires R.Meaningful(t, length)
    ensures R.Meaningful(t.(pollution := quality), length)
  {
  }

  lemma WeightsFit(w: R.Weights)
    requires 0.0 <= w.availability && 0.0 <= w.successRate && 0.0 <= w.latency
    ensures 0.0 <= 100.0 * (w.availability + w.successRate + w.latency)
  {
  }

  // ----- Later rounds -----

  lemma {:induction false} TallyWithReplaced(rs: seq<Round>, p: nat, q: Round, server: nat, w: E.Span)
    requires p < |rs| && q.auxiliary == rs[p].auxiliary && q.server == rs[p].server
    requires forall t :: E.PlusRow(t, q, w) == E.PlusRow(t, rs[p], w)
    ensures E.TallyOf(rs[p := q], server, w) == E.TallyOf(rs, server, w)
    decreases |rs|
  {
    hide E.PlusRow;
    var n := |rs| - 1;
    if p == n {
      assert rs[p := q][..n] == rs[..n];
    } else {
      TallyWithReplaced(rs[..n], p, q, server, w);
      assert rs[p := q][..n] == rs[..n][p := q];
    }
  }

  lemma {:induction false} CoveredWithReplaced(rs: seq<Round>, p: nat, q: Round, server: nat, w: E.Span)
    requires p < |rs| && q.auxiliary == rs[p].auxiliary && q.server == rs[p].server && Formal(q, server)
    ensures E.TallyOf(rs[p := q], server, w).covered - E.TallyOf(rs, server, w).covered
         == E.Overlap(q, w.lo, w.hi) - E.Overlap(rs[p], w.lo, w.hi)
    decreases |rs|
  {
    hide E.TallyOf, E.Overlap;
    var n := |rs| - 1;
    E.CoverageStep(rs, server, w);
    E.CoverageStep(rs[p := q], server, w);
    if p == n {
      assert rs[p := q][..n] == rs[..n];
    } else {
      CoveredWithReplaced(rs[..n], p, q, server, w);
      assert rs[p := q][..n] == rs[..n][p := q];
    }
  }

  /** As far as a window that ends now can tell, the round covers all the time until its deadline. */
  predicate CoversAllItCan(q: Round, since: int, now: int) {
    E.Overlap(q, since, now) == E.Overlap(q.(coveredUntil := q.nextDue), since, now)
  }

  lemma ReclippedLater(q: Round, finished: int, since: int, now: int)
    requires now < finished
    ensures E.Overlap(Reclipped(q, finished), since, now) == E.Overlap(q.(coveredUntil := q.nextDue), since, now)
    ensures E.Ratio(Reclipped(q, finished)) == E.Ratio(q)
    ensures Reclipped(q, finished) == q.(coveredUntil := Reclipped(q, finished).coveredUntil)
  {
  }

  lemma SameOverlapSameRow(t: E.Tally, q: Round, r: Round, since: int, now: int)
    requires r == q.(coveredUntil := r.coveredUntil) && E.Overlap(q, since, now) == E.Overlap(r, since, now)
    ensures E.PlusRow(t, r, E.Window(since, now)) == E.PlusRow(t, q, E.Window(since, now))
  {
    assert E.Ratio(r) == E.Ratio(q);
    hide E.Overlap, E.Ratio;
  }

  /** At a moment at which no round of the server finished, a round that finishes later leaves what the window up to that
      moment adds up to exactly when the round it follows was not cut short before. */
  lemma LaterRoundLeaksIff(rs: seq<Round>, v: Probe, since: int, now: int)
    requires Consistent(rs) && ValidProbe(v) && !v.auxiliary && since < now < v.finished
    ensures var p := LastIndex(rs, v.server, v.finished);
      var w := E.Window(since, now);
      E.TallyOf(Inserted(rs, v), v.server, w) == E.TallyOf(rs, v.server, w) <==> p == -1 || CoversAllItCan(rs[p], since, now)
  {
    hide LeastFrom, LastIndex, MinFinished, Consistent, E.PlusRow, E.Overlap, Reclipped, E.TallyOf;
    assert OrderedIds(rs) by { OrderOf(rs); }
    var w := E.Window(since, now);
    var p := LastIndex(rs, v.server, v.finished);
    if p == -1 {
      NewRoundAddsNothing(rs, rs, v, v.server, since, now);
    } else {
      var q := Reclipped(rs[p], v.finished);
      ReclippedLater(rs[p], v.finished, since, now);
      NewRoundAddsNothing(rs, rs[p := q], v, v.server, since, now);
      CoveredWithReplaced(rs, p, q, v.server, w);
      if CoversAllItCan(rs[p], since, now) {
        forall t ensures E.PlusRow(t, q, w) == E.PlusRow(t, rs[p], w) {
          SameOverlapSameRow(t, rs[p], q, since, now);
        }
        TallyWithReplaced(rs, p, q, v.server, w);
      }
    }
  }

  lemma NewRoundAddsNothing(rs: seq<Round>, was: seq<Round>, v: Probe, server: nat, since: int, now: int)
    requires OrderedIds(rs) && since < now < v.finished && Inserted(rs, v) == was + [NewRound(rs, v)]
    ensures E.TallyOf(Inserted(rs, v), server, E.Window(since, now)) == E.TallyOf(was, server, E.Window(since, now))
  {
    hide LeastFrom, LastIndex, MinFinished, E.PlusRow, Inserted;
    var w := E.Window(since, now);
    var added := NewRound(rs, v);
    assert (was + [added])[..|was|] == was;
    E.UntouchedAddsNothing(E.TallyOf(was, server, w), added, since, now);
  }

  lemma OrderOf(rs: seq<Round>)
    requires Consistent(rs)
    ensures OrderedIds(rs)
  {
  }
}
