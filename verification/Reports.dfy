/**
 From stored results to reported figures: what the statistics over a window say about the results in the
 database, in every database a run can reach.
 */
module Reports {
  import opened Tables
  import opened Timeline
  import opened Evidence
  import D = Database
  import E = Evaluation
  import H = History
  import R = Rating

  /** Every reachable table of rounds is one the statistics can rely on. */
  lemma ReachableIsSane(es: seq<D.Event>)
    ensures Consistent(D.RunAll(es).rounds) && E.Sane(D.RunAll(es).rounds)
  {
    D.EveryRunIsRecomputable(es);
    hide D.RunAll;
    assert forall q :: q in D.RunAll(es).rounds ==> D.Recomputable(D.RunAll(es), q);
  }

  /** The figures of a server over a span of a given length: a trusted server is exempt from verdicts. */
  ghost function FiguresFor(t: E.Tally, trusted: bool, length: int, w: R.Weights): R.Metrics {
    R.Finish(R.Exempt(t, trusted), R.P95(t.histogram), length, 10, 30 * 60 * 1000, w)
  }

  ghost predicate Fits(m: R.Metrics, w: R.Weights) {
    && 0.0 <= m.availability <= 100.0
    && 0.0 <= m.successRate <= 100.0
    && 0.0 <= m.coverage <= 100.0
    && 0.0 <= m.latencyScore <= 100.0
    && 0.0 <= m.score <= 100.0 * (w.availability + w.successRate + w.latency)
  }

  lemma FiguresFit(t: E.Tally, trusted: bool, length: int, w: R.Weights)
    requires R.Meaningful(t, length)
    requires 0.0 <= w.availability && 0.0 <= w.successRate && 0.0 <= w.latency
    ensures Fits(FiguresFor(t, trusted, length, w), w)
    ensures FiguresFor(t, trusted, length, w).coverage == R.Percent(t.covered as real, length as real)
  {
    var x, p95 := R.Exempt(t, trusted), R.P95(t.histogram);
    hide R.Finish, R.P95, R.Percent;
    R.PercentagesFit(x, p95, length, 10, 30 * 60 * 1000, w, 0.0);
    R.ScoreFits(x, p95, length, 10, 30 * 60 * 1000, w, 0.0);
  }

  /** In every reachable database the summary's figures are within their bounds, the coverage clamp never acts. */
  lemma SummaryFits(es: seq<D.Event>, server: nat, trusted: bool, since: int, now: int, w: R.Weights)
    requires since < now && 0.0 <= w.availability && 0.0 <= w.successRate && 0.0 <= w.latency
    ensures var t := E.TallyOf(D.RunAll(es).rounds, server, E.Window(since, now));
            && 0 <= t.covered <= now - since && 0.0 <= t.available <= t.covered as real
            && Fits(FiguresFor(t, trusted, now - since, w), w)
  {
    ReachableIsSane(es);
    var rs := D.RunAll(es).rounds;
    hide D.RunAll, E.TallyOf, FiguresFor, Fits, Consistent, E.Sane;
    E.WindowIsMeaningful(rs, server, since, now);
    FiguresFit(E.TallyOf(rs, server, E.Window(since, now)), trusted, now - since, w);
  }

  lemma PointFits(rs: seq<Round>, server: nat, trusted: bool, since: int, now: int, step: int, count: int, i: int, w: R.Weights)
    requires Consistent(rs) && E.Sane(rs) && since < now && H.Tiled(since, now, step, count) && 0 <= i < count
    requires 0.0 <= w.availability && 0.0 <= w.successRate && 0.0 <= w.latency
    ensures var t := E.TallyOf(rs, server, H.PointSpan(since, now, step, count, i));
      Fits(FiguresFor(t, trusted, Min(step, now - H.Start(since, step, i)), w), w)
  {
    H.PointsAreInside(since, now, step, count, i);
    var span, length := H.PointSpan(since, now, step, count, i), Min(step, now - H.Start(since, step, i));
    assert 0 < length;
    hide E.TallyOf, FiguresFor, Fits, Consistent, E.Sane, H.PointSpan, H.Start, H.Tiled;
    H.PointFitsItsLength(rs, server, since, now, step, count, i);
    E.HistogramMatchesCount(rs, server, span);
    FiguresFit(E.TallyOf(rs, server, span), trusted, length, w);
  }

  /** So are the figures of every point of the chart, over the point's own length. */
  lemma ChartFits(es: seq<D.Event>, server: nat, trusted: bool, since: int, now: int, requested: int, i: int, w: R.Weights)
    requires since < now && 0.0 <= w.availability && 0.0 <= w.successRate && 0.0 <= w.latency
    requires var step := H.StepFor(since, now, requested);
      0 < step && 0 <= i < H.PointCount(since, now, step)
    ensures var step := H.StepFor(since, now, requested);
      var t := E.TallyOf(D.RunAll(es).rounds, server, H.PointSpan(since, now, step, H.PointCount(since, now, step), i));
      Fits(FiguresFor(t, trusted, Min(step, now - H.Start(since, step, i)), w), w)
  {
    ReachableIsSane(es);
    H.PointsTile(since, now, requested);
    var step := H.StepFor(since, now, requested);
    var rs, count := D.RunAll(es).rounds, H.PointCount(since, now, step);
    hide *;
    PointFits(rs, server, trusted, since, now, step, count, i, w);
  }

  /** Trusting a server removes any convicting grade and restores the score its sums deserve. */
  lemma TrustRestoresScore(t: E.Tally, length: int, w: R.Weights)
    ensures var m, plain := FiguresFor(t, true, length, w), FiguresFor(t, false, length, w);
      && m.grade != R.E && m.grade != R.F
      && m.score == w.availability * m.availability + w.successRate * m.successRate + w.latency * m.latencyScore
      && m.(grade := plain.grade, score := plain.score) == plain
      && (t.pollution < SUSPICIOUS ==> m == plain)
  {
    hide R.Finish, R.P95, R.Percent;
    var p95 := R.P95(t.histogram);
    R.ScoreIs(R.Exempt(t, true), p95, length, 10, 30 * 60 * 1000, w, 0.0);
    SamePercentages(t, p95, length, w);
    TrustedIsNotConvicted(t, p95, length, w);
    if t.pollution < SUSPICIOUS { UnconvictedUnchanged(t, p95, length, w); }
  }

  lemma TrustedIsNotConvicted(t: E.Tally, p95: int, length: int, w: R.Weights)
    ensures R.Finish(R.Exempt(t, true), p95, length, 10, 30 * 60 * 1000, w).grade !in {R.E, R.F}
  {
    hide R.Percent, R.Clamp100;
  }

  lemma UnconvictedUnchanged(t: E.Tally, p95: int, length: int, w: R.Weights)
    requires t.pollution < SUSPICIOUS
    ensures R.Finish(R.Exempt(t, true), p95, length, 10, 30 * 60 * 1000, w) == R.Finish(t, p95, length, 10, 30 * 60 * 1000, w)
  {
    SamePercentages(t, p95, length, w);
    R.ScoreIs(R.Exempt(t, true), p95, length, 10, 30 * 60 * 1000, w, 0.0);
    R.ScoreIs(t, p95, length, 10, 30 * 60 * 1000, w, 0.0);
    hide R.Percent, R.Clamp100;
  }

  lemma SamePercentages(t: E.Tally, p95: int, length: int, w: R.Weights)
    ensures var m, plain := R.Finish(R.Exempt(t, true), p95, length, 10, 30 * 60 * 1000, w), R.Finish(t, p95, length, 10, 30 * 60 * 1000, w);
      && m.availability == plain.availability && m.coverage == plain.coverage && m.successRate == plain.successRate
      && m.latencyScore == plain.latencyScore
  {
    hide R.Percent, R.Clamp100;
  }

  /** What the summary says of a server: a grade beyond pending takes 10 results and 30 minutes of coverage, and a trusted
      server is never graded for its answers. */
  lemma SummaryMeaning(t: E.Tally, trusted: bool, length: int, w: R.Weights)
    ensures var m := FiguresFor(t, trusted, length, w);
      var warm, convicted := 10 <= t.samples && 1800000 <= t.covered, !trusted && t.pollution in {3, 4};
      && (m.grade == R.F <==> !trusted && t.pollution == 4) && (m.grade == R.E <==> !trusted && t.pollution == 3)
      && (m.grade == R.Pending <==> !convicted && !warm)
      && (m.grade in {R.A, R.B, R.C, R.D} <==> !convicted && warm)
      && (0 < t.covered ==> m.availability * t.covered as real == 100.0 * t.available)
      && (0 < t.samples ==> m.successRate * t.samples as real == 100.0 * t.successes as real)
  {
    hide R.Finish, R.P95;
    R.GradesMean(R.Exempt(t, trusted), R.P95(t.histogram), length, 10, 30 * 60 * 1000, w, 0.0);
    R.PercentagesMean(R.Exempt(t, trusted), R.P95(t.histogram), length, 10, 30 * 60 * 1000, w, 0.0);
  }

  // ----- The latencies behind a histogram -----

  /** The rounds whose counts the span takes in. */
  function CountedIds(rounds: seq<Round>, server: nat, w: E.Span): set<nat> {
    set q | q in rounds && Formal(q, server) && E.Counts(q, w) :: q.id
  }

  /** The latencies of the successful results of some rounds. */
  function Samples(rs: seq<Result>, ids: set<nat>): multiset<real> {
    if |rs| == 0 then multiset{}
    else
      var last := rs[|rs| - 1];
      Samples(rs[..|rs| - 1], ids) + if last.round in ids && Timed(last) then multiset{last.latency} else multiset{}
  }

  /** The same results, by bucket. */
  function BucketsOf(rs: seq<Result>, ids: set<nat>): multiset<int> {
    if |rs| == 0 then multiset{}
    else
      var last := rs[|rs| - 1];
      BucketsOf(rs[..|rs| - 1], ids) + if last.round in ids && Timed(last) then multiset{Bucket(last.latency)} else multiset{}
  }

  lemma {:induction false} RoundBuckets(rs: seq<Result>, round: nat)
    ensures Totals(rs, round).histogram == BucketsOf(rs, {round})
  {
    hide Timed, Bucket;
    if |rs| > 0 {
      RoundBuckets(rs[..|rs| - 1], round);
      var a, b := Totals(rs[..|rs| - 1], round).histogram, BucketsOf(rs[..|rs| - 1], {round});
      assert b + multiset{} == b;
    }
  }

  lemma {:induction false} BucketsAdd(rs: seq<Result>, ids: set<nat>, id: nat)
    requires id !in ids
    ensures BucketsOf(rs, ids + {id}) == BucketsOf(rs, ids) + BucketsOf(rs, {id})
  {
    hide Timed, Bucket;
    if |rs| > 0 {
      BucketsAdd(rs[..|rs| - 1], ids, id);
    }
  }

  lemma {:induction false} NoBuckets(rs: seq<Result>)
    ensures BucketsOf(rs, {}) == multiset{}
  {
    if |rs| > 0 { NoBuckets(rs[..|rs| - 1]); }
  }

  /** A window's histogram holds the buckets of exactly the latencies counted in it. */
  lemma {:induction false} WindowBuckets(rounds: seq<Round>, results: seq<Result>, server: nat, w: E.Span)
    requires OrderedIds(rounds) && forall q :: q in rounds ==> q.agg == Totals(results, q.id)
    ensures E.TallyOf(rounds, server, w).histogram == BucketsOf(results, CountedIds(rounds, server, w))
  {
    hide E.TallyOf, Totals, BucketsOf, E.Counts;
    E.CountsStep(rounds, server, w);
    if |rounds| == 0 {
      assert CountedIds(rounds, server, w) == {};
      NoBuckets(results);
    } else {
      var n := |rounds| - 1;
      var q := rounds[n];
      assert forall x :: x in rounds <==> x in rounds[..n] || x == q;
      WindowBuckets(rounds[..n], results, server, w);
      var ids := CountedIds(rounds[..n], server, w);
      if Formal(q, server) && E.Counts(q, w) {
        assert CountedIds(rounds, server, w) == ids + {q.id};
        RoundBuckets(results, q.id);
        BucketsAdd(results, ids, q.id);
      } else {
        assert CountedIds(rounds, server, w) == ids;
      }
    }
  }

  lemma InsertSorted(s: seq<real>, x: real) returns (t: seq<real>)
    requires R.Sorted(s)
    ensures R.Sorted(t) && multiset(t) == multiset(s) + multiset{x}
    ensures multiset(R.Buckets(t)) == multiset(R.Buckets(s)) + multiset{Bucket(x)}
  {
    var k := 0;
    while k < |s| && s[k] <= x
      invariant 0 <= k <= |s| && forall i :: 0 <= i < k ==> s[i] <= x
    {
      k := k + 1;
    }
    t := s[..k] + [x] + s[k..];
    assert s == s[..k] + s[k..];
    hide *;
    BucketsOfInserted(s, k, x);
  }

  lemma BucketsOfInserted(s: seq<real>, k: nat, x: real)
    requires k <= |s|
    ensures multiset(R.Buckets(s[..k] + [x] + s[k..])) == multiset(R.Buckets(s)) + multiset{Bucket(x)}
  {
    hide Bucket;
    var b := R.Buckets(s);
    assert b == b[..k] + b[k..];
    assert R.Buckets(s[..k] + [x] + s[k..]) == b[..k] + [Bucket(x)] + b[k..];
  }

  lemma {:induction false} SortedSamples(rs: seq<Result>, ids: set<nat>) returns (sorted: seq<real>)
    ensures R.Sorted(sorted) && multiset(sorted) == Samples(rs, ids)
    ensures multiset(R.Buckets(sorted)) == BucketsOf(rs, ids)
  {
    hide R.Sorted, R.Buckets, Bucket, Timed;
    if |rs| == 0 {
      sorted := [];
      NothingIsSorted();
    } else {
      var last := rs[|rs| - 1];
      sorted := SortedSamples(rs[..|rs| - 1], ids);
      if last.round in ids && Timed(last) {
        sorted := InsertSorted(sorted, last.latency);
      }
    }
  }

  lemma NothingIsSorted()
    ensures R.Sorted([]) && multiset(R.Buckets([])) == multiset{}
  {
  }

  ghost predicate IsRanked(sorted: seq<real>, samples: multiset<real>) {
    R.Sorted(sorted) && multiset(sorted) == samples
  }

  /** The value is the rounded-up latency of the sample of rank ceil(0.95 n). */
  ghost predicate IsP95(p: int, samples: multiset<real>) {
    exists sorted {:trigger IsRanked(sorted, samples)} ::
      && |sorted| > 0 && IsRanked(sorted, samples)
      && p == Bucket(sorted[R.Threshold(|sorted|) - 1])
      && Clamped(sorted[R.Threshold(|sorted|) - 1]) <= p as real < Clamped(sorted[R.Threshold(|sorted|) - 1]) + 1.0
  }

  /** In every reachable database the reported percentile of a window is the rounded-up latency of the result ranked
      ceil(0.95 n) among those counted in it. */
  lemma WindowP95(es: seq<D.Event>, server: nat, w: E.Span)
    ensures var db := D.RunAll(es);
      var h := E.TallyOf(db.rounds, server, w).histogram;
      |h| > 0 ==> IsP95(R.P95(h), Samples(db.results, CountedIds(db.rounds, server, w)))
  {
    var db := D.RunAll(es);
    ReachableSums(es);
    hide *;
    WindowBuckets(db.rounds, db.results, server, w);
    var sorted := SortedSamples(db.results, CountedIds(db.rounds, server, w));
    BucketCount(sorted);
    if |sorted| > 0 {
      R.P95OfSamples(sorted);
      P95Fits(R.P95(multiset(R.Buckets(sorted))), sorted, Samples(db.results, CountedIds(db.rounds, server, w)));
    }
  }

  lemma P95Fits(p: int, sorted: seq<real>, samples: multiset<real>)
    requires R.Sorted(sorted) && multiset(sorted) == samples && |sorted| > 0
    requires p == Bucket(sorted[R.Threshold(|sorted|) - 1])
    requires Clamped(sorted[R.Threshold(|sorted|) - 1]) <= p as real < Clamped(sorted[R.Threshold(|sorted|) - 1]) + 1.0
    ensures IsP95(p, samples)
  {
    assert IsRanked(sorted, samples);
  }

  lemma ReachableSums(es: seq<D.Event>)
    ensures var db := D.RunAll(es); OrderedIds(db.rounds) && forall q :: q in db.rounds ==> q.agg == Totals(db.results, q.id)
  {
  }

  lemma BucketCount(samples: seq<real>)
    ensures |multiset(R.Buckets(samples))| == |samples|
  {
  }
}
