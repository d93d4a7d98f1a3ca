/**
 Scores from window sums: the 95th percentile read off a histogram of rounded-up latencies, the
 percentages, the weighted score and the grade.
 */
module Rating {
  import opened Tables
  import opened Timeline
  import opened Evidence
  import E = Evaluation

  // ----- The 95th percentile -----

  /** ceil(0.95 * n) */
  function Threshold(n: nat): nat {
    (95 * n + 99) / 100
  }

  ghost predicate Ascending(s: seq<int>) {
    forall i, j :: 0 <= i < j < |s| ==> s[i] <= s[j]
  }

  ghost predicate StrictlyAscending(s: seq<int>) {
    forall i, j :: 0 <= i < j < |s| ==> s[i] < s[j]
  }

  /** How many entries of the histogram fall on the listed keys. */
  function Weight(h: multiset<int>, keys: seq<int>): nat {
    if |keys| == 0 then 0 else Weight(h, keys[..|keys| - 1]) + h[keys[|keys| - 1]]
  }

  function AtMost(s: seq<int>, b: int): nat {
    if |s| == 0 then 0 else AtMost(s[..|s| - 1], b) + if s[|s| - 1] <= b then 1 else 0
  }

  lemma {:induction false} WeightOfOneMore(h: multiset<int>, x: int, keys: seq<int>)
    requires StrictlyAscending(keys)
    ensures Weight(h + multiset{x}, keys) == Weight(h, keys) + if x in keys then 1 else 0
  {
    if |keys| > 0 {
      var n := |keys| - 1;
      WeightOfOneMore(h, x, keys[..n]);
      assert forall k :: k in keys <==> k in keys[..n] || k == keys[n];
      assert keys[n] !in keys[..n];
    }
  }

  /** Cumulating buckets up to b counts the samples that are at most b. */
  lemma {:induction false} WeightCounts(s: seq<int>, keys: seq<int>, b: int)
    requires StrictlyAscending(keys)
    requires forall x :: x in s ==> (x in keys <==> x <= b)
    ensures Weight(multiset(s), keys) == AtMost(s, b)
  {
    if |s| == 0 {
      NoWeight(keys);
    } else {
      var n := |s| - 1;
      assert s[n] in s && forall x :: x in s[..n] ==> x in s;
      WeightCounts(s[..n], keys, b);
      assert s == s[..n] + [s[n]];
      WeightOfOneMore(multiset(s[..n]), s[n], keys);
    }
  }

  lemma {:induction false} NoWeight(keys: seq<int>)
    ensures Weight(multiset{}, keys) == 0
    ensures forall s: seq<int> :: |s| == 0 ==> multiset(s) == multiset{}
  {
    if |keys| > 0 { NoWeight(keys[..|keys| - 1]); }
  }

  lemma {:induction false} RankedAtMost(s: seq<int>, b: int, k: nat)
    requires Ascending(s) && 1 <= k <= |s|
    ensures AtMost(s, b) <= |s|
    ensures k <= AtMost(s, b) <==> s[k - 1] <= b
  {
    var n := |s| - 1;
    AtMostBound(s[..n], b);
    if k <= n {
      RankedAtMost(s[..n], b, k);
    }
    if s[n] <= b {
      AllAtMost(s[..n], b);
    }
  }

  lemma {:induction false} AtMostBound(s: seq<int>, b: int)
    ensures AtMost(s, b) <= |s|
  {
    if |s| > 0 { AtMostBound(s[..|s| - 1], b); }
  }

  lemma {:induction false} AllAtMost(s: seq<int>, b: int)
    requires forall i :: 0 <= i < |s| ==> s[i] <= b
    ensures AtMost(s, b) == |s|
  {
    if |s| > 0 { AllAtMost(s[..|s| - 1], b); }
  }

  /** The rounded-up, clamped latencies behind a histogram. */
  function Buckets(samples: seq<real>): (s: seq<int>)
    ensures |s| == |samples|
    ensures forall i :: 0 <= i < |samples| ==> s[i] == Bucket(samples[i])
  {
    seq(|samples|, i requires 0 <= i < |samples| => Bucket(samples[i]))
  }

  ghost predicate Sorted(samples: seq<real>) {
    forall i, j :: 0 <= i < j < |samples| ==> samples[i] <= samples[j]
  }

  lemma BucketIsCeiling(ms: real)
    ensures Clamped(ms) <= Bucket(ms) as real < Clamped(ms) + 1.0
  {
  }

  lemma BucketsAscend(samples: seq<real>)
    requires Sorted(samples)
    ensures Ascending(Buckets(samples))
  {
    var s := Buckets(samples);
    forall i, j | 0 <= i < j < |s| ensures s[i] <= s[j] {
      BucketIsMonotone(samples[i], samples[j]);
    }
  }

  lemma BucketIsMonotone(a: real, b: real)
    requires a <= b
    ensures Bucket(a) <= Bucket(b)
  {
    assert -Clamped(b) <= -Clamped(a);
  }

  method SortedKeys(h: multiset<int>) returns (keys: seq<int>)
    ensures StrictlyAscending(keys)
    ensures forall x :: x in keys <==> x in h
  {
    keys := [];
    var rest := set x | x in h;
    while rest != {}
      invariant StrictlyAscending(keys)
      invariant forall x, y :: x in keys && y in rest ==> x < y
      invariant forall x :: x in h <==> x in keys || x in rest
      decreases rest
    {
      var least := Least(rest);
      assert forall k :: 0 <= k < |keys| ==> keys[k] in keys;
      keys := keys + [least];
      rest := rest - {least};
    }
  }

  lemma NonEmpty(s: set<int>)
    requires s != {}
    ensures exists x :: x in s
  {
    assert (exists x :: x in s) || s == {};
  }

  method Least(s: set<int>) returns (m: int)
    requires s != {}
    ensures m in s && forall x :: x in s ==> m <= x
  {
    NonEmpty(s);
    m :| m in s;
    var rest := s - {m};
    while rest != {}
      invariant m in s && rest <= s
      invariant forall x :: x in s && x !in rest ==> m <= x
      decreases rest
    {
      NonEmpty(rest);
      var x :| x in rest;
      if x < m {
        m := x;
      }
      rest := rest - {x};
    }
  }

  // ----- What a histogram's percentile is -----

  /** The entry of rank ceil(0.95 n) when the entries are listed in ascending order. */
  ghost predicate IsRankedKey(h: multiset<int>, p: int) {
    exists s {:trigger Ascending(s)} :: Ascending(s) && multiset(s) == h && |s| > 0 && p == s[Threshold(|s|) - 1]
  }

  /** The reported percentile of a histogram; 0 for an empty one. */
  ghost function P95(h: multiset<int>): (p: int)
    ensures |h| > 0 ==> IsRankedKey(h, p)
    ensures |h| == 0 ==> p == 0
  {
    if |h| == 0 then 0
    else
      SomeRankedKey(h);
      var p :| IsRankedKey(h, p);
      p
  }

  lemma SomeRankedKey(h: multiset<int>)
    requires |h| > 0
    ensures exists p :: IsRankedKey(h, p)
  {
    var s := Listed(h);
    assert |multiset(s)| == |s|;
    assert IsRankedKey(h, s[Threshold(|s|) - 1]);
  }

  lemma GreatestOf(h: multiset<int>) returns (m: int)
    requires |h| > 0
    ensures m in h && forall x :: x in h ==> x <= m
    decreases |h|
  {
    assert (exists x :: x in h) || h == multiset{};
    var x :| x in h;
    var rest := h - multiset{x};
    m := x;
    if |rest| > 0 {
      var y := GreatestOf(rest);
      m := Max(x, y);
      forall z | z in h ensures z <= m {
        assert z == x || z in rest;
      }
    } else {
      forall z | z in h ensures z <= m {
        assert z == x || z in rest;
      }
    }
  }

  lemma Listed(h: multiset<int>) returns (s: seq<int>)
    ensures Ascending(s) && multiset(s) == h
    decreases |h|
  {
    if |h| == 0 {
      s := [];
    } else {
      var m := GreatestOf(h);
      var rest := Listed(h - multiset{m});
      s := rest + [m];
      forall i | 0 <= i < |rest| ensures rest[i] <= m {
        assert rest[i] in multiset(rest);
      }
    }
  }

  lemma LastIsGreatest(s: seq<int>, x: int)
    requires Ascending(s) && x in multiset(s)
    ensures |s| > 0 && x <= s[|s| - 1]
  {
    var i :| 0 <= i < |s| && s[i] == x;
  }

  lemma WithoutLast(s: seq<int>)
    requires |s| > 0
    ensures multiset(s[..|s| - 1]) == multiset(s) - multiset{s[|s| - 1]} && s[|s| - 1] in multiset(s)
  {
    assert s == s[..|s| - 1] + [s[|s| - 1]];
  }

  lemma AscendingPrefix(s: seq<int>)
    requires Ascending(s) && |s| > 0
    ensures Ascending(s[..|s| - 1])
  {
  }

  lemma SameLast(s: seq<int>, t: seq<int>)
    requires Ascending(s) && Ascending(t) && multiset(s) == multiset(t) && |s| > 0 && |t| > 0
    ensures s[|s| - 1] == t[|t| - 1]
  {
    WithoutLast(s);
    WithoutLast(t);
    LastIsGreatest(t, s[|s| - 1]);
    LastIsGreatest(s, t[|t| - 1]);
  }

  /** There is only one way to list a histogram in ascending order. */
  lemma {:induction false} ListedOnce(s: seq<int>, t: seq<int>)
    requires Ascending(s) && Ascending(t) && multiset(s) == multiset(t)
    ensures s == t
  {
    hide Ascending;
    assert |multiset(s)| == |s| && |multiset(t)| == |t|;
    if |s| > 0 {
      SameLast(s, t);
      WithoutLast(s);
      WithoutLast(t);
      AscendingPrefix(s);
      AscendingPrefix(t);
      var a, b, x := s[..|s| - 1], t[..|t| - 1], s[|s| - 1];
      assert s == a + [x] && t == b + [x];
      assert multiset(a) == multiset(s) - multiset{x};
      assert multiset(b) == multiset(t) - multiset{x};
      ListedOnce(a, b);
    }
  }

  lemma RankedKeyIsP95(s: seq<int>)
    requires Ascending(s) && |s| > 0
    ensures P95(multiset(s)) == s[Threshold(|s|) - 1]
  {
    assert |multiset(s)| == |s|;
    var t :| Ascending(t) && multiset(t) == multiset(s) && |t| > 0 && P95(multiset(s)) == t[Threshold(|t|) - 1];
    ListedOnce(s, t);
  }

  /** The loop over the sorted keys stops at the entry of rank ceil(0.95 n). */
  method RankedKey(h: multiset<int>, ghost s: seq<int>) returns (p: int)
    requires Ascending(s) && h == multiset(s) && |h| > 0
    ensures |s| == |h| && p == s[Threshold(|s|) - 1]
  {
    hide Weight, AtMost;
    assert |h| == |s|;
    var threshold := Threshold(|h|);
    var keys := SortedKeys(h);
    assert forall x :: x in s ==> x in h;
    var count, i := 0, 0;
    p := 0;
    NoWeightYet(h, keys);
    while i < |keys| && count < threshold
      invariant 0 <= i <= |keys| && count == Weight(h, keys[..i])
      invariant threshold <= count ==> p == s[threshold - 1]
    {
      WeightStep(h, keys, i);
      count := count + h[keys[i]];
      if threshold <= count {
        PrefixCounts(s, keys, i);
        RankedAtMost(s, keys[i], threshold);
        RankedAtMost(s, keys[i] - 1, threshold);
        p := keys[i];
      }
      i := i + 1;
    }
    assert forall x :: x in s ==> x in keys;
    AllWeight(s, keys);
    assert keys[..|keys|] == keys;
  }

  /** The percentile of any histogram, as the statistics report it. */
  method Percentile(h: multiset<int>) returns (p: int)
    ensures p == P95(h)
  {
    if |h| == 0 {
      return 0;
    }
    ghost var s := Listed(h);
    p := RankedKey(h, s);
    RankedKeyIsP95(s);
  }

  /** For a histogram of rounded-up latencies it is the rounded-up latency of the sample ranked ceil(0.95 n), and so
      less than one millisecond above it. */
  lemma P95OfSamples(samples: seq<real>)
    requires Sorted(samples) && |samples| > 0
    ensures var p, x := P95(multiset(Buckets(samples))), samples[Threshold(|samples|) - 1];
      p == Bucket(x) && Clamped(x) <= p as real < Clamped(x) + 1.0
  {
    hide Bucket, Clamped, Sorted;
    BucketsAscend(samples);
    RankedKeyIsP95(Buckets(samples));
    BucketIsCeiling(samples[Threshold(|samples|) - 1]);
  }

  lemma NoWeightYet(h: multiset<int>, keys: seq<int>)
    ensures Weight(h, keys[..0]) == 0
  {
  }

  lemma WeightStep(h: multiset<int>, keys: seq<int>, i: nat)
    requires i < |keys|
    ensures Weight(h, keys[..i + 1]) == Weight(h, keys[..i]) + h[keys[i]]
  {
    assert keys[..i + 1][..i] == keys[..i];
  }

  lemma PrefixCounts(s: seq<int>, keys: seq<int>, i: nat)
    requires StrictlyAscending(keys) && i < |keys|
    requires forall x :: x in s ==> x in keys
    ensures Weight(multiset(s), keys[..i + 1]) == AtMost(s, keys[i])
    ensures Weight(multiset(s), keys[..i]) == AtMost(s, keys[i] - 1)
  {
    hide Weight, AtMost;
    forall x | x in s
      ensures x in keys[..i + 1] <==> x <= keys[i]
      ensures x in keys[..i] <==> x <= keys[i] - 1
    {
      var k :| 0 <= k < |keys| && keys[k] == x;
      if k <= i { assert keys[..i + 1][k] == x; }
      if k < i { assert keys[..i][k] == x; }
    }
    WeightCounts(s, keys[..i + 1], keys[i]);
    WeightCounts(s, keys[..i], keys[i] - 1);
  }

  lemma AllWeight(s: seq<int>, keys: seq<int>)
    requires StrictlyAscending(keys) && |s| > 0
    requires forall x :: x in s ==> x in keys
    ensures Weight(multiset(s), keys) == |s|
  {
    hide Weight, AtMost;
    var first := s[0];
    assert first in s;
    assert first in keys;
    var last := keys[|keys| - 1];
    forall i | 0 <= i < |s| ensures s[i] <= last {
      assert s[i] in s;
      var k :| 0 <= k < |keys| && keys[k] == s[i];
    }
    WeightCounts(s, keys, last);
    AllAtMost(s, last);
  }

  // ----- Metrics -----

  datatype Weights = Weights(availability: real, successRate: real, latency: real)

  datatype Grade = A | B | C | D | E | F | Pending

  datatype Metrics = Metrics(availability: real, coverage: real, successRate: real, latencyScore: real, score: real, grade: Grade)

  function Percent(part: real, whole: real): real
    requires whole != 0.0
  {
    100.0 * part / whole
  }

  function Clamp100(x: real): real {
    if x < 0.0 then 0.0 else if 100.0 < x then 100.0 else x
  }

  /** A trusted server is exempt from verdicts: its worst verdict counts as matched. */
  function Exempt(t: E.Tally, trusted: bool): E.Tally {
    if trusted then t.(pollution := MATCHED) else t
  }

  /** `preset` is the availability reported when nothing is covered yet. */
  function Finish(t: E.Tally, p95: int, window: int, minSamples: int, minCoverage: int, w: Weights, preset: real := 0.0): Metrics {
    var availability := if 0 < t.covered then Percent(t.available, t.covered as real) else preset;
    var raw := if 0 < window then Percent(t.covered as real, window as real) else 0.0;
    var coverage := if 100.0 < raw then 100.0 else raw;
    var successRate := if 0 < t.samples then Percent(t.successes as real, t.samples as real) else 0.0;
    var latencyScore := if t.latencyCount == 0 then 0.0 else Clamp100(100.0 * (2000.0 - p95 as real) / 1800.0);
    var score := w.availability * availability + w.successRate * successRate + w.latency * latencyScore;
    var grade :=
      if t.pollution == POLLUTED then F
      else if t.pollution == SUSPICIOUS then E
      else if t.samples < minSamples || t.covered < minCoverage then Pending
      else if 95.0 <= score then A
      else if 85.0 <= score then B
      else if 70.0 <= score then C
      else D;
    Metrics(availability, coverage, successRate, latencyScore, if t.pollution == POLLUTED then 0.0 else score, grade)
  }

  lemma PercentFits(part: real, whole: real)
    requires 0.0 <= part <= whole && 0.0 < whole
    ensures 0.0 <= Percent(part, whole) <= 100.0
  {
    var q := part / whole;
    assert q * whole == part;
    ScaleUp(q, whole);
    assert q <= 1.0;
    assert 0.0 <= q;
    assert 100.0 * part / whole == 100.0 * q;
  }

  lemma ScaleUp(q: real, whole: real)
    requires 0.0 < whole
    ensures 1.0 < q ==> whole < q * whole
  {
    if 1.0 < q {
      assert 0.0 < (q - 1.0) * whole;
      assert q * whole == whole + (q - 1.0) * whole;
    }
  }

  lemma Weighted(w: real, x: real) returns (product: real)
    requires 0.0 <= w && 0.0 <= x <= 100.0
    ensures product == w * x && 0.0 <= product <= 100.0 * w
  {
    product := w * x;
  }

  lemma ClampFits(x: real)
    ensures 0.0 <= Clamp100(x) <= 100.0
  {
  }

  /** Sums that are consistent with their window. */
  ghost predicate Meaningful(t: E.Tally, window: int) {
    && 0 <= t.covered <= window && 0 < window
    && 0.0 <= t.available <= t.covered as real
    && t.successes <= t.samples
  }

  lemma PercentagesFit(t: E.Tally, p95: int, window: int, minSamples: int, minCoverage: int, w: Weights, preset: real)
    requires Meaningful(t, window) && 0.0 <= preset <= 100.0
    ensures var m := Finish(t, p95, window, minSamples, minCoverage, w, preset);
            && 0.0 <= m.availability <= 100.0
            && 0.0 <= m.successRate <= 100.0
            && 0.0 <= m.latencyScore <= 100.0
            && 0.0 <= m.coverage <= 100.0 && m.coverage == Percent(t.covered as real, window as real)
  {
    hide Percent, Clamp100;
    if 0 < t.covered { PercentFits(t.available, t.covered as real); }
    PercentFits(t.covered as real, window as real);
    if 0 < t.samples { PercentFits(t.successes as real, t.samples as real); }
    ClampFits(100.0 * (2000.0 - p95 as real) / 1800.0);
  }

  lemma ScoreIs(t: E.Tally, p95: int, window: int, minSamples: int, minCoverage: int, w: Weights, preset: real)
    ensures var m := Finish(t, p95, window, minSamples, minCoverage, w, preset);
            m.score == if t.pollution == POLLUTED then 0.0
                       else w.availability * m.availability + w.successRate * m.successRate + w.latency * m.latencyScore
  {
    hide Percent, Clamp100;
  }

  lemma ScoreFits(t: E.Tally, p95: int, window: int, minSamples: int, minCoverage: int, w: Weights, preset: real)
    requires Meaningful(t, window) && 0.0 <= preset <= 100.0
    requires 0.0 <= w.availability && 0.0 <= w.successRate && 0.0 <= w.latency
    ensures 0.0 <= Finish(t, p95, window, minSamples, minCoverage, w, preset).score <= 100.0 * (w.availability + w.successRate + w.latency)
  {
    PercentagesFit(t, p95, window, minSamples, minCoverage, w, preset);
    ScoreIs(t, p95, window, minSamples, minCoverage, w, preset);
    var m := Finish(t, p95, window, minSamples, minCoverage, w, preset);
    var a := Weighted(w.availability, m.availability);
    var b := Weighted(w.successRate, m.successRate);
    var c := Weighted(w.latency, m.latencyScore);
    assert m.score == if t.pollution == POLLUTED then 0.0 else a + b + c;
    hide *;
    SumFits(a, b, c, w.availability, w.successRate, w.latency);
  }

  lemma SumFits(a: real, b: real, c: real, x: real, y: real, z: real)
    requires 0.0 <= a <= 100.0 * x && 0.0 <= b <= 100.0 * y && 0.0 <= c <= 100.0 * z
    ensures 0.0 <= a + b + c <= 100.0 * (x + y + z)
  {
  }

  lemma PercentMeans(part: real, whole: real)
    requires whole != 0.0
    ensures Percent(part, whole) * whole == 100.0 * part
  {
    var q := 100.0 * part / whole;
    assert q * whole == 100.0 * part;
  }

  /** What the percentages say about the sums: the latency score falls in a straight line from 100 at 200 ms to 0 at
      2000 ms. */
  lemma PercentagesMean(t: E.Tally, p95: int, window: int, minSamples: int, minCoverage: int, w: Weights, preset: real)
    ensures var m := Finish(t, p95, window, minSamples, minCoverage, w, preset);
            && (0 < t.covered ==> m.availability * t.covered as real == 100.0 * t.available)
            && (t.covered <= 0 ==> m.availability == preset)
            && (0 < window && t.covered <= window ==> m.coverage * window as real == 100.0 * t.covered as real)
            && (0 < t.samples ==> m.successRate * t.samples as real == 100.0 * t.successes as real)
            && (t.samples == 0 ==> m.successRate == 0.0)
            && (t.latencyCount == 0 ==> m.latencyScore == 0.0)
            && (0 < t.latencyCount && p95 <= 200 ==> m.latencyScore == 100.0)
            && (0 < t.latencyCount && 200 <= p95 <= 2000 ==> 18.0 * m.latencyScore == 2000.0 - p95 as real)
            && (2000 <= p95 ==> m.latencyScore == 0.0)
  {
    hide Percent;
    if 0 < t.covered { PercentMeans(t.available, t.covered as real); }
    if 0 < t.samples { PercentMeans(t.successes as real, t.samples as real); }
    if 0 < window && t.covered <= window {
      PercentMeans(t.covered as real, window as real);
      AtMostWhole(t.covered as real, window as real);
    }
  }

  lemma AtMostWhole(part: real, whole: real)
    requires part <= whole && 0.0 < whole
    ensures Percent(part, whole) <= 100.0
  {
    var q := part / whole;
    assert q * whole == part;
    ScaleUp(q, whole);
    assert 100.0 * part / whole == 100.0 * q;
  }

  /** Every grade by what it takes to get it. */
  lemma GradesMean(t: E.Tally, p95: int, window: int, minSamples: int, minCoverage: int, w: Weights, preset: real)
    ensures var m := Finish(t, p95, window, minSamples, minCoverage, w, preset);
            var warm := minSamples <= t.samples && minCoverage <= t.covered;
            var score := w.availability * m.availability + w.successRate * m.successRate + w.latency * m.latencyScore;
            && (m.grade == F <==> t.pollution == 4)
            && (m.grade == E <==> t.pollution == 3)
            && (m.grade == Pending <==> t.pollution !in {3, 4} && !warm)
            && (m.grade == A <==> t.pollution !in {3, 4} && warm && 95.0 <= score)
            && (m.grade == B <==> t.pollution !in {3, 4} && warm && 85.0 <= score < 95.0)
            && (m.grade == C <==> t.pollution !in {3, 4} && warm && 70.0 <= score < 85.0)
            && (m.grade == D <==> t.pollution !in {3, 4} && warm && score < 70.0)
            && m.score == if t.pollution == 4 then 0.0 else score
  {
    hide Percent, Clamp100;
  }

  /** For every stored window: each percentage is one, the coverage clamp never acts, and the score
      is at most 100 times the weights. */
  lemma MetricsFit(rs: seq<Round>, server: nat, since: int, now: int, p95: int, minSamples: int, minCoverage: int, w: Weights)
    requires Consistent(rs) && E.Sane(rs) && since < now
    requires 0.0 <= w.availability && 0.0 <= w.successRate && 0.0 <= w.latency
    ensures var t := E.TallyOf(rs, server, E.Window(since, now));
            var m := Finish(t, p95, now - since, minSamples, minCoverage, w);
            && 0.0 <= m.availability <= 100.0
            && 0.0 <= m.successRate <= 100.0
            && 0.0 <= m.coverage <= 100.0 && m.coverage == Percent(t.covered as real, (now - since) as real)
            && 0.0 <= m.score <= 100.0 * (w.availability + w.successRate + w.latency)
  {
    var t := E.TallyOf(rs, server, E.Window(since, now));
    E.WindowIsMeaningful(rs, server, since, now);
    assert Meaningful(t, now - since);
    hide *;
    PercentagesFit(t, p95, now - since, minSamples, minCoverage, w, 0.0);
    ScoreFits(t, p95, now - since, minSamples, minCoverage, w, 0.0);
  }

  /** The percentile of a histogram: at least 95 percent of its entries are at most that, and fewer than 95 percent are
      below it. */
  lemma P95IsRank(s: seq<int>)
    requires Ascending(s) && |s| > 0
    ensures var p := P95(multiset(s));
      p in s && 95 * |s| <= 100 * AtMost(s, p) && 100 * AtMost(s, p - 1) < 95 * |s|
  {
    RankedKeyIsP95(s);
    var k := Threshold(|s|);
    RankedAtMost(s, s[k - 1], k);
    RankedAtMost(s, s[k - 1] - 1, k);
    hide AtMost;
  }
}
