/**
 Statistics over a time window. The summary scans every round that touches the window; the current
 evaluation reads the window's rounds and one predecessor; the history spreads rounds over points.
 All three are proved to compute the same sums, and coverage to fit the window.
 */
module Evaluation {
  import opened Tables
  import opened Timeline

  /** Which finish times count ([from, to)) and which span of time is covered ([lo, hi)). */
  datatype Span = Span(from: int, to: int, lo: int, hi: int)

  function Window(since: int, now: int): Span {
    Span(since, now + 1, since, now)
  }

  datatype Tally = Tally(
    samples: nat,
    successes: nat,
    latencyCount: nat,
    latencySum: real,
    covered: int,
    available: real,
    pollution: nat,
    histogram: multiset<int>)

  const EMPTY := Tally(0, 0, 0, 0.0, 0, 0.0, 0, multiset{})

  /** How much of [lo, hi) the round covers. */
  function Overlap(q: Round, lo: int, hi: int): int {
    Max(0, Min(q.coveredUntil, hi) - Max(q.finished, lo))
  }

  function Ratio(q: Round): real {
    q.agg.received as real / Max(1, q.agg.samples) as real
  }

  predicate Counts(q: Round, w: Span) {
    w.from <= q.finished < w.to
  }

  function PlusRow(t: Tally, q: Round, w: Span): Tally {
    var counts := Counts(q, w);
    Tally(
      t.samples + if counts then q.agg.samples else 0,
      t.successes + if counts then q.agg.successes else 0,
      t.latencyCount + if counts then q.agg.latencyCount else 0,
      t.latencySum + if counts then q.agg.latencySum else 0.0,
      t.covered + Overlap(q, w.lo, w.hi),
      t.available + Overlap(q, w.lo, w.hi) as real * Ratio(q),
      if counts && t.pollution < q.agg.pollution then q.agg.pollution else t.pollution,
      t.histogram + if counts then q.agg.histogram else multiset{})
  }

  /** The sums of a server's formal rounds over a span: the reference definition. */
  function TallyOf(rs: seq<Round>, server: nat, w: Span): Tally {
    if |rs| == 0 then EMPTY
    else
      var t := TallyOf(rs[..|rs| - 1], server, w);
      var last := rs[|rs| - 1];
      if Formal(last, server) then PlusRow(t, last, w) else t
  }

  /** What every stored round satisfies, because its sums are recomputable from its results. */
  ghost predicate Sane(rs: seq<Round>) {
    forall q :: q in rs ==>
      q.agg.received <= q.agg.samples && q.agg.successes <= q.agg.samples && |q.agg.histogram| == q.agg.latencyCount
  }

  // ----- Coverage -----

  /** A row's share of the available time. */
  function Share(q: Round, lo: int, hi: int): real {
    Overlap(q, lo, hi) as real * Ratio(q)
  }

  lemma CoverageStep(rs: seq<Round>, server: nat, w: Span)
    ensures |rs| == 0 ==> TallyOf(rs, server, w).covered == 0 && TallyOf(rs, server, w).available == 0.0
    ensures |rs| > 0 ==>
      var t, rest, q := TallyOf(rs, server, w), TallyOf(rs[..|rs| - 1], server, w), rs[|rs| - 1];
      && t.covered == rest.covered + (if Formal(q, server) then Overlap(q, w.lo, w.hi) else 0)
      && t.available == rest.available + (if Formal(q, server) then Share(q, w.lo, w.hi) else 0.0)
  {
    if |rs| > 0 {
      RowCoverage(TallyOf(rs[..|rs| - 1], server, w), rs[|rs| - 1], w);
    }
    hide PlusRow, Overlap, Share;
  }

  lemma RowCoverage(t: Tally, q: Round, w: Span)
    ensures PlusRow(t, q, w).covered == t.covered + Overlap(q, w.lo, w.hi)
    ensures PlusRow(t, q, w).available == t.available + Share(q, w.lo, w.hi)
  {
    hide Overlap, Ratio, Counts;
  }

  lemma OverlapSplits(q: Round, lo: int, mid: int, hi: int)
    requires lo <= mid <= hi
    ensures Overlap(q, lo, hi) == Overlap(q, lo, mid) + Overlap(q, mid, hi)
    ensures Share(q, lo, hi) == Share(q, lo, mid) + Share(q, mid, hi)
  {
    var a, b := Overlap(q, lo, mid), Overlap(q, mid, hi);
    assert Overlap(q, lo, hi) == a + b;
    var r := Ratio(q);
    hide *;
    assert (a + b) as real * r == a as real * r + b as real * r;
  }

  /** Coverage of a span is the coverage of its two parts. */
  lemma {:induction false} CoverageSplits(rs: seq<Round>, server: nat, w: Span, left: Span, right: Span)
    requires w.lo == left.lo <= left.hi == right.lo <= right.hi == w.hi
    ensures TallyOf(rs, server, w).covered == TallyOf(rs, server, left).covered + TallyOf(rs, server, right).covered
    ensures TallyOf(rs, server, w).available == TallyOf(rs, server, left).available + TallyOf(rs, server, right).available
  {
    hide TallyOf, Overlap, Share;
    CoverageStep(rs, server, w);
    CoverageStep(rs, server, left);
    CoverageStep(rs, server, right);
    if |rs| > 0 {
      var n := |rs| - 1;
      CoverageSplits(rs[..n], server, w, left, right);
      OverlapSplits(rs[n], w.lo, left.hi, w.hi);
    }
  }

  lemma {:induction false} NoOverlapNoCoverage(rs: seq<Round>, server: nat, w: Span)
    requires forall q :: q in rs && Formal(q, server) ==> Overlap(q, w.lo, w.hi) == 0
    ensures TallyOf(rs, server, w).covered == 0
  {
    hide TallyOf, Overlap, Share;
    CoverageStep(rs, server, w);
    if |rs| > 0 {
      assert rs[|rs| - 1] in rs && forall q :: q in rs[..|rs| - 1] ==> q in rs;
      NoOverlapNoCoverage(rs[..|rs| - 1], server, w);
    }
  }

  lemma ConsistentPrefix(rs: seq<Round>, n: nat)
    requires Consistent(rs) && n <= |rs|
    ensures Consistent(rs[..n])
  {
    assert forall q :: q in rs[..n] ==> q in rs;
  }

  lemma LaneIsDisjoint(rs: seq<Round>, a: Round, b: Round)
    requires Consistent(rs) && a in rs && b in rs && SameLane(a, b) && a.id != b.id
    ensures a.finished <= a.coveredUntil && b.finished <= b.coveredUntil
    ensures a.coveredUntil <= b.finished || b.coveredUntil <= a.finished
  {
    assert Before(a, b) || Before(b, a);
  }

  /** Covered time never exceeds the span: the newest round splits it, and nothing else covers
      the part it covers. */
  lemma {:induction false} CoverageFits(rs: seq<Round>, server: nat, w: Span)
    requires Consistent(rs) && w.lo <= w.hi
    ensures 0 <= TallyOf(rs, server, w).covered <= w.hi - w.lo
    decreases |rs|
  {
    hide TallyOf, Share, Bounded, Disjoint;
    CoverageStep(rs, server, w);
    if |rs| > 0 {
      var n := |rs| - 1;
      var q := rs[n];
      assert q in rs;
      ConsistentPrefix(rs, n);
      if !Formal(q, server) {
        CoverageFits(rs[..n], server, w);
      } else {
        var a := Max(w.lo, Min(q.finished, w.hi));
        var b := Max(a, Min(q.coveredUntil, w.hi));
        var left, mid, right := w.(hi := a), w.(lo := a, hi := b), w.(lo := b);
        CoverageFits(rs[..n], server, left);
        CoverageFits(rs[..n], server, right);
        CoverageSplits(rs[..n], server, w, left, w.(lo := a));
        CoverageSplits(rs[..n], server, w.(lo := a), mid, right);
        forall x | x in rs[..n] && Formal(x, server) ensures Overlap(x, a, b) == 0 {
          assert x in rs;
          LaneIsDisjoint(rs, x, q);
        }
        NoOverlapNoCoverage(rs[..n], server, mid);
      }
    }
  }

  /** Available time is part of the covered time, so availability needs no clamp. */
  lemma {:induction false} AvailabilityFits(rs: seq<Round>, server: nat, w: Span)
    requires Sane(rs)
    ensures 0.0 <= TallyOf(rs, server, w).available <= TallyOf(rs, server, w).covered as real
  {
    hide TallyOf, Overlap, Share;
    CoverageStep(rs, server, w);
    if |rs| > 0 {
      var n := |rs| - 1;
      assert rs[n] in rs && forall q :: q in rs[..n] ==> q in rs;
      AvailabilityFits(rs[..n], server, w);
      ShareFits(rs[n], w.lo, w.hi);
    }
  }

  lemma ShareFits(q: Round, lo: int, hi: int)
    requires q.agg.received <= q.agg.samples
    ensures 0 <= Overlap(q, lo, hi)
    ensures 0.0 <= Share(q, lo, hi) <= Overlap(q, lo, hi) as real
  {
    var d, r := Overlap(q, lo, hi) as real, Ratio(q);
    RatioFits(q.agg.received as real, Max(1, q.agg.samples) as real);
    assert 0.0 <= r <= 1.0 && 0.0 <= d && Share(q, lo, hi) == d * r;
    hide *;
    ProductFits(d, r);
  }

  lemma RatioFits(a: real, b: real)
    requires 0.0 <= a <= b && 1.0 <= b
    ensures 0.0 <= a / b <= 1.0
  {
  }

  lemma ProductFits(d: real, r: real)
    requires 0.0 <= d && 0.0 <= r <= 1.0
    ensures 0.0 <= d * r <= d
  {
  }

  // ----- Counts -----

  lemma CountsStep(rs: seq<Round>, server: nat, w: Span)
    ensures |rs| == 0 ==> TallyOf(rs, server, w) == EMPTY
    ensures |rs| > 0 ==>
      var t, rest, q := TallyOf(rs, server, w), TallyOf(rs[..|rs| - 1], server, w), rs[|rs| - 1];
      var counts := Formal(q, server) && Counts(q, w);
      && t.samples == rest.samples + (if counts then q.agg.samples else 0)
      && t.successes == rest.successes + (if counts then q.agg.successes else 0)
      && t.latencyCount == rest.latencyCount + (if counts then q.agg.latencyCount else 0)
      && t.latencySum == rest.latencySum + (if counts then q.agg.latencySum else 0.0)
      && t.pollution == (if counts then Max(rest.pollution, q.agg.pollution) else rest.pollution)
      && t.histogram == rest.histogram + (if counts then q.agg.histogram else multiset{})
  {
    hide Overlap, Ratio, Counts;
  }

  /** Counts over a span of finish times are the counts over its two parts. */
  lemma {:induction false} CountsSplit(rs: seq<Round>, server: nat, w: Span, left: Span, right: Span)
    requires w.from == left.from <= left.to == right.from <= right.to == w.to
    ensures var t, a, b := TallyOf(rs, server, w), TallyOf(rs, server, left), TallyOf(rs, server, right);
            && t.samples == a.samples + b.samples
            && t.successes == a.successes + b.successes
            && t.latencyCount == a.latencyCount + b.latencyCount
            && t.latencySum == a.latencySum + b.latencySum
            && t.pollution == Max(a.pollution, b.pollution)
            && t.histogram == a.histogram + b.histogram
  {
    hide TallyOf;
    CountsStep(rs, server, w);
    CountsStep(rs, server, left);
    CountsStep(rs, server, right);
    if |rs| > 0 {
      CountsSplit(rs[..|rs| - 1], server, w, left, right);
    }
  }

  /** A histogram holds exactly one entry per counted latency. */
  lemma {:induction false} HistogramMatchesCount(rs: seq<Round>, server: nat, w: Span)
    requires Sane(rs)
    ensures |TallyOf(rs, server, w).histogram| == TallyOf(rs, server, w).latencyCount
    ensures TallyOf(rs, server, w).successes <= TallyOf(rs, server, w).samples
  {
    hide TallyOf;
    CountsStep(rs, server, w);
    if |rs| > 0 {
      var n := |rs| - 1;
      assert rs[n] in rs && forall q :: q in rs[..n] ==> q in rs;
      HistogramMatchesCount(rs[..n], server, w);
    }
  }

  // ----- Summary: every round that touches the window -----

  predicate TouchesWindow(q: Round, since: int, now: int) {
    q.finished <= now && (since <= q.finished || since < q.coveredUntil)
  }

  lemma UntouchedAddsNothing(t: Tally, q: Round, since: int, now: int)
    requires since < now && !TouchesWindow(q, since, now)
    ensures PlusRow(t, q, Window(since, now)) == t
  {
    assert Overlap(q, since, now) == 0;
    hide Overlap, Ratio;
    assert 0 as real * Ratio(q) == 0.0;
    assert t.histogram + multiset{} == t.histogram;
  }

  /** The summary query of one server; rounds that do not touch the window are filtered out. */
  method Summarize(rs: seq<Round>, server: nat, since: int, now: int) returns (t: Tally)
    requires since < now
    ensures t == TallyOf(rs, server, Window(since, now))
  {
    hide PlusRow, Window;
    t := EMPTY;
    for i := 0 to |rs|
      invariant t == TallyOf(rs[..i], server, Window(since, now))
    {
      assert rs[..i + 1][..i] == rs[..i];
      if Formal(rs[i], server) {
        if TouchesWindow(rs[i], since, now) {
          t := PlusRow(t, rs[i], Window(since, now));
        } else {
          UntouchedAddsNothing(t, rs[i], since, now);
        }
      }
    }
    assert rs[..|rs|] == rs;
  }

  // ----- Current evaluation: the window's rounds and one predecessor -----

  predicate InWindow(q: Round, since: int, now: int) {
    since <= q.finished <= now
  }

  /** A formal round that is neither in the window nor the last one before it. */
  ghost predicate Passed(rs: seq<Round>, q: Round, server: nat, since: int, now: int)
    requires OrderedIds(rs)
  {
    var p := LastIndex(rs, server, since - 1);
    Formal(q, server) && !InWindow(q, since, now) && (p == -1 || q != rs[p])
  }

  /** Thanks to the timeline, only the last round before the window can reach into it. */
  lemma OnlyOnePredecessorReaches(rs: seq<Round>, q: Round, server: nat, since: int, now: int)
    requires Consistent(rs) && since < now && q in rs && Passed(rs, q, server, since, now)
    ensures !TouchesWindow(q, since, now) && Overlap(q, since, now) == 0
  {
    hide LastIndex;
    var p := LastIndex(rs, server, since - 1);
    if q.finished < since {
      assert rs[p] in rs && Before(q, rs[p]);
    }
  }

  lemma PassedAddsNothing(rs: seq<Round>, t: Tally, q: Round, server: nat, since: int, now: int)
    requires Consistent(rs) && since < now && q in rs && Passed(rs, q, server, since, now)
    ensures PlusRow(t, q, Window(since, now)) == t
  {
    hide PlusRow, Passed, TouchesWindow, Overlap;
    OnlyOnePredecessorReaches(rs, q, server, since, now);
    UntouchedAddsNothing(t, q, since, now);
  }

  lemma PlusRowsCommute(t: Tally, a: Round, b: Round, w: Span)
    ensures PlusRow(PlusRow(t, a, w), b, w) == PlusRow(PlusRow(t, b, w), a, w)
  {
    hide Overlap, Ratio, Counts;
    var x, y := PlusRow(PlusRow(t, a, w), b, w), PlusRow(PlusRow(t, b, w), a, w);
    assert x.histogram == y.histogram;
    assert x.available == y.available;
  }

  /** The current evaluation sums everything but the verdicts. */
  function Unjudged(t: Tally): Tally {
    t.(pollution := 0)
  }

  /** The received results of the rounds a span counts. */
  function ReceivedIn(rs: seq<Round>, server: nat, w: Span): nat {
    if |rs| == 0 then 0
    else
      var last := rs[|rs| - 1];
      ReceivedIn(rs[..|rs| - 1], server, w) + if Formal(last, server) && Counts(last, w) then last.agg.received else 0
  }

  lemma {:induction false} ReceivedFits(rs: seq<Round>, server: nat, w: Span)
    requires Sane(rs)
    ensures ReceivedIn(rs, server, w) <= TallyOf(rs, server, w).samples
  {
    hide TallyOf;
    CountsStep(rs, server, w);
    if |rs| > 0 {
      var n := |rs| - 1;
      assert rs[n] in rs && forall q :: q in rs[..n] ==> q in rs;
      ReceivedFits(rs[..n], server, w);
    }
  }

  lemma UnjudgedStep(t: Tally, q: Round, w: Span)
    ensures Unjudged(PlusRow(Unjudged(t), q, w)) == Unjudged(PlusRow(t, q, w))
  {
    hide Overlap, Ratio, Counts;
  }

  /** The sums of the current evaluation: the predecessor if it reaches into the window, then the window's rounds. */
  method CurrentSums(rs: seq<Round>, server: nat, since: int, now: int) returns (t: Tally, received: nat)
    requires Consistent(rs) && since < now
    ensures t == Unjudged(TallyOf(rs, server, Window(since, now)))
    ensures received == ReceivedIn(rs, server, Window(since, now))
  {
    hide PlusRow, LastIndex, Bounded, Disjoint, Unjudged;
    var w := Window(since, now);
    t, received := EMPTY, 0;
    NothingUnjudged();
    var p := QueryLastIndex(rs, server, since - 1);
    if p != -1 {
      if since < rs[p].coveredUntil {
        UnjudgedStep(EMPTY, rs[p], w);
        t := Unjudged(PlusRow(t, rs[p], w));
      } else {
        UntouchedAddsNothing(t, rs[p], since, now);
      }
    }
    for i := 0 to |rs|
      invariant t == Unjudged(if i <= p then PlusRow(TallyOf(rs[..i], server, w), rs[p], w) else TallyOf(rs[..i], server, w))
      invariant received == ReceivedIn(rs[..i], server, w)
    {
      var q := rs[i];
      assert rs[..i + 1][..i] == rs[..i] && q in rs;
      CurrentStep(rs, server, since, now, TallyOf(rs[..i], server, w), i);
      if Formal(q, server) && InWindow(q, since, now) {
        UnjudgedStep(if i <= p then PlusRow(TallyOf(rs[..i], server, w), rs[p], w) else TallyOf(rs[..i], server, w), q, w);
        t := Unjudged(PlusRow(t, q, w));
        received := received + q.agg.received;
      }
    }
    assert rs[..|rs|] == rs;
  }

  lemma NothingUnjudged()
    ensures Unjudged(EMPTY) == EMPTY
  {
  }

  /** What the next row means to the scan that the current evaluation stands for. */
  lemma CurrentStep(rs: seq<Round>, server: nat, since: int, now: int, t: Tally, i: nat)
    requires Consistent(rs) && since < now && i < |rs|
    ensures var w, p, q := Window(since, now), LastIndex(rs, server, since - 1), rs[i];
            && (Formal(q, server) && !InWindow(q, since, now) && i != p ==> PlusRow(t, q, w) == t)
            && (p != -1 ==> PlusRow(PlusRow(t, rs[p], w), q, w) == PlusRow(PlusRow(t, q, w), rs[p], w))
            && (i == p ==> Formal(q, server) && !InWindow(q, since, now))
  {
    hide PlusRow, LastIndex, Bounded, Disjoint;
    var w, p, q := Window(since, now), LastIndex(rs, server, since - 1), rs[i];
    if p != -1 {
      PlusRowsCommute(t, rs[p], q, w);
    }
    if Formal(q, server) && !InWindow(q, since, now) && i != p {
      assert q in rs && (p != -1 ==> rs[p].id != q.id);
      PassedAddsNothing(rs, t, q, server, since, now);
    }
  }

  // ----- What the window's sums are good for -----

  /** Covered time fits the window and availability is a percentage, without any clamp. */
  lemma WindowIsMeaningful(rs: seq<Round>, server: nat, since: int, now: int)
    requires Consistent(rs) && Sane(rs) && since < now
    ensures var t := TallyOf(rs, server, Window(since, now));
            && 0 <= t.covered <= now - since
            && 0.0 <= t.available <= t.covered as real
            && t.successes <= t.samples
            && |t.histogram| == t.latencyCount
  {
    CoverageFits(rs, server, Window(since, now));
    AvailabilityFits(rs, server, Window(since, now));
    HistogramMatchesCount(rs, server, Window(since, now));
  }
}
