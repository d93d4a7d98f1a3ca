/**
 The history chart: a server's rounds spread over at most 1000 consecutive points.
 */
module History {
  import opened Tables
  import opened Timeline
  import opened Evaluation

  const DEFAULT_STEP := 5 * 60 * 1000

  function StepFor(since: int, now: int, requested: int): int {
    Max(if requested < 1 then DEFAULT_STEP else requested, (now - since + 999) / 1000)
  }

  function PointCount(since: int, now: int, step: int): int
    requires 0 < step
  {
    (now - since + step - 1) / step
  }

  /** Point i starts here; point `count` would start at or after the end of the window. */
  function Start(since: int, step: int, i: int): int {
    since + i * step
  }

  function PointSpan(since: int, now: int, step: int, count: int, i: int): Span {
    Span(Start(since, step, i), if i == count - 1 then now + 1 else Start(since, step, i + 1),
         Start(since, step, i), Min(now, Start(since, step, i + 1)))
  }

  /** The points tile the window, and there are at most 1000 of them. */
  ghost predicate Tiled(since: int, now: int, step: int, count: int) {
    && 0 < step && 1 <= count <= 1000
    && Start(since, step, count - 1) < now <= Start(since, step, count)
  }

  lemma DivisionBounds(x: int, y: int)
    requires 0 < y
    ensures x / y * y <= x < x / y * y + y
    ensures (x / y + 1) * y == x / y * y + y
  {
  }

  lemma PointsTile(since: int, now: int, requested: int)
    requires since < now
    ensures var step := StepFor(since, now, requested);
            0 < step && Tiled(since, now, step, PointCount(since, now, step))
  {
    var length := now - since;
    var step := StepFor(since, now, requested);
    DivisionBounds(length + 999, 1000);
    assert length <= 1000 * step;
    var count := PointCount(since, now, step);
    DivisionBounds(length + step - 1, step);
    CountFits(length, step, count);
    assert (count - 1) * step == count * step - step;
  }

  lemma CountFits(length: int, step: int, count: int)
    requires 0 < length <= 1000 * step && 0 < step
    requires count * step <= length + step - 1 < count * step + step
    ensures 1 <= count <= 1000
  {
    MulMonotone(count, 0, step);
    MulMonotone(1001, count, step);
  }

  lemma MulMonotone(a: int, b: int, c: int)
    requires 0 < c
    ensures a <= b ==> a * c <= b * c
    ensures (a + 1) * c == a * c + c
  {
    if a <= b {
      assert 0 <= (b - a) * c;
      assert b * c == a * c + (b - a) * c;
    }
  }

  lemma StartGrows(since: int, step: int, i: int, j: int)
    requires 0 < step && i < j
    ensures Start(since, step, i) + step <= Start(since, step, j)
    ensures Start(since, step, i + 1) == Start(since, step, i) + step
  {
    MulMonotone(i + 1, j, step);
    MulMonotone(i, i, step);
  }

  /** The division picks the point whose span counts the finish time. */
  lemma DivisionPicksPoint(since: int, now: int, step: int, count: int, at: int, i: int)
    requires Tiled(since, now, step, count) && since <= at <= now && 0 <= i < count
    ensures 0 <= Min((at - since) / step, count - 1) < count
    ensures var w := PointSpan(since, now, step, count, i);
            w.from <= at < w.to <==> i == Min((at - since) / step, count - 1)
  {
    var k := (at - since) / step;
    DivisionBounds(at - since, step);
    assert 0 <= k;
    if k < i { StartGrows(since, step, k, i); }
    if i < k { StartGrows(since, step, i, k); }
    if i == k { StartGrows(since, step, i, i + 1); }
    if k < count - 1 { StartGrows(since, step, k, count - 1); }
    if count - 1 < k { StartGrows(since, step, count - 1, k); }
  }

  // ----- One round -----

  /** Counts without the histogram, which a second query adds. */
  function AddCounts(t: Tally, q: Round): Tally {
    t.(samples := t.samples + q.agg.samples,
       successes := t.successes + q.agg.successes,
       latencyCount := t.latencyCount + q.agg.latencyCount,
       latencySum := t.latencySum + q.agg.latencySum,
       pollution := Max(t.pollution, q.agg.pollution))
  }

  function AddCoverage(t: Tally, duration: int, ratio: real): Tally {
    t.(covered := t.covered + duration, available := t.available + duration as real * ratio)
  }

  function AddHistogram(t: Tally, q: Round): Tally {
    t.(histogram := t.histogram + q.agg.histogram)
  }

  /** What one formal round adds to a point in the first pass, and in the second. */
  function FirstPass(t: Tally, q: Round, w: Span): Tally {
    var counted := if Counts(q, w) then AddCounts(t, q) else t;
    AddCoverage(counted, Overlap(q, w.lo, w.hi), Ratio(q))
  }

  function SecondPass(t: Tally, q: Round, w: Span): Tally {
    if Counts(q, w) then AddHistogram(t, q) else t
  }

  lemma PassesAddRow(a: Tally, b: Tally, t: Tally, q: Round, w: Span)
    requires a == t.(histogram := multiset{})
    ensures FirstPass(a, q, w) == PlusRow(t, q, w).(histogram := multiset{})
    ensures b.histogram == t.histogram ==>
              SecondPass(b, q, w) == b.(histogram := PlusRow(t, q, w).histogram)
  {
    hide Overlap, Ratio, Counts;
    assert t.histogram + multiset{} == t.histogram;
  }

  lemma NoCoverage(t: Tally, ratio: real)
    ensures AddCoverage(t, 0, ratio) == t
  {
  }

  /** Spreads [start, end) over the points it reaches. */
  method SpreadCoverage(points: array<Tally>, q: Round, since: int, now: int, step: int)
    requires Tiled(since, now, step, points.Length)
    requires q.finished <= now
    modifies points
    ensures forall i :: 0 <= i < points.Length ==>
      var w := PointSpan(since, now, step, points.Length, i);
      points[i] == AddCoverage(old(points[i]), Overlap(q, w.lo, w.hi), Ratio(q))
  {
    hide AddCoverage, Ratio;
    var count := points.Length;
    var start, end := Max(q.finished, since), Min(q.coveredUntil, now);
    if end <= start {
      forall i | 0 <= i < count ensures var w := PointSpan(since, now, step, count, i); Overlap(q, w.lo, w.hi) == 0 {
        PointsAreInside(since, now, step, count, i);
      }
      forall i | 0 <= i < count ensures points[i] == AddCoverage(points[i], 0, Ratio(q)) {
        NoCoverage(points[i], Ratio(q));
      }
      return;
    }
    var i := (start - since) / step;
    SpreadStart(q, since, now, step, count);
    forall k | 0 <= k < i && k < count ensures points[k] == AddCoverage(points[k], 0, Ratio(q)) {
      NoCoverage(points[k], Ratio(q));
    }
    while i < count
      invariant 0 <= i
      invariant forall k :: 0 <= k < i && k < count ==>
        var w := PointSpan(since, now, step, count, k);
        points[k] == AddCoverage(old(points[k]), Overlap(q, w.lo, w.hi), Ratio(q))
      invariant forall k :: i <= k < count ==> points[k] == old(points[k])
    {
      var pointStart := since + i * step;
      SpreadStep(q, since, now, step, count, i);
      if end <= pointStart {
        forall k | i <= k < count ensures points[k] == AddCoverage(points[k], 0, Ratio(q)) {
          NoCoverage(points[k], Ratio(q));
        }
        return;
      }
      var d := Min(end, pointStart + step) - Max(start, pointStart);
      NoCoverage(points[i], Ratio(q));
      if 0 < d {
        points[i] := AddCoverage(points[i], d, Ratio(q));
      }
      i := i + 1;
    }
  }

  lemma PointsAreInside(since: int, now: int, step: int, count: int, i: int)
    requires Tiled(since, now, step, count) && 0 <= i < count
    ensures var w := PointSpan(since, now, step, count, i);
            && since <= w.lo < w.hi <= now && w.lo == w.from && w.hi <= w.to
            && w.lo == Start(since, step, i) && w.hi == Min(now, w.lo + step)
            && (i + 1 < count ==> w.hi == w.to == Start(since, step, i + 1))
  {
    if 0 < i { StartGrows(since, step, 0, i); }
    if i < count - 1 { StartGrows(since, step, i, count - 1); }
    StartGrows(since, step, i, i + 1);
    if i + 1 < count - 1 { StartGrows(since, step, i + 1, count - 1); }
  }

  lemma SpreadStart(q: Round, since: int, now: int, step: int, count: int)
    requires Tiled(since, now, step, count) && q.finished <= now
    ensures var i := (Max(q.finished, since) - since) / step;
            0 <= i && forall k :: 0 <= k < i && k < count ==>
              var w := PointSpan(since, now, step, count, k); Overlap(q, w.lo, w.hi) == 0
  {
    var start := Max(q.finished, since);
    var i := (start - since) / step;
    DivisionBounds(start - since, step);
    assert 0 <= i && Start(since, step, i) <= start;
    forall k | 0 <= k < i && k < count ensures var w := PointSpan(since, now, step, count, k); Overlap(q, w.lo, w.hi) == 0 {
      PointEndsBefore(q, since, now, step, count, i, k);
    }
  }

  lemma PointEndsBefore(q: Round, since: int, now: int, step: int, count: int, i: int, k: int)
    requires Tiled(since, now, step, count) && 0 <= k < i && k < count
    requires Start(since, step, i) <= Max(q.finished, since)
    ensures var w := PointSpan(since, now, step, count, k); Overlap(q, w.lo, w.hi) == 0
  {
    StartGrows(since, step, k, i);
    PointsAreInside(since, now, step, count, k);
    hide Start;
  }

  lemma SpreadStep(q: Round, since: int, now: int, step: int, count: int, i: int)
    requires Tiled(since, now, step, count) && q.finished <= now && 0 <= i < count
    ensures var start, end, at := Max(q.finished, since), Min(q.coveredUntil, now), since + i * step;
            var w := PointSpan(since, now, step, count, i);
            && (at < end ==> Overlap(q, w.lo, w.hi) == Max(0, Min(end, at + step) - Max(start, at)))
            && (end <= at ==> forall k :: i <= k < count ==>
                  var v := PointSpan(since, now, step, count, k); Overlap(q, v.lo, v.hi) == 0)
  {
    var end, at := Min(q.coveredUntil, now), since + i * step;
    PointsAreInside(since, now, step, count, i);
    if end <= at {
      forall k | i <= k < count ensures var v := PointSpan(since, now, step, count, k); Overlap(q, v.lo, v.hi) == 0 {
        if i < k { StartGrows(since, step, i, k); }
        PointsAreInside(since, now, step, count, k);
      }
    }
  }

  // ----- The chart -----

  /** The formal rounds of a server that the chart's query reads. */
  predicate Read(q: Round, server: nat, since: int, now: int) {
    Formal(q, server) && TouchesWindow(q, since, now)
  }

  lemma UnreadAddsNothing(t: Tally, q: Round, since: int, now: int, step: int, count: int, i: int)
    requires Tiled(since, now, step, count) && 0 <= i < count
    requires !TouchesWindow(q, since, now)
    ensures PlusRow(t, q, PointSpan(since, now, step, count, i)) == t
  {
    PointsAreInside(since, now, step, count, i);
    var w := PointSpan(since, now, step, count, i);
    assert !Counts(q, w) && Overlap(q, w.lo, w.hi) == 0;
    hide Overlap, Ratio, Counts, PointSpan, Start;
    assert 0 as real * Ratio(q) == 0.0;
    assert t.histogram + multiset{} == t.histogram;
  }

  /** Adds one round to its points and to the total. */
  method AddRound(points: array<Tally>, total: Tally, q: Round, since: int, now: int, step: int)
    returns (sum: Tally)
    requires Tiled(since, now, step, points.Length)
    requires since < now && q.finished <= now
    modifies points
    ensures forall i :: 0 <= i < points.Length ==>
      points[i] == FirstPass(old(points[i]), q, PointSpan(since, now, step, points.Length, i))
    ensures sum == FirstPass(total, q, Window(since, now))
  {
    hide AddCounts, Ratio;
    sum := total;
    ghost var was := points[..];
    ghost var count := points.Length;
    if since <= q.finished {
      DivisionPicksPoint(since, now, step, count, q.finished, 0);
      var i := Min((q.finished - since) / step, points.Length - 1);
      points[i] := AddCounts(points[i], q);
      sum := AddCounts(sum, q);
    }
    forall k | 0 <= k < count
      ensures points[k] == if Counts(q, PointSpan(since, now, step, count, k)) then AddCounts(was[k], q) else was[k]
    {
      if since <= q.finished {
        DivisionPicksPoint(since, now, step, count, q.finished, k);
      } else {
        PointsAreInside(since, now, step, count, k);
      }
    }
    hide Counts, Overlap;
    var start, end := Max(q.finished, since), Min(q.coveredUntil, now);
    WindowOverlap(q, since, now);
    NoCoverage(sum, Ratio(q));
    if start < end {
      sum := AddCoverage(sum, end - start, Ratio(q));
    }
    SpreadCoverage(points, q, since, now, step);
  }

  lemma WindowOverlap(q: Round, since: int, now: int)
    requires q.finished <= now
    ensures var start, end := Max(q.finished, since), Min(q.coveredUntil, now);
            Overlap(q, since, now) == if start < end then end - start else 0
    ensures Counts(q, Window(since, now)) <==> since <= q.finished
  {
  }

  function Bare(t: Tally): Tally {
    t.(histogram := multiset{})
  }

  lemma TallyStep(rs: seq<Round>, server: nat, w: Span, k: nat)
    requires k < |rs|
    ensures var t, t' := TallyOf(rs[..k], server, w), TallyOf(rs[..k + 1], server, w);
            && t' == (if Formal(rs[k], server) then PlusRow(t, rs[k], w) else t)
            && (Formal(rs[k], server) ==> Bare(t') == FirstPass(Bare(t), rs[k], w))
            && (Formal(rs[k], server) ==> forall b: Tally ::
                  SecondPass(b.(histogram := t.histogram), rs[k], w) == b.(histogram := t'.histogram))
  {
    hide PlusRow, FirstPass, SecondPass;
    assert rs[..k + 1][..k] == rs[..k];
    var t := TallyOf(rs[..k], server, w);
    PassesAddRow(Bare(t), t, t, rs[k], w);
    forall b: Tally | Formal(rs[k], server)
      ensures SecondPass(b.(histogram := t.histogram), rs[k], w) == b.(histogram := PlusRow(t, rs[k], w).histogram)
    {
      PassesAddRow(Bare(t), b.(histogram := t.histogram), t, rs[k], w);
    }
  }

  /** The chart: every point, and the total, hold exactly the sums over their own span. */
  method Chart(rs: seq<Round>, server: nat, since: int, now: int, requested: int)
    returns (ok: bool, points: array<Tally>, total: Tally)
    ensures fresh(points)
    ensures ok <==> since < now
    ensures ok ==>
      && Tiled(since, now, StepFor(since, now, requested), points.Length)
      && points.Length == PointCount(since, now, StepFor(since, now, requested))
      && total == TallyOf(rs, server, Window(since, now))
      && forall i :: 0 <= i < points.Length ==>
           points[i] == TallyOf(rs, server, PointSpan(since, now, StepFor(since, now, requested), points.Length, i))
  {
    if now <= since {
      points := new Tally[0];
      return false, points, EMPTY;
    }
    var step := StepFor(since, now, requested);
    PointsTile(since, now, requested);
    var count := PointCount(since, now, step);
    hide *;
    points := new Tally[count](_ => EMPTY);
    total := FirstQuery(points, rs, server, since, now, step);
    total := SecondQuery(points, total, rs, server, since, now, step);
    ok := true;
  }

  method FirstQuery(points: array<Tally>, rs: seq<Round>, server: nat, since: int, now: int, step: int)
    returns (total: Tally)
    requires since < now && Tiled(since, now, step, points.Length)
    requires forall i :: 0 <= i < points.Length ==> points[i] == EMPTY
    modifies points
    ensures total == Bare(TallyOf(rs, server, Window(since, now)))
    ensures forall i :: 0 <= i < points.Length ==>
      points[i] == Bare(TallyOf(rs, server, PointSpan(since, now, step, points.Length, i)))
  {
    hide PlusRow, FirstPass, SecondPass, Tiled, PointSpan, Window;
    ghost var count := points.Length;
    total := EMPTY;
    for k := 0 to |rs|
      invariant total == Bare(TallyOf(rs[..k], server, Window(since, now)))
      invariant forall i :: 0 <= i < count ==>
        points[i] == Bare(TallyOf(rs[..k], server, PointSpan(since, now, step, count, i)))
    {
      var q := rs[k];
      TallyStep(rs, server, Window(since, now), k);
      forall i | 0 <= i < count ensures
        var w := PointSpan(since, now, step, count, i);
        && TallyOf(rs[..k + 1], server, w) == (if Formal(q, server) then PlusRow(TallyOf(rs[..k], server, w), q, w) else TallyOf(rs[..k], server, w))
        && (Formal(q, server) ==> Bare(TallyOf(rs[..k + 1], server, w)) == FirstPass(Bare(TallyOf(rs[..k], server, w)), q, w))
        && (!TouchesWindow(q, since, now) ==> PlusRow(TallyOf(rs[..k], server, w), q, w) == TallyOf(rs[..k], server, w))
      {
        var w := PointSpan(since, now, step, count, i);
        TallyStep(rs, server, w, k);
        if !TouchesWindow(q, since, now) {
          UnreadAddsNothing(TallyOf(rs[..k], server, w), q, since, now, step, count, i);
        }
      }
      if Read(q, server, since, now) {
        total := AddRound(points, total, q, since, now, step);
      } else if Formal(q, server) {
        UntouchedAddsNothing(TallyOf(rs[..k], server, Window(since, now)), q, since, now);
      }
    }
    assert rs[..|rs|] == rs;
  }

  method SecondQuery(points: array<Tally>, first: Tally, rs: seq<Round>, server: nat, since: int, now: int, step: int)
    returns (total: Tally)
    requires since < now && Tiled(since, now, step, points.Length)
    requires first == Bare(TallyOf(rs, server, Window(since, now)))
    requires forall i :: 0 <= i < points.Length ==>
      points[i] == Bare(TallyOf(rs, server, PointSpan(since, now, step, points.Length, i)))
    modifies points
    ensures total == TallyOf(rs, server, Window(since, now))
    ensures forall i :: 0 <= i < points.Length ==>
      points[i] == TallyOf(rs, server, PointSpan(since, now, step, points.Length, i))
  {
    hide PlusRow, SecondPass, Tiled, PointSpan, Window;
    ghost var count := points.Length;
    total := first;
    for k := 0 to |rs|
      invariant total == TallyOf(rs, server, Window(since, now)).(histogram := TallyOf(rs[..k], server, Window(since, now)).histogram)
      invariant forall i :: 0 <= i < count ==>
        var w := PointSpan(since, now, step, count, i);
        points[i] == TallyOf(rs, server, w).(histogram := TallyOf(rs[..k], server, w).histogram)
    {
      var q := rs[k];
      TallyStep(rs, server, Window(since, now), k);
      forall i | 0 <= i < count ensures
        var w := PointSpan(since, now, step, count, i);
        && (!Formal(q, server) ==> TallyOf(rs[..k + 1], server, w) == TallyOf(rs[..k], server, w))
        && (Formal(q, server) ==> forall b: Tally ::
              SecondPass(b.(histogram := TallyOf(rs[..k], server, w).histogram), q, w) == b.(histogram := TallyOf(rs[..k + 1], server, w).histogram))
      {
        TallyStep(rs, server, PointSpan(since, now, step, count, i), k);
      }
      if Formal(q, server) {
        total := PlaceHistogram(points, total, q, since, now, step);
      }
    }
    assert rs[..|rs|] == rs;
  }

  method PlaceHistogram(points: array<Tally>, total: Tally, q: Round, since: int, now: int, step: int)
    returns (sum: Tally)
    requires Tiled(since, now, step, points.Length) && since < now
    modifies points
    ensures forall i :: 0 <= i < points.Length ==>
      points[i] == SecondPass(old(points[i]), q, PointSpan(since, now, step, points.Length, i))
    ensures sum == SecondPass(total, q, Window(since, now))
  {
    hide AddHistogram;
    sum := total;
    ghost var was := points[..];
    ghost var count := points.Length;
    if since <= q.finished <= now {
      DivisionPicksPoint(since, now, step, count, q.finished, 0);
      var i := Min((q.finished - since) / step, points.Length - 1);
      points[i] := AddHistogram(points[i], q);
      sum := AddHistogram(sum, q);
    }
    forall k | 0 <= k < count
      ensures Counts(q, PointSpan(since, now, step, count, k)) <==>
              since <= q.finished <= now && k == Min((q.finished - since) / step, count - 1)
    {
      if since <= q.finished <= now {
        DivisionPicksPoint(since, now, step, count, q.finished, k);
      } else {
        PointsAreInside(since, now, step, count, k);
      }
    }
  }

  // ----- Conservation -----

  function Merge(a: Tally, b: Tally): Tally {
    Tally(a.samples + b.samples, a.successes + b.successes, a.latencyCount + b.latencyCount, a.latencySum + b.latencySum,
          a.covered + b.covered, a.available + b.available, Max(a.pollution, b.pollution), a.histogram + b.histogram)
  }

  function Sum(points: seq<Tally>): Tally {
    if |points| == 0 then EMPTY else Merge(Sum(points[..|points| - 1]), points[|points| - 1])
  }

  lemma SpanSplits(rs: seq<Round>, server: nat, w: Span, left: Span, right: Span)
    requires w.from == left.from <= left.to == right.from <= right.to == w.to
    requires w.lo == left.lo <= left.hi == right.lo <= right.hi == w.hi
    ensures TallyOf(rs, server, w) == Merge(TallyOf(rs, server, left), TallyOf(rs, server, right))
  {
    hide TallyOf;
    CountsSplit(rs, server, w, left, right);
    CoverageSplits(rs, server, w, left, right);
  }

  lemma {:induction false} EmptySpan(rs: seq<Round>, server: nat, at: int)
    ensures TallyOf(rs, server, Span(at, at, at, at)) == EMPTY
  {
    if |rs| > 0 {
      var n := |rs| - 1;
      EmptySpan(rs[..n], server, at);
      assert Overlap(rs[n], at, at) == 0;
      hide Overlap, Ratio;
      assert 0 as real * Ratio(rs[n]) == 0.0;
    }
  }

  lemma {:induction false} SumOfPrefix(rs: seq<Round>, server: nat, since: int, now: int, step: int, points: seq<Tally>, n: nat)
    requires since < now && Tiled(since, now, step, |points|)
    requires forall i :: 0 <= i < |points| ==> points[i] == TallyOf(rs, server, PointSpan(since, now, step, |points|, i))
    requires n <= |points|
    ensures Sum(points[..n]) == TallyOf(rs, server,
      if n == |points| then Window(since, now) else Span(since, Start(since, step, n), since, Start(since, step, n)))
  {
    hide TallyOf, Merge;
    if n == 0 {
      EmptySpan(rs, server, since);
    } else {
      SumOfPrefix(rs, server, since, now, step, points, n - 1);
      assert points[..n][..n - 1] == points[..n - 1];
      PointsAreInside(since, now, step, |points|, n - 1);
      var left := Span(since, Start(since, step, n - 1), since, Start(since, step, n - 1));
      var right := PointSpan(since, now, step, |points|, n - 1);
      var w := Span(since, right.to, since, right.hi);
      SpanSplits(rs, server, w, left, right);
    }
  }

  /** Summed over its points, the chart gives exactly the totals of the whole window. */
  lemma ChartConserves(rs: seq<Round>, server: nat, since: int, now: int, step: int, points: seq<Tally>)
    requires since < now && Tiled(since, now, step, |points|)
    requires forall i :: 0 <= i < |points| ==> points[i] == TallyOf(rs, server, PointSpan(since, now, step, |points|, i))
    ensures Sum(points) == TallyOf(rs, server, Window(since, now))
  {
    SumOfPrefix(rs, server, since, now, step, points, |points|);
    assert points[..|points|] == points;
  }

  /** No point covers more than its own length, and its histogram has one entry per counted latency. */
  lemma PointFitsItsLength(rs: seq<Round>, server: nat, since: int, now: int, step: int, count: int, i: int)
    requires Consistent(rs) && Sane(rs) && since < now && Tiled(since, now, step, count) && 0 <= i < count
    ensures var t := TallyOf(rs, server, PointSpan(since, now, step, count, i));
            && 0 <= t.covered <= Min(step, now - Start(since, step, i))
            && 0.0 <= t.available <= t.covered as real
            && |t.histogram| == t.latencyCount
  {
    hide TallyOf, Consistent, Sane;
    PointsAreInside(since, now, step, count, i);
    var w := PointSpan(since, now, step, count, i);
    CoverageFits(rs, server, w);
    AvailabilityFits(rs, server, w);
    HistogramMatchesCount(rs, server, w);
  }

  /** Points are as long as requested, five minutes by default, unless that would take more than 1000 of them; then they are
      as short as 1000 points allow. */
  lemma StepMeaning(since: int, now: int, requested: int)
    requires since < now
    ensures var step, wanted := StepFor(since, now, requested), if 1 <= requested then requested else 300000;
      if now - since <= 1000 * wanted then step == wanted else 1000 * (step - 1) < now - since <= 1000 * step
  {
    DivisionBounds(now - since + 999, 1000);
  }
}
