/**
 The status strip: evaluation snapshots grouped into fixed-size buckets, coloured by the worst
 status in each, with the latest snapshot of every bucket looked up by time range.
 */
module StatusHistory {
  import opened Tables
  import opened H = History
  import E = Evaluation

  const HOUR := 60 * 60 * 1000
  const DAY := 24 * HOUR
  const RETENTION := 30 * DAY

  datatype Quality = NoQuality | Matched | Clean | Unknown | Suspicious | Polluted

  datatype Status = NoGrade | A | B | C | D | Pending | E | F | Unavailable

  function QualitySeverity(q: Quality): nat {
    match q
    case NoQuality => 0
    case Matched => 1
    case Clean => 2
    case Unknown => 3
    case Suspicious => 4
    case Polluted => 5
  }

  function GradeSeverity(g: Status): nat {
    match g
    case NoGrade => 0
    case A => 1
    case B => 2
    case C => 3
    case D => 4
    case Pending => 5
    case E => 6
    case F => 7
    case Unavailable => 8
  }

  /** A snapshot of one server, captured when a formal round was saved. */
  datatype Snapshot = Snapshot(round: nat, timestamp: int, quality: Quality, grade: Status)

  datatype Bucket = Bucket(
    start: int,
    end: int,
    snapshots: nat,
    qualities: multiset<Quality>,
    grades: multiset<Status>,
    quality: Quality,
    grade: Status,
    latest: Option<Snapshot>)

  // ----- Layout -----

  function BucketLimit(length: int): int {
    if 7 * DAY < length then 60 else if DAY < length then 56 else 48
  }

  function BucketStep(length: int): int {
    (length + BucketLimit(length) - 1) / BucketLimit(length)
  }

  function BucketCount(length: int): int
    requires 0 < length
  {
    BucketStepIsPositive(length);
    (length + BucketStep(length) - 1) / BucketStep(length)
  }

  lemma BucketStepIsPositive(length: int)
    requires 0 < length
    ensures 0 < BucketStep(length) && length <= BucketLimit(length) * BucketStep(length)
  {
    DivisionBounds(length + BucketLimit(length) - 1, BucketLimit(length));
  }

  /** The buckets tile the range, at most 48, 56 or 60 of them. */
  lemma BucketsTile(since: int, now: int)
    requires since < now
    ensures var step, count := BucketStep(now - since), BucketCount(now - since);
            Tiled(since, now, step, count) && count <= BucketLimit(now - since)
  {
    var length := now - since;
    BucketStepIsPositive(length);
    var step, count := BucketStep(length), BucketCount(length);
    DivisionBounds(length + step - 1, step);
    FewBuckets(length, step, count, BucketLimit(length));
    MulMonotone(count - 1, count, step);
  }

  lemma FewBuckets(length: int, step: int, count: int, limit: int)
    requires 0 < length <= limit * step && 0 < step
    requires count * step <= length + step - 1 < count * step + step
    ensures 1 <= count <= limit
  {
    MulMonotone(count, 0, step);
    MulMonotone(limit + 1, count, step);
    MulMonotone(limit, limit, step);
  }

  // ----- Membership -----

  /** The snapshots of a bucket, by time range. */
  function Members(ss: seq<Snapshot>, w: E.Span): (ms: seq<Snapshot>)
    ensures forall s :: s in ms <==> s in ss && w.from <= s.timestamp < w.to
  {
    if |ss| == 0 then []
    else
      var n := |ss| - 1;
      assert forall s :: s in ss <==> s in ss[..n] || s == ss[n];
      if w.from <= ss[n].timestamp < w.to then Members(ss[..n], w) + [ss[n]] else Members(ss[..n], w)
  }

  /** Every snapshot in the range belongs to exactly one bucket: the one the division picks. */
  lemma ExactlyOneBucket(since: int, now: int, step: int, count: int, s: Snapshot)
    requires Tiled(since, now, step, count) && since <= s.timestamp <= now
    ensures var index := Min((s.timestamp - since) / step, count - 1);
            && 0 <= index < count
            && forall i :: 0 <= i < count ==>
                 var w := PointSpan(since, now, step, count, i);
                 (w.from <= s.timestamp < w.to <==> i == index)
  {
    DivisionPicksPoint(since, now, step, count, s.timestamp, 0);
    forall i | 0 <= i < count
      ensures var w := PointSpan(since, now, step, count, i);
              w.from <= s.timestamp < w.to <==> i == Min((s.timestamp - since) / step, count - 1)
    {
      DivisionPicksPoint(since, now, step, count, s.timestamp, i);
    }
  }

  function Qualities(ms: seq<Snapshot>): multiset<Quality> {
    if |ms| == 0 then multiset{} else Qualities(ms[..|ms| - 1]) + multiset{ms[|ms| - 1].quality}
  }

  function Grades(ms: seq<Snapshot>): multiset<Status> {
    if |ms| == 0 then multiset{} else Grades(ms[..|ms| - 1]) + multiset{ms[|ms| - 1].grade}
  }

  function Worse(a: Quality, b: Quality): Quality {
    if QualitySeverity(a) < QualitySeverity(b) then b else a
  }

  function WorseGrade(a: Status, b: Status): Status {
    if GradeSeverity(a) < GradeSeverity(b) then b else a
  }

  function WorstQuality(ms: seq<Snapshot>): Quality {
    if |ms| == 0 then NoQuality else Worse(WorstQuality(ms[..|ms| - 1]), ms[|ms| - 1].quality)
  }

  function WorstGrade(ms: seq<Snapshot>): Status {
    if |ms| == 0 then NoGrade else WorseGrade(WorstGrade(ms[..|ms| - 1]), ms[|ms| - 1].grade)
  }

  /** A bucket's colours are the worst statuses among its snapshots, and one of them each. */
  lemma {:induction false} ColoursAreWorst(ms: seq<Snapshot>)
    ensures forall s :: s in ms ==> QualitySeverity(s.quality) <= QualitySeverity(WorstQuality(ms))
    ensures forall s :: s in ms ==> GradeSeverity(s.grade) <= GradeSeverity(WorstGrade(ms))
    ensures WorstQuality(ms) == NoQuality || exists s :: s in ms && s.quality == WorstQuality(ms)
    ensures WorstGrade(ms) == NoGrade || exists s :: s in ms && s.grade == WorstGrade(ms)
  {
    hide QualitySeverity, GradeSeverity;
    if |ms| > 0 {
      var n := |ms| - 1;
      ColoursAreWorst(ms[..n]);
      assert forall s :: s in ms <==> s in ms[..n] || s == ms[n];
    }
  }

  /** The last snapshot by (timestamp, round) in [from, to). */
  ghost predicate IsLatest(ss: seq<Snapshot>, w: E.Span, latest: Option<Snapshot>) {
    match latest
    case None => Members(ss, w) == []
    case Some(s) =>
      s in Members(ss, w) && forall x :: x in Members(ss, w) ==>
        x.timestamp < s.timestamp || (x.timestamp == s.timestamp && x.round <= s.round)
  }

  ghost predicate Describes(b: Bucket, ss: seq<Snapshot>, w: E.Span) {
    var ms := Members(ss, w);
    && b.start == w.lo && b.end == w.hi
    && b.snapshots == |ms|
    && b.qualities == Qualities(ms) && b.grades == Grades(ms)
    && b.quality == WorstQuality(ms) && b.grade == WorstGrade(ms)
  }

  // ----- Building the strip -----

  function AddSnapshot(b: Bucket, s: Snapshot): Bucket {
    b.(snapshots := b.snapshots + 1,
       qualities := b.qualities + multiset{s.quality},
       grades := b.grades + multiset{s.grade},
       quality := Worse(b.quality, s.quality),
       grade := WorseGrade(b.grade, s.grade))
  }

  lemma MembersStep(ss: seq<Snapshot>, k: nat, w: E.Span)
    requires k < |ss|
    ensures Members(ss[..k + 1], w) ==
            if w.from <= ss[k].timestamp < w.to then Members(ss[..k], w) + [ss[k]] else Members(ss[..k], w)
  {
    assert ss[..k + 1][..k] == ss[..k];
  }

  lemma DescribesStep(b: Bucket, ss: seq<Snapshot>, k: nat, w: E.Span)
    requires k < |ss| && Describes(b, ss[..k], w)
    ensures Describes(if w.from <= ss[k].timestamp < w.to then AddSnapshot(b, ss[k]) else b, ss[..k + 1], w)
  {
    MembersStep(ss, k, w);
    hide Members, Worse, WorseGrade;
    var ms := Members(ss[..k], w);
    if w.from <= ss[k].timestamp < w.to {
      assert (ms + [ss[k]])[..|ms|] == ms;
    }
  }

  method CountSnapshots(points: array<Bucket>, ss: seq<Snapshot>, since: int, now: int, step: int)
    requires Tiled(since, now, step, points.Length)
    requires forall i :: 0 <= i < points.Length ==>
      Describes(points[i], [], PointSpan(since, now, step, points.Length, i))
    modifies points
    ensures forall i :: 0 <= i < points.Length ==>
      Describes(points[i], ss, PointSpan(since, now, step, points.Length, i))
  {
    hide Describes, AddSnapshot, Tiled;
    ghost var count := points.Length;
    for k := 0 to |ss|
      invariant forall i :: 0 <= i < count ==> Describes(points[i], ss[..k], PointSpan(since, now, step, count, i))
    {
      var s := ss[k];
      Positive(since, now, step, count);
      forall i | 0 <= i < count
        ensures var w := PointSpan(since, now, step, count, i);
                && Describes(if w.from <= s.timestamp < w.to then AddSnapshot(points[i], s) else points[i], ss[..k + 1], w)
                && (w.from <= s.timestamp < w.to <==>
                    since <= s.timestamp <= now && i == Min((s.timestamp - since) / step, count - 1))
      {
        var w := PointSpan(since, now, step, count, i);
        DescribesStep(points[i], ss, k, w);
        if since <= s.timestamp <= now {
          ExactlyOneBucket(since, now, step, count, s);
        } else {
          PointsAreInside(since, now, step, count, i);
        }
      }
      if since <= s.timestamp <= now {
        ExactlyOneBucket(since, now, step, count, s);
        var index := Min((s.timestamp - since) / step, points.Length - 1);
        points[index] := AddSnapshot(points[index], s);
      }
    }
    assert ss[..|ss|] == ss;
  }

  lemma Positive(since: int, now: int, step: int, count: int)
    requires Tiled(since, now, step, count)
    ensures 0 < step
  {
  }

  /** SELECT ... WHERE timestamp>=from AND timestamp<=to ORDER BY timestamp DESC, round_id DESC LIMIT 1 */
  method LatestBetween(ss: seq<Snapshot>, from: int, to: int) returns (latest: Option<Snapshot>)
    ensures IsLatest(ss, E.Span(from, to + 1, from, to), latest)
  {
    ghost var w := E.Span(from, to + 1, from, to);
    latest := None;
    for k := 0 to |ss|
      invariant IsLatest(ss[..k], w, latest)
    {
      var s := ss[k];
      MembersStep(ss, k, w);
      assert ss[..k + 1][..k] == ss[..k];
      if from <= s.timestamp <= to && (latest.None? || latest.value.timestamp < s.timestamp
          || (latest.value.timestamp == s.timestamp && latest.value.round <= s.round)) {
        latest := Some(s);
      }
    }
    assert ss[..|ss|] == ss;
  }

  lemma SameRangeSameMembers(ss: seq<Snapshot>, v: E.Span, w: E.Span)
    requires v.from == w.from && v.to == w.to
    ensures Members(ss, v) == Members(ss, w)
  {
    if |ss| > 0 { SameRangeSameMembers(ss[..|ss| - 1], v, w); }
  }

  /** The strip. Every bucket describes the snapshots of its own range, and a bucket that counted any
      snapshot finds its latest one by time range. */
  method Strip(ss: seq<Snapshot>, since: int, now: int, includeLatest: bool)
    returns (ok: bool, points: array<Bucket>)
    ensures fresh(points)
    ensures ok <==> since < now <= since + RETENTION
    ensures ok ==>
      && points.Length == BucketCount(now - since) <= BucketLimit(now - since)
      && Tiled(since, now, BucketStep(now - since), points.Length)
      && forall i :: 0 <= i < points.Length ==>
           var w := PointSpan(since, now, BucketStep(now - since), points.Length, i);
           && Describes(points[i], ss, w)
           && (includeLatest ==> IsLatest(ss, w, points[i].latest))
           && (!includeLatest ==> points[i].latest == None)
  {
    if now <= since || now - since > RETENTION {
      points := new Bucket[0];
      return false, points;
    }
    BucketsTile(since, now);
    var step, count := BucketStep(now - since), BucketCount(now - since);
    hide BucketStep, BucketCount, BucketLimit, Describes;
    points := new Bucket[count](i => EmptyBucket(since, now, step, i));
    forall i | 0 <= i < count
      ensures Describes(points[i], [], PointSpan(since, now, step, count, i))
    {
      EmptyDescribes(since, now, step, count, i);
    }
    Lookups(points, ss, since, now, step, includeLatest);
    ok := true;
  }

  function EmptyBucket(since: int, now: int, step: int, i: int): Bucket {
    Bucket(since + i * step, Min(now, since + (i + 1) * step), 0, multiset{}, multiset{}, NoQuality, NoGrade, None)
  }

  lemma EmptyDescribes(since: int, now: int, step: int, count: int, i: int)
    ensures Describes(EmptyBucket(since, now, step, i), [], PointSpan(since, now, step, count, i))
  {
  }

  /** The latest snapshot of bucket i, looked up by its time range if it counted any. */
  method LatestOf(b: Bucket, ss: seq<Snapshot>, since: int, now: int, step: int, count: int, i: int)
    returns (latest: Option<Snapshot>)
    requires Tiled(since, now, step, count) && 0 <= i < count
    requires Describes(b, ss, PointSpan(since, now, step, count, i))
    ensures IsLatest(ss, PointSpan(since, now, step, count, i), latest)
    ensures 0 < b.snapshots <==> latest.Some?
  {
    ghost var w := PointSpan(since, now, step, count, i);
    if b.snapshots == 0 {
      return None;
    }
    var end := if i == count - 1 then now else b.end - 1;
    latest := LatestBetween(ss, b.start, end);
    RangeIsSpan(since, now, step, count, i);
    SameRangeSameMembers(ss, E.Span(b.start, end + 1, b.start, end), w);
  }

  method Lookups(points: array<Bucket>, ss: seq<Snapshot>, since: int, now: int, step: int, includeLatest: bool)
    requires Tiled(since, now, step, points.Length)
    requires forall i :: 0 <= i < points.Length ==>
      Describes(points[i], [], PointSpan(since, now, step, points.Length, i))
    modifies points
    ensures forall i :: 0 <= i < points.Length ==>
           var w := PointSpan(since, now, step, points.Length, i);
           && Describes(points[i], ss, w)
           && (includeLatest ==> IsLatest(ss, w, points[i].latest))
           && (!includeLatest ==> points[i].latest == None)
  {
    hide PointSpan, Tiled, Describes, IsLatest;
    CountSnapshots(points, ss, since, now, step);
    for i := 0 to points.Length
      invariant forall k :: 0 <= k < points.Length ==>
        Describes(points[k], ss, PointSpan(since, now, step, points.Length, k))
      invariant forall k :: 0 <= k < i ==>
        && (includeLatest ==> IsLatest(ss, PointSpan(since, now, step, points.Length, k), points[k].latest))
        && (!includeLatest ==> points[k].latest == None)
    {
      var latest := None;
      if includeLatest {
        latest := LatestOf(points[i], ss, since, now, step, points.Length, i);
      }
      DescribedBucket(points[i], ss, PointSpan(since, now, step, points.Length, i));
      points[i] := points[i].(latest := latest);
    }
  }

  lemma DescribedBucket(b: Bucket, ss: seq<Snapshot>, w: E.Span)
    requires Describes(b, ss, w)
    ensures forall latest :: Describes(b.(latest := latest), ss, w)
  {
  }

  /** The inclusive time range of the lookup is the bucket's half-open range. */
  lemma RangeIsSpan(since: int, now: int, step: int, count: int, i: int)
    requires Tiled(since, now, step, count) && 0 <= i < count
    ensures var w := PointSpan(since, now, step, count, i);
            && w.from == w.lo && w.to == (if i == count - 1 then now else w.hi - 1) + 1
  {
    PointsAreInside(since, now, step, count, i);
  }

  // ----- Which colour is worse -----

  const FROM_BEST := [Matched, Clean, Unknown, Suspicious, Polluted]
  const GRADES_FROM_BEST := [A, B, C, D, Pending, E, F, Unavailable]

  /** A bucket's quality is the one furthest from the best among its snapshots, and so is its grade. */
  lemma WorstColourMeaning(ms: seq<Snapshot>)
    ensures forall i :: 0 <= i < 5 ==> (WorstQuality(ms) == FROM_BEST[i] <==>
      && (exists s :: s in ms && s.quality == FROM_BEST[i])
      && forall s :: s in ms ==> s.quality !in FROM_BEST[i + 1..])
    ensures forall i :: 0 <= i < 8 ==> (WorstGrade(ms) == GRADES_FROM_BEST[i] <==>
      && (exists s :: s in ms && s.grade == GRADES_FROM_BEST[i])
      && forall s :: s in ms ==> s.grade !in GRADES_FROM_BEST[i + 1..])
  {
    ColoursAreWorst(ms);
    hide WorstQuality, WorstGrade;
    forall i | 0 <= i < 5
      ensures forall q :: q in FROM_BEST[i + 1..] <==> QualitySeverity(FROM_BEST[i]) < QualitySeverity(q)
    {
      QualityOrder(i);
    }
    forall i | 0 <= i < 8
      ensures forall g :: g in GRADES_FROM_BEST[i + 1..] <==> GradeSeverity(GRADES_FROM_BEST[i]) < GradeSeverity(g)
    {
      GradeOrder(i);
    }
  }

  lemma QualityOrder(i: nat)
    requires i < 5
    ensures forall q :: q in FROM_BEST[i + 1..] <==> QualitySeverity(FROM_BEST[i]) < QualitySeverity(q)
  {
  }

  lemma GradeOrder(i: nat)
    requires i < 8
    ensures forall g :: g in GRADES_FROM_BEST[i + 1..] <==> GradeSeverity(GRADES_FROM_BEST[i]) < GradeSeverity(g)
  {
  }

  /** At most 48 buckets for up to a day, 56 for up to a week and 60 beyond, each as short as that allows. */
  lemma BucketsMean(since: int, now: int)
    requires since < now
    ensures var day, length, count, step := 86400000, now - since, BucketCount(now - since), BucketStep(now - since);
      var limit := if length <= day then 48 else if length <= 7 * day then 56 else 60;
      1 <= count <= limit && limit * (step - 1) < length <= limit * step
  {
    BucketsTile(since, now);
    var limit := BucketLimit(now - since);
    DivisionBounds(now - since + limit - 1, limit);
  }
}
