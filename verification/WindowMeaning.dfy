/**
 What the sums of a window count, in terms of the stored results and of the moments of time they cover.
 */
module WindowMeaning {
  import opened Tables
  import opened Timeline
  import opened Evidence
  import E = Evaluation
  import D = Database

  // ----- Moments -----

  predicate IsBetween(t: int, lo: int, hi: int) {
    lo <= t < hi
  }

  ghost function Range(lo: int, hi: int): set<int> {
    set t: int | lo <= t < hi && IsBetween(t, lo, hi)
  }

  /** The milliseconds of a span that a round covers. */
  ghost function Moments(q: Round, lo: int, hi: int): set<int> {
    set t: int | lo <= t < hi && IsBetween(t, q.finished, q.coveredUntil)
  }

  /** The milliseconds of a span that some formal round of the server covers. */
  ghost function CoveredMoments(rs: seq<Round>, server: nat, lo: int, hi: int): set<int> {
    set t: int | lo <= t < hi && IsCovered(rs, server, t)
  }

  ghost predicate IsCovered(rs: seq<Round>, server: nat, t: int) {
    exists q :: q in rs && !q.auxiliary && q.server == server && q.finished <= t < q.coveredUntil
  }

  lemma {:induction false} RangeSize(lo: int, hi: int)
    ensures |Range(lo, hi)| == Max(0, hi - lo)
    decreases hi - lo
  {
    if lo < hi {
      RangeSize(lo, hi - 1);
      assert Range(lo, hi) == Range(lo, hi - 1) + {hi - 1};
    } else {
      assert Range(lo, hi) == {};
    }
  }

  lemma OverlapIsMoments(q: Round, lo: int, hi: int)
    ensures E.Overlap(q, lo, hi) == |Moments(q, lo, hi)|
  {
    var a, b := Max(lo, q.finished), Min(hi, q.coveredUntil);
    RangeSize(a, b);
    assert Moments(q, lo, hi) == Range(a, b);
  }

  /** The covered time of a span is the number of its milliseconds covered by a formal round of the server. */
  lemma {:induction false} CoveredIsMoments(rs: seq<Round>, server: nat, w: E.Span)
    requires Consistent(rs)
    ensures E.TallyOf(rs, server, w).covered == |CoveredMoments(rs, server, w.lo, w.hi)|
  {
    hide E.TallyOf, E.Share, E.Overlap;
    E.CoverageStep(rs, server, w);
    if |rs| == 0 {
      assert CoveredMoments(rs, server, w.lo, w.hi) == {};
    } else {
      var n := |rs| - 1;
      E.ConsistentPrefix(rs, n);
      CoveredIsMoments(rs[..n], server, w);
      OverlapIsMoments(rs[n], w.lo, w.hi);
      LastMoments(rs, server, w.lo, w.hi);
    }
  }

  lemma LastMoments(rs: seq<Round>, server: nat, lo: int, hi: int)
    requires Consistent(rs) && |rs| > 0
    ensures var rest, q := CoveredMoments(rs[..|rs| - 1], server, lo, hi), rs[|rs| - 1];
      |CoveredMoments(rs, server, lo, hi)| == |rest| + if Formal(q, server) then |Moments(q, lo, hi)| else 0
  {
    var n := |rs| - 1;
    var rest, q := CoveredMoments(rs[..n], server, lo, hi), rs[n];
    assert forall x :: x in rs <==> x in rs[..n] || x == q;
    if Formal(q, server) {
      assert CoveredMoments(rs, server, lo, hi) == rest + Moments(q, lo, hi);
      forall t | t in rest ensures t !in Moments(q, lo, hi) {
        OthersCoverOtherTimes(rs, server, t);
      }
    } else {
      assert CoveredMoments(rs, server, lo, hi) == rest;
    }
  }

  lemma OthersCoverOtherTimes(rs: seq<Round>, server: nat, t: int)
    requires Consistent(rs) && |rs| > 0 && Formal(rs[|rs| - 1], server) && IsCovered(rs[..|rs| - 1], server, t)
    ensures !IsBetween(t, rs[|rs| - 1].finished, rs[|rs| - 1].coveredUntil)
  {
    var rest, q := rs[..|rs| - 1], rs[|rs| - 1];
    var x :| x in rest && !x.auxiliary && x.server == server && x.finished <= t < x.coveredUntil;
    var i :| 0 <= i < |rest| && rest[i] == x;
    assert x == rs[i] && x.id < q.id;
    E.LaneIsDisjoint(rs, x, q);
  }

  // ----- Available time -----

  /** The time a round covers, times the share of its results that were received. */
  lemma OneRoundAvailability(q: Round, server: nat, w: E.Span)
    requires !q.auxiliary && q.server == server && 0 < q.agg.samples
    ensures var t := E.TallyOf([q], server, w);
      t.available * q.agg.samples as real == (|Moments(q, w.lo, w.hi)| * q.agg.received) as real
  {
    hide E.TallyOf, E.Overlap;
    E.CoverageStep([q], server, w);
    E.CoverageStep([], server, w);
    assert [q][..0] == [];
    OverlapIsMoments(q, w.lo, w.hi);
    ShareIs(q, w.lo, w.hi);
  }

  lemma ShareIs(q: Round, lo: int, hi: int)
    requires 0 < q.agg.samples
    ensures E.Share(q, lo, hi) * q.agg.samples as real == (|Moments(q, lo, hi)| * q.agg.received) as real
    ensures E.Share(q, lo, hi) == (|Moments(q, lo, hi)| * q.agg.received) as real / q.agg.samples as real
  {
    OverlapIsMoments(q, lo, hi);
    var d, a, b := |Moments(q, lo, hi)| as real, q.agg.received as real, q.agg.samples as real;
    assert E.Share(q, lo, hi) == d * (a / b);
    assert (|Moments(q, lo, hi)| * q.agg.received) as real == d * a;
    hide *;
    QuotientOut(d, a, b);
  }

  lemma QuotientOut(d: real, a: real, b: real)
    requires 0.0 < b
    ensures d * (a / b) * b == d * a && d * (a / b) == d * a / b
  {
    var r := a / b;
    assert r * b == a;
    assert d * r * b == d * (r * b);
    assert d * a / b * b == d * a;
  }

  // ----- Counts, as results -----

  datatype Kind = Any | Received | Successful | Measured

  predicate IsOf(r: Result, kind: Kind) {
    match kind
    case Any => true
    case Received => r.received
    case Successful => r.success
    case Measured => r.success && 0.0 <= r.latency
  }

  /** The stored results of some rounds. */
  ghost function ResultsOf(results: seq<Result>, ids: set<nat>, kind: Kind): set<Result> {
    set r | r in results && r.round in ids && IsOf(r, kind)
  }

  /** The sum of their measured latencies. */
  function LatencyOf(results: seq<Result>, ids: set<nat>): real {
    if |results| == 0 then 0.0
    else
      var last := results[|results| - 1];
      LatencyOf(results[..|results| - 1], ids) + if last.round in ids && last.success && 0.0 <= last.latency then last.latency else 0.0
  }

  ghost predicate IsWorst(results: seq<Result>, ids: set<nat>, worst: nat) {
    && (forall r :: r in results && r.round in ids ==> r.effective <= worst)
    && (worst == 0 || exists r :: r in results && r.round in ids && r.effective == worst)
  }

  lemma LastIsNew(results: seq<Result>)
    requires OrderedResults(results) && |results| > 0
    ensures results[|results| - 1] !in results[..|results| - 1] && OrderedResults(results[..|results| - 1])
    ensures forall r :: r in results <==> r in results[..|results| - 1] || r == results[|results| - 1]
  {
  }

  lemma OneMoreResult(results: seq<Result>, ids: set<nat>, kind: Kind)
    requires OrderedResults(results) && |results| > 0
    ensures var rest, last := results[..|results| - 1], results[|results| - 1];
      |ResultsOf(results, ids, kind)| == |ResultsOf(rest, ids, kind)| + if last.round in ids && IsOf(last, kind) then 1 else 0
  {
    var rest, last := results[..|results| - 1], results[|results| - 1];
    LastIsNew(results);
    hide OrderedResults;
    var counted := if last.round in ids && IsOf(last, kind) then {last} else {};
    ResultsWithLast(results, rest, last, ids, kind);
    assert last !in ResultsOf(rest, ids, kind);
    hide *;
    assert |ResultsOf(rest, ids, kind) + counted| == |ResultsOf(rest, ids, kind)| + |counted|;
  }

  lemma ResultsWithLast(results: seq<Result>, rest: seq<Result>, last: Result, ids: set<nat>, kind: Kind)
    requires forall r :: r in results <==> r in rest || r == last
    ensures ResultsOf(results, ids, kind)
            == ResultsOf(rest, ids, kind) + if last.round in ids && IsOf(last, kind) then {last} else {}
  {
    hide IsOf;
  }

  ghost predicate CountsRound(a: Aggregate, results: seq<Result>, ids: set<nat>) {
    && a.samples == |ResultsOf(results, ids, Any)|
    && a.received == |ResultsOf(results, ids, Received)|
    && a.successes == |ResultsOf(results, ids, Successful)|
    && a.latencyCount == |ResultsOf(results, ids, Measured)|
  }

  /** The materialised sums of a round count its stored results. */
  lemma {:induction false} RoundCountsResults(results: seq<Result>, id: nat)
    requires OrderedResults(results)
    ensures CountsRound(Totals(results, id), results, {id})
  {
    hide OrderedResults, CountsRound, Plus;
    if |results| == 0 {
      NothingInRound(id);
    } else {
      var n := |results| - 1;
      LastIsNew(results);
      RoundCountsResults(results[..n], id);
      hide Totals;
      TotalsOfLast(results[..n], results[n], id);
      assert results[..n] + [results[n]] == results;
      OneMoreCounts(Totals(results[..n], id), results, id);
    }
  }

  lemma NothingInRound(id: nat)
    ensures CountsRound(NOTHING, [], {id})
  {
    assert forall kind :: ResultsOf([], {id}, kind) == {};
  }

  lemma OneMoreCounts(a: Aggregate, results: seq<Result>, id: nat)
    requires OrderedResults(results) && |results| > 0 && CountsRound(a, results[..|results| - 1], {id})
    ensures var last := results[|results| - 1];
      CountsRound(if last.round == id then Plus(a, last) else a, results, {id})
  {
    hide OrderedResults, ResultsOf, Bucket;
    OneMoreResult(results, {id}, Any);
    OneMoreResult(results, {id}, Received);
    OneMoreResult(results, {id}, Successful);
    OneMoreResult(results, {id}, Measured);
  }

  /** So are its latency and its worst verdict those of its stored results. */
  lemma {:induction false} RoundSumsResults(results: seq<Result>, id: nat)
    ensures Totals(results, id).latencySum == LatencyOf(results, {id})
    ensures IsWorst(results, {id}, Totals(results, id).pollution)
  {
    if |results| > 0 {
      var n := |results| - 1;
      RoundSumsResults(results[..n], id);
      TotalsOfLast(results[..n], results[n], id);
      assert results[..n] + [results[n]] == results;
      hide Totals, Bucket;
      assert forall r :: r in results <==> r in results[..n] || r == results[n];
    }
  }

  lemma MoreRounds(results: seq<Result>, ids: set<nat>, id: nat, kind: Kind)
    requires id !in ids
    ensures |ResultsOf(results, ids + {id}, kind)| == |ResultsOf(results, ids, kind)| + |ResultsOf(results, {id}, kind)|
  {
    assert ResultsOf(results, ids + {id}, kind) == ResultsOf(results, ids, kind) + ResultsOf(results, {id}, kind);
    assert ResultsOf(results, ids, kind) !! ResultsOf(results, {id}, kind);
  }

  lemma {:induction false} MoreLatency(results: seq<Result>, ids: set<nat>, id: nat)
    requires id !in ids
    ensures LatencyOf(results, ids + {id}) == LatencyOf(results, ids) + LatencyOf(results, {id})
  {
    if |results| > 0 { MoreLatency(results[..|results| - 1], ids, id); }
  }

  lemma {:induction false} NoLatency(results: seq<Result>)
    ensures LatencyOf(results, {}) == 0.0
  {
    if |results| > 0 { NoLatency(results[..|results| - 1]); }
  }

  /** The formal rounds of a server that finished in [from, to). */
  ghost function RoundsIn(rounds: seq<Round>, server: nat, from: int, to: int): set<nat> {
    set q | q in rounds && !q.auxiliary && q.server == server && from <= q.finished < to :: q.id
  }

  /** The sums are those of the stored results of these rounds. */
  ghost predicate CountsResults(t: E.Tally, results: seq<Result>, ids: set<nat>) {
    && t.samples == |ResultsOf(results, ids, Any)|
    && t.successes == |ResultsOf(results, ids, Successful)|
    && t.latencyCount == |ResultsOf(results, ids, Measured)|
    && t.latencySum == LatencyOf(results, ids)
    && IsWorst(results, ids, t.pollution)
  }

  lemma LastRoundIn(rounds: seq<Round>, server: nat, from: int, to: int)
    requires OrderedIds(rounds) && |rounds| > 0
    ensures var rest, q := RoundsIn(rounds[..|rounds| - 1], server, from, to), rounds[|rounds| - 1];
      && q.id !in rest
      && RoundsIn(rounds, server, from, to) == if Formal(q, server) && from <= q.finished < to then rest + {q.id} else rest
  {
    var rest := rounds[..|rounds| - 1];
    assert forall x :: x in rounds <==> x in rest || x == rounds[|rounds| - 1];
    forall x | x in rest ensures x.id < rounds[|rounds| - 1].id {
      var i :| 0 <= i < |rest| && rest[i] == x;
      assert x == rounds[i];
    }
  }

  /** Every count of a window is the number of stored results of the server's formal rounds that finished in it; its
      latency is their sum, and its verdict the worst of theirs. */
  lemma {:induction false} WindowCountsResults(rounds: seq<Round>, results: seq<Result>, server: nat, w: E.Span)
    requires OrderedIds(rounds) && OrderedResults(results) && D.Summed(rounds, results)
    ensures CountsResults(E.TallyOf(rounds, server, w), results, RoundsIn(rounds, server, w.from, w.to))
    ensures E.ReceivedIn(rounds, server, w) == |ResultsOf(results, RoundsIn(rounds, server, w.from, w.to), Received)|
  {
    hide E.TallyOf, Totals, OrderedResults, CountsResults, ResultsOf, RoundsIn, E.Counts;
    E.CountsStep(rounds, server, w);
    if |rounds| == 0 {
      NothingCounted(results, server, w.from, w.to);
    } else {
      var n := |rounds| - 1;
      var q := rounds[n];
      assert q in rounds && forall x :: x in rounds[..n] ==> x in rounds;
      WindowCountsResults(rounds[..n], results, server, w);
      LastRoundIn(rounds, server, w.from, w.to);
      assert E.Counts(q, w) <==> w.from <= q.finished < w.to by { CountsIs(q, w); }
      if Formal(q, server) && E.Counts(q, w) {
        var t, u := E.TallyOf(rounds[..n], server, w), E.TallyOf(rounds, server, w);
        var ids := RoundsIn(rounds[..n], server, w.from, w.to);
        RoundCountsResults(results, q.id);
        MoreRounds(results, ids, q.id, Received);
        OneRoundMore(t, u, results, ids, q);
      } else {
        SameCounts(E.TallyOf(rounds[..n], server, w), E.TallyOf(rounds, server, w), results, RoundsIn(rounds, server, w.from, w.to));
      }
    }
  }

  lemma CountsIs(q: Round, w: E.Span)
    ensures E.Counts(q, w) <==> w.from <= q.finished < w.to
  {
  }

  lemma NothingCounted(results: seq<Result>, server: nat, from: int, to: int)
    ensures RoundsIn([], server, from, to) == {}
    ensures CountsResults(E.EMPTY, results, {}) && forall kind :: ResultsOf(results, {}, kind) == {}
  {
    NoLatency(results);
    assert forall kind :: ResultsOf(results, {}, kind) == {};
  }

  lemma SameCounts(t: E.Tally, u: E.Tally, results: seq<Result>, ids: set<nat>)
    requires CountsResults(t, results, ids)
    requires u.samples == t.samples && u.successes == t.successes && u.latencyCount == t.latencyCount
    requires u.latencySum == t.latencySum && u.pollution == t.pollution
    ensures CountsResults(u, results, ids)
  {
  }

  lemma OneRoundMore(t: E.Tally, u: E.Tally, results: seq<Result>, ids: set<nat>, q: Round)
    requires CountsResults(t, results, ids) && q.id !in ids && OrderedResults(results) && q.agg == Totals(results, q.id)
    requires u.samples == t.samples + q.agg.samples && u.successes == t.successes + q.agg.successes
    requires u.latencyCount == t.latencyCount + q.agg.latencyCount && u.latencySum == t.latencySum + q.agg.latencySum
    requires u.pollution == Max(t.pollution, q.agg.pollution)
    ensures CountsResults(u, results, ids + {q.id})
  {
    RoundCountsResults(results, q.id);
    RoundSumsResults(results, q.id);
    hide Totals, ResultsOf, OrderedResults;
    MoreRounds(results, ids, q.id, Any);
    MoreRounds(results, ids, q.id, Successful);
    MoreRounds(results, ids, q.id, Measured);
    MoreLatency(results, ids, q.id);
  }

  // ----- Available time, from results -----

  /** Over the formal rounds of a server: the time a round covers in the span, times the received ones among its stored
      results, over all of them. */
  ghost function Uptime(rounds: seq<Round>, results: seq<Result>, server: nat, lo: int, hi: int): real {
    if |rounds| == 0 then 0.0
    else
      var q := rounds[|rounds| - 1];
      var all, received := |ResultsOf(results, {q.id}, Any)|, |ResultsOf(results, {q.id}, Received)|;
      Uptime(rounds[..|rounds| - 1], results, server, lo, hi)
      + if !q.auxiliary && q.server == server && 0 < all then (|Moments(q, lo, hi)| * received) as real / all as real else 0.0
  }

  lemma {:induction false} AvailableIsUptime(rounds: seq<Round>, results: seq<Result>, server: nat, w: E.Span)
    requires OrderedResults(results) && D.Summed(rounds, results)
    ensures E.TallyOf(rounds, server, w).available == Uptime(rounds, results, server, w.lo, w.hi)
  {
    hide E.TallyOf, E.Share, Totals, OrderedResults, ResultsOf, Moments;
    E.CoverageStep(rounds, server, w);
    if |rounds| > 0 {
      var n := |rounds| - 1;
      var q := rounds[n];
      assert q in rounds && forall x :: x in rounds[..n] ==> x in rounds;
      AvailableIsUptime(rounds[..n], results, server, w);
      RoundCountsResults(results, q.id);
      if q.agg.samples > 0 { ShareIs(q, w.lo, w.hi); } else { NoSamplesNoShare(q, w.lo, w.hi, results); }
    }
  }

  lemma NoSamplesNoShare(q: Round, lo: int, hi: int, results: seq<Result>)
    requires q.agg == Totals(results, q.id) && q.agg.samples == 0
    ensures E.Share(q, lo, hi) == 0.0
  {
    assert E.Ratio(q) == 0.0;
    hide E.Overlap, E.Ratio;
    assert E.Overlap(q, lo, hi) as real * 0.0 == 0.0;
  }

  /** A server that answered everything while covered is fully available. */
  lemma {:induction false} FlawlessIsAvailable(rs: seq<Round>, server: nat, w: E.Span)
    requires forall q :: q in rs && !q.auxiliary && q.server == server && Moments(q, w.lo, w.hi) != {} ==>
      q.agg.received == q.agg.samples && 0 < q.agg.samples
    ensures E.TallyOf(rs, server, w).available == E.TallyOf(rs, server, w).covered as real
  {
    hide E.TallyOf, E.Share, E.Overlap, Moments;
    E.CoverageStep(rs, server, w);
    if |rs| > 0 {
      var n := |rs| - 1;
      var q := rs[n];
      assert q in rs && forall x :: x in rs[..n] ==> x in rs;
      FlawlessIsAvailable(rs[..n], server, w);
      OverlapIsMoments(q, w.lo, w.hi);
      if Formal(q, server) { WholeOrNoShare(q, w.lo, w.hi); }
    }
  }

  /** A server that answered nothing while covered is not available at all. */
  lemma {:induction false} SilentIsUnavailable(rs: seq<Round>, server: nat, w: E.Span)
    requires forall q :: q in rs && !q.auxiliary && q.server == server && Moments(q, w.lo, w.hi) != {} ==> q.agg.received == 0
    ensures E.TallyOf(rs, server, w).available == 0.0
  {
    hide E.TallyOf, E.Share, E.Overlap, Moments;
    E.CoverageStep(rs, server, w);
    if |rs| > 0 {
      var n := |rs| - 1;
      var q := rs[n];
      assert q in rs && forall x :: x in rs[..n] ==> x in rs;
      SilentIsUnavailable(rs[..n], server, w);
      OverlapIsMoments(q, w.lo, w.hi);
      if Formal(q, server) { WholeOrNoShare(q, w.lo, w.hi); }
    }
  }

  lemma WholeOrNoShare(q: Round, lo: int, hi: int)
    ensures q.agg.received == q.agg.samples && 0 < q.agg.samples ==> E.Share(q, lo, hi) == E.Overlap(q, lo, hi) as real
    ensures q.agg.received == 0 || E.Overlap(q, lo, hi) == 0 ==> E.Share(q, lo, hi) == 0.0
  {
    var d, r := E.Overlap(q, lo, hi) as real, E.Ratio(q);
    assert q.agg.received == q.agg.samples && 0 < q.agg.samples ==> r == 1.0;
    assert q.agg.received == 0 ==> r == 0.0;
    assert E.Share(q, lo, hi) == d * r;
    hide *;
    assert d == 0.0 || r == 0.0 ==> d * r == 0.0;
    assert r == 1.0 ==> d * r == d;
  }

  // ----- In every reachable database -----

  /** What the sums of a span mean on a database. */
  ghost predicate Means(db: D.Db, server: nat, w: E.Span, t: E.Tally) {
    && CountsResults(t, db.results, RoundsIn(db.rounds, server, w.from, w.to))
    && t.covered == |CoveredMoments(db.rounds, server, w.lo, w.hi)|
    && t.available == Uptime(db.rounds, db.results, server, w.lo, w.hi)
  }

  /** In every reachable database the sums of any span count stored results, covered milliseconds, and the covered time
      weighted by the received share of the results. */
  lemma ReachableSumsMean(es: seq<D.Event>, server: nat, w: E.Span)
    ensures Means(D.RunAll(es), server, w, E.TallyOf(D.RunAll(es).rounds, server, w))
  {
    var db := D.RunAll(es);
    ReachableIsOrdered(es);
    hide *;
    SumsMean(db, server, w);
  }

  lemma ReachableIsOrdered(es: seq<D.Event>)
    ensures var db := D.RunAll(es); Consistent(db.rounds) && OrderedResults(db.results) && D.Summed(db.rounds, db.results)
  {
    hide Consistent, OrderedResults, D.Summed;
  }

  lemma SumsMean(db: D.Db, server: nat, w: E.Span)
    requires Consistent(db.rounds) && OrderedResults(db.results) && D.Summed(db.rounds, db.results)
    ensures Means(db, server, w, E.TallyOf(db.rounds, server, w))
  {
    hide E.TallyOf, Bounded, Disjoint, D.Summed, OrderedResults, CountsResults;
    WindowCountsResults(db.rounds, db.results, server, w);
    CoveredIsMoments(db.rounds, server, w);
    AvailableIsUptime(db.rounds, db.results, server, w);
  }
}
