/**
 The coverage timeline of formal probe rounds.

 Every formal round covers [finished, coveredUntil). SaveRound clips the new interval at the
 next finish it can see and re-clips its predecessor; retention removes rounds. This module
 states what those statements do to the table and proves what survives every run of them.
 */
module Timeline {
  import opened Tables

  /** The part of a probe round that the timeline statements look at. */
  datatype Probe = Probe(server: nat, started: int, finished: int, nextDue: int, auxiliary: bool, agg: Aggregate)

  predicate ValidProbe(v: Probe) {
    0 < v.server && 0 < v.started <= v.finished < v.nextDue
  }

  predicate Formal(r: Round, server: nat) {
    !r.auxiliary && r.server == server
  }

  predicate SameLane(a: Round, b: Round) {
    !a.auxiliary && !b.auxiliary && a.server == b.server
  }

  /** The order of `ORDER BY finished_at, id`. */
  predicate Before(a: Round, b: Round) {
    a.finished < b.finished || (a.finished == b.finished && a.id < b.id)
  }

  ghost predicate OrderedIds(rs: seq<Round>) {
    forall i, j :: 0 <= i < j < |rs| ==> rs[i].id < rs[j].id
  }

  ghost predicate Bounded(rs: seq<Round>) {
    forall r :: r in rs ==> r.finished <= r.coveredUntil <= r.nextDue && r.finished < r.nextDue
  }

  ghost predicate Disjoint(rs: seq<Round>) {
    forall a, b :: a in rs && b in rs && SameLane(a, b) && Before(a, b) ==> a.coveredUntil <= b.finished
  }

  /** What every reachable table of rounds satisfies. */
  ghost predicate Consistent(rs: seq<Round>) {
    OrderedIds(rs) && Bounded(rs) && Disjoint(rs)
  }

  /** The finish times of the formal rounds of a server. */
  ghost function Finishes(rs: seq<Round>, server: nat): set<int> {
    set r | r in rs && Formal(r, server) :: r.finished
  }

  ghost predicate IsLeastFrom(s: set<int>, from: int, m: int) {
    m in s && from <= m && forall f :: f in s && from <= f ==> m <= f
  }

  lemma {:induction false} LeastExists(s: set<int>, from: int, found: int)
    requires found in s && from <= found
    ensures exists m :: IsLeastFrom(s, from, m)
    decreases found - from
  {
    if f :| f in s && from <= f < found {
      LeastExists(s, from, f);
    } else {
      assert IsLeastFrom(s, from, found);
    }
  }

  /** The least element of `s` that is at least `from`, if there is one. */
  ghost function LeastFrom(s: set<int>, from: int): (m: Option<int>)
    ensures m.None? ==> forall f :: f in s ==> f < from
    ensures m.Some? ==> IsLeastFrom(s, from, m.value)
  {
    if exists m :: IsLeastFrom(s, from, m) then
      var m :| IsLeastFrom(s, from, m);
      Some(m)
    else
      assert forall f :: f in s ==> f < from by {
        forall f | f in s ensures f < from {
          if from <= f { LeastExists(s, from, f); }
        }
      }
      None
  }

  lemma LeastFromAgrees(s: set<int>, t: set<int>, from: int)
    requires forall f :: from <= f ==> (f in s <==> f in t)
    ensures LeastFrom(s, from) == LeastFrom(t, from)
  {
    hide LeastFrom;
  }

  /** SELECT MIN(finished_at) FROM rounds WHERE server_id=server AND auxiliary=0 AND finished_at>=from */
  ghost function MinFinished(rs: seq<Round>, server: nat, from: int): Option<int> {
    LeastFrom(Finishes(rs, server), from)
  }

  /** rs[p] is the last formal round of `server`, by (finished, id), that finished no later than `until`. */
  ghost predicate IsLatest(rs: seq<Round>, server: nat, until: int, p: int) {
    && 0 <= p < |rs|
    && Formal(rs[p], server)
    && rs[p].finished <= until
    && forall r :: r in rs && Formal(r, server) && r.finished <= until && r != rs[p] ==> Before(r, rs[p])
  }

  lemma {:induction false} LatestExists(rs: seq<Round>, server: nat, until: int)
    requires OrderedIds(rs)
    requires exists r :: r in rs && Formal(r, server) && r.finished <= until
    ensures exists p :: IsLatest(rs, server, until, p)
  {
    var n := |rs| - 1;
    assert forall r :: r in rs <==> r in rs[..n] || r == rs[n];
    if exists r :: r in rs[..n] && Formal(r, server) && r.finished <= until {
      LatestExists(rs[..n], server, until);
      var p :| IsLatest(rs[..n], server, until, p);
      LatestWithLast(rs, server, until, p);
    } else {
      assert IsLatest(rs, server, until, n);
    }
  }

  lemma LatestWithLast(rs: seq<Round>, server: nat, until: int, p: int)
    requires OrderedIds(rs) && |rs| > 0 && IsLatest(rs[..|rs| - 1], server, until, p)
    ensures exists q :: IsLatest(rs, server, until, q)
  {
    var n := |rs| - 1;
    assert forall r :: r in rs <==> r in rs[..n] || r == rs[n];
    if Formal(rs[n], server) && rs[n].finished <= until && rs[p].finished <= rs[n].finished {
      assert IsLatest(rs, server, until, n);
    } else {
      assert IsLatest(rs, server, until, p);
    }
  }

  /** SELECT id ... WHERE server_id=server AND auxiliary=0 AND finished_at<=until
      ORDER BY finished_at DESC, id DESC LIMIT 1, as a position in the table; -1 if there is none. */
  ghost function LastIndex(rs: seq<Round>, server: nat, until: int): (p: int)
    requires OrderedIds(rs)
    ensures -1 <= p < |rs|
    ensures p == -1 ==> forall r :: r in rs && Formal(r, server) ==> until < r.finished
    ensures 0 <= p ==> IsLatest(rs, server, until, p)
  {
    if exists p :: IsLatest(rs, server, until, p) then
      var p :| IsLatest(rs, server, until, p);
      p
    else
      assert forall r :: r in rs && Formal(r, server) ==> until < r.finished by {
        forall r | r in rs && Formal(r, server) ensures until < r.finished {
          if r.finished <= until { LatestExists(rs, server, until); }
        }
      }
      -1
  }

  function Clip(nextDue: int, at: Option<int>): int {
    if at.Some? && at.value < nextDue then at.value else nextDue
  }

  function NextId(rs: seq<Round>): nat {
    if |rs| == 0 then 1 else rs[|rs| - 1].id + 1
  }

  ghost function NewRound(rs: seq<Round>, v: Probe): Round {
    Round(NextId(rs), v.server, v.started, v.finished, v.nextDue,
          if v.auxiliary then v.nextDue else Clip(v.nextDue, MinFinished(rs, v.server, v.finished)),
          v.auxiliary, v.agg)
  }

  function Reclipped(r: Round, finished: int): Round {
    r.(coveredUntil := Min(r.nextDue, finished))
  }

  /** The rounds table after the round statements of SaveRound. */
  ghost function Inserted(rs: seq<Round>, v: Probe): (out: seq<Round>)
    requires OrderedIds(rs)
    ensures |out| == |rs| + 1
  {
    var p := LastIndex(rs, v.server, v.finished);
    (if v.auxiliary || p == -1 then rs else rs[p := Reclipped(rs[p], v.finished)]) + [NewRound(rs, v)]
  }

  /** DELETE FROM rounds WHERE id IN ids */
  function Without(rs: seq<Round>, ids: set<nat>): (out: seq<Round>)
    ensures forall r :: r in out <==> r in rs && r.id !in ids
  {
    if |rs| == 0 then []
    else
      var n := |rs| - 1;
      assert forall r :: r in rs <==> r in rs[..n] || r == rs[n];
      if rs[n].id in ids then Without(rs[..n], ids) else Without(rs[..n], ids) + [rs[n]]
  }

  // ----- Queries over the rounds table -----

  lemma LatestIsUnique(rs: seq<Round>, server: nat, until: int, p: int, q: int)
    requires OrderedIds(rs) && IsLatest(rs, server, until, p) && IsLatest(rs, server, until, q)
    ensures p == q
  {
    assert rs[p] in rs && rs[q] in rs;
    assert rs[p] == rs[q];
  }

  method QueryMinFinished(rounds: seq<Round>, server: nat, from: int) returns (m: Option<int>)
    ensures m == MinFinished(rounds, server, from)
  {
    hide LeastFrom;
    m := None;
    for i := 0 to |rounds|
      invariant m == LeastFrom(Finishes(rounds[..i], server), from)
    {
      var r := rounds[i];
      assert Finishes(rounds[..i + 1], server) == Finishes(rounds[..i], server) + if Formal(r, server) then {r.finished} else {} by {
        assert forall q :: q in rounds[..i + 1] <==> q in rounds[..i] || q == r;
      }
      if Formal(r, server) && from <= r.finished && (m.None? || r.finished < m.value) {
        m := Some(r.finished);
      }
    }
    assert rounds[..|rounds|] == rounds;
  }

  method QueryLastIndex(rounds: seq<Round>, server: nat, until: int) returns (p: int)
    requires OrderedIds(rounds)
    ensures p == LastIndex(rounds, server, until)
  {
    p := -1;
    for i := 0 to |rounds|
      invariant -1 <= p < i
      invariant p == -1 ==> forall r :: r in rounds[..i] && Formal(r, server) ==> until < r.finished
      invariant p != -1 ==> IsLatest(rounds[..i], server, until, p)
    {
      var r := rounds[i];
      assert forall q :: q in rounds[..i + 1] <==> q in rounds[..i] || q == r;
      if Formal(r, server) && r.finished <= until && (p == -1 || rounds[p].finished <= r.finished) {
        p := i;
      }
    }
    assert rounds[..|rounds|] == rounds;
    if p == -1 {
      forall q | 0 <= q < |rounds| ensures !IsLatest(rounds, server, until, q) {
        assert rounds[q] in rounds;
      }
    } else {
      LatestIsUnique(rounds, server, until, p, LastIndex(rounds, server, until));
    }
  }

  // ----- Deletion -----

  lemma IdsAreUnique(rs: seq<Round>, a: Round, b: Round)
    requires OrderedIds(rs) && a in rs && b in rs && a.id == b.id
    ensures a == b
  {
    var i :| 0 <= i < |rs| && rs[i] == a;
    var j :| 0 <= j < |rs| && rs[j] == b;
    assert i == j;
  }

  lemma {:induction false} WithoutIsOrdered(rs: seq<Round>, ids: set<nat>)
    requires OrderedIds(rs)
    ensures OrderedIds(Without(rs, ids))
  {
    if |rs| > 0 {
      var n := |rs| - 1;
      WithoutIsOrdered(rs[..n], ids);
      var w := Without(rs[..n], ids);
      assert Without(rs, ids) == if rs[n].id in ids then w else w + [rs[n]];
      hide Without;
      forall k | 0 <= k < |w| ensures w[k].id < rs[n].id {
        assert w[k] in rs[..n];
      }
    }
  }

  /** Any deletion (retention, a rebuilt-away round, a deleted server) keeps the timeline consistent. */
  lemma DeletionKeepsConsistent(rs: seq<Round>, ids: set<nat>)
    requires Consistent(rs)
    ensures Consistent(Without(rs, ids))
  {
    WithoutIsOrdered(rs, ids);
  }

  lemma {:induction false} WithoutTwice(rs: seq<Round>, a: set<nat>, b: set<nat>)
    ensures Without(Without(rs, a), b) == Without(rs, a + b)
  {
    if |rs| > 0 {
      var n := |rs| - 1;
      WithoutTwice(rs[..n], a, b);
      var w := Without(rs[..n], a);
      if rs[n].id !in a {
        assert (w + [rs[n]])[..|w|] == w;
      }
    }
  }

  lemma {:induction false} WithoutAgrees(rs: seq<Round>, a: set<nat>, b: set<nat>)
    requires forall r :: r in rs ==> (r.id in a <==> r.id in b)
    ensures Without(rs, a) == Without(rs, b)
  {
    if |rs| > 0 {
      var n := |rs| - 1;
      assert rs[n] in rs && forall r :: r in rs[..n] ==> r in rs;
      WithoutAgrees(rs[..n], a, b);
    }
  }

  // ----- Insertion -----

  /** Where the rows of the new table come from. */
  lemma InsertedRows(rs: seq<Round>, v: Probe, r: Round)
    requires OrderedIds(rs)
    ensures var p := LastIndex(rs, v.server, v.finished);
            r in Inserted(rs, v) <==>
            || r == NewRound(rs, v)
            || (r in rs && (v.auxiliary || p == -1 || r != rs[p]))
            || (!v.auxiliary && p != -1 && r == Reclipped(rs[p], v.finished))
  {
    var p := LastIndex(rs, v.server, v.finished);
    var out := Inserted(rs, v);
    if v.auxiliary || p == -1 {
      assert out == rs + [NewRound(rs, v)];
    } else {
      var changed := rs[p := Reclipped(rs[p], v.finished)];
      assert out == changed + [NewRound(rs, v)];
      assert changed[p] == Reclipped(rs[p], v.finished);
      if r in changed {
        var i :| 0 <= i < |changed| && changed[i] == r;
        assert i != p ==> rs[i] == r && rs[i].id != rs[p].id;
      }
      if r in rs && r != rs[p] {
        var i :| 0 <= i < |rs| && rs[i] == r;
        assert changed[i] == r;
      }
    }
  }

  lemma InsertionKeepsOrder(rs: seq<Round>, v: Probe)
    requires OrderedIds(rs)
    ensures OrderedIds(Inserted(rs, v))
  {
    var out := Inserted(rs, v);
    forall i, j | 0 <= i < j < |out| ensures out[i].id < out[j].id {
      assert out[i].id == rs[i].id;
      assert rs[i].id <= rs[|rs| - 1].id;
    }
  }

  /** No insertion, in any finish order and with any ties, makes coverage intervals overlap. */
  lemma InsertionKeepsConsistent(rs: seq<Round>, v: Probe)
    requires Consistent(rs) && ValidProbe(v)
    ensures Consistent(Inserted(rs, v))
  {
    hide LeastFrom, LastIndex, Inserted;
    var out := Inserted(rs, v);
    var p := LastIndex(rs, v.server, v.finished);
    var added := NewRound(rs, v);
    InsertionKeepsOrder(rs, v);
    forall r | r in out ensures r.finished <= r.coveredUntil <= r.nextDue && r.finished < r.nextDue {
      InsertedRows(rs, v, r);
    }
    forall r | r in rs ensures r.id < added.id {}
    forall a, b | a in out && b in out && SameLane(a, b) && Before(a, b) ensures a.coveredUntil <= b.finished {
      InsertedRows(rs, v, a);
      InsertedRows(rs, v, b);
      if p != -1 { assert rs[p] in rs; }
      if a == added && b in rs {
        assert b.finished in Finishes(rs, v.server);
      }
    }
  }

  // ----- The exact timeline: sort by finish time, then clip at the next finish -----

  /** `r` covers until the next round of its server finishes, or until its own deadline. */
  ghost predicate ExactAt(rs: seq<Round>, r: Round) {
    r.coveredUntil == Clip(r.nextDue, MinFinished(rs, r.server, r.finished + 1))
  }

  ghost predicate Exact(rs: seq<Round>) {
    forall r {:trigger ExactAt(rs, r)} :: r in rs && !r.auxiliary ==> ExactAt(rs, r)
  }

  ghost predicate NoTie(rs: seq<Round>, v: Probe) {
    v.finished !in Finishes(rs, v.server)
  }

  lemma FinishesAfterInsert(rs: seq<Round>, v: Probe, server: nat)
    requires OrderedIds(rs)
    ensures Finishes(Inserted(rs, v), server) ==
            Finishes(rs, server) + if !v.auxiliary && v.server == server then {v.finished} else {}
  {
    var out := Inserted(rs, v);
    var p := LastIndex(rs, v.server, v.finished);
    InsertedRows(rs, v, NewRound(rs, v));
    forall f | f in Finishes(out, server)
      ensures f in Finishes(rs, server) || (!v.auxiliary && v.server == server && f == v.finished)
    {
      var r :| r in out && Formal(r, server) && r.finished == f;
      InsertedRows(rs, v, r);
      if p != -1 { assert rs[p] in rs; }
    }
    forall f | f in Finishes(rs, server) ensures f in Finishes(out, server) {
      var r :| r in rs && Formal(r, server) && r.finished == f;
      InsertedRows(rs, v, r);
      InsertedRows(rs, v, Reclipped(r, v.finished));
      assert r in out || Reclipped(r, v.finished) in out;
    }
  }

  /** The last formal round that finished by `until`, by its finish time. */
  lemma LastIndexIsLatest(rs: seq<Round>, server: nat, until: int)
    requires OrderedIds(rs)
    ensures var p := LastIndex(rs, server, until);
            && (p != -1 ==> rs[p].finished in Finishes(rs, server))
            && forall f :: f in Finishes(rs, server) && f <= until ==> p != -1 && f <= rs[p].finished
  {
    var p := LastIndex(rs, server, until);
    if p != -1 { assert rs[p] in rs; }
    forall f | f in Finishes(rs, server) && f <= until ensures p != -1 && f <= rs[p].finished {
      var r :| r in rs && Formal(r, server) && r.finished == f;
    }
  }

  /** An exact timeline has no two formal rounds of one server with the same finish time. */
  lemma ExactMeansDistinct(rs: seq<Round>, a: Round, b: Round)
    requires Consistent(rs) && Exact(rs) && a in rs && b in rs && SameLane(a, b) && a != b
    ensures a.finished != b.finished
  {
    assert a.id != b.id by {
      if a.id == b.id { IdsAreUnique(rs, a, b); }
    }
    assert ExactAt(rs, a) && ExactAt(rs, b);
    assert a.finished < a.coveredUntil && b.finished < b.coveredUntil;
  }

  lemma NewRoundIsExact(rs: seq<Round>, v: Probe)
    requires OrderedIds(rs) && ValidProbe(v) && !v.auxiliary && NoTie(rs, v)
    ensures ExactAt(Inserted(rs, v), NewRound(rs, v))
  {
    hide LeastFrom, LastIndex, Inserted, Finishes;
    var out := Inserted(rs, v);
    FinishesAfterInsert(rs, v, v.server);
    LeastFromAgrees(Finishes(rs, v.server), Finishes(out, v.server), v.finished + 1);
    LeastFromGap(Finishes(rs, v.server), v.finished);
  }

  lemma LeastFromGap(s: set<int>, from: int)
    requires from !in s
    ensures LeastFrom(s, from) == LeastFrom(s, from + 1)
  {
    hide LeastFrom;
  }

  lemma PredecessorIsExact(rs: seq<Round>, v: Probe)
    requires OrderedIds(rs) && !v.auxiliary
    requires LastIndex(rs, v.server, v.finished) != -1 && NoTie(rs, v)
    ensures ExactAt(Inserted(rs, v), Reclipped(rs[LastIndex(rs, v.server, v.finished)], v.finished))
  {
    hide LeastFrom, LastIndex, Inserted, Finishes;
    var out := Inserted(rs, v);
    FinishesAfterInsert(rs, v, v.server);
    LastIndexIsLatest(rs, v.server, v.finished);
    var p := rs[LastIndex(rs, v.server, v.finished)];
    assert IsLeastFrom(Finishes(out, v.server), p.finished + 1, v.finished);
    assert MinFinished(out, v.server, p.finished + 1) == Some(v.finished);
  }

  lemma OtherStaysExact(rs: seq<Round>, v: Probe, r: Round)
    requires Consistent(rs) && Exact(rs) && ValidProbe(v) && !v.auxiliary && NoTie(rs, v)
    requires r in rs && !r.auxiliary
    requires var p := LastIndex(rs, v.server, v.finished); p == -1 || r != rs[p]
    ensures ExactAt(Inserted(rs, v), r)
  {
    hide LeastFrom, LastIndex, Inserted;
    var out := Inserted(rs, v);
    var p := LastIndex(rs, v.server, v.finished);
    FinishesAfterInsert(rs, v, r.server);
    assert ExactAt(rs, r);
    if r.server == v.server && r.finished < v.finished {
      assert rs[p] in rs && Before(r, rs[p]);
      ExactMeansDistinct(rs, r, rs[p]);
      assert rs[p].finished in Finishes(rs, r.server);
    } else {
      LeastFromAgrees(Finishes(rs, r.server), Finishes(out, r.server), r.finished + 1);
    }
  }

  /** The incremental repair keeps "clip at the next finish" exactly when the new finish time is new. */
  lemma InsertionExactIffNoTie(rs: seq<Round>, v: Probe)
    requires Consistent(rs) && Exact(rs) && ValidProbe(v) && !v.auxiliary
    ensures Exact(Inserted(rs, v)) <==> NoTie(rs, v)
  {
    var out := Inserted(rs, v);
    if NoTie(rs, v) {
      forall r | r in out && !r.auxiliary
        ensures ExactAt(out, r)
      {
        InsertedRows(rs, v, r);
        if r == NewRound(rs, v) {
          NewRoundIsExact(rs, v);
        } else if LastIndex(rs, v.server, v.finished) != -1 && r == Reclipped(rs[LastIndex(rs, v.server, v.finished)], v.finished) {
          PredecessorIsExact(rs, v);
        } else {
          OtherStaysExact(rs, v, r);
        }
      }
    } else {
      var r := NewRound(rs, v);
      InsertedRows(rs, v, r);
      assert MinFinished(rs, v.server, v.finished) == Some(v.finished);
      assert !ExactAt(out, r);
    }
  }

  /** A tie loses coverage: the new round and every round it ties with cover nothing. */
  lemma TieLosesCoverage(rs: seq<Round>, v: Probe, r: Round)
    requires Consistent(rs) && ValidProbe(v) && !v.auxiliary && !NoTie(rs, v)
    requires r in Inserted(rs, v) && Formal(r, v.server) && r.finished == v.finished
    ensures r.coveredUntil == r.finished
  {
    var p := LastIndex(rs, v.server, v.finished);
    InsertedRows(rs, v, r);
    LastIndexIsLatest(rs, v.server, v.finished);
    assert rs[p] in rs;
    assert MinFinished(rs, v.server, v.finished) == Some(v.finished);
  }

  lemma AuxiliaryKeepsExact(rs: seq<Round>, v: Probe)
    requires Consistent(rs) && Exact(rs) && ValidProbe(v) && v.auxiliary
    ensures Exact(Inserted(rs, v))
  {
    var out := Inserted(rs, v);
    forall r | r in out && !r.auxiliary
      ensures ExactAt(out, r)
    {
      InsertedRows(rs, v, r);
      FinishesAfterInsert(rs, v, r.server);
      assert ExactAt(rs, r);
      assert MinFinished(out, r.server, r.finished + 1) == MinFinished(rs, r.server, r.finished + 1);
    }
  }

  // ----- Retention -----

  /** Retention removes every round that finished before the cutoff; the rest stays exact. */
  lemma OldestFirstKeepsExact(rs: seq<Round>, ids: set<nat>, cutoff: int)
    requires Consistent(rs) && Exact(rs)
    requires forall r :: r in rs ==> (r.id in ids <==> r.finished < cutoff)
    ensures Exact(Without(rs, ids))
  {
    hide LeastFrom, LastIndex, Without, Inserted;
    var out := Without(rs, ids);
    forall r | r in out && !r.auxiliary
      ensures ExactAt(out, r)
    {
      assert ExactAt(rs, r);
      LeastFromAgrees(Finishes(rs, r.server), Finishes(out, r.server), r.finished + 1);
    }
  }

  /** A round can be dropped from an exact timeline without re-clipping its predecessor exactly
      when that predecessor was due by then anyway. */
  lemma DroppingOneExactIff(rs: seq<Round>, x: Round)
    requires Consistent(rs) && Exact(rs) && x in rs && !x.auxiliary
    ensures var p := LastIndex(rs, x.server, x.finished - 1);
            Exact(Without(rs, {x.id})) <==> p == -1 || rs[p].nextDue <= x.finished
  {
    var out := Without(rs, {x.id});
    var p := LastIndex(rs, x.server, x.finished - 1);
    if p == -1 || rs[p].nextDue <= x.finished {
      forall r | r in out && !r.auxiliary
        ensures ExactAt(out, r)
      {
        DropSeenFrom(rs, x, r);
      }
    } else {
      PredecessorFallsShort(rs, x);
    }
  }

  /** The predecessor still stops where the dropped round finished. */
  lemma PredecessorFallsShort(rs: seq<Round>, x: Round)
    requires Consistent(rs) && Exact(rs) && x in rs && !x.auxiliary
    requires var p := LastIndex(rs, x.server, x.finished - 1); p != -1 && x.finished < rs[p].nextDue
    ensures !Exact(Without(rs, {x.id}))
  {
    hide LeastFrom, LastIndex, Without;
    var out := Without(rs, {x.id});
    var r := rs[LastIndex(rs, x.server, x.finished - 1)];
    assert r in rs && r in out && ExactAt(rs, r);
    assert Exact(out) ==> ExactAt(out, r);
    FinishesAfterDrop(rs, x, x.server);
    assert IsLeastFrom(Finishes(rs, r.server), r.finished + 1, x.finished) by {
      assert x.finished in Finishes(rs, r.server);
      LastIndexIsLatest(rs, x.server, x.finished - 1);
    }
    assert MinFinished(rs, r.server, r.finished + 1) == Some(x.finished);
    var m' := MinFinished(out, r.server, r.finished + 1);
    assert m'.Some? ==> m'.value in Finishes(rs, r.server) && m'.value != x.finished;
  }

  lemma FinishesAfterDrop(rs: seq<Round>, x: Round, server: nat)
    requires Consistent(rs) && Exact(rs) && x in rs && !x.auxiliary
    ensures Finishes(Without(rs, {x.id}), server) ==
            Finishes(rs, server) - if x.server == server then {x.finished} else {}
  {
    var out := Without(rs, {x.id});
    forall r | r in rs && Formal(r, server) ensures r in out <==> !(x.server == server && r.finished == x.finished) {
      if r.id == x.id {
        IdsAreUnique(rs, r, x);
      } else if SameLane(r, x) {
        ExactMeansDistinct(rs, r, x);
      }
    }
  }

  lemma DropSeenFrom(rs: seq<Round>, x: Round, r: Round)
    requires Consistent(rs) && Exact(rs) && x in rs && !x.auxiliary
    requires r in Without(rs, {x.id}) && !r.auxiliary
    requires var p := LastIndex(rs, x.server, x.finished - 1);
             p == -1 || rs[p].nextDue <= x.finished
    ensures ExactAt(Without(rs, {x.id}), r)
  {
    hide LeastFrom, LastIndex, Without, Inserted;
    var out := Without(rs, {x.id});
    var p := LastIndex(rs, x.server, x.finished - 1);
    var m := MinFinished(rs, r.server, r.finished + 1);
    var m' := MinFinished(out, r.server, r.finished + 1);
    FinishesAfterDrop(rs, x, r.server);
    assert ExactAt(rs, r);
    if m.Some? && r.server == x.server && m.value == x.finished {
      // x was the next finish after r, so r is its predecessor and was due before x finished
      assert r.finished in Finishes(rs, x.server);
      LastIndexIsLatest(rs, x.server, x.finished - 1);
      assert rs[p] in rs;
      if r != rs[p] { ExactMeansDistinct(rs, r, rs[p]); }
      assert m'.Some? ==> m'.value in Finishes(rs, r.server);
    } else if r.server == x.server && r.finished < x.finished {
      assert x.finished in Finishes(rs, x.server);
      assert m.value in Finishes(out, r.server);
      assert m'.value in Finishes(rs, r.server);
    } else {
      LeastFromAgrees(Finishes(rs, r.server), Finishes(out, r.server), r.finished + 1);
    }
  }
}
