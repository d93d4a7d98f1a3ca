/**
 Whole histories of the coverage timeline: any run of saves and deletions, and any order of arrival.
 */
module Arrivals {
  import opened Tables
  import opened Timeline

  // ----- Runs -----

  /** What can happen to the table: a committed probe round, or a deletion of some rounds. */
  datatype Event = Save(v: Probe) | Drop(ids: set<nat>)

  ghost predicate ValidEvents(es: seq<Event>) {
    forall e :: e in es && e.Save? ==> ValidProbe(e.v)
  }

  ghost function Run(es: seq<Event>): (rs: seq<Round>)
    requires ValidEvents(es)
    ensures Consistent(rs)
  {
    if |es| == 0 then []
    else
      var rs := Run(es[..|es| - 1]);
      match es[|es| - 1]
      case Save(v) =>
        assert es[|es| - 1] in es;
        InsertionKeepsConsistent(rs, v);
        Inserted(rs, v)
      case Drop(ids) =>
        DeletionKeepsConsistent(rs, ids);
        Without(rs, ids)
  }

  ghost predicate Apart(a: Round, b: Round) {
    a.coveredUntil <= b.finished || b.coveredUntil <= a.finished
  }

  /** In every reachable table the coverage of one server's rounds never overlaps and never
      outlives the round's own deadline. */
  lemma CoverageNeverOverlaps(es: seq<Event>)
    requires ValidEvents(es)
    ensures forall a :: a in Run(es) ==> a.finished <= a.coveredUntil <= a.nextDue
    ensures forall a, b :: a in Run(es) && b in Run(es) && SameLane(a, b) && a != b ==> Apart(a, b)
  {
    var rs := Run(es);
    hide Run;
    forall a, b | a in rs && b in rs && SameLane(a, b) && a != b ensures Apart(a, b) {
      if a.id == b.id {
        IdsAreUnique(rs, a, b);
      } else if !Before(a, b) {
        assert Before(b, a);
      }
    }
  }

  // ----- Arrival order -----

  ghost predicate ValidProbes(vs: seq<Probe>) {
    forall v :: v in vs ==> ValidProbe(v)
  }

  /** No two formal probes of one server finish at the same time. */
  ghost predicate Distinct(vs: seq<Probe>) {
    forall i, j :: 0 <= i < j < |vs| && !vs[i].auxiliary && !vs[j].auxiliary && vs[i].server == vs[j].server
      ==> vs[i].finished != vs[j].finished
  }

  ghost function Play(vs: seq<Probe>): (rs: seq<Round>)
    requires ValidProbes(vs)
    ensures Consistent(rs)
  {
    if |vs| == 0 then []
    else
      var rs := Play(vs[..|vs| - 1]);
      assert vs[|vs| - 1] in vs;
      InsertionKeepsConsistent(rs, vs[|vs| - 1]);
      Inserted(rs, vs[|vs| - 1])
  }

  ghost predicate Stores(r: Round, v: Probe) {
    r.server == v.server && r.started == v.started && r.finished == v.finished && r.nextDue == v.nextDue &&
    r.auxiliary == v.auxiliary && r.agg == v.agg
  }

  lemma InsertedStores(rs: seq<Round>, v: Probe)
    requires OrderedIds(rs)
    ensures Stores(Inserted(rs, v)[|rs|], v)
    ensures forall i :: 0 <= i < |rs| ==> Inserted(rs, v)[i] == rs[i].(coveredUntil := Inserted(rs, v)[i].coveredUntil)
  {
    hide LeastFrom, LastIndex, MinFinished;
  }

  lemma {:induction false} PlayStores(vs: seq<Probe>)
    requires ValidProbes(vs)
    ensures |Play(vs)| == |vs| && forall i :: 0 <= i < |vs| ==> Stores(Play(vs)[i], vs[i])
  {
    hide Inserted, Bounded, Disjoint;
    if |vs| > 0 {
      var n := |vs| - 1;
      PlayStores(vs[..n]);
      assert vs[n] in vs;
      var rs := Play(vs[..n]);
      InsertedStores(rs, vs[n]);
      forall i | 0 <= i < |vs| ensures Stores(Play(vs)[i], vs[i]) {
        if i < n { assert Stores(rs[i], vs[..n][i]); }
      }
    }
  }

  lemma {:induction false} PlayIsExact(vs: seq<Probe>)
    requires ValidProbes(vs) && Distinct(vs)
    ensures Exact(Play(vs))
  {
    if |vs| > 0 {
      var n := |vs| - 1;
      var rs := Play(vs[..n]);
      PlayIsExact(vs[..n]);
      PlayStores(vs[..n]);
      assert vs[n] in vs;
      if vs[n].auxiliary {
        AuxiliaryKeepsExact(rs, vs[n]);
      } else {
        forall r | r in rs && Formal(r, vs[n].server) ensures r.finished != vs[n].finished {
          var i :| 0 <= i < |rs| && rs[i] == r;
          assert Stores(rs[i], vs[..n][i]);
        }
        InsertionExactIffNoTie(rs, vs[n]);
      }
    }
  }

  /** The timeline as a set of covered intervals, forgetting row ids. */
  ghost function Coverage(rs: seq<Round>): set<(nat, int, int, int)> {
    set r | r in rs && !r.auxiliary :: (r.server, r.finished, r.nextDue, r.coveredUntil)
  }

  lemma FinishesAgree(vs: seq<Probe>, ws: seq<Probe>, server: nat)
    requires ValidProbes(vs) && ValidProbes(ws) && multiset(vs) == multiset(ws)
    ensures Finishes(Play(vs), server) <= Finishes(Play(ws), server)
  {
    hide Play, Consistent;
    PlayStores(vs);
    PlayStores(ws);
    forall f | f in Finishes(Play(vs), server) ensures f in Finishes(Play(ws), server) {
      var r :| r in Play(vs) && Formal(r, server) && r.finished == f;
      var i :| 0 <= i < |Play(vs)| && Play(vs)[i] == r;
      var j := TwinAt(vs, ws, i);
      assert Stores(r, vs[i]) && Stores(Play(ws)[j], ws[j]);
    }
  }

  lemma TwinAt(vs: seq<Probe>, ws: seq<Probe>, i: nat) returns (j: nat)
    requires multiset(vs) == multiset(ws) && i < |vs|
    ensures j < |ws| && ws[j] == vs[i]
  {
    assert vs[i] in multiset(vs);
    assert vs[i] in multiset(ws);
    j :| 0 <= j < |ws| && ws[j] == vs[i];
  }

  /** The reference definition: list one server's formal rounds by finish time; every round covers
      until the next one finishes or until its own deadline, the last one until its deadline. */
  lemma SortThenClip(vs: seq<Probe>, server: nat, sorted: seq<Round>, i: nat)
    requires ValidProbes(vs) && Distinct(vs)
    requires forall k, l :: 0 <= k < l < |sorted| ==> sorted[k].finished < sorted[l].finished
    requires forall r :: r in sorted <==> r in Play(vs) && Formal(r, server)
    requires i < |sorted|
    ensures sorted[i].coveredUntil ==
            if i + 1 < |sorted| then Min(sorted[i].nextDue, sorted[i + 1].finished) else sorted[i].nextDue
  {
    hide LeastFrom, Play, Consistent;
    var rs := Play(vs);
    PlayIsExact(vs);
    assert sorted[i] in sorted && ExactAt(rs, sorted[i]);
    forall f | f in Finishes(rs, server) && sorted[i].finished < f
      ensures i + 1 < |sorted| && sorted[i + 1].finished <= f
    {
      var r :| r in rs && Formal(r, server) && r.finished == f;
      assert r in sorted;
      var k :| 0 <= k < |sorted| && sorted[k] == r;
    }
    if i + 1 < |sorted| { assert sorted[i + 1] in sorted; }
    var m := MinFinished(rs, server, sorted[i].finished + 1);
    assert m.Some? ==> m.value in Finishes(rs, server);
    assert i + 1 < |sorted| ==> sorted[i + 1].finished in Finishes(rs, server);
  }

  // ----- Ties -----

  /** Two formal probes of one server that finish together. */
  predicate Ties(a: Probe, b: Probe) {
    !a.auxiliary && !b.auxiliary && a.server == b.server && a.finished == b.finished
  }

  /** Some other probe of the collection ties with `v`; an equal one counts as other when there are two. */
  ghost predicate IsTied(all: multiset<Probe>, v: Probe) {
    exists w :: w in all - multiset{v} && Ties(v, w)
  }

  /** No two formal probes of a server tie while a third one of that server finishes later. */
  ghost predicate TiesComeLast(all: multiset<Probe>) {
    forall v, w :: v in all && w in all && IsTied(all, v) && !w.auxiliary && w.server == v.server ==> w.finished <= v.finished
  }

  /** What a round covers once ties are taken into account. */
  ghost function Settled(all: multiset<Probe>, rs: seq<Round>, v: Probe): int {
    if IsTied(all, v) then v.finished else Clip(v.nextDue, MinFinished(rs, v.server, v.finished + 1))
  }

  ghost predicate SettledAt(vs: seq<Probe>, rs: seq<Round>, i: nat)
    requires i < |vs| == |rs|
  {
    !vs[i].auxiliary ==> rs[i].coveredUntil == Settled(multiset(vs), rs, vs[i])
  }

  ghost predicate AllSettled(vs: seq<Probe>, rs: seq<Round>)
    requires |vs| == |rs|
  {
    forall i {:trigger SettledAt(vs, rs, i)} :: 0 <= i < |vs| ==> SettledAt(vs, rs, i)
  }

  lemma OneMore(vs: seq<Probe>)
    requires |vs| > 0
    ensures multiset(vs) == multiset(vs[..|vs| - 1]) + multiset{vs[|vs| - 1]}
  {
    assert vs == vs[..|vs| - 1] + [vs[|vs| - 1]];
  }

  /** A new probe ties up only those it ties with. */
  lemma TiedAfterOneMore(all: multiset<Probe>, v: Probe, u: Probe)
    requires u in all
    ensures IsTied(all + multiset{v}, u) <==> IsTied(all, u) || Ties(u, v)
  {
    var more := all + multiset{v};
    if IsTied(all, u) {
      var w :| w in all - multiset{u} && Ties(u, w);
      assert w in more - multiset{u};
    }
    if Ties(u, v) {
      assert v in more - multiset{u};
    }
    if IsTied(more, u) {
      var w :| w in more - multiset{u} && Ties(u, w);
      assert w == v || w in all - multiset{u};
    }
  }

  lemma NewIsTied(all: multiset<Probe>, v: Probe)
    ensures IsTied(all + multiset{v}, v) <==> exists u :: u in all && Ties(v, u)
  {
    assert all + multiset{v} - multiset{v} == all;
  }

  lemma FewerTiesComeLast(all: multiset<Probe>, v: Probe)
    requires TiesComeLast(all + multiset{v})
    ensures TiesComeLast(all)
  {
    forall u, w | u in all && w in all && IsTied(all, u) && !w.auxiliary && w.server == u.server ensures w.finished <= u.finished {
      TiedAfterOneMore(all, v, u);
      assert u in all + multiset{v} && w in all + multiset{v};
    }
  }

  /** Rows and probes correspond. */
  ghost predicate Corresponds(vs: seq<Probe>, rs: seq<Round>) {
    |vs| == |rs| && forall i :: 0 <= i < |vs| ==> Stores(rs[i], vs[i])
  }

  lemma FinishesOfProbes(vs: seq<Probe>, rs: seq<Round>, server: nat, f: int)
    requires Corresponds(vs, rs)
    ensures f in Finishes(rs, server) <==> exists v :: v in vs && !v.auxiliary && v.server == server && v.finished == f
  {
    if f in Finishes(rs, server) {
      var r :| r in rs && Formal(r, server) && r.finished == f;
      var i :| 0 <= i < |rs| && rs[i] == r;
      assert Stores(rs[i], vs[i]) && vs[i] in vs;
    }
    if exists v :: v in vs && !v.auxiliary && v.server == server && v.finished == f {
      var v :| v in vs && !v.auxiliary && v.server == server && v.finished == f;
      var i :| 0 <= i < |vs| && vs[i] == v;
      assert Stores(rs[i], vs[i]) && rs[i] in rs;
    }
  }

  lemma TwoAtOnce(vs: seq<Probe>, i: nat, j: nat)
    requires i < |vs| && j < |vs| && i != j && Ties(vs[i], vs[j])
    ensures IsTied(multiset(vs), vs[i])
  {
    var rest := vs[..i] + vs[i + 1..];
    assert vs == vs[..i] + [vs[i]] + vs[i + 1..];
    assert multiset(vs) - multiset{vs[i]} == multiset(rest);
    assert vs[j] in rest by {
      if j < i { assert rest[j] == vs[j]; } else { assert rest[j - 1] == vs[j]; }
    }
  }

  // ----- One more probe -----

  lemma AuxiliarySettles(earlier: seq<Probe>, rs: seq<Round>, v: Probe)
    requires OrderedIds(rs) && Corresponds(earlier, rs) && AllSettled(earlier, rs) && v.auxiliary
    ensures AllSettled(earlier + [v], Inserted(rs, v))
  {
    var vs, out := earlier + [v], Inserted(rs, v);
    assert out == rs + [NewRound(rs, v)];
    OneMore(vs);
    hide LeastFrom, LastIndex, Inserted, NewRound, IsTied, Stores, OrderedIds;
    forall i | 0 <= i < |vs| ensures SettledAt(vs, out, i) {
      if i < |earlier| {
        assert SettledAt(earlier, rs, i);
        AuxiliaryKeepsSettled(earlier, rs, v, i);
      }
    }
  }

  lemma AuxiliaryKeepsSettled(earlier: seq<Probe>, rs: seq<Round>, v: Probe, i: nat)
    requires OrderedIds(rs) && Corresponds(earlier, rs) && v.auxiliary && i < |earlier| && SettledAt(earlier, rs, i)
    ensures |Inserted(rs, v)| == |earlier| + 1 && SettledAt(earlier + [v], Inserted(rs, v), i)
  {
    hide LeastFrom, LastIndex, NewRound, IsTied, OrderedIds;
    var vs := earlier + [v];
    OneMore(vs);
    assert vs[i] in earlier && multiset(vs) == multiset(earlier) + multiset{v};
    TiedAfterOneMore(multiset(earlier), v, vs[i]);
    FinishesAfterInsert(rs, v, vs[i].server);
  }

  lemma InsertedKeepsRow(rs: seq<Round>, v: Probe, i: nat)
    requires OrderedIds(rs) && !v.auxiliary && i < |rs|
    ensures var p := LastIndex(rs, v.server, v.finished);
      Inserted(rs, v)[i] == if i == p then Reclipped(rs[i], v.finished) else rs[i]
    ensures Inserted(rs, v)[|rs|] == NewRound(rs, v)
  {
    hide LeastFrom, LastIndex, NewRound, Reclipped;
  }

  lemma InsertedNew(rs: seq<Round>, v: Probe)
    requires OrderedIds(rs)
    ensures |Inserted(rs, v)| == |rs| + 1 && Inserted(rs, v)[|rs|] == NewRound(rs, v)
  {
    hide LeastFrom, LastIndex, NewRound, Reclipped;
  }

  lemma LaterIsHidden(s: set<int>, f: int, from: int, earlier: int)
    requires earlier in s && from <= earlier <= f
    ensures LeastFrom(s + {f}, from) == LeastFrom(s, from)
  {
    hide LeastFrom;
  }

  /** What one more formal probe means for the ties of an earlier one. */
  lemma TieFacts(earlier: seq<Probe>, v: Probe, u: Probe)
    requires TiesComeLast(multiset(earlier + [v])) && u in earlier && !u.auxiliary && !v.auxiliary
    ensures var all, more := multiset(earlier), multiset(earlier + [v]);
      && (IsTied(more, u) <==> IsTied(all, u) || Ties(u, v))
      && (u.server == v.server && IsTied(all, u) ==> v.finished <= u.finished)
      && (u.server == v.server && IsTied(more, v) ==> u.finished <= v.finished)
      && (Ties(u, v) ==> IsTied(more, v))
  {
    var vs := earlier + [v];
    OneMore(vs);
    assert vs[..|earlier|] == earlier;
    var all := multiset(earlier);
    assert u in all && u in multiset(vs) && v in multiset(vs);
    TiedAfterOneMore(all, v, u);
    NewIsTied(all, v);
  }

  lemma NewIsTiedIff(earlier: seq<Probe>, rs: seq<Round>, v: Probe)
    requires Corresponds(earlier, rs) && !v.auxiliary
    ensures IsTied(multiset(earlier + [v]), v) <==> !NoTie(rs, v)
  {
    hide Finishes;
    var vs := earlier + [v];
    OneMore(vs);
    assert vs[..|earlier|] == earlier;
    NewIsTied(multiset(earlier), v);
    FinishesOfProbes(earlier, rs, v.server, v.finished);
    if !NoTie(rs, v) {
      var w :| w in earlier && !w.auxiliary && w.server == v.server && w.finished == v.finished;
      assert w in multiset(earlier);
    }
  }

  lemma NewestSettles(earlier: seq<Probe>, rs: seq<Round>, v: Probe)
    requires Consistent(rs) && ValidProbe(v) && Corresponds(earlier, rs) && !v.auxiliary
    ensures SettledAt(earlier + [v], Inserted(rs, v), |earlier|)
  {
    hide LeastFrom, LastIndex, Inserted, Bounded, Disjoint, Finishes, IsTied;
    var out := Inserted(rs, v);
    NewIsTiedIff(earlier, rs, v);
    InsertedNew(rs, v);
    assert out[|rs|] in out;
    if NoTie(rs, v) {
      NewRoundIsExact(rs, v);
    } else {
      TieLosesCoverage(rs, v, out[|rs|]);
    }
  }

  /** A row that neither changes nor gains a tie stays settled as long as its next finish is the same. */
  lemma SameSettles(earlier: seq<Probe>, rs: seq<Round>, v: Probe, out: seq<Round>, i: nat)
    requires |rs| == |earlier| && |out| == |earlier| + 1 && i < |earlier| && SettledAt(earlier, rs, i)
    requires out[i].coveredUntil == rs[i].coveredUntil
    requires var u := earlier[i];
      && (IsTied(multiset(earlier + [v]), u) <==> IsTied(multiset(earlier), u))
      && MinFinished(out, u.server, u.finished + 1) == MinFinished(rs, u.server, u.finished + 1)
    ensures SettledAt(earlier + [v], out, i)
  {
    hide MinFinished, IsTied;
    assert (earlier + [v])[i] == earlier[i];
  }

  lemma TiedRowStays(earlier: seq<Probe>, rs: seq<Round>, v: Probe, i: nat)
    requires OrderedIds(rs) && Corresponds(earlier, rs) && !v.auxiliary && !NoTie(rs, v)
    requires i < |earlier| && !earlier[i].auxiliary && !Ties(earlier[i], v)
    ensures |Inserted(rs, v)| == |rs| + 1 && Inserted(rs, v)[i] == rs[i]
    ensures Finishes(Inserted(rs, v), earlier[i].server) == Finishes(rs, earlier[i].server)
  {
    assert Stores(rs[i], earlier[i]);
    LastIndexIsLatest(rs, v.server, v.finished);
    InsertedKeepsRow(rs, v, i);
    InsertedNew(rs, v);
    FinishesAfterInsert(rs, v, earlier[i].server);
    hide LeastFrom, LastIndex, Inserted, OrderedIds;
  }

  /** With a tie, the rows that finished together cover nothing and no other row changes. */
  lemma TiedSettles(earlier: seq<Probe>, rs: seq<Round>, v: Probe, i: nat)
    requires Consistent(rs) && ValidProbe(v) && Corresponds(earlier, rs) && !v.auxiliary
    requires TiesComeLast(multiset(earlier + [v])) && !NoTie(rs, v) && i < |earlier| && SettledAt(earlier, rs, i)
    ensures SettledAt(earlier + [v], Inserted(rs, v), i)
  {
    var out, u := Inserted(rs, v), earlier[i];
    assert (earlier + [v])[i] == u;
    InsertedNew(rs, v);
    if u.auxiliary {
    } else if Ties(u, v) {
      TieFacts(earlier, v, u);
      TiedRowEnds(earlier, rs, v, i);
      hide LeastFrom, LastIndex, Inserted, Bounded, Disjoint, Finishes, IsTied, TiesComeLast, OrderedIds;
    } else {
      TieFacts(earlier, v, u);
      TiedRowStays(earlier, rs, v, i);
      hide *;
      MinFinishedOf(rs, out, u.server, u.finished + 1);
      SameSettles(earlier, rs, v, out, i);
    }
  }

  lemma MinFinishedOf(rs: seq<Round>, out: seq<Round>, server: nat, from: int)
    requires Finishes(out, server) == Finishes(rs, server)
    ensures MinFinished(out, server, from) == MinFinished(rs, server, from)
  {
  }

  lemma TiedRowEnds(earlier: seq<Probe>, rs: seq<Round>, v: Probe, i: nat)
    requires Consistent(rs) && ValidProbe(v) && Corresponds(earlier, rs) && i < |earlier| && Ties(earlier[i], v)
    ensures |Inserted(rs, v)| == |rs| + 1 && Inserted(rs, v)[i].coveredUntil == v.finished
  {
    hide LeastFrom, LastIndex, Inserted, Bounded, Disjoint;
    assert Stores(rs[i], earlier[i]) && rs[i] in rs;
    assert v.finished in Finishes(rs, v.server);
    InsertedKeepsRow(rs, v, i);
    InsertedNew(rs, v);
    var out := Inserted(rs, v);
    assert out[i] in out;
    TieLosesCoverage(rs, v, out[i]);
  }

  lemma PredecessorSettles(earlier: seq<Probe>, rs: seq<Round>, v: Probe, i: nat)
    requires OrderedIds(rs) && Corresponds(earlier, rs) && !v.auxiliary
    requires TiesComeLast(multiset(earlier + [v])) && NoTie(rs, v) && i < |earlier| && i == LastIndex(rs, v.server, v.finished)
    ensures |Inserted(rs, v)| == |rs| + 1 && SettledAt(earlier + [v], Inserted(rs, v), i)
  {
    InsertedNew(rs, v);
    PredecessorIsUntied(earlier, rs, v, i);
    InsertedKeepsRow(rs, v, i);
    PredecessorIsExact(rs, v);
    assert Stores(rs[i], earlier[i]) && (earlier + [v])[i] == earlier[i];
    hide *;
    ExactIsSettled(earlier + [v], Inserted(rs, v), i, Reclipped(rs[i], v.finished));
  }

  lemma ExactIsSettled(vs: seq<Probe>, rs: seq<Round>, i: nat, r: Round)
    requires i < |vs| == |rs| && rs[i] == r && ExactAt(rs, r)
    requires !vs[i].auxiliary && !IsTied(multiset(vs), vs[i])
    requires r.server == vs[i].server && r.finished == vs[i].finished && r.nextDue == vs[i].nextDue
    ensures SettledAt(vs, rs, i)
  {
    hide IsTied, LeastFrom;
  }

  lemma PredecessorIsUntied(earlier: seq<Probe>, rs: seq<Round>, v: Probe, i: nat)
    requires OrderedIds(rs) && Corresponds(earlier, rs) && !v.auxiliary
    requires TiesComeLast(multiset(earlier + [v])) && NoTie(rs, v) && i < |earlier| && i == LastIndex(rs, v.server, v.finished)
    ensures !IsTied(multiset(earlier + [v]), earlier[i])
  {
    var u := earlier[i];
    assert Stores(rs[i], u) && rs[i] in rs;
    assert u.finished in Finishes(rs, v.server);
    TieFacts(earlier, v, u);
    hide LeastFrom, LastIndex, IsTied, TiesComeLast, OrderedIds;
  }

  /** Without one, the predecessor now ends where the new row finishes, and no other row changes. */
  lemma UntiedSettles(earlier: seq<Probe>, rs: seq<Round>, v: Probe, i: nat)
    requires Consistent(rs) && ValidProbe(v) && Corresponds(earlier, rs) && !v.auxiliary
    requires TiesComeLast(multiset(earlier + [v])) && NoTie(rs, v) && i < |earlier| && SettledAt(earlier, rs, i)
    ensures SettledAt(earlier + [v], Inserted(rs, v), i)
  {
    var u, p := earlier[i], LastIndex(rs, v.server, v.finished);
    InsertedNew(rs, v);
    InsertedKeepsRow(rs, v, i);
    if u.auxiliary {
      assert (earlier + [v])[i] == u;
    } else if i == p {
      PredecessorSettles(earlier, rs, v, i);
    } else {
      TieFacts(earlier, v, u);
      assert !Ties(u, v) by {
        assert Stores(rs[i], u) && rs[i] in rs;
      }
      hide LeastFrom, LastIndex, Inserted, Bounded, Disjoint, Finishes, IsTied, TiesComeLast;
      OtherRowSettles(earlier, rs, v, i, p);
    }
  }

  lemma OtherRowSettles(earlier: seq<Probe>, rs: seq<Round>, v: Probe, i: nat, p: int)
    requires OrderedIds(rs) && Corresponds(earlier, rs) && !v.auxiliary && p == LastIndex(rs, v.server, v.finished)
    requires i < |earlier| && i != p && !earlier[i].auxiliary && SettledAt(earlier, rs, i)
    requires var u := earlier[i]; IsTied(multiset(earlier + [v]), u) <==> IsTied(multiset(earlier), u)
    requires |Inserted(rs, v)| == |earlier| + 1 && Inserted(rs, v)[i] == rs[i]
    ensures SettledAt(earlier + [v], Inserted(rs, v), i)
  {
    var out, u := Inserted(rs, v), earlier[i];
    assert (earlier + [v])[i] == u;
    hide LeastFrom, LastIndex, Inserted, IsTied, OrderedIds, Corresponds;
    if !IsTied(multiset(earlier), u) {
      if u.server == v.server && u.finished < v.finished {
        EarlierRowKeepsNext(earlier, rs, v, i, p);
      } else {
        FinishesAfterInsert(rs, v, u.server);
        LeastFromAgrees(Finishes(rs, u.server), Finishes(out, u.server), u.finished + 1);
      }
    }
  }

  /** A row of the server before the new one's predecessor keeps its successor. */
  lemma EarlierRowKeepsNext(earlier: seq<Probe>, rs: seq<Round>, v: Probe, i: nat, p: int)
    requires OrderedIds(rs) && Corresponds(earlier, rs) && !v.auxiliary && p == LastIndex(rs, v.server, v.finished)
    requires i < |earlier| && i != p && !earlier[i].auxiliary && !IsTied(multiset(earlier), earlier[i])
    requires earlier[i].server == v.server && earlier[i].finished < v.finished
    ensures LeastFrom(Finishes(Inserted(rs, v), v.server), earlier[i].finished + 1)
            == LeastFrom(Finishes(rs, v.server), earlier[i].finished + 1)
  {
    PredecessorIsLater(earlier, rs, v, i, p);
    FinishesAfterInsert(rs, v, v.server);
    hide *;
    LaterIsHidden(Finishes(rs, v.server), v.finished, earlier[i].finished + 1, rs[p].finished);
  }

  lemma PredecessorIsLater(earlier: seq<Probe>, rs: seq<Round>, v: Probe, i: nat, p: int)
    requires OrderedIds(rs) && Corresponds(earlier, rs) && p == LastIndex(rs, v.server, v.finished)
    requires i < |earlier| && i != p && !earlier[i].auxiliary && !IsTied(multiset(earlier), earlier[i])
    requires earlier[i].server == v.server && earlier[i].finished < v.finished
    ensures 0 <= p < |rs| && rs[p].finished in Finishes(rs, v.server) && earlier[i].finished < rs[p].finished <= v.finished
  {
    var u := earlier[i];
    assert Stores(rs[i], u) && rs[i] in rs && u.finished in Finishes(rs, v.server);
    LastIndexIsLatest(rs, v.server, v.finished);
    hide LeastFrom, IsTied, OrderedIds, Finishes, Corresponds;
    if rs[p].finished == u.finished {
      SameRowsTie(earlier, rs, i, p);
      TwoAtOnce(earlier, i, p);
    }
  }

  lemma SameRowsTie(vs: seq<Probe>, rs: seq<Round>, i: nat, j: nat)
    requires Corresponds(vs, rs) && i < |vs| && j < |vs| && !vs[i].auxiliary
    requires Formal(rs[j], vs[i].server) && rs[j].finished == vs[i].finished
    ensures Ties(vs[i], vs[j])
  {
    assert Stores(rs[j], vs[j]);
  }

  /** As long as ties come last, what each round covers in the end depends only on which probes were saved. */
  lemma {:induction false} PlaySettles(vs: seq<Probe>)
    requires ValidProbes(vs) && TiesComeLast(multiset(vs))
    ensures Corresponds(vs, Play(vs)) && AllSettled(vs, Play(vs))
  {
    hide Settled, IsTied, TiesComeLast, Inserted, SettledAt, Stores, Consistent;
    PlayStores(vs);
    if |vs| > 0 {
      var n := |vs| - 1;
      var earlier, v := vs[..n], vs[n];
      assert vs == earlier + [v] && v in vs && forall u :: u in earlier ==> u in vs;
      OneMore(vs);
      FewerTiesComeLast(multiset(earlier), v);
      PlaySettles(earlier);
      PlayGrows(earlier, v);
      AllSettle(earlier, Play(earlier), v);
    }
  }

  lemma PlayGrows(earlier: seq<Probe>, v: Probe)
    requires ValidProbes(earlier + [v])
    ensures ValidProbes(earlier) && ValidProbe(v) && OrderedIds(Play(earlier)) && Play(earlier + [v]) == Inserted(Play(earlier), v)
  {
    var vs := earlier + [v];
    assert forall u :: u in earlier ==> u in vs;
    assert vs[..|vs| - 1] == earlier && v in vs;
    hide Inserted;
  }

  lemma AllSettle(earlier: seq<Probe>, rs: seq<Round>, v: Probe)
    requires Consistent(rs) && ValidProbe(v) && Corresponds(earlier, rs) && AllSettled(earlier, rs)
    requires TiesComeLast(multiset(earlier + [v]))
    ensures |Inserted(rs, v)| == |rs| + 1 && AllSettled(earlier + [v], Inserted(rs, v))
  {
    InsertedNew(rs, v);
    assert |rs| == |earlier|;
    hide Settled, IsTied, TiesComeLast, Inserted, SettledAt, Corresponds, Disjoint, Bounded;
    if v.auxiliary {
      AuxiliarySettles(earlier, rs, v);
    } else {
      forall i | 0 <= i < |earlier| + 1 ensures SettledAt(earlier + [v], Inserted(rs, v), i) {
        if i == |earlier| {
          NewestSettles(earlier, rs, v);
        } else if NoTie(rs, v) {
          UntiedSettles(earlier, rs, v, i);
        } else {
          TiedSettles(earlier, rs, v, i);
        }
      }
    }
  }

  lemma CoverageIncluded(vs: seq<Probe>, ws: seq<Probe>)
    requires ValidProbes(vs) && ValidProbes(ws) && multiset(vs) == multiset(ws) && TiesComeLast(multiset(vs))
    ensures Coverage(Play(vs)) <= Coverage(Play(ws))
  {
    hide LeastFrom, Play, Finishes, Consistent, IsTied, TiesComeLast;
    var a, b := Play(vs), Play(ws);
    PlaySettles(vs);
    PlaySettles(ws);
    forall r | r in a && !r.auxiliary ensures (r.server, r.finished, r.nextDue, r.coveredUntil) in Coverage(b) {
      var i :| 0 <= i < |a| && a[i] == r;
      var j := TwinAt(vs, ws, i);
      var q := b[j];
      assert Stores(r, vs[i]) && Stores(q, ws[j]) && q in b;
      assert SettledAt(vs, a, i) && SettledAt(ws, b, j);
      FinishesAgree(vs, ws, r.server);
      FinishesAgree(ws, vs, r.server);
      MinFinishedOf(a, b, r.server, r.finished + 1);
      assert (q.server, q.finished, q.nextDue, q.coveredUntil) in Coverage(b);
    }
  }

  // ----- Otherwise the order matters -----

  /** A tied probe saved last leaves everything it ties with uncovered. */
  lemma TiedLast(rest: seq<Probe>, v: Probe, u: Probe, r: Round)
    requires ValidProbes(rest + [v]) && u in rest && Ties(v, u)
    requires r in Play(rest + [v]) && Formal(r, v.server) && r.finished == v.finished
    ensures r.coveredUntil == r.finished
  {
    hide Inserted, Finishes;
    PlayGrows(rest, v);
    var rs := Play(rest);
    PlayStores(rest);
    FinishesOfProbes(rest, rs, v.server, v.finished);
    TieLosesCoverage(rs, v, r);
  }

  predicate IsLater(v: Probe, server: nat, f: int) {
    !v.auxiliary && v.server == server && f < v.finished
  }

  /** The probes of a server that finish later than `f`, or all the others. */
  function Select(vs: seq<Probe>, server: nat, f: int, later: bool): (out: seq<Probe>)
    ensures forall v :: v in out <==> v in vs && IsLater(v, server, f) == later
  {
    if |vs| == 0 then []
    else
      var n := |vs| - 1;
      assert forall v :: v in vs <==> v in vs[..n] || v == vs[n];
      if IsLater(vs[n], server, f) == later then Select(vs[..n], server, f, later) + [vs[n]] else Select(vs[..n], server, f, later)
  }

  lemma {:induction false} SelectParts(vs: seq<Probe>, server: nat, f: int)
    ensures multiset(Select(vs, server, f, false) + Select(vs, server, f, true)) == multiset(vs)
  {
    hide IsLater;
    if |vs| > 0 {
      SelectParts(vs[..|vs| - 1], server, f);
      OneMore(vs);
    }
  }

  ghost predicate CoversPast(rs: seq<Round>, server: nat, f: int) {
    exists r :: r in rs && Formal(r, server) && r.finished == f && f < r.coveredUntil
  }

  /** With everything that finishes later saved last, some round that finished at `f` covers beyond it. */
  lemma {:induction false} LaterOnesExtend(early: seq<Probe>, late: seq<Probe>, u: Probe)
    requires ValidProbes(early + late) && |late| > 0
    requires u in early && !u.auxiliary
    requires forall v :: v in early ==> !IsLater(v, u.server, u.finished)
    requires forall v :: v in late ==> IsLater(v, u.server, u.finished)
    ensures CoversPast(Play(early + late), u.server, u.finished)
  {
    var m := |late| - 1;
    var before, v := early + late[..m], late[m];
    assert early + late == before + [v] && v in late && forall w :: w in late[..m] ==> w in late;
    PlayGrows(before, v);
    var rs := Play(before);
    PlayStores(before);
    if m == 0 {
      assert before == early;
      FirstLateExtends(early, rs, u, v);
    } else {
      LaterOnesExtend(early, late[..m], u);
      OneMoreExtends(rs, u.server, u.finished, v);
    }
  }

  lemma OneMoreExtends(rs: seq<Round>, server: nat, f: int, v: Probe)
    requires Consistent(rs) && CoversPast(rs, server, f) && IsLater(v, server, f)
    ensures CoversPast(Inserted(rs, v), server, f)
  {
    hide LeastFrom, LastIndex, Inserted, Disjoint;
    var r :| r in rs && Formal(r, server) && r.finished == f && f < r.coveredUntil;
    var i :| 0 <= i < |rs| && rs[i] == r;
    InsertedKeepsRow(rs, v, i);
    InsertedNew(rs, v);
    var out := Inserted(rs, v);
    assert out[i] in out;
  }

  lemma FirstLateExtends(early: seq<Probe>, rs: seq<Round>, u: Probe, v: Probe)
    requires Consistent(rs) && Corresponds(early, rs) && u in early && !u.auxiliary
    requires forall w :: w in early ==> !IsLater(w, u.server, u.finished)
    requires IsLater(v, u.server, u.finished)
    ensures CoversPast(Inserted(rs, v), u.server, u.finished)
  {
    hide LeastFrom, LastIndex, Inserted, Disjoint, Finishes;
    FinishesOfProbes(early, rs, u.server, u.finished);
    LastIndexIsLatest(rs, v.server, v.finished);
    var p := LastIndex(rs, v.server, v.finished);
    FinishesOfProbes(early, rs, u.server, rs[p].finished);
    InsertedKeepsRow(rs, v, p);
    InsertedNew(rs, v);
    var out := Inserted(rs, v);
    assert rs[p] in rs && out[p] in out;
    assert IsLatest(rs, v.server, v.finished, p);
  }

  lemma SameMembers(vs: seq<Probe>, ws: seq<Probe>)
    requires multiset(vs) == multiset(ws) && ValidProbes(vs)
    ensures ValidProbes(ws)
  {
    forall v | v in ws ensures ValidProbe(v) {
      assert v in multiset(ws);
      assert v in multiset(vs);
    }
  }

  lemma CoverageShows(rs: seq<Round>, server: nat, f: int)
    ensures CoversPast(rs, server, f) <==> exists d, c :: f < c && (server, f, d, c) in Coverage(rs)
  {
    if CoversPast(rs, server, f) {
      var r :| r in rs && Formal(r, server) && r.finished == f && f < r.coveredUntil;
      assert (server, f, r.nextDue, r.coveredUntil) in Coverage(rs);
    }
  }

  lemma TakenOut(vs: seq<Probe>, v: Probe) returns (i: nat, rest: seq<Probe>)
    requires v in multiset(vs)
    ensures i < |vs| && vs[i] == v && rest == vs[..i] + vs[i + 1..]
    ensures multiset(rest) == multiset(vs) - multiset{v} && multiset(rest + [v]) == multiset(vs)
  {
    i :| 0 <= i < |vs| && vs[i] == v;
    rest := vs[..i] + vs[i + 1..];
    assert vs == vs[..i] + [v] + vs[i + 1..];
  }

  lemma TiedOneLast(vs: seq<Probe>, v: Probe) returns (ws: seq<Probe>)
    requires ValidProbes(vs) && v in multiset(vs) && IsTied(multiset(vs), v) && !v.auxiliary
    ensures multiset(ws) == multiset(vs) && ValidProbes(ws) && !CoversPast(Play(ws), v.server, v.finished)
  {
    hide Play, Consistent;
    var i, rest := TakenOut(vs, v);
    ws := rest + [v];
    SameMembers(vs, ws);
    var u :| u in multiset(vs) - multiset{v} && Ties(v, u);
    assert u in multiset(rest);
    assert u in rest;
    forall r | r in Play(ws) && Formal(r, v.server) && r.finished == v.finished ensures r.coveredUntil == r.finished {
      TiedLast(rest, v, u, r);
    }
  }

  lemma LaterOnesLast(vs: seq<Probe>, v: Probe, w: Probe) returns (xs: seq<Probe>)
    requires ValidProbes(vs) && v in vs && w in vs && !v.auxiliary && IsLater(w, v.server, v.finished)
    ensures multiset(xs) == multiset(vs) && ValidProbes(xs) && CoversPast(Play(xs), v.server, v.finished)
  {
    hide Play, Consistent;
    var early, late := Select(vs, v.server, v.finished, false), Select(vs, v.server, v.finished, true);
    SelectParts(vs, v.server, v.finished);
    xs := early + late;
    SameMembers(vs, xs);
    assert v in early && w in late;
    hide Select, IsLater;
    LaterOnesExtend(early, late, v);
  }

  /** Two orders that differ: a tied probe last, and everything that finishes later last. */
  lemma TwoOrders(vs: seq<Probe>, v: Probe, w: Probe) returns (ws: seq<Probe>, xs: seq<Probe>)
    requires ValidProbes(vs) && v in multiset(vs) && w in multiset(vs) && IsTied(multiset(vs), v)
    requires !w.auxiliary && w.server == v.server && v.finished < w.finished
    ensures multiset(ws) == multiset(vs) == multiset(xs) && ValidProbes(ws) && ValidProbes(xs)
    ensures Coverage(Play(ws)) != Coverage(Play(xs))
  {
    hide Play, Coverage, CoversPast, Consistent;
    ws := TiedOneLast(vs, v);
    assert v in vs && w in vs;
    xs := LaterOnesLast(vs, v, w);
    CoverageShows(Play(xs), v.server, v.finished);
    CoverageShows(Play(ws), v.server, v.finished);
  }

  /** The timeline is the same whatever order the rounds arrive in, exactly when no two formal rounds of a server tie
      while a third one of that server finishes later. */
  lemma ArrivalOrderIrrelevantIff(vs: seq<Probe>)
    requires ValidProbes(vs)
    ensures (forall ws :: ValidProbes(ws) && multiset(ws) == multiset(vs) ==> Coverage(Play(ws)) == Coverage(Play(vs)))
       <==> TiesComeLast(multiset(vs))
  {
    hide Play, Coverage, IsTied;
    if TiesComeLast(multiset(vs)) {
      forall ws | ValidProbes(ws) && multiset(ws) == multiset(vs) ensures Coverage(Play(ws)) == Coverage(Play(vs)) {
        CoverageIncluded(vs, ws);
        CoverageIncluded(ws, vs);
      }
    } else {
      var v, w :| v in multiset(vs) && w in multiset(vs) && IsTied(multiset(vs), v)
        && !w.auxiliary && w.server == v.server && v.finished < w.finished;
      var ws, xs := TwoOrders(vs, v, w);
      assert Coverage(Play(ws)) != Coverage(Play(vs)) || Coverage(Play(xs)) != Coverage(Play(vs));
    }
  }

  /** In particular for probes with distinct finish times per server. */
  lemma ArrivalOrderIrrelevant(vs: seq<Probe>, ws: seq<Probe>)
    requires ValidProbes(vs) && ValidProbes(ws) && Distinct(vs) && multiset(vs) == multiset(ws)
    ensures Coverage(Play(vs)) == Coverage(Play(ws))
  {
    hide Play, Coverage;
    forall v | v in multiset(vs) ensures !IsTied(multiset(vs), v) {
      DistinctAreUntied(vs, v);
    }
    ArrivalOrderIrrelevantIff(vs);
  }

  lemma DistinctAreUntied(vs: seq<Probe>, v: Probe)
    requires Distinct(vs) && v in multiset(vs)
    ensures !IsTied(multiset(vs), v)
  {
    var i, rest := TakenOut(vs, v);
    forall u | u in multiset(rest) ensures !Ties(v, u) {
      var k :| 0 <= k < |rest| && rest[k] == u;
      OtherIndex(vs, i, rest, k);
    }
  }

  lemma OtherIndex(vs: seq<Probe>, i: nat, rest: seq<Probe>, k: nat)
    requires Distinct(vs) && i < |vs| && rest == vs[..i] + vs[i + 1..] && k < |rest|
    ensures !Ties(vs[i], rest[k])
  {
    var j := if k < i then k else k + 1;
    assert vs[j] == rest[k] && i != j;
  }

  // ----- With ties the arrival order does matter -----

  lemma InsertedAt(rs: seq<Round>, v: Probe, p: int, next: Option<int>)
    requires OrderedIds(rs) && !v.auxiliary && IsLatest(rs, v.server, v.finished, p)
    requires next.None? ==> forall r :: r in rs && Formal(r, v.server) ==> r.finished < v.finished
    requires next.Some? ==> IsLeastFrom(Finishes(rs, v.server), v.finished, next.value)
    ensures Inserted(rs, v) == rs[p := Reclipped(rs[p], v.finished)]
                               + [Round(NextId(rs), v.server, v.started, v.finished, v.nextDue, Clip(v.nextDue, next), false, v.agg)]
  {
    hide LeastFrom, LastIndex;
    assert rs[p] in rs;
    LatestIsUnique(rs, v.server, v.finished, p, LastIndex(rs, v.server, v.finished));
    assert MinFinished(rs, v.server, v.finished) == next;
  }

  function Example(finished: int, nextDue: int): Probe {
    Probe(1, finished, finished, nextDue, false, Aggregate(0, 0, 0, 0, 0.0, 0, multiset{}))
  }

  lemma FirstInserted(v: Probe)
    requires !v.auxiliary
    ensures Inserted([], v) == [Round(1, v.server, v.started, v.finished, v.nextDue, v.nextDue, false, v.agg)]
  {
    hide LeastFrom, LastIndex;
    assert LastIndex([], v.server, v.finished) == -1;
    assert MinFinished([], v.server, v.finished) == None;
  }

  lemma PlayThree(a: Probe, b: Probe, c: Probe)
    requires ValidProbes([a, b, c])
    ensures Play([a, b, c]) == Inserted(Inserted(Inserted([], a), b), c)
  {
    assert [a, b, c][..2] == [a, b] && [a, b][..1] == [a] && [a][..0] == [];
    assert forall v :: v in [a, b] ==> v in [a, b, c];
    hide Inserted;
    assert Play([a]) == Inserted(Play([]), a);
    assert Play([a, b]) == Inserted(Play([a]), b);
  }

  /** Two rounds that finish together and one that finishes later: if the later one is saved last, one of the
      tied rounds covers up to it; if it is saved between them, neither covers anything. */
  lemma TiesMakeOrderMatter()
    ensures var tied, later := Example(10, 20), Example(15, 25);
            && ValidProbes([tied, tied, later]) && ValidProbes([tied, later, tied])
            && (1, 10, 20, 15) in Coverage(Play([tied, tied, later]))
            && (1, 10, 20, 15) !in Coverage(Play([tied, later, tied]))
  {
    TieBeforeLater();
    TieAfterLater();
  }

  lemma TieBeforeLater()
    ensures var tied, later := Example(10, 20), Example(15, 25);
            ValidProbes([tied, tied, later]) && (1, 10, 20, 15) in Coverage(Play([tied, tied, later]))
  {
    var tied, later := Example(10, 20), Example(15, 25);
    hide LeastFrom, LastIndex, Inserted, Play;
    PlayThree(tied, tied, later);
    FirstInserted(tied);
    var one := Inserted([], tied);
    assert one[0] in one;
    InsertedAt(one, tied, 0, Some(10));
    var two := Inserted(one, tied);
    assert two == [one[0].(coveredUntil := 10), one[0].(id := 2, coveredUntil := 10)];
    InsertedAt(two, later, 1, None);
    var last := Inserted(two, later);
    assert last[1] in last && last[1].coveredUntil == 15;
  }

  lemma TieAfterLater()
    ensures var tied, later := Example(10, 20), Example(15, 25);
            ValidProbes([tied, later, tied]) && (1, 10, 20, 15) !in Coverage(Play([tied, later, tied]))
  {
    var tied, later := Example(10, 20), Example(15, 25);
    hide LeastFrom, LastIndex, Inserted, Play;
    PlayThree(tied, later, tied);
    FirstInserted(tied);
    var one := Inserted([], tied);
    assert one[0] in one;
    InsertedAt(one, later, 0, None);
    var other := Inserted(one, later);
    assert other == [one[0].(coveredUntil := 15), Round(2, 1, 15, 15, 25, 25, false, later.agg)];
    assert other[0] in other;
    InsertedAt(other, tied, 0, Some(10));
    var between := Inserted(other, tied);
    assert between == [one[0].(coveredUntil := 10), other[1], Round(3, 1, 10, 10, 20, 10, false, tied.agg)];
  }
}
