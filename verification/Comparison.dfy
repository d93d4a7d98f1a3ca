/**
 Comparing a target's answers with the trusted references.
 */
module Comparison {
  import opened Tables

  /** An IPv4 address: its first two octets and its last two. */
  datatype Ip = Ip(prefix: nat, rest: nat)

  const HOUR := 3600000.0

  datatype Record = Record(value: Option<Ip>, ttl: int, observedAt: int, expiresAt: int)
  datatype Reference = Reference(usable: bool, records: seq<Record>)

  /** The trusted addresses seen within their TTL, those seen at all, and the prefixes of the latter. */
  datatype Pool = Pool(recent: set<Ip>, allowed: set<Ip>, prefixes: set<nat>)

  datatype Verdict = Unknown | Matched | Clean | Suspicious | Polluted

  function Severity(v: Verdict): nat {
    match v
    case Unknown => 0
    case Matched => 1
    case Clean => 2
    case Suspicious => 3
    case Polluted => 4
  }

  // ----- Eligibility -----

  predicate IsFresh(r: Record, now: int) {
    0 < r.ttl && now < r.expiresAt
  }

  predicate IsEligible(r: Record, now: int, hours: real) {
    && r.value.Some? && 0 < r.observedAt <= now
    && (IsFresh(r, now) || (0.0 < hours && now - (hours * HOUR).Floor < r.observedAt))
  }

  ghost predicate Offers(refs: seq<Reference>, r: Record) {
    exists ref :: ref in refs && ref.usable && r in ref.records
  }

  /** The pool a set of references amounts to. */
  ghost predicate IsPool(refs: seq<Reference>, now: int, hours: real, pool: Pool) {
    && (forall ip :: ip in pool.allowed <==> exists r :: Offers(refs, r) && IsEligible(r, now, hours) && r.value == Some(ip))
    && (forall ip :: ip in pool.recent <==> exists r :: Offers(refs, r) && IsEligible(r, now, hours) && IsFresh(r, now) && r.value == Some(ip))
    && (forall p :: p in pool.prefixes <==> exists ip: Ip :: ip in pool.allowed && ip.prefix == p)
  }

  lemma PoolIsNested(refs: seq<Reference>, now: int, hours: real, pool: Pool)
    requires IsPool(refs, now, hours, pool)
    ensures pool.recent <= pool.allowed
  {
  }

  // ----- One answer -----

  /** What one parsed answer deserves on its own. */
  function Judge(ip: Ip, pool: Pool): Verdict {
    if ip in pool.recent then Matched
    else if ip in pool.allowed then Clean
    else if ip.prefix in pool.prefixes then Suspicious
    else Polluted
  }

  function Worse(a: Verdict, b: Verdict): Verdict {
    if Severity(a) < Severity(b) then b else a
  }

  /** The scan over the answers: it stops at the first answer that cannot be parsed, and at the first
      foreign one. */
  function Scan(answers: seq<Option<Ip>>, pool: Pool, verdict: Verdict): Verdict {
    if |answers| == 0 then verdict
    else if answers[0].None? then Unknown
    else
      var v := Worse(verdict, Judge(answers[0].value, pool));
      if v == Polluted then Polluted else Scan(answers[1..], pool, v)
  }

  function VerdictOf(answers: seq<Option<Ip>>, pool: Pool): Verdict {
    if |answers| == 0 || pool.allowed == {} then Unknown else Scan(answers, pool, Matched)
  }

  lemma PoolIsUnique(refs: seq<Reference>, now: int, hours: real, pool: Pool)
    requires IsPool(refs, now, hours, pool)
    ensures forall other :: IsPool(refs, now, hours, other) ==> other == pool
  {
    hide Offers, IsEligible, IsFresh;
    forall other | IsPool(refs, now, hours, other) ensures other == pool {
      assert other.allowed == pool.allowed && other.recent == pool.recent;
      assert other.prefixes == pool.prefixes;
    }
  }

  /** The whole comparison, against the pool its references amount to. */
  method CompareAt(comparable: bool, answers: seq<Option<Ip>>, refs: seq<Reference>, now: int, hours: real)
    returns (verdict: Verdict)
    ensures forall pool :: IsPool(refs, now, hours, pool) ==> verdict == if comparable then VerdictOf(answers, pool) else Unknown
    ensures IsVerdict(verdict, comparable, answers, refs, now, hours)
  {
    var recent, allowed, prefixes := Collect(refs, now, hours);
    ghost var pool := Pool(recent, allowed, prefixes);
    PoolIsUnique(refs, now, hours, pool);
    CompareMeans(comparable, answers, refs, now, hours, pool);
    hide *;
    if !comparable || |answers| == 0 {
      return Unknown;
    }
    if allowed == {} {
      return Unknown;
    }
    verdict := JudgeAnswers(answers, recent, allowed, prefixes);
  }

  lemma CompareMeans(comparable: bool, answers: seq<Option<Ip>>, refs: seq<Reference>, now: int, hours: real, pool: Pool)
    requires IsPool(refs, now, hours, pool)
    ensures IsVerdict(if comparable then VerdictOf(answers, pool) else Unknown, comparable, answers, refs, now, hours)
    ensures |answers| == 0 ==> VerdictOf(answers, pool) == Unknown
    ensures pool.allowed == {} ==> VerdictOf(answers, pool) == Unknown
    ensures |answers| > 0 && pool.allowed != {} ==> VerdictOf(answers, pool) == Scan(answers, pool, Matched)
  {
    PoolMeaning(refs, now, hours, pool);
    if |answers| > 0 { VerdictIs(answers, refs, now, hours, pool); }
    hide IsPool, IsKnown, IsKnownFresh, IsOutsider, HasEvidence, UnparsedFirst, OutsiderFirst, Scan;
  }

  /** The answers against the sets collected. */
  method JudgeAnswers(answers: seq<Option<Ip>>, recent: set<Ip>, allowed: set<Ip>, prefixes: set<nat>) returns (verdict: Verdict)
    ensures verdict == Scan(answers, Pool(recent, allowed, prefixes), Matched)
  {
    ghost var pool := Pool(recent, allowed, prefixes);
    verdict := Matched;
    for i := 0 to |answers|
      invariant Scan(answers, pool, Matched) == Scan(answers[i..], pool, verdict)
      invariant verdict in {Matched, Clean, Suspicious}
    {
      assert answers[i..][1..] == answers[i + 1..];
      if answers[i].None? {
        return Unknown;
      }
      var value := answers[i].value;
      if value in recent {
        continue;
      }
      if value in allowed {
        if verdict == Matched {
          verdict := Clean;
        }
        continue;
      }
      if value.prefix !in prefixes {
        return Polluted;
      }
      verdict := Suspicious;
    }
  }

  method Collect(refs: seq<Reference>, now: int, hours: real)
    returns (recent: set<Ip>, allowed: set<Ip>, prefixes: set<nat>)
    ensures IsPool(refs, now, hours, Pool(recent, allowed, prefixes))
  {
    recent, allowed, prefixes := {}, {}, {};
    for i := 0 to |refs|
      invariant IsPool(refs[..i], now, hours, Pool(recent, allowed, prefixes))
    {
      assert forall x :: x in refs[..i + 1] <==> x in refs[..i] || x == refs[i];
      if refs[i].usable {
        var f, a, p := Eligible(refs[i].records, now, hours);
        PoolStep(refs, i, now, hours, Pool(recent, allowed, prefixes), Pool(f, a, p));
        recent, allowed, prefixes := recent + f, allowed + a, prefixes + p;
      }
    }
    assert refs[..|refs|] == refs;
  }

  ghost predicate IsEligiblePart(records: seq<Record>, now: int, hours: real, part: Pool) {
    && (forall ip :: ip in part.allowed <==> exists r :: r in records && IsEligible(r, now, hours) && r.value == Some(ip))
    && (forall ip :: ip in part.recent <==> exists r :: r in records && IsEligible(r, now, hours) && IsFresh(r, now) && r.value == Some(ip))
    && (forall p :: p in part.prefixes <==> exists ip: Ip :: ip in part.allowed && ip.prefix == p)
  }

  method Eligible(records: seq<Record>, now: int, hours: real) returns (recent: set<Ip>, allowed: set<Ip>, prefixes: set<nat>)
    ensures IsEligiblePart(records, now, hours, Pool(recent, allowed, prefixes))
  {
    hide IsEligible, IsFresh;
    recent, allowed, prefixes := {}, {}, {};
    for i := 0 to |records|
      invariant IsEligiblePart(records[..i], now, hours, Pool(recent, allowed, prefixes))
    {
      var r := records[i];
      assert forall x :: x in records[..i + 1] <==> x in records[..i] || x == r;
      EligibleHasValue(r, now, hours);
      if IsEligible(r, now, hours) {
        if IsFresh(r, now) {
          recent := recent + {r.value.value};
        }
        allowed := allowed + {r.value.value};
        prefixes := prefixes + {r.value.value.prefix};
      }
    }
    assert records[..|records|] == records;
  }

  lemma EligibleHasValue(r: Record, now: int, hours: real)
    ensures IsEligible(r, now, hours) ==> r.value.Some?
  {
  }

  lemma PoolStep(refs: seq<Reference>, i: nat, now: int, hours: real, pool: Pool, part: Pool)
    requires i < |refs| && refs[i].usable
    requires IsPool(refs[..i], now, hours, pool) && IsEligiblePart(refs[i].records, now, hours, part)
    ensures IsPool(refs[..i + 1], now, hours,
                   Pool(pool.recent + part.recent, pool.allowed + part.allowed, pool.prefixes + part.prefixes))
  {
    hide IsEligible, IsFresh;
    assert forall x :: x in refs[..i + 1] <==> x in refs[..i] || x == refs[i];
    forall r ensures Offers(refs[..i + 1], r) <==> Offers(refs[..i], r) || r in refs[i].records {
      if r in refs[i].records { assert refs[i] in refs[..i + 1]; }
      if Offers(refs[..i], r) {
        var ref :| ref in refs[..i] && ref.usable && r in ref.records;
        assert ref in refs[..i + 1];
      }
    }
  }

  // ----- What the verdict says -----

  predicate IsForeign(answer: Option<Ip>, pool: Pool) {
    answer.Some? && Judge(answer.value, pool) == Polluted
  }

  /** A foreign answer comes before anything that cannot be parsed. */
  predicate ForeignFirst(answers: seq<Option<Ip>>, pool: Pool) {
    exists i :: 0 <= i < |answers| && IsForeign(answers[i], pool) && None !in answers[..i]
  }

  /** Something that cannot be parsed comes before any foreign answer. */
  predicate GarbageFirst(answers: seq<Option<Ip>>, pool: Pool) {
    exists i :: 0 <= i < |answers| && answers[i].None? && forall j :: 0 <= j < i ==> !IsForeign(answers[j], pool)
  }

  predicate AllIn(answers: seq<Option<Ip>>, ips: set<Ip>) {
    forall i :: 0 <= i < |answers| ==> answers[i].Some? && answers[i].value in ips
  }

  lemma ForeignFirstStep(answers: seq<Option<Ip>>, pool: Pool)
    requires |answers| > 0
    ensures ForeignFirst(answers, pool)
       <==> answers[0].Some? && (IsForeign(answers[0], pool) || ForeignFirst(answers[1..], pool))
  {
    hide Judge;
    var rest := answers[1..];
    if ForeignFirst(answers, pool) {
      var i :| 0 <= i < |answers| && IsForeign(answers[i], pool) && None !in answers[..i];
      if i > 0 {
        assert answers[..i] == [answers[0]] + rest[..i - 1] && IsForeign(rest[i - 1], pool);
      }
    }
    if IsForeign(answers[0], pool) {
      assert None !in answers[..0];
    } else if answers[0].Some? && ForeignFirst(rest, pool) {
      var i :| 0 <= i < |rest| && IsForeign(rest[i], pool) && None !in rest[..i];
      assert answers[..i + 1] == [answers[0]] + rest[..i] && IsForeign(answers[i + 1], pool);
    }
  }

  lemma GarbageFirstStep(answers: seq<Option<Ip>>, pool: Pool)
    requires |answers| > 0
    ensures GarbageFirst(answers, pool)
       <==> answers[0].None? || (!IsForeign(answers[0], pool) && GarbageFirst(answers[1..], pool))
  {
    hide Judge;
    var rest := answers[1..];
    if GarbageFirst(answers, pool) {
      var i :| 0 <= i < |answers| && answers[i].None? && forall j :: 0 <= j < i ==> !IsForeign(answers[j], pool);
      if i > 0 {
        assert rest[i - 1].None?;
        forall j | 0 <= j < i - 1 ensures !IsForeign(rest[j], pool) {
          assert rest[j] == answers[j + 1];
        }
        assert GarbageFirst(rest, pool);
      }
    }
    if answers[0].None? {
      assert GarbageFirst(answers, pool);
    } else if !IsForeign(answers[0], pool) && GarbageFirst(rest, pool) {
      var i :| 0 <= i < |rest| && rest[i].None? && forall j :: 0 <= j < i ==> !IsForeign(rest[j], pool);
      assert answers[i + 1].None?;
      forall j | 0 <= j < i + 1 ensures !IsForeign(answers[j], pool) {
        if j > 0 { assert answers[j] == rest[j - 1]; }
      }
    }
  }

  lemma AllInStep(answers: seq<Option<Ip>>, ips: set<Ip>)
    requires |answers| > 0
    ensures AllIn(answers, ips) <==> answers[0].Some? && answers[0].value in ips && AllIn(answers[1..], ips)
  {
    assert answers == [answers[0]] + answers[1..];
  }

  lemma {:induction false} ScanMeaning(answers: seq<Option<Ip>>, pool: Pool, v: Verdict)
    requires v in {Matched, Clean, Suspicious} && pool.recent <= pool.allowed
    ensures Scan(answers, pool, v) == Polluted <==> ForeignFirst(answers, pool)
    ensures Scan(answers, pool, v) == Unknown <==> GarbageFirst(answers, pool)
    ensures Scan(answers, pool, v) == Matched <==> v == Matched && AllIn(answers, pool.recent)
    ensures Scan(answers, pool, v) in {Matched, Clean} <==> v != Suspicious && AllIn(answers, pool.allowed)
  {
    if |answers| > 0 {
      ForeignFirstStep(answers, pool);
      GarbageFirstStep(answers, pool);
      AllInStep(answers, pool.recent);
      AllInStep(answers, pool.allowed);
      hide ForeignFirst, GarbageFirst, AllIn;
      if answers[0].Some? && !IsForeign(answers[0], pool) {
        ScanMeaning(answers[1..], pool, Worse(v, Judge(answers[0].value, pool)));
      }
    }
  }

  /** Each verdict, read off the answers and the pool; suspicious is all that is left: every answer parses and
      none is foreign, but some is known only by its prefix. */
  lemma VerdictMeaning(answers: seq<Option<Ip>>, pool: Pool)
    requires |answers| > 0 && pool.recent <= pool.allowed
    ensures var v := VerdictOf(answers, pool);
      && (v == Unknown <==> pool.allowed == {} || GarbageFirst(answers, pool))
      && (v == Polluted <==> pool.allowed != {} && ForeignFirst(answers, pool))
      && (v == Matched <==> pool.allowed != {} && AllIn(answers, pool.recent))
      && (v in {Matched, Clean} <==> pool.allowed != {} && AllIn(answers, pool.allowed))
  {
    ScanMeaning(answers, pool, Matched);
    assert AllIn(answers, pool.recent) ==> AllIn(answers, pool.allowed);
  }

  // ----- The order of the answers -----

  ghost predicate Reordered(a: seq<Option<Ip>>, b: seq<Option<Ip>>) {
    multiset(a) == multiset(b)
  }

  lemma SameMembers(a: seq<Option<Ip>>, b: seq<Option<Ip>>)
    requires Reordered(a, b)
    ensures |a| == |b| && forall x :: x in a <==> x in b
  {
    assert |multiset(a)| == |multiset(b)|;
    forall x ensures x in a <==> x in b {
      assert x in a <==> x in multiset(a);
      assert x in b <==> x in multiset(b);
    }
  }

  predicate Mixed(answers: seq<Option<Ip>>, pool: Pool) {
    None in answers && exists x :: x in answers && IsForeign(x, pool)
  }

  lemma {:induction false} FirstOfBoth(answers: seq<Option<Ip>>, pool: Pool)
    ensures ForeignFirst(answers, pool) && !Mixed(answers, pool) <==> (exists x :: x in answers && IsForeign(x, pool)) && None !in answers
    ensures GarbageFirst(answers, pool) && !Mixed(answers, pool) <==> None in answers && !exists x :: x in answers && IsForeign(x, pool)
  {
    if exists x :: x in answers && IsForeign(x, pool) {
      var x :| x in answers && IsForeign(x, pool);
      var i :| 0 <= i < |answers| && answers[i] == x;
      if None !in answers {
        assert None !in answers[..i] && IsForeign(answers[i], pool);
      }
    }
  }

  lemma MovedToFront(answers: seq<Option<Ip>>, x: Option<Ip>) returns (moved: seq<Option<Ip>>)
    requires x in answers
    ensures Reordered(answers, moved) && |moved| > 0 && moved[0] == x
  {
    var i :| 0 <= i < |answers| && answers[i] == x;
    moved := [x] + answers[..i] + answers[i + 1..];
    assert answers == answers[..i] + [x] + answers[i + 1..];
  }

  /** The verdict depends on the order of the answers exactly when some answer is foreign and some other cannot
      be parsed: whichever comes first then decides. */
  lemma OrderIrrelevantIffNotMixed(answers: seq<Option<Ip>>, pool: Pool)
    requires |answers| > 0 && pool.allowed != {} && pool.recent <= pool.allowed
    ensures (forall other :: Reordered(answers, other) ==> VerdictOf(other, pool) == VerdictOf(answers, pool))
       <==> !Mixed(answers, pool)
  {
    if Mixed(answers, pool) {
      var x :| x in answers && IsForeign(x, pool);
      var garbage := MovedToFront(answers, None);
      var foreign := MovedToFront(answers, x);
      assert VerdictOf(garbage, pool) == Unknown && VerdictOf(foreign, pool) == Polluted;
    } else {
      forall other | Reordered(answers, other) ensures VerdictOf(other, pool) == VerdictOf(answers, pool) {
        OrderIrrelevant(answers, other, pool);
      }
    }
  }

  lemma OrderIrrelevant(answers: seq<Option<Ip>>, other: seq<Option<Ip>>, pool: Pool)
    requires |answers| > 0 && pool.recent <= pool.allowed && !Mixed(answers, pool) && Reordered(answers, other)
    ensures VerdictOf(other, pool) == VerdictOf(answers, pool)
  {
    SameMembers(answers, other);
    assert !Mixed(other, pool);
    FirstOfBoth(answers, pool);
    FirstOfBoth(other, pool);
    VerdictMeaning(answers, pool);
    VerdictMeaning(other, pool);
    AllInByMembers(answers, pool.recent);
    AllInByMembers(answers, pool.allowed);
    AllInByMembers(other, pool.recent);
    AllInByMembers(other, pool.allowed);
  }

  lemma AllInByMembers(answers: seq<Option<Ip>>, ips: set<Ip>)
    ensures AllIn(answers, ips) <==> forall x :: x in answers ==> x.Some? && x.value in ips
  {
    if AllIn(answers, ips) {
      forall x | x in answers ensures x.Some? && x.value in ips {
        var i :| 0 <= i < |answers| && answers[i] == x;
      }
    }
  }

  // ----- More evidence -----

  predicate Contains(big: Pool, small: Pool) {
    small.recent <= big.recent && small.allowed <= big.allowed && small.prefixes <= big.prefixes
  }

  lemma MoreReferencesEnlarge(refs: seq<Reference>, extra: seq<Reference>, now: int, hours: real, small: Pool, big: Pool)
    requires IsPool(refs, now, hours, small) && IsPool(refs + extra, now, hours, big)
    ensures Contains(big, small)
  {
    hide IsEligible, IsFresh;
    forall r | Offers(refs, r) ensures Offers(refs + extra, r) {
      var ref :| ref in refs && ref.usable && r in ref.records;
      assert ref in refs + extra;
    }
  }

  lemma {:induction false} ScanEases(answers: seq<Option<Ip>>, small: Pool, big: Pool, v: Verdict, w: Verdict)
    requires Contains(big, small) && v in {Matched, Clean, Suspicious} && w in {Matched, Clean, Suspicious}
    requires Severity(w) <= Severity(v)
    ensures Severity(Scan(answers, big, w)) <= Severity(Scan(answers, small, v))
    ensures Scan(answers, small, v) == Unknown ==> Scan(answers, big, w) == Unknown
  {
    if |answers| > 0 && answers[0].Some? {
      var ip := answers[0].value;
      assert Severity(Judge(ip, big)) <= Severity(Judge(ip, small));
      var v', w' := Worse(v, Judge(ip, small)), Worse(w, Judge(ip, big));
      if v' != Polluted {
        ScanEases(answers[1..], small, big, v', w');
      } else {
        assert Scan(answers, small, v) == Polluted;
        assert Severity(Scan(answers, big, w)) <= 4;
      }
    }
  }

  /** Once there is any evidence, further references never make a verdict worse. */
  lemma MoreEvidenceNeverWorsens(answers: seq<Option<Ip>>, refs: seq<Reference>, extra: seq<Reference>, now: int, hours: real,
                                 small: Pool, big: Pool)
    requires IsPool(refs, now, hours, small) && IsPool(refs + extra, now, hours, big) && small.allowed != {}
    ensures Severity(VerdictOf(answers, big)) <= Severity(VerdictOf(answers, small))
  {
    hide IsEligible, IsFresh, IsPool;
    MoreReferencesEnlarge(refs, extra, now, hours, small, big);
    if |answers| > 0 {
      ScanEases(answers, small, big, Matched, Matched);
    }
  }

  // ----- The verdict in terms of the references -----

  /** Some reference offers the address in a record that still counts. */
  ghost predicate IsKnown(refs: seq<Reference>, now: int, hours: real, ip: Ip) {
    exists r :: Offers(refs, r) && IsEligible(r, now, hours) && r.value == Some(ip)
  }

  ghost predicate IsKnownFresh(refs: seq<Reference>, now: int, hours: real, ip: Ip) {
    exists r :: Offers(refs, r) && IsEligible(r, now, hours) && IsFresh(r, now) && r.value == Some(ip)
  }

  /** A parsed answer that is not known and shares its prefix with no known address. */
  ghost predicate IsOutsider(refs: seq<Reference>, now: int, hours: real, answer: Option<Ip>) {
    && answer.Some? && !IsKnown(refs, now, hours, answer.value)
    && forall ip: Ip :: IsKnown(refs, now, hours, ip) ==> ip.prefix != answer.value.prefix
  }

  ghost predicate HasEvidence(refs: seq<Reference>, now: int, hours: real) {
    exists ip :: IsKnown(refs, now, hours, ip)
  }

  /** An outsider comes before anything that cannot be parsed. */
  ghost predicate OutsiderFirst(answers: seq<Option<Ip>>, refs: seq<Reference>, now: int, hours: real) {
    exists i :: 0 <= i < |answers| && IsOutsider(refs, now, hours, answers[i]) && None !in answers[..i]
  }

  /** Something that cannot be parsed comes before any outsider. */
  ghost predicate UnparsedFirst(answers: seq<Option<Ip>>, refs: seq<Reference>, now: int, hours: real) {
    exists i :: 0 <= i < |answers| && answers[i].None? && forall j :: 0 <= j < i ==> !IsOutsider(refs, now, hours, answers[j])
  }

  /** Each verdict by its condition on the answers and the records that count; suspicious is all that is left. */
  ghost predicate IsVerdict(v: Verdict, comparable: bool, answers: seq<Option<Ip>>, refs: seq<Reference>, now: int, hours: real) {
    var meaningful := comparable && |answers| > 0 && HasEvidence(refs, now, hours);
    && (v == Unknown <==> !meaningful || UnparsedFirst(answers, refs, now, hours))
    && (v == Polluted <==> meaningful && OutsiderFirst(answers, refs, now, hours))
    && (v == Matched <==> meaningful && forall i :: 0 <= i < |answers| ==>
          answers[i].Some? && IsKnownFresh(refs, now, hours, answers[i].value))
    && (v in {Matched, Clean} <==> meaningful && forall i :: 0 <= i < |answers| ==>
          answers[i].Some? && IsKnown(refs, now, hours, answers[i].value))
  }

  /** A record that was observed by now and still runs. */
  predicate IsRunning(r: Record, now: int) {
    0 < r.observedAt <= now && 0 < r.ttl && now < r.expiresAt
  }

  /** A record that was observed by now, within the last hours. */
  predicate IsRecent(r: Record, now: int, hours: real) {
    0 < r.observedAt <= now && 0.0 < hours && now - (hours * 3600000.0).Floor < r.observedAt
  }

  /** A usable reference has a record of the address that still runs or is recent. */
  ghost predicate IsBacked(refs: seq<Reference>, now: int, hours: real, ip: Ip) {
    exists ref, r :: ref in refs && ref.usable && r in ref.records && r.value == Some(ip) && (IsRunning(r, now) || IsRecent(r, now, hours))
  }

  /** A usable reference has a record of the address that still runs. */
  ghost predicate IsBackedNow(refs: seq<Reference>, now: int, ip: Ip) {
    exists ref, r :: ref in refs && ref.usable && r in ref.records && r.value == Some(ip) && IsRunning(r, now)
  }

  lemma KnownMeaning(refs: seq<Reference>, now: int, hours: real, ip: Ip)
    ensures IsKnown(refs, now, hours, ip) <==> IsBacked(refs, now, hours, ip)
    ensures IsKnownFresh(refs, now, hours, ip) <==> IsBackedNow(refs, now, ip)
  {
    forall ref, r | ref in refs && ref.usable && r in ref.records ensures Offers(refs, r) {}
    forall r ensures IsEligible(r, now, hours) <==> r.value.Some? && (IsRunning(r, now) || IsRecent(r, now, hours)) {}
    forall r ensures IsEligible(r, now, hours) && IsFresh(r, now) <==> r.value.Some? && IsRunning(r, now) {}
    hide IsEligible, IsFresh, IsRunning, IsRecent;
  }

  /** What the comparison answers: it is never worse than clean exactly when every answer is backed, matched exactly when
      every answer still is, and unknown when no answer at all could be. */
  lemma BackedAnswersAreClean(v: Verdict, answers: seq<Option<Ip>>, refs: seq<Reference>, now: int, hours: real)
    requires |answers| > 0 && IsVerdict(v, true, answers, refs, now, hours)
    ensures v in {Matched, Clean} <==> forall i :: 0 <= i < |answers| ==> answers[i].Some? && IsBacked(refs, now, hours, answers[i].value)
    ensures v == Matched <==> forall i :: 0 <= i < |answers| ==> answers[i].Some? && IsBackedNow(refs, now, answers[i].value)
    ensures (forall ip :: !IsBacked(refs, now, hours, ip)) ==> v == Unknown
  {
    forall ip ensures (IsKnown(refs, now, hours, ip) <==> IsBacked(refs, now, hours, ip))
      && (IsKnownFresh(refs, now, hours, ip) <==> IsBackedNow(refs, now, ip))
    {
      KnownMeaning(refs, now, hours, ip);
    }
    FreshIsKnown(refs, now, hours);
    if answers[0].Some? { assert IsKnown(refs, now, hours, answers[0].value) ==> HasEvidence(refs, now, hours); }
    hide IsKnown, IsKnownFresh, IsBacked, IsBackedNow, UnparsedFirst, OutsiderFirst;
  }

  lemma FreshIsKnown(refs: seq<Reference>, now: int, hours: real)
    ensures forall ip :: IsKnownFresh(refs, now, hours, ip) ==> IsKnown(refs, now, hours, ip)
  {
    hide Offers, IsEligible, IsFresh;
  }

  lemma PoolMeaning(refs: seq<Reference>, now: int, hours: real, pool: Pool)
    requires IsPool(refs, now, hours, pool)
    ensures forall ip :: ip in pool.allowed <==> IsKnown(refs, now, hours, ip)
    ensures forall ip :: ip in pool.recent <==> IsKnownFresh(refs, now, hours, ip)
    ensures pool.allowed != {} <==> HasEvidence(refs, now, hours)
    ensures forall answer :: IsForeign(answer, pool) <==> IsOutsider(refs, now, hours, answer)
  {
    PoolIsNested(refs, now, hours, pool);
    hide Offers, IsEligible, IsFresh;
    assert pool.allowed == {} || exists ip :: ip in pool.allowed;
    forall answer ensures IsForeign(answer, pool) <==> IsOutsider(refs, now, hours, answer) {
      if answer.Some? {
        OutsiderMeaning(refs, now, hours, pool, answer.value);
      }
    }
  }

  lemma OutsiderMeaning(refs: seq<Reference>, now: int, hours: real, pool: Pool, ip: Ip)
    requires pool.recent <= pool.allowed
    requires forall x :: x in pool.allowed <==> IsKnown(refs, now, hours, x)
    requires forall p :: p in pool.prefixes <==> exists x: Ip :: x in pool.allowed && x.prefix == p
    ensures IsForeign(Some(ip), pool) <==> IsOutsider(refs, now, hours, Some(ip))
  {
    hide IsKnown;
  }

  lemma VerdictIs(answers: seq<Option<Ip>>, refs: seq<Reference>, now: int, hours: real, pool: Pool)
    requires IsPool(refs, now, hours, pool) && |answers| > 0
    ensures IsVerdict(VerdictOf(answers, pool), true, answers, refs, now, hours)
  {
    PoolIsNested(refs, now, hours, pool);
    PoolMeaning(refs, now, hours, pool);
    VerdictMeaning(answers, pool);
    hide IsPool, IsKnown, IsKnownFresh, IsOutsider, HasEvidence, VerdictOf, IsForeign;
  }
}
