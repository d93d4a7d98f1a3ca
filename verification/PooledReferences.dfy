/**
 The pool as the comparison sees it: which rows count, whether there is anything to compare with, and what the pool says
 about an answer.
 */
module PooledReferences {
  import opened Tables
  import opened TrustedPool
  import opened ReferenceWindow
  import C = Comparison

  /** A row, as the query hands it to the comparison. */
  function AsRecord(k: Key, e: Entry, parse: string -> Option<C.Ip>): C.Record {
    C.Record(parse(k.value), e.ttl, e.observedAt, e.expiresAt)
  }

  /** The rows of a query, grouped by server. */
  ghost predicate Groups(refs: seq<C.Reference>, rows: map<Key, Entry>, parse: string -> Option<C.Ip>) {
    && (forall r :: C.Offers(refs, r) ==> exists k :: k in rows && r == AsRecord(k, rows[k], parse))
    && forall k :: k in rows ==> C.Offers(refs, AsRecord(k, rows[k], parse))
  }

  /** What the store guarantees about its rows: they were observed by now, and their values are addresses. */
  ghost predicate IsSound(pool: map<Key, Entry>, now: int, parse: string -> Option<C.Ip>) {
    forall k :: k in pool ==> WellFormed(pool[k]) && pool[k].observedAt <= now && parse(k.value).Some?
  }

  /** For rows observed by now and history settings up to 720 hours, the query and the comparison
      agree on which rows count. */
  lemma QueryAgreesWithComparison(k: Key, e: Entry, parse: string -> Option<C.Ip>, now: int, hours: real)
    requires WellFormed(e) && e.observedAt <= now && parse(k.value).Some? && hours <= 720.0
    ensures IsReference(e, now, hours) <==> C.IsEligible(AsRecord(k, e, parse), now, hours)
  {
    if 0.0 < hours {
      assert hours * HOUR <= 720.0 * HOUR;
      FloorGrows(hours * HOUR, 720.0 * HOUR);
      assert (720.0 * HOUR).Floor == RETENTION;
    }
  }

  /** The search for a record that counts. */
  method HasUsableReference(refs: seq<C.Reference>, now: int, hours: real) returns (usable: bool)
    ensures usable <==> exists r :: C.Offers(refs, r) && C.IsEligible(r, now, hours)
  {
    hide C.IsEligible;
    for i := 0 to |refs|
      invariant forall ref, r :: ref in refs[..i] && ref.usable && r in ref.records ==> !C.IsEligible(r, now, hours)
    {
      if !refs[i].usable {
        continue;
      }
      var records := refs[i].records;
      for j := 0 to |records|
        invariant forall r :: r in records[..j] ==> !C.IsEligible(r, now, hours)
      {
        if C.IsEligible(records[j], now, hours) {
          assert C.Offers(refs, records[j]);
          return true;
        }
      }
      assert records[..|records|] == records;
    }
    assert refs[..|refs|] == refs;
    return false;
  }

  /** An address is known to the comparison exactly when the query returned a row with it. */
  lemma KnownIffRead(servers: map<nat, Server>, pool: map<Key, Entry>, domain: string, now: int, hours: real,
                     refs: seq<C.Reference>, parse: string -> Option<C.Ip>, ip: C.Ip)
    requires IsSound(pool, now, parse) && hours <= 720.0
    requires Groups(refs, References(servers, pool, domain, now, hours), parse)
    ensures C.IsKnown(refs, now, hours, ip) <==>
            exists k :: k in References(servers, pool, domain, now, hours) && parse(k.value) == Some(ip)
  {
    hide WellFormed, IsReference, C.IsEligible, C.Offers;
    var rows := References(servers, pool, domain, now, hours);
    forall k | k in rows ensures C.IsEligible(AsRecord(k, rows[k], parse), now, hours) {
      QueryAgreesWithComparison(k, pool[k], parse, now, hours);
    }
  }

  lemma UsableIffRead(servers: map<nat, Server>, pool: map<Key, Entry>, domain: string, now: int, hours: real,
                      refs: seq<C.Reference>, parse: string -> Option<C.Ip>)
    requires IsSound(pool, now, parse) && hours <= 720.0
    requires Groups(refs, References(servers, pool, domain, now, hours), parse)
    ensures (exists r :: C.Offers(refs, r) && C.IsEligible(r, now, hours)) <==> References(servers, pool, domain, now, hours) != map[]
  {
    hide WellFormed, IsReference, C.IsEligible, C.Offers;
    var rows := References(servers, pool, domain, now, hours);
    forall k | k in rows ensures C.IsEligible(AsRecord(k, rows[k], parse), now, hours) {
      QueryAgreesWithComparison(k, pool[k], parse, now, hours);
    }
    assert rows == map[] || exists k :: k in rows;
  }

  /** What a worker asks of the pool: whether there is anything to compare with. */
  method PoolIsUsable(servers: map<nat, Server>, pool: map<Key, Entry>, domain: string, now: int, hours: real,
                      refs: seq<C.Reference>, ghost parse: string -> Option<C.Ip>)
    returns (usable: bool)
    requires IsSound(pool, now, parse) && hours <= 720.0
    requires Groups(refs, References(servers, pool, domain, now, hours), parse)
    ensures usable <==> References(servers, pool, domain, now, hours) != map[]
  {
    usable := HasUsableReference(refs, now, hours);
    UsableIffRead(servers, pool, domain, now, hours, refs, parse);
  }

  /** A row of the pool, read for the domain, with this address. */
  ghost predicate IsPooled(rows: map<Key, Entry>, parse: string -> Option<C.Ip>, ip: C.Ip) {
    exists k :: k in rows && parse(k.value) == Some(ip)
  }

  /** No row has an address with the same first two octets. */
  ghost predicate IsForeign(rows: map<Key, Entry>, parse: string -> Option<C.Ip>, ip: C.Ip)
    requires forall k :: k in rows ==> parse(k.value).Some?
  {
    forall k :: k in rows ==> parse(k.value).value.prefix != ip.prefix
  }

  /** What the pool says about a target's answers: clean or better exactly when every address is in it, suspicious or
      polluted exactly when one is not; and polluted exactly when such an address shares its first two octets with none. */
  lemma PoolDecides(servers: map<nat, Server>, pool: map<Key, Entry>, domain: string, now: int, hours: real,
                    refs: seq<C.Reference>, parse: string -> Option<C.Ip>, answers: seq<Option<C.Ip>>, v: C.Verdict)
    requires IsSound(pool, now, parse) && hours <= 720.0
    requires Groups(refs, References(servers, pool, domain, now, hours), parse)
    requires |answers| > 0 && None !in answers && C.IsVerdict(v, true, answers, refs, now, hours)
    ensures var rows := References(servers, pool, domain, now, hours);
      && (v == C.Unknown <==> rows == map[])
      && (v in {C.Matched, C.Clean} <==> rows != map[] && forall i :: 0 <= i < |answers| ==> IsPooled(rows, parse, answers[i].value))
      && (v == C.Polluted <==> rows != map[] && exists i :: 0 <= i < |answers| && IsForeign(rows, parse, answers[i].value))
  {
    var rows := References(servers, pool, domain, now, hours);
    forall ip ensures C.IsKnown(refs, now, hours, ip) <==> IsPooled(rows, parse, ip) {
      KnownIffRead(servers, pool, domain, now, hours, refs, parse, ip);
    }
    assert forall k :: k in rows ==> parse(k.value).Some?;
    hide IsSound, Groups, References, C.IsKnown;
    EvidenceIffRows(rows, parse, refs, now, hours);
    OutsidersFirst(answers, refs, now, hours);
    forall i | 0 <= i < |answers|
      ensures C.IsOutsider(refs, now, hours, answers[i]) <==> IsForeign(rows, parse, answers[i].value)
    {
      assert answers[i] in answers;
      OutsiderIff(rows, parse, refs, now, hours, answers[i].value);
    }
    hide C.HasEvidence, C.OutsiderFirst, C.UnparsedFirst, IsPooled, C.IsOutsider;
  }

  lemma EvidenceIffRows(rows: map<Key, Entry>, parse: string -> Option<C.Ip>, refs: seq<C.Reference>, now: int, hours: real)
    requires forall ip :: C.IsKnown(refs, now, hours, ip) <==> IsPooled(rows, parse, ip)
    requires forall k :: k in rows ==> parse(k.value).Some?
    ensures C.HasEvidence(refs, now, hours) <==> rows != map[]
  {
    hide C.IsKnown;
    if rows != map[] {
      var k :| k in rows;
      assert IsPooled(rows, parse, parse(k.value).value);
    }
  }

  lemma OutsiderIff(rows: map<Key, Entry>, parse: string -> Option<C.Ip>, refs: seq<C.Reference>, now: int, hours: real, ip: C.Ip)
    requires forall x :: C.IsKnown(refs, now, hours, x) <==> IsPooled(rows, parse, x)
    requires forall k :: k in rows ==> parse(k.value).Some?
    ensures C.IsOutsider(refs, now, hours, Some(ip)) <==> IsForeign(rows, parse, ip)
  {
    hide C.IsKnown;
    forall k | k in rows ensures IsPooled(rows, parse, parse(k.value).value) {}
  }

  lemma OutsidersFirst(answers: seq<Option<C.Ip>>, refs: seq<C.Reference>, now: int, hours: real)
    requires None !in answers
    ensures !C.UnparsedFirst(answers, refs, now, hours)
    ensures C.OutsiderFirst(answers, refs, now, hours) <==> exists i :: 0 <= i < |answers| && C.IsOutsider(refs, now, hours, answers[i])
  {
    hide C.IsOutsider;
  }
}
