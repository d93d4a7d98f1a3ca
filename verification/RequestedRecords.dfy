/**
 Which answer records belong to a query: follow the CNAME chain from the query name, collect the
 records of the requested type at its end, and bound their lifetime by every alias on the way
 (sections 3.6.2 of RFC 1034, 5.2 and 10.1 of RFC 2181).
 */
module RequestedRecords {
  import opened Tables
  import opened Ranking

  const MAX_TTL := 86400
  const MAX_HOPS := 32

  /** A normalised answer: owner in lower case without the trailing dot, value "" if it does not
      parse, and a TTL that is 0 if unknown. */
  datatype Answer = Answer(owner: string, recordType: string, value: string, ttl: int)

  datatype Record = Record(value: string, ttl: int)

  ghost function AnswerSet(answers: seq<Answer>): set<Answer> {
    set a | a in answers
  }

  predicate IsCname(a: Answer, owner: string) {
    a.owner == owner && a.recordType == "CNAME"
  }

  predicate IsRequested(a: Answer, owner: string, recordType: string) {
    a.owner == owner && a.recordType == recordType
  }

  // ----- Chains -----

  /** `m` is the least of the TTLs in `s`, or the cap if that is smaller. */
  ghost predicate IsLeastTtl(s: set<int>, cap: int, m: int) {
    m <= cap && (forall t :: t in s ==> m <= t) && (m == cap || m in s)
  }

  ghost function CnameTtls(answers: set<Answer>, owner: string): set<int> {
    set a | a in answers && IsCname(a, owner) :: a.ttl
  }

  /** All CNAME records of `owner` name the same, parseable target. */
  ghost predicate IsAlias(answers: set<Answer>, recordType: string, owner: string, next: string, ttl: int) {
    && recordType != "CNAME" && next != ""
    && (exists a :: a in answers && IsCname(a, owner))
    && (forall a :: a in answers && IsCname(a, owner) ==> a.value == next)
    && IsLeastTtl(CnameTtls(answers, owner), MAX_TTL, ttl)
  }

  ghost predicate NoAlias(answers: set<Answer>, recordType: string, owner: string) {
    forall next, ttl :: !IsAlias(answers, recordType, owner, next, ttl)
  }

  ghost predicate IsEnd(answers: set<Answer>, recordType: string, owner: string) {
    recordType == "CNAME" || forall a :: a in answers ==> !IsCname(a, owner)
  }

  ghost predicate IsChain(answers: set<Answer>, recordType: string, name: string, path: seq<string>, ttls: seq<int>) {
    && |path| == |ttls| + 1 && path[0] == name
    && forall i :: 0 <= i < |ttls| ==> IsAlias(answers, recordType, path[i], path[i + 1], ttls[i])
  }

  /** A chain from the query name that ends, after fewer than 32 aliases. */
  ghost predicate IsComplete(answers: set<Answer>, recordType: string, name: string, path: seq<string>, ttls: seq<int>) {
    && IsChain(answers, recordType, name, path, ttls)
    && IsEnd(answers, recordType, path[|path| - 1])
    && |path| <= MAX_HOPS
  }

  function LeastOf(ttls: seq<int>): int {
    if |ttls| == 0 then MAX_TTL else Min(LeastOf(ttls[..|ttls| - 1]), ttls[|ttls| - 1])
  }

  // ----- What the records at the end of a chain are -----

  ghost function TtlsOf(answers: set<Answer>, recordType: string, owner: string, value: string): set<int> {
    set a | a in answers && IsRequested(a, owner, recordType) && a.value == value :: a.ttl
  }

  ghost function ValuesAt(answers: set<Answer>, recordType: string, owner: string): set<string> {
    set a | a in answers && IsRequested(a, owner, recordType) && a.value != "" :: a.value
  }

  ghost predicate SortedByValue(records: seq<Record>) {
    forall i, j :: 0 <= i < j < |records| ==> TextLess(records[i].value, records[j].value)
  }

  /** One record per value at `owner`, sorted, each with the least TTL of its duplicates and the path. */
  ghost predicate IsResult(answers: set<Answer>, recordType: string, owner: string, pathTtl: int, records: seq<Record>) {
    && SortedByValue(records)
    && (forall r :: r in records ==> r.value in ValuesAt(answers, recordType, owner)
                                     && IsLeastTtl(TtlsOf(answers, recordType, owner, r.value), pathTtl, r.ttl))
    && (forall v :: v in ValuesAt(answers, recordType, owner) ==> exists r :: r in records && r.value == v)
  }

  /** The meaning of the whole function. */
  ghost predicate IsAnswerTo(answers: set<Answer>, recordType: string, name: string, records: seq<Record>) {
    && (forall path, ttls :: IsComplete(answers, recordType, name, path, ttls) ==>
          IsResult(answers, recordType, path[|path| - 1], LeastOf(ttls), records))
    && ((forall path, ttls :: !IsComplete(answers, recordType, name, path, ttls)) ==> records == [])
  }

  // ----- Chains are deterministic -----

  lemma AliasIsUnique(answers: set<Answer>, recordType: string, owner: string, a: string, s: int, b: string, t: int)
    requires IsAlias(answers, recordType, owner, a, s) && IsAlias(answers, recordType, owner, b, t)
    ensures a == b && s == t
  {
    var x :| x in answers && IsCname(x, owner);
    assert x.value == a && x.value == b;
  }

  /** A complete chain extends every other chain from the same name. */
  lemma {:induction false} CompleteExtends(answers: set<Answer>, recordType: string, name: string,
                                           path: seq<string>, ttls: seq<int>, done: seq<string>, doneTtls: seq<int>)
    requires IsChain(answers, recordType, name, path, ttls)
    requires IsChain(answers, recordType, name, done, doneTtls) && IsEnd(answers, recordType, done[|done| - 1])
    ensures path <= done && ttls <= doneTtls
  {
    if |ttls| > 0 {
      var n := |ttls| - 1;
      CompleteExtends(answers, recordType, name, path[..n + 1], ttls[..n], done, doneTtls);
      assert IsAlias(answers, recordType, path[n], path[n + 1], ttls[n]);
      assert path[..n + 1][n] == done[n];
      if |done| == n + 1 {
        EndHasNoAlias(answers, recordType, done[n], path[n + 1], ttls[n]);
      }
      assert IsAlias(answers, recordType, done[n], done[n + 1], doneTtls[n]);
      AliasIsUnique(answers, recordType, done[n], path[n + 1], ttls[n], done[n + 1], doneTtls[n]);
    }
  }

  lemma EndHasNoAlias(answers: set<Answer>, recordType: string, owner: string, next: string, ttl: int)
    ensures !(IsEnd(answers, recordType, owner) && IsAlias(answers, recordType, owner, next, ttl))
  {
  }

  /** A chain that ends never visits an owner twice. */
  lemma {:induction false} CompleteHasNoCycle(answers: set<Answer>, recordType: string, name: string,
                                              path: seq<string>, ttls: seq<int>, i: nat, j: nat)
    requires IsChain(answers, recordType, name, path, ttls) && IsEnd(answers, recordType, path[|path| - 1])
    requires i < j < |path|
    ensures path[i] != path[j]
    decreases |path| - j
  {
    assert IsAlias(answers, recordType, path[i], path[i + 1], ttls[i]);
    if j == |path| - 1 {
      EndHasNoAlias(answers, recordType, path[j], path[i + 1], ttls[i]);
    } else {
      CompleteHasNoCycle(answers, recordType, name, path, ttls, i + 1, j + 1);
      assert IsAlias(answers, recordType, path[j], path[j + 1], ttls[j]);
      if IsAlias(answers, recordType, path[j], path[i + 1], ttls[i]) {
        AliasIsUnique(answers, recordType, path[j], path[i + 1], ttls[i], path[j + 1], ttls[j]);
      }
    }
  }

  // ----- One hop -----

  lemma AnswerSetStep(answers: seq<Answer>, i: nat)
    requires i < |answers|
    ensures AnswerSet(answers[..i + 1]) == AnswerSet(answers[..i]) + {answers[i]}
    ensures AnswerSet(answers[..|answers|]) == AnswerSet(answers) && AnswerSet(answers[..0]) == {}
  {
    assert answers[..|answers|] == answers;
    assert forall a :: a in answers[..i + 1] <==> a in answers[..i] || a == answers[i];
  }

  lemma LeastTtlStep(s: set<int>, cap: int, m: int, t: int)
    requires IsLeastTtl(s, cap, m)
    ensures IsLeastTtl(s + {t}, cap, Min(m, t))
  {
  }

  /** The alias of an owner: none, exactly one, or a conflict. */
  method FindAlias(answers: seq<Answer>, recordType: string, owner: string) returns (ok: bool, alias: string, ttl: int)
    requires recordType != "CNAME"
    ensures ok && alias == "" ==> IsEnd(AnswerSet(answers), recordType, owner)
    ensures ok && alias != "" ==> IsAlias(AnswerSet(answers), recordType, owner, alias, ttl)
    ensures !ok ==> !IsEnd(AnswerSet(answers), recordType, owner)
    ensures !ok ==> NoAlias(AnswerSet(answers), recordType, owner)
  {
    alias, ttl := "", MAX_TTL;
    for i := 0 to |answers|
      invariant alias == "" ==> ttl == MAX_TTL && forall a :: a in answers[..i] ==> !IsCname(a, owner)
      invariant alias != "" ==> exists a :: a in answers[..i] && IsCname(a, owner)
      invariant forall a :: a in answers[..i] && IsCname(a, owner) ==> a.value == alias
      invariant IsLeastTtl(CnameTtls(AnswerSet(answers[..i]), owner), MAX_TTL, ttl)
    {
      var r := answers[i];
      AnswerSetStep(answers, i);
      assert forall a :: a in answers[..i + 1] <==> a in answers[..i] || a == r;
      assert CnameTtls(AnswerSet(answers[..i + 1]), owner)
             == CnameTtls(AnswerSet(answers[..i]), owner) + if IsCname(r, owner) then {r.ttl} else {};
      if IsCname(r, owner) {
        if r.value == "" || (alias != "" && alias != r.value) {
          Conflict(answers, recordType, owner, alias, i);
          return false, alias, ttl;
        }
        LeastTtlStep(CnameTtls(AnswerSet(answers[..i]), owner), MAX_TTL, ttl, r.ttl);
        alias := r.value;
        ttl := Min(ttl, r.ttl);
      }
    }
    assert answers[..|answers|] == answers;
    ok := true;
  }

  lemma Conflict(answers: seq<Answer>, recordType: string, owner: string, alias: string, i: nat)
    requires recordType != "CNAME" && i < |answers| && IsCname(answers[i], owner)
    requires answers[i].value == ""
             || (alias != answers[i].value && exists a :: a in answers[..i] && IsCname(a, owner) && a.value == alias)
    ensures !IsEnd(AnswerSet(answers), recordType, owner)
    ensures NoAlias(AnswerSet(answers), recordType, owner)
  {
    var given := AnswerSet(answers);
    assert answers[i] in given;
    forall next, t ensures !IsAlias(given, recordType, owner, next, t) {
      if answers[i].value != "" {
        var a :| a in answers[..i] && IsCname(a, owner) && a.value == alias;
        assert a in given;
      }
    }
  }

  // ----- The end of the chain -----

  method CollectValues(answers: seq<Answer>, recordType: string, owner: string, pathTtl: int) returns (values: map<string, int>)
    ensures values.Keys == ValuesAt(AnswerSet(answers), recordType, owner)
    ensures forall v :: v in values ==> IsLeastTtl(TtlsOf(AnswerSet(answers), recordType, owner, v), pathTtl, values[v])
  {
    hide IsLeastTtl;
    values := map[];
    for i := 0 to |answers|
      invariant values.Keys == ValuesAt(AnswerSet(answers[..i]), recordType, owner)
      invariant forall v :: v in values ==> IsLeastTtl(TtlsOf(AnswerSet(answers[..i]), recordType, owner, v), pathTtl, values[v])
    {
      var r := answers[i];
      CollectStep(answers, recordType, owner, pathTtl, values, i);
      if IsRequested(r, owner, recordType) && r.value != "" {
        var ttl := Min(pathTtl, r.ttl);
        if r.value !in values || ttl < values[r.value] {
          values := values[r.value := ttl];
        }
      }
    }
    assert answers[..|answers|] == answers;
  }

  lemma CollectStep(answers: seq<Answer>, recordType: string, owner: string, pathTtl: int, values: map<string, int>, i: nat)
    requires i < |answers|
    requires values.Keys == ValuesAt(AnswerSet(answers[..i]), recordType, owner)
    requires forall v :: v in values ==> IsLeastTtl(TtlsOf(AnswerSet(answers[..i]), recordType, owner, v), pathTtl, values[v])
    ensures var r := answers[i];
            var before, after := AnswerSet(answers[..i]), AnswerSet(answers[..i + 1]);
            var counts := IsRequested(r, owner, recordType) && r.value != "";
            && ValuesAt(after, recordType, owner) == ValuesAt(before, recordType, owner) + (if counts then {r.value} else {})
            && (forall v :: v != "" && !(counts && v == r.value) ==> TtlsOf(after, recordType, owner, v) == TtlsOf(before, recordType, owner, v))
            && (counts && r.value in values ==> IsLeastTtl(TtlsOf(after, recordType, owner, r.value), pathTtl, Min(values[r.value], Min(pathTtl, r.ttl))))
            && (counts && r.value !in values ==> IsLeastTtl(TtlsOf(after, recordType, owner, r.value), pathTtl, Min(pathTtl, r.ttl)))
            && "" !in values
  {
    AnswerSetStep(answers, i);
    hide AnswerSet;
    var r := answers[i];
    var before, after := AnswerSet(answers[..i]), AnswerSet(answers[..i + 1]);
    ValuesAfterOneMore(before, recordType, owner, r);
    forall v ensures TtlsOf(after, recordType, owner, v)
      == TtlsOf(before, recordType, owner, v) + if IsRequested(r, owner, recordType) && r.value == v then {r.ttl} else {}
    {
      TtlsAfterOneMore(before, recordType, owner, v, r);
    }
    hide TtlsOf, IsRequested;
    if r.value !in values && r.value != "" {
      NoTtlsElsewhere(before, recordType, owner, r.value);
    }
  }

  lemma TtlsAfterOneMore(answers: set<Answer>, recordType: string, owner: string, value: string, r: Answer)
    ensures TtlsOf(answers + {r}, recordType, owner, value)
            == TtlsOf(answers, recordType, owner, value) + if IsRequested(r, owner, recordType) && r.value == value then {r.ttl} else {}
  {
  }

  lemma ValuesAfterOneMore(answers: set<Answer>, recordType: string, owner: string, r: Answer)
    ensures ValuesAt(answers + {r}, recordType, owner)
            == ValuesAt(answers, recordType, owner) + if IsRequested(r, owner, recordType) && r.value != "" then {r.value} else {}
  {
  }

  lemma NoTtlsElsewhere(answers: set<Answer>, recordType: string, owner: string, value: string)
    requires value != "" && value !in ValuesAt(answers, recordType, owner)
    ensures TtlsOf(answers, recordType, owner, value) == {}
  {
  }

  method LeastKey(keys: set<string>) returns (least: string)
    requires |keys| > 0
    ensures least in keys && forall k :: k in keys && k != least ==> TextLess(least, k)
  {
    least :| least in keys;
    var rest := keys - {least};
    while |rest| > 0
      invariant least in keys && rest <= keys
      invariant forall k :: k in keys && k !in rest && k != least ==> TextLess(least, k)
      decreases rest
    {
      var k :| k in rest;
      forall x, y ensures !(TextLess(x, y) && TextLess(y, x)) && (x == y || TextLess(x, y) || TextLess(y, x)) { TextTotal(x, y); }
      forall x, y, z | TextLess(x, y) && TextLess(y, z) ensures TextLess(x, z) { TextTransitive(x, y, z); }
      if TextLess(k, least) {
        least := k;
      }
      rest := rest - {k};
    }
  }

  method SortRecords(values: map<string, int>) returns (records: seq<Record>)
    ensures SortedByValue(records)
    ensures forall r :: r in records ==> r.value in values && r.ttl == values[r.value]
    ensures forall v :: v in values ==> Record(v, values[v]) in records
  {
    records := [];
    var rest := values.Keys;
    while |rest| > 0
      invariant rest <= values.Keys && SortedByValue(records)
      invariant forall i, k :: 0 <= i < |records| && k in rest ==> TextLess(records[i].value, k)
      invariant forall r :: r in records ==> r.value in values && r.ttl == values[r.value]
      invariant forall v :: v in values ==> v in rest || Record(v, values[v]) in records
      decreases rest
    {
      var least := LeastKey(rest);
      records := records + [Record(least, values[least])];
      rest := rest - {least};
    }
    assert rest == {};
  }

  // ----- The whole walk -----

  /** The records of the requested type at the end of the query name's CNAME chain; nothing for a
      cycle, a conflicting alias, or a chain of 32 or more aliases. */
  method Requested(answers: seq<Answer>, name: string, recordType: string) returns (records: seq<Record>)
    ensures IsAnswerTo(AnswerSet(answers), recordType, name, records)
  {
    hide IsChain, IsEnd, IsAlias, IsResult, IsLeastTtl, LeastOf;
    ghost var all := AnswerSet(answers);
    ghost var path, ttls := [name], [];
    StartChain(all, recordType, name);
    var owner, pathTtl, hops := name, MAX_TTL, 0;
    var seen: set<string> := {};
    while hops < MAX_HOPS
      invariant 0 <= hops <= MAX_HOPS && |path| == hops + 1
      invariant IsChain(all, recordType, name, path, ttls) && path[hops] == owner
      invariant pathTtl == LeastOf(ttls)
      invariant forall o :: o in seen <==> o in path[..hops]
      decreases MAX_HOPS - hops
    {
      if owner in seen {
        assert owner in path[..hops];
        CycleGivesNothing(all, recordType, name, path, ttls);
        return [];
      }
      seen := seen + {owner};
      var ok, alias, aliasTtl := true, "", MAX_TTL;
      CnameIsEnd(all, owner);
      if recordType != "CNAME" {
        ok, alias, aliasTtl := FindAlias(answers, recordType, owner);
        if !ok {
          ConflictGivesNothing(all, recordType, name, path, ttls);
          return [];
        }
      }
      if alias != "" {
        ExtendChain(all, recordType, name, path, ttls, alias, aliasTtl);
        assert (path + [alias])[..hops + 1] == path[..hops] + [owner];
        path, ttls := path + [alias], ttls + [aliasTtl];
        pathTtl := Min(pathTtl, aliasTtl);
        owner := alias;
        hops := hops + 1;
      } else {
        var values := CollectValues(answers, recordType, owner, pathTtl);
        records := SortRecords(values);
        EndGivesResult(all, recordType, name, path, ttls, values, records);
        return records;
      }
    }
    LongChainGivesNothing(all, recordType, name, path, ttls);
    return [];
  }

  lemma CnameIsEnd(all: set<Answer>, owner: string)
    ensures IsEnd(all, "CNAME", owner)
  {
  }

  lemma StartChain(all: set<Answer>, recordType: string, name: string)
    ensures IsChain(all, recordType, name, [name], []) && LeastOf([]) == MAX_TTL
  {
  }

  lemma ExtendChain(all: set<Answer>, recordType: string, name: string, path: seq<string>, ttls: seq<int>, alias: string, ttl: int)
    requires IsChain(all, recordType, name, path, ttls) && IsAlias(all, recordType, path[|path| - 1], alias, ttl)
    ensures IsChain(all, recordType, name, path + [alias], ttls + [ttl])
    ensures LeastOf(ttls + [ttl]) == Min(LeastOf(ttls), ttl)
  {
    hide IsAlias;
    assert (ttls + [ttl])[..|ttls|] == ttls;
  }

  lemma CycleGivesNothing(all: set<Answer>, recordType: string, name: string, path: seq<string>, ttls: seq<int>)
    requires IsChain(all, recordType, name, path, ttls)
    requires path[|path| - 1] in path[..|path| - 1]
    ensures IsAnswerTo(all, recordType, name, [])
  {
    forall done, doneTtls ensures !IsComplete(all, recordType, name, done, doneTtls) {
      if IsComplete(all, recordType, name, done, doneTtls) {
        CompleteExtends(all, recordType, name, path, ttls, done, doneTtls);
        var k :| 0 <= k < |path| - 1 && path[k] == path[|path| - 1];
        CompleteHasNoCycle(all, recordType, name, done, doneTtls, k, |path| - 1);
      }
    }
  }

  lemma ConflictGivesNothing(all: set<Answer>, recordType: string, name: string, path: seq<string>, ttls: seq<int>)
    requires IsChain(all, recordType, name, path, ttls)
    requires !IsEnd(all, recordType, path[|path| - 1])
    requires NoAlias(all, recordType, path[|path| - 1])
    ensures IsAnswerTo(all, recordType, name, [])
  {
    hide IsAlias, IsChain, IsEnd;
    forall done, doneTtls ensures !IsComplete(all, recordType, name, done, doneTtls) {
      if IsComplete(all, recordType, name, done, doneTtls) {
        ChainShape(all, recordType, name, path, ttls);
        ChainShape(all, recordType, name, done, doneTtls);
        CompleteExtends(all, recordType, name, path, ttls, done, doneTtls);
        if |ttls| < |doneTtls| {
          AliasAt(all, recordType, name, done, doneTtls, |ttls|);
        }
      }
    }
  }

  lemma ChainShape(all: set<Answer>, recordType: string, name: string, path: seq<string>, ttls: seq<int>)
    requires IsChain(all, recordType, name, path, ttls)
    ensures |path| == |ttls| + 1
  {
  }

  lemma AliasAt(all: set<Answer>, recordType: string, name: string, path: seq<string>, ttls: seq<int>, i: nat)
    requires IsChain(all, recordType, name, path, ttls) && i < |ttls|
    ensures IsAlias(all, recordType, path[i], path[i + 1], ttls[i])
  {
  }

  lemma LongChainGivesNothing(all: set<Answer>, recordType: string, name: string, path: seq<string>, ttls: seq<int>)
    requires IsChain(all, recordType, name, path, ttls) && |path| > MAX_HOPS
    ensures IsAnswerTo(all, recordType, name, [])
  {
    forall done, doneTtls ensures !IsComplete(all, recordType, name, done, doneTtls) {
      if IsComplete(all, recordType, name, done, doneTtls) {
        CompleteExtends(all, recordType, name, path, ttls, done, doneTtls);
      }
    }
  }

  lemma EndGivesResult(all: set<Answer>, recordType: string, name: string, path: seq<string>, ttls: seq<int>,
                       values: map<string, int>, records: seq<Record>)
    requires IsChain(all, recordType, name, path, ttls) && IsEnd(all, recordType, path[|path| - 1]) && |path| <= MAX_HOPS
    requires values.Keys == ValuesAt(all, recordType, path[|path| - 1])
    requires forall v :: v in values ==> IsLeastTtl(TtlsOf(all, recordType, path[|path| - 1], v), LeastOf(ttls), values[v])
    requires SortedByValue(records)
    requires forall r :: r in records ==> r.value in values && r.ttl == values[r.value]
    requires forall v :: v in values ==> Record(v, values[v]) in records
    ensures IsAnswerTo(all, recordType, name, records)
  {
    hide IsLeastTtl, LeastOf, ValuesAt, TtlsOf, SortedByValue;
    assert IsComplete(all, recordType, name, path, ttls);
    assert IsResult(all, recordType, path[|path| - 1], LeastOf(ttls), records);
    forall done, doneTtls | IsComplete(all, recordType, name, done, doneTtls)
      ensures IsResult(all, recordType, done[|done| - 1], LeastOf(doneTtls), records)
    {
      CompleteExtends(all, recordType, name, path, ttls, done, doneTtls);
      CompleteExtends(all, recordType, name, done, doneTtls, path, ttls);
      assert path == done && ttls == doneTtls;
    }
  }

  // ----- Order of the answers -----

  lemma ResultElementsAgree(answers: set<Answer>, recordType: string, owner: string, pathTtl: int,
                            a: seq<Record>, b: seq<Record>)
    requires IsResult(answers, recordType, owner, pathTtl, a) && IsResult(answers, recordType, owner, pathTtl, b)
    ensures forall r :: r in a ==> r in b
  {
    hide ValuesAt, TtlsOf, SortedByValue;
    forall r | r in a ensures r in b {
      var x :| x in b && x.value == r.value;
      assert x == r;
    }
  }

  /** Sorted sequences with the same elements agree everywhere. */
  lemma {:induction false} SortedAgreeAt(a: seq<Record>, b: seq<Record>, i: nat)
    requires SortedByValue(a) && SortedByValue(b) && (forall r :: r in a <==> r in b)
    requires i < |a|
    ensures i < |b| && a[i] == b[i]
  {
    forall j | 0 <= j < i ensures j < |b| && a[j] == b[j] { SortedAgreeAt(a, b, j); }
    assert a[i] in a;
    var m :| 0 <= m < |b| && b[m] == a[i];
    Irreflexive(a[i].value);
    assert i <= m;
    assert b[i] in b;
    var p :| 0 <= p < |a| && a[p] == b[i];
    Irreflexive(b[i].value);
    assert i <= p;
    TextTotal(a[i].value, b[i].value);
  }

  lemma Irreflexive(v: string)
    ensures !TextLess(v, v)
  {
    TextTotal(v, v);
  }

  lemma SortedAgree(a: seq<Record>, b: seq<Record>)
    requires SortedByValue(a) && SortedByValue(b) && (forall r :: r in a <==> r in b)
    ensures a == b
  {
    forall i | 0 <= i < |a| ensures i < |b| && a[i] == b[i] { SortedAgreeAt(a, b, i); }
    if |a| > 0 { SortedAgreeAt(a, b, |a| - 1); }
    if |b| > 0 { SortedAgreeAt(b, a, |b| - 1); }
  }

  /** The result does not depend on the order, or the repetition, of the answers. */
  lemma OrderOfAnswersIrrelevant(answers: seq<Answer>, shuffled: seq<Answer>, name: string, recordType: string,
                                 a: seq<Record>, b: seq<Record>)
    requires AnswerSet(answers) == AnswerSet(shuffled)
    requires IsAnswerTo(AnswerSet(answers), recordType, name, a) && IsAnswerTo(AnswerSet(shuffled), recordType, name, b)
    ensures a == b
  {
    hide IsComplete, IsResult;
    var all := AnswerSet(answers);
    if path, ttls :| IsComplete(all, recordType, name, path, ttls) {
      ResultsAgree(all, recordType, name, path, ttls, a, b);
    }
  }

  lemma ResultsAgree(all: set<Answer>, recordType: string, name: string, path: seq<string>, ttls: seq<int>,
                     a: seq<Record>, b: seq<Record>)
    requires IsComplete(all, recordType, name, path, ttls)
    requires IsResult(all, recordType, path[|path| - 1], LeastOf(ttls), a)
    requires IsResult(all, recordType, path[|path| - 1], LeastOf(ttls), b)
    ensures a == b
  {
    ResultElementsAgree(all, recordType, path[|path| - 1], LeastOf(ttls), a, b);
    ResultElementsAgree(all, recordType, path[|path| - 1], LeastOf(ttls), b, a);
    SortedAgree(a, b);
  }

  // ----- Short chains -----

  predicate Gives(a: Answer, recordType: string, owner: string, value: string) {
    a.owner == owner && a.recordType == recordType && a.value == value
  }

  /** The least TTL among the answers that give the value, capped. */
  ghost predicate HasLeastTtl(answers: set<Answer>, recordType: string, owner: string, cap: int, r: Record) {
    && r.ttl <= cap
    && (forall a :: a in answers && Gives(a, recordType, owner, r.value) ==> r.ttl <= a.ttl)
    && (r.ttl == cap || exists a :: a in answers && Gives(a, recordType, owner, r.value) && a.ttl == r.ttl)
  }

  /** The records are those of an owner, with each value's least TTL, capped. */
  ghost predicate AreRecordsOf(answers: set<Answer>, recordType: string, owner: string, cap: int, records: seq<Record>) {
    && (forall a :: a in answers && a.owner == owner && a.recordType == recordType && a.value != "" ==>
          exists r :: r in records && r.value == a.value)
    && (forall r :: r in records ==> r.value != "" && exists a :: a in answers && Gives(a, recordType, owner, r.value))
    && (forall r :: r in records ==> HasLeastTtl(answers, recordType, owner, cap, r))
  }

  lemma ResultMeans(answers: set<Answer>, recordType: string, owner: string, cap: int, records: seq<Record>)
    requires IsResult(answers, recordType, owner, cap, records)
    ensures AreRecordsOf(answers, recordType, owner, cap, records)
  {
    forall r | r in records ensures HasLeastTtl(answers, recordType, owner, cap, r) {
      LeastMeans(answers, recordType, owner, cap, r);
    }
    hide HasLeastTtl, IsLeastTtl;
    forall a | a in answers && a.owner == owner && a.recordType == recordType && a.value != ""
      ensures exists r :: r in records && r.value == a.value
    {
      assert IsRequested(a, owner, recordType) && a.value in ValuesAt(answers, recordType, owner);
    }
    forall r | r in records ensures r.value != "" && exists a :: a in answers && Gives(a, recordType, owner, r.value) {
      var a :| a in answers && IsRequested(a, owner, recordType) && a.value != "" && a.value == r.value;
      assert Gives(a, recordType, owner, r.value);
    }
  }

  lemma LeastMeans(answers: set<Answer>, recordType: string, owner: string, cap: int, r: Record)
    requires IsLeastTtl(TtlsOf(answers, recordType, owner, r.value), cap, r.ttl)
    ensures HasLeastTtl(answers, recordType, owner, cap, r)
  {
    var ttls := TtlsOf(answers, recordType, owner, r.value);
    forall a | a in answers && Gives(a, recordType, owner, r.value) ensures a.ttl in ttls {
      assert IsRequested(a, owner, recordType) && a.value == r.value;
    }
  }

  /** Without an alias the records are the name's own, kept for at most a day. */
  lemma OwnRecords(answers: set<Answer>, recordType: string, name: string, records: seq<Record>)
    requires IsAnswerTo(answers, recordType, name, records) && recordType != "CNAME"
    requires forall a :: a in answers && a.owner == name ==> a.recordType != "CNAME"
    ensures AreRecordsOf(answers, recordType, name, 86400, records)
  {
    hide AreRecordsOf, IsResult;
    assert IsComplete(answers, recordType, name, [name], []);
    ResultMeans(answers, recordType, name, LeastOf([]), records);
  }

  /** With one alias they are those of the name it leads to, kept no longer than the alias. */
  lemma AliasedRecords(answers: set<Answer>, recordType: string, name: string, next: string, ttl: int, records: seq<Record>)
    requires IsAnswerTo(answers, recordType, name, records) && recordType != "CNAME" && next != "" && ttl <= 86400
    requires Answer(name, "CNAME", next, ttl) in answers
    requires forall a :: a in answers && a.owner == name && a.recordType == "CNAME" ==> a.value == next && ttl <= a.ttl
    requires forall a :: a in answers && a.owner == next ==> a.recordType != "CNAME"
    ensures AreRecordsOf(answers, recordType, next, ttl, records)
  {
    hide AreRecordsOf, IsResult;
    assert IsCname(Answer(name, "CNAME", next, ttl), name) && ttl in CnameTtls(answers, name);
    assert IsAlias(answers, recordType, name, next, ttl);
    assert IsComplete(answers, recordType, name, [name, next], [ttl]);
    assert LeastOf([ttl]) == ttl by { assert [ttl][..0] == []; assert LeastOf([]) == MAX_TTL; }
    ResultMeans(answers, recordType, next, LeastOf([ttl]), records);
  }

  /** Two aliases that disagree give nothing, and neither does a name that is its own alias. */
  lemma ConflictingAliases(answers: set<Answer>, recordType: string, name: string, a: Answer, b: Answer, records: seq<Record>)
    requires IsAnswerTo(answers, recordType, name, records) && recordType != "CNAME"
    requires a in answers && b in answers && a.owner == name && b.owner == name && a.recordType == "CNAME" && b.recordType == "CNAME"
    requires a.value != b.value || a.value == name
    ensures records == []
  {
    forall path, ttls ensures !IsComplete(answers, recordType, name, path, ttls) {
      if IsComplete(answers, recordType, name, path, ttls) {
        assert IsCname(a, name) && IsCname(b, name);
        assert !IsEnd(answers, recordType, path[0]);
        if |ttls| > 0 {
          assert IsAlias(answers, recordType, path[0], path[1], ttls[0]);
          CompleteHasNoCycle(answers, recordType, name, path, ttls, 0, 1);
        }
      }
    }
  }
}
