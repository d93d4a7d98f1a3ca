/**
 The answers of a probe, from record extraction to the verdict: they always parse, they are sorted and free of
 duplicates, and so the verdict does not depend on the order the upstream listed its records in.
 */
module ProbedAnswers {
  import opened Tables
  import opened Ranking
  import opened RequestedRecords
  import C = Comparison

  // ----- From records to answers -----

  function Values(records: seq<Record>): (values: seq<string>)
    ensures |values| == |records| && forall i :: 0 <= i < |records| ==> values[i] == records[i].value
  {
    seq(|records|, i requires 0 <= i < |records| => records[i].value)
  }

  /** The text without adjacent repetitions. */
  function Deduplicated(s: seq<string>): seq<string> {
    if |s| < 2 then s
    else
      var rest := Deduplicated(s[..|s| - 1]);
      if s[|s| - 1] == s[|s| - 2] then rest else rest + [s[|s| - 1]]
  }

  lemma {:induction false} DeduplicatedEnds(s: seq<string>)
    requires |s| > 0
    ensures var d := Deduplicated(s); 0 < |d| <= |s| && d[|d| - 1] == s[|s| - 1]
  {
    if |s| >= 2 { DeduplicatedEnds(s[..|s| - 1]); }
  }

  /** Compacts the array in place and returns the number of elements kept. */
  method Unique(a: array<string>) returns (n: nat)
    modifies a
    ensures n <= a.Length && a[..n] == Deduplicated(old(a[..]))
  {
    if a.Length < 2 {
      assert a[..a.Length] == a[..];
      return a.Length;
    }
    ghost var was := a[..];
    n := 1;
    assert a[..1] == was[..1];
    for i := 1 to a.Length
      invariant 1 <= n <= i && a[..n] == Deduplicated(was[..i])
      invariant forall k :: i <= k < a.Length ==> a[k] == was[k]
    {
      DeduplicatedEnds(was[..i]);
      assert was[..i + 1][..i] == was[..i];
      if a[i] != a[n - 1] {
        a[n] := a[i];
        n := n + 1;
        assert a[..n] == a[..n - 1] + [was[i]];
      }
    }
    assert was[..a.Length] == was;
  }

  ghost predicate StrictlySorted(s: seq<string>) {
    forall i, j :: 0 <= i < j < |s| ==> TextLess(s[i], s[j])
  }

  lemma {:induction false} NothingRepeated(s: seq<string>)
    requires StrictlySorted(s)
    ensures Deduplicated(s) == s
  {
    if |s| >= 2 {
      var n := |s| - 1;
      NothingRepeated(s[..n]);
      assert TextLess(s[n - 1], s[n]);
      TextTotal(s[n], s[n]);
      assert s == s[..n] + [s[n]];
    }
  }

  /** Non-descending, as a library sort leaves it. */
  ghost predicate Sorted(s: seq<string>) {
    forall i, j :: 0 <= i < j < |s| ==> !TextLess(s[j], s[i])
  }

  lemma TopOfStrict(s: seq<string>, x: string)
    requires StrictlySorted(s) && x in multiset(s)
    ensures |s| > 0 && (x == s[|s| - 1] || TextLess(x, s[|s| - 1]))
  {
    var i :| 0 <= i < |s| && s[i] == x;
  }

  lemma TopOfSorted(s: seq<string>, x: string)
    requires Sorted(s) && x in multiset(s)
    ensures |s| > 0 && !TextLess(s[|s| - 1], x)
  {
    var i :| 0 <= i < |s| && s[i] == x;
    TextTotal(x, x);
  }

  lemma Split(s: seq<string>)
    requires |s| > 0
    ensures s == s[..|s| - 1] + [s[|s| - 1]]
    ensures s[|s| - 1] in multiset(s) && multiset(s[..|s| - 1]) == multiset(s) - multiset{s[|s| - 1]}
    ensures StrictlySorted(s) ==> StrictlySorted(s[..|s| - 1])
    ensures Sorted(s) ==> Sorted(s[..|s| - 1])
  {
    assert s == s[..|s| - 1] + [s[|s| - 1]];
  }

  /** Sorting values that are in strict order already leaves them where they are. */
  lemma {:induction false} SortingKeeps(values: seq<string>, sorted: seq<string>)
    requires StrictlySorted(values) && Sorted(sorted) && multiset(sorted) == multiset(values)
    ensures sorted == values
    decreases |values|
  {
    hide StrictlySorted, Sorted, TextLess;
    assert |multiset(values)| == |values| && |multiset(sorted)| == |sorted|;
    if |values| > 0 {
      Split(values);
      Split(sorted);
      TopOfStrict(values, sorted[|sorted| - 1]);
      TopOfSorted(sorted, values[|values| - 1]);
      var a, b, x := values[..|values| - 1], sorted[..|sorted| - 1], values[|values| - 1];
      assert values == a + [x] && sorted == b + [x];
      SortingKeeps(a, b);
    }
  }

  /** The answers of a decoded response: the values of its records, sorted and compacted, which they were already. */
  lemma AnswersAreValues(records: seq<Record>, sorted: seq<string>)
    requires SortedByValue(records) && multiset(sorted) == multiset(Values(records)) && Sorted(sorted)
    ensures Deduplicated(sorted) == Values(records)
  {
    SortingKeeps(Values(records), sorted);
    NothingRepeated(Values(records));
  }

  // ----- From answers to the verdict -----

  /** Normalising an answer of type A leaves the empty text or the text of an address. */
  ghost predicate IsNormalised(answers: seq<Answer>, parse: string -> Option<C.Ip>) {
    forall a :: a in answers && a.recordType == "A" && a.value != "" ==> parse(a.value).Some?
  }

  function Parsed(records: seq<Record>, parse: string -> Option<C.Ip>): (parsed: seq<Option<C.Ip>>)
    ensures |parsed| == |records| && forall i :: 0 <= i < |records| ==> parsed[i] == parse(records[i].value)
  {
    seq(|records|, i requires 0 <= i < |records| => parse(records[i].value))
  }

  /** Every record extracted for type A parses. */
  lemma ExtractedParses(answers: seq<Answer>, name: string, records: seq<Record>, parse: string -> Option<C.Ip>)
    requires IsAnswerTo(AnswerSet(answers), "A", name, records) && IsNormalised(answers, parse)
    ensures None !in Parsed(records, parse)
  {
    hide IsEnd, IsAlias, IsLeastTtl, LeastOf;
    forall i | 0 <= i < |records| ensures parse(records[i].value).Some? {
      assert records[i] in records;
      var path, ttls :| IsComplete(AnswerSet(answers), "A", name, path, ttls);
      assert IsResult(AnswerSet(answers), "A", path[|path| - 1], LeastOf(ttls), records);
      assert records[i].value in ValuesAt(AnswerSet(answers), "A", path[|path| - 1]);
      var a :| a in AnswerSet(answers) && IsRequested(a, path[|path| - 1], "A") && a.value == records[i].value && a.value != "";
    }
  }

  /** So the verdict on a probed server never hinges on the order of its answers. */
  lemma ProbedIsNeverMixed(answers: seq<Answer>, name: string, records: seq<Record>, parse: string -> Option<C.Ip>, pool: C.Pool)
    requires IsAnswerTo(AnswerSet(answers), "A", name, records) && IsNormalised(answers, parse)
    requires pool.recent <= pool.allowed
    ensures !C.Mixed(Parsed(records, parse), pool)
    ensures forall other :: C.Reordered(Parsed(records, parse), other) ==>
              C.VerdictOf(other, pool) == C.VerdictOf(Parsed(records, parse), pool)
  {
    ExtractedParses(answers, name, records, parse);
    var parsed := Parsed(records, parse);
    hide C.VerdictOf;
    forall other | C.Reordered(parsed, other) ensures C.VerdictOf(other, pool) == C.VerdictOf(parsed, pool) {
      if |parsed| > 0 {
        C.OrderIrrelevant(parsed, other, pool);
      } else {
        C.SameMembers(parsed, other);
        assert other == parsed;
      }
    }
  }

  /** Two responses with the same records, in any order and with any repetitions, get the same verdict. */
  lemma SameRecordsSameVerdict(answers: seq<Answer>, shuffled: seq<Answer>, name: string, a: seq<Record>, b: seq<Record>,
                               parse: string -> Option<C.Ip>, pool: C.Pool)
    requires AnswerSet(answers) == AnswerSet(shuffled)
    requires IsAnswerTo(AnswerSet(answers), "A", name, a) && IsAnswerTo(AnswerSet(shuffled), "A", name, b)
    ensures C.VerdictOf(Parsed(a, parse), pool) == C.VerdictOf(Parsed(b, parse), pool)
  {
    OrderOfAnswersIrrelevant(answers, shuffled, name, "A", a, b);
  }
}
