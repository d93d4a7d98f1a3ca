/**
 Text order, and what keeping the first n rows of an ordered table means.
 */
module Ranking {

  /** Binary collation. */
  predicate TextLess(a: string, b: string) {
    |b| > 0 && (|a| == 0 || a[0] < b[0] || (a[0] == b[0] && TextLess(a[1..], b[1..])))
  }

  lemma {:induction false} TextTotal(a: string, b: string)
    ensures !(TextLess(a, b) && TextLess(b, a))
    ensures a == b || TextLess(a, b) || TextLess(b, a)
    ensures a == b ==> !TextLess(a, b)
  {
    if |a| > 0 && |b| > 0 {
      TextTotal(a[1..], b[1..]);
      assert a == [a[0]] + a[1..] && b == [b[0]] + b[1..];
    }
  }

  lemma {:induction false} TextTransitive(a: string, b: string, c: string)
    requires TextLess(a, b) && TextLess(b, c)
    ensures TextLess(a, c)
  {
    if |a| > 0 && a[0] == b[0] == c[0] {
      TextTransitive(a[1..], b[1..], c[1..]);
    }
  }

  ghost predicate StrictTotalOrder<K(!new)>(s: set<K>, less: (K, K) -> bool) {
    && (forall a :: a in s ==> !less(a, a))
    && (forall a, b :: a in s && b in s && a != b ==> less(a, b) || less(b, a))
    && (forall a, b, c :: a in s && b in s && c in s && less(a, b) && less(b, c) ==> less(a, c))
  }

  lemma Asymmetric<K(!new)>(s: set<K>, less: (K, K) -> bool, a: K, b: K)
    requires StrictTotalOrder(s, less) && a in s && b in s
    ensures !(less(a, b) && less(b, a))
  {
    assert less(a, b) && less(b, a) ==> less(a, a);
  }

  /** The rows that come before k. */
  function Ahead<K>(s: set<K>, less: (K, K) -> bool, k: K): set<K> {
    set j | j in s && less(j, k)
  }

  /** The first n rows: DELETE everything past ORDER BY less LIMIT -1 OFFSET n. */
  function FirstRows<K>(s: set<K>, less: (K, K) -> bool, n: nat): set<K> {
    set k | k in s && |Ahead(s, less, k)| < n
  }

  lemma AheadGrows<K(!new)>(s: set<K>, less: (K, K) -> bool, a: K, b: K)
    requires StrictTotalOrder(s, less) && a in s && b in s && less(a, b)
    ensures |Ahead(s, less, a)| < |Ahead(s, less, b)|
  {
    var x, y := Ahead(s, less, a), Ahead(s, less, b);
    assert x + {a} <= y && a !in x;
    SubsetIsSmaller(x + {a}, y);
  }

  lemma SameRank<K(!new)>(s: set<K>, less: (K, K) -> bool, a: K, b: K, rank: nat)
    requires StrictTotalOrder(s, less) && a in s && b in s
    ensures |Ahead(s, less, a)| == rank && |Ahead(s, less, b)| == rank ==> a == b
  {
    if less(a, b) {
      AheadGrows(s, less, a, b);
    } else if less(b, a) {
      AheadGrows(s, less, b, a);
    }
  }

  lemma SubsetIsSmaller<K>(a: set<K>, b: set<K>)
    requires a <= b
    ensures |a| <= |b|
  {
    assert a + (b - a) == b;
  }

  lemma {:induction false} AtMostN<K(!new)>(s: set<K>, less: (K, K) -> bool, n: nat)
    requires StrictTotalOrder(s, less)
    ensures |FirstRows(s, less, n)| <= n
  {
    if n > 0 {
      AtMostN(s, less, n - 1);
      var a, b := FirstRows(s, less, n - 1), FirstRows(s, less, n);
      if x :| x in b && x !in a {
        forall y | y in b && y !in a ensures y == x {
          SameRank(s, less, x, y, n - 1);
        }
        assert b == a + {x};
      } else {
        assert b == a;
      }
    }
  }

  lemma {:induction false} LeastExists<K(!new)>(s: set<K>, less: (K, K) -> bool, t: set<K>, k: K) returns (m: K)
    requires StrictTotalOrder(s, less) && t <= s && k in t
    ensures m in t && forall x :: x in t && x != m ==> less(m, x)
    decreases |Ahead(s, less, k)|
  {
    if x :| x in t && x != k && !less(k, x) {
      AheadGrows(s, less, x, k);
      m := LeastExists(s, less, t, x);
    } else {
      m := k;
    }
  }

  /** Keeping the first n rows keeps at most n; drops a row only when n are kept; and everything
      kept comes before everything dropped. */
  lemma FirstRowsAreFirst<K(!new)>(s: set<K>, less: (K, K) -> bool, n: nat)
    requires StrictTotalOrder(s, less)
    ensures var kept := FirstRows(s, less, n);
            && kept <= s && |kept| <= n
            && (kept != s ==> |kept| == n)
            && forall a, b :: a in kept && b in s && b !in kept ==> less(a, b)
  {
    var kept := FirstRows(s, less, n);
    AtMostN(s, less, n);
    forall a, b | a in kept && b in s && b !in kept ensures less(a, b) {
      if less(b, a) { AheadGrows(s, less, b, a); }
    }
    if b :| b in s && b !in kept {
      var m := LeastExists(s, less, s - kept, b);
      assert Ahead(s, less, m) <= kept by {
        forall x | x in s && less(x, m) ensures x in kept {
          Asymmetric(s, less, x, m);
        }
      }
      SubsetIsSmaller(Ahead(s, less, m), kept);
    } else {
      assert kept == s;
    }
  }

  /** Dropping rows before the cut never costs another row its place, and it changes which of the others
      are kept unless the cut drops none of them or keeps only them. */
  lemma FirstRowsOfSubset<K(!new)>(s: set<K>, t: set<K>, less: (K, K) -> bool, n: nat)
    requires StrictTotalOrder(s, less) && t <= s
    ensures var kept := FirstRows(s, less, n);
            && kept * t <= FirstRows(t, less, n)
            && (FirstRows(t, less, n) <= kept <==> t <= kept || kept <= t)
  {
    var kept := FirstRows(s, less, n);
    FirstRowsAreFirst(s, less, n);
    forall k | k in kept * t ensures k in FirstRows(t, less, n) {
      SubsetIsSmaller(Ahead(t, less, k), Ahead(s, less, k));
    }
    if kept <= t {
      forall k | k in t && k !in kept ensures k !in FirstRows(t, less, n) {
        SubsetIsSmaller(kept, Ahead(t, less, k));
      }
    } else if m :| m in t && m !in kept {
      FirstGoneComesBack(s, t, less, n, m);
    }
  }

  /** If the cut keeps a row outside the subset, then the first row of the subset it drops would have stayed. */
  lemma FirstGoneComesBack<K(!new)>(s: set<K>, t: set<K>, less: (K, K) -> bool, n: nat, gone: K)
    requires StrictTotalOrder(s, less) && t <= s
    requires gone in t && gone !in FirstRows(s, less, n)
    requires !(FirstRows(s, less, n) <= t)
    ensures !(FirstRows(t, less, n) <= FirstRows(s, less, n))
  {
    var kept := FirstRows(s, less, n);
    FirstRowsAreFirst(s, less, n);
    var m := LeastExists(s, less, t - kept, gone);
    var x :| x in kept && x !in t;
    forall j | j in Ahead(t, less, m) ensures j in kept - {x} {
      Asymmetric(s, less, j, m);
    }
    SubsetIsSmaller(Ahead(t, less, m), kept - {x});
    assert |kept - {x}| == |kept| - 1;
  }

  lemma OrderOfSubset<K(!new)>(s: set<K>, t: set<K>, less: (K, K) -> bool)
    requires StrictTotalOrder(s, less) && t <= s
    ensures StrictTotalOrder(t, less)
  {
  }

  /** Two cuts, the first among `part` only: on fewer rows they leave nothing new exactly when the second keeps only
      those rows, or drops none of them after a first cut that left nothing new either. */
  lemma TwoCuts<K(!new)>(s: set<K>, t: set<K>, part: set<K>, less: (K, K) -> bool, n: nat, m: nat)
    requires StrictTotalOrder(s, less) && t <= s && part <= s
    ensures var kept, keptThin := FirstRows(part, less, n), FirstRows(part * t, less, n);
            var rest, restThin := s - (part - kept), t - (part * t - keptThin);
            var out, outThin := FirstRows(rest, less, m), FirstRows(restThin, less, m);
            && (outThin <= out <==> out <= t || ((part * t <= kept || kept <= t) && rest * t <= out))
            && (outThin <= out ==> out * t <= outThin)
  {
    hide FirstRows;
    var kept, keptThin := FirstRows(part, less, n), FirstRows(part * t, less, n);
    var rest, restThin := s - (part - kept), t - (part * t - keptThin);
    OrderOfSubset(s, part, less);
    OrderOfSubset(s, rest, less);
    OrderOfSubset(s, restThin, less);
    OrderOfSubset(s, part * t, less);
    FirstRowsOfSubset(part, part * t, less, n);
    FirstRowsAreFirst(part, less, n);
    FirstRowsAreFirst(part * t, less, n);
    FirstRowsAreFirst(rest, less, m);
    if part * t <= kept || kept <= t {
      assert kept <= t ==> kept <= part * t;
      assert keptThin == kept * t && restThin == rest * t;
      FirstRowsOfSubset(rest, restThin, less, m);
    } else {
      var e :| e in keptThin && e !in kept;
      var x :| x in kept && x !in t;
      SecondCut(s, rest, restThin, less, m, x, e);
      assert rest * t <= restThin;
    }
  }

  /** `x` is only among the one's rows and `e` only among the other's, and whatever else is only there comes after `x`. */
  lemma SecondCut<K(!new)>(s: set<K>, rest: set<K>, restThin: set<K>, less: (K, K) -> bool, m: nat, x: K, e: K)
    requires StrictTotalOrder(s, less) && rest <= s && restThin <= s
    requires x in rest && x !in restThin && e in restThin && e !in rest
    requires forall k :: k in restThin && k !in rest ==> less(x, k)
    ensures var out, outThin := FirstRows(rest, less, m), FirstRows(restThin, less, m);
            (outThin <= out <==> out <= restThin) && (outThin <= out ==> out == outThin)
  {
    var out, outThin := FirstRows(rest, less, m), FirstRows(restThin, less, m);
    OrderOfSubset(s, rest, less);
    OrderOfSubset(s, restThin, less);
    FirstRowsAreFirst(rest, less, m);
    FirstRowsAreFirst(restThin, less, m);
    if outThin <= out {
      SameSize(outThin, out, m);
    }
    if out <= restThin {
      forall k | k in outThin ensures k in out {
        if k !in out {
          assert forall j :: j in out ==> less(j, x);
          assert out <= Ahead(restThin, less, k);
          SubsetIsSmaller(out, Ahead(restThin, less, k));
        }
      }
    }
  }

  lemma SameSize<K>(a: set<K>, b: set<K>, n: nat)
    requires a <= b && |a| == n && |b| <= n
    ensures a == b
  {
    assert b == a + (b - a);
  }
}
