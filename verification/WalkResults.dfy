/**
 Exporting results page by page with a (timestamp, id) cursor while writers keep inserting rows and
 retention keeps deleting them between pages.
 */
module WalkResults {
  import opened Ranking

  const MAX_INT64 := 9223372036854775807
  const PAGE := 200

  datatype Row = Row(id: nat, timestamp: int, server: nat)

  datatype Query = Query(server: nat, since: int, snapshot: nat)

  datatype Cursor = Cursor(before: int, beforeId: int)

  const FIRST := Cursor(MAX_INT64, MAX_INT64)

  /** What the caller asks for; server 0 stands for all servers. */
  predicate IsWanted(r: Row, server: nat, since: int) {
    since <= r.timestamp && (server == 0 || r.server == server)
  }

  predicate Matches(r: Row, q: Query) {
    IsWanted(r, q.server, q.since) && r.id <= q.snapshot
  }

  predicate Below(r: Row, c: Cursor) {
    r.timestamp < c.before || (r.timestamp == c.before && r.id < c.beforeId)
  }

  /** ORDER BY timestamp DESC, id DESC */
  predicate Precedes(a: Row, b: Row) {
    Below(b, Cursor(a.timestamp, a.id))
  }

  ghost predicate Descending(rows: seq<Row>) {
    forall i, j :: 0 <= i < j < |rows| ==> Precedes(rows[i], rows[j])
  }

  /** Ids identify rows, and both columns fit 64 bits. */
  ghost predicate ValidTable(t: set<Row>) {
    && (forall a, b :: a in t && b in t && a.id == b.id ==> a == b)
    && (forall r :: r in t ==> r.id < MAX_INT64 && r.timestamp <= MAX_INT64)
  }

  ghost predicate Appears(tables: nat -> set<Row>, k: nat, r: Row) {
    r in tables(k + 1) && r !in tables(k)
  }

  /** The table over time: `issued` is the highest id ever given out. Ids are never reused, so a row that appears
      later has an id above all that were issued before. */
  ghost predicate Evolves(tables: nat -> set<Row>, issued: nat -> nat) {
    && (forall k: nat :: ValidTable(tables(k)))
    && (forall k: nat, l: nat :: k <= l ==> issued(k) <= issued(l))
    && (forall k: nat, r :: r in tables(k) ==> r.id <= issued(k))
    && (forall k: nat, r :: Appears(tables, k, r) ==> issued(k) < r.id)
  }

  /** No row up to the snapshot appears after the start. */
  ghost predicate Settled(tables: nat -> set<Row>, snapshot: nat) {
    && (forall k :: ValidTable(tables(k)))
    && (forall k: nat, r :: r in tables(k + 1) && r.id <= snapshot ==> r in tables(k))
  }

  lemma SnapshotSettles(tables: nat -> set<Row>, issued: nat -> nat, snapshot: nat)
    requires Evolves(tables, issued) && snapshot <= issued(0)
    ensures Settled(tables, snapshot)
  {
    forall k: nat, r | r in tables(k + 1) && r.id <= snapshot ensures r in tables(k) {
      assert !Appears(tables, k, r);
    }
  }

  /** SELECT COALESCE(MAX(id),0) FROM results */
  method MaxId(rows: set<Row>) returns (m: nat)
    ensures forall r :: r in rows ==> r.id <= m
    ensures m == 0 || exists r :: r in rows && r.id == m
  {
    m := 0;
    var rest := rows;
    while |rest| > 0
      invariant rest <= rows
      invariant forall r :: r in rows && r !in rest ==> r.id <= m
      invariant m == 0 || exists r :: r in rows && r.id == m
      decreases |rest|
    {
      var r :| r in rest;
      if m < r.id {
        m := r.id;
      }
      rest := rest - {r};
    }
  }

  function Candidates(t: set<Row>, q: Query, c: Cursor): set<Row> {
    set r | r in t && Matches(r, q) && Below(r, c)
  }

  /** The first of a non-empty set of rows. */
  method First(rows: set<Row>) returns (first: Row)
    requires |rows| > 0
    requires forall a, b :: a in rows && b in rows && a.id == b.id ==> a == b
    ensures first in rows && forall r :: r in rows && r != first ==> Precedes(first, r)
  {
    first :| first in rows;
    var rest := rows - {first};
    while |rest| > 0
      invariant first in rows && rest <= rows
      invariant forall r :: r in rows && r !in rest && r != first ==> Precedes(first, r)
      decreases rest
    {
      var x :| x in rest;
      if Precedes(x, first) {
        first := x;
      }
      rest := rest - {x};
    }
  }

  /** SELECT ... ORDER BY timestamp DESC, id DESC LIMIT 200 */
  method QueryPage(t: set<Row>, q: Query, c: Cursor) returns (page: seq<Row>)
    requires ValidTable(t)
    ensures Descending(page) && |page| <= PAGE
    ensures forall r :: r in page ==> r in Candidates(t, q, c)
    ensures forall r :: r in Candidates(t, q, c) && r !in page ==> |page| == PAGE && Precedes(page[PAGE - 1], r)
  {
    page := [];
    var rest := Candidates(t, q, c);
    while |page| < PAGE && |rest| > 0
      invariant Descending(page) && |page| <= PAGE
      invariant rest <= Candidates(t, q, c)
      invariant forall r :: r in Candidates(t, q, c) <==> r in page || r in rest
      invariant forall i, r :: 0 <= i < |page| && r in rest ==> Precedes(page[i], r)
      decreases rest
    {
      var first := First(rest);
      page := page + [first];
      rest := rest - {first};
    }
    assert |rest| == 0 ==> rest == {};
  }

  /** Visits the wanted rows of the table as it was at the start, newest first, each at most once; every one that is
      still there when the last page is read has been visited, and all of them if rows are only inserted. */
  method Walk(tables: nat -> set<Row>, ghost issued: nat -> nat, server: nat, since: int) returns (visited: seq<Row>, last: nat)
    requires Evolves(tables, issued)
    ensures Descending(visited)
    ensures forall r :: r in visited ==> r in tables(0) && IsWanted(r, server, since)
    ensures forall r :: r in tables(0) && r in tables(last) && IsWanted(r, server, since) ==> r in visited
    ensures InsertsOnly(tables) ==> forall r :: r in visited <==> r in tables(0) && IsWanted(r, server, since)
  {
    var snapshot := MaxId(tables(0));
    SnapshotSettles(tables, issued, snapshot);
    hide Evolves;
    visited, last := WalkPages(tables, Query(server, since, snapshot));
    if InsertsOnly(tables) { InsertsDoNotDisturb(tables, server, since, visited, last); }
  }

  ghost predicate InsertsOnly(tables: nat -> set<Row>) {
    forall k: nat, r :: r in tables(k) ==> r in tables(k + 1)
  }

  method WalkPages(tables: nat -> set<Row>, q: Query) returns (visited: seq<Row>, last: nat)
    requires Settled(tables, q.snapshot)
    ensures Descending(visited)
    ensures forall r :: r in visited ==> r in tables(0) && Matches(r, q)
    ensures forall r :: r in tables(last) && Matches(r, q) ==> r in visited
  {
    var cursor := FIRST;
    var more := true;
    visited, last := [], 0;
    while more
      invariant Descending(visited)
      invariant forall r :: r in visited ==> r in tables(0) && Matches(r, q) && (more ==> !Below(r, cursor))
      invariant forall r :: r in tables(last) && Matches(r, q) ==> r in tables(0)
      invariant forall r :: r in tables(last) && Matches(r, q) ==> r in visited || (more && Below(r, cursor))
      decreases |Candidates(tables(0), q, cursor)|, more
    {
      var page := QueryPage(tables(last), q, cursor);
      ExtendsDescending(visited, page, cursor);
      visited := visited + page;
      more := |page| == PAGE;
      if more {
        var end := page[PAGE - 1];
        assert end in page;
        var next := Cursor(end.timestamp, end.id);
        CursorAdvances(tables(0), q, cursor, next, end);
        LastIsLowest(page);
        cursor := next;
        last := last + 1;
      }
    }
  }

  lemma ExtendsDescending(visited: seq<Row>, page: seq<Row>, c: Cursor)
    requires Descending(visited) && Descending(page)
    requires forall r :: r in visited ==> !Below(r, c)
    requires forall r :: r in page ==> Below(r, c)
    ensures Descending(visited + page)
  {
    var all := visited + page;
    forall i, j | 0 <= i < j < |all| ensures Precedes(all[i], all[j]) {
      if i < |visited| { assert all[i] in visited; }
      if |visited| <= j { assert all[j] in page; }
    }
  }

  lemma LastIsLowest(page: seq<Row>)
    requires Descending(page) && |page| > 0
    ensures forall r :: r in page ==> !Below(r, Cursor(page[|page| - 1].timestamp, page[|page| - 1].id))
  {
  }

  lemma CursorAdvances(t: set<Row>, q: Query, c: Cursor, next: Cursor, end: Row)
    requires end in t && Matches(end, q) && Below(end, c) && next == Cursor(end.timestamp, end.id)
    ensures |Candidates(t, q, next)| < |Candidates(t, q, c)|
    ensures forall r :: !Below(r, c) ==> !Below(r, next)
  {
    var a, b := Candidates(t, q, next), Candidates(t, q, c);
    assert end in b && end !in a && a <= b;
    assert a <= b - {end};
    SubsetIsSmaller(a, b - {end});
  }

  /** With inserts only, the walk visits exactly the wanted rows that existed at the start. */
  lemma InsertsDoNotDisturb(tables: nat -> set<Row>, server: nat, since: int, visited: seq<Row>, last: nat)
    requires InsertsOnly(tables)
    requires forall r :: r in visited ==> r in tables(0) && IsWanted(r, server, since)
    requires forall r :: r in tables(0) && r in tables(last) && IsWanted(r, server, since) ==> r in visited
    ensures forall r :: r in visited <==> r in tables(0) && IsWanted(r, server, since)
  {
    RowsStay(tables, last);
  }

  lemma {:induction false} RowsStay(tables: nat -> set<Row>, k: nat)
    requires InsertsOnly(tables)
    ensures tables(0) <= tables(k)
  {
    if k > 0 { RowsStay(tables, k - 1); }
  }

  /** What a walk over a table that only grows has visited, and in which order: by time, then by id, newest first. */
  lemma WalkMeaning(tables: nat -> set<Row>, server: nat, since: int, visited: seq<Row>)
    requires Descending(visited) && forall r :: r in visited <==> r in tables(0) && IsWanted(r, server, since)
    ensures forall r :: r in visited <==> r in tables(0) && since <= r.timestamp && (server == 0 || r.server == server)
    ensures forall i, j :: 0 <= i < j < |visited| ==>
      visited[j].timestamp < visited[i].timestamp || (visited[j].timestamp == visited[i].timestamp && visited[j].id < visited[i].id)
  {
    forall i, j | 0 <= i < j < |visited|
      ensures visited[j].timestamp < visited[i].timestamp || (visited[j].timestamp == visited[i].timestamp && visited[j].id < visited[i].id)
    {
      assert Precedes(visited[i], visited[j]);
    }
  }
}
