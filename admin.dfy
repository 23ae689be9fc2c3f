/** The administrator's request listing (src/app/admin/page.tsx): the joined request rows,
    fetched oldest first, reduced to the first row per (tenant, property) pair, then shown
    newest first. */
module Admin {
  import opened Options
  import opened Records

  /** One fetched row: the request's columns with the joined tenant name and phone and the
      property address. `createdAt` is the timestamp `new Date(created_at).getTime()`. */
  datatype Row = Row(id: Id, tenantId: Id, propertyId: Id, issue: string, status: Status,
                     createdAt: int, tenantName: string, tenantPhone: string, address: string)

  /** The `find` test: same tenant and same property. */
  predicate SamePair(a: Row, b: Row) {
    a.tenantId == b.tenantId && a.propertyId == b.propertyId
  }

  /** Some row of `rows` has the pair of `x`. */
  predicate HasPair(rows: seq<Row>, x: Row) {
    exists k :: 0 <= k < |rows| && SamePair(rows[k], x)
  }

  /** No two rows share a pair. */
  predicate UniquePairs(rows: seq<Row>) {
    forall i, j :: 0 <= i < j < |rows| ==> !SamePair(rows[i], rows[j])
  }

  /** Row `i` is the first of its pair in `rows`. */
  predicate FirstOfPair(rows: seq<Row>, i: int)
    requires 0 <= i < |rows|
  {
    forall j :: 0 <= j < i ==> !SamePair(rows[j], rows[i])
  }

  /** The order the query asks for: `created_at` ascending. */
  predicate OldestFirst(rows: seq<Row>) {
    forall i, j :: 0 <= i < j < |rows| ==> rows[i].createdAt <= rows[j].createdAt
  }

  /** The order the listing is shown in: `created_at` descending. */
  predicate NewestFirst(rows: seq<Row>) {
    forall i, j :: 0 <= i < j < |rows| ==> rows[i].createdAt >= rows[j].createdAt
  }

  /** The `reduce`: a left fold over the rows that pushes a row onto the accumulator
      unless the accumulator already holds one with the same pair. */
  function FirstPerPair(rows: seq<Row>): seq<Row> {
    if rows == [] then []
    else
      var acc := FirstPerPair(rows[..|rows| - 1]);
      var current := rows[|rows| - 1];
      if HasPair(acc, current) then acc else acc + [current]
  }

  /** `acc.find(...)`: a linear scan for the first accumulated row with the pair of
      `current`. */
  method FindExisting(acc: seq<Row>, current: Row) returns (r: Option<Row>)
    ensures r.None? <==> !HasPair(acc, current)
    ensures r.Some? ==> exists k :: 0 <= k < |acc| && acc[k] == r.value && SamePair(r.value, current)
                                    && forall j :: 0 <= j < k ==> !SamePair(acc[j], current)
  {
    var k := 0;
    while k < |acc|
      invariant 0 <= k <= |acc|
      invariant forall j :: 0 <= j < k ==> !SamePair(acc[j], current)
    {
      if SamePair(acc[k], current) {
        return Some(acc[k]);
      }
      k := k + 1;
    }
    return None;
  }

  /** The `reduce` as the source runs it: one pass over the rows, a `find` per row and a
      `push` when the pair is new. */
  method KeepFirstPerPair(data: seq<Row>) returns (acc: seq<Row>)
    ensures acc == FirstPerPair(data)
  {
    acc := [];
    for i := 0 to |data|
      invariant acc == FirstPerPair(data[..i])
    {
      var current := data[i];
      var existing := FindExisting(acc, current);
      assert data[..i + 1][..i] == data[..i];
      if existing.None? {
        acc := acc + [current];
      }
    }
    assert data[..|data|] == data;
  }

  /** The reduced list has at most one row per pair. */
  lemma {:induction false} FirstPerPairUnique(rows: seq<Row>)
    ensures UniquePairs(FirstPerPair(rows))
  {
    if rows != [] {
      var acc := FirstPerPair(rows[..|rows| - 1]);
      FirstPerPairUnique(rows[..|rows| - 1]);
      var current := rows[|rows| - 1];
      if !HasPair(acc, current) {
        var r := acc + [current];
        forall i, j | 0 <= i < j < |r| ensures !SamePair(r[i], r[j]) {
          if j == |acc| {
            assert r[i] == acc[i];
          }
        }
      }
    }
  }

  /** The reduced list covers exactly the pairs of the fetched rows. */
  lemma {:induction false} FirstPerPairSamePairs(rows: seq<Row>, x: Row)
    ensures HasPair(FirstPerPair(rows), x) <==> HasPair(rows, x)
  {
    if rows != [] {
      var prefix := rows[..|rows| - 1];
      var current := rows[|rows| - 1];
      var acc := FirstPerPair(prefix);
      FirstPerPairSamePairs(prefix, x);
      FirstPerPairSamePairs(prefix, current);
      HasPairAppend(prefix, current, x);
      HasPairAppend(acc, current, x);
      assert rows == prefix + [current];
      if HasPair(acc, current) && SamePair(current, x) {
        var m :| 0 <= m < |acc| && SamePair(acc[m], current);
        assert SamePair(acc[m], x);
      }
    }
  }

  /** Appending a row adds exactly its pair. */
  lemma HasPairAppend(rows: seq<Row>, y: Row, x: Row)
    ensures HasPair(rows + [y], x) <==> HasPair(rows, x) || SamePair(y, x)
  {
    var r := rows + [y];
    if HasPair(r, x) {
      var k :| 0 <= k < |r| && SamePair(r[k], x);
      if k < |rows| {
        assert rows[k] == r[k];
      }
    }
    if HasPair(rows, x) {
      var k :| 0 <= k < |rows| && SamePair(rows[k], x);
      assert r[k] == rows[k];
    }
    if SamePair(y, x) {
      assert r[|rows|] == y;
    }
  }

  /** A row is kept exactly when it is the first of its pair in fetch order: the kept
      rows are unmodified input rows, and for each pair the first fetched row survives. */
  lemma {:induction false} FirstPerPairMembers(rows: seq<Row>, x: Row)
    ensures x in FirstPerPair(rows) <==>
              exists i :: 0 <= i < |rows| && rows[i] == x && FirstOfPair(rows, i)
  {
    if rows != [] {
      var last := |rows| - 1;
      var prefix := rows[..last];
      var current := rows[last];
      var acc := FirstPerPair(prefix);
      FirstPerPairMembers(prefix, x);
      FirstPerPairSamePairs(prefix, current);
      LastFirstOfPair(rows);
      if x in FirstPerPair(rows) {
        if x in acc {
          var i :| 0 <= i < |prefix| && prefix[i] == x && FirstOfPair(prefix, i);
          PrefixFirstOfPair(rows, i);
          assert rows[i] == x && FirstOfPair(rows, i);
        } else {
          assert x == current && FirstOfPair(rows, last);
        }
      }
      if exists i :: 0 <= i < |rows| && rows[i] == x && FirstOfPair(rows, i) {
        var i :| 0 <= i < |rows| && rows[i] == x && FirstOfPair(rows, i);
        if i < last {
          PrefixFirstOfPair(rows, i);
          assert prefix[i] == x && FirstOfPair(prefix, i);
        } else {
          assert x == current;
        }
      }
    }
  }

  /** Before the last row, being first of one's pair does not depend on the last row. */
  lemma PrefixFirstOfPair(rows: seq<Row>, i: int)
    requires 0 <= i < |rows| - 1
    ensures FirstOfPair(rows, i) <==> FirstOfPair(rows[..|rows| - 1], i)
  {
    var prefix := rows[..|rows| - 1];
    assert forall j :: 0 <= j <= i ==> prefix[j] == rows[j];
  }

  /** The last row is the first of its pair when no earlier row has its pair. */
  lemma LastFirstOfPair(rows: seq<Row>)
    requires rows != []
    ensures FirstOfPair(rows, |rows| - 1) <==> !HasPair(rows[..|rows| - 1], rows[|rows| - 1])
  {
    var prefix := rows[..|rows| - 1];
    if HasPair(prefix, rows[|rows| - 1]) {
      var k :| 0 <= k < |prefix| && SamePair(prefix[k], rows[|rows| - 1]);
      assert rows[k] == prefix[k];
    }
  }

  /** Since the rows arrive oldest first, the row kept for a pair is its oldest. */
  lemma KeptRowIsOldest(rows: seq<Row>, x: Row, y: Row)
    requires OldestFirst(rows)
    requires x in FirstPerPair(rows) && y in rows && SamePair(x, y)
    ensures x.createdAt <= y.createdAt
  {
    FirstPerPairMembers(rows, x);
    var i :| 0 <= i < |rows| && rows[i] == x && FirstOfPair(rows, i);
    var j :| 0 <= j < |rows| && rows[j] == y;
  }

  /** No row is made up or duplicated: the reduced list is a sub-multiset of the input. */
  lemma {:induction false} FirstPerPairFromInput(rows: seq<Row>)
    ensures multiset(FirstPerPair(rows)) <= multiset(rows)
  {
    if rows != [] {
      var prefix := rows[..|rows| - 1];
      FirstPerPairFromInput(prefix);
      assert rows == prefix + [rows[|rows| - 1]];
    }
  }

  /** A list with unique pairs is left as it is. */
  lemma {:induction false} FirstPerPairOfUnique(rows: seq<Row>)
    requires UniquePairs(rows)
    ensures FirstPerPair(rows) == rows
  {
    if rows != [] {
      var prefix := rows[..|rows| - 1];
      var current := rows[|rows| - 1];
      FirstPerPairOfUnique(prefix);
      assert prefix + [current] == rows;
    }
  }

  /** Reducing the reduced list changes nothing. */
  lemma FirstPerPairIdempotent(rows: seq<Row>)
    ensures FirstPerPair(FirstPerPair(rows)) == FirstPerPair(rows)
  {
    FirstPerPairUnique(rows);
    FirstPerPairOfUnique(FirstPerPair(rows));
  }

  /** Places `x` into a newest-first list after every row at least as new. */
  function InsertByAge(x: Row, rows: seq<Row>): (r: seq<Row>)
    ensures |r| == |rows| + 1 && (r[0] == x || (rows != [] && r[0] == rows[0]))
  {
    if rows == [] then [x]
    else if x.createdAt > rows[0].createdAt then [x] + rows
    else [rows[0]] + InsertByAge(x, rows[1..])
  }

  /** Inserting adds exactly the one row. */
  lemma {:induction false} InsertByAgeAddsOne(x: Row, rows: seq<Row>)
    ensures multiset(InsertByAge(x, rows)) == multiset(rows) + multiset{x}
  {
    if rows != [] && x.createdAt <= rows[0].createdAt {
      InsertByAgeAddsOne(x, rows[1..]);
      assert rows == [rows[0]] + rows[1..];
    }
  }

  /** Inserting into a newest-first list keeps it newest first. */
  lemma {:induction false} InsertByAgeKeepsOrder(x: Row, rows: seq<Row>)
    requires NewestFirst(rows)
    ensures NewestFirst(InsertByAge(x, rows))
  {
    if rows != [] && x.createdAt <= rows[0].createdAt {
      var tail := InsertByAge(x, rows[1..]);
      InsertByAgeKeepsOrder(x, rows[1..]);
      assert tail[0].createdAt <= rows[0].createdAt;
      assert forall k :: 0 <= k < |tail| ==> tail[k].createdAt <= tail[0].createdAt;
    }
  }

  /** `uniqueRequests.sort((a, b) => b.created_at - a.created_at)`: the same rows,
      newest first. */
  function SortNewestFirst(rows: seq<Row>): (r: seq<Row>)
    ensures NewestFirst(r)
    ensures multiset(r) == multiset(rows)
  {
    if rows == [] then []
    else
      var prefix := rows[..|rows| - 1];
      var sorted := SortNewestFirst(prefix);
      assert rows == prefix + [rows[|rows| - 1]];
      InsertByAgeAddsOne(rows[|rows| - 1], sorted);
      InsertByAgeKeepsOrder(rows[|rows| - 1], sorted);
      InsertByAge(rows[|rows| - 1], sorted)
  }

  /** What `setRequests` stores after a successful fetch. */
  function Listing(data: seq<Row>): seq<Row> {
    SortNewestFirst(FirstPerPair(data))
  }

  /** The displayed list: newest first, one row per pair, every pair of the data present,
      and every row an unmodified fetched row. */
  lemma ListingProperties(data: seq<Row>, x: Row)
    ensures NewestFirst(Listing(data)) && UniquePairs(Listing(data))
    ensures multiset(Listing(data)) == multiset(FirstPerPair(data)) <= multiset(data)
    ensures HasPair(data, x) <==> exists k :: 0 <= k < |Listing(data)| && SamePair(Listing(data)[k], x)
  {
    FirstPerPairFromInput(data);
    FirstPerPairSamePairs(data, x);
    FirstPerPairUnique(data);
    var r := Listing(data);
    var u := FirstPerPair(data);
    UniquePairsPermuted(u, r);
    HasPairPermuted(u, r, x);
  }

  /** Reordering keeps the set of pairs present. */
  lemma HasPairPermuted(u: seq<Row>, r: seq<Row>, x: Row)
    requires multiset(r) == multiset(u)
    ensures HasPair(u, x) <==> HasPair(r, x)
  {
    if HasPair(u, x) {
      var k :| 0 <= k < |u| && SamePair(u[k], x);
      assert u[k] in multiset(r);
      var m :| 0 <= m < |r| && r[m] == u[k];
    }
    if HasPair(r, x) {
      var k :| 0 <= k < |r| && SamePair(r[k], x);
      assert r[k] in multiset(u);
      var m :| 0 <= m < |u| && u[m] == r[k];
    }
  }

  /** Reordering keeps pairs unique. */
  lemma UniquePairsPermuted(u: seq<Row>, r: seq<Row>)
    requires UniquePairs(u) && multiset(r) == multiset(u)
    ensures UniquePairs(r)
  {
    forall i, j | 0 <= i < j < |r| ensures !SamePair(r[i], r[j]) {
      assert r[i] != r[j] by {
        if r[i] == r[j] {
          RepeatedCount(r, i, j);
          var p, q := TwoPositions(u, r[i]);
        }
      }
      assert r[i] in multiset(u) && r[j] in multiset(u);
      var p :| 0 <= p < |u| && u[p] == r[i];
      var q :| 0 <= q < |u| && u[q] == r[j];
      if p < q { assert !SamePair(u[p], u[q]); } else { assert !SamePair(u[q], u[p]); }
    }
  }

  /** A value at two positions occurs at least twice. */
  lemma RepeatedCount(r: seq<Row>, i: int, j: int)
    requires 0 <= i < j < |r| && r[i] == r[j]
    ensures multiset(r)[r[i]] >= 2
  {
    assert r == r[..j] + [r[j]] + r[j + 1..];
    assert r[..j][i] == r[i];
  }

  /** A value occurring at least twice sits at two positions. */
  lemma {:induction false} TwoPositions(u: seq<Row>, x: Row) returns (p: int, q: int)
    requires multiset(u)[x] >= 2
    ensures 0 <= p < q < |u| && u[p] == x && u[q] == x
  {
    var prefix := u[..|u| - 1];
    assert u == prefix + [u[|u| - 1]];
    if u[|u| - 1] == x {
      assert x in multiset(prefix);
      p :| 0 <= p < |prefix| && prefix[p] == x;
      q := |u| - 1;
    } else {
      p, q := TwoPositions(prefix, x);
      assert u[p] == prefix[p] && u[q] == prefix[q];
    }
  }

  /** Two requests at one property and one at another, fetched oldest first: the older
      of the first two and the third remain, the third on top. */
  lemma ListingExample(a: Row, b: Row, c: Row)
    requires SamePair(a, b) && !SamePair(a, c)
    requires a.createdAt < b.createdAt < c.createdAt
    ensures Listing([a, b, c]) == [c, a]
  {
    assert [a, b, c][..2] == [a, b] && [a, b][..1] == [a] && [a][..0] == [];
    assert FirstPerPair([a]) == [a];
    assert [a][0] == a && HasPair([a], b);
    assert FirstPerPair([a, b]) == [a];
    assert !HasPair([a], c);
    assert FirstPerPair([a, b, c]) == [a, c];
    assert [a, c][..1] == [a];
  }

  /** The outcome of the query: an error, or the (possibly null) rows. */
  datatype FetchResult = FetchFailed(message: string) | Fetched(data: Option<seq<Row>>)

  /** The dashboard's `requests` state. */
  class AdminDashboard {
    var requests: seq<Row>

    constructor ()
      ensures requests == []
    {
      requests := [];
    }

    /** `fetchRequests` after the query returned `result`: an error leaves the list as it
        was; otherwise the rows (none when `data` is null) are reduced to the first per
        pair and stored newest first. */
    method FetchRequests(result: FetchResult)
      modifies this
      ensures result.FetchFailed? ==> requests == old(requests)
      ensures result.Fetched? ==>
                requests == Listing(if result.data.Some? then result.data.value else [])
    {
      match result
      case FetchFailed(_) =>
      case Fetched(data) =>
        var rows := if data.Some? then data.value else [];
        var uniqueRequests := KeepFirstPerPair(rows);
        requests := SortNewestFirst(uniqueRequests);
    }
  }
}
