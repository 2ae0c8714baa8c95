/**
 * What the query built by `loadEventsByMetadataFrom` selects: the rows of the stream's table whose
 * columns equal the string form of every filter value and, when a minimum version is given, whose
 * version reaches it, ordered by version ascending. Rows of equal version keep the order they were
 * inserted in (a choice of this model; SQL leaves that order open).
 */
module Query {
  import opened Wrappers
  import opened PhpValues

  /** The `version` column read as an integer. */
  function RowVersion(row: Row): int
  {
    ParseInt(Col(row, "version"))
  }

  /** The WHERE clause: one equality per filter key, joined by AND, and `version >= minVersion` when given. */
  predicate Matches(row: Row, filter: map<string, MetaValue>, minVersion: Option<int>)
  {
    && (forall k :: k in filter ==> k in row && row[k] == ToPhpString(filter[k]))
    && (minVersion.Some? ==> RowVersion(row) >= minVersion.value)
  }

  function Where(rows: seq<Row>, filter: map<string, MetaValue>, minVersion: Option<int>): seq<Row>
  {
    if rows == [] then []
    else (if Matches(rows[0], filter, minVersion) then [rows[0]] else []) + Where(rows[1..], filter, minVersion)
  }

  /**
   * The ordering below is stated for any integer sort key; the statement sorts by `RowVersion`.
   * Rows of equal key keep their order.
   */
  predicate SortedBy(key: Row -> int, s: seq<Row>)
  {
    forall i, j :: 0 <= i < j < |s| ==> key(s[i]) <= key(s[j])
  }

  /** Puts `row` after every row of `sorted` whose key does not exceed its own. */
  function InsertByKey(key: Row -> int, row: Row, sorted: seq<Row>): seq<Row>
  {
    if sorted == [] then [row]
    else if key(row) < key(sorted[0]) then [row] + sorted
    else [sorted[0]] + InsertByKey(key, row, sorted[1..])
  }

  /** Inserting adds the row and loses none. */
  lemma {:induction false} InsertByKeyPermutes(key: Row -> int, row: Row, sorted: seq<Row>)
    ensures multiset(InsertByKey(key, row, sorted)) == multiset(sorted) + multiset{row}
  {
    if sorted != [] && key(row) >= key(sorted[0]) {
      InsertByKeyPermutes(key, row, sorted[1..]);
      assert sorted == [sorted[0]] + sorted[1..];
    }
  }

  /** Every row of `s` has at least key `v`. */
  predicate AllFrom(key: Row -> int, s: seq<Row>, v: int)
  {
    forall i :: 0 <= i < |s| ==> v <= key(s[i])
  }

  lemma {:induction false} InsertByKeyKeepsBound(key: Row -> int, row: Row, sorted: seq<Row>, v: int)
    requires AllFrom(key, sorted, v) && v <= key(row)
    ensures AllFrom(key, InsertByKey(key, row, sorted), v)
  {
    var r := InsertByKey(key, row, sorted);
    if sorted == [] || key(row) < key(sorted[0]) {
      assert r == [row] + sorted;
      forall i | 0 < i < |r|
        ensures v <= key(r[i])
      {
        assert r[i] == sorted[i - 1];
      }
    } else {
      var tail := sorted[1..];
      var rest := InsertByKey(key, row, tail);
      assert AllFrom(key, tail, v) by {
        assert forall i :: 0 <= i < |tail| ==> tail[i] == sorted[i + 1];
      }
      InsertByKeyKeepsBound(key, row, tail, v);
      assert r == [sorted[0]] + rest;
      forall i | 0 < i < |r|
        ensures v <= key(r[i])
      {
        assert r[i] == rest[i - 1];
      }
    }
  }

  lemma {:induction false} InsertByKeySorted(key: Row -> int, row: Row, sorted: seq<Row>)
    requires SortedBy(key, sorted)
    ensures SortedBy(key, InsertByKey(key, row, sorted))
  {
    var r := InsertByKey(key, row, sorted);
    if sorted == [] || key(row) < key(sorted[0]) {
      assert r == [row] + sorted;
      forall i, j | 0 <= i < j < |r|
        ensures key(r[i]) <= key(r[j])
      {
        assert r[j] == sorted[j - 1];
        if i > 0 {
          assert r[i] == sorted[i - 1];
        } else {
          assert key(sorted[0]) <= key(sorted[j - 1]);
        }
      }
    } else {
      var tail := sorted[1..];
      var rest := InsertByKey(key, row, tail);
      assert SortedBy(key, tail) && AllFrom(key, tail, key(sorted[0])) by {
        assert forall i :: 0 <= i < |tail| ==> tail[i] == sorted[i + 1];
      }
      InsertByKeySorted(key, row, tail);
      InsertByKeyKeepsBound(key, row, tail, key(sorted[0]));
      assert r == [sorted[0]] + rest;
      forall i, j | 0 <= i < j < |r|
        ensures key(r[i]) <= key(r[j])
      {
        assert r[j] == rest[j - 1];
        if i > 0 {
          assert r[i] == rest[i - 1];
        }
      }
    }
  }

  /** ORDER BY `key` ASC: an insertion sort that keeps rows of equal key in their order. */
  function OrderBy(key: Row -> int, rows: seq<Row>): (r: seq<Row>)
    ensures multiset(r) == multiset(rows)
    ensures SortedBy(key, r)
  {
    if rows == [] then []
    else
      assert rows == rows[..|rows| - 1] + [rows[|rows| - 1]];
      InsertByKeySorted(key, rows[|rows| - 1], OrderBy(key, rows[..|rows| - 1]));
      InsertByKeyPermutes(key, rows[|rows| - 1], OrderBy(key, rows[..|rows| - 1]));
      InsertByKey(key, rows[|rows| - 1], OrderBy(key, rows[..|rows| - 1]))
  }

  /** The statement's result: the matching rows, by version. */
  function Select(rows: seq<Row>, filter: map<string, MetaValue>, minVersion: Option<int>): seq<Row>
  {
    OrderBy(RowVersion, Where(rows, filter, minVersion))
  }

  // ---------------------------------------------------------------------
  // Lemmas

  /** WHERE keeps exactly the matching rows, each as often as it occurs. */
  lemma {:induction false} WhereKeepsMatching(rows: seq<Row>, filter: map<string, MetaValue>, minVersion: Option<int>)
    ensures forall x :: multiset(Where(rows, filter, minVersion))[x] == if Matches(x, filter, minVersion) then multiset(rows)[x] else 0
  {
    if rows != [] {
      WhereKeepsMatching(rows[1..], filter, minVersion);
      assert rows == [rows[0]] + rows[1..];
    }
  }

  /** SELECT keeps exactly the matching rows of the table, each as often as it occurs there. */
  lemma SelectCounts(rows: seq<Row>, filter: map<string, MetaValue>, minVersion: Option<int>)
    ensures var s := Select(rows, filter, minVersion);
      forall x :: multiset(s)[x] == if Matches(x, filter, minVersion) then multiset(rows)[x] else 0
  {
    WhereKeepsMatching(rows, filter, minVersion);
  }

  /** Every selected row is a matching row of the table. */
  lemma SelectMembers(rows: seq<Row>, filter: map<string, MetaValue>, minVersion: Option<int>)
    ensures var s := Select(rows, filter, minVersion);
      forall i :: 0 <= i < |s| ==> Matches(s[i], filter, minVersion) && s[i] in rows
  {
    SelectCounts(rows, filter, minVersion);
    var s := Select(rows, filter, minVersion);
    forall i | 0 <= i < |s|
      ensures Matches(s[i], filter, minVersion) && s[i] in rows
    {
      assert s[i] in multiset(s);
    }
  }

  /** Every row passes the empty filter without a minimum version. */
  lemma {:induction false} WhereWithoutFilter(rows: seq<Row>)
    ensures Where(rows, map[], None) == rows
  {
    if rows != [] {
      WhereWithoutFilter(rows[1..]);
      assert [rows[0]] + rows[1..] == rows;
    }
  }

  lemma {:induction false} InsertByKeyAtEnd(key: Row -> int, row: Row, sorted: seq<Row>)
    requires AllUpTo(key, sorted, key(row))
    ensures InsertByKey(key, row, sorted) == sorted + [row]
  {
    if sorted != [] {
      assert AllUpTo(key, sorted[1..], key(row)) by {
        assert forall i :: 0 <= i < |sorted[1..]| ==> sorted[1..][i] == sorted[i + 1];
      }
      InsertByKeyAtEnd(key, row, sorted[1..]);
      assert [sorted[0]] + (sorted[1..] + [row]) == sorted + [row];
    }
  }

  /** Every row of `s` has at most key `v`. */
  predicate AllUpTo(key: Row -> int, s: seq<Row>, v: int)
  {
    forall i :: 0 <= i < |s| ==> key(s[i]) <= v
  }

  /** Rows already in key order come back unchanged: the order among equal keys is kept. */
  lemma {:induction false} OrderByOfSorted(key: Row -> int, rows: seq<Row>)
    requires SortedBy(key, rows)
    ensures OrderBy(key, rows) == rows
  {
    if rows != [] {
      var prefix, last := rows[..|rows| - 1], rows[|rows| - 1];
      assert SortedBy(key, prefix) && AllUpTo(key, prefix, key(last)) by {
        assert forall i :: 0 <= i < |prefix| ==> prefix[i] == rows[i];
      }
      OrderByOfSorted(key, prefix);
      InsertByKeyAtEnd(key, last, prefix);
      assert prefix + [last] == rows;
    }
  }
}
