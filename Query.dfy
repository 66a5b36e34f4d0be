/**
 * The part of the query engine the handlers rely on, over in-memory tables
 * (a table is a sequence of rows): lookup of the first matching row, filters,
 * counts, deletes and updates by predicate, ordering by an integer column,
 * offset pages and the substring match used by `contains` filters.
 */
module Query {
  import opened Wrappers

  /** The position of the first row satisfying `p`, or `|rows|` when there is none. */
  function FirstIndex<T>(rows: seq<T>, p: T -> bool): (i: nat)
    ensures i <= |rows|
    ensures forall j :: 0 <= j < i ==> !p(rows[j])
    ensures i < |rows| ==> p(rows[i])
  {
    if rows == [] then 0
    else if p(rows[0]) then 0
    else 1 + FirstIndex(rows[1..], p)
  }

  /** The first row satisfying `p` (findUnique / findFirst). */
  function First<T(!new)>(rows: seq<T>, p: T -> bool): (r: Option<T>)
    ensures r.None? <==> forall x :: x in rows ==> !p(x)
    ensures r.Some? ==> r.value in rows && p(r.value)
  {
    var i := FirstIndex(rows, p);
    if i < |rows| then Some(rows[i]) else None
  }

  /** The rows satisfying `p`, in table order (a `where` clause). */
  function Filter<T(!new)>(rows: seq<T>, p: T -> bool): (r: seq<T>)
    ensures |r| <= |rows|
    ensures forall x :: x in r <==> x in rows && p(x)
  {
    if rows == [] then []
    else
      var rest := Filter(rows[1..], p);
      assert forall x :: x in rows <==> x == rows[0] || x in rows[1..];
      if p(rows[0]) then [rows[0]] + rest else rest
  }

  /** A filter every row passes keeps the whole table. */
  lemma {:induction false} FilterKeepsAll<T(!new)>(rows: seq<T>, p: T -> bool)
    requires forall x :: x in rows ==> p(x)
    ensures Filter(rows, p) == rows
  {
    if rows != [] {
      assert rows[0] in rows;
      assert forall x :: x in rows[1..] ==> x in rows;
      FilterKeepsAll(rows[1..], p);
    }
  }

  /** Two filters that agree on every row select the same rows. */
  lemma {:induction false} FilterSame<T(!new)>(rows: seq<T>, p: T -> bool, q: T -> bool)
    requires forall x :: x in rows ==> (p(x) <==> q(x))
    ensures Filter(rows, p) == Filter(rows, q)
  {
    if rows != [] {
      assert rows[0] in rows;
      assert forall x :: x in rows[1..] ==> x in rows;
      FilterSame(rows[1..], p, q);
    }
  }

  /** Filtering keeps the rows in table order, so a relation between earlier and later rows survives it. */
  lemma {:induction false} FilterPairwise<T(!new)>(rows: seq<T>, p: T -> bool, ok: (T, T) -> bool)
    requires Pairwise(rows, ok)
    ensures Pairwise(Filter(rows, p), ok)
  {
    if rows != [] {
      FilterPairwise(rows[1..], p, ok);
      var rest := Filter(rows[1..], p);
      forall y | y in rest ensures ok(rows[0], y) {
        var k :| 0 <= k < |rows[1..]| && rows[1..][k] == y;
        assert rows[k + 1] == y;
      }
      if p(rows[0]) {
        var r := [rows[0]] + rest;
        forall i, j | 0 <= i < j < |r| ensures ok(r[i], r[j]) {
          if i == 0 {
            assert r[j] in rest;
          } else {
            assert r[i] == rest[i - 1] && r[j] == rest[j - 1];
          }
        }
      }
    }
  }

  /** The number of rows satisfying `p` (the `count` aggregate). */
  function Count<T>(rows: seq<T>, p: T -> bool): nat {
    if rows == [] then 0 else (if p(rows[0]) then 1 else 0) + Count(rows[1..], p)
  }

  /** The aggregate count agrees with the number of rows a `findMany` over the same filter returns. */
  lemma {:induction false} CountIsFilterLength<T(!new)>(rows: seq<T>, p: T -> bool)
    ensures Count(rows, p) == |Filter(rows, p)|
  {
    if rows != [] {
      CountIsFilterLength(rows[1..], p);
    }
  }

  /** The table after deleting every row satisfying `p`, other rows kept in order. */
  function RemoveWhere<T(!new)>(rows: seq<T>, p: T -> bool): (r: seq<T>)
    ensures |r| <= |rows|
    ensures forall x :: x in r <==> x in rows && !p(x)
  {
    if rows == [] then []
    else
      var rest := RemoveWhere(rows[1..], p);
      assert forall x :: x in rows <==> x == rows[0] || x in rows[1..];
      if p(rows[0]) then rest else [rows[0]] + rest
  }

  /** Deleting keeps the other rows in table order, so a relation between earlier and later rows survives it. */
  lemma RemoveWherePairwise<T(!new)>(rows: seq<T>, p: T -> bool, ok: (T, T) -> bool)
    requires Pairwise(rows, ok)
    ensures Pairwise(RemoveWhere(rows, p), ok)
  {
    FilterPairwise(rows, Not(p), ok);
    RemoveIsFilter(rows, p);
  }

  function Not<T>(p: T -> bool): T -> bool {
    (x: T) => !p(x)
  }

  lemma {:induction false} RemoveIsFilter<T(!new)>(rows: seq<T>, p: T -> bool)
    ensures RemoveWhere(rows, p) == Filter(rows, Not(p))
  {
    if rows != [] {
      RemoveIsFilter(rows[1..], p);
    }
  }

  /** Deleting rows that match nothing leaves the table as it was. */
  lemma {:induction false} RemoveNothing<T(!new)>(rows: seq<T>, p: T -> bool)
    requires forall x :: x in rows ==> !p(x)
    ensures RemoveWhere(rows, p) == rows
  {
    if rows != [] {
      assert rows[0] in rows;
      assert forall x :: x in rows[1..] ==> x in rows;
      RemoveNothing(rows[1..], p);
    }
  }

  /** When only the appended row matches, it is the one found. */
  lemma FirstOfAppended<T(!new)>(rows: seq<T>, x: T, p: T -> bool)
    requires forall y :: y in rows ==> !p(y)
    requires p(x)
    ensures First(rows + [x], p) == Some(x)
  {
    var r := rows + [x];
    assert forall y :: y in r ==> y in rows || y == x;
  }

  /** Deleting the row just appended (and nothing else matches) restores the table. */
  lemma {:induction false} RemoveAppended<T(!new)>(rows: seq<T>, x: T, p: T -> bool)
    requires forall y :: y in rows ==> !p(y)
    requires p(x)
    ensures RemoveWhere(rows + [x], p) == rows
  {
    if rows == [] {
      assert rows + [x] == [x];
      assert [x][1..] == [];
    } else {
      assert (rows + [x])[0] == rows[0];
      assert (rows + [x])[1..] == rows[1..] + [x];
      assert forall y :: y in rows[1..] ==> y in rows;
      RemoveAppended(rows[1..], x, p);
    }
  }

  /** Deleting where `p` picks out one row, which occurs once, deletes exactly that row. */
  lemma {:induction false} RemoveSingle<T(!new)>(rows: seq<T>, p: T -> bool, x: T)
    requires Distinct(rows) && x in rows
    requires forall y :: y in rows ==> (p(y) <==> y == x)
    ensures multiset(RemoveWhere(rows, p)) == multiset(rows) - multiset{x}
  {
    var first, rest := rows[0], rows[1..];
    assert rows == [first] + rest;
    assert multiset(rows) == multiset{first} + multiset(rest);
    assert forall y :: y in rest ==> y in rows;
    assert Distinct(rest) by {
      forall i, j | 0 <= i < j < |rest| ensures rest[i] != rest[j] {
        assert rest[i] == rows[i + 1] && rest[j] == rows[j + 1];
      }
    }
    if first == x {
      assert x !in rest by {
        forall k | 0 <= k < |rest| ensures rest[k] != x {
          assert rows[0] != rows[k + 1];
        }
      }
      RemoveNothing(rest, p);
      assert RemoveWhere(rows, p) == rest;
    } else {
      RemoveSingle(rest, p, x);
      assert RemoveWhere(rows, p) == [first] + RemoveWhere(rest, p);
      assert multiset([first] + RemoveWhere(rest, p)) == multiset{first} + multiset(RemoveWhere(rest, p));
    }
  }


  /** The table with every row satisfying `p` replaced by `x` (an `update` by id). */
  function ReplaceWhere<T>(rows: seq<T>, p: T -> bool, x: T): (r: seq<T>)
    ensures |r| == |rows|
    ensures forall i :: 0 <= i < |rows| ==> r[i] == if p(rows[i]) then x else rows[i]
  {
    seq(|rows|, i requires 0 <= i < |rows| => if p(rows[i]) then x else rows[i])
  }

  /** `ok` holds of every row and every later row. */
  ghost predicate Pairwise<T>(s: seq<T>, ok: (T, T) -> bool) {
    forall i, j :: 0 <= i < j < |s| ==> ok(s[i], s[j])
  }

  /** No row occurs twice. */
  ghost predicate Distinct<T>(s: seq<T>) {
    forall i, j :: 0 <= i < j < |s| ==> s[i] != s[j]
  }

  lemma {:induction false} DistinctByCounts<T(!new)>(s: seq<T>)
    ensures Distinct(s) <==> forall x :: multiset(s)[x] <= 1
  {
    if s != [] {
      DistinctByCounts(s[1..]);
      assert s == [s[0]] + s[1..];
      if Distinct(s) {
        assert Distinct(s[1..]) by {
          forall i, j | 0 <= i < j < |s[1..]| ensures s[1..][i] != s[1..][j] {
            assert s[1..][i] == s[i + 1] && s[1..][j] == s[j + 1];
          }
        }
        assert s[0] !in s[1..] by {
          forall k | 0 <= k < |s[1..]| ensures s[1..][k] != s[0] {
            assert s[1..][k] == s[k + 1];
          }
        }
      }
      if forall x :: multiset(s)[x] <= 1 {
        assert forall x :: multiset(s)[x] == multiset{s[0]}[x] + multiset(s[1..])[x];
        assert multiset(s[1..])[s[0]] == 0;
        assert Distinct(s[1..]);
        forall i, j | 0 <= i < j < |s| ensures s[i] != s[j] {
          if i == 0 {
            assert s[j] in s[1..];
          } else {
            assert s[i] == s[1..][i - 1] && s[j] == s[1..][j - 1];
          }
        }
      }
    }
  }

  /** Ordering rows that are all different gives rows that are all different. */
  lemma SortDistinct<T(!new)>(rows: seq<T>, key: T -> int, descending: bool)
    requires Distinct(rows)
    ensures Distinct(SortByKey(rows, key, descending))
  {
    DistinctByCounts(rows);
    DistinctByCounts(SortByKey(rows, key, descending));
  }

  function Different<T(==)>(): (T, T) -> bool {
    (a: T, b: T) => a != b
  }

  lemma DistinctIsPairwise<T>(s: seq<T>)
    ensures Distinct(s) <==> Pairwise(s, Different())
  {
  }

  /** `a` may stand before `b` when ordering by `key` (descending or ascending). */
  predicate Before<T>(key: T -> int, descending: bool, a: T, b: T) {
    if descending then key(a) >= key(b) else key(a) <= key(b)
  }

  ghost predicate SortedBy<T>(s: seq<T>, key: T -> int, descending: bool) {
    forall i, j :: 0 <= i < j < |s| ==> Before(key, descending, s[i], s[j])
  }

  /** Inserts `x` into a sorted sequence, after the rows it does not precede. */
  function Insert<T(!new)>(x: T, s: seq<T>, key: T -> int, descending: bool): (r: seq<T>)
    requires SortedBy(s, key, descending)
    ensures |r| == |s| + 1
    ensures multiset(r) == multiset(s) + multiset{x}
    ensures SortedBy(r, key, descending)
  {
    if s == [] then [x]
    else if Before(key, descending, x, s[0]) then [x] + s
    else
      var rest := Insert(x, s[1..], key, descending);
      assert s == [s[0]] + s[1..];
      forall y | y in rest ensures Before(key, descending, s[0], y) {
        assert y in multiset(rest);
        if y != x {
          var k :| 0 <= k < |s[1..]| && s[1..][k] == y;
          assert s[k + 1] == y;
        }
      }
      PrependSorted(s[0], rest, key, descending);
      [s[0]] + rest
  }

  /** A row that may stand before every row of a sorted sequence can head it. */
  lemma PrependSorted<T>(h: T, rest: seq<T>, key: T -> int, descending: bool)
    requires SortedBy(rest, key, descending)
    requires forall y :: y in rest ==> Before(key, descending, h, y)
    ensures SortedBy([h] + rest, key, descending)
  {
    var r := [h] + rest;
    forall i, j | 0 <= i < j < |r| ensures Before(key, descending, r[i], r[j]) {
      if i == 0 {
        assert r[j] in rest;
      } else {
        assert r[i] == rest[i - 1] && r[j] == rest[j - 1];
      }
    }
  }


  /** A stable ordering of `rows` by `key` (the `orderBy` of a query). */
  function SortByKey<T(!new)>(rows: seq<T>, key: T -> int, descending: bool): (r: seq<T>)
    ensures multiset(r) == multiset(rows)
    ensures |r| == |rows|
    ensures SortedBy(r, key, descending)
  {
    if rows == [] then []
    else
      assert rows == [rows[0]] + rows[1..];
      Insert(rows[0], SortByKey(rows[1..], key, descending), key, descending)
  }

  /** Ordering keeps exactly the same rows. */
  lemma SortKeepsRows<T(!new)>(rows: seq<T>, key: T -> int, descending: bool)
    ensures forall x :: x in SortByKey(rows, key, descending) <==> x in rows
  {
    var r := SortByKey(rows, key, descending);
    forall x ensures x in r <==> x in rows {
      assert x in r <==> x in multiset(r);
      assert x in rows <==> x in multiset(rows);
    }
  }

  /** `skip` then `take` over an ordered result. */
  function OffsetPage<T>(rows: seq<T>, skip: nat, take: nat): (r: seq<T>)
    ensures |r| == if skip >= |rows| then 0 else if |rows| - skip < take then |rows| - skip else take
    ensures forall i :: 0 <= i < |r| ==> r[i] == rows[skip + i]
  {
    if skip >= |rows| then []
    else if |rows| - skip < take then rows[skip..]
    else rows[skip..skip + take]
  }

  /** Every row of an offset page is a row of the ordered result. */
  lemma OffsetPageRows<T>(rows: seq<T>, skip: nat, take: nat)
    ensures forall x :: x in OffsetPage(rows, skip, take) ==> x in rows
  {
    var r := OffsetPage(rows, skip, take);
    forall x | x in r ensures x in rows {
      var i :| 0 <= i < |r| && r[i] == x;
      assert rows[skip + i] == x;
    }
  }

  /** An offset page of a sorted result is sorted. */
  lemma OffsetPageSorted<T>(rows: seq<T>, skip: nat, take: nat, key: T -> int, descending: bool)
    requires SortedBy(rows, key, descending)
    ensures SortedBy(OffsetPage(rows, skip, take), key, descending)
  {
    var r := OffsetPage(rows, skip, take);
    forall i, j | 0 <= i < j < |r| ensures Before(key, descending, r[i], r[j]) {
      assert r[i] == rows[skip + i] && r[j] == rows[skip + j];
    }
  }

  /** `text` contains `keyword` as a contiguous substring (a `contains` filter). */
  predicate Contains(text: string, keyword: string) {
    exists i :: 0 <= i <= |text| && keyword <= text[i..]
  }
}
