/**
 * The Diesel statements the actions are built from, over a table held as the sequence
 * of its rows in scan order (SQLite's rowid order, since no query has an ORDER BY).
 * A row filter `.filter(col.eq(v))` is a predicate on rows.
 */
module Sql {
  import opened Prelude

  /** `.filter(matches).first()` with `.optional()`: the first matching row in scan order. */
  function First<T>(rows: seq<T>, matches: T -> bool): (r: Option<T>)
    ensures r.None? <==> forall i | 0 <= i < |rows| :: !matches(rows[i])
    ensures r.Some? ==> exists i | 0 <= i < |rows| :: rows[i] == r.value && matches(rows[i]) && IsFirst(rows, matches, i)
  {
    if |rows| == 0 then None
    else if matches(rows[0]) then
      assert IsFirst(rows, matches, 0);
      Some(rows[0])
    else
      var r := First(rows[1..], matches);
      assert r.Some? ==> exists i | 0 <= i < |rows| :: rows[i] == r.value && matches(rows[i]) && IsFirst(rows, matches, i) by {
        if r.Some? {
          var i :| 0 <= i < |rows[1..]| && rows[1..][i] == r.value && matches(rows[1..][i]) && IsFirst(rows[1..], matches, i);
          assert rows[1..][i] == rows[i + 1];
          assert IsFirst(rows, matches, i + 1);
        }
      }
      r
  }

  /** No row before index `i` matches. */
  ghost predicate IsFirst<T>(rows: seq<T>, matches: T -> bool, i: int)
    requires 0 <= i <= |rows|
  {
    forall j | 0 <= j < i :: !matches(rows[j])
  }

  /** The number of rows a `WHERE matches` clause selects, which `execute` reports. */
  function Count<T>(rows: seq<T>, matches: T -> bool): (n: nat)
    ensures n <= |rows|
    ensures n == 0 <==> forall i | 0 <= i < |rows| :: !matches(rows[i])
  {
    if |rows| == 0 then 0
    else (if matches(rows[0]) then 1 else 0) + Count(rows[1..], matches)
  }

  /** `diesel::update(table.filter(matches)).set(..)`: every selected row is rewritten by `change`. */
  function UpdateWhere<T>(rows: seq<T>, matches: T -> bool, change: T -> T): (r: seq<T>)
    ensures |r| == |rows|
    ensures forall i | 0 <= i < |rows| :: r[i] == if matches(rows[i]) then change(rows[i]) else rows[i]
  {
    if |rows| == 0 then []
    else [if matches(rows[0]) then change(rows[0]) else rows[0]] + UpdateWhere(rows[1..], matches, change)
  }

  /**
   * `diesel::delete(table.filter(matches))`: every non-matching row stays, as often as
   * it occurred, and every matching row goes. With the size equation this makes `Count`
   * the number of matching rows. (That the survivors keep ascending keys is
   * `DeleteKeepsAscending`.)
   */
  function DeleteWhere<T>(rows: seq<T>, matches: T -> bool): (r: seq<T>)
    ensures |r| + Count(rows, matches) == |rows|
    ensures forall x | x in r :: x in rows && !matches(x)
    ensures forall i | 0 <= i < |rows| && !matches(rows[i]) :: rows[i] in r
    ensures forall x | x in rows :: multiset(r)[x] == if matches(x) then 0 else multiset(rows)[x]
  {
    if |rows| == 0 then []
    else
      assert rows == [rows[0]] + rows[1..];
      if matches(rows[0]) then DeleteWhere(rows[1..], matches)
      else [rows[0]] + DeleteWhere(rows[1..], matches)
  }

  /** Keys strictly ascend along the rows: the table's primary key in rowid order. */
  ghost predicate Ascending<T>(rows: seq<T>, key: T -> int)
  {
    forall i, j | 0 <= i < j < |rows| :: key(rows[i]) < key(rows[j])
  }

  /** Deleting rows keeps the survivors' keys ascending. */
  lemma {:induction false} DeleteKeepsAscending<T>(rows: seq<T>, matches: T -> bool, key: T -> int)
    requires Ascending(rows, key)
    ensures Ascending(DeleteWhere(rows, matches), key)
    ensures forall x | x in DeleteWhere(rows, matches) :: x in rows
  {
    if |rows| > 0 {
      var tail := rows[1..];
      DeleteKeepsAscending(tail, matches, key);
      var rest := DeleteWhere(tail, matches);
      if !matches(rows[0]) {
        forall x | x in rest ensures key(rows[0]) < key(x) {
          var j :| 0 <= j < |tail| && tail[j] == x;
          assert x == rows[j + 1];
        }
        AscendingCons(rows[0], rest, key);
      }
    }
  }

  /** A row whose key is below every key of an ascending sequence can be put in front of it. */
  lemma AscendingCons<T>(x: T, rest: seq<T>, key: T -> int)
    requires Ascending(rest, key)
    requires forall y | y in rest :: key(x) < key(y)
    ensures Ascending([x] + rest, key)
  {
    var r := [x] + rest;
    forall i, j | 0 <= i < j < |r| ensures key(r[i]) < key(r[j]) {
      assert r[j] == rest[j - 1];
      if i > 0 {
        assert r[i] == rest[i - 1];
      } else {
        assert rest[j - 1] in rest;
      }
    }
  }

  /** Under an ascending key, at most one row carries a given key value. */
  lemma KeyUnique<T>(rows: seq<T>, key: T -> int, i: int, j: int)
    requires Ascending(rows, key)
    requires 0 <= i < |rows| && 0 <= j < |rows| && key(rows[i]) == key(rows[j])
    ensures i == j
  {
  }

  /** Appending a row matched by nothing earlier makes it the first match; otherwise the earlier match stays first. */
  lemma {:induction false} FirstOfAppend<T>(rows: seq<T>, x: T, matches: T -> bool)
    ensures First(rows + [x], matches) == if First(rows, matches).Some? then First(rows, matches)
                                          else if matches(x) then Some(x) else None
  {
    if |rows| > 0 {
      assert (rows + [x])[1..] == rows[1..] + [x];
      FirstOfAppend(rows[1..], x, matches);
    }
  }

  /** An update whose change keeps the filter true hits the first match: the first match of the result is its image. */
  lemma {:induction false} FirstOfUpdate<T>(rows: seq<T>, matches: T -> bool, change: T -> T)
    requires forall x :: matches(x) ==> matches(change(x))
    ensures First(UpdateWhere(rows, matches, change), matches) ==
            if First(rows, matches).Some? then Some(change(First(rows, matches).value)) else None
  {
    if |rows| > 0 {
      assert UpdateWhere(rows, matches, change)[1..] == UpdateWhere(rows[1..], matches, change);
      FirstOfUpdate(rows[1..], matches, change);
    }
  }

  /** Under an ascending key, a filter on key `k` selects exactly one row precisely when some row has key `k`. */
  lemma {:induction false} CountOfKey<T>(rows: seq<T>, key: T -> int, k: int, matches: T -> bool)
    requires Ascending(rows, key)
    requires forall x :: matches(x) <==> key(x) == k
    ensures Count(rows, matches) == 1 <==> exists i | 0 <= i < |rows| :: key(rows[i]) == k
  {
    if |rows| > 0 {
      assert Ascending(rows[1..], key);
      CountOfKey(rows[1..], key, k, matches);
      if key(rows[0]) == k {
        forall i | 0 <= i < |rows[1..]| ensures !matches(rows[1..][i]) {
          assert rows[1..][i] == rows[i + 1];
        }
      } else if exists i | 0 <= i < |rows| :: key(rows[i]) == k {
        var i :| 0 <= i < |rows| && key(rows[i]) == k;
        assert rows[1..][i - 1] == rows[i];
      }
    }
  }
}
