/** The meaning of the single-table statements the handlers issue. A table is a
    sequence of rows; `Where` is the row set a SELECT returns and the rows a
    DELETE keeps (with the negated condition); `UpdateWhere` is an UPDATE. */
module Sql {

  /** The rows that satisfy `keep`, in table order. */
  function Where<T(!new)>(rows: seq<T>, keep: T -> bool): (r: seq<T>)
    ensures |r| <= |rows|
    ensures forall x :: x in r <==> x in rows && keep(x)
  {
    if rows == [] then []
    else if keep(rows[0]) then [rows[0]] + Where(rows[1..], keep)
    else Where(rows[1..], keep)
  }

  /** A selection keeps every qualifying row as often as the table holds it, and no other row. */
  lemma {:induction false} WhereMultiset<T(!new)>(rows: seq<T>, keep: T -> bool)
    ensures forall x :: multiset(Where(rows, keep))[x] == if keep(x) then multiset(rows)[x] else 0
  {
    if rows != [] {
      WhereMultiset(rows[1..], keep);
      assert rows == [rows[0]] + rows[1..];
    }
  }

  /** Every row that satisfies `matches` is replaced by `update` of it; the others
      stay as they are, in place. */
  function UpdateWhere<T>(rows: seq<T>, matches: T -> bool, update: T -> T): (r: seq<T>)
    ensures |r| == |rows|
    ensures forall i :: 0 <= i < |rows| ==> r[i] == if matches(rows[i]) then update(rows[i]) else rows[i]
  {
    if rows == [] then []
    else [if matches(rows[0]) then update(rows[0]) else rows[0]] + UpdateWhere(rows[1..], matches, update)
  }

  /** No two rows share a key. */
  ghost predicate DistinctBy<T, K>(rows: seq<T>, key: T -> K)
  {
    forall i, j :: 0 <= i < j < |rows| ==> key(rows[i]) != key(rows[j])
  }

  /** Keys strictly increase along the sequence. */
  ghost predicate IncreasingBy<T>(rows: seq<T>, key: T -> int)
  {
    forall i, j :: 0 <= i < j < |rows| ==> key(rows[i]) < key(rows[j])
  }

  /** Every key lies below `bound`, the next key the table will hand out. */
  ghost predicate Below<T>(rows: seq<T>, key: T -> int, bound: int)
  {
    forall x :: x in rows ==> key(x) < bound
  }

  /** Selecting after appending one row adds that row at the end when it qualifies. */
  lemma {:induction false} WhereAppend<T(!new)>(rows: seq<T>, x: T, keep: T -> bool)
    ensures Where(rows + [x], keep) == Where(rows, keep) + (if keep(x) then [x] else [])
  {
    if rows == [] {
      assert [] + [x] == [x] && [x][1..] == [];
    } else {
      assert (rows + [x])[0] == rows[0];
      assert (rows + [x])[1..] == rows[1..] + [x];
      WhereAppend(rows[1..], x, keep);
    }
  }

  /** A narrower condition applied to a selection gives the same rows as applied to the table. */
  lemma {:induction false} WhereNarrow<T(!new)>(rows: seq<T>, wide: T -> bool, narrow: T -> bool)
    requires forall x :: narrow(x) ==> wide(x)
    ensures Where(Where(rows, wide), narrow) == Where(rows, narrow)
  {
    if rows != [] {
      WhereNarrow(rows[1..], wide, narrow);
    }
  }

  /** A selection (or the rows a DELETE leaves) keeps keys distinct. */
  lemma {:induction false} WhereKeepsDistinct<T(!new), K>(rows: seq<T>, keep: T -> bool, key: T -> K)
    requires DistinctBy(rows, key)
    ensures DistinctBy(Where(rows, keep), key)
  {
    if rows != [] {
      WhereKeepsDistinct(rows[1..], keep, key);
      var rest := Where(rows[1..], keep);
      forall y | y in rest
        ensures key(y) != key(rows[0])
      {
        var j :| 0 <= j < |rows[1..]| && rows[1..][j] == y;
        assert rows[j + 1] == y;
      }
    }
  }

  /** An UPDATE that leaves the key column alone keeps keys distinct and below the bound. */
  lemma UpdateWhereKeepsKeys<T>(rows: seq<T>, matches: T -> bool, update: T -> T, key: T -> int, bound: int)
    requires forall x :: key(update(x)) == key(x)
    requires DistinctBy(rows, key) && Below(rows, key, bound)
    ensures DistinctBy(UpdateWhere(rows, matches, update), key)
    ensures Below(UpdateWhere(rows, matches, update), key, bound)
  {
    var r := UpdateWhere(rows, matches, update);
    assert forall i :: 0 <= i < |r| ==> key(r[i]) == key(rows[i]);
    forall y | y in r
      ensures key(y) < bound
    {
      var i :| 0 <= i < |r| && r[i] == y;
      assert key(y) == key(rows[i]) && rows[i] in rows;
    }
  }

  /** Appending a row whose key no other row has keeps keys distinct. */
  lemma AppendKeepsDistinct<T, K>(rows: seq<T>, x: T, key: T -> K)
    requires DistinctBy(rows, key)
    requires forall y :: y in rows ==> key(y) != key(x)
    ensures DistinctBy(rows + [x], key)
  {
    var r := rows + [x];
    forall i, j | 0 <= i < j < |r|
      ensures key(r[i]) != key(r[j])
    {
      if j == |rows| {
        assert r[i] == rows[i];
      }
    }
  }

  /** Appending a row keyed by the bound keeps keys distinct and below the next bound. */
  lemma AppendFresh<T>(rows: seq<T>, x: T, key: T -> int, bound: int)
    requires DistinctBy(rows, key) && Below(rows, key, bound)
    requires key(x) == bound
    ensures DistinctBy(rows + [x], key) && Below(rows + [x], key, bound + 1)
  {
    AppendKeepsDistinct(rows, x, key);
  }

  /** A selection keeps every key below the bound. */
  lemma WhereKeepsBelow<T(!new)>(rows: seq<T>, keep: T -> bool, key: T -> int, bound: int)
    requires Below(rows, key, bound)
    ensures Below(Where(rows, keep), key, bound)
  {
  }

  /** A selection keeps rows whose keys strictly increase in that order. */
  lemma {:induction false} WhereKeepsOrder<T(!new)>(rows: seq<T>, keep: T -> bool, key: T -> int)
    requires IncreasingBy(rows, key)
    ensures IncreasingBy(Where(rows, keep), key)
  {
    if rows != [] {
      var tail := rows[1..];
      assert IncreasingBy(tail, key) by {
        forall i, j | 0 <= i < j < |tail|
          ensures key(tail[i]) < key(tail[j])
        {
          assert tail[i] == rows[i + 1] && tail[j] == rows[j + 1];
        }
      }
      WhereKeepsOrder(tail, keep, key);
      var rest := Where(tail, keep);
      if keep(rows[0]) {
        forall y | y in rest
          ensures key(rows[0]) < key(y)
        {
          var j :| 0 <= j < |tail| && tail[j] == y;
          assert rows[j + 1] == y;
        }
        var r := [rows[0]] + rest;
        forall i, j | 0 <= i < j < |r|
          ensures key(r[i]) < key(r[j])
        {
          assert r[j] == rest[j - 1] && rest[j - 1] in rest;
          if i > 0 {
            assert r[i] == rest[i - 1];
          }
        }
      }
    }
  }

  /** A condition no row meets selects nothing. */
  lemma {:induction false} WhereNone<T(!new)>(rows: seq<T>, keep: T -> bool)
    requires forall x :: x in rows ==> !keep(x)
    ensures Where(rows, keep) == []
  {
    if rows != [] {
      assert rows[0] in rows;
      WhereNone(rows[1..], keep);
    }
  }
}
