/** A database query, as the model sees it: keep the rows of a table that satisfy a
    condition, in table order. */
module Rows {
  import opened Wrappers

  /** The rows of `rows` for which `keep` holds, in their original order. */
  function Select<T(!new)>(rows: seq<T>, keep: T -> bool): (r: seq<T>)
    ensures |r| <= |rows|
    ensures forall x :: x in r <==> x in rows && keep(x)
    ensures forall x :: multiset(r)[x] == if keep(x) then multiset(rows)[x] else 0
  {
    if rows == [] then []
    else
      assert rows == [rows[0]] + rows[1..];
      if keep(rows[0]) then [rows[0]] + Select(rows[1..], keep)
      else Select(rows[1..], keep)
  }

  /** A condition every row satisfies selects the whole table. */
  lemma {:induction false} SelectAll<T(!new)>(rows: seq<T>, keep: T -> bool)
    requires forall x :: x in rows ==> keep(x)
    ensures Select(rows, keep) == rows
  {
    if rows != [] {
      SelectAll(rows[1..], keep);
    }
  }

  /** A condition no row satisfies selects nothing. */
  lemma NoneSelected<T(!new)>(rows: seq<T>, keep: T -> bool)
    requires forall x :: x in rows ==> !keep(x)
    ensures Select(rows, keep) == []
  {
  }

  /** Selecting from an appended row selects from each part. */
  lemma {:induction false} SelectAppend<T(!new)>(xs: seq<T>, ys: seq<T>, keep: T -> bool)
    ensures Select(xs + ys, keep) == Select(xs, keep) + Select(ys, keep)
  {
    if xs == [] {
      assert xs + ys == ys;
    } else {
      assert (xs + ys)[1..] == xs[1..] + ys;
      SelectAppend(xs[1..], ys, keep);
    }
  }

  /** Filtering first by a weaker condition and then by a stronger one is the same as
      filtering by the stronger one alone. */
  lemma {:induction false} SelectNarrow<T(!new)>(rows: seq<T>, wide: T -> bool, narrow: T -> bool)
    requires forall x :: narrow(x) ==> wide(x)
    ensures Select(Select(rows, wide), narrow) == Select(rows, narrow)
  {
    if rows != [] {
      SelectNarrow(rows[1..], wide, narrow);
    }
  }

  /** `Mono.first()` of a query: some row of the result, if there is one. Which one is up
      to the database, so only membership is promised; `rows[0]` in the body is just an
      arbitrary representative, and nothing in the model depends on which row it is. */
  function First<T>(rows: seq<T>): (r: Option<T>)
    ensures r.None? <==> rows == []
    ensures r.Some? ==> r.value in rows
  {
    if rows == [] then None else Some(rows[0])
  }
}
