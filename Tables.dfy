/** Tables of the entity store as sequences of rows. The row at index `i`
    has the auto-increment id `i + 1`; a `SELECT ... WHERE` that fetches one
    column returns the first matching row in insertion order. */
module Tables {
  import opened Php

  /** Index of the first row satisfying `p`, if any. */
  function FirstIndex<T>(rows: seq<T>, p: T -> bool): (r: Option<nat>)
    ensures r.Some? ==> r.value < |rows| && p(rows[r.value])
    ensures r.Some? ==> forall j :: 0 <= j < r.value ==> !p(rows[j])
    ensures r.None? <==> forall j :: 0 <= j < |rows| ==> !p(rows[j])
  {
    if rows == [] then None
    else if p(rows[0]) then Some(0)
    else
      match FirstIndex(rows[1..], p)
      case None => None
      case Some(k) => Some(k + 1)
  }

  /** Index of the last row satisfying `p`, if any. */
  function LastIndex<T>(rows: seq<T>, p: T -> bool): (r: Option<nat>)
    ensures r.Some? ==> r.value < |rows| && p(rows[r.value])
    ensures r.Some? ==> forall j :: r.value < j < |rows| ==> !p(rows[j])
    ensures r.None? <==> forall j :: 0 <= j < |rows| ==> !p(rows[j])
  {
    if rows == [] then None
    else if p(rows[|rows| - 1]) then Some(|rows| - 1)
    else LastIndex(rows[..|rows| - 1], p)
  }

  /** The values `f` yields over `xs`, in order, skipping the rows it
      yields nothing for (a crawler `each` that appends on a match). */
  function Collect<A, B>(xs: seq<A>, f: A -> Option<B>): (ys: seq<B>)
    ensures |ys| <= |xs|
  {
    if xs == [] then []
    else (if f(xs[0]).Some? then [f(xs[0]).value] else []) + Collect(xs[1..], f)
  }

  /** A value is collected exactly when some row yields it. */
  lemma {:induction false} CollectExact<A, B>(xs: seq<A>, f: A -> Option<B>, y: B)
    ensures y in Collect(xs, f) <==> exists k :: 0 <= k < |xs| && f(xs[k]) == Some(y)
  {
    if xs != [] {
      CollectExact(xs[1..], f, y);
      if y in Collect(xs[1..], f) {
        var k :| 0 <= k < |xs[1..]| && f(xs[1..][k]) == Some(y);
        assert f(xs[k + 1]) == Some(y);
      }
      if exists k :: 0 <= k < |xs| && f(xs[k]) == Some(y) {
        var k :| 0 <= k < |xs| && f(xs[k]) == Some(y);
        if k > 0 {
          assert xs[1..][k - 1] == xs[k];
        }
      }
    }
  }

  /** A row clashing with `x` under the table's unique key. */
  predicate AnyClash<T>(rows: seq<T>, x: T, clash: (T, T) -> bool) {
    exists j :: 0 <= j < |rows| && clash(rows[j], x)
  }

  /** No two rows of the table clash under its unique key. */
  predicate Distinct<T>(rows: seq<T>, clash: (T, T) -> bool) {
    forall i, j :: 0 <= i < j < |rows| ==> !clash(rows[i], rows[j])
  }

  ghost predicate Symmetric<T(!new)>(clash: (T, T) -> bool) {
    forall a, b :: clash(a, b) == clash(b, a)
  }

  /** `INSERT IGNORE`: the row is appended unless it clashes with a stored
      row under the unique key, in which case nothing changes. */
  function InsertIgnore<T>(rows: seq<T>, x: T, clash: (T, T) -> bool): (r: seq<T>)
    ensures AnyClash(rows, x, clash) ==> r == rows
    ensures !AnyClash(rows, x, clash) ==> r == rows + [x]
  {
    if FirstIndex(rows, y => clash(y, x)).Some? then rows else rows + [x]
  }

  /** `INSERT IGNORE` keeps the unique key unique. */
  lemma InsertIgnoreDistinct<T(!new)>(rows: seq<T>, x: T, clash: (T, T) -> bool)
    requires Symmetric(clash)
    requires Distinct(rows, clash)
    ensures Distinct(InsertIgnore(rows, x, clash), clash)
  {
    var r := InsertIgnore(rows, x, clash);
    if !AnyClash(rows, x, clash) {
      forall i, j | 0 <= i < j < |r|
        ensures !clash(r[i], r[j])
      {
        if j == |rows| {
          assert r[j] == x && r[i] == rows[i];
        }
      }
    }
  }

  /** Repeating an `INSERT IGNORE` changes nothing, provided every row
      clashes with itself (a unique key always does). */
  lemma InsertIgnoreTwice<T>(rows: seq<T>, x: T, clash: (T, T) -> bool)
    requires clash(x, x)
    ensures InsertIgnore(InsertIgnore(rows, x, clash), x, clash) == InsertIgnore(rows, x, clash)
  {
    var r := InsertIgnore(rows, x, clash);
    if !AnyClash(rows, x, clash) {
      assert r[|rows|] == x;
    }
    assert AnyClash(r, x, clash);
  }
}
