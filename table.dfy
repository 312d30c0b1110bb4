/** The SQL the services issue, over an in-memory table held as a sequence of rows in
    insertion order: `SELECT ... WHERE` with `fetchone()`/`fetchall()`, `UPDATE ... WHERE`
    with its row count, and the AUTOINCREMENT id of an `INSERT`. */
module Table {
  import opened Wrappers
  import Helpers

  /** `SELECT * ... WHERE p` then `fetchone()`: the first matching row, if any. */
  function FetchOne<T>(rows: seq<T>, p: T -> bool): (r: Option<T>)
    ensures r.Some? <==> exists k :: 0 <= k < |rows| && p(rows[k])
    ensures r.Some? ==> r.value in rows && p(r.value)
  {
    if |rows| == 0 then None
    else if p(rows[0]) then Some(rows[0])
    else
      var r := FetchOne(rows[1..], p);
      assert forall k :: 1 <= k < |rows| ==> rows[k] == rows[1..][k - 1];
      r
  }

  /** `SELECT * ... WHERE p` then `fetchall()`: every matching row, in table order. */
  function FetchAll<T>(rows: seq<T>, p: T -> bool): (r: seq<T>)
    ensures |r| <= |rows|
    ensures forall k :: 0 <= k < |r| ==> r[k] in rows && p(r[k])
    ensures forall k :: 0 <= k < |rows| && p(rows[k]) ==> rows[k] in r
    ensures (forall k :: 0 <= k < |rows| ==> p(rows[k])) ==> r == rows
  {
    if |rows| == 0 then []
    else
      var rest := FetchAll(rows[1..], p);
      assert rows == [rows[0]] + rows[1..];
      if p(rows[0]) then [rows[0]] + rest else rest
  }

  /** `UPDATE ... SET f WHERE p`: every matching row rewritten by `f`, the others kept. */
  function UpdateWhere<T>(rows: seq<T>, p: T -> bool, f: T -> T): (r: seq<T>)
    ensures |r| == |rows|
    ensures forall k :: 0 <= k < |rows| && p(rows[k]) ==> r[k] == f(rows[k])
    ensures forall k :: 0 <= k < |rows| && !p(rows[k]) ==> r[k] == rows[k]
  {
    seq(|rows|, k requires 0 <= k < |rows| => if p(rows[k]) then f(rows[k]) else rows[k])
  }

  /** `cursor.rowcount > 0` after an `UPDATE ... WHERE p`: some row matched, exactly when a
      `SELECT ... WHERE p` would have fetched one. */
  predicate AnyRow<T>(rows: seq<T>, p: T -> bool): (found: bool)
    ensures found <==> FetchOne(rows, p).Some?
  {
    exists k :: 0 <= k < |rows| && p(rows[k])
  }

  /** The ids an AUTOINCREMENT column holds when nothing is ever deleted: positive and strictly
      increasing in insertion order, hence pairwise distinct. */
  ghost predicate AutoIds(ids: seq<int>) {
    (forall k :: 0 <= k < |ids| ==> ids[k] >= 1)
    && (forall i, j :: 0 <= i < j < |ids| ==> ids[i] < ids[j])
  }

  /** Appending the next id keeps the column an AUTOINCREMENT column. */
  lemma AutoIdsAppend(ids: seq<int>)
    requires AutoIds(ids)
    ensures AutoIds(ids + [Helpers.NextId(ids)])
  {
  }
}
