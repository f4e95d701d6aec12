/**
 * The SQL statements the services issue, on a table held as a sequence of rows in insertion
 * order: `SELECT ... WHERE p` (the first match, or the number of matches), `UPDATE ... SET f
 * WHERE p`, `DELETE ... WHERE p`, and the unique indexes the schema declares.
 */
module Tables {
  import opened Wrappers

  /** `SELECT ... WHERE p LIMIT 1`: the position of the first matching row. */
  function First<T>(rows: seq<T>, p: T -> bool): (r: Option<nat>)
    ensures r.Some? ==> r.value < |rows| && p(rows[r.value])
    ensures r.Some? ==> forall j :: 0 <= j < r.value ==> !p(rows[j])
    ensures r.None? <==> forall j :: 0 <= j < |rows| ==> !p(rows[j])
  {
    if |rows| == 0 then None
    else if p(rows[0]) then Some(0)
    else match First(rows[1..], p)
      case None => None
      case Some(k) => Some(k + 1)
  }

  /** `SELECT count(*) ... WHERE p`. */
  function Count<T>(rows: seq<T>, p: T -> bool): (n: nat)
    ensures n <= |rows|
  {
    if |rows| == 0 then 0
    else Count(rows[..|rows| - 1], p) + (if p(rows[|rows| - 1]) then 1 else 0)
  }

  /** An inserted row adds one to the count exactly when it matches. */
  lemma CountAppend<T>(rows: seq<T>, x: T, p: T -> bool)
    ensures Count(rows + [x], p) == Count(rows, p) + (if p(x) then 1 else 0)
  {
    assert (rows + [x])[..|rows|] == rows;
  }

  /** Replacing one row changes the count by what the old and the new row contribute. */
  lemma {:induction false} CountSet<T>(rows: seq<T>, i: nat, x: T, p: T -> bool)
    requires i < |rows|
    ensures Count(rows[i := x], p) == Count(rows, p) - (if p(rows[i]) then 1 else 0) + (if p(x) then 1 else 0)
  {
    var n := |rows| - 1;
    if i < n {
      assert rows[i := x][..n] == rows[..n][i := x];
      CountSet(rows[..n], i, x, p);
    } else {
      assert rows[i := x][..n] == rows[..n];
    }
  }

  /** No row matches: the count is zero. */
  lemma {:induction false} CountNone<T>(rows: seq<T>, p: T -> bool)
    requires forall j :: 0 <= j < |rows| ==> !p(rows[j])
    ensures Count(rows, p) == 0
  {
    if |rows| > 0 {
      CountNone(rows[..|rows| - 1], p);
    }
  }

  /** Every row matches: the count is the number of rows, `SELECT count(*)` with no condition. */
  lemma {:induction false} CountAll<T>(rows: seq<T>, p: T -> bool)
    requires forall j :: 0 <= j < |rows| ==> p(rows[j])
    ensures Count(rows, p) == |rows|
  {
    if |rows| > 0 {
      CountAll(rows[..|rows| - 1], p);
    }
  }

  /** Counts of disjoint conditions add up to the count of their union. */
  lemma {:induction false} CountSplit<T>(rows: seq<T>, p: T -> bool, q: T -> bool, both: T -> bool)
    requires forall x :: both(x) <==> p(x) || q(x)
    requires forall x :: !(p(x) && q(x))
    ensures Count(rows, both) == Count(rows, p) + Count(rows, q)
  {
    if |rows| > 0 {
      CountSplit(rows[..|rows| - 1], p, q, both);
    }
  }

  /** Rows where `p` and `q` agree have the same count. */
  lemma {:induction false} CountSame<T>(a: seq<T>, b: seq<T>, p: T -> bool)
    requires |a| == |b|
    requires forall j :: 0 <= j < |a| ==> p(a[j]) == p(b[j])
    ensures Count(a, p) == Count(b, p)
  {
    if |a| > 0 {
      CountSame(a[..|a| - 1], b[..|b| - 1], p);
    }
  }

  /** `UPDATE ... SET f WHERE p`: every matching row is rewritten, the others stay as they were. */
  function UpdateWhere<T>(rows: seq<T>, p: T -> bool, f: T -> T): (r: seq<T>)
    ensures |r| == |rows|
    ensures forall j :: 0 <= j < |rows| ==> r[j] == if p(rows[j]) then f(rows[j]) else rows[j]
  {
    seq(|rows|, j requires 0 <= j < |rows| => if p(rows[j]) then f(rows[j]) else rows[j])
  }

  /** `DELETE ... WHERE p`: the rows that do not match; SQL promises no order, so only membership is stated. */
  function DeleteWhere<T>(rows: seq<T>, p: T -> bool): (r: seq<T>)
    ensures |r| <= |rows|
    ensures forall j :: 0 <= j < |r| ==> r[j] in rows && !p(r[j])
    ensures forall j :: 0 <= j < |rows| && !p(rows[j]) ==> rows[j] in r
  {
    if |rows| == 0 then []
    else (if p(rows[0]) then [] else [rows[0]]) + DeleteWhere(rows[1..], p)
  }

  /** `SELECT * ... WHERE p`: the matching rows; SQL promises no order, so only membership is stated. */
  function SelectWhere<T>(rows: seq<T>, p: T -> bool): (r: seq<T>)
    ensures |r| <= |rows|
    ensures forall j :: 0 <= j < |r| ==> r[j] in rows && p(r[j])
    ensures forall j :: 0 <= j < |rows| && p(rows[j]) ==> rows[j] in r
  {
    if |rows| == 0 then []
    else (if p(rows[0]) then [rows[0]] else []) + SelectWhere(rows[1..], p)
  }

  /** A condition splits the table: what a `SELECT` returns and what a `DELETE` keeps are, together, every row once. */
  lemma {:induction false} SelectDeletePartition<T>(rows: seq<T>, p: T -> bool)
    ensures multiset(SelectWhere(rows, p)) + multiset(DeleteWhere(rows, p)) == multiset(rows)
  {
    if |rows| > 0 {
      var head, tail := rows[0], rows[1..];
      SelectDeletePartition(tail, p);
      assert rows == [head] + tail;
      if p(head) {
        assert SelectWhere(rows, p) == [head] + SelectWhere(tail, p) && DeleteWhere(rows, p) == DeleteWhere(tail, p);
      } else {
        assert SelectWhere(rows, p) == SelectWhere(tail, p) && DeleteWhere(rows, p) == [head] + DeleteWhere(tail, p);
      }
      PartitionStep(head, SelectWhere(tail, p), DeleteWhere(tail, p), tail);
    }
  }

  /** A row put on either side of a split of the rest splits the whole. */
  lemma PartitionStep<T>(head: T, s: seq<T>, d: seq<T>, tail: seq<T>)
    requires multiset(s) + multiset(d) == multiset(tail)
    ensures multiset([head] + s) + multiset(d) == multiset([head] + tail)
    ensures multiset(s) + multiset([head] + d) == multiset([head] + tail)
  {
  }

  /** A condition every row meets selects the whole table. */
  lemma {:induction false} SelectAll<T>(rows: seq<T>, p: T -> bool)
    requires forall j :: 0 <= j < |rows| ==> p(rows[j])
    ensures SelectWhere(rows, p) == rows
  {
    if |rows| > 0 {
      SelectAll(rows[1..], p);
      assert [rows[0]] + rows[1..] == rows;
    }
  }

  /** Deleting nothing keeps the table. */
  lemma {:induction false} DeleteNothing<T>(rows: seq<T>, p: T -> bool)
    requires forall j :: 0 <= j < |rows| ==> !p(rows[j])
    ensures DeleteWhere(rows, p) == rows
  {
    if |rows| > 0 {
      DeleteNothing(rows[1..], p);
      assert [rows[0]] + rows[1..] == rows;
    }
  }

  /** A unique index on `key`: no two rows share a key. */
  predicate Unique<T, K(==)>(rows: seq<T>, key: T -> K) {
    forall i, j :: 0 <= i < j < |rows| ==> key(rows[i]) != key(rows[j])
  }

  /** With a unique key, the rows with a given key are at most one. */
  lemma UniqueOne<T, K>(rows: seq<T>, key: T -> K)
    requires Unique(rows, key)
    ensures forall i, j :: 0 <= i < |rows| && 0 <= j < |rows| && key(rows[i]) == key(rows[j]) ==> i == j
  {
  }

  lemma UniqueAppend<T, K>(rows: seq<T>, x: T, key: T -> K)
    requires Unique(rows, key)
    requires forall j :: 0 <= j < |rows| ==> key(rows[j]) != key(x)
    ensures Unique(rows + [x], key)
  {
    var r := rows + [x];
    forall i, j | 0 <= i < j < |r| ensures key(r[i]) != key(r[j]) {
      if j < |rows| {
        assert r[i] == rows[i] && r[j] == rows[j];
      } else {
        assert r[i] == rows[i] && r[j] == x;
      }
    }
  }

  lemma UniqueSet<T, K>(rows: seq<T>, i: nat, x: T, key: T -> K)
    requires Unique(rows, key) && i < |rows|
    requires key(x) == key(rows[i])
    ensures Unique(rows[i := x], key)
  {
    var r := rows[i := x];
    forall a, b | 0 <= a < b < |r| ensures key(r[a]) != key(r[b]) {
      assert key(r[a]) == key(rows[a]) && key(r[b]) == key(rows[b]);
    }
  }

  /** An update that keeps every row's key keeps the index unique. */
  lemma UniqueUpdate<T, K>(rows: seq<T>, p: T -> bool, f: T -> T, key: T -> K)
    requires Unique(rows, key)
    requires forall j :: 0 <= j < |rows| && p(rows[j]) ==> key(f(rows[j])) == key(rows[j])
    ensures Unique(UpdateWhere(rows, p, f), key)
  {
    var r := UpdateWhere(rows, p, f);
    forall a, b | 0 <= a < b < |r| ensures key(r[a]) != key(r[b]) {
      assert key(r[a]) == key(rows[a]) && key(r[b]) == key(rows[b]);
    }
  }

  /** Deleting rows keeps an index unique. */
  lemma {:induction false} UniqueDelete<T, K>(rows: seq<T>, p: T -> bool, key: T -> K)
    requires Unique(rows, key)
    ensures Unique(DeleteWhere(rows, p), key)
  {
    if |rows| > 0 {
      var tail := rows[1..];
      UniqueTail(rows, key);
      UniqueDelete(tail, p, key);
      if !p(rows[0]) {
        var rest := DeleteWhere(tail, p);
        HeadKeyFresh(rows, key);
        UniqueCons(rows[0], rest, key);
      }
    }
  }

  lemma UniqueTail<T, K>(rows: seq<T>, key: T -> K)
    requires Unique(rows, key) && |rows| > 0
    ensures Unique(rows[1..], key)
  {
    var tail := rows[1..];
    forall i, j | 0 <= i < j < |tail| ensures key(tail[i]) != key(tail[j]) {
      assert tail[i] == rows[i + 1] && tail[j] == rows[j + 1];
    }
  }

  lemma HeadKeyFresh<T, K>(rows: seq<T>, key: T -> K)
    requires Unique(rows, key) && |rows| > 0
    ensures forall x :: x in rows[1..] ==> key(x) != key(rows[0])
  {
    forall x | x in rows[1..] ensures key(x) != key(rows[0]) {
      var k :| 0 <= k < |rows[1..]| && rows[1..][k] == x;
      assert rows[k + 1] == x;
    }
  }

  lemma UniqueCons<T, K>(x: T, rest: seq<T>, key: T -> K)
    requires Unique(rest, key)
    requires forall y :: y in rest ==> key(y) != key(x)
    ensures Unique([x] + rest, key)
  {
    var r := [x] + rest;
    forall i, j | 0 <= i < j < |r| ensures key(r[i]) != key(r[j]) {
      assert r[j] == rest[j - 1];
      if i > 0 {
        assert r[i] == rest[i - 1];
      }
    }
  }
}
