/**
  Database tables as an import fills them (`internal/store/portability.go`):
  rows with explicit ids inserted one by one, and the generic filter over rows.
 */
module Tables {
  import opened Wrappers

  datatype Row<K, V> = Row(id: K, val: V)

  ghost predicate DistinctIds<K, V>(rows: seq<Row<K, V>>) {
    forall i, k :: 0 <= i < k < |rows| ==> rows[i].id != rows[k].id
  }

  /** The index of the latest of the first n rows with the id, -1 if there is none. */
  function Last<K(==), V>(rows: seq<Row<K, V>>, id: K, n: nat): (j: int)
    requires n <= |rows|
    ensures -1 <= j < n
    ensures j >= 0 ==> rows[j].id == id
    ensures forall k :: j < k < n ==> rows[k].id != id
  {
    if n == 0 then -1 else if rows[n - 1].id == id then n - 1 else Last(rows, id, n - 1)
  }

  /** The row that an id means, -1 if none. */
  function Find<K(==), V>(rows: seq<Row<K, V>>, id: K): int {
    Last(rows, id, |rows|)
  }

  function Ids<K(==), V>(rows: seq<Row<K, V>>): set<K> {
    set i | 0 <= i < |rows| :: rows[i].id
  }

  /** The table that holds the rows. */
  function TableOf<K(==), V>(rows: seq<Row<K, V>>): (t: map<K, V>)
    ensures t.Keys == Ids(rows)
  {
    map id | id in Ids(rows) && Find(rows, id) >= 0 :: rows[Find(rows, id)].val
  }

  /** The rows are the table's, in some order. */
  ghost predicate Lists<K, V>(rows: seq<Row<K, V>>, table: map<K, V>) {
    DistinctIds(rows) && TableOf(rows) == table
  }

  lemma {:induction false} TableHolds<K, V>(rows: seq<Row<K, V>>, i: nat)
    requires DistinctIds(rows) && i < |rows|
    ensures rows[i].id in TableOf(rows) && TableOf(rows)[rows[i].id] == rows[i].val && Find(rows, rows[i].id) == i
  {
    assert rows[i].id in Ids(rows);
  }

  lemma {:induction false} TableRow<K, V>(rows: seq<Row<K, V>>, id: K) returns (i: nat)
    requires id in TableOf(rows)
    ensures i < |rows| && rows[i].id == id && TableOf(rows)[id] == rows[i].val
  {
    i := Find(rows, id);
  }

  // ---- keep ----

  function Kept<K, V>(rows: seq<Row<K, V>>, ok: V -> bool): seq<Row<K, V>> {
    if rows == [] then []
    else
      var r := rows[|rows| - 1];
      Kept(rows[..|rows| - 1], ok) + (if ok(r.val) then [r] else [])
  }

  /** `keep`: adds the number of rejected rows to the count it is given. */
  method Keep<K, V>(rows: seq<Row<K, V>>, dropped0: nat, ok: V -> bool) returns (out: seq<Row<K, V>>, dropped: nat)
    ensures out == Kept(rows, ok)
    ensures dropped == dropped0 + (|rows| - |Kept(rows, ok)|)
  {
    out, dropped := [], dropped0;
    for i := 0 to |rows|
      invariant out == Kept(rows[..i], ok)
      invariant dropped + |out| == dropped0 + i
    {
      assert rows[..i + 1][..i] == rows[..i];
      if ok(rows[i].val) {
        out := out + [rows[i]];
      } else {
        dropped := dropped + 1;
      }
    }
    assert rows[..|rows|] == rows;
  }

  lemma {:induction false} KeptMembers<K, V>(rows: seq<Row<K, V>>, ok: V -> bool, r: Row<K, V>)
    ensures r in Kept(rows, ok) <==> r in rows && ok(r.val)
  {
    if rows != [] {
      KeptMembers(rows[..|rows| - 1], ok, r);
      assert rows == rows[..|rows| - 1] + [rows[|rows| - 1]];
    }
  }

  /** The positions of the rejected rows. */
  function Rejected<K, V>(rows: seq<Row<K, V>>, ok: V -> bool): set<nat> {
    set i | 0 <= i < |rows| && !ok(rows[i].val)
  }

  /** As many rows are missing from the kept ones as were rejected. */
  lemma {:induction false} DroppedCount<K, V>(rows: seq<Row<K, V>>, ok: V -> bool)
    ensures |rows| - |Kept(rows, ok)| == |Rejected(rows, ok)|
  {
    if rows != [] {
      var n := |rows| - 1;
      DroppedCount(rows[..n], ok);
      assert Rejected(rows, ok) ==
        if ok(rows[n].val) then Rejected(rows[..n], ok) else Rejected(rows[..n], ok) + {n};
    }
  }

  /** A table holds as many rows as were listed. */
  lemma {:induction false} TableSize<K, V>(rows: seq<Row<K, V>>)
    requires DistinctIds(rows)
    ensures |TableOf(rows)| == |rows|
  {
    IdsSize(rows, |rows|);
    assert rows[..|rows|] == rows;
    assert |TableOf(rows)| == |TableOf(rows).Keys|;
  }

  lemma {:induction false} IdsSize<K, V>(rows: seq<Row<K, V>>, n: nat)
    requires DistinctIds(rows) && n <= |rows|
    ensures |Ids(rows[..n])| == n
  {
    if n > 0 {
      IdsSize(rows, n - 1);
      assert forall k :: 0 <= k < n - 1 ==> rows[..n - 1][k] == rows[..n][k];
      assert rows[..n][n - 1] == rows[n - 1];
      assert Ids(rows[..n]) == Ids(rows[..n - 1]) + {rows[n - 1].id};
    }
  }

  predicate AllOk<K, V>(rows: seq<Row<K, V>>, ok: V -> bool) {
    forall i :: 0 <= i < |rows| ==> ok(rows[i].val)
  }

  lemma {:induction false} AllOkStep<K, V>(rows: seq<Row<K, V>>, ok: V -> bool, n: nat)
    requires n + 1 == |rows|
    ensures AllOk(rows, ok) <==> AllOk(rows[..n], ok) && ok(rows[n].val)
  {
    if AllOk(rows[..n], ok) && ok(rows[n].val) {
      forall i | 0 <= i < |rows| ensures ok(rows[i].val) {
        assert i < n ==> rows[..n][i] == rows[i];
      }
    }
  }

  lemma {:induction false} KeptCount<K, V>(rows: seq<Row<K, V>>, ok: V -> bool)
    ensures |Kept(rows, ok)| <= |rows|
    ensures AllOk(rows, ok) ==> Kept(rows, ok) == rows
    ensures |Kept(rows, ok)| == |rows| ==> AllOk(rows, ok)
  {
    if rows != [] {
      var n := |rows| - 1;
      KeptCount(rows[..n], ok);
      AllOkStep(rows, ok, n);
      assert rows == rows[..n] + [rows[n]];
    }
  }

  lemma {:induction false} KeptDistinct<K, V>(rows: seq<Row<K, V>>, ok: V -> bool)
    requires DistinctIds(rows)
    ensures DistinctIds(Kept(rows, ok))
  {
    if rows != [] {
      var n := |rows| - 1;
      KeptDistinct(rows[..n], ok);
      var before := Kept(rows[..n], ok);
      forall i | 0 <= i < |before| ensures before[i].id != rows[n].id {
        assert before[i] in before;
        KeptMembers(rows[..n], ok, before[i]);
      }
    }
  }

  /** What is kept is exactly the accepted rows; none is dropped exactly when all are accepted. */
  lemma {:induction false} KeptMeaning<K, V>(rows: seq<Row<K, V>>, ok: V -> bool)
    ensures forall r :: r in Kept(rows, ok) <==> r in rows && ok(r.val)
    ensures |Kept(rows, ok)| <= |rows|
    ensures |Kept(rows, ok)| == |rows| <==> AllOk(rows, ok)
    ensures AllOk(rows, ok) ==> Kept(rows, ok) == rows
    ensures DistinctIds(rows) ==> DistinctIds(Kept(rows, ok))
  {
    forall r ensures r in Kept(rows, ok) <==> r in rows && ok(r.val) {
      KeptMembers(rows, ok, r);
    }
    KeptCount(rows, ok);
    if DistinctIds(rows) {
      KeptDistinct(rows, ok);
    }
  }

  // ---- Insertion ----

  /** A unique index over part of a row; rows whose key is None are not indexed. */
  ghost predicate UniqueKeys<K, V, U>(rows: seq<Row<K, V>>, key: V -> Option<U>) {
    forall i, k :: 0 <= i < k < |rows| && key(rows[i].val).Some? ==> key(rows[i].val) != key(rows[k].val)
  }

  function Keys<K, V, U(==)>(rows: seq<Row<K, V>>, key: V -> Option<U>): set<Option<U>> {
    set k | 0 <= k < |rows| :: key(rows[k].val)
  }

  /** One more row fits exactly when its id and its key are new. */
  lemma {:induction false} OneMore<K, V, U>(rows: seq<Row<K, V>>, key: V -> Option<U>, i: nat)
    requires i < |rows| && DistinctIds(rows[..i]) && UniqueKeys(rows[..i], key)
    ensures DistinctIds(rows[..i + 1]) <==> rows[i].id !in Ids(rows[..i])
    ensures UniqueKeys(rows[..i + 1], key) <==> !(key(rows[i].val).Some? && key(rows[i].val) in Keys(rows[..i], key))
    ensures Ids(rows[..i + 1]) == Ids(rows[..i]) + {rows[i].id}
    ensures Keys(rows[..i + 1], key) == Keys(rows[..i], key) + {key(rows[i].val)}
  {
    var a, b := rows[..i], rows[..i + 1];
    assert b == a + [rows[i]];
    forall k | 0 <= k < i ensures a[k] == b[k] && b[i] == rows[i] {
    }
  }

  lemma {:induction false} InsertedAll<K, V>(rows: seq<Row<K, V>>, table: map<K, V>)
    requires table.Keys == Ids(rows)
    requires forall k :: 0 <= k < |rows| ==> rows[k].id in table && table[rows[k].id] == rows[k].val
    ensures table == TableOf(rows)
  {
    forall id | id in table ensures id in TableOf(rows) && table[id] == TableOf(rows)[id] {
      var i := TableRow(rows, id);
    }
  }

  /** The rows are inserted in order; a repeated id or key fails the statement. */
  method Insert<K(==), V, U(==)>(rows: seq<Row<K, V>>, key: V -> Option<U>) returns (ok: bool, table: map<K, V>)
    ensures ok <==> DistinctIds(rows) && UniqueKeys(rows, key)
    ensures ok ==> table == TableOf(rows)
  {
    table := map[];
    var keys: set<Option<U>> := {};
    for i := 0 to |rows|
      invariant DistinctIds(rows[..i]) && UniqueKeys(rows[..i], key)
      invariant table.Keys == Ids(rows[..i]) && keys == Keys(rows[..i], key)
      invariant forall k :: 0 <= k < i ==> rows[k].id in table && table[rows[k].id] == rows[k].val
    {
      var r := rows[i];
      OneMore(rows, key, i);
      if r.id in table || (key(r.val).Some? && key(r.val) in keys) {
        return false, map[];
      }
      table := table[r.id := r.val];
      keys := keys + {key(r.val)};
    }
    assert rows[..|rows|] == rows;
    InsertedAll(rows, table);
    return true, table;
  }
}
