/** Rows filed by key, month by month: which row of a key comes first or last. */
module KeyedRows {
  import opened Options

  datatype Keyed<K, D> = Keyed(key: K, data: D)

  function Keys<K(==), D(==)>(rows: seq<Keyed<K, D>>): set<K> { set r | r in rows :: r.key }

  function KeysIn<K(==), D(==)>(buckets: seq<seq<Keyed<K, D>>>): set<K> { set rows, r | rows in buckets && r in rows :: r.key }

  /** One row per key, as a grouped query returns them. */
  ghost predicate OnePerKey<K, D>(rows: seq<Keyed<K, D>>) {
    forall i, j :: 0 <= i < j < |rows| ==> rows[i].key != rows[j].key
  }

  function FirstRow<K(==), D(==)>(rows: seq<Keyed<K, D>>, k: K): (r: Option<Keyed<K, D>>)
    ensures r.Some? <==> k in Keys(rows)
    ensures r.Some? ==> r.value in rows && r.value.key == k
    decreases |rows|
  {
    RowsOfMore(rows);
    if rows == [] then None
    else
      var before, last := rows[..|rows| - 1], rows[|rows| - 1];
      match FirstRow(before, k)
      case Some(r) => Some(r)
      case None => if last.key == k then Some(last) else None
  }

  function LastRow<K(==), D(==)>(rows: seq<Keyed<K, D>>, k: K): (r: Option<Keyed<K, D>>)
    ensures r.Some? <==> k in Keys(rows)
    ensures r.Some? ==> r.value in rows && r.value.key == k
    decreases |rows|
  {
    RowsOfMore(rows);
    if rows == [] then None
    else if rows[|rows| - 1].key == k then Some(rows[|rows| - 1])
    else LastRow(rows[..|rows| - 1], k)
  }

  lemma RowsOfMore<K, D>(rows: seq<Keyed<K, D>>)
    ensures rows != [] ==> Keys(rows) == Keys(rows[..|rows| - 1]) + {rows[|rows| - 1].key}
    ensures rows == [] ==> Keys(rows) == {}
  {
    if rows != [] {
      assert rows == rows[..|rows| - 1] + [rows[|rows| - 1]];
      assert forall r :: r in rows <==> r in rows[..|rows| - 1] || r == rows[|rows| - 1];
    }
  }

  lemma KeysOfOneMore<K, D>(rows: seq<Keyed<K, D>>, row: Keyed<K, D>)
    ensures Keys(rows + [row]) == Keys(rows) + {row.key}
  {
    assert forall r :: r in rows + [row] <==> r in rows || r == row;
  }

  lemma FirstOfOneMore<K, D>(rows: seq<Keyed<K, D>>, row: Keyed<K, D>, k: K)
    ensures FirstRow(rows + [row], k) ==
            if k in Keys(rows) then FirstRow(rows, k) else if row.key == k then Some(row) else None
  {
    var more := rows + [row];
    assert more[..|more| - 1] == rows;
  }

  lemma LastOfOneMore<K, D>(rows: seq<Keyed<K, D>>, row: Keyed<K, D>, k: K)
    ensures LastRow(rows + [row], k) == if row.key == k then Some(row) else LastRow(rows, k)
  {
    var more := rows + [row];
    assert more[..|more| - 1] == rows;
  }

  /** With one row per key there is no first or last to choose between. */
  lemma OnlyRow<K, D>(rows: seq<Keyed<K, D>>, r: Keyed<K, D>)
    requires OnePerKey(rows) && r in rows
    ensures FirstRow(rows, r.key) == LastRow(rows, r.key) == Some(r)
  {
    var i :| 0 <= i < |rows| && rows[i] == r;
    var first, last := FirstRow(rows, r.key).value, LastRow(rows, r.key).value;
    var j :| 0 <= j < |rows| && rows[j] == first;
    var l :| 0 <= l < |rows| && rows[l] == last;
  }

  /** The last row of a key in the `i`th bucket, if there is one. */
  function LastIn<K(==), D(==)>(buckets: seq<seq<Keyed<K, D>>>, i: nat, k: K): Option<Keyed<K, D>> {
    if i < |buckets| then LastRow(buckets[i], k) else None
  }

  /** One cell per month for a key, drawn from its last row in that month's bucket. */
  function Columns<K(==), D(==), C>(n: nat, cell: (nat, Option<Keyed<K, D>>) -> C, buckets: seq<seq<Keyed<K, D>>>, k: K): seq<C> {
    seq(n, i requires 0 <= i < n => cell(i, LastIn(buckets, i, k)))
  }

  function Blank<K, D, C>(n: nat, cell: (nat, Option<Keyed<K, D>>) -> C): seq<C> {
    seq(n, i requires 0 <= i < n => cell(i, None))
  }

  lemma ColumnsOfOneMore<K, D, C>(n: nat, cell: (nat, Option<Keyed<K, D>>) -> C, done: seq<seq<Keyed<K, D>>>,
                                  rows: seq<Keyed<K, D>>, row: Keyed<K, D>, k: K)
    requires |done| < n
    ensures Columns(n, cell, done + [rows + [row]], k) ==
              var before := Columns(n, cell, done + [rows], k);
              if k == row.key then before[|done| := cell(|done|, Some(row))] else before
  {
    LastOfOneMore(rows, row, k);
    forall i: nat | i < n
      ensures LastIn(done + [rows + [row]], i, k) == if i == |done| && k == row.key then Some(row) else LastIn(done + [rows], i, k)
    {
      if i < |done| { assert (done + [rows + [row]])[i] == (done + [rows])[i]; }
    }
  }

  lemma ColumnsOfEmpty<K, D, C>(n: nat, cell: (nat, Option<Keyed<K, D>>) -> C, done: seq<seq<Keyed<K, D>>>, none: seq<Keyed<K, D>>, k: K)
    requires none == []
    ensures Columns(n, cell, done + [none], k) == Columns(n, cell, done, k)
  {
    forall i: nat | i < n ensures LastIn(done + [none], i, k) == LastIn(done, i, k) {
      if i < |done| { assert (done + [none])[i] == done[i]; }
    }
  }

  lemma ColumnsOfNobody<K, D, C>(n: nat, cell: (nat, Option<Keyed<K, D>>) -> C, buckets: seq<seq<Keyed<K, D>>>, k: K)
    requires k !in KeysIn(buckets)
    ensures Columns(n, cell, buckets, k) == Blank(n, cell)
  {
    forall i: nat | i < n ensures LastIn(buckets, i, k) == None {
      if i < |buckets| { assert buckets[i] in buckets; }
    }
  }

  lemma KeysInMore<K, D>(done: seq<seq<Keyed<K, D>>>, rows: seq<Keyed<K, D>>)
    ensures KeysIn(done + [rows]) == KeysIn(done) + Keys(rows)
  {
    forall k ensures k in KeysIn(done + [rows]) <==> k in KeysIn(done) + Keys(rows) {
      if k in KeysIn(done) {
        var b, r :| b in done && r in b && r.key == k;
        assert b in done + [rows];
      }
      if k in Keys(rows) { assert rows in done + [rows]; }
      if k in KeysIn(done + [rows]) {
        var b, r :| b in done + [rows] && r in b && r.key == k;
        assert b in done || b == rows;
      }
    }
  }

  lemma KeysInOneMore<K, D>(done: seq<seq<Keyed<K, D>>>, rows: seq<Keyed<K, D>>, row: Keyed<K, D>)
    ensures KeysIn(done + [rows + [row]]) == KeysIn(done + [rows]) + {row.key}
  {
    KeysInMore(done, rows);
    KeysInMore(done, rows + [row]);
    KeysOfOneMore(rows, row);
  }

  /** The first row of a key comes before every other of it, and the last one after. */
  lemma {:induction false} FirstAndLastRow<K, D>(rows: seq<Keyed<K, D>>, k: K, i: nat)
    requires i < |rows| && rows[i].key == k
    ensures (forall j :: 0 <= j < i ==> rows[j].key != k) ==> FirstRow(rows, k) == Some(rows[i])
    ensures (forall j :: i < j < |rows| ==> rows[j].key != k) ==> LastRow(rows, k) == Some(rows[i])
    decreases |rows|
  {
    var n := |rows| - 1;
    if i < n {
      FirstAndLastRow(rows[..n], k, i);
    } else if forall j :: 0 <= j < i ==> rows[j].key != k {
      assert forall r :: r in rows[..n] ==> r.key != k;
    }
  }
}
