/** What a table that keeps the last row of each key adds up to. */
module KeyedTotals {
  import opened KeyedRows
  import opened Options
  import opened Sums

  function FigureOf<K, D>(f: Keyed<K, D> -> int, row: Option<Keyed<K, D>>): int {
    match row
    case Some(r) => f(r)
    case None => 0
  }

  function LastFigure<K(==), D(==)>(f: Keyed<K, D> -> int, rows: seq<Keyed<K, D>>): K -> int {
    (k: K) => FigureOf(f, LastRow(rows, k))
  }

  /** The figures of rows a later row of their key replaces. */
  function Overwritten<K(==), D(==)>(f: Keyed<K, D> -> int, rows: seq<Keyed<K, D>>): int
    decreases |rows|
  {
    if rows == [] then 0
    else
      var before, last := rows[..|rows| - 1], rows[|rows| - 1];
      Overwritten(f, before) + LastFigure(f, before)(last.key)
  }

  function Change<K(==), D(==)>(f: Keyed<K, D> -> int, before: seq<Keyed<K, D>>, last: Keyed<K, D>): K -> int {
    (k: K) => if k == last.key then f(last) - LastFigure(f, before)(k) else 0
  }

  /** Over all keys, the last rows add up to every row less what was overwritten. */
  lemma {:induction false} LastRowsAddUp<K, D>(f: Keyed<K, D> -> int, rows: seq<Keyed<K, D>>, ks: seq<K>)
    requires forall i, j :: 0 <= i < j < |ks| ==> ks[i] != ks[j]
    requires forall r :: r in rows ==> r.key in ks
    ensures Sum(LastFigure(f, rows), ks) == Sum(f, rows) - Overwritten(f, rows)
    decreases |rows|
  {
    if rows == [] {
      SumOfZeros(LastFigure(f, rows), ks);
    } else {
      var before, last := rows[..|rows| - 1], rows[|rows| - 1];
      assert rows == before + [last];
      LastRowsAddUp(f, before, ks);
      SumOfOneMore(f, before, last);
      forall k | k in ks ensures LastFigure(f, rows)(k) == LastFigure(f, before)(k) + Change(f, before, last)(k) {
        LastOfOneMore(before, last, k);
      }
      SumsAddUp(LastFigure(f, rows), LastFigure(f, before), Change(f, before, last), ks);
      SumOfOnly(Change(f, before, last), ks, last.key);
    }
  }

  /** Only a row without the figure is ever followed by another of its key. */
  ghost predicate OnlyZerosReplaced<K, D>(f: Keyed<K, D> -> int, rows: seq<Keyed<K, D>>) {
    forall i, j :: 0 <= i < j < |rows| && rows[i].key == rows[j].key ==> f(rows[i]) == 0
  }

  lemma {:induction false} LastRowIsLast<K, D>(rows: seq<Keyed<K, D>>, k: K) returns (j: nat)
    requires k in Keys(rows)
    ensures j < |rows| && rows[j].key == k && LastRow(rows, k) == Some(rows[j])
    ensures forall i :: j < i < |rows| ==> rows[i].key != k
    decreases |rows|
  {
    var n := |rows| - 1;
    RowsOfMore(rows);
    if n >= 0 && rows[n].key == k {
      j := n;
    } else {
      j := LastRowIsLast(rows[..n], k);
    }
  }

  lemma {:induction false} NothingLostExactly<K, D>(f: Keyed<K, D> -> int, rows: seq<Keyed<K, D>>)
    requires forall r :: r in rows ==> f(r) >= 0
    ensures Overwritten(f, rows) >= 0
    ensures Overwritten(f, rows) == 0 <==> OnlyZerosReplaced(f, rows)
    decreases |rows|
  {
    if rows != [] {
      var n := |rows| - 1;
      var before, last := rows[..n], rows[n];
      assert rows == before + [last];
      NothingLostExactly(f, before);
      if last.key in Keys(before) {
        var j := LastRowIsLast(before, last.key);
        assert rows[j] == before[j] && f(rows[j]) >= 0;
        assert LastFigure(f, before)(last.key) == f(before[j]);
        ReplacedSoFar(f, rows, j);
      } else {
        NewKeyReplacesNothing(f, rows);
      }
    }
  }

  lemma ReplacedSoFar<K, D>(f: Keyed<K, D> -> int, rows: seq<Keyed<K, D>>, j: nat)
    requires rows != [] && j < |rows| - 1 && rows[j].key == rows[|rows| - 1].key
    requires forall i :: j < i < |rows| - 1 ==> rows[i].key != rows[j].key
    ensures OnlyZerosReplaced(f, rows) <==> OnlyZerosReplaced(f, rows[..|rows| - 1]) && f(rows[j]) == 0
  {
    var n := |rows| - 1;
    var before := rows[..n];
    if OnlyZerosReplaced(f, before) && f(rows[j]) == 0 {
      forall i, l | 0 <= i < l < |rows| && rows[i].key == rows[l].key ensures f(rows[i]) == 0 {
        if l < n {
          assert before[i].key == before[l].key;
        } else if i < j {
          assert before[i].key == before[j].key;
        }
      }
    }
    if OnlyZerosReplaced(f, rows) {
      assert rows[j].key == rows[n].key;
      forall i, l | 0 <= i < l < |before| && before[i].key == before[l].key ensures f(before[i]) == 0 {
        assert rows[i].key == rows[l].key;
      }
    }
  }

  lemma NewKeyReplacesNothing<K, D>(f: Keyed<K, D> -> int, rows: seq<Keyed<K, D>>)
    requires rows != [] && rows[|rows| - 1].key !in Keys(rows[..|rows| - 1])
    ensures OnlyZerosReplaced(f, rows) <==> OnlyZerosReplaced(f, rows[..|rows| - 1])
  {
    var before := rows[..|rows| - 1];
    forall i | 0 <= i < |before| ensures rows[i].key != rows[|rows| - 1].key {
      assert before[i] in before && before[i].key in Keys(before);
    }
    if OnlyZerosReplaced(f, rows) {
      forall i, l | 0 <= i < l < |before| && before[i].key == before[l].key ensures f(before[i]) == 0 {
        assert rows[i].key == rows[l].key;
      }
    }
    if OnlyZerosReplaced(f, before) {
      forall i, l | 0 <= i < l < |rows| && rows[i].key == rows[l].key ensures f(rows[i]) == 0 {
        assert before[i].key == before[l].key;
      }
    }
  }
}
