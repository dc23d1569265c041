/** Rows that belong to at most one group each: the groups together are the rows that have one. */
module Grouping {
  import opened Counting
  import opened Options
  import opened Sums

  function InGroup<A, K(==)>(keyOf: A -> Option<K>, k: K): A -> bool { (row: A) => keyOf(row) == Some(k) }

  function Grouped<A, K>(keyOf: A -> Option<K>): A -> bool { (row: A) => keyOf(row).Some? }

  function GroupTotal<A, K(==)>(f: A -> int, keyOf: A -> Option<K>, rows: seq<A>): K -> int {
    (k: K) => Sum(f, Filter(InGroup(keyOf, k), rows))
  }

  function Contribution<A, K(==)>(f: A -> int, keyOf: A -> Option<K>, row: A): K -> int {
    (k: K) => if keyOf(row) == Some(k) then f(row) else 0
  }

  /** Over distinct keys covering the groups, the groups' totals are the total of the grouped rows. */
  lemma {:induction false} GroupsAddUp<A, K>(f: A -> int, keyOf: A -> Option<K>, rows: seq<A>, ks: seq<K>)
    requires forall i, j :: 0 <= i < j < |ks| ==> ks[i] != ks[j]
    requires forall row :: row in rows && keyOf(row).Some? ==> keyOf(row).value in ks
    ensures Sum(GroupTotal(f, keyOf, rows), ks) == Sum(f, Filter(Grouped(keyOf), rows))
  {
    if rows == [] {
      SumOfZeros(GroupTotal(f, keyOf, rows), ks);
    } else {
      var head, rest := rows[0], rows[1..];
      assert rows == [head] + rest;
      assert head in rows;
      GroupsAddUp(f, keyOf, rest, ks);
      forall k { OneMoreInFront(f, keyOf, rows, k); }
      SumsAddUp(GroupTotal(f, keyOf, rows), GroupTotal(f, keyOf, rest), Contribution(f, keyOf, head), ks);
      ContributesOnce(f, keyOf, head, ks);
    }
  }

  lemma OneMoreInFront<A, K>(f: A -> int, keyOf: A -> Option<K>, rows: seq<A>, k: K)
    requires rows != []
    ensures GroupTotal(f, keyOf, rows)(k) == GroupTotal(f, keyOf, rows[1..])(k) + Contribution(f, keyOf, rows[0])(k)
  {
    var rest := Filter(InGroup(keyOf, k), rows[1..]);
    assert ([rows[0]] + rest)[1..] == rest;
  }

  lemma ContributesOnce<A, K>(f: A -> int, keyOf: A -> Option<K>, row: A, ks: seq<K>)
    requires forall i, j :: 0 <= i < j < |ks| ==> ks[i] != ks[j]
    requires keyOf(row).Some? ==> keyOf(row).value in ks
    ensures Sum(Contribution(f, keyOf, row), ks) == if keyOf(row).Some? then f(row) else 0
  {
    if keyOf(row).Some? {
      SumOfOnly(Contribution(f, keyOf, row), ks, keyOf(row).value);
    } else {
      SumOfZeros(Contribution(f, keyOf, row), ks);
    }
  }
}
