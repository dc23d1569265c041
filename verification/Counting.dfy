/** How many rows satisfy a test. */
module Counting {
  import opened Sums
  import Sorting

  function One<T>(p: T -> bool): T -> int { (x: T) => if p(x) then 1 else 0 }

  function Count<T>(p: T -> bool, s: seq<T>): int { Sum(One(p), s) }

  function Filter<T>(p: T -> bool, s: seq<T>): (r: seq<T>)
    ensures forall x :: x in s && p(x) ==> x in r
    ensures forall x :: x in r ==> x in s && p(x)
  {
    if s == [] then []
    else
      assert s == [s[0]] + s[1..];
      if p(s[0]) then [s[0]] + Filter(p, s[1..]) else Filter(p, s[1..])
  }

  lemma CountOfOneMore<T>(p: T -> bool, s: seq<T>, x: T)
    ensures Count(p, s + [x]) == Count(p, s) + if p(x) then 1 else 0
  {
    SumOfOneMore(One(p), s, x);
  }

  lemma {:induction false} FilterIsCounted<T>(p: T -> bool, s: seq<T>)
    ensures |Filter(p, s)| == Count(p, s)
  {
    if s != [] { FilterIsCounted(p, s[1..]); }
  }

  lemma {:induction false} CountInFilter<T>(p: T -> bool, q: T -> bool, both: T -> bool, s: seq<T>)
    requires forall x :: x in s ==> (both(x) <==> p(x) && q(x))
    ensures Count(q, Filter(p, s)) == Count(both, s)
  {
    if s != [] {
      assert s == [s[0]] + s[1..];
      CountInFilter(p, q, both, s[1..]);
    }
  }

  lemma SameCounts<T>(p: T -> bool, q: T -> bool, s: seq<T>)
    requires forall x :: x in s ==> (p(x) <==> q(x))
    ensures Count(p, s) == Count(q, s)
  {
    SumsAgree(One(p), One(q), s);
  }

  /** Rows that pass one test pass exactly one of the others. */
  lemma SplitInTwo<T>(p: T -> bool, q: T -> bool, r: T -> bool, s: seq<T>)
    requires forall x :: x in s ==> (p(x) <==> q(x) || r(x)) && !(q(x) && r(x))
    ensures Count(p, s) == Count(q, s) + Count(r, s)
  {
    SumsAddUp(One(p), One(q), One(r), s);
  }

  lemma SplitInThree<T>(p: T -> bool, q: T -> bool, r: T -> bool, t: T -> bool, s: seq<T>)
    requires forall x :: x in s ==> (p(x) <==> q(x) || r(x) || t(x))
    requires forall x :: x in s ==> !(q(x) && r(x)) && !(q(x) && t(x)) && !(r(x) && t(x))
    ensures Count(p, s) == Count(q, s) + Count(r, s) + Count(t, s)
  {
    var either := (x: T) => q(x) || r(x);
    SplitInTwo(either, q, r, s);
    SplitInTwo(p, either, t, s);
  }

  lemma {:induction false} FilterOfOneMore<T>(p: T -> bool, s: seq<T>, x: T)
    ensures Filter(p, s + [x]) == Filter(p, s) + if p(x) then [x] else []
  {
    if s == [] {
      assert s + [x] == [x];
    } else {
      assert (s + [x])[1..] == s[1..] + [x];
      FilterOfOneMore(p, s[1..], x);
    }
  }

  function Only<T>(f: T -> int, p: T -> bool): T -> int { (x: T) => if p(x) then f(x) else 0 }

  lemma {:induction false} SumOfFiltered<T>(f: T -> int, p: T -> bool, s: seq<T>)
    ensures Sum(f, Filter(p, s)) == Sum(Only(f, p), s)
  {
    if s != [] {
      SumOfFiltered(f, p, s[1..]);
      assert ([s[0]] + Filter(p, s[1..]))[1..] == Filter(p, s[1..]);
    }
  }

  lemma {:induction false} FilterStaysDistinct<T>(p: T -> bool, s: seq<T>)
    requires forall i, j :: 0 <= i < j < |s| ==> s[i] != s[j]
    ensures forall i, j :: 0 <= i < j < |Filter(p, s)| ==> Filter(p, s)[i] != Filter(p, s)[j]
  {
    if s != [] {
      FilterStaysDistinct(p, s[1..]);
      var rest := Filter(p, s[1..]);
      forall k | 0 <= k < |rest| ensures rest[k] != s[0] {
        assert rest[k] in rest;
        var m :| 0 <= m < |s[1..]| && s[1..][m] == rest[k];
        assert s[m + 1] == rest[k];
      }
    }
  }

  function Ties<T>(le: (T, T) -> bool, x: T): T -> bool { (y: T) => le(x, y) && le(y, x) }

  lemma FilterInFront<T>(p: T -> bool, x: T, s: seq<T>)
    ensures Filter(p, [x] + s) == (if p(x) then [x] else []) + Filter(p, s)
  {
    assert ([x] + s)[1..] == s;
  }

  lemma {:induction false} InsertKeepsTies<T(!new)>(x: T, s: seq<T>, le: (T, T) -> bool, z: T)
    requires Sorting.TotalPreorder(le)
    ensures Filter(Ties(le, z), Sorting.Insert(x, s, le)) == (if Ties(le, z)(x) then [x] else []) + Filter(Ties(le, z), s)
  {
    var p := Ties(le, z);
    if s == [] || le(x, s[0]) {
      FilterInFront(p, x, s);
    } else {
      var y, rest := s[0], s[1..];
      assert s == [y] + rest;
      InsertKeepsTies(x, rest, le, z);
      FilterInFront(p, y, Sorting.Insert(x, rest, le));
      FilterInFront(p, y, rest);
      PassedOverIsNoTie(x, y, le, z);
      SwapWhenOneIsEmpty(if p(y) then [y] else [], if p(x) then [x] else [], Filter(p, rest));
    }
  }

  lemma SwapWhenOneIsEmpty<T>(a: seq<T>, b: seq<T>, c: seq<T>)
    requires a == [] || b == []
    ensures a + (b + c) == b + (a + c)
  {
  }

  lemma PassedOverIsNoTie<T(!new)>(x: T, y: T, le: (T, T) -> bool, z: T)
    requires Sorting.TotalPreorder(le) && !le(x, y)
    ensures !(Ties(le, z)(x) && Ties(le, z)(y))
  {
    assert !(le(x, z) && le(z, y));
  }

  /** Sorting is stable: elements that tie keep the order they arrived in. */
  lemma {:induction false} SortIsStable<T(!new)>(s: seq<T>, le: (T, T) -> bool, z: T)
    requires Sorting.TotalPreorder(le)
    ensures Filter(Ties(le, z), Sorting.Sort(s, le)) == Filter(Ties(le, z), s)
  {
    if s != [] {
      SortIsStable(s[1..], le, z);
      InsertKeepsTies(s[0], Sorting.Sort(s[1..], le), le, z);
    }
  }
}
