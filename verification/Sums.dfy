/** Totals of one figure over a sequence of rows. */
module Sums {
  import opened Sorting

  function Sum<T>(f: T -> int, s: seq<T>): int {
    if s == [] then 0 else f(s[0]) + Sum(f, s[1..])
  }

  lemma {:induction false} SumOfMore<T>(f: T -> int, a: seq<T>, b: seq<T>)
    ensures Sum(f, a + b) == Sum(f, a) + Sum(f, b)
  {
    if a == [] {
      assert a + b == b;
    } else {
      assert (a + b)[1..] == a[1..] + b;
      SumOfMore(f, a[1..], b);
    }
  }

  lemma SumOfOneMore<T>(f: T -> int, a: seq<T>, x: T)
    ensures Sum(f, a + [x]) == Sum(f, a) + f(x)
  {
    SumOfMore(f, a, [x]);
    assert [x][1..] == [];
  }

  lemma SumOfUpdate<T>(f: T -> int, s: seq<T>, i: nat, x: T)
    requires i < |s|
    ensures Sum(f, s[i := x]) == Sum(f, s) - f(s[i]) + f(x)
  {
    assert s == s[..i] + [s[i]] + s[i + 1..];
    assert s[i := x] == s[..i] + [x] + s[i + 1..];
    SumOfMore(f, s[..i] + [s[i]], s[i + 1..]);
    SumOfMore(f, s[..i] + [x], s[i + 1..]);
    SumOfOneMore(f, s[..i], s[i]);
    SumOfOneMore(f, s[..i], x);
  }

  /** A total of non-negative figures is no less than any one of them, and zero only when they all are. */
  lemma {:induction false} SumOfNonNegatives<T>(f: T -> int, s: seq<T>)
    requires forall x :: x in s ==> f(x) >= 0
    ensures Sum(f, s) >= 0
    ensures forall x :: x in s ==> f(x) <= Sum(f, s)
    ensures Sum(f, s) == 0 <==> forall x :: x in s ==> f(x) == 0
  {
    if s != [] {
      assert s == [s[0]] + s[1..];
      SumOfNonNegatives(f, s[1..]);
    }
  }

  /** Totals add up when the figures do. */
  lemma {:induction false} SumsAddUp<T>(f: T -> int, g: T -> int, h: T -> int, s: seq<T>)
    requires forall x :: x in s ==> f(x) == g(x) + h(x)
    ensures Sum(f, s) == Sum(g, s) + Sum(h, s)
  {
    if s != [] {
      assert s == [s[0]] + s[1..];
      SumsAddUp(f, g, h, s[1..]);
    }
  }

  lemma PartsOf<T>(s: seq<T>, i: nat)
    requires i < |s|
    ensures s == s[..i] + [s[i]] + s[i + 1..]
    ensures s[..0] + s[1..] == s[1..]
  {
  }

  lemma Without<T>(s: seq<T>, i: nat)
    requires i < |s|
    ensures multiset(s[..i] + s[i + 1..]) == multiset(s) - multiset{s[i]}
    ensures |s[..i] + s[i + 1..]| == |s| - 1
  {
    PartsOf(s, i);
  }

  /** Taking one shared element out of two arrangements of the same elements. */
  lemma SharedHead<T>(a: seq<T>, b: seq<T>) returns (i: nat)
    requires a != [] && multiset(a) == multiset(b)
    ensures i < |b| && b[i] == a[0]
    ensures multiset(a[1..]) == multiset(b[..i] + b[i + 1..])
  {
    SameElements(a, b);
    assert a[0] in b;
    i :| 0 <= i < |b| && b[i] == a[0];
    Without(a, 0);
    Without(b, i);
    PartsOf(a, 0);
  }

  lemma SumWithout<T>(f: T -> int, s: seq<T>, i: nat)
    requires i < |s|
    ensures Sum(f, s) == f(s[i]) + Sum(f, s[..i] + s[i + 1..])
  {
    PartsOf(s, i);
    SumOfMore(f, s[..i] + [s[i]], s[i + 1..]);
    SumOfOneMore(f, s[..i], s[i]);
    SumOfMore(f, s[..i], s[i + 1..]);
  }

  lemma {:induction false} SumOfPermutation<T>(f: T -> int, a: seq<T>, b: seq<T>)
    requires multiset(a) == multiset(b)
    ensures Sum(f, a) == Sum(f, b)
  {
    SameElements(a, b);
    if a != [] {
      var i := SharedHead(a, b);
      SumOfPermutation(f, a[1..], b[..i] + b[i + 1..]);
      SumWithout(f, b, i);
    }
  }

  lemma WithoutOne<T>(t: seq<T>, i: nat, u: seq<T>)
    requires i < |t| && forall i, j :: 0 <= i < j < |t| ==> t[i] != t[j]
    requires u == t[..i] + t[i + 1..]
    ensures forall x :: x in u <==> x in t && x != t[i]
    ensures forall j, k :: 0 <= j < k < |u| ==> u[j] != u[k]
  {
    forall x ensures x in u <==> x in t && x != t[i] {
      if x in t && x != t[i] {
        var j :| 0 <= j < |t| && t[j] == x;
        assert x == u[if j < i then j else j - 1];
      }
    }
  }

  /** Rows that contribute nothing can be left out of a total. */
  lemma {:induction false} SumOverFewer<T>(f: T -> int, s: seq<T>, t: seq<T>)
    requires forall i, j :: 0 <= i < j < |s| ==> s[i] != s[j]
    requires forall i, j :: 0 <= i < j < |t| ==> t[i] != t[j]
    requires forall x :: x in t ==> x in s
    requires forall x :: x in s && x !in t ==> f(x) == 0
    ensures Sum(f, s) == Sum(f, t)
  {
    if s == [] {
      EmptyOrNot(t);
    } else {
      assert s == [s[0]] + s[1..];
      if s[0] in t {
        var i :| 0 <= i < |t| && t[i] == s[0];
        SumWithout(f, t, i);
        var u := t[..i] + t[i + 1..];
        WithoutOne(t, i, u);
        SumOverFewer(f, s[1..], u);
      } else {
        SumOverFewer(f, s[1..], t);
      }
    }
  }

  lemma {:induction false} SumOfZeros<T>(f: T -> int, s: seq<T>)
    requires forall x :: x in s ==> f(x) == 0
    ensures Sum(f, s) == 0
  {
    if s != [] {
      assert s == [s[0]] + s[1..];
      SumOfZeros(f, s[1..]);
    }
  }

  lemma {:induction false} SumsAgree<T>(f: T -> int, g: T -> int, s: seq<T>)
    requires forall x :: x in s ==> f(x) == g(x)
    ensures Sum(f, s) == Sum(g, s)
  {
    if s != [] {
      assert s == [s[0]] + s[1..];
      SumsAgree(f, g, s[1..]);
    }
  }

  /** A figure booked on exactly one of some distinct keys counts once over all of them. */
  lemma {:induction false} SumOfOnly<K>(f: K -> int, keys: seq<K>, k: K)
    requires forall i, j :: 0 <= i < j < |keys| ==> keys[i] != keys[j]
    requires k in keys && forall l :: l in keys && l != k ==> f(l) == 0
    ensures Sum(f, keys) == f(k)
  {
    var i :| 0 <= i < |keys| && keys[i] == k;
    SumWithout(f, keys, i);
    SumOfZeros(f, keys[..i] + keys[i + 1..]);
  }

  lemma {:induction false} AllCount<T>(f: T -> int, s: seq<T>)
    requires forall v :: v in s ==> f(v) == 1
    ensures Sum(f, s) == |s|
  {
    if s != [] {
      assert s == [s[0]] + s[1..];
      AllCount(f, s[1..]);
    }
  }

  /** A run of counted values inside a sequence is no more than all of its counted values. */
  lemma RunCounts<T>(f: T -> int, s: seq<T>, i: nat, j: nat)
    requires i <= j <= |s|
    requires forall v :: v in s ==> f(v) >= 0
    requires forall k :: i <= k < j ==> f(s[k]) == 1
    ensures Sum(f, s) >= j - i
  {
    assert s == s[..i] + s[i..j] + s[j..];
    SumOfMore(f, s[..i] + s[i..j], s[j..]);
    SumOfMore(f, s[..i], s[i..j]);
    SumOfNonNegatives(f, s[..i]);
    SumOfNonNegatives(f, s[j..]);
    AllCount(f, s[i..j]);
  }

  /** Totals of figures that agree place by place. */
  lemma {:induction false} SumsMatch<A, B>(f: A -> int, g: B -> int, s: seq<A>, t: seq<B>)
    requires |s| == |t| && forall j :: 0 <= j < |s| ==> f(s[j]) == g(t[j])
    ensures Sum(f, s) == Sum(g, t)
  {
    if s != [] { SumsMatch(f, g, s[1..], t[1..]); }
  }
}
