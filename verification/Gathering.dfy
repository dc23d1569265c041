/** The figures that can be computed, of rows some of which have none. */
module Gathering {
  import opened Options
  import opened Sorting
  import opened Sums

  function Gathered<A, B>(f: A -> Option<B>, s: seq<A>): seq<B> {
    if s == [] then []
    else match f(s[0])
      case Some(value) => [value] + Gathered(f, s[1..])
      case None => Gathered(f, s[1..])
  }

  lemma {:induction false} GatheredOfMore<A, B>(f: A -> Option<B>, a: seq<A>, b: seq<A>)
    ensures Gathered(f, a + b) == Gathered(f, a) + Gathered(f, b)
  {
    if a == [] {
      assert a + b == b;
    } else {
      assert (a + b)[1..] == a[1..] + b;
      GatheredOfMore(f, a[1..], b);
    }
  }

  lemma GatheredWithout<A, B>(f: A -> Option<B>, s: seq<A>, i: nat)
    requires i < |s|
    ensures multiset(Gathered(f, s)) ==
            multiset(Gathered(f, s[..i] + s[i + 1..])) + match f(s[i]) case Some(value) => multiset{value} case None => multiset{}
  {
    assert s == s[..i] + s[i..];
    GatheredOfMore(f, s[..i], s[i..]);
    GatheredOfMore(f, s[..i], s[i + 1..]);
    assert s[i..][1..] == s[i + 1..];
  }

  lemma {:induction false} GatheredOfPermutation<A, B>(f: A -> Option<B>, a: seq<A>, b: seq<A>)
    requires multiset(a) == multiset(b)
    ensures multiset(Gathered(f, a)) == multiset(Gathered(f, b))
    decreases |a|
  {
    SameElements(a, b);
    if a != [] {
      var i := SharedHead(a, b);
      GatheredOfPermutation(f, a[1..], b[..i] + b[i + 1..]);
      assert a[..0] + a[0 + 1..] == a[1..];
      GatheredWithout(f, a, 0);
      GatheredWithout(f, b, i);
    }
  }

  function Mapped<A, B>(f: A -> B, s: seq<A>): (r: seq<B>)
    ensures |r| == |s| && forall i :: 0 <= i < |s| ==> r[i] == f(s[i])
  {
    seq(|s|, i requires 0 <= i < |s| => f(s[i]))
  }

  lemma MappedOfOneMore<A, B>(f: A -> B, s: seq<A>, i: nat)
    requires i < |s|
    ensures Mapped(f, s[..i + 1]) == Mapped(f, s[..i]) + [f(s[i])]
  {
  }

  lemma {:induction false} MappedOfPermutation<A, B>(f: A -> B, a: seq<A>, b: seq<A>)
    requires multiset(a) == multiset(b)
    ensures multiset(Mapped(f, a)) == multiset(Mapped(f, b))
    decreases |a|
  {
    SameElements(a, b);
    if a == [] {
      assert Mapped(f, a) == Mapped(f, b);
    } else {
      var i := SharedHead(a, b);
      var c := b[..i] + b[i + 1..];
      MappedOfPermutation(f, a[1..], c);
      MappedHead(f, a);
      MappedWithout(f, b, i, c);
    }
  }

  lemma MappedHead<A, B>(f: A -> B, s: seq<A>)
    requires s != []
    ensures multiset(Mapped(f, s)) == multiset(Mapped(f, s[1..])) + multiset{f(s[0])}
  {
    assert Mapped(f, s) == [f(s[0])] + Mapped(f, s[1..]);
  }

  lemma MappedWithout<A, B>(f: A -> B, s: seq<A>, i: nat, rest: seq<A>)
    requires i < |s| && rest == s[..i] + s[i + 1..]
    ensures multiset(Mapped(f, s)) == multiset(Mapped(f, rest)) + multiset{f(s[i])}
  {
    assert Mapped(f, s) == Mapped(f, s[..i]) + [f(s[i])] + Mapped(f, s[i + 1..]);
    assert Mapped(f, rest) == Mapped(f, s[..i]) + Mapped(f, s[i + 1..]);
  }
}
