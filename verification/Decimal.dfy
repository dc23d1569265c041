/** Decimal text, and joined lists of it: what the string keys of the source rely on. */
module Decimal {

  predicate IsDigit(c: char) { '0' <= c <= '9' }

  function Digit(n: nat): (c: char)
    requires n < 10
    ensures IsDigit(c)
  {
    '0' + n as char
  }

  function DigitValue(c: char): (n: nat)
    requires IsDigit(c)
    ensures n < 10
  {
    (c - '0') as nat
  }

  ghost predicate AllDigits(s: string) {
    forall i :: 0 <= i < |s| ==> IsDigit(s[i])
  }

  function Text(n: nat): (s: string)
    ensures s != [] && AllDigits(s)
  {
    if n < 10 then [Digit(n)] else Text(n / 10) + [Digit(n % 10)]
  }

  function Value(s: string): nat
    requires AllDigits(s)
  {
    if s == [] then 0 else 10 * Value(s[..|s| - 1]) + DigitValue(s[|s| - 1])
  }

  lemma {:induction false} ValueOfText(n: nat)
    ensures Value(Text(n)) == n
  {
    if n >= 10 {
      ValueOfText(n / 10);
      assert Text(n)[..|Text(n)| - 1] == Text(n / 10);
    } else {
      assert Text(n)[..0] == [];
    }
  }

  function Pow10(d: nat): (r: nat)
    ensures r >= 1
  {
    if d == 0 then 1 else 10 * Pow10(d - 1)
  }

  /** A number has at most `d` digits exactly when it is below the `d`-th power of ten. */
  lemma {:induction false} TextLength(n: nat, d: nat)
    requires d >= 1
    ensures |Text(n)| <= d <==> n < Pow10(d)
    decreases d
  {
    if d == 1 {
      assert Pow10(1) == 10;
      if n >= 10 { assert |Text(n / 10)| >= 1; }
    } else if n < 10 {
      Pow10AtLeast(d);
    } else {
      TextLength(n / 10, d - 1);
      assert Pow10(d) == 10 * Pow10(d - 1);
    }
  }

  lemma {:induction false} Pow10AtLeast(d: nat)
    requires d >= 1
    ensures Pow10(d) >= 10
  {
    if d > 1 { Pow10AtLeast(d - 1); }
  }

  function Join(parts: seq<string>, separator: char): string {
    if parts == [] then ""
    else if |parts| == 1 then parts[0]
    else parts[0] + [separator] + Join(parts[1..], separator)
  }

  /** Two joined lists whose parts are free of the separator and not empty agree only when the lists do. */
  lemma {:induction false} JoinIsInjective(a: seq<string>, b: seq<string>, separator: char)
    requires forall p :: p in a || p in b ==> p != [] && separator !in p
    requires Join(a, separator) == Join(b, separator)
    ensures a == b
  {
    if a == [] || b == [] {
      JoinOfSome(a, separator);
      JoinOfSome(b, separator);
    } else {
      assert a[0] in a && b[0] in b;
      HeadOfJoin(a, separator);
      HeadOfJoin(b, separator);
      SplitAtSeparator(a[0], TailOfJoin(a, separator), b[0], TailOfJoin(b, separator), separator);
      assert a == [a[0]] + a[1..] && b == [b[0]] + b[1..];
      if |a| > 1 && |b| > 1 {
        assert Join(a[1..], separator) == TailOfJoin(a, separator)[1..];
        assert Join(b[1..], separator) == TailOfJoin(b, separator)[1..];
        forall p | p in a[1..] || p in b[1..] ensures p != [] && separator !in p {
          assert p in a || p in b;
        }
        JoinIsInjective(a[1..], b[1..], separator);
      }
    }
  }

  function TailOfJoin(a: seq<string>, separator: char): string {
    if |a| <= 1 then "" else [separator] + Join(a[1..], separator)
  }

  lemma HeadOfJoin(a: seq<string>, separator: char)
    requires a != []
    ensures Join(a, separator) == a[0] + TailOfJoin(a, separator)
  {
  }

  lemma JoinOfSome(a: seq<string>, separator: char)
    requires forall p :: p in a ==> p != []
    ensures Join(a, separator) == [] <==> a == []
  {
    if a != [] { assert a[0] in a; }
  }

  lemma SplitAtSeparator(p: string, s: string, q: string, t: string, separator: char)
    requires separator !in p && separator !in q
    requires s == [] || s[0] == separator
    requires t == [] || t[0] == separator
    requires p + s == q + t
    ensures p == q && s == t
  {
    var w := p + s;
    assert w == q + t;
    assert |p| < |w| ==> w[|p|] == separator;
    assert |q| < |w| ==> w[|q|] == separator;
    assert forall i :: 0 <= i < |p| ==> w[i] == p[i] && p[i] in p;
    assert forall i :: 0 <= i < |q| ==> w[i] == q[i] && q[i] in q;
    assert |p| == |q|;
    assert p == w[..|p|] == q && s == w[|p|..] == t;
  }

  /** The parts of a text between separators; a text without one is its own only part. */
  function Split(s: string, separator: char): (r: seq<string>)
    ensures r != []
  {
    if s == [] then [""]
    else
      var rest := Split(s[1..], separator);
      if s[0] == separator then [""] + rest else [[s[0]] + rest[0]] + rest[1..]
  }

  lemma {:induction false} SplitOfPart(p: string, s: string, separator: char)
    requires separator !in p
    ensures Split(p + s, separator) == [p + Split(s, separator)[0]] + Split(s, separator)[1..]
  {
    if p == [] {
      assert p + s == s && p + Split(s, separator)[0] == Split(s, separator)[0];
      assert Split(s, separator) == [Split(s, separator)[0]] + Split(s, separator)[1..];
    } else {
      assert p[0] in p && (p + s)[1..] == p[1..] + s;
      SplitOfPart(p[1..], s, separator);
      assert [p[0]] + (p[1..] + Split(s, separator)[0]) == p + Split(s, separator)[0];
    }
  }

  /** Splitting undoes joining. */
  lemma {:induction false} SplitOfJoin(parts: seq<string>, separator: char)
    requires parts != [] && forall p :: p in parts ==> separator !in p
    ensures Split(Join(parts, separator), separator) == parts
  {
    assert parts == [parts[0]] + parts[1..];
    HeadOfJoin(parts, separator);
    SplitOfPart(parts[0], TailOfJoin(parts, separator), separator);
    if |parts| > 1 {
      SplitOfJoin(parts[1..], separator);
      assert TailOfJoin(parts, separator)[1..] == Join(parts[1..], separator);
      assert Split(TailOfJoin(parts, separator), separator) == [""] + parts[1..];
    }
    assert parts[0] + "" == parts[0];
  }
}
