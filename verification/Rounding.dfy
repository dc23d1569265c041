/** Quotients rounded to the nearest whole number, halves up. */
module Rounding {

  function Rounded(n: int, d: int): int
    requires d > 0
  {
    (2 * n + d) / (2 * d)
  }

  lemma NoSmallerProduct(m: int, b: int, a: int)
    requires m > 0
    ensures b <= a ==> m * b <= m * a
  {
    assert m * a == m * b + m * (a - b);
  }

  lemma SmallerFactor(m: int, a: int, b: int)
    requires m > 0 && m * a < m * b
    ensures a < b
  {
    NoSmallerProduct(m, b, a);
  }

  lemma RemainderIs(k: int, m: int, q: int, r: int)
    requires 0 <= r < m && k == m * q + r
    ensures k % m == r
  {
    assert k == m * (k / m) + k % m;
    if k / m < q { NoSmallerProduct(m, k / m + 1, q); }
    if k / m > q { NoSmallerProduct(m, q + 1, k / m); }
  }

  /** The rounded quotient is the whole number no further than a half away. */
  lemma RoundedIsNearest(n: int, d: int, r: int)
    requires d > 0
    ensures Rounded(n, d) == r <==> (2 * d) * r <= 2 * n + d < (2 * d) * (r + 1)
  {
    var m, q := 2 * d, Rounded(n, d);
    assert m * q <= 2 * n + d < m * (q + 1);
    if m * r <= 2 * n + d < m * (r + 1) {
      SmallerFactor(m, r, q + 1);
      SmallerFactor(m, q, r + 1);
    }
  }

  /** Rounding stays between whole bounds. */
  lemma RoundedBetween(n: int, d: int, least: int, most: int)
    requires d > 0 && least * d <= n <= most * d
    ensures least <= Rounded(n, d) <= most
  {
    var m, r := 2 * d, Rounded(n, d);
    assert m * r <= 2 * n + d < m * (r + 1);
    assert m * least == 2 * (least * d) && m * (most + 1) == 2 * (most * d) + m;
    SmallerFactor(m, least, r + 1);
    SmallerFactor(m, r, most + 1);
  }
}
