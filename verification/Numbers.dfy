module Numbers {
  import opened Options

  function Min(a: int, b: int): int { if a <= b then a else b }

  function Max(a: int, b: int): int { if a >= b then a else b }

  function OrZero(n: Option<int>): int { n.GetOr(0) }
}
