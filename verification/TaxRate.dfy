/** The tax rate of an invoice, named or inferred from its cents (lib/consolidated-invoice.ts). */
module TaxRate {
  import opened Counting
  import opened Rounding

  datatype Rate = Named(bp: int) | Mixed | Unknown

  /** Tax in cents on a net amount at a rate in basis points. */
  function TaxOn(net: int, bp: int): int { Rounded(net * bp, 10_000) }

  function Abs(n: int): int { if n < 0 then -n else n }

  function Inferred(net: int, tax: int): Rate {
    if net > 0 && tax > 0 then
      var bp := Rounded(tax * 10_000, net);
      if 0 < bp <= 10_000 && Abs(TaxOn(net, bp) - tax) <= 1 then Named(bp) else Unknown
    else Unknown
  }

  function Positive(): int -> bool { (bp: int) => bp > 0 }

  /** One recorded rate, however often, is named; several are mixed; without any the cents are asked. */
  function TaxRateOf(recorded: seq<int>, net: int, tax: int): Rate {
    var rates := Filter(Positive(), recorded);
    if rates == [] then Inferred(net, tax)
    else if forall i :: 0 <= i < |rates| ==> rates[i] == rates[0] then Named(rates[0])
    else Mixed
  }

  /** Names of whole basis points a nearest quotient: within half a point of the exact one. */
  lemma RateRecovered(net: int, bp: int)
    requires net >= 10_000 && 1 <= bp <= 10_000
    ensures Rounded(TaxOn(net, bp) * 10_000, net) == bp
  {
    var tax, due := TaxOn(net, bp), net * bp;
    RoundedIsNearest(due, 10_000, tax);
    assert 20_000 * tax - 10_000 <= 2 * due < 20_000 * tax + 10_000;
    assert (2 * net) * bp == 2 * due && (2 * net) * (bp + 1) == 2 * due + 2 * net;
    RoundedIsNearest(tax * 10_000, net, bp);
  }

  /** Any rate with a positive tax is recovered from 100 rupees of net or more. */
  lemma RateIsRecovered(net: int, bp: int)
    requires net >= 10_000 && 1 <= bp <= 10_000 && TaxOn(net, bp) > 0
    ensures TaxRateOf([], net, TaxOn(net, bp)) == Named(bp)
  {
    RateRecovered(net, bp);
  }

  lemma AtLeastOne(short: int, bp: int)
    requires 0 < short < 5_000 && bp == 5_000 / short
    ensures 1 <= bp <= 5_000
  {
    assert 5_000 == short * bp + 5_000 % short;
    if bp > 5_000 { NoSmallerProduct(bp, 1, short); }
  }

  /** On a net short of 10,000 cents each basis point charges a little short of a cent: these two fall short of half a cent. */
  lemma ShortOfTheRate(net: int, bp: int)
    requires 5_000 < net < 10_000 && bp == 5_000 / (10_000 - net)
    ensures TaxOn(net, bp) == TaxOn(net, bp + 1) == bp
  {
    var short := 10_000 - net;
    assert short * bp <= 5_000 < short * (bp + 1) == short * bp + short;
    assert net * bp == 10_000 * bp - short * bp;
    assert net * (bp + 1) == 10_000 * (bp + 1) - short * (bp + 1);
    RoundedIsNearest(net * bp, 10_000, bp);
    RoundedIsNearest(net * (bp + 1), 10_000, bp);
  }

  /** Below that, two neighbouring rates charge one and the same tax. */
  lemma NeighboursShareATax(net: int) returns (bp: int)
    requires 0 < net < 10_000
    ensures 1 <= bp < bp + 1 <= 10_000 && TaxOn(net, bp) == TaxOn(net, bp + 1) > 0
  {
    if net <= 5_000 {
      bp := 9_999;
      RoundedIsNearest(net * 9_999, 10_000, net);
      RoundedIsNearest(net * 10_000, 10_000, net);
    } else {
      bp := 5_000 / (10_000 - net);
      AtLeastOne(10_000 - net, bp);
      ShortOfTheRate(net, bp);
    }
  }

  /** Every rate that charges a tax on this net is recovered from it. */
  ghost predicate RecoversEveryRate(net: int) {
    forall bp :: 1 <= bp <= 10_000 && TaxOn(net, bp) > 0 ==> TaxRateOf([], net, TaxOn(net, bp)) == Named(bp)
  }

  /** Exactly from 100 rupees of net up is every rate recovered (nothing is charged on no net at all). */
  lemma RatesAreRecoveredExactly(net: int)
    ensures RecoversEveryRate(net) <==> net >= 10_000 || net <= 0
  {
    if net >= 10_000 {
      forall bp | 1 <= bp <= 10_000 && TaxOn(net, bp) > 0 { RateIsRecovered(net, bp); }
    } else if net > 0 {
      var bp := NeighboursShareATax(net);
      assert TaxRateOf([], net, TaxOn(net, bp)) != Named(bp) || TaxRateOf([], net, TaxOn(net, bp + 1)) != Named(bp + 1);
    } else {
      forall bp | 1 <= bp <= 10_000 ensures TaxOn(net, bp) <= 0 { NoTaxOnNothing(net, bp); }
    }
  }

  lemma NoTaxOnNothing(net: int, bp: int)
    requires net <= 0 && bp > 0
    ensures TaxOn(net, bp) <= 0
  {
    NoSmallerProduct(bp, net, 0);
    assert net * bp <= 0;
  }

  /** What the unrounded tax at a rate exceeds the invoice's by, in twenty-thousandths of a cent. */
  function Off(net: int, bp: int, tax: int): int { 2 * (net * bp) - 20_000 * tax }

  lemma ChargedOff(net: int, bp: int, tax: int)
    ensures 20_000 * (TaxOn(net, bp) - tax) <= Off(net, bp, tax) + 10_000 < 20_000 * (TaxOn(net, bp) - tax) + 20_000
  {
    RoundedIsNearest(net * bp, 10_000, TaxOn(net, bp));
  }

  /** The rate the cents round to is off by half a basis point at most. */
  lemma NearestIsOff(net: int, tax: int)
    requires net > 0
    ensures -net < Off(net, Rounded(tax * 10_000, net), tax) <= net
  {
    var bp := Rounded(tax * 10_000, net);
    RoundedIsNearest(tax * 10_000, net, bp);
    assert (2 * net) * bp == 2 * (net * bp) && (2 * net) * (bp + 1) == 2 * (net * bp) + 2 * net;
  }

  lemma TimesRate(m: int, bp: int)
    ensures (10_000 * m) * bp == 10_000 * (m * bp)
  {
  }

  /** It is never half a basis point too high and half a cent over at once: an odd number would be even. */
  lemma TiesCannotBe(net: int, bp: int, tax: int, k: int)
    requires Off(net, bp, tax) == net
    ensures net != 10_000 * (2 * k - 1)
  {
    TimesRate(2 * k - 1, bp);
  }

  /** No rate at all charges a tax nearer the invoice's than the rate the invoice's cents round to. */
  lemma NoRateIsNearer(net: int, tax: int, rate: int)
    requires net > 0
    ensures Abs(TaxOn(net, Rounded(tax * 10_000, net)) - tax) <= Abs(TaxOn(net, rate) - tax)
  {
    var bp := Rounded(tax * 10_000, net);
    NearestIsOff(net, tax);
    ChargedOff(net, bp, tax);
    ChargedOff(net, rate, tax);
    if rate > bp {
      NoSmallerProduct(net, bp + 1, rate);
      assert net * (bp + 1) == net * bp + net;
    } else if rate < bp {
      NoSmallerProduct(net, rate, bp - 1);
      assert net * (bp - 1) == net * bp - net;
      if Off(net, bp, tax) == net { TiesCannotBe(net, bp, tax, TaxOn(net, bp) - tax); }
    }
  }

  /** A rate up to 100% that charges a tax within a cent of the invoice's. */
  predicate Reconstructs(net: int, tax: int, rate: int) {
    1 <= rate <= 10_000 && Abs(TaxOn(net, rate) - tax) <= 1
  }

  lemma TaxGrowsWithTheRate(net: int, low: int, high: int)
    requires net > 0 && low <= high
    ensures TaxOn(net, low) <= TaxOn(net, high)
  {
    NoSmallerProduct(net, low, high);
    RoundedIsNearest(net * low, 10_000, TaxOn(net, low));
    RoundedIsNearest(net * high, 10_000, TaxOn(net, high));
  }

  lemma FullRateTaxesTheNet(net: int)
    ensures TaxOn(net, 10_000) == net
  {
    RoundedIsNearest(net * 10_000, 10_000, net);
  }

  /** When the cents round to a rate outside 1..10,000: above when the tax exceeds net by half a basis point of it, below
      when it falls short of half a basis point of net. */
  lemma OutOfBounds(net: int, tax: int)
    requires net > 0
    ensures Rounded(tax * 10_000, net) > 10_000 <==> 20_000 * (tax - net) >= net
    ensures Rounded(tax * 10_000, net) < 1 <==> 20_000 * tax < net
  {
    NearestIsOff(net, tax);
    var bp := Rounded(tax * 10_000, net);
    if bp > 10_000 { NoSmallerProduct(net, 10_001, bp); } else { NoSmallerProduct(net, bp, 10_000); }
    if bp < 1 { NoSmallerProduct(net, bp, 0); } else { NoSmallerProduct(net, 1, bp); }
  }

  /** A cent over 100% of a net of at most 20,000 cents, or a cent on a net between 20,000 and 25,000. */
  predicate AtTheEdge(net: int, tax: int) {
    || (0 < net <= 20_000 && tax == net + 1)
    || (20_000 < net < 25_000 && tax == 1)
  }

  lemma ReconstructedOverTheNet(net: int, tax: int)
    requires net > 0 && tax > net
    ensures (exists rate :: Reconstructs(net, tax, rate)) <==> tax == net + 1
  {
    FullRateTaxesTheNet(net);
    forall rate | Reconstructs(net, tax, rate) ensures tax == net + 1 { TaxGrowsWithTheRate(net, rate, 10_000); }
    if tax == net + 1 { assert Reconstructs(net, tax, 10_000); }
  }

  lemma ReconstructedUnderAPoint(net: int, tax: int)
    requires tax > 0 && 20_000 * tax < net
    ensures (exists rate :: Reconstructs(net, tax, rate)) <==> tax == 1 && net < 25_000
  {
    RoundedIsNearest(net * 1, 10_000, TaxOn(net, 1));
    forall rate | Reconstructs(net, tax, rate) ensures tax == 1 && net < 25_000 { TaxGrowsWithTheRate(net, 1, rate); }
    if tax == 1 && net < 25_000 { assert Reconstructs(net, tax, 1); }
  }

  /** When the cents round to a rate up to 100%, a rate is named exactly when some rate reconstructs the tax. */
  lemma InferredInBounds(net: int, tax: int)
    requires net > 0 && tax > 0 && 1 <= Rounded(tax * 10_000, net) <= 10_000
    ensures Inferred(net, tax).Named? <==> exists rate :: Reconstructs(net, tax, rate)
  {
    var bp := Rounded(tax * 10_000, net);
    forall rate { NoRateIsNearer(net, tax, rate); }
    if Inferred(net, tax).Named? { assert Reconstructs(net, tax, bp); }
  }

  /** Of a positive net and tax a rate is named exactly when some rate reconstructs the tax, but for the two edges. */
  lemma InferredExactly(net: int, tax: int)
    ensures Inferred(net, tax).Named? <==>
            net > 0 && tax > 0 && (exists rate :: Reconstructs(net, tax, rate)) && !AtTheEdge(net, tax)
    ensures AtTheEdge(net, tax) ==> exists rate :: Reconstructs(net, tax, rate)
    ensures Inferred(net, tax).Named? ==>
              forall rate :: Abs(TaxOn(net, Inferred(net, tax).bp) - tax) <= Abs(TaxOn(net, rate) - tax)
  {
    if net > 0 && tax > 0 {
      OutOfBounds(net, tax);
      if tax > net {
        ReconstructedOverTheNet(net, tax);
      }
      if 20_000 * tax < net {
        ReconstructedUnderAPoint(net, tax);
      } else if 20_000 * (tax - net) < net {
        InferredInBounds(net, tax);
      }
      forall rate { NoRateIsNearer(net, tax, rate); }
    }
  }

  /** One input at each edge. */
  lemma EdgesAreRefused()
    ensures Inferred(10_000, 10_001) == Unknown && Reconstructs(10_000, 10_001, 10_000)
    ensures Inferred(20_001, 1) == Unknown && Reconstructs(20_001, 1, 1)
  {
  }

  // ---- Recorded rates ----

  /** Only positive recorded rates count: one, however often, is named; two different ones are mixed; without any the
      cents are asked. */
  lemma RecordedRatesDecide(recorded: seq<int>, net: int, tax: int, bp: int)
    ensures bp > 0 && bp in recorded ==>
              (TaxRateOf(recorded, net, tax) == Named(bp) <==> forall r :: r in recorded && r > 0 ==> r == bp)
    ensures TaxRateOf(recorded, net, tax) == Mixed <==> exists r, q :: r in recorded && q in recorded && r > 0 && q > 0 && r != q
    ensures (forall r :: r in recorded ==> r <= 0) ==> TaxRateOf(recorded, net, tax) == Inferred(net, tax)
  {
    var rates := Filter(Positive(), recorded);
    if rates != [] {
      assert rates[0] in rates && rates[0] in recorded && rates[0] > 0;
      forall i | 0 <= i < |rates| ensures rates[i] in recorded && rates[i] > 0 {
        assert rates[i] in rates;
      }
      forall r | r in recorded && r > 0 ensures exists i :: 0 <= i < |rates| && rates[i] == r {
        assert r in rates;
      }
    }
  }
}
