/** Currency exchange in exact arithmetic: the credit is the truncated converted amount. */
module Exchange {
  import opened Bank

  type Rate = r: real | r > 0.0 witness 1.0

  /** Go's conversion of a float to an integer drops the fraction. */
  function Truncate(x: real): int {
    if x >= 0.0 then x.Floor else -((-x).Floor)
  }

  /** The credited amount before it is stored in an int64. */
  function Converted(fromRate: Rate, toRate: Rate, amount: int): int {
    Truncate(amount as real * (fromRate / toRate))
  }

  /**
   Go leaves the conversion of a value outside int64 to the implementation: `wild` is
   whatever it gives.
   */
  function ToInt64(x: int, wild: Int64): Int64 {
    if InRange(x) then x else wild
  }

  function Exchanged(fromRate: Rate, toRate: Rate, amount: int, wild: Int64): Int64 {
    ToInt64(Converted(fromRate, toRate, amount), wild)
  }

  /** What a number of units is worth. */
  function Worth(units: int, rate: Rate): real {
    units as real * rate
  }

  lemma DivideMultiply(x: real, y: real, z: real)
    requires z > 0.0
    ensures x * (y / z) * z == x * y
  {
  }

  lemma ScaleStrict(x: real, y: real, z: real)
    requires x < y && z > 0.0
    ensures x * z < y * z
  {
  }

  lemma ScaleOrder(x: real, y: real, z: real)
    requires x <= y && z > 0.0
    ensures x * z <= y * z
  {
  }

  lemma OneUnitMore(c: real, z: real)
    ensures (c + 1.0) * z == c * z + z
  {
  }

  /** A conversion never adds value and loses less than one unit of the destination currency. */
  lemma ConversionLoss(fromRate: Rate, toRate: Rate, amount: nat)
    ensures Converted(fromRate, toRate, amount) >= 0
    ensures 0.0 <= Worth(amount, fromRate) - Worth(Converted(fromRate, toRate, amount), toRate) < toRate
  {
    var x := amount as real * (fromRate / toRate);
    assert fromRate / toRate > 0.0;
    if amount > 0 { ScaleStrict(0.0, amount as real, fromRate / toRate); }
    assert x >= 0.0;
    DivideMultiply(amount as real, fromRate, toRate);
    LossOf(x, Worth(amount, fromRate), toRate);
  }

  lemma LossOf(x: real, worth: real, z: Rate)
    requires x * z == worth
    ensures 0.0 <= worth - Worth(x.Floor, z) < z
  {
    AtLeastUnits(x, x.Floor as real, z, worth);
    BelowOneUnitMore(x, x.Floor as real, z, worth);
  }

  lemma AtLeastUnits(x: real, c: real, z: Rate, worth: real)
    requires c <= x && x * z == worth
    ensures c * z <= worth
  {
    ScaleOrder(c, x, z);
  }

  lemma BelowOneUnitMore(x: real, c: real, z: Rate, worth: real)
    requires x < c + 1.0 && x * z == worth
    ensures worth < c * z + z
  {
    ScaleStrict(x, c + 1.0, z);
    OneUnitMore(c, z);
  }

  /**
   If the floating-point product is off by at most a share `u` of the exact one, so is
   the value: it can then be created, but by no more than that share.
   */
  lemma RoundedConversionLoss(fromRate: Rate, toRate: Rate, amount: nat, product: real, u: real)
    requires var exact := amount as real * (fromRate / toRate);
             0.0 <= u && exact - u * exact <= product <= exact + u * exact && product >= 0.0
    ensures var loss := Worth(amount, fromRate) - Worth(Truncate(product), toRate);
            -(u * Worth(amount, fromRate)) <= loss < toRate + u * Worth(amount, fromRate)
  {
    var exact := amount as real * (fromRate / toRate);
    DivideMultiply(amount as real, fromRate, toRate);
    RoundedLoss(exact, product, u, Worth(amount, fromRate), toRate);
  }

  lemma RoundedLoss(exact: real, product: real, u: real, worth: real, z: Rate)
    requires exact * z == worth && exact - u * exact <= product <= exact + u * exact
    ensures -(u * worth) <= worth - Worth(product.Floor, z) < z + u * worth
  {
    var share, value := u * exact, product * z;
    ScaleOrder(exact - share, product, z);
    ScaleOrder(product, exact + share, z);
    ShareOfWorth(u, exact, z);
    DistributeOver(exact, share, z);
    LossOf(product, value, z);
    Within(worth, value, u * worth, Worth(product.Floor, z), z);
  }

  lemma ShareOfWorth(u: real, x: real, z: real)
    ensures (u * x) * z == u * (x * z)
  {
  }

  lemma DistributeOver(x: real, y: real, z: real)
    ensures (x - y) * z == x * z - y * z && (x + y) * z == x * z + y * z
  {
  }

  lemma Within(worth: real, value: real, share: real, kept: real, z: real)
    requires worth - share <= value <= worth + share && 0.0 <= value - kept < z
    ensures -share <= worth - kept < z + share
  {
  }

  lemma WorthMore(units: int, rate: Rate)
    ensures Worth(units + 1, rate) == Worth(units, rate) + rate
  {
    OneUnitMore(units as real, rate);
  }

  lemma WorthOrder(x: int, y: int, rate: Rate)
    requires x <= y
    ensures Worth(x, rate) <= Worth(y, rate)
  {
    ScaleOrder(x as real, y as real, rate);
  }

  /** A whole number of units worth at most the input is at most the conversion. */
  lemma ConversionGreatest(fromRate: Rate, toRate: Rate, amount: nat, units: int)
    requires Worth(units, toRate) <= Worth(amount, fromRate)
    ensures units <= Converted(fromRate, toRate, amount)
  {
    ConversionLoss(fromRate, toRate, amount);
    var c := Converted(fromRate, toRate, amount);
    hide Worth, Converted;
    if units >= c + 1 {
      WorthMore(c, toRate);
      WorthOrder(c + 1, units, toRate);
    }
  }

  /** Within one currency the amount arrives unchanged. */
  lemma SameCurrency(rate: Rate, amount: nat)
    ensures Converted(rate, rate, amount) == amount
  {
    assert rate / rate == 1.0;
  }

  /** The converted amount fits int64 exactly when the amount is worth less than 2^63 units. */
  lemma FitsIff(fromRate: Rate, toRate: Rate, amount: nat)
    ensures InRange(Converted(fromRate, toRate, amount)) <==> Worth(amount, fromRate) < Worth(MAX_INT64 + 1, toRate)
  {
    hide Worth, Converted;
    ConversionLoss(fromRate, toRate, amount);
    var c := Converted(fromRate, toRate, amount);
    if c >= MAX_INT64 + 1 { WorthOrder(MAX_INT64 + 1, c, toRate); }
    if Worth(amount, fromRate) >= Worth(MAX_INT64 + 1, toRate) {
      ConversionGreatest(fromRate, toRate, amount, MAX_INT64 + 1);
    }
  }

  /**
   The int64 result keeps the bounds for every `wild` exactly when the converted amount
   fits: for a positive amount, when amount * fromRate < 2^63 * toRate.
   */
  lemma ExchangeSoundIff(fromRate: Rate, toRate: Rate, amount: nat)
    ensures (forall wild: Int64 ::
               0.0 <= Worth(amount, fromRate) - Worth(Exchanged(fromRate, toRate, amount, wild), toRate) < toRate)
            <==> Worth(amount, fromRate) < Worth(MAX_INT64 + 1, toRate)
  {
    ConversionLoss(fromRate, toRate, amount);
    FitsIff(fromRate, toRate, amount);
    if Worth(amount, fromRate) >= Worth(MAX_INT64 + 1, toRate) {
      var wild: Int64 := 0;
      assert Exchanged(fromRate, toRate, amount, wild) == 0;
      ScaleOrder(1.0, (MAX_INT64 + 1) as real, toRate);
    }
  }

  /** Converting through a list of currencies, truncating each time. */
  function Chain(rate: Rate, rates: seq<Rate>, amount: nat): int
    decreases |rates|
  {
    if rates == [] then amount
    else
      ConversionLoss(rate, rates[0], amount);
      Chain(rates[0], rates[1..], Converted(rate, rates[0], amount))
  }

  function LastRate(rate: Rate, rates: seq<Rate>): Rate {
    if rates == [] then rate else rates[|rates| - 1]
  }

  function RateSum(rates: seq<Rate>): real
    decreases |rates|
  {
    if rates == [] then 0.0 else rates[0] + RateSum(rates[1..])
  }

  /** A chain of n conversions never adds value and loses less than the n destination rates. */
  lemma {:induction false} ChainLoss(rate: Rate, rates: seq<Rate>, amount: nat)
    ensures Chain(rate, rates, amount) >= 0
    ensures var loss := Worth(amount, rate) - Worth(Chain(rate, rates, amount), LastRate(rate, rates));
            if rates == [] then loss == 0.0 else 0.0 <= loss < RateSum(rates)
    decreases |rates|
  {
    if rates != [] {
      ConversionLoss(rate, rates[0], amount);
      var next := Converted(rate, rates[0], amount);
      ChainLoss(rates[0], rates[1..], next);
      assert LastRate(rates[0], rates[1..]) == LastRate(rate, rates);
      assert Chain(rate, rates, amount) == Chain(rates[0], rates[1..], next);
    }
  }

  /** Main theorem on chains: no detour through other currencies beats converting directly. */
  lemma DirectIsBest(rate: Rate, rates: seq<Rate>, amount: nat)
    ensures Chain(rate, rates, amount) <= Converted(rate, LastRate(rate, rates), amount)
  {
    ChainLoss(rate, rates, amount);
    ConversionGreatest(rate, LastRate(rate, rates), amount, Chain(rate, rates, amount));
  }

  lemma ThereAndBack(a: Rate, b: Rate, amount: nat)
    ensures var back := Chain(a, [b, a], amount);
            back <= amount && Worth(amount, a) - Worth(back, a) < a + b
  {
    hide Worth, Converted;
    DirectIsBest(a, [b, a], amount);
    SameCurrency(a, amount);
    ChainLoss(a, [b, a], amount);
    assert [b, a][1..] == [a] && [a][1..] == [];
    assert RateSum([a]) == a && RateSum([b, a]) == b + RateSum([a]);
  }

  /** There and back: at most the amount, and more than the amount less rateB / rateA + 1. */
  lemma RoundTrip(a: Rate, b: Rate, amount: nat)
    ensures var back := Chain(a, [b, a], amount);
            && back <= amount
            && back as real > amount as real - b / a - 1.0
  {
    hide Chain;
    ThereAndBack(a, b, amount);
    LessThanShare(a, b, amount as real, Chain(a, [b, a], amount) as real);
  }

  lemma LessThanShare(a: Rate, b: real, amount: real, back: real)
    requires amount * a - back * a < a + b
    ensures back > amount - b / a - 1.0
  {
    var share := b / a;
    assert share * a == b;
    if back <= amount - share - 1.0 {
      ScaleOrder(back, amount - share - 1.0, a);
      Distribute(amount, share, a);
    }
  }

  lemma Distribute(x: real, y: real, z: real)
    ensures (x - y - 1.0) * z == x * z - y * z - z
  {
  }
}
