/** The program's integer risk arithmetic: every rounding direction and every overflow exit. */
module RiskMath {
  import opened Outcomes
  import opened Rounding

  const BPS: int := 10_000
  const SECONDS_PER_YEAR: int := 31_536_000
  const MULTIPLIER_SCALE: int := 1_000_000

  /** Basis points of a yearly rate, and its seconds. */
  const YEAR: int := BPS * SECONDS_PER_YEAR

  function Pow10(n: nat): (p: nat)
    ensures p > 0
  {
    if n == 0 then 1 else 10 * Pow10(n - 1)
  }

  /** Powers above 10^18 are refused. */
  function CheckedPow10(n: nat): (r: Result<nat>)
    ensures r.Err? ==> r.error == MathOverflow
  {
    if n > 18 then Err(MathOverflow) else Ok(Pow10(n))
  }

  function CheckedCeil(n: nat, d: nat): (r: Result<u64>)
    ensures r.Err? ==> r.error == MathOverflow
  {
    if d == 0 then Err(MathOverflow) else Narrow(CeilDiv(n, d))
  }

  function CheckedFloor(n: nat, d: nat): (r: Result<u64>)
    ensures r.Err? ==> r.error == MathOverflow
  {
    if d == 0 then Err(MathOverflow) else Narrow(n / d)
  }

  /** A product that must fit the 128-bit intermediate. */
  function Wide(n: nat): (r: Result<nat>)
    ensures r.Err? ==> r.error == MathOverflow
  {
    if n <= U128_MAX then Ok(n) else Err(MathOverflow)
  }

  /** Interest on a debt over some seconds, rounded up. */
  function Charge(debt: nat, apr: nat, seconds: nat): nat {
    CeilDiv(debt * apr * seconds, YEAR)
  }

  function AccrueInterest(debt: u64, apr: u16, elapsed: nat): (r: Result<u64>)
    ensures r.Err? ==> r.error == MathOverflow
  {
    var n :- Wide(debt * apr * elapsed);
    CheckedCeil(n, BPS * SECONDS_PER_YEAR)
  }

  function ReserveShare(interest: u64, protocolShare: u16): (r: Result<u64>)
    ensures r.Err? ==> r.error == MathOverflow
  {
    CheckedCeil(interest * protocolShare, BPS)
  }

  function PriceToUsd6(price: int, expo: int): (r: Result<u64>)
    ensures r.Err? ==> r.error == MathOverflow || r.error == InvalidPrice
  {
    if price <= 0 then Err(InvalidPrice)
    else if expo + 6 >= 0 then
      var scale :- CheckedPow10(expo + 6);
      MulPos(price, scale);
      var usd6 :- Wide(price * scale);
      Narrow(usd6)
    else
      var scale :- CheckedPow10(-(expo + 6));
      DivBounds(price, scale);
      Narrow(price / scale)
  }

  function CollateralValue(amount: u64, multiplier: u64, price: u64, haircut: u16, decimals: nat): (r: Result<u64>)
    ensures r.Err? ==> r.error == MathOverflow || r.error == InvalidRiskParams
  {
    if haircut >= BPS then Err(InvalidRiskParams) else
    var n :- Wide(amount * multiplier * price * (BPS - haircut));
    var scale :- CheckedPow10(decimals);
    CheckedFloor(n, scale * MULTIPLIER_SCALE * BPS)
  }

  /** Debt over value in basis points, rounded up; debt against nothing is the largest word. */
  function LtvBps(debt: u64, value: u64): (r: Result<u64>)
    ensures r.Err? ==> r.error == MathOverflow
  {
    if value == 0 then Ok(if debt > 0 then U64_MAX else 0)
    else CheckedCeil(debt * BPS, value)
  }

  function SeizeAmount(repay: u64, bonus: u16, price: u64, multiplier: u64, decimals: nat): (r: Result<u64>)
    ensures r.Err? ==> r.error == MathOverflow || r.error == InvalidPrice
  {
    if price == 0 || multiplier == 0 then Err(InvalidPrice) else
    var scale :- CheckedPow10(decimals);
    var n :- Wide(repay * (BPS + bonus) * scale * MULTIPLIER_SCALE);
    var d :- Wide(BPS * price * multiplier);
    CheckedFloor(n, d)
  }

  function SharesForDeposit(amount: u64, totalShares: u64, poolValue: u64): (r: Result<u64>)
    ensures r.Err? ==> r.error == MathOverflow
  {
    if totalShares == 0 then Ok(amount)
    else if poolValue == 0 then Err(MathOverflow)
    else CheckedFloor(amount * totalShares, poolValue)
  }

  function AmountForShares(shares: u64, totalShares: u64, poolValue: u64): (r: Result<u64>)
    ensures r.Err? ==> r.error == MathOverflow
  {
    if totalShares == 0 then Ok(0)
    else CheckedFloor(shares * poolValue, totalShares)
  }

  function UtilizationBps(totalBorrowed: u64, poolValue: u64): (r: Result<u64>)
    ensures r.Err? ==> r.error == MathOverflow
  {
    if poolValue == 0 then Ok(if totalBorrowed > 0 then U64_MAX else 0)
    else CheckedCeil(totalBorrowed * BPS, poolValue)
  }

  function PoolValue(vault: u64, totalBorrowed: u64, reserve: u64): (r: Result<u64>)
    ensures r.Err? ==> r.error == MathOverflow
  {
    if vault + totalBorrowed < reserve then Err(MathOverflow)
    else Narrow(vault + totalBorrowed - reserve)
  }

  // ----- when there is an answer, and which ---------------------------------------------

  /** What the collateral is worth after the haircut, on the scale of `ValueScale`. */
  function Kept(amount: nat, multiplier: nat, price: nat, haircut: nat): int {
    amount * multiplier * price * (BPS - haircut)
  }

  function ValueScale(decimals: nat): (scale: nat)
    ensures scale > 0
  {
    Pow10(decimals) * MULTIPLIER_SCALE * BPS
  }

  /** The collateral has a value: the haircut leaves something, the token has at most 18 decimals,
      and both the product and its quotient fit their words. */
  predicate HasValue(amount: nat, multiplier: nat, price: nat, haircut: nat, decimals: nat) {
    && haircut < BPS && decimals <= 18
    && Kept(amount, multiplier, price, haircut) <= U128_MAX
    && Kept(amount, multiplier, price, haircut) < (U64_MAX + 1) * ValueScale(decimals)
  }

  /** The value, rounded down. */
  function FloorValue(amount: nat, multiplier: nat, price: nat, haircut: nat, decimals: nat): nat {
    if haircut >= BPS then 0 else
    KeptPos(amount, multiplier, price, BPS - haircut);
    DivBounds(Kept(amount, multiplier, price, haircut), ValueScale(decimals));
    Kept(amount, multiplier, price, haircut) / ValueScale(decimals)
  }

  lemma KeptPos(amount: nat, multiplier: nat, price: nat, kept: nat)
    ensures amount * multiplier * price * kept >= 0
  {
    MulLe(0, amount, multiplier);
    MulLe(0, amount * multiplier, price);
    MulLe(0, amount * multiplier * price, kept);
  }

  /** The program has a collateral value exactly when the inputs have one, and it is that one. */
  lemma ValueAnswers(amount: u64, multiplier: u64, price: u64, haircut: u16, decimals: nat)
    ensures CollateralValue(amount, multiplier, price, haircut, decimals).Ok? <==> HasValue(amount, multiplier, price, haircut, decimals)
    ensures HasValue(amount, multiplier, price, haircut, decimals) ==>
              CollateralValue(amount, multiplier, price, haircut, decimals).value == FloorValue(amount, multiplier, price, haircut, decimals)
  {
    if haircut < BPS && decimals <= 18 && Kept(amount, multiplier, price, haircut) <= U128_MAX {
      KeptPos(amount, multiplier, price, BPS - haircut);
      FloorGe(Kept(amount, multiplier, price, haircut), ValueScale(decimals), U64_MAX + 1);
    }
  }

  /** A whole token shown as one is worth its price. */
  lemma OneToken(price: nat, decimals: nat)
    ensures FloorValue(Pow10(decimals), MULTIPLIER_SCALE, price, 0, decimals) == price
  {
    hide Pow10;
    var scale := ValueScale(decimals);
    assert Kept(Pow10(decimals), MULTIPLIER_SCALE, price, 0) == price * scale;
    FloorGe(price * scale, scale, price);
    assert (price + 1) * scale == price * scale + scale;
    FloorGe(price * scale, scale, price + 1);
  }

  /** A deeper haircut never raises the value. */
  lemma HaircutLowers(amount: nat, multiplier: nat, price: nat, less: nat, more: nat, decimals: nat)
    requires less <= more
    ensures FloorValue(amount, multiplier, price, more, decimals) <= FloorValue(amount, multiplier, price, less, decimals)
  {
    if more < BPS {
      KeptPos(amount, multiplier, price, 1);
      KeptPos(amount, multiplier, price, BPS - more);
      MulLe(BPS - more, BPS - less, amount * multiplier * price);
      FloorMono(Kept(amount, multiplier, price, more), Kept(amount, multiplier, price, less), ValueScale(decimals));
    }
  }

  /** A loan-to-value that does not fit a word. */
  predicate TooWide(debt: nat, value: nat) {
    0 < value && U64_MAX * value < debt * BPS
  }

  /** The debt is at most `limit` of the value, compared without rounding. */
  predicate WithinLimit(debt: nat, value: nat, limit: nat) {
    debt * BPS <= limit * value
  }

  /** The rounded-up LTV test is the exact comparison of debt with a fraction of the value.
      The only way to get no answer is a quotient too wide for a word. */
  lemma LtvWithin(debt: u64, value: u64, limit: u16)
    ensures LtvBps(debt, value).Ok? && LtvBps(debt, value).value <= limit <==> WithinLimit(debt, value, limit)
    ensures LtvBps(debt, value).Err? ==> LtvBps(debt, value) == Err(MathOverflow)
    ensures LtvBps(debt, value).Err? <==> TooWide(debt, value)
  {
    if value > 0 {
      CeilLe(debt * BPS, value, limit);
      CeilLe(debt * BPS, value, U64_MAX);
    } else if debt > 0 {
      MulPos(debt, BPS);
    }
  }

  /** The price fits: on the scale of 10^-24 its dollars are below those of the next word. */
  predicate HasPrice(price: int, expo: int) {
    price > 0 && -24 <= expo <= 12 && price * Pow10(expo + 24) < (U64_MAX + 1) * Pow10(18)
  }

  lemma {:induction false} PowSum(a: nat, b: nat)
    ensures Pow10(a + b) == Pow10(a) * Pow10(b)
  {
    if a > 0 {
      PowSum(a - 1, b);
      assert Pow10(a + b) == 10 * Pow10(a - 1 + b);
      assert 10 * (Pow10(a - 1) * Pow10(b)) == (10 * Pow10(a - 1)) * Pow10(b);
    }
  }

  /** The program reads a price exactly when it fits, as millionths of a dollar rounded down. */
  lemma PriceAnswers(price: int, expo: int)
    ensures PriceToUsd6(price, expo).Ok? <==> HasPrice(price, expo)
    ensures PriceToUsd6(price, expo).Ok? ==>
              var usd6 := PriceToUsd6(price, expo).value;
              usd6 * Pow10(18) <= price * Pow10(expo + 24) < (usd6 + 1) * Pow10(18)
  {
    hide Pow10;
    if price > 0 && -24 <= expo <= 12 {
      if expo + 6 >= 0 {
        PowSum(expo + 6, 18);
        WholeDollars(price, Pow10(expo + 6), Pow10(18));
      } else {
        PowSum(expo + 24, -(expo + 6));
        PartDollars(price, Pow10(expo + 24), Pow10(-(expo + 6)));
      }
    }
  }

  lemma WholeDollars(price: nat, scale: nat, unit: nat)
    requires price > 0 && scale > 0 && unit > 0
    ensures price * scale > 0
    ensures price * scale * unit == price * (scale * unit) < (price * scale + 1) * unit
    ensures price * scale <= U64_MAX <==> price * (scale * unit) < (U64_MAX + 1) * unit
  {
    MulPos(price, scale);
    assert price * scale * unit == price * (scale * unit);
    assert (price * scale + 1) * unit == price * scale * unit + unit;
    if price * scale <= U64_MAX {
      MulLe(price * scale + 1, U64_MAX + 1, unit);
    } else {
      MulLe(U64_MAX + 1, price * scale, unit);
    }
  }

  lemma PartDollars(price: nat, scale: nat, part: nat)
    requires price > 0 && scale > 0 && part > 0
    ensures price / part >= 0
    ensures (price / part) * (scale * part) <= price * scale < (price / part + 1) * (scale * part)
    ensures price / part <= U64_MAX <==> price * scale < (U64_MAX + 1) * (scale * part)
  {
    DivBounds(price, part);
    FloorGe(price, part, U64_MAX + 1);
    Scaled(price / part, part, price, scale);
    Scaled(price / part + 1, part, price, scale);
    Scaled(U64_MAX + 1, part, price, scale);
  }

  /** Scaling both sides keeps a comparison. */
  lemma Scaled(q: nat, part: nat, n: nat, scale: nat)
    requires scale > 0
    ensures q * (scale * part) <= n * scale <==> q * part <= n
  {
    assert q * (scale * part) == (q * part) * scale;
    if q * part <= n {
      MulLe(q * part, n, scale);
    } else {
      MulLe(n + 1, q * part, scale);
    }
  }

  /** A price means the same however its exponent splits it. */
  lemma PriceScaleFree(price: int, expo: int)
    requires PriceToUsd6(price, expo).Ok? && PriceToUsd6(10 * price, expo - 1).Ok?
    ensures PriceToUsd6(price, expo) == PriceToUsd6(10 * price, expo - 1)
  {
    if expo + 6 > 0 {
      var p := Pow10(expo + 5);
      assert Pow10(expo + 6) == 10 * p;
      Regroup(price, p);
    } else {
      var d := Pow10(-(expo + 6));
      assert Pow10(-(expo - 1 + 6)) == 10 * d;
      FloorScales(price, d);
    }
  }

  lemma Regroup(n: int, d: int)
    ensures n * (10 * d) == (10 * n) * d
  {
  }

  lemma FloorScales(n: nat, d: nat)
    requires d > 0
    ensures n / d == (10 * n) / (10 * d)
  {
    var q := n / d;
    Regroup(q, d);
    Regroup(q + 1, d);
    FloorGe(n, d, q);
    FloorGe(n, d, q + 1);
    FloorGe(10 * n, 10 * d, q);
    FloorGe(10 * n, 10 * d, q + 1);
  }
}
