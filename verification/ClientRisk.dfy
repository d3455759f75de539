/** The app's previews of the risk arithmetic, on unbounded integers, and what they promise about
    the program's decisions. The preview of a collateral value rounds down twice where the program
    rounds down once, and the preview of a limit rounds down where the program rounds a
    loan-to-value up. */
module ClientRisk {
  import opened Outcomes
  import opened Rounding
  import opened RiskMath
  import opened Bands
  import P = RiskMath
  import B = Bands

  const CENT: int := 10_000

  // ----- the previews ---------------------------------------------------------------

  function AccrueInterest(debt: nat, apr: nat, elapsed: int): nat {
    if debt == 0 || elapsed <= 0 then 0 else CeilDiv(debt * apr * elapsed, BPS * SECONDS_PER_YEAR)
  }

  /** What the collateral shows as, times its price, before any rounding, and the scale it is on. */
  function Worth(amount: nat, price: nat, multiplier: nat): nat {
    amount * multiplier * price
  }

  function GrossScale(decimals: nat): (d: nat)
    ensures d > 0
  {
    Pow10(decimals) * MULTIPLIER_SCALE
  }

  function Gross(amount: nat, decimals: nat, price: nat, multiplier: nat): nat {
    DivBounds(Worth(amount, price, multiplier), GrossScale(decimals));
    Worth(amount, price, multiplier) / GrossScale(decimals)
  }

  function CollateralValue(amount: nat, decimals: nat, price: nat, haircut: nat, multiplier: nat): nat
    requires haircut <= BPS
  {
    DivBounds(Gross(amount, decimals, price, multiplier) * (BPS - haircut), BPS);
    Gross(amount, decimals, price, multiplier) * (BPS - haircut) / BPS
  }

  function LtvBps(debt: nat, value: nat): nat {
    if debt == 0 then 0 else if value == 0 then U64_MAX else CeilDiv(debt * BPS, value)
  }

  function Limit(value: nat, maxLtv: nat): nat {
    value * maxLtv / BPS
  }

  function AvailableCredit(debt: nat, value: nat, maxLtv: nat): nat {
    if Limit(value, maxLtv) > debt then Limit(value, maxLtv) - debt else 0
  }

  function LiquidationPrice(debt: nat, amount: nat, multiplier: nat, haircut: nat, threshold: nat, decimals: nat): nat
    requires multiplier > 0 && haircut < BPS
  {
    if amount == 0 || threshold == 0 then 0 else
    PriceScalePos(amount, multiplier, haircut, threshold);
    DivBounds(debt * BPS * BPS * Pow10(decimals) * MULTIPLIER_SCALE, amount * multiplier * (BPS - haircut) * threshold);
    debt * BPS * BPS * Pow10(decimals) * MULTIPLIER_SCALE / (amount * multiplier * (BPS - haircut) * threshold)
  }

  lemma PriceScalePos(amount: nat, multiplier: nat, haircut: nat, threshold: nat)
    requires amount > 0 && multiplier > 0 && haircut < BPS && threshold > 0
    ensures amount * multiplier * (BPS - haircut) * threshold > 0
  {
    MulPos(amount, multiplier);
    MulPos(amount * multiplier, BPS - haircut);
    MulPos(amount * multiplier * (BPS - haircut), threshold);
  }

  datatype Fix = Fix(addTokens: nat, repayUsd6: nat)

  function RoundUpTo(n: nat, unit: nat): (r: nat)
    requires unit > 0
    ensures n <= r < n + unit || n == r == 0
  {
    CeilDiv(n, unit) * unit
  }

  function TokenUnit(decimals: nat): nat {
    if decimals >= 4 then Pow10(decimals - 4) else 1
  }

  /** The two ways back to the limit: tokens to add, to four decimals up, or dollars to repay,
      to whole cents up. */
  function FixAmounts(debt: nat, amount: nat, multiplier: nat, price: nat, haircut: nat, maxLtv: nat, decimals: nat): Fix
    requires multiplier > 0 && price > 0 && haircut < BPS && maxLtv > 0
  {
    var value := CollateralValue(amount, decimals, price, haircut, multiplier);
    var targetDebt := Limit(value, maxLtv);
    var repay := if debt > targetDebt then RoundUpTo(debt - targetDebt, CENT) else 0;
    var targetValue := CeilDiv(debt * BPS, maxLtv);
    var missing := if targetValue > value then targetValue - value else 0;
    UnitPricePos(price, multiplier, haircut);
    var raw := CeilDiv(missing * Pow10(decimals) * MULTIPLIER_SCALE * BPS, price * multiplier * (BPS - haircut));
    Fix(RoundUpTo(raw, TokenUnit(decimals)), repay)
  }

  lemma UnitPricePos(price: nat, multiplier: nat, haircut: nat)
    requires price > 0 && multiplier > 0 && haircut < BPS
    ensures price * multiplier * (BPS - haircut) > 0
  {
    MulPos(price, multiplier);
    MulPos(price * multiplier, BPS - haircut);
  }

  /** The preview of the rate scan, on an unbounded loan-to-value: beyond a word it selects the
      rate that the program selects for the largest word. */
  method SelectAprBps(bands: seq<RateBand>, ltv: nat) returns (apr: u16)
    ensures apr == B.SelectApr(bands, if ltv <= U64_MAX then ltv else U64_MAX)
  {
    ghost var word: u64 := if ltv <= U64_MAX then ltv else U64_MAX;
    var selected: u16 := 0;
    for i := 0 to |bands|
      invariant SelectApr(bands, word) == Or(SelectApr(bands[i..], word), selected)
    {
      assert bands[i..][0] == bands[i] && bands[i..][1..] == bands[i + 1..];
      if bands[i].maxLtv == 0 || bands[i].apr == 0 {
        continue;
      }
      selected := bands[i].apr;
      if ltv <= bands[i].maxLtv {
        return bands[i].apr;
      }
    }
    return selected;
  }

  // ----- where the previews agree with the program -------------------------------------

  /** The interest preview is the program's charge whenever the program has one. */
  lemma InterestMatches(debt: u64, apr: u16, elapsed: nat)
    requires P.AccrueInterest(debt, apr, elapsed).Ok?
    ensures AccrueInterest(debt, apr, elapsed) == P.AccrueInterest(debt, apr, elapsed).value
  {
  }

  /** The loan-to-value preview is the program's, sentinel included, whenever the program has one. */
  lemma LtvMatches(debt: u64, value: u64)
    requires P.LtvBps(debt, value).Ok?
    ensures LtvBps(debt, value) == P.LtvBps(debt, value).value
  {
  }

  // ----- one rounding against two -------------------------------------------------------

  lemma BelowTimes(q: nat, m: nat, d: nat)
    requires q < m
    ensures q * d + d <= m * d
  {
    MulLe(q + 1, m, d);
    assert (q + 1) * d == q * d + d;
  }

  /** What two roundings down drop between them is less than two units of one scale. */
  lemma DroppedBelowTwo(r: nat, d: nat, k: nat, m: nat, q: nat)
    requires r < d && q < m && k <= m
    ensures 0 <= q * d + r * k < 2 * (d * m)
  {
    MulLe(0, q, d);
    MulLe(0, r, k);
    BelowTimes(q, m, d);
    MulLe(k, m, r);
    BelowTimes(r, d, m);
    assert m * d == d * m;
  }

  lemma OneScale(g: nat, r: nat, d: nat, k: nat, m: nat, t: nat, q: nat)
    requires g * k == t * m + q
    ensures (g * d + r) * k == t * (d * m) + (q * d + r * k)
  {
    assert (g * d + r) * k == (g * k) * d + r * k;
    assert (t * m + q) * d == t * (d * m) + q * d;
  }

  /** The quotient of a number whose remainder is known up to one carry. */
  lemma CarryOnce(n: nat, t: nat, rest: nat, d: nat)
    requires d > 0 && rest < 2 * d && n == t * d + rest
    ensures n / d == if rest < d then t else t + 1
  {
    assert (t + 1) * d == t * d + d && (t + 2) * d == t * d + 2 * d;
    FloorGe(n, d, t);
    FloorGe(n, d, t + 1);
    FloorGe(n, d, t + 2);
  }

  /** Rounding down once in between loses at most one unit: `n` is the scaled worth, `d` its
      scale, `k` of `m` the part kept after the haircut. */
  lemma TwoFloors(n: nat, d: nat, k: nat, m: nat)
    requires d > 0 && k <= m && m > 0
    ensures d * m > 0
    ensures n * k / (d * m) == (n / d) * k / m + if ((n / d) * k % m) * d + (n % d) * k < d * m then 0 else 1
  {
    MulPos(d, m);
    Divide(n, d);
    Divide((n / d) * k, m);
    DropsOnce(n / d, n % d, d, k, m, (n / d) * k / m, (n / d) * k % m, n * k, d * m);
  }

  lemma Divide(n: nat, d: nat)
    requires d > 0
    ensures n == (n / d) * d + n % d && n / d >= 0 && 0 <= n % d < d
  {
  }

  lemma DropsOnce(g: nat, r: nat, d: nat, k: nat, m: nat, t: nat, q: nat, n: nat, scale: nat)
    requires n == (g * d + r) * k && scale == d * m && scale > 0
    requires r < d && q < m && k <= m && g * k == t * m + q
    ensures n / scale == t + if q * d + r * k < scale then 0 else 1
  {
    DroppedBelowTwo(r, d, k, m, q);
    OneScale(g, r, d, k, m, t, q);
    CarryOnce(n, t, q * d + r * k, scale);
  }

  /** The dust the preview drops at its first rounding and again at its second, on the scale of
      the program's single division. */
  function Dust(amount: nat, decimals: nat, price: nat, haircut: nat, multiplier: nat): int
    requires haircut <= BPS
  {
    (Gross(amount, decimals, price, multiplier) * (BPS - haircut) % BPS) * GrossScale(decimals)
    + (Worth(amount, price, multiplier) % GrossScale(decimals)) * (BPS - haircut)
  }

  /** One floor of the whole is the preview's two floors, or one unit more, and it is the preview's
      exactly when the dust does not add up to a unit. */
  lemma FloorWithinOne(amount: nat, multiplier: nat, price: nat, haircut: nat, decimals: nat)
    requires haircut < BPS
    ensures FloorValue(amount, multiplier, price, haircut, decimals)
            == CollateralValue(amount, decimals, price, haircut, multiplier)
               + if Dust(amount, decimals, price, haircut, multiplier) < GrossScale(decimals) * BPS then 0 else 1
  {
    hide Worth, GrossScale;
    SameScale(amount, multiplier, price, haircut, decimals);
    TwoFloors(Worth(amount, price, multiplier), GrossScale(decimals), BPS - haircut, BPS);
  }

  lemma SameScale(amount: nat, multiplier: nat, price: nat, haircut: nat, decimals: nat)
    requires haircut < BPS
    ensures GrossScale(decimals) * BPS == ValueScale(decimals)
    ensures FloorValue(amount, multiplier, price, haircut, decimals)
            == Worth(amount, price, multiplier) * (BPS - haircut) / ValueScale(decimals)
  {
  }

  /** The app says its collateral value matches the program's. It is the program's or one unit
      less, and it is the program's exactly when the dust does not add up to a unit. */
  lemma CollateralValueWithinOne(amount: u64, multiplier: u64, price: u64, haircut: u16, decimals: nat)
    requires P.CollateralValue(amount, multiplier, price, haircut, decimals).Ok?
    ensures haircut < BPS
    ensures P.CollateralValue(amount, multiplier, price, haircut, decimals).value
            == CollateralValue(amount, decimals, price, haircut, multiplier)
               + if Dust(amount, decimals, price, haircut, multiplier) < GrossScale(decimals) * BPS then 0 else 1
  {
    hide P.CollateralValue, FloorValue, GrossScale, Dust, CollateralValue;
    ValueAnswers(amount, multiplier, price, haircut, decimals);
    FloorWithinOne(amount, multiplier, price, haircut, decimals);
  }

  /** Without a haircut the second rounding drops nothing, and the two values are equal. */
  lemma CollateralValueMatches(amount: u64, multiplier: u64, price: u64, decimals: nat)
    requires P.CollateralValue(amount, multiplier, price, 0, decimals).Ok?
    ensures CollateralValue(amount, decimals, price, 0, multiplier) == P.CollateralValue(amount, multiplier, price, 0, decimals).value
  {
    CollateralValueWithinOne(amount, multiplier, price, 0, decimals);
    NothingDropped(amount, decimals, price, multiplier);
  }

  lemma NothingDropped(amount: nat, decimals: nat, price: nat, multiplier: nat)
    ensures Dust(amount, decimals, price, 0, multiplier) < GrossScale(decimals) * BPS
  {
    Divide(Worth(amount, price, multiplier), GrossScale(decimals));
    assert Gross(amount, decimals, price, multiplier) * (BPS - 0) % BPS == 0;
  }

  /** With one they can differ: a token showing as 1.9, at a price of one unit, cut by 40 %. */
  lemma CollateralValueDiffers()
    ensures CollateralValue(1, 0, 1, 4000, 1_900_000) == 0
    ensures P.CollateralValue(1, 1_900_000, 1, 4000, 0) == Ok(1)
  {
  }

  // ----- borrowing ---------------------------------------------------------------------

  /** Being within the limit is a comparison with the rounded-down limit of the value. */
  lemma WithinIsLimit(debt: nat, value: nat, maxLtv: nat)
    ensures WithinLimit(debt, value, maxLtv) <==> debt <= Limit(value, maxLtv)
  {
    MulLe(0, value, maxLtv);
    FloorGe(value * maxLtv, BPS, debt);
  }

  lemma LimitMono(less: nat, more: nat, maxLtv: nat)
    requires less <= more
    ensures Limit(less, maxLtv) <= Limit(more, maxLtv)
  {
    MulLe(0, less, maxLtv);
    MulLe(less, more, maxLtv);
    FloorMono(less * maxLtv, more * maxLtv, BPS);
  }

  lemma LimitSteps(value: nat, maxLtv: nat)
    requires maxLtv <= BPS
    ensures Limit(value, maxLtv) <= Limit(value + 1, maxLtv) <= Limit(value, maxLtv) + 1
  {
    assert (value + 1) * maxLtv == value * maxLtv + maxLtv;
    var l: int := Limit(value, maxLtv);
    FloorGe(value * maxLtv, BPS, l + 1);
    FloorGe((value + 1) * maxLtv, BPS, l + 2);
    FloorMono(value * maxLtv, (value + 1) * maxLtv, BPS);
  }

  /** The limit on the preview's value decides whether a debt is within the limit of the
      program's value to within a unit, and exactly without a haircut. */
  lemma LimitDecides(debt: nat, amount: nat, multiplier: nat, price: nat, haircut: nat, maxLtv: nat, decimals: nat)
    requires haircut < BPS && maxLtv <= BPS
    ensures var value := FloorValue(amount, multiplier, price, haircut, decimals);
            var limit := Limit(CollateralValue(amount, decimals, price, haircut, multiplier), maxLtv);
            && (debt <= limit ==> WithinLimit(debt, value, maxLtv))
            && (WithinLimit(debt, value, maxLtv) ==> debt <= limit + 1)
            && (haircut == 0 ==> (WithinLimit(debt, value, maxLtv) <==> debt <= limit))
  {
    hide FloorValue, Limit, WithinLimit, GrossScale, Worth;
    FloorWithinOne(amount, multiplier, price, haircut, decimals);
    if haircut == 0 {
      NothingDropped(amount, decimals, price, multiplier);
    }
    WithinIsLimit(debt, FloorValue(amount, multiplier, price, haircut, decimals), maxLtv);
    LimitSteps(CollateralValue(amount, decimals, price, haircut, multiplier), maxLtv);
  }

  /** The credit preview decides whether a loan is within the program's limit: every loan up to it
      is, no loan more than one unit above it is, and without a haircut no loan above it is. */
  lemma CreditDecides(debt: nat, amount: nat, multiplier: nat, price: nat, haircut: nat, maxLtv: nat, decimals: nat, loan: nat)
    requires haircut < BPS && maxLtv <= BPS && 0 < loan
    ensures var value := FloorValue(amount, multiplier, price, haircut, decimals);
            var credit := AvailableCredit(debt, CollateralValue(amount, decimals, price, haircut, multiplier), maxLtv);
            && (loan <= credit ==> WithinLimit(debt + loan, value, maxLtv))
            && (WithinLimit(debt + loan, value, maxLtv) ==> loan <= credit + 1)
            && (haircut == 0 ==> (WithinLimit(debt + loan, value, maxLtv) <==> loan <= credit))
  {
    hide FloorValue, CollateralValue, WithinLimit, Limit;
    LimitDecides(debt + loan, amount, multiplier, price, haircut, maxLtv, decimals);
  }

  // ----- coming back to the limit ---------------------------------------------------------

  /** Repaying what the preview says, and no more than the debt, leaves at most the previewed
      limit, and less than a cent under it if any debt is left. At that haircut it is within the
      program's limit. */
  lemma RepaySuffices(debt: nat, amount: nat, multiplier: nat, price: nat, haircut: nat, maxLtv: nat, decimals: nat)
    requires multiplier > 0 && price > 0 && haircut < BPS && 0 < maxLtv <= BPS
    ensures var repay := FixAmounts(debt, amount, multiplier, price, haircut, maxLtv, decimals).repayUsd6;
            var left := if repay < debt then debt - repay else 0;
            var limit := Limit(CollateralValue(amount, decimals, price, haircut, multiplier), maxLtv);
            && left <= limit
            && (0 < repay < debt ==> limit - CENT < left)
            && WithinLimit(left, FloorValue(amount, multiplier, price, haircut, decimals), maxLtv)
  {
    hide FloorValue, CollateralValue, WithinLimit;
    var repay := FixAmounts(debt, amount, multiplier, price, haircut, maxLtv, decimals).repayUsd6;
    LimitDecides(if repay < debt then debt - repay else 0, amount, multiplier, price, haircut, maxLtv, decimals);
  }

  /** It is in whole cents, and a cent less is not enough by the app's own reading. */
  lemma RepayIsLeast(debt: nat, amount: nat, multiplier: nat, price: nat, haircut: nat, maxLtv: nat, decimals: nat)
    requires multiplier > 0 && price > 0 && haircut < BPS && 0 < maxLtv <= BPS
    requires FixAmounts(debt, amount, multiplier, price, haircut, maxLtv, decimals).repayUsd6 > 0
    ensures var repay := FixAmounts(debt, amount, multiplier, price, haircut, maxLtv, decimals).repayUsd6;
            && repay % CENT == 0
            && CENT <= repay < debt + CENT
            && LtvBps(debt - (repay - CENT), CollateralValue(amount, decimals, price, haircut, multiplier)) > maxLtv
  {
    var value := CollateralValue(amount, decimals, price, haircut, multiplier);
    var raw := debt - Limit(value, maxLtv);
    var repay := RoundUpTo(raw, CENT);
    var left := debt - (repay - CENT);
    assert left > Limit(value, maxLtv);
    FloorGe(value * maxLtv, BPS, left);
    if value > 0 {
      CeilLe(left * BPS, value, maxLtv);
    }
  }

  /** The worth of one smallest unit of collateral is `UnitPrice / ValueScale`. */
  function UnitPrice(price: nat, multiplier: nat, haircut: nat): nat
    requires haircut < BPS
  {
    price * multiplier * (BPS - haircut)
  }

  lemma ClientBelowExact(amount: nat, decimals: nat, price: nat, haircut: nat, multiplier: nat)
    requires haircut < BPS
    ensures CollateralValue(amount, decimals, price, haircut, multiplier) * ValueScale(decimals) <= amount * UnitPrice(price, multiplier, haircut)
  {
    var client := CollateralValue(amount, decimals, price, haircut, multiplier);
    TwoFloors(Worth(amount, price, multiplier), GrossScale(decimals), BPS - haircut, BPS);
    assert Worth(amount, price, multiplier) * (BPS - haircut) == amount * UnitPrice(price, multiplier, haircut);
    FloorGe(amount * UnitPrice(price, multiplier, haircut), ValueScale(decimals), client);
  }

  /** Enough more of the collateral for `missing` units of value lifts the rounded-down total by
      at least that much. */
  lemma AddedValue(amount: nat, add: nat, unit: nat, scale: nat, had: nat, missing: nat)
    requires scale > 0 && unit > 0
    requires had * scale <= amount * unit && CeilDiv(missing * scale, unit) <= add
    ensures had + missing <= (amount + add) * unit / scale
  {
    CeilLe(missing * scale, unit, add);
    assert (amount + add) * unit == amount * unit + add * unit;
    assert (had + missing) * scale == had * scale + missing * scale;
    FloorGe((amount + add) * unit, scale, had + missing);
  }

  /** Adding the tokens the preview says brings the debt within the program's limit at that
      haircut, in spite of the preview rounding the value of the present collateral down twice. */
  lemma AddingSuffices(debt: nat, amount: nat, multiplier: nat, price: nat, haircut: nat, maxLtv: nat, decimals: nat)
    requires haircut < BPS && multiplier > 0 && price > 0 && 0 < maxLtv <= BPS
    ensures var more := amount + FixAmounts(debt, amount, multiplier, price, haircut, maxLtv, decimals).addTokens;
            WithinLimit(debt, FloorValue(more, multiplier, price, haircut, decimals), maxLtv)
  {
    var add := FixAmounts(debt, amount, multiplier, price, haircut, maxLtv, decimals).addTokens;
    var client := CollateralValue(amount, decimals, price, haircut, multiplier);
    var target := CeilDiv(debt * BPS, maxLtv);
    FixAddsEnough(debt, amount, multiplier, price, haircut, maxLtv, decimals);
    ClientBelowExact(amount, decimals, price, haircut, multiplier);
    AddedValue(amount, add, UnitPrice(price, multiplier, haircut), ValueScale(decimals), client,
               if target > client then target - client else 0);
    KeptIs(amount + add, multiplier, price, haircut);
    CeilLe(debt * BPS, maxLtv, FloorValue(amount + add, multiplier, price, haircut, decimals));
  }

  lemma KeptIs(amount: nat, multiplier: nat, price: nat, haircut: nat)
    requires haircut < BPS
    ensures Kept(amount, multiplier, price, haircut) == amount * UnitPrice(price, multiplier, haircut)
  {
  }

  /** The value a debt needs beyond the one it has. */
  function MissingValue(debt: nat, value: nat, maxLtv: nat): nat
    requires maxLtv > 0
  {
    var target := CeilDiv(debt * BPS, maxLtv);
    if target > value then target - value else 0
  }

  /** `add` is nothing if nothing is needed, and otherwise whole steps of which one less, at `unit`
      each, is worth less than the need. */
  predicate FewestSteps(add: nat, step: nat, unit: nat, need: nat)
    requires step > 0
  {
    if need == 0 then add == 0 else step <= add && add % step == 0 && (add - step) * unit < need
  }

  /** The tokens to add are in steps of the fourth decimal, or of the smallest unit of a token with
      fewer, and the fewest whose worth reaches the value missing, which is none exactly when the
      debt is within the limit of the previewed value. */
  lemma AddIsLeast(debt: nat, amount: nat, multiplier: nat, price: nat, haircut: nat, maxLtv: nat, decimals: nat)
    requires haircut < BPS && multiplier > 0 && price > 0 && 0 < maxLtv <= BPS
    ensures var add := FixAmounts(debt, amount, multiplier, price, haircut, maxLtv, decimals).addTokens;
            var client := CollateralValue(amount, decimals, price, haircut, multiplier);
            var missing := MissingValue(debt, client, maxLtv);
            && TokenUnit(decimals) > 0 && missing * ValueScale(decimals) >= 0
            && (if decimals >= 4 then TokenUnit(decimals) * 10_000 == Pow10(decimals) else TokenUnit(decimals) == 1)
            && (missing == 0 <==> WithinLimit(debt, client, maxLtv))
            && FewestSteps(add, TokenUnit(decimals), UnitPrice(price, multiplier, haircut), missing * ValueScale(decimals))
  {
    AddTokensAre(debt, amount, multiplier, price, haircut, maxLtv, decimals);
    hide CollateralValue, FixAmounts, RoundUpTo, TokenUnit, Pow10, ValueScale, UnitPrice, FewestSteps, CeilDiv;
    var client := CollateralValue(amount, decimals, price, haircut, multiplier);
    CeilLe(debt * BPS, maxLtv, client);
    FourthDecimal(decimals);
    LeastSteps(MissingValue(debt, client, maxLtv), ValueScale(decimals), UnitPrice(price, multiplier, haircut), TokenUnit(decimals));
  }

  lemma LeastSteps(missing: nat, scale: nat, unit: nat, step: nat)
    requires scale > 0 && unit > 0 && step > 0
    ensures missing * scale >= 0
    ensures FewestSteps(RoundUpTo(CeilDiv(missing * scale, unit), step), step, unit, missing * scale)
  {
    if missing > 0 {
      MulPos(missing, scale);
      StepsNeeded(missing * scale, unit, step);
    } else {
      NoneNeeded(unit, step);
    }
  }

  lemma AddTokensAre(debt: nat, amount: nat, multiplier: nat, price: nat, haircut: nat, maxLtv: nat, decimals: nat)
    requires haircut < BPS && multiplier > 0 && price > 0 && 0 < maxLtv <= BPS
    ensures UnitPrice(price, multiplier, haircut) > 0 && TokenUnit(decimals) > 0
    ensures var client := CollateralValue(amount, decimals, price, haircut, multiplier);
            var missing := MissingValue(debt, client, maxLtv);
            && missing * ValueScale(decimals) >= 0
            && FixAmounts(debt, amount, multiplier, price, haircut, maxLtv, decimals).addTokens
               == RoundUpTo(CeilDiv(missing * ValueScale(decimals), UnitPrice(price, multiplier, haircut)), TokenUnit(decimals))
  {
    UnitPricePos(price, multiplier, haircut);
    hide CollateralValue;
    var client := CollateralValue(amount, decimals, price, haircut, multiplier);
    var target := CeilDiv(debt * BPS, maxLtv);
    var missing := if target > client then target - client else 0;
    MulLe(0, missing, ValueScale(decimals));
    assert missing * Pow10(decimals) * MULTIPLIER_SCALE * BPS == missing * ValueScale(decimals);
  }

  lemma FourthDecimal(decimals: nat)
    ensures TokenUnit(decimals) > 0
    ensures if decimals >= 4 then TokenUnit(decimals) * 10_000 == Pow10(decimals) else TokenUnit(decimals) == 1
  {
    if decimals >= 4 {
      var p := Pow10(decimals - 4);
      assert Pow10(decimals) == 10 * Pow10(decimals - 1) == 100 * Pow10(decimals - 2) == 1000 * Pow10(decimals - 3) == 10_000 * p;
    }
  }

  lemma NoneNeeded(unit: nat, step: nat)
    requires unit > 0 && step > 0
    ensures RoundUpTo(CeilDiv(0, unit), step) == 0
  {
  }

  /** Rounding up twice gives the fewest steps whose worth reaches the need. */
  lemma StepsNeeded(need: nat, unit: nat, step: nat)
    requires need > 0 && unit > 0 && step > 0
    ensures var add := RoundUpTo(CeilDiv(need, unit), step);
            add % step == 0 && step <= add && (add - step) * unit < need
  {
    var raw := CeilDiv(need, unit);
    CeilLe(need, unit, 0);
    var steps := CeilDiv(raw, step);
    CeilLe(raw, step, 0);
    MultipleOf(steps, step);
    assert steps * step - step == (steps - 1) * step;
    CeilLe(raw, step, steps - 1);
    CeilLe(need, unit, steps * step - step);
  }

  lemma MultipleOf(steps: nat, step: nat)
    requires steps > 0 && step > 0
    ensures steps * step % step == 0 && step <= steps * step
  {
    MulLe(1, steps, step);
    Divide(steps * step, step);
    FloorGe(steps * step, step, steps);
    assert (steps + 1) * step == steps * step + step;
    FloorGe(steps * step, step, steps + 1);
  }

  lemma FixAddsEnough(debt: nat, amount: nat, multiplier: nat, price: nat, haircut: nat, maxLtv: nat, decimals: nat)
    requires multiplier > 0 && price > 0 && haircut < BPS && maxLtv > 0
    ensures UnitPrice(price, multiplier, haircut) > 0
    ensures var client := CollateralValue(amount, decimals, price, haircut, multiplier);
            var target := CeilDiv(debt * BPS, maxLtv);
            var missing := if target > client then target - client else 0;
            CeilDiv(missing * ValueScale(decimals), UnitPrice(price, multiplier, haircut))
            <= FixAmounts(debt, amount, multiplier, price, haircut, maxLtv, decimals).addTokens
  {
    UnitPricePos(price, multiplier, haircut);
    var client := CollateralValue(amount, decimals, price, haircut, multiplier);
    var target := CeilDiv(debt * BPS, maxLtv);
    var missing := if target > client then target - client else 0;
    assert missing * Pow10(decimals) * MULTIPLIER_SCALE * BPS == missing * ValueScale(decimals);
  }

  // ----- liquidation ------------------------------------------------------------------------

  /** A position is over the threshold exactly when its value is below this one. */
  function SafeValue(debt: nat, threshold: nat): nat
    requires threshold > 0
  {
    CeilDiv(debt * BPS, threshold)
  }

  lemma OverThresholdIsBelowSafe(debt: u64, value: u64, threshold: u16)
    requires threshold > 0
    ensures !WithinLimit(debt, value, threshold) <==> value < SafeValue(debt, threshold)
    ensures P.LtvBps(debt, value).Ok? ==> (P.LtvBps(debt, value).value > threshold <==> value < SafeValue(debt, threshold))
  {
    LtvWithin(debt, value, threshold);
    CeilLe(debt * BPS, threshold, value);
  }

  /** Every price below the previewed liquidation price puts the position over the threshold, by
      the exact comparison of its debt with the program's collateral value. */
  lemma BelowLiquidationPrice(debt: nat, amount: nat, multiplier: nat, haircut: nat, threshold: nat, decimals: nat, price: nat)
    requires multiplier > 0 && haircut < BPS
    requires price < LiquidationPrice(debt, amount, multiplier, haircut, threshold, decimals)
    ensures !WithinLimit(debt, FloorValue(amount, multiplier, price, haircut, decimals), threshold)
  {
    var value := FloorValue(amount, multiplier, price, haircut, decimals);
    var worth := amount * UnitPrice(price, multiplier, haircut);
    KeptIs(amount, multiplier, price, haircut);
    BelowThePrice(debt, amount, multiplier, haircut, threshold, decimals, price);
    FloorGe(worth, ValueScale(decimals), value);
    CheapIsOver(debt * BPS, value, threshold, ValueScale(decimals), worth);
  }

  lemma BelowThePrice(debt: nat, amount: nat, multiplier: nat, haircut: nat, threshold: nat, decimals: nat, price: nat)
    requires multiplier > 0 && haircut < BPS && price < LiquidationPrice(debt, amount, multiplier, haircut, threshold, decimals)
    ensures threshold > 0
    ensures amount * UnitPrice(price, multiplier, haircut) * threshold < debt * BPS * ValueScale(decimals)
  {
    var den := amount * multiplier * (BPS - haircut) * threshold;
    PriceScalePos(amount, multiplier, haircut, threshold);
    assert debt * BPS * BPS * Pow10(decimals) * MULTIPLIER_SCALE == debt * BPS * ValueScale(decimals);
    FloorGe(debt * BPS * ValueScale(decimals), den, price + 1);
    assert (price + 1) * den == price * den + den;
    Worthwhile(amount, price, multiplier, BPS - haircut, threshold);
  }

  lemma Worthwhile(amount: int, price: int, multiplier: int, kept: int, threshold: int)
    ensures amount * (price * multiplier * kept) * threshold == price * (amount * multiplier * kept * threshold)
  {
    assert amount * (price * multiplier * kept) == price * (amount * multiplier * kept);
  }

  /** Every price above it does not, before the value is rounded down, and with the program's value
      not by a whole unit of it. */
  lemma AboveLiquidationPrice(debt: nat, amount: nat, multiplier: nat, haircut: nat, threshold: nat, decimals: nat, price: nat)
    requires multiplier > 0 && haircut < BPS && amount > 0 && threshold > 0
    requires price > LiquidationPrice(debt, amount, multiplier, haircut, threshold, decimals)
    ensures debt * BPS * ValueScale(decimals) <= amount * UnitPrice(price, multiplier, haircut) * threshold
    ensures debt * BPS < threshold * (FloorValue(amount, multiplier, price, haircut, decimals) + 1)
  {
    var value := FloorValue(amount, multiplier, price, haircut, decimals);
    var worth := amount * UnitPrice(price, multiplier, haircut);
    KeptIs(amount, multiplier, price, haircut);
    AboveThePrice(debt, amount, multiplier, haircut, threshold, decimals, price);
    KeptPos(amount, multiplier, price, BPS - haircut);
    DivBounds(worth, ValueScale(decimals));
    DearIsSafe(debt * BPS, value, threshold, ValueScale(decimals), worth);
  }

  lemma AboveThePrice(debt: nat, amount: nat, multiplier: nat, haircut: nat, threshold: nat, decimals: nat, price: nat)
    requires multiplier > 0 && haircut < BPS && amount > 0 && threshold > 0
    requires price > LiquidationPrice(debt, amount, multiplier, haircut, threshold, decimals)
    ensures debt * BPS * ValueScale(decimals) <= amount * UnitPrice(price, multiplier, haircut) * threshold
  {
    var den := amount * multiplier * (BPS - haircut) * threshold;
    PriceScalePos(amount, multiplier, haircut, threshold);
    assert debt * BPS * BPS * Pow10(decimals) * MULTIPLIER_SCALE == debt * BPS * ValueScale(decimals);
    FloorGe(debt * BPS * ValueScale(decimals), den, price);
    Worthwhile(amount, price, multiplier, BPS - haircut, threshold);
  }

  lemma DearIsSafe(owed: nat, value: nat, threshold: nat, scale: nat, worth: nat)
    requires scale > 0 && threshold > 0 && worth < (value + 1) * scale && owed * scale <= worth * threshold
    ensures owed < threshold * (value + 1)
  {
    MulLe(worth + 1, (value + 1) * scale, threshold);
    assert owed * scale < (threshold * (value + 1)) * scale;
    if owed >= threshold * (value + 1) {
      MulLe(threshold * (value + 1), owed, scale);
    }
  }

  lemma CheapIsOver(owed: nat, value: nat, threshold: nat, scale: nat, worth: nat)
    requires scale > 0 && value * scale <= worth && worth * threshold < owed * scale
    ensures threshold * value < owed
  {
    MulLe(value * scale, worth, threshold);
    assert (value * threshold) * scale < owed * scale;
    if owed <= threshold * value {
      MulLe(owed, threshold * value, scale);
    }
  }
}
