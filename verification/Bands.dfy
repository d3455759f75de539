/** Rate bands: which loan-to-value pays which rate, and which parameter sets are accepted. */
module Bands {
  import opened Outcomes
  import opened RiskMath

  datatype RateBand = RateBand(maxLtv: u16, apr: u16) {
    predicate Live() { maxLtv != 0 && apr != 0 }
    predicate Blank() { maxLtv == 0 && apr == 0 }
  }

  const MAX_APR: int := 5000
  const MAX_THRESHOLD: int := 9000
  const MAX_BONUS: int := 2000

  /** Index i holds the lowest live band whose cap covers the loan-to-value. */
  ghost predicate FirstCover(bands: seq<RateBand>, ltv: u64, i: nat) {
    && i < |bands|
    && bands[i].Live() && ltv <= bands[i].maxLtv
    && forall j | 0 <= j < i :: bands[j].Live() ==> bands[j].maxLtv < ltv
  }

  /** Index i holds the last live band. */
  ghost predicate LastLive(bands: seq<RateBand>, i: nat) {
    i < |bands| && bands[i].Live() && forall j | i < j < |bands| :: !bands[j].Live()
  }

  /** The rate charged at a loan-to-value; zero when no band is in use. */
  function SelectApr(bands: seq<RateBand>, ltv: u64): u16 {
    if bands == [] then 0
    else if bands[0].Live() && ltv <= bands[0].maxLtv then bands[0].apr
    else
      var rest := SelectApr(bands[1..], ltv);
      if rest == 0 && bands[0].Live() then bands[0].apr else rest
  }

  /** A covered loan-to-value pays the rate of its lowest covering band. */
  lemma {:induction false} SelectCovered(bands: seq<RateBand>, ltv: u64, i: nat)
    requires FirstCover(bands, ltv, i)
    ensures SelectApr(bands, ltv) == bands[i].apr
  {
    if i > 0 {
      assert forall j | 0 <= j < i - 1 :: bands[1..][j] == bands[j + 1];
      SelectCovered(bands[1..], ltv, i - 1);
    }
  }

  /** An uncovered loan-to-value pays the rate of the last band in use. */
  lemma {:induction false} SelectUncovered(bands: seq<RateBand>, ltv: u64, i: nat)
    requires LastLive(bands, i)
    requires forall j | 0 <= j < |bands| :: bands[j].Live() ==> bands[j].maxLtv < ltv
    ensures SelectApr(bands, ltv) == bands[i].apr
  {
    if i > 0 {
      assert forall j | 0 <= j < |bands| - 1 :: bands[1..][j] == bands[j + 1];
      SelectUncovered(bands[1..], ltv, i - 1);
    } else {
      SelectNone(bands[1..], ltv);
    }
  }

  lemma {:induction false} SelectNone(bands: seq<RateBand>, ltv: u64)
    requires forall j | 0 <= j < |bands| :: !bands[j].Live()
    ensures SelectApr(bands, ltv) == 0
  {
    if bands != [] {
      SelectNone(bands[1..], ltv);
    }
  }

  function Or(found: u16, selected: u16): u16 {
    if found == 0 then selected else found
  }

  /** The scan as the program runs it, keeping the latest live rate in `selected`. */
  method SelectAprBps(bands: seq<RateBand>, ltv: u64) returns (apr: u16)
    ensures apr == SelectApr(bands, ltv)
  {
    var selected: u16 := 0;
    for i := 0 to |bands|
      invariant SelectApr(bands, ltv) == Or(SelectApr(bands[i..], ltv), selected)
    {
      var band := bands[i];
      assert bands[i..][0] == band && bands[i..][1..] == bands[i + 1..];
      if band.maxLtv == 0 || band.apr == 0 {
        continue;
      }
      selected := band.apr;
      if ltv <= band.maxLtv {
        return band.apr;
      }
    }
    return selected;
  }

  /** Every band is blank or carries a legal rate, and the caps of the bands in use rise. */
  ghost predicate RisingBands(bands: seq<RateBand>) {
    && (forall i | 0 <= i < |bands| :: bands[i].Blank() || (bands[i].Live() && bands[i].apr <= MAX_APR))
    && (forall i, j | 0 <= i < j < |bands| && bands[i].Live() && bands[j].Live() :: bands[i].maxLtv < bands[j].maxLtv)
  }

  /** What the administrator may set: the limit is below the threshold, and the bands are
      rising and reach at least to the limit. */
  ghost predicate ValidRisk(maxLtv: u16, liqThreshold: u16, liqBonus: u16, haircut: u16, bands: seq<RateBand>) {
    && 0 < maxLtv < liqThreshold <= MAX_THRESHOLD
    && liqBonus <= MAX_BONUS
    && haircut < BPS
    && RisingBands(bands)
    && exists i | 0 <= i < |bands| :: bands[i].Live() && maxLtv <= bands[i].maxLtv
  }

  method ValidateRiskParams(maxLtv: u16, liqThreshold: u16, liqBonus: u16, haircut: u16, bands: seq<RateBand>)
    returns (outcome: Check)
    ensures outcome == if ValidRisk(maxLtv, liqThreshold, liqBonus, haircut, bands) then Pass else Refuse(InvalidRiskParams)
  {
    if !(maxLtv > 0 && maxLtv < liqThreshold && liqThreshold <= MAX_THRESHOLD) {
      return Refuse(InvalidRiskParams);
    }
    if liqBonus > MAX_BONUS || haircut >= BPS {
      return Refuse(InvalidRiskParams);
    }
    var prevMax: u16 := 0;
    var lastApr: u16 := 0;
    ghost var last := -1;
    for i := 0 to |bands|
      invariant -1 <= last < i
      invariant RisingBands(bands[..i])
      invariant forall j | 0 <= j < i && bands[j].Live() :: bands[j].maxLtv <= prevMax
      invariant if last < 0 then prevMax == 0 && lastApr == 0
                else bands[last].Live() && bands[last].maxLtv == prevMax && bands[last].apr == lastApr
      invariant last < 0 ==> forall j | 0 <= j < i :: !bands[j].Live()
    {
      var band := bands[i];
      assert bands[..i + 1][i] == band && forall j | 0 <= j < i :: bands[..i + 1][j] == bands[..i][j];
      if band.maxLtv == 0 && band.apr == 0 {
        continue;
      }
      if !(band.apr > 0 && band.apr <= MAX_APR) {
        assert !RisingBands(bands);
        return Refuse(InvalidRiskParams);
      }
      if !(band.maxLtv > prevMax) {
        assert !RisingBands(bands);
        return Refuse(InvalidRiskParams);
      }
      prevMax, lastApr, last := band.maxLtv, band.apr, i;
    }
    assert bands[..|bands|] == bands;
    if !(lastApr > 0) || !(prevMax >= maxLtv) {
      return Refuse(InvalidRiskParams);
    }
    return Pass;
  }

  /** Accepted parameters cover every loan-to-value up to the limit with exactly one lowest
      band, always charge a rate between 1 and 5000, and above every cap charge the last one. */
  lemma AcceptedBandsCover(maxLtv: u16, liqThreshold: u16, liqBonus: u16, haircut: u16, bands: seq<RateBand>, ltv: u64)
    requires ValidRisk(maxLtv, liqThreshold, liqBonus, haircut, bands)
    ensures 1 <= SelectApr(bands, ltv) <= MAX_APR
    ensures if ltv <= maxLtv || exists i: nat :: FirstCover(bands, ltv, i)
            then exists i: nat :: FirstCover(bands, ltv, i) && SelectApr(bands, ltv) == bands[i].apr
            else exists i: nat :: LastLive(bands, i) && SelectApr(bands, ltv) == bands[i].apr
  {
    var top :| 0 <= top < |bands| && bands[top].Live() && maxLtv <= bands[top].maxLtv;
    var i := FindCover(bands, ltv, 0);
    if i < |bands| {
      assert FirstCover(bands, ltv, i);
      SelectCovered(bands, ltv, i);
    } else {
      var last := FindLast(bands, |bands|, top);
      assert LastLive(bands, last);
      SelectUncovered(bands, ltv, last);
    }
  }

  /** The bounds on the parameters are reached, and one beyond each is refused. */
  lemma BoundsReached()
    ensures ValidRisk(8999, 9000, 2000, 9999, [RateBand(8999, 5000)])
    ensures !ValidRisk(8999, 9001, 2000, 9999, [RateBand(8999, 5000)])
    ensures !ValidRisk(9000, 9000, 2000, 9999, [RateBand(9000, 5000)])
    ensures !ValidRisk(0, 9000, 2000, 9999, [RateBand(8999, 5000)])
    ensures !ValidRisk(8999, 9000, 2001, 9999, [RateBand(8999, 5000)])
    ensures !ValidRisk(8999, 9000, 2000, 10_000, [RateBand(8999, 5000)])
    ensures !ValidRisk(8999, 9000, 2000, 9999, [RateBand(8999, 5001)])
    ensures !ValidRisk(8999, 9000, 2000, 9999, [RateBand(8998, 5000)])
    ensures !ValidRisk(8999, 9000, 2000, 9999, [RateBand(8999, 5000), RateBand(8999, 5000)])
  {
    assert [RateBand(8999, 5000)][0].Live();
    assert forall i | 0 <= i < 1 :: [RateBand(8999, 5001)][i] == RateBand(8999, 5001);
    assert [RateBand(8999, 5001)][0].apr == 5001;
    var twice := [RateBand(8999, 5000), RateBand(8999, 5000)];
    assert twice[0].Live() && twice[1].Live() && !(twice[0].maxLtv < twice[1].maxLtv);
  }

  lemma FindCover(bands: seq<RateBand>, ltv: u64, from: nat) returns (i: nat)
    requires from <= |bands|
    ensures from <= i <= |bands|
    ensures forall j | from <= j < i :: bands[j].Live() ==> bands[j].maxLtv < ltv
    ensures i < |bands| ==> bands[i].Live() && ltv <= bands[i].maxLtv
    decreases |bands| - from
  {
    i := from;
    if i < |bands| && !(bands[i].Live() && ltv <= bands[i].maxLtv) {
      i := FindCover(bands, ltv, from + 1);
    }
  }

  lemma FindLast(bands: seq<RateBand>, upto: nat, live: nat) returns (i: nat)
    requires live < upto <= |bands| && bands[live].Live()
    ensures live <= i < upto && bands[i].Live() && forall j | i < j < upto :: !bands[j].Live()
  {
    i := upto - 1;
    if !bands[i].Live() {
      i := FindLast(bands, upto - 1, live);
    }
  }

  // ----- the rate of a debt ----------------------------------------------------------------------

  /** Index i holds the lowest live band whose cap the debt keeps to, compared without rounding. */
  ghost predicate CoversDebt(bands: seq<RateBand>, debt: nat, value: nat, i: nat) {
    && i < |bands|
    && bands[i].Live() && WithinLimit(debt, value, bands[i].maxLtv)
    && forall j | 0 <= j < i :: bands[j].Live() ==> !WithinLimit(debt, value, bands[j].maxLtv)
  }

  /** The rate of the lowest band in use that covers the debt, or of the last band when none does. */
  ghost predicate RateOf(apr: u16, bands: seq<RateBand>, debt: nat, value: nat) {
    if exists i: nat :: CoversDebt(bands, debt, value, i)
    then exists i: nat :: CoversDebt(bands, debt, value, i) && apr == bands[i].apr
    else exists i: nat :: LastLive(bands, i) && apr == bands[i].apr
  }

  /** What is selected at a debt's loan-to-value is the rate of the debt. */
  lemma SelectIsRateOf(maxLtv: u16, liqThreshold: u16, liqBonus: u16, haircut: u16, bands: seq<RateBand>, debt: u64, value: u64)
    requires ValidRisk(maxLtv, liqThreshold, liqBonus, haircut, bands) && LtvBps(debt, value).Ok?
    ensures RateOf(SelectApr(bands, LtvBps(debt, value).value), bands, debt, value)
  {
    var ltv := LtvBps(debt, value).value;
    AcceptedBandsCover(maxLtv, liqThreshold, liqBonus, haircut, bands, ltv);
    forall i: nat
      ensures FirstCover(bands, ltv, i) <==> CoversDebt(bands, debt, value, i)
    {
      SameCover(bands, debt, value, i);
    }
  }

  lemma SameCover(bands: seq<RateBand>, debt: u64, value: u64, i: nat)
    requires LtvBps(debt, value).Ok?
    ensures FirstCover(bands, LtvBps(debt, value).value, i) <==> CoversDebt(bands, debt, value, i)
  {
    hide LtvBps, WithinLimit;
    forall j | 0 <= j < |bands|
      ensures LtvBps(debt, value).value <= bands[j].maxLtv <==> WithinLimit(debt, value, bands[j].maxLtv)
    {
      LtvWithin(debt, value, bands[j].maxLtv);
    }
  }
}
