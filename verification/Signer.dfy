/** The price signer's decision for one symbol: which readings may be used, and whether they agree
    well enough to post. Prices are exact reals and times are milliseconds. */
module Signer {
  import opened Outcomes

  const AGREEMENT_BPS: int := 200
  const MIN_JUPITER_LIQUIDITY: real := 100_000.0
  const MAX_STOCK_AGE: int := 900_000
  const MAX_PYTH_AGE: int := 300_000
  const MAX_PYTH_CONF_BPS: real := 100.0

  datatype Source = XStocks | Backpack | Tessera | PreStocks | Jupiter | Pyth

  datatype Candidate = Candidate(source: Source, price: real)

  datatype PythReading = PythReading(price: real, confBps: real, publishTime: int)

  /** `updatedAt` is absent when the reading carries no time or one that cannot be read. */
  datatype JupiterPrice = JupiterPrice(usdPrice: real, liquidity: real, updatedAt: Option<int>)

  datatype Reading = Reading(
    primary: Option<Candidate>,
    jupiter: Option<JupiterPrice>,
    pyth: Option<PythReading>,
    marketOpen: Option<bool>,
    halted: bool)

  datatype Reason = DemoOverride | Halted | PrimaryUnavailable | StaleStock | MarketClosed | Disagree(worst: int)

  datatype Note = NoNote | PythOnly | PrimaryOnly | DroppedOutlier(source: Source, bps: int)

  datatype Decision =
    | Post(price: real, priceE6: int, spread: Option<int>, used: seq<Candidate>, note: Note)
    | Skip(reason: Reason)

  // ----- arithmetic -----------------------------------------------------------------

  /** Rounding to the nearest integer, halves up. */
  function Round(x: real): int { (x + 0.5).Floor }

  function Abs(x: real): real { if x < 0.0 then -x else x }

  /** The disagreement of two prices against their midpoint, in basis points. */
  function SpreadBps(a: real, b: real): int
    requires a > 0.0 && b > 0.0
  {
    Round(Abs(a - b) / ((a + b) / 2.0) * 10_000.0)
  }

  function Total(c: seq<Candidate>): real {
    if c == [] then 0.0 else Total(c[..|c| - 1]) + c[|c| - 1].price
  }

  function Mean(c: seq<Candidate>): real
    requires c != []
  {
    Total(c) / (|c| as real)
  }

  predicate Positive(c: seq<Candidate>) { forall i | 0 <= i < |c| :: c[i].price > 0.0 }

  function Spread(c: seq<Candidate>, i: nat, j: nat): int
    requires Positive(c) && i < |c| && j < |c|
  {
    SpreadBps(c[i].price, c[j].price)
  }

  predicate Agree(c: seq<Candidate>, i: nat, j: nat)
    requires Positive(c) && i < |c| && j < |c|
  {
    Spread(c, i, j) <= AGREEMENT_BPS
  }

  // ----- readings -------------------------------------------------------------------

  predicate UsablePyth(r: Option<PythReading>, now: int) {
    r.Some? && r.value.price > 0.0 && now - r.value.publishTime <= MAX_PYTH_AGE && r.value.confBps <= MAX_PYTH_CONF_BPS
  }

  predicate UsablePrimary(r: Reading) { r.primary.Some? && r.primary.value.price > 0.0 }

  predicate UsableJupiter(r: Reading) {
    r.jupiter.Some? && r.jupiter.value.usdPrice > 0.0 && r.jupiter.value.liquidity >= MIN_JUPITER_LIQUIDITY
  }

  /** Why nothing is posted whatever the prices say. */
  function Gate(r: Reading, demo: bool, now: int): Option<Reason> {
    if demo then Some(DemoOverride)
    else if r.halted then Some(Halted)
    else if !UsablePrimary(r) && !UsablePyth(r.pyth, now) then Some(PrimaryUnavailable)
    else if r.jupiter.Some? && r.jupiter.value.updatedAt.Some? && now - r.jupiter.value.updatedAt.value > MAX_STOCK_AGE then Some(StaleStock)
    else if r.marketOpen == Some(false) then Some(MarketClosed)
    else None
  }

  function Candidates(r: Reading, now: int): (c: seq<Candidate>)
    ensures Positive(c) && |c| <= 3
  {
    (if UsablePrimary(r) then [r.primary.value] else [])
    + (if UsableJupiter(r) then [Candidate(Jupiter, r.jupiter.value.usdPrice)] else [])
    + (if UsablePyth(r.pyth, now) then [Candidate(Pyth, r.pyth.value.price)] else [])
  }

  // ----- agreement ------------------------------------------------------------------

  ghost predicate AllAgree(c: seq<Candidate>)
    requires Positive(c)
  {
    forall i: nat, j: nat | i < j < |c| :: Agree(c, i, j)
  }

  ghost predicate SomeAgree(c: seq<Candidate>)
    requires Positive(c)
  {
    exists i: nat, j: nat :: i < j < |c| && Agree(c, i, j)
  }

  /** The widest disagreement of any two. */
  ghost predicate IsWorst(c: seq<Candidate>, worst: int)
    requires Positive(c)
  {
    && (forall i: nat, j: nat | i < j < |c| :: Spread(c, i, j) <= worst)
    && exists i: nat, j: nat :: i < j < |c| && Spread(c, i, j) == worst
  }

  /** Of the pairs in reading order, the first of those that agree best. */
  ghost predicate IsTightest(c: seq<Candidate>, i: nat, j: nat)
    requires Positive(c)
  {
    && i < j < |c|
    && Agree(c, i, j)
    && (forall k: nat, l: nat | k < l < |c| :: Spread(c, i, j) <= Spread(c, k, l))
    && (forall k: nat, l: nat | k < l < |c| && (k < i || (k == i && l < j)) :: Spread(c, i, j) < Spread(c, k, l))
  }

  /** Of three, the one that is neither of two. */
  function Third(i: nat, j: nat): nat
    requires i < j < 3
  {
    3 - i - j
  }

  lemma SpreadNonNegative(a: real, b: real)
    requires a > 0.0 && b > 0.0
    ensures SpreadBps(a, b) >= 0
  {
    assert Abs(a - b) / ((a + b) / 2.0) >= 0.0;
  }

  method MaxSpread(c: seq<Candidate>) returns (worst: int)
    requires Positive(c)
    ensures if |c| < 2 then worst == 0 else IsWorst(c, worst)
  {
    hide SpreadBps;
    worst := 0;
    for i := 0 to |c|
      invariant worst >= 0
      invariant forall k: nat, l: nat | k < i && k < l < |c| :: Spread(c, k, l) <= worst
      invariant i > 0 && |c| >= 2 ==> exists k: nat, l: nat :: k < l < |c| && Spread(c, k, l) == worst
      invariant i == 0 || |c| < 2 ==> worst == 0
    {
      for j := i + 1 to |c|
        invariant worst >= 0
        invariant forall k: nat, l: nat | k < i && k < l < |c| :: Spread(c, k, l) <= worst
        invariant forall l: nat | i < l < j :: Spread(c, i, l) <= worst
        invariant |c| >= 2 && (i > 0 || j > 1) ==> exists k: nat, l: nat :: k < l < |c| && Spread(c, k, l) == worst
        invariant |c| < 2 || (i == 0 && j == 1) ==> worst == 0
      {
        SpreadNonNegative(c[i].price, c[j].price);
        var bps := SpreadBps(c[i].price, c[j].price);
        assert bps == Spread(c, i, j);
        if bps > worst {
          worst := bps;
        }
      }
    }
  }

  lemma WorstTells(c: seq<Candidate>, worst: int)
    requires Positive(c) && IsWorst(c, worst)
    ensures worst <= AGREEMENT_BPS <==> AllAgree(c)
  {
    hide SpreadBps;
    var i: nat, j: nat :| i < j < |c| && Spread(c, i, j) == worst;
    if AllAgree(c) {
      assert Agree(c, i, j);
    }
  }

  datatype Pair = Pair(i: nat, j: nat, dropped: nat, bps: int)

  /** The best agreeing pair among those before (i, j) in reading order. */
  ghost predicate BestSoFar(c: seq<Candidate>, p: Pair, i: nat, j: nat)
    requires Positive(c) && |c| == 3
  {
    && p.i < p.j < |c| && (p.i < i || (p.i == i && p.j < j))
    && p.bps == Spread(c, p.i, p.j) <= AGREEMENT_BPS
    && p.dropped == Third(p.i, p.j)
    && (forall k: nat, l: nat | k < l < |c| && (k < i || (k == i && l < j)) :: p.bps <= Spread(c, k, l))
    && (forall k: nat, l: nat | k < l < |c| && (k < p.i || (k == p.i && l < p.j)) :: p.bps < Spread(c, k, l))
  }

  lemma StillBest(c: seq<Candidate>, p: Pair, i: nat, j: nat)
    requires Positive(c) && |c| == 3 && i < j < |c| && BestSoFar(c, p, i, j) && p.bps <= Spread(c, i, j)
    ensures BestSoFar(c, p, i, j + 1)
  {
    hide Spread;
  }

  lemma NewBest(c: seq<Candidate>, best: Option<Pair>, i: nat, j: nat)
    requires Positive(c) && |c| == 3 && i < j < |c| && Agree(c, i, j)
    requires match best
             case Some(p) => BestSoFar(c, p, i, j) && Spread(c, i, j) < p.bps
             case None => forall k: nat, l: nat | k < l < |c| && (k < i || (k == i && l < j)) :: !Agree(c, k, l)
    ensures BestSoFar(c, Pair(i, j, Third(i, j), Spread(c, i, j)), i, j + 1)
  {
    hide SpreadBps;
    forall k: nat, l: nat | k < l < |c| && (k < i || (k == i && l < j))
      ensures Spread(c, i, j) < Spread(c, k, l)
    {
      if best.None? {
        assert !Agree(c, k, l);
      }
    }
  }

  method AgreeingPair(c: seq<Candidate>) returns (best: Option<Pair>)
    requires Positive(c) && |c| == 3
    ensures best.None? <==> !SomeAgree(c)
    ensures best.Some? ==> IsTightest(c, best.value.i, best.value.j)
                           && best.value.dropped == Third(best.value.i, best.value.j)
                           && best.value.bps == Spread(c, best.value.i, best.value.j)
  {
    hide SpreadBps;
    best := None;
    for i := 0 to |c|
      invariant best.None? ==> forall k: nat, l: nat | k < i && k < l < |c| :: !Agree(c, k, l)
      invariant best.Some? ==> BestSoFar(c, best.value, i, 0)
    {
      for j := i + 1 to |c|
        invariant best.None? ==> forall k: nat, l: nat | k < l < |c| && (k < i || (k == i && l < j)) :: !Agree(c, k, l)
        invariant best.Some? ==> BestSoFar(c, best.value, i, j)
      {
        var bps := SpreadBps(c[i].price, c[j].price);
        assert bps == Spread(c, i, j);
        if bps > AGREEMENT_BPS {
          if best.Some? { StillBest(c, best.value, i, j); }
          continue;
        }
        if best.Some? && bps >= best.value.bps {
          StillBest(c, best.value, i, j);
          continue;
        }
        var dropped := 0;
        while dropped == i || dropped == j
          invariant 0 <= dropped <= Third(i, j)
          decreases 3 - dropped
        {
          dropped := dropped + 1;
        }
        assert dropped == Third(i, j);
        NewBest(c, best, i, j);
        best := Some(Pair(i, j, dropped, bps));
      }
    }
    if best.Some? {
      assert Agree(c, best.value.i, best.value.j);
    }
  }

  // ----- the decision ----------------------------------------------------------------

  function Posted(used: seq<Candidate>, spread: Option<int>, note: Note): Decision
    requires used != []
  {
    Post(Mean(used), Round(Mean(used) * 1_000_000.0), spread, used, note)
  }

  /** What `d` must be for a reading. */
  ghost predicate Decides(r: Reading, demo: bool, now: int, d: Decision) {
    var c := Candidates(r, now);
    if Gate(r, demo, now).Some? then d == Skip(Gate(r, demo, now).value)
    else if |c| == 1 then d == Posted(c, None, if c[0].source == Pyth then PythOnly else PrimaryOnly)
    else if |c| == 0 then false
    else if AllAgree(c) then d.Post? && d.spread.Some? && IsWorst(c, d.spread.value) && d == Posted(c, d.spread, NoNote)
    else if |c| == 3 && SomeAgree(c) then
      exists i: nat, j: nat :: IsTightest(c, i, j) && d == DropThird(c, i, j)
    else d.Skip? && d.reason.Disagree? && IsWorst(c, d.reason.worst)
  }

  function DropThird(c: seq<Candidate>, i: nat, j: nat): Decision
    requires Positive(c) && |c| == 3 && i < j < 3
  {
    var kept := [c[i], c[j]];
    MeanPositive(kept);
    Posted(kept, Some(Spread(c, i, j)),
           DroppedOutlier(c[Third(i, j)].source, SpreadBps(c[Third(i, j)].price, Mean(kept))))
  }

  lemma MeanPositive(c: seq<Candidate>)
    requires |c| == 2 && Positive(c)
    ensures Mean(c) == (c[0].price + c[1].price) / 2.0 > 0.0
  {
    assert c[..1] == [c[0]];
    assert Total(c) == Total(c[..1]) + c[1].price;
    assert Total(c[..1]) == Total([]) + c[0].price;
  }

  method Decide(r: Reading, demo: bool, now: int) returns (d: Decision)
    ensures Decides(r, demo, now, d)
  {
    hide SpreadBps, Round, Mean, Total, Spread, IsWorst, AllAgree, SomeAgree, DropThird, Third;
    if demo {
      return Skip(DemoOverride);
    }
    if r.halted {
      return Skip(Halted);
    }
    var pyth := if UsablePyth(r.pyth, now) then r.pyth else None;
    if r.primary.None? || !(r.primary.value.price > 0.0) {
      if pyth.None? {
        return Skip(PrimaryUnavailable);
      }
    }
    if r.jupiter.Some? && r.jupiter.value.updatedAt.Some? && now - r.jupiter.value.updatedAt.value > MAX_STOCK_AGE {
      return Skip(StaleStock);
    }
    if r.marketOpen == Some(false) {
      return Skip(MarketClosed);
    }
    var candidates: seq<Candidate> := [];
    if r.primary.Some? && r.primary.value.price > 0.0 {
      candidates := candidates + [r.primary.value];
    }
    if r.jupiter.Some? && r.jupiter.value.usdPrice > 0.0 && r.jupiter.value.liquidity >= MIN_JUPITER_LIQUIDITY {
      candidates := candidates + [Candidate(Jupiter, r.jupiter.value.usdPrice)];
    }
    if pyth.Some? {
      candidates := candidates + [Candidate(Pyth, pyth.value.price)];
    }
    assert candidates == Candidates(r, now);
    if |candidates| == 1 {
      return Posted(candidates, None, if candidates[0].source == Pyth then PythOnly else PrimaryOnly);
    }
    var worst := MaxSpread(candidates);
    assert IsWorst(candidates, worst);
    WorstTells(candidates, worst);
    if worst <= AGREEMENT_BPS {
      return Posted(candidates, Some(worst), NoNote);
    }
    if |candidates| >= 3 {
      var pair := AgreeingPair(candidates);
      if pair.Some? {
        return DropThird(candidates, pair.value.i, pair.value.j);
      }
    }
    return Skip(Disagree(worst));
  }

  // ----- what a decision promises ------------------------------------------------------

  /** Past the gates there is always a candidate, so "no usable price source" is never the answer. */
  lemma AlwaysACandidate(r: Reading, demo: bool, now: int)
    requires Gate(r, demo, now).None?
    ensures 1 <= |Candidates(r, now)| <= 3
  {
  }

  /** Every reading has exactly one decision. */
  lemma DecisionUnique(r: Reading, demo: bool, now: int, d: Decision, e: Decision)
    requires Decides(r, demo, now, d) && Decides(r, demo, now, e)
    ensures d == e
  {
  }

  /** With two or three candidates past the gates, a price is posted exactly when some two agree. */
  lemma PostsWhenSomeAgree(r: Reading, demo: bool, now: int, d: Decision)
    requires Decides(r, demo, now, d) && Gate(r, demo, now).None? && |Candidates(r, now)| >= 2
    ensures d.Post? <==> SomeAgree(Candidates(r, now))
  {
    hide Spread;
    var c := Candidates(r, now);
    if AllAgree(c) {
      assert Agree(c, 0, 1);
    }
  }

  /** Whatever is averaged agrees pairwise, comes from the candidates, and a posted price lies
      between any bounds on the prices used. */
  lemma PostedAgrees(r: Reading, demo: bool, now: int, d: Decision, lo: real, hi: real)
    requires Decides(r, demo, now, d) && d.Post?
    ensures d.used != [] && Positive(d.used) && AllAgree(d.used)
    ensures forall k | 0 <= k < |d.used| :: d.used[k] in Candidates(r, now)
    ensures (forall k | 0 <= k < |d.used| :: lo <= d.used[k].price <= hi) ==> lo <= d.price <= hi
  {
    hide SpreadBps;
    if forall k | 0 <= k < |d.used| :: lo <= d.used[k].price <= hi {
      MeanBetween(d.used, lo, hi);
    }
  }

  lemma {:induction false} TotalBetween(c: seq<Candidate>, lo: real, hi: real)
    requires forall k | 0 <= k < |c| :: lo <= c[k].price <= hi
    ensures lo * (|c| as real) <= Total(c) <= hi * (|c| as real)
  {
    if c != [] {
      TotalBetween(c[..|c| - 1], lo, hi);
      assert |c| as real == ((|c| - 1) as real) + 1.0;
    }
  }

  lemma MeanBetween(c: seq<Candidate>, lo: real, hi: real)
    requires c != [] && forall k | 0 <= k < |c| :: lo <= c[k].price <= hi
    ensures lo <= Mean(c) <= hi
  {
    TotalBetween(c, lo, hi);
    QuotientBetween(Total(c), |c| as real, lo, hi);
  }

  lemma QuotientBetween(t: real, n: real, lo: real, hi: real)
    requires n > 0.0 && lo * n <= t <= hi * n
    ensures lo <= t / n <= hi
  {
    assert t / n * n == t;
  }

  /** The gates open exactly when no demonstration price is in force, the issuer has not halted the
      stock, it or Pyth has a usable price, no stock data is older than a quarter of an hour and the
      market is not known to be closed. */
  lemma GatesOpen(r: Reading, demo: bool, now: int)
    ensures Gate(r, demo, now).None? <==>
              && !demo && !r.halted
              && ((r.primary.Some? && r.primary.value.price > 0.0) || UsablePyth(r.pyth, now))
              && (r.jupiter.Some? && r.jupiter.value.updatedAt.Some? ==> now <= r.jupiter.value.updatedAt.value + 15 * 60 * 1000)
              && r.marketOpen != Some(false)
  {
  }

  /** A skipped post names the first of these causes that applies. */
  lemma SkipsNameTheirCause(r: Reading, demo: bool, now: int, d: Decision)
    requires Decides(r, demo, now, d) && d.Skip?
    ensures match d.reason
            case DemoOverride => demo
            case Halted => r.halted && !demo
            case PrimaryUnavailable => !(r.primary.Some? && r.primary.value.price > 0.0) && !UsablePyth(r.pyth, now)
            case StaleStock => r.jupiter.Some? && r.jupiter.value.updatedAt.Some? && now > r.jupiter.value.updatedAt.value + 15 * 60 * 1000
            case MarketClosed => r.marketOpen == Some(false)
            case Disagree(worst) => worst > AGREEMENT_BPS && |Candidates(r, now)| >= 2 && IsWorst(Candidates(r, now), worst)
  {
    hide SpreadBps, SomeAgree;
    if d.reason.Disagree? {
      WorstTells(Candidates(r, now), d.reason.worst);
    }
  }

  /** A post says how it came about: one source has no spread and is marked as the only one, all
      of several are unmarked, and the spread is the widest of those used. */
  lemma NotesSayWhich(r: Reading, demo: bool, now: int, d: Decision)
    requires Decides(r, demo, now, d) && d.Post?
    ensures |d.used| == 1 <==> d.spread.None?
    ensures d.note.PythOnly? <==> |d.used| == 1 && d.used[0].source == Pyth
    ensures d.note.PrimaryOnly? <==> |d.used| == 1 && d.used[0].source != Pyth
    ensures d.note.NoNote? <==> |d.used| >= 2 && d.used == Candidates(r, now)
    ensures Positive(d.used) && (d.spread.Some? ==> IsWorst(d.used, d.spread.value))
  {
    hide SpreadBps, Round, Mean;
    var c := Candidates(r, now);
    if d.note.DroppedOutlier? {
      var i: nat, j: nat :| IsTightest(c, i, j) && d == DropThird(c, i, j);
      assert d.used == [c[i], c[j]];
      assert forall k: nat, l: nat | k < l < 2 :: k == 0 && l == 1 && Spread(d.used, k, l) == Spread(c, i, j);
      assert Spread(d.used, 0, 1) == d.spread.value;
    }
  }

  /** The candidates are the issuer's positive price, Jupiter's with a hundred thousand dollars of
      liquidity, and Pyth's of the last five minutes within one percent, in that order. */
  lemma CandidatesExactly(r: Reading, now: int)
    ensures var issuer := r.primary.Some? && r.primary.value.price > 0.0;
            var jupiter := r.jupiter.Some? && r.jupiter.value.usdPrice > 0.0 && r.jupiter.value.liquidity >= 100_000.0;
            var pyth := r.pyth.Some? && r.pyth.value.price > 0.0 && now <= r.pyth.value.publishTime + 5 * 60 * 1000 && r.pyth.value.confBps <= 100.0;
            var c := Candidates(r, now);
            var j, p := if issuer then 1 else 0, (if issuer then 1 else 0) + if jupiter then 1 else 0;
            && |c| == p + (if pyth then 1 else 0)
            && (issuer ==> c[0] == r.primary.value)
            && (jupiter ==> c[j] == Candidate(Jupiter, r.jupiter.value.usdPrice))
            && (pyth ==> c[p] == Candidate(Pyth, r.pyth.value.price))
  {
  }

  lemma MeanIsAverage(c: seq<Candidate>)
    requires 1 <= |c| <= 3
    ensures Mean(c) * (|c| as real) == c[0].price + (if |c| > 1 then c[1].price else 0.0) + (if |c| > 2 then c[2].price else 0.0)
  {
    assert Total(c[..0]) == 0.0;
    assert c[..1][..0] == c[..0] && Total(c[..1]) == c[0].price;
    if |c| > 1 {
      assert c[..2][..1] == c[..1] && Total(c[..2]) == Total(c[..1]) + c[1].price;
    }
    if |c| > 2 {
      assert c[..3][..2] == c[..2] && Total(c[..3]) == Total(c[..2]) + c[2].price;
    }
    assert c[..|c|] == c;
    Undivide(Total(c), |c| as real);
  }

  lemma Undivide(x: real, n: real)
    requires n > 0.0
    ensures x / n * n == x
  {
  }

  /** The nearest integer, the higher of two. */
  lemma RoundIsNearest(x: real)
    ensures (Round(x) as real) - 0.5 <= x < (Round(x) as real) + 0.5
  {
  }

  /** What is posted is the average of the sources used, and the same in millionths of a dollar to
      the nearest. */
  lemma PostedIsAverage(r: Reading, demo: bool, now: int, d: Decision)
    requires Decides(r, demo, now, d) && d.Post?
    ensures 1 <= |d.used| <= 3
    ensures var c := d.used;
            d.price * (|c| as real) == c[0].price + (if |c| > 1 then c[1].price else 0.0) + (if |c| > 2 then c[2].price else 0.0)
    ensures (d.priceE6 as real) - 0.5 <= d.price * 1_000_000.0 < (d.priceE6 as real) + 0.5
  {
    hide SpreadBps, Round, Mean, Total, IsWorst, IsTightest, AllAgree, SomeAgree;
    MeanIsAverage(d.used);
    RoundIsNearest(d.price * 1_000_000.0);
  }

  /** The spread of two prices is their difference against their midpoint in basis points, to the
      nearest. */
  lemma SpreadIs(a: real, b: real)
    requires a > 0.0 && b > 0.0
    ensures var s := SpreadBps(a, b) as real;
            (s - 0.5) * (a + b) <= 20_000.0 * Abs(a - b) < (s + 0.5) * (a + b)
  {
    var gap, mid := Abs(a - b), (a + b) / 2.0;
    Undivide(gap, mid);
    RoundIsNearest(gap / mid * 10_000.0);
    assert SpreadBps(a, b) == Round(gap / mid * 10_000.0);
    hide SpreadBps, Round, Abs;
    var s := SpreadBps(a, b) as real;
    Midpoints(s - 0.5, s + 0.5, gap / mid * 10_000.0, a + b, gap / mid, mid);
  }

  lemma Midpoints(low: real, high: real, y: real, sum: real, x: real, mid: real)
    requires low <= y < high && y == x * 10_000.0 && sum == mid + mid && mid > 0.0
    ensures low * sum <= 20_000.0 * (x * mid) < high * sum
  {
    TimesPositive(low, y, high, sum);
    assert y * sum == 20_000.0 * (x * mid);
  }

  lemma TimesPositive(a: real, b: real, c: real, k: real)
    requires a <= b < c && k > 0.0
    ensures a * k <= b * k < c * k
  {
  }

  /** The comment says Pyth never prices on its own. It does, exactly when the gates pass and it
      is the only usable reading. */
  lemma PythAlone(r: Reading, demo: bool, now: int, d: Decision)
    requires Decides(r, demo, now, d)
    requires r.primary.Some? ==> r.primary.value.source != Pyth
    ensures d.Post? && (forall k | 0 <= k < |d.used| :: d.used[k].source == Pyth) <==>
              Gate(r, demo, now).None? && !UsablePrimary(r) && !UsableJupiter(r)
  {
    hide SpreadBps, Round, Mean, IsWorst, AllAgree, SomeAgree, Spread;
    var c := Candidates(r, now);
    if d.Post? && |c| >= 2 {
      assert forall k | 0 <= k < |c| - 1 :: c[k].source != Pyth;
      assert d.used[0].source != Pyth;
    }
  }

  lemma OnePosted()
    ensures Posted([Candidate(Pyth, 100.0)], None, PythOnly) == Post(100.0, 100_000_000, None, [Candidate(Pyth, 100.0)], PythOnly)
  {
    var c := [Candidate(Pyth, 100.0)];
    assert c[..0] == [];
    assert Total(c) == 100.0;
    assert Mean(c) == 100.0;
  }

  /** Such a reading. */
  lemma PythPostsAlone(d: Decision)
    requires Decides(Reading(None, None, Some(PythReading(100.0, 10.0, 0)), None, false), false, 0, d)
    ensures d == Post(100.0, 100_000_000, None, [Candidate(Pyth, 100.0)], PythOnly)
  {
    hide Posted, IsWorst, AllAgree, SomeAgree, IsTightest, DropThird;
    var r := Reading(None, None, Some(PythReading(100.0, 10.0, 0)), None, false);
    assert Candidates(r, 0) == [Candidate(Pyth, 100.0)];
    assert Gate(r, false, 0) == None;
    OnePosted();
  }

  // ----- what is dropped ---------------------------------------------------------------

  lemma QuotientLe(p: real, q: real, r: real, t: real)
    requires q > 0.0 && t > 0.0 && p * t <= r * q
    ensures p / q <= r / t
  {
    var x, y := p / q, r / t;
    assert x * q == p && y * t == r;
    assert p * t == x * (q * t) && r * q == y * (q * t);
    CancelPositive(x, y, q * t);
  }

  lemma CancelPositive(x: real, y: real, k: real)
    requires k > 0.0 && x * k <= y * k
    ensures x <= y
  {
  }

  /** The further apart two prices are, the more they disagree. */
  lemma SpreadGrows(a: real, b: real, c: real)
    requires 0.0 < a <= b <= c
    ensures SpreadBps(a, b) <= SpreadBps(a, c) && SpreadBps(b, c) <= SpreadBps(a, c)
  {
    var ab, ac, bc := (a + b) / 2.0, (a + c) / 2.0, (b + c) / 2.0;
    WiderApart(a, b, c, ab, ac, bc);
    QuotientLe(b - a, ab, c - a, ac);
    QuotientLe(c - b, bc, c - a, ac);
  }

  lemma WiderApart(a: real, b: real, c: real, ab: real, ac: real, bc: real)
    requires 0.0 < a <= b <= c && ab + ab == a + b && ac + ac == a + c && bc + bc == b + c
    ensures (b - a) * ac <= (c - a) * ab && (c - b) * ac <= (c - a) * bc
  {
    assert (c - a) * ab - (b - a) * ac == a * (c - b);
    assert (c - a) * bc - (c - b) * ac == c * (b - a);
  }

  /** The middle one of three prices. */
  function Middle(a: real, b: real, c: real): real {
    if a <= b <= c || c <= b <= a then b else if b <= a <= c || c <= a <= b then a else c
  }

  lemma SpreadBoth(a: real, b: real)
    requires a > 0.0 && b > 0.0
    ensures SpreadBps(a, b) == SpreadBps(b, a)
  {
    assert Abs(a - b) == Abs(b - a);
  }

  /** Of three prices not all of which agree, one outside an agreeing pair lies beyond both of
      them, and agrees with one exactly when it agrees with the nearer. */
  lemma BeyondThePair(x: real, a: real, b: real)
    requires x > 0.0 && a > 0.0 && b > 0.0
    requires SpreadBps(a, b) <= AGREEMENT_BPS && (SpreadBps(x, a) > AGREEMENT_BPS || SpreadBps(x, b) > AGREEMENT_BPS)
    ensures (x < a && x < b) || (x > a && x > b)
    ensures SpreadBps(x, a) > AGREEMENT_BPS && SpreadBps(x, b) > AGREEMENT_BPS <==> SpreadBps(x, Middle(x, a, b)) > AGREEMENT_BPS
  {
    hide SpreadBps;
    SpreadBoth(a, b);
    SpreadBoth(x, a);
    SpreadBoth(x, b);
    var lo, hi := if a <= b then a else b, if a <= b then b else a;
    if x < lo {
      SpreadGrows(x, lo, hi);
    } else if x <= hi {
      SpreadGrows(lo, x, hi);
    } else {
      SpreadGrows(lo, hi, x);
    }
  }

  /** The comment on `agreeingPair` says a source is dropped when it disagrees with both others.
      What is dropped is always the lowest or the highest of the three prices, never the middle
      one, and it disagrees with both others exactly when its spread to the middle price is over
      the limit. */
  lemma DroppedIsExtreme(r: Reading, demo: bool, now: int, d: Decision)
    requires Decides(r, demo, now, d) && d.Post? && d.note.DroppedOutlier?
    ensures |Candidates(r, now)| == 3
    ensures exists i: nat, j: nat :: i < j < 3 && d == DropThird(Candidates(r, now), i, j)
              && DroppedBeyond(Candidates(r, now), i, j)
  {
    hide SpreadBps, Round, Mean;
    var c := Candidates(r, now);
    var i: nat, j: nat :| IsTightest(c, i, j) && d == DropThird(c, i, j);
    var k := Third(i, j);
    SpreadSymmetric(c);
    assert Agree(c, i, j);
    if Agree(c, k, i) && Agree(c, k, j) {
      ThreeAgree(c, i, j);
    }
    BeyondThePair(c[k].price, c[i].price, c[j].price);
    assert DroppedBeyond(c, i, j);
  }

  predicate DroppedBeyond(c: seq<Candidate>, i: nat, j: nat)
    requires Positive(c) && |c| == 3 && i < j < 3
  {
    var x, a, b := c[Third(i, j)].price, c[i].price, c[j].price;
    && ((x < a && x < b) || (x > a && x > b))
    && (!Agree(c, Third(i, j), i) && !Agree(c, Third(i, j), j) <==> SpreadBps(x, Middle(x, a, b)) > AGREEMENT_BPS)
  }

  lemma ThreeAgree(c: seq<Candidate>, i: nat, j: nat)
    requires Positive(c) && |c| == 3 && i < j < 3
    requires Agree(c, i, j) && Agree(c, Third(i, j), i) && Agree(c, Third(i, j), j)
    ensures AllAgree(c)
  {
    hide SpreadBps;
    SpreadSymmetric(c);
    forall x: nat, y: nat | x < y < 3
      ensures Agree(c, x, y)
    {
      assert Agree(c, y, x) <==> Agree(c, x, y);
    }
  }

  lemma SpreadSymmetric(c: seq<Candidate>)
    requires Positive(c)
    ensures forall i: nat, j: nat | i < |c| && j < |c| :: Spread(c, i, j) == Spread(c, j, i)
  {
    forall i: nat, j: nat | i < |c| && j < |c|
      ensures Spread(c, i, j) == Spread(c, j, i)
    {
      assert Abs(c[i].price - c[j].price) == Abs(c[j].price - c[i].price);
    }
  }

  lemma CloseSpreads()
    ensures SpreadBps(100.0, 101.5) == 149 && SpreadBps(101.5, 103.0) == 147 && SpreadBps(100.0, 103.0) == 296
  {
  }

  lemma TightestOfThree(c: seq<Candidate>)
    requires c == [Candidate(XStocks, 100.0), Candidate(Jupiter, 101.5), Candidate(Pyth, 103.0)]
    ensures Positive(c) && !AllAgree(c) && IsTightest(c, 1, 2) && Agree(c, 0, 1)
    ensures forall i: nat, j: nat | IsTightest(c, i, j) :: i == 1 && j == 2
  {
    CloseSpreads();
    hide SpreadBps;
    assert Spread(c, 0, 1) == 149 && Spread(c, 1, 2) == 147 && Spread(c, 0, 2) == 296;
    assert !Agree(c, 0, 2);
  }

  /** Such a reading: the source that is dropped is within the limit of the middle price, which is
      kept. */
  lemma DropsOneThatAgrees(d: Decision)
    requires Decides(Reading(Some(Candidate(XStocks, 100.0)), Some(JupiterPrice(101.5, 200_000.0, None)),
                             Some(PythReading(103.0, 10.0, 0)), None, false), false, 0, d)
    ensures d.Post? && d.used == [Candidate(Jupiter, 101.5), Candidate(Pyth, 103.0)] && d.spread == Some(147)
    ensures d.note.DroppedOutlier? && d.note.source == XStocks
    ensures SpreadBps(100.0, 101.5) == 149 <= AGREEMENT_BPS
  {
    var r := Reading(Some(Candidate(XStocks, 100.0)), Some(JupiterPrice(101.5, 200_000.0, None)),
                     Some(PythReading(103.0, 10.0, 0)), None, false);
    var c := [Candidate(XStocks, 100.0), Candidate(Jupiter, 101.5), Candidate(Pyth, 103.0)];
    assert Candidates(r, 0) == c;
    assert Gate(r, false, 0) == None;
    CloseSpreads();
    TightestOfThree(c);
    hide SpreadBps, AllAgree, IsTightest, IsWorst, Round, Mean;
    assert SomeAgree(c);
    assert Spread(c, 1, 2) == 147;
  }
}
