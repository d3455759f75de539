/** Reachable states in which the program falls short of its comments: one market, one saver and
    one borrower, from the first state on. */
module Cases {
  import opened Outcomes
  import opened RiskMath
  import opened Bands
  import opened Ledger
  import opened Invariants
  import opened Positions
  import opened Admission
  import opened Previews
  import C = ClientRisk

  /** Accepted parameters, with a closed-market haircut of the whole price. */
  const TERMS: RiskParams := RiskParams(5000, 6500, 500, 0, [RateBand(5000, 1490)], 60, 3600, 10_000)

  /** The terms the devnet seed gives the stock markets: no haircut while the price is fresh, and
      a tenth once the market has closed. */
  const SEEDED: RiskParams := RiskParams(5000, 6500, 500, 0, [RateBand(5000, 1490)], 180, 259_200, 1000)

  predicate Known(terms: RiskParams) {
    terms == TERMS || terms == SEEDED
  }

  const LENDER: nat := 3
  const LOAN: PositionId := PositionId(7, 4)
  const OPENING: Env := Env(0, 1_000_000, true, false, false, 10_000_000_000_000_000, false)

  const POOLED: u64 := 10_000_000_000_000_000
  const DEBT: u64 := 4_000_000_000_000_000

  function State(terms: RiskParams, vault: u64, shares: u64, debt: u64, collateral: u64, price: SignedPrice): Ledger {
    Ledger(Config(0, 1, 2, 0, 10_000, 5000, debt, shares, 0, false), vault,
           map[7 := Market(terms, 0, true, collateral, collateral)], map[7 := price],
           if collateral == 0 then map[] else map[LOAN := Position(collateral, debt, 0, 1490)],
           if shares == 0 then map[] else map[LENDER := shares],
           Flows(0, 0, debt, 0, 0, 0, shares, 0, 0))
  }

  const HIGH: SignedPrice := SignedPrice(10_000_000_000, 0, 0)
  const HALF: SignedPrice := SignedPrice(2_000_000_000, 0, 0)
  const LOW: SignedPrice := SignedPrice(1, -6, 0)

  lemma Powers()
    ensures Pow10(0) == 1 && Pow10(6) == 1_000_000
  {
    assert Pow10(6) == 10 * Pow10(5) == 100 * Pow10(4) == 1000 * Pow10(3) == 10_000 * Pow10(2) == 100_000 * Pow10(1) == 1_000_000 * Pow10(0);
  }

  lemma TermsAccepted(terms: RiskParams)
    requires Known(terms)
    ensures terms.Valid()
  {
    assert terms.bands[0].Live();
  }

  lemma OneRate(terms: RiskParams, ltv: u64)
    requires Known(terms)
    ensures SelectApr(terms.bands, ltv) == 1490
  {
    assert terms.bands[0].Live();
    assert SelectApr(terms.bands[1..], ltv) == 0;
  }

  lemma Overwrites<K, V>(k: K, v: V, w: V)
    ensures map[k := v][k := w] == map[k := w]
  {
  }

  lemma MarketOpened(terms: RiskParams)
    requires Known(terms)
    ensures Reachable(State(terms, 0, 0, 0, 0, HIGH))
  {
    var first := InitConfig(0, 1, 2, 0, 10_000, 5000).value;
    assert First(first);
    FirstIsReachable(first);
    TermsAccepted(terms);
    StepStaysReachable(first, ActAddMarket(0, 7, terms, 0, true), OPENING);
    StepStaysReachable(After(first, ActAddMarket(0, 7, terms, 0, true), OPENING), ActSetSignedPrice(2, 7, 10_000_000_000, 0), OPENING);
    assert SetSignedPrice(AddMarket(first, 0, 7, terms, 0, true, OPENING).value, 2, 7, 10_000_000_000, 0, OPENING)
        == Ok(State(terms, 0, 0, 0, 0, HIGH));
  }

  lemma Saved(terms: RiskParams)
    requires Known(terms)
    ensures Reachable(State(terms, POOLED, POOLED, 0, 0, HIGH))
  {
    MarketOpened(terms);
    StepStaysReachable(State(terms, 0, 0, 0, 0, HIGH), ActDepositSavings(LENDER, POOLED), OPENING);
    assert DepositSavings(State(terms, 0, 0, 0, 0, HIGH), LENDER, POOLED, OPENING) == Ok(State(terms, POOLED, POOLED, 0, 0, HIGH));
  }

  lemma Deposited(terms: RiskParams)
    requires Known(terms)
    ensures Reachable(State(terms, POOLED, POOLED, 0, 3, HIGH))
  {
    Saved(terms);
    StepStaysReachable(State(terms, POOLED, POOLED, 0, 0, HIGH), ActDeposit(LOAN, 3, false), OPENING);
    OneRate(terms, 0);
    Overwrites(7, Market(terms, 0, true, 0, 0), Market(terms, 0, true, 3, 3));
    assert Deposit(State(terms, POOLED, POOLED, 0, 0, HIGH), LOAN, 3, false, OPENING) == Ok(State(terms, POOLED, POOLED, 0, 3, HIGH));
  }

  lemma Priced(terms: RiskParams, m: Market)
    requires Known(terms) && m == Market(terms, 0, true, 3, 3)
    ensures CheckedPrice(m, HIGH, 0) == Ok(Quote(10_000_000_000_000_000, 0))
    ensures ValueOf(3, m, Quote(10_000_000_000_000_000, 0), 1_000_000) == Ok(30_000_000_000_000_000)
    ensures LtvBps(DEBT, 30_000_000_000_000_000) == Ok(1334)
  {
    Powers();
  }

  lemma RoomForLoan(c: Config)
    requires c == Config(0, 1, 2, 0, 10_000, 5000, 0, POOLED, 0, false)
    ensures LendingRoom(POOLED, c, DEBT).Pass?
    ensures Accrue(Position(3, 0, 0, 1490), c, 0) == Ok(Accrued(Position(3, 0, 0, 1490), c, 0))
  {
  }

  lemma Granted(terms: RiskParams)
    requires Known(terms)
    ensures Borrow(State(terms, POOLED, POOLED, 0, 3, HIGH), 4, LOAN, DEBT, OPENING)
         == Ok(State(terms, POOLED - DEBT, POOLED, DEBT, 3, HIGH))
  {
    hide CheckedPrice, ValueOf, LtvBps, LendingRoom, SelectApr, Accrue;
    var s := State(terms, POOLED, POOLED, 0, 3, HIGH);
    Priced(terms, s.markets[7]);
    OneRate(terms, 1334);
    Overwrites(LOAN, Position(3, 0, 0, 1490), Position(3, DEBT, 0, 1490));
    RoomForLoan(s.config);
  }

  /** Three tokens at ten billion dollars each back a loan of four billion. */
  lemma Lent(terms: RiskParams)
    requires Known(terms)
    ensures Reachable(State(terms, POOLED - DEBT, POOLED, DEBT, 3, HIGH))
  {
    hide Reachable, Borrow;
    Deposited(terms);
    StepStaysReachable(State(terms, POOLED, POOLED, 0, 3, HIGH), ActBorrow(4, LOAN, DEBT), OPENING);
    Granted(terms);
  }

  /** Another price is posted at once. */
  lemma Repriced(terms: RiskParams, price: SignedPrice)
    requires Known(terms) && price.price > 0 && -12 <= price.expo <= 0 && price.publishTime == 0
    ensures Reachable(State(terms, POOLED - DEBT, POOLED, DEBT, 3, price))
  {
    Lent(terms);
    var s := State(terms, POOLED - DEBT, POOLED, DEBT, 3, HIGH);
    StepStaysReachable(s, ActSetSignedPrice(2, 7, price.price, price.expo), OPENING);
    Overwrites(7, HIGH, price);
    assert SetSignedPrice(s, 2, 7, price.price, price.expo, OPENING) == Ok(State(terms, POOLED - DEBT, POOLED, DEBT, 3, price));
  }

  // ----- a price that stops a repayment and a deposit ------------------------------------------

  const CLOSED: Env := Env(100, 1_000_000, true, false, false, 1, false)

  lemma ClosedTerms(m: Market)
    requires m == Market(TERMS, 0, true, 3, 3)
    ensures CheckedPrice(m, HIGH, 100) == Ok(Quote(10_000_000_000_000_000, 10_000))
    ensures Accrue(Position(3, DEBT, 0, 1490), Config(0, 1, 2, 0, 10_000, 5000, DEBT, POOLED, 0, false), 100).Ok?
  {
    Powers();
  }

  lemma ClosedRepayment(s: Ledger)
    requires s == State(TERMS, POOLED - DEBT, POOLED, DEBT, 3, HIGH)
    ensures Repay(s, LOAN, 1, false, CLOSED).Ok? && Repay(s, LOAN, 1, true, CLOSED) == Err(InvalidRiskParams)
  {
    ClosedTerms(s.markets[7]);
    AccrueMovesOnly(s.positions[LOAN], s.config, 100);
    hide CheckedPrice, Accrue;
  }

  lemma AccrueMovesOnly(p: Position, c: Config, now: int)
    requires Accrue(p, c, now).Ok?
    ensures var a := Accrue(p, c, now).value;
            a.position.debt >= p.debt && a.config.totalBorrowed >= c.totalBorrowed
            && a.position.collateral == p.collateral
  {
  }

  lemma ClosedDeposit(s: Ledger)
    requires s == State(TERMS, POOLED - DEBT, POOLED, DEBT, 3, HIGH)
    ensures Deposit(s, LOAN, 1, false, CLOSED).Ok? && Deposit(s, LOAN, 1, true, CLOSED) == Err(InvalidRiskParams)
  {
    Powers();
    assert CheckedPrice(s.markets[7], HIGH, 100) == Ok(Quote(10_000_000_000_000_000, 10_000));
    assert Accrue(s.positions[LOAN], s.config, 100).Ok?;
  }

  /** While the market is closed, a repayment and a deposit go through only without the price. */
  lemma ClosedPriceStops() returns (s: Ledger, env: Env)
    ensures Reachable(s)
    ensures Repay(s, LOAN, 1, false, env).Ok? && Repay(s, LOAN, 1, true, env) == Err(InvalidRiskParams)
    ensures Deposit(s, LOAN, 1, false, env).Ok? && Deposit(s, LOAN, 1, true, env) == Err(InvalidRiskParams)
  {
    hide Reachable, Repay, Deposit;
    Lent(TERMS);
    s, env := State(TERMS, POOLED - DEBT, POOLED, DEBT, 3, HIGH), CLOSED;
    ClosedRepayment(s);
    ClosedDeposit(s);
  }

  // ----- liquidations that fail for want of a word ---------------------------------------------

  /** Far over the threshold, and no amount can be liquidated. */
  lemma NoneCanLiquidate() returns (s: Ledger, env: Env)
    ensures Reachable(s)
    ensures forall repay: u64 | repay > 0 :: Liquidate(s, LOAN, repay, env) == Err(MathOverflow)
  {
    hide Reachable;
    Repriced(TERMS, LOW);
    Powers();
    s := State(TERMS, POOLED - DEBT, POOLED, DEBT, 3, LOW);
    env := Env(0, 400_000, true, false, false, DEBT, false);
    assert CheckedPrice(s.markets[7], LOW, 0) == Ok(Quote(1, 0));
    assert ValueOf(3, s.markets[7], Quote(1, 0), 400_000) == Ok(1);
    assert LtvBps(DEBT, 1) == Err(MathOverflow);
  }

  const FALLEN: Env := Env(0, 1_000_000, true, false, false, DEBT, false)

  lemma LowPriced(m: Market)
    requires m == Market(TERMS, 0, true, 3, 3)
    ensures CheckedPrice(m, LOW, 0) == Ok(Quote(1, 0))
    ensures ValueOf(3, m, Quote(1, 0), 1_000_000) == Ok(3) && ValueOf(2, m, Quote(1, 0), 1_000_000) == Ok(2)
    ensures ValueOf(0, m, Quote(1, 0), 1_000_000) == Ok(0)
    ensures SeizeAmount(1, 500, 1, 1_000_000, 0) == Ok(1) && SeizeAmount(3, 500, 1, 1_000_000, 0) == Ok(3)
  {
    Powers();
  }

  lemma OneCannot(s: Ledger)
    requires s == State(TERMS, POOLED - DEBT, POOLED, DEBT, 3, LOW)
    ensures Liquidate(s, LOAN, 1, FALLEN) == Err(MathOverflow)
  {
    LowPriced(s.markets[7]);
    hide CheckedPrice, ValueOf, SeizeAmount;
  }

  lemma ThreeCan(s: Ledger)
    requires s == State(TERMS, POOLED - DEBT, POOLED, DEBT, 3, LOW)
    ensures Liquidate(s, LOAN, 3, FALLEN).Ok?
  {
    LowPriced(s.markets[7]);
    hide CheckedPrice, ValueOf, SeizeAmount;
  }

  /** And one where liquidating one unit fails for what it would leave, while three go through. */
  lemma OneCannotThreeCan() returns (s: Ledger, env: Env)
    ensures Reachable(s)
    ensures Liquidate(s, LOAN, 1, env) == Err(MathOverflow)
    ensures Liquidate(s, LOAN, 3, env).Ok?
  {
    hide Reachable, Liquidate;
    Repriced(TERMS, LOW);
    s, env := State(TERMS, POOLED - DEBT, POOLED, DEBT, 3, LOW), FALLEN;
    OneCannot(s);
    ThreeCan(s);
  }

  // ----- previews of a closed market -------------------------------------------------------------

  /** With the market closed, a loan within the credit the app shows is refused for its size. */
  lemma ClosedCreditRefused() returns (s: Ledger, env: Env, loan: u64)
    ensures Reachable(s) && Shown(s, LOAN, env)
    ensures 0 < loan <= CreditOn(s, LOAN, OwedNow(s, LOAN, env), env)
    ensures Borrow(s, 4, LOAN, loan, env) == Err(ExceedsMaxLtv)
  {
    Deposited(SEEDED);
    TermsAccepted(SEEDED);
    Powers();
    s := State(SEEDED, POOLED, POOLED, 0, 3, HIGH);
    env := Env(1000, 1_000_000, true, false, false, 0, false);
    loan := 14_000_000_000_000_000;
    assert CheckedPrice(s.markets[7], HIGH, 1000) == Ok(Quote(10_000_000_000_000_000, 1000));
    assert ValueOf(3, s.markets[7], Quote(10_000_000_000_000_000, 1000), 1_000_000) == Ok(27_000_000_000_000_000);
    assert LtvBps(loan, 27_000_000_000_000_000) == Ok(5186);
  }

  const LATER: Env := Env(1000, 1_000_000, true, false, false, POOLED, false)
  const OWED: u64 := 4_000_018_899_036_023
  const FIX: u64 := 1_000_018_899_040_000

  lemma OwedLater()
    ensures Charge(DEBT, 1490, 1000) == OWED - DEBT
  {
  }

  lemma HalfLater(s: Ledger)
    requires s == State(SEEDED, POOLED - DEBT, POOLED, DEBT, 3, HALF)
    ensures Readable(s, LOAN, LATER) && QuoteNow(s, LOAN, LATER) == Quote(2_000_000_000_000_000, 1000)
    ensures DebtAt(s.positions[LOAN], 1000) == OWED && Shown(s, LOAN, LATER)
  {
    Powers();
    TermsAccepted(SEEDED);
    OwedLater();
  }

  lemma FixLater()
    ensures C.CollateralValue(3, 0, 2_000_000_000_000_000, 0, 1_000_000) == 6_000_000_000_000_000
    ensures C.FixAmounts(OWED, 3, 1_000_000, 2_000_000_000_000_000, 0, 5000, 0).repayUsd6 == FIX
  {
    Powers();
  }

  lemma ValueLater(collateral: u64)
    requires collateral == 3
    ensures FloorValue(collateral, 1_000_000, 2_000_000_000_000_000, 1000, 0) == 5_400_000_000_000_000
  {
    Powers();
  }

  /** And the repayment it shows leaves the position over its limit. */
  lemma ClosedFixFallsShort() returns (s: Ledger)
    ensures Reachable(s) && Shown(s, LOAN, LATER) && FixNow(s, LOAN, LATER).repayUsd6 <= U64_MAX
    ensures var r := Repay(s, LOAN, FixNow(s, LOAN, LATER).repayUsd6, true, LATER);
            r.Ok? && !WithinLimit(r.value.positions[LOAN].debt, ValueNow(s, LOAN, 3, LATER), SEEDED.maxLtv)
  {
    Repriced(SEEDED, HALF);
    s := State(SEEDED, POOLED - DEBT, POOLED, DEBT, 3, HALF);
    HalfLater(s);
    FixLater();
    ValueLater(3);
    assert FixNow(s, LOAN, LATER).repayUsd6 == FIX;
    RepaidLater(s);
  }

  lemma RepaidLater(s: Ledger)
    requires s == State(SEEDED, POOLED - DEBT, POOLED, DEBT, 3, HALF)
    ensures Repay(s, LOAN, FIX, true, LATER).Ok?
    ensures Repay(s, LOAN, FIX, true, LATER).value.positions[LOAN].debt == OWED - FIX
  {
    Powers();
    OwedLater();
    var p := Position(3, OWED - FIX, 1000, 1490);
    assert AccrueInterest(DEBT, 1490, 1000) == Ok(OWED - DEBT);
    assert CheckedPrice(s.markets[7], HALF, 1000) == Ok(Quote(2_000_000_000_000_000, 1000));
    assert ValueOf(3, s.markets[7], Quote(2_000_000_000_000_000, 1000), 1_000_000) == Ok(5_400_000_000_000_000);
    assert LtvBps(OWED - FIX, 5_400_000_000_000_000) == Ok(5556);
    assert ReselectApr(p, s.markets[7], Some(HALF), LATER).Ok?;
  }
}
