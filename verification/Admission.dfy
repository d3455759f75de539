/** Exactly when each instruction on a position goes through, as conditions on what it is given
    and on the state it finds. */
module Admission {
  import opened Outcomes
  import opened Rounding
  import opened RiskMath
  import opened Ledger
  import opened Invariants
  import opened Positions
  import Savings

  // ----- when the parts have an answer ---------------------------------------------------

  /** The collateral has a value and the debt a loan-to-value that fits a word. */
  predicate HasLtv(collateral: nat, debt: nat, m: Market, quote: Quote, multiplier: u64) {
    && HasValue(collateral, multiplier, quote.price, quote.haircut, m.decimals)
    && !TooWide(debt, FloorValue(collateral, multiplier, quote.price, quote.haircut, m.decimals))
  }

  /** The collateral has a value, and the debt is at most `limit` of it. */
  predicate Backs(collateral: nat, debt: nat, limit: u16, m: Market, quote: Quote, multiplier: u64) {
    && HasValue(collateral, multiplier, quote.price, quote.haircut, m.decimals)
    && WithinLimit(debt, FloorValue(collateral, multiplier, quote.price, quote.haircut, m.decimals), limit)
  }

  lemma LtvAnswers(collateral: u64, debt: u64, limit: u16, m: Market, quote: Quote, multiplier: u64)
    ensures var ltv := LtvAt(collateral, debt, m, quote, multiplier);
            && (ltv.Ok? <==> HasLtv(collateral, debt, m, quote, multiplier))
            && (ltv.Ok? && ltv.value <= limit <==> Backs(collateral, debt, limit, m, quote, multiplier))
  {
    hide HasValue, FloorValue, CollateralValue;
    ValueAnswers(collateral, multiplier, quote.price, quote.haircut, m.decimals);
    if ValueOf(collateral, m, quote, multiplier).Ok? {
      LtvWithin(debt, ValueOf(collateral, m, quote, multiplier).value, limit);
    }
  }

  /** Less collateral has a value whenever more has. */
  lemma LessHasValue(less: nat, more: nat, multiplier: nat, price: nat, haircut: nat, decimals: nat)
    requires less <= more && HasValue(more, multiplier, price, haircut, decimals)
    ensures HasValue(less, multiplier, price, haircut, decimals)
  {
    MulLe(less, more, multiplier);
    MulLe(less * multiplier, more * multiplier, price);
    MulLe(less * multiplier * price, more * multiplier * price, BPS - haircut);
  }

  /** In a reachable state a position with its interest charged is still part of the totals, and
      the collateral vault holds its collateral. */
  lemma OwingInTotals(s: Ledger, id: PositionId, now: int)
    requires Sound(s) && id in s.positions && ChargeFits(s.positions[id], s.config, now)
    ensures id.market in s.markets
    ensures var a := Accrue(s.positions[id], s.config, now).value;
            && a.position.collateral == s.positions[id].collateral
            && a.position.collateral <= s.markets[id.market].totalCollateral <= s.markets[id.market].vault
            && a.position.debt <= a.config.totalBorrowed
            && s.config.closeFactor <= BPS && s.config.maxUtilization <= BPS
            && a.config == s.config.(totalBorrowed := a.config.totalBorrowed, reserve := a.config.reserve)
  {
    InTotals(s, id);
    var mv := AccrueMoves(s.positions[id], s.config, now);
    hide Accrue, LedgersAgree, PoolSound;
  }

  /** Priced and with interest that can be charged. */
  predicate Ready(s: Ledger, id: PositionId, env: Env) {
    && id.market in s.markets && id in s.positions && id.market in s.prices
    && ChargeFits(s.positions[id], s.config, env.now)
    && CheckedPrice(s.markets[id.market], s.prices[id.market], env.now).Ok?
  }

  lemma OpenedInTotals(s: Ledger, id: PositionId, now: int)
    requires Sound(s) && id.market in s.markets
    ensures Opened(s, id, now).collateral <= s.markets[id.market].totalCollateral <= s.markets[id.market].vault
  {
    if id in s.positions {
      InTotals(s, id);
    }
  }

  // ----- deposits -------------------------------------------------------------------------

  /** A readable price for which the rate of this debt cannot be selected. */
  predicate PriceStops(collateral: nat, debt: nat, m: Market, signed: SignedPrice, env: Env) {
    var quote := CheckedPrice(m, signed, env.now);
    debt > 0 && quote.Ok? && !HasLtv(collateral, debt, m, quote.value, env.multiplier)
  }

  lemma ReselectAnswers(p: Position, m: Market, signed: Option<SignedPrice>, env: Env)
    ensures ReselectApr(p, m, signed, env).Err? <==> signed.Some? && PriceStops(p.collateral, p.debt, m, signed.value, env)
  {
    hide HasLtv, LtvAt;
    if signed.Some? && CheckedPrice(m, signed.value, env.now).Ok? {
      LtvAnswers(p.collateral, p.debt, 0, m, CheckedPrice(m, signed.value, env.now).value, env.multiplier);
    }
  }

  predicate CanDeposit(s: Ledger, id: PositionId, amount: u64, env: Env) {
    && id.market in s.markets
    && 0 < amount <= env.funds
    && ChargeFits(Opened(s, id, env.now), s.config, env.now)
    && env.CollateralMoves()
    && s.markets[id.market].vault + amount <= U64_MAX
  }

  /** The price account exists, and its price does not stop the selection of the rate. */
  predicate RateFound(s: Ledger, id: PositionId, amount: u64, env: Env)
    requires id.market in s.markets && ChargeFits(Opened(s, id, env.now), s.config, env.now)
  {
    var p := Owing(Opened(s, id, env.now), s.config, env.now);
    id.market in s.prices && !PriceStops(p.collateral + amount, p.debt, s.markets[id.market], s.prices[id.market], env)
  }

  predicate MayDeposit(s: Ledger, id: PositionId, amount: u64, withPrice: bool, env: Env) {
    CanDeposit(s, id, amount, env) && (withPrice ==> RateFound(s, id, amount, env))
  }

  /** A deposit goes through exactly when the collateral moves, the depositor has it and it fits
      the vault; one that names a price also needs a rate for the debt that is there. */
  lemma DepositExactly(s: Ledger, id: PositionId, amount: u64, withPrice: bool, env: Env)
    requires Sound(s)
    ensures Deposit(s, id, amount, withPrice, env).Ok? <==> MayDeposit(s, id, amount, withPrice, env)
  {
    hide PriceStops, ReselectApr, ChargeFits, Sound;
    if id.market in s.markets {
      var start, m := Opened(s, id, env.now), s.markets[id.market];
      OpenedInTotals(s, id, env.now);
      if CanDeposit(s, id, amount, env) {
        var p := Owing(start, s.config, env.now);
        ReselectAnswers(p.(collateral := p.collateral + amount), m, PriceAccount(s, id.market, withPrice), env);
      }
    }
  }

  // ----- repayments -----------------------------------------------------------------------

  function Paid(amount: u64, debt: u64): u64 {
    if amount <= debt then amount else debt
  }

  predicate CanRepay(s: Ledger, id: PositionId, amount: u64, env: Env) {
    && id.market in s.markets && id in s.positions
    && ChargeFits(s.positions[id], s.config, env.now)
    && var paid := Paid(amount, Owing(s.positions[id], s.config, env.now).debt);
    && 0 < paid <= env.funds
    && s.vault + paid <= U64_MAX
  }

  predicate MayRepay(s: Ledger, id: PositionId, amount: u64, withPrice: bool, env: Env) {
    && CanRepay(s, id, amount, env)
    && (withPrice ==>
          var p := Owing(s.positions[id], s.config, env.now);
          id.market in s.prices
          && !PriceStops(p.collateral, p.debt - Paid(amount, p.debt), s.markets[id.market], s.prices[id.market], env))
  }

  /** A repayment goes through, paused or not, exactly when there is debt to repay and the payer
      has the money; one that names a price also needs a rate for the debt that is left. */
  lemma RepayExactly(s: Ledger, id: PositionId, amount: u64, withPrice: bool, env: Env)
    requires LedgersAgree(s)
    ensures Repay(s, id, amount, withPrice, env).Ok? <==> MayRepay(s, id, amount, withPrice, env)
  {
    hide PriceStops, ReselectApr, ChargeFits;
    if id.market in s.markets && id in s.positions {
      var start, m := s.positions[id], s.markets[id.market];
      InTotals(s, id);
      if CanRepay(s, id, amount, env) {
        var p := Owing(start, s.config, env.now);
        ReselectAnswers(p.(debt := p.debt - Paid(amount, p.debt)), m, PriceAccount(s, id.market, withPrice), env);
      }
    }
  }

  /** The comment on `reselect_apr` says a price never makes a repayment or a deposit fail. A
      repayment that names a price does fail for it, exactly when it leaves debt, the price is
      readable, and what is left has no collateral value or too wide a loan-to-value. */
  lemma PriceStopsRepay(s: Ledger, id: PositionId, amount: u64, env: Env)
    requires LedgersAgree(s) && id.market in s.prices && Repay(s, id, amount, false, env).Ok?
    ensures ChargeFits(s.positions[id], s.config, env.now)
    ensures var m, p := s.markets[id.market], Owing(s.positions[id], s.config, env.now);
            Repay(s, id, amount, true, env).Err? <==>
              amount < p.debt && PriceStops(p.collateral, p.debt - amount, m, s.prices[id.market], env)
  {
    hide PriceStops, Repay;
    RepayExactly(s, id, amount, false, env);
    RepayExactly(s, id, amount, true, env);
    assert !PriceStops(Owing(s.positions[id], s.config, env.now).collateral, 0, s.markets[id.market], s.prices[id.market], env) by {
      NoDebtNoStop(Owing(s.positions[id], s.config, env.now).collateral, s.markets[id.market], s.prices[id.market], env);
    }
  }

  lemma NoDebtNoStop(collateral: nat, m: Market, signed: SignedPrice, env: Env)
    ensures !PriceStops(collateral, 0, m, signed, env)
  {
  }

  /** A deposit that names a price fails for it in the same case. */
  lemma PriceStopsDeposit(s: Ledger, id: PositionId, amount: u64, env: Env)
    requires Sound(s) && id.market in s.prices && Deposit(s, id, amount, false, env).Ok?
    ensures ChargeFits(Opened(s, id, env.now), s.config, env.now)
    ensures var m, p := s.markets[id.market], Owing(Opened(s, id, env.now), s.config, env.now);
            Deposit(s, id, amount, true, env).Err? <==>
              PriceStops(p.collateral + amount, p.debt, m, s.prices[id.market], env)
  {
    hide PriceStops, Deposit;
    DepositExactly(s, id, amount, false, env);
    DepositExactly(s, id, amount, true, env);
  }

  // ----- withdrawals ----------------------------------------------------------------------

  predicate CanWithdraw(s: Ledger, signer: Key, id: PositionId, amount: u64, withPrice: bool, env: Env) {
    && !s.config.paused
    && id.market in s.markets && id in s.positions && (withPrice ==> id.market in s.prices)
    && signer == id.owner
    && 0 < amount <= s.positions[id].collateral
    && env.CollateralMoves()
    && ChargeFits(s.positions[id], s.config, env.now)
  }

  /** What stays behind covers the debt at a readable price. */
  predicate StaysWithin(p: Position, remaining: nat, m: Market, signed: SignedPrice, env: Env) {
    var quote := CheckedPrice(m, signed, env.now);
    quote.Ok? && Backs(remaining, p.debt, m.params.maxLtv, m, quote.value, env.multiplier)
  }

  /** With debt left, a price is named at which what stays behind covers it. */
  predicate RestAllowed(s: Ledger, id: PositionId, amount: u64, withPrice: bool, env: Env)
    requires id.market in s.markets && id in s.positions && (withPrice ==> id.market in s.prices)
    requires amount <= s.positions[id].collateral && ChargeFits(s.positions[id], s.config, env.now)
  {
    var p := Owing(s.positions[id], s.config, env.now);
    p.debt > 0 ==> withPrice && StaysWithin(p, p.collateral - amount, s.markets[id.market], s.prices[id.market], env)
  }

  predicate MayWithdraw(s: Ledger, signer: Key, id: PositionId, amount: u64, withPrice: bool, env: Env) {
    CanWithdraw(s, signer, id, amount, withPrice, env) && RestAllowed(s, id, amount, withPrice, env)
  }

  /** Collateral is released exactly when its owner asks for no more than there is, it moves, and
      with debt left a price is named at which the rest keeps the position within its limit. No
      position has to wait for another: the vault always holds what it asks for. */
  lemma WithdrawExactly(s: Ledger, signer: Key, id: PositionId, amount: u64, withPrice: bool, env: Env)
    requires Sound(s)
    ensures Withdraw(s, signer, id, amount, withPrice, env).Ok? <==> MayWithdraw(s, signer, id, amount, withPrice, env)
  {
    hide ReselectApr, StaysCovered, StaysWithin, ChargeFits, Sound;
    if id.market in s.markets && id in s.positions {
      var m, signed := s.markets[id.market], PriceAccount(s, id.market, withPrice);
      if ChargeFits(s.positions[id], s.config, env.now) {
        OwingInTotals(s, id, env.now);
      }
      if CanWithdraw(s, signer, id, amount, withPrice, env) {
        var p := Owing(s.positions[id], s.config, env.now);
        StaysCoveredAnswers(p, p.collateral - amount, m, signed, env);
      }
    }
  }

  lemma StaysCoveredAnswers(p: Position, remaining: u64, m: Market, signed: Option<SignedPrice>, env: Env)
    ensures StaysCovered(p, remaining, m, signed, env).Pass? <==>
              p.debt > 0 ==> signed.Some? && StaysWithin(p, remaining, m, signed.value, env)
    ensures StaysCovered(p, remaining, m, signed, env).Pass? ==> ReselectApr(p.(collateral := remaining), m, signed, env).Ok?
  {
    hide Backs, LtvAt;
    if signed.Some? && CheckedPrice(m, signed.value, env.now).Ok? {
      LtvAnswers(remaining, p.debt, m.params.maxLtv, m, CheckedPrice(m, signed.value, env.now).value, env.multiplier);
    }
  }

  /** Without debt nothing but a pause, or a mint, a vault or an account of the owner that lets
      nothing move, stands between an owner and the collateral: no price, no other position and
      no shortage. */
  lemma FreeToLeave(s: Ledger, id: PositionId, amount: u64, env: Env)
    requires Sound(s) && id in s.positions && s.positions[id].debt == 0
    ensures Withdraw(s, id.owner, id, amount, false, env).Ok? <==>
              !s.config.paused && env.CollateralMoves() && 0 < amount <= s.positions[id].collateral
  {
    WithdrawExactly(s, id.owner, id, amount, false, env);
  }

  // ----- loans ----------------------------------------------------------------------------

  /** The loans with this one are within the cap on a pool that fits a word. */
  predicate CapAllows(vault: u64, c: Config, amount: u64) {
    var pool := vault + c.totalBorrowed - c.reserve;
    0 <= pool <= U64_MAX && (c.totalBorrowed + amount) * BPS <= c.maxUtilization * pool
  }

  lemma LendingRoomAnswers(vault: u64, c: Config, amount: u64)
    requires c.maxUtilization <= BPS && amount > 0
    ensures LendingRoom(vault, c, amount).Pass? <==> CapAllows(vault, c, amount)
    ensures CapAllows(vault, c, amount) ==> c.totalBorrowed + amount <= U64_MAX && amount <= vault
  {
    Savings.CapLeavesCash(vault, c, amount);
    var pool := vault + c.totalBorrowed - c.reserve;
    if 0 <= pool <= U64_MAX {
      MulLe(c.maxUtilization, BPS, pool);
      if pool > 0 {
        CeilLe((c.totalBorrowed + amount) * BPS, pool, c.maxUtilization);
        CeilLe((c.totalBorrowed + amount) * BPS, pool, BPS);
      }
    }
  }

  /** The debt with the loan is within the limit and all loans with it are within the cap. */
  predicate LoanAllowed(s: Ledger, id: PositionId, amount: u64, env: Env)
    requires Ready(s, id, env)
  {
    var m, p := s.markets[id.market], Owing(s.positions[id], s.config, env.now);
    var quote := CheckedPrice(m, s.prices[id.market], env.now).value;
    && Backs(p.collateral, p.debt + amount, m.params.maxLtv, m, quote, env.multiplier)
    && CapAllows(s.vault, Accrue(s.positions[id], s.config, env.now).value.config, amount)
  }

  predicate MayBorrow(s: Ledger, signer: Key, id: PositionId, amount: u64, env: Env) {
    && !s.config.paused
    && Ready(s, id, env)
    && signer == id.owner
    && amount > 0
    && env.VaultOpen()
    && LoanAllowed(s, id, amount, env)
  }

  /** A loan is granted exactly when the owner asks for it, the collateral moves, the price is
      readable, the debt with it is within the limit and all loans with it are within the cap.
      The vaults, the totals and the reserve never stand in the way. */
  lemma BorrowExactly(s: Ledger, signer: Key, id: PositionId, amount: u64, env: Env)
    requires Sound(s)
    ensures Borrow(s, signer, id, amount, env).Ok? <==> MayBorrow(s, signer, id, amount, env)
  {
    hide Backs, CapAllows, LendingRoom, ChargeFits, ValueOf, LtvBps, CheckedPrice, Sound;
    if id in s.positions {
    }
    if Ready(s, id, env) && amount > 0 {
      var m := s.markets[id.market];
      OwingInTotals(s, id, env.now);
      var a := Accrue(s.positions[id], s.config, env.now).value;
      LendingRoomAnswers(s.vault, a.config, amount);
      if a.position.debt + amount <= U64_MAX {
        LtvAnswers(a.position.collateral, a.position.debt + amount, m.params.maxLtv, m,
                   CheckedPrice(m, s.prices[id.market], env.now).value, env.multiplier);
      }
    }
  }

  // ----- liquidations ---------------------------------------------------------------------

  /** The seizure formula has an answer. */
  predicate SeizureFits(repay: nat, m: Market, quote: Quote, multiplier: u64) {
    && quote.price > 0 && multiplier > 0 && m.decimals <= 18
    && repay * Claim(m) <= U128_MAX
    && Backing(quote, multiplier) <= U128_MAX
    && repay * Claim(m) < (U64_MAX + 1) * Backing(quote, multiplier)
  }

  lemma SeizeAnswers(repay: u64, m: Market, quote: Quote, multiplier: u64)
    ensures SeizeAmount(repay, m.params.liqBonus, quote.price, multiplier, m.decimals).Ok? <==> SeizureFits(repay, m, quote, multiplier)
  {
    hide Claim;
    SeizeNumerator(repay, m);
    if quote.price > 0 && multiplier > 0 && m.decimals <= 18 {
      MulPos(quote.price, multiplier);
      if repay * Claim(m) <= U128_MAX && Backing(quote, multiplier) <= U128_MAX {
        FloorGe(repay * Claim(m), Backing(quote, multiplier), U64_MAX + 1);
      }
    }
  }

  lemma SeizeNumerator(repay: u64, m: Market)
    ensures repay * (BPS + m.params.liqBonus) * Pow10(m.decimals) * MULTIPLIER_SCALE == repay * Claim(m) >= 0
  {
    Regrouped(repay, BPS + m.params.liqBonus, Pow10(m.decimals), MULTIPLIER_SCALE);
    MulLe(0, repay, Claim(m));
  }

  lemma Regrouped(a: int, b: int, c: int, d: int)
    ensures a * b * c * d == a * (b * c * d)
  {
    assert a * b * c == a * (b * c);
  }

  /** The collateral a repayment buys: the formula's amount, or all there is. */
  function Seized(collateral: nat, repay: nat, m: Market, quote: Quote, multiplier: u64): (seized: nat)
    requires SeizureFits(repay, m, quote, multiplier)
    ensures seized <= collateral
  {
    MulPos(quote.price, multiplier);
    MulLe(0, repay, Claim(m));
    DivBounds(repay * Claim(m), Backing(quote, multiplier));
    var wanted := repay * Claim(m) / Backing(quote, multiplier);
    if wanted <= collateral then wanted else collateral
  }

  /** Over the threshold, by the exact comparison. */
  predicate OverThreshold(collateral: nat, debt: nat, m: Market, quote: Quote, multiplier: u64) {
    && HasValue(collateral, multiplier, quote.price, quote.haircut, m.decimals)
    && !WithinLimit(debt, FloorValue(collateral, multiplier, quote.price, quote.haircut, m.decimals), m.params.liqThreshold)
  }

  /** What the program asks of a position before `repay` of it is liquidated. */
  predicate TermsMet(p: Position, m: Market, quote: Quote, closeFactor: u16, repay: u64, multiplier: u64) {
    && OverThreshold(p.collateral, p.debt, m, quote, multiplier)
    && 0 < repay && repay * BPS <= p.debt * closeFactor
    && SeizureFits(repay, m, quote, multiplier)
  }

  predicate LtvFitsNow(p: Position, m: Market, quote: Quote, multiplier: u64) {
    !TooWide(p.debt, FloorValue(p.collateral, multiplier, quote.price, quote.haircut, m.decimals))
  }

  /** The loan-to-value of what a liquidation leaves fits a word. */
  predicate LtvFitsAfter(p: Position, m: Market, quote: Quote, repay: u64, multiplier: u64)
    requires SeizureFits(repay, m, quote, multiplier) && repay <= p.debt
  {
    var left := p.collateral - Seized(p.collateral, repay, m, quote, multiplier);
    !TooWide(p.debt - repay, FloorValue(left, multiplier, quote.price, quote.haircut, m.decimals))
  }

  lemma TermsAnswer(p: Position, m: Market, signed: SignedPrice, closeFactor: u16, repay: u64, env: Env)
    requires CheckedPrice(m, signed, env.now).Ok? && repay > 0
    ensures var quote := CheckedPrice(m, signed, env.now).value;
            var terms := SeizureTerms(p, m, signed, closeFactor, repay, env);
            && (terms.Ok? <==> TermsMet(p, m, quote, closeFactor, repay, env.multiplier) && LtvFitsNow(p, m, quote, env.multiplier))
            && (terms.Ok? ==> terms.value == Seizure(quote, Seized(p.collateral, repay, m, quote, env.multiplier)))
  {
    hide SeizureFits, HasValue, FloorValue, LtvAt, SeizeAmount;
    var quote := CheckedPrice(m, signed, env.now).value;
    LtvAnswers(p.collateral, p.debt, m.params.liqThreshold, m, quote, env.multiplier);
    FloorGe(p.debt * closeFactor, BPS, repay);
    SeizeAnswers(repay, m, quote, env.multiplier);
    if SeizureFits(repay, m, quote, env.multiplier) {
      SeizeIsFloor(repay, m, quote, env.multiplier);
    }
  }

  lemma RemainderAnswers(p: Position, m: Market, quote: Quote, closeFactor: u16, repay: u64, multiplier: u64)
    requires TermsMet(p, m, quote, closeFactor, repay, multiplier) && closeFactor <= BPS
    ensures repay <= p.debt
    ensures var left := p.collateral - Seized(p.collateral, repay, m, quote, multiplier);
            LtvAt(left, p.debt - repay, m, quote, multiplier).Ok? <==> LtvFitsAfter(p, m, quote, repay, multiplier)
  {
    hide SeizureFits, HasValue, FloorValue, LtvAt, Seized;
    FloorGe(p.debt * closeFactor, BPS, repay);
    CloseFactorWithin(p.debt, closeFactor, repay);
    var left := p.collateral - Seized(p.collateral, repay, m, quote, multiplier);
    LessHasValue(left, p.collateral, multiplier, quote.price, quote.haircut, m.decimals);
    LtvAnswers(left, p.debt - repay, 0, m, quote, multiplier);
  }

  predicate CanPayIn(s: Ledger, repay: u64, env: Env) {
    repay <= env.funds && s.vault + repay <= U64_MAX && env.CollateralMoves()
  }

  /** What stands between a position over the threshold and its liquidation. */
  predicate Clear(s: Ledger, id: PositionId, repay: u64, env: Env)
    requires Ready(s, id, env)
  {
    var m, p := s.markets[id.market], Owing(s.positions[id], s.config, env.now);
    var quote := CheckedPrice(m, s.prices[id.market], env.now).value;
    && 0 < repay && repay * BPS <= p.debt * s.config.closeFactor
    && SeizureFits(repay, m, quote, env.multiplier)
    && CanPayIn(s, repay, env)
    && LtvFitsNow(p, m, quote, env.multiplier)
    && (repay <= p.debt ==> LtvFitsAfter(p, m, quote, repay, env.multiplier))
  }

  predicate MayLiquidate(s: Ledger, id: PositionId, repay: u64, env: Env) {
    && Ready(s, id, env)
    && var m, p := s.markets[id.market], Owing(s.positions[id], s.config, env.now);
    && OverThreshold(p.collateral, p.debt, m, CheckedPrice(m, s.prices[id.market], env.now).value, env.multiplier)
    && Clear(s, id, repay, env)
  }

  /** A liquidation over the threshold that meets every demand of the program still fails in
      exactly two cases: the loan-to-value before it, or the one it would leave, does not fit a
      word. Totals, vaults and unchecked subtractions never stand in the way. */
  lemma LiquidateExactly(s: Ledger, id: PositionId, repay: u64, env: Env)
    requires Sound(s)
    ensures Liquidate(s, id, repay, env).Ok? <==> MayLiquidate(s, id, repay, env)
  {
    hide SeizureTerms, ChargeFits, CheckedPrice, LtvAt, LtvFitsNow, LtvFitsAfter, Sound, OverThreshold, SeizureFits;
    if id in s.positions {
    }
    if Ready(s, id, env) && repay > 0 {
      var m, p := s.markets[id.market], Owing(s.positions[id], s.config, env.now);
      var quote := CheckedPrice(m, s.prices[id.market], env.now).value;
      OwingInTotals(s, id, env.now);
      TermsAnswer(p, m, s.prices[id.market], s.config.closeFactor, repay, env);
      if TermsMet(p, m, quote, s.config.closeFactor, repay, env.multiplier) {
        RemainderAnswers(p, m, quote, s.config.closeFactor, repay, env.multiplier);
      }
    } else {
      NotReady(s, id, repay, env);
    }
  }

  lemma NotReady(s: Ledger, id: PositionId, repay: u64, env: Env)
    requires !Ready(s, id, env) || repay == 0
    ensures Liquidate(s, id, repay, env).Err?
  {
    hide ChargeFits, LtvAt, Accrue;
    if id in s.positions {
    }
  }

  /** One unit of the debt may be liquidated, apart from loan-to-values that fit a word. */
  predicate UnitAllowed(s: Ledger, id: PositionId, env: Env)
    requires Ready(s, id, env)
  {
    var m, p := s.markets[id.market], Owing(s.positions[id], s.config, env.now);
    var quote := CheckedPrice(m, s.prices[id.market], env.now).value;
    && OverThreshold(p.collateral, p.debt, m, quote, env.multiplier)
    && BPS <= p.debt * s.config.closeFactor
    && SeizureFits(1, m, quote, env.multiplier)
    && CanPayIn(s, 1, env)
  }

  lemma UnitFitsFirst(repay: nat, m: Market, quote: Quote, multiplier: u64)
    requires repay > 0 && SeizureFits(repay, m, quote, multiplier)
    ensures SeizureFits(1, m, quote, multiplier)
  {
    MulPos(BPS + m.params.liqBonus, Pow10(m.decimals));
    MulLe(1, repay, Claim(m));
  }

  /** If any amount of a position can be liquidated, one unit is allowed; in particular the debt
      times the close factor is at least the whole, so with a close factor of a half no debt of a
      single unit can be. While ten thousand times the debt fits a word, it is also enough. */
  lemma SomeAmountLiquidates(s: Ledger, id: PositionId, env: Env)
    requires Sound(s) && Ready(s, id, env)
    ensures (exists repay: u64 :: Liquidate(s, id, repay, env).Ok?) ==> UnitAllowed(s, id, env)
    ensures Owing(s.positions[id], s.config, env.now).debt * BPS <= U64_MAX ==>
              (Liquidate(s, id, 1, env).Ok? <==> UnitAllowed(s, id, env))
  {
    hide Sound, Liquidate, CheckedPrice, OverThreshold, SeizureFits, ChargeFits, FloorValue;
    var m, p := s.markets[id.market], Owing(s.positions[id], s.config, env.now);
    var quote := CheckedPrice(m, s.prices[id.market], env.now).value;
    if repay: u64 :| Liquidate(s, id, repay, env).Ok? {
      LiquidateExactly(s, id, repay, env);
      UnitFitsFirst(repay, m, quote, env.multiplier);
    }
    LiquidateExactly(s, id, 1, env);
    if p.debt * BPS <= U64_MAX && SeizureFits(1, m, quote, env.multiplier) && 1 <= p.debt {
      NeverTooWide(p.debt, FloorValue(p.collateral, env.multiplier, quote.price, quote.haircut, m.decimals));
      NeverTooWide(p.debt - 1, FloorValue(p.collateral - Seized(p.collateral, 1, m, quote, env.multiplier), env.multiplier, quote.price,
                                          quote.haircut, m.decimals));
    }
  }

  lemma NeverTooWide(debt: nat, value: nat)
    requires debt * BPS <= U64_MAX
    ensures !TooWide(debt, value)
  {
  }

  /** A position with a value, but so little that its loan-to-value does not fit a word, cannot be
      liquidated by anyone for any amount. */
  lemma TooWideToLiquidate(s: Ledger, id: PositionId, repay: u64, env: Env)
    requires Ready(s, id, env) && repay > 0
    requires var m, p := s.markets[id.market], Owing(s.positions[id], s.config, env.now);
             var quote := CheckedPrice(m, s.prices[id.market], env.now).value;
             && HasValue(p.collateral, env.multiplier, quote.price, quote.haircut, m.decimals)
             && !LtvFitsNow(p, m, quote, env.multiplier)
    ensures Liquidate(s, id, repay, env) == Err(MathOverflow)
  {
    hide HasValue, FloorValue, CollateralValue, LtvBps, ChargeFits, CheckedPrice;
    var m, p := s.markets[id.market], Owing(s.positions[id], s.config, env.now);
    var quote := CheckedPrice(m, s.prices[id.market], env.now).value;
    ValueAnswers(p.collateral, env.multiplier, quote.price, quote.haircut, m.decimals);
    LtvWithin(p.debt, ValueOf(p.collateral, m, quote, env.multiplier).value, 0);
  }
}
