/** What each refusal of an instruction on a position says about its cause. */
module Refusals {
  import opened Outcomes
  import opened Rounding
  import opened RiskMath
  import opened Ledger
  import opened Invariants
  import opened Positions
  import opened Admission
  import Savings

  predicate Present(s: Ledger, id: PositionId, priced: bool) {
    id.market in s.markets && id in s.positions && (priced ==> id.market in s.prices)
  }

  /** The program answers a price with a refusal of its own. */
  predicate PriceRefused(s: Ledger, id: PositionId, env: Env, e: Error) {
    Present(s, id, true) && CheckedPrice(s.markets[id.market], s.prices[id.market], env.now) == Err(e)
  }

  /** Every refusal of a loan names its cause. */
  lemma BorrowRefused(s: Ledger, signer: Key, id: PositionId, amount: u64, env: Env, e: Error)
    requires Sound(s) && Borrow(s, signer, id, amount, env) == Err(e)
    ensures match e
            case Paused => s.config.paused
            case AccountMissing => !Present(s, id, true)
            case Unauthorized => signer != id.owner
            case ZeroAmount => amount == 0
            case MarketBlocked => !env.VaultOpen()
            case WrongOracle => PriceRefused(s, id, env, e)
            case InvalidPrice => PriceRefused(s, id, env, e)
            case StalePrice => PriceRefused(s, id, env, e)
            case InvalidRiskParams => Ready(s, id, env) && QuoteNow(s, id, env).haircut >= BPS
            case ExceedsMaxLtv => Ready(s, id, env) && !LimitAllows(s, id, amount, env)
            case PoolUtilizationCap => Ready(s, id, env) && !CapAllows(s.vault, Accrue(s.positions[id], s.config, env.now).value.config, amount)
            case MathOverflow => true
            case _ => false
  {
    hide Backs, CapAllows, LendingRoom, ChargeFits, LtvBps, CollateralValue, CheckedPrice, Sound, Accrue;
    if Present(s, id, true) && ChargeFits(s.positions[id], s.config, env.now) && amount > 0 {
      OwingInTotals(s, id, env.now);
      var a := Accrue(s.positions[id], s.config, env.now).value;
      RoomRefused(s.vault, a.config, amount);
      if Ready(s, id, env) {
        var m, quote := s.markets[id.market], QuoteNow(s, id, env);
        ValueRefused(a.position.collateral, env.multiplier, quote.price, quote.haircut, m.decimals);
        if a.position.debt + amount <= U64_MAX {
          LtvAnswers(a.position.collateral, a.position.debt + amount, m.params.maxLtv, m, quote, env.multiplier);
        }
      }
    }
  }

  predicate LimitAllows(s: Ledger, id: PositionId, amount: u64, env: Env)
    requires Ready(s, id, env)
  {
    var m, p := s.markets[id.market], Owing(s.positions[id], s.config, env.now);
    Backs(p.collateral, p.debt + amount, m.params.maxLtv, m, QuoteNow(s, id, env), env.multiplier)
  }

  lemma ValueRefused(amount: u64, multiplier: u64, price: u64, haircut: u16, decimals: nat)
    ensures CollateralValue(amount, multiplier, price, haircut, decimals) == Err(InvalidRiskParams) <==> haircut >= BPS
  {
  }

  lemma RoomRefused(vault: u64, c: Config, amount: u64)
    requires c.maxUtilization <= BPS && amount > 0
    ensures match LendingRoom(vault, c, amount)
            case Pass => amount <= vault
            case Refuse(PoolUtilizationCap) => !CapAllows(vault, c, amount)
            case Refuse(e) => e == MathOverflow
  {
    hide LendingRoom, CapAllows;
    LendingRoomAnswers(vault, c, amount);
    RoomErrors(vault, c, amount);
  }

  lemma RoomErrors(vault: u64, c: Config, amount: u64)
    requires c.maxUtilization <= BPS && amount > 0
    ensures LendingRoom(vault, c, amount) in {Pass, Refuse(PoolUtilizationCap), Refuse(MathOverflow)}
  {
    Savings.CapLeavesCash(vault, c, amount);
  }

  /** Every refusal of a repayment names its cause. */
  lemma RepayRefused(s: Ledger, id: PositionId, amount: u64, withPrice: bool, env: Env, e: Error)
    requires Sound(s) && Repay(s, id, amount, withPrice, env) == Err(e)
    ensures match e
            case AccountMissing => !Present(s, id, withPrice)
            case ZeroAmount => amount == 0 || (Present(s, id, withPrice) && s.positions[id].debt == 0)
            case TransferFailed => amount > env.funds || s.vault + amount > U64_MAX
            case InvalidRiskParams => withPrice && Readable(s, id, env) && QuoteNow(s, id, env).haircut >= BPS
            case MathOverflow => true
            case _ => false
  {
    hide ChargeFits, LtvBps, CollateralValue, CheckedPrice, Sound, Accrue;
    if Present(s, id, withPrice) && ChargeFits(s.positions[id], s.config, env.now) {
      OwingInTotals(s, id, env.now);
      AccrueKeepsDebt(s.positions[id], s.config, env.now);
      if withPrice && Readable(s, id, env) {
        var m, quote := s.markets[id.market], QuoteNow(s, id, env);
        ValueRefused(s.positions[id].collateral, env.multiplier, quote.price, quote.haircut, m.decimals);
      }
    }
  }

  lemma AccrueKeepsDebt(p: Position, c: Config, now: int)
    requires Accrue(p, c, now).Ok?
    ensures Accrue(p, c, now).value.position.debt >= p.debt
    ensures p.debt == 0 ==> Accrue(p, c, now).value.position.debt == 0
  {
  }

  /** Every refusal of a deposit names its cause. */
  lemma DepositRefused(s: Ledger, id: PositionId, amount: u64, withPrice: bool, env: Env, e: Error)
    requires Sound(s) && Deposit(s, id, amount, withPrice, env) == Err(e)
    ensures match e
            case AccountMissing => id.market !in s.markets || (withPrice && id.market !in s.prices)
            case ZeroAmount => amount == 0
            case TransferFailed => !env.CollateralMoves() || amount > env.funds || s.markets[id.market].vault + amount > U64_MAX
            case InvalidRiskParams => withPrice && Readable(s, id, env) && QuoteNow(s, id, env).haircut >= BPS
            case MathOverflow => true
            case _ => false
  {
    hide ChargeFits, LtvBps, CollateralValue, CheckedPrice, Sound, Accrue;
    if id.market in s.markets && withPrice && Readable(s, id, env) && ChargeFits(Opened(s, id, env.now), s.config, env.now) {
      OpenedInTotals(s, id, env.now);
      var p, quote := Owing(Opened(s, id, env.now), s.config, env.now), QuoteNow(s, id, env);
      if p.collateral + amount <= U64_MAX {
        ValueRefused(p.collateral + amount, env.multiplier, quote.price, quote.haircut, s.markets[id.market].decimals);
      }
    }
  }

  /** Every refusal of a withdrawal names its cause. */
  lemma WithdrawRefused(s: Ledger, signer: Key, id: PositionId, amount: u64, withPrice: bool, env: Env, e: Error)
    requires Sound(s) && Withdraw(s, signer, id, amount, withPrice, env) == Err(e)
    ensures match e
            case Paused => s.config.paused
            case AccountMissing => !Present(s, id, withPrice)
            case Unauthorized => signer != id.owner
            case ZeroAmount => amount == 0
            case WrongOracle => !withPrice || PriceRefused(s, id, env, e)
            case InvalidPrice => PriceRefused(s, id, env, e)
            case StalePrice => PriceRefused(s, id, env, e)
            case InsufficientCollateral =>
              Present(s, id, withPrice) &&
              (amount > s.positions[id].collateral || (withPrice && Ready(s, id, env) && !RestAllowed(s, id, amount, withPrice, env)))
            case TransferFailed => !env.CollateralMoves()
            case InvalidRiskParams => Readable(s, id, env) && QuoteNow(s, id, env).haircut >= BPS
            case MathOverflow => true
            case _ => false
  {
    hide ChargeFits, CheckedPrice, Sound, Accrue, ReselectApr, StaysCovered, RestAllowed;
    if Present(s, id, withPrice) && ChargeFits(s.positions[id], s.config, env.now) {
      OwingInTotals(s, id, env.now);
      if amount <= s.positions[id].collateral {
        RestRefused(s, id, amount, withPrice, env);
      }
    }
  }

  lemma RestRefused(s: Ledger, id: PositionId, amount: u64, withPrice: bool, env: Env)
    requires Present(s, id, withPrice) && ChargeFits(s.positions[id], s.config, env.now) && amount <= s.positions[id].collateral
    ensures var p, signed := Owing(s.positions[id], s.config, env.now), PriceAccount(s, id.market, withPrice);
            match StaysCovered(p, p.collateral - amount, s.markets[id.market], signed, env)
            case Pass => ReselectApr(p.(collateral := p.collateral - amount), s.markets[id.market], signed, env).Ok?
            case Refuse(WrongOracle) => !withPrice || PriceRefused(s, id, env, WrongOracle)
            case Refuse(InvalidPrice) => PriceRefused(s, id, env, InvalidPrice)
            case Refuse(StalePrice) => PriceRefused(s, id, env, StalePrice)
            case Refuse(InsufficientCollateral) => withPrice && Ready(s, id, env) && !RestAllowed(s, id, amount, withPrice, env)
            case Refuse(InvalidRiskParams) => Readable(s, id, env) && QuoteNow(s, id, env).haircut >= BPS
            case Refuse(e) => e == MathOverflow
  {
    hide ChargeFits, Backs, CheckedPrice, ReselectApr, StaysCovered, Accrue;
    var p, signed := Owing(s.positions[id], s.config, env.now), PriceAccount(s, id.market, withPrice);
    CoverRefused(p, p.collateral - amount, s.markets[id.market], signed, env);
  }

  lemma CoverRefused(p: Position, remaining: u64, m: Market, signed: Option<SignedPrice>, env: Env)
    ensures match StaysCovered(p, remaining, m, signed, env)
            case Pass => ReselectApr(p.(collateral := remaining), m, signed, env).Ok?
            case Refuse(e) =>
              p.debt > 0 &&
              if signed.None? then e == WrongOracle else
              var quote := CheckedPrice(m, signed.value, env.now);
              if quote.Err? then quote == Err(e) else
              (e == InsufficientCollateral && !Backs(remaining, p.debt, m.params.maxLtv, m, quote.value, env.multiplier))
              || (e == InvalidRiskParams && quote.value.haircut >= BPS)
              || e == MathOverflow
  {
    hide LtvBps, Backs, CollateralValue, CheckedPrice;
    if signed.Some? && CheckedPrice(m, signed.value, env.now).Ok? {
      var quote := CheckedPrice(m, signed.value, env.now).value;
      LtvAnswers(remaining, p.debt, m.params.maxLtv, m, quote, env.multiplier);
      ValueRefused(remaining, env.multiplier, quote.price, quote.haircut, m.decimals);
    }
  }

  /** Every refusal of a liquidation names its cause. */
  lemma LiquidateRefused(s: Ledger, id: PositionId, repay: u64, env: Env, e: Error)
    requires Sound(s) && Liquidate(s, id, repay, env) == Err(e)
    ensures match e
            case AccountMissing => !Present(s, id, true)
            case ZeroAmount => repay == 0
            case WrongOracle => PriceRefused(s, id, env, e)
            case StalePrice => PriceRefused(s, id, env, e)
            case InvalidPrice => PriceRefused(s, id, env, e) || (Readable(s, id, env) && QuoteNow(s, id, env).price == 0) || env.multiplier == 0
            case NotLiquidatable => Ready(s, id, env) && !Over(s, id, env)
            case ExceedsCloseFactor => Ready(s, id, env) && repay * BPS > Owing(s.positions[id], s.config, env.now).debt * s.config.closeFactor
            case TransferFailed => repay > env.funds || s.vault + repay > U64_MAX || !env.CollateralMoves()
            case InvalidRiskParams => Readable(s, id, env) && QuoteNow(s, id, env).haircut >= BPS
            case MathOverflow => true
            case _ => false
  {
    hide ChargeFits, LtvAt, CheckedPrice, Sound, Accrue, SeizureTerms, Over, PriceRefused;
    if Present(s, id, true) && ChargeFits(s.positions[id], s.config, env.now) && repay > 0 {
      OwingInTotals(s, id, env.now);
      var p := Owing(s.positions[id], s.config, env.now);
      TermsRefusedHere(s, id, repay, env);
      if repay <= p.debt * s.config.closeFactor / BPS {
        LiquidationSubtracts(p.debt, s.config.closeFactor, repay);
      }
      if Readable(s, id, env) {
        HaircutDecides(s.markets[id.market], QuoteNow(s, id, env), env.multiplier);
      }
    }
  }

  lemma TermsRefusedHere(s: Ledger, id: PositionId, repay: u64, env: Env)
    requires Present(s, id, true) && ChargeFits(s.positions[id], s.config, env.now)
    ensures var p := Owing(s.positions[id], s.config, env.now);
            match SeizureTerms(p, s.markets[id.market], s.prices[id.market], s.config.closeFactor, repay, env)
            case Ok(seizure) => Readable(s, id, env) && seizure.quote == QuoteNow(s, id, env) && repay <= p.debt * s.config.closeFactor / BPS
            case Err(WrongOracle) => PriceRefused(s, id, env, WrongOracle)
            case Err(StalePrice) => PriceRefused(s, id, env, StalePrice)
            case Err(InvalidPrice) =>
              PriceRefused(s, id, env, InvalidPrice) || (Readable(s, id, env) && QuoteNow(s, id, env).price == 0) || env.multiplier == 0
            case Err(NotLiquidatable) => Ready(s, id, env) && !Over(s, id, env)
            case Err(ExceedsCloseFactor) => Ready(s, id, env) && repay * BPS > p.debt * s.config.closeFactor
            case Err(InvalidRiskParams) => Readable(s, id, env) && QuoteNow(s, id, env).haircut >= BPS
            case Err(e) => e == MathOverflow
  {
    hide ChargeFits, CheckedPrice, SeizureTerms, Accrue, OverThreshold;
    TermsRefused(Owing(s.positions[id], s.config, env.now), s.markets[id.market], s.prices[id.market], s.config.closeFactor, repay, env);
  }

  predicate Over(s: Ledger, id: PositionId, env: Env)
    requires Ready(s, id, env)
  {
    var p := Owing(s.positions[id], s.config, env.now);
    OverThreshold(p.collateral, p.debt, s.markets[id.market], QuoteNow(s, id, env), env.multiplier)
  }

  lemma LiquidationSubtracts(debt: u64, closeFactor: u16, repay: u64)
    requires closeFactor <= BPS && repay <= debt * closeFactor / BPS
    ensures repay <= debt
  {
    CloseFactorWithin(debt, closeFactor, repay);
  }

  lemma HaircutDecides(m: Market, quote: Quote, multiplier: u64)
    ensures forall c: u64, d: u64 :: LtvAt(c, d, m, quote, multiplier) == Err(InvalidRiskParams) ==> quote.haircut >= BPS
  {
  }

  lemma TermsRefused(p: Position, m: Market, signed: SignedPrice, closeFactor: u16, repay: u64, env: Env)
    ensures var quote := CheckedPrice(m, signed, env.now);
            match SeizureTerms(p, m, signed, closeFactor, repay, env)
            case Ok(seizure) => quote.Ok? && seizure.quote == quote.value && repay <= p.debt * closeFactor / BPS
            case Err(e) =>
              if quote.Err? then quote == Err(e) else
              (e == NotLiquidatable && !OverThreshold(p.collateral, p.debt, m, quote.value, env.multiplier))
              || (e == ExceedsCloseFactor && repay * BPS > p.debt * closeFactor)
              || (e == InvalidPrice && (quote.value.price == 0 || env.multiplier == 0))
              || (e == InvalidRiskParams && quote.value.haircut >= BPS)
              || e == MathOverflow
  {
    hide CheckedPrice, LtvAt, HasValue, FloorValue;
    if CheckedPrice(m, signed, env.now).Ok? {
      var quote := CheckedPrice(m, signed, env.now).value;
      LtvAnswers(p.collateral, p.debt, m.params.liqThreshold, m, quote, env.multiplier);
      HaircutDecides(m, quote, env.multiplier);
      FloorGe(p.debt * closeFactor, BPS, repay);
    }
  }
}
