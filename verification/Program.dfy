/** The lending program itself: accounts updated in place, one method for each instruction.
    As the runtime does, a method works on copies of the accounts it loads and writes them back
    only when every check has passed, so a refused instruction leaves no trace. */
module Program {
  import opened Outcomes
  import opened RiskMath
  import opened Bands
  import opened Ledger
  import opened Invariants
  import opened Promises
  import L = Ledger

  /** Interest first: raises a position's debt, the total lent and the reserve. */
  method AccrueInterestNow(p: Position, c: Config, now: int) returns (r: Result<Accrued>)
    ensures r == L.Accrue(p, c, now)
  {
    var position, config, charged := p, c, 0;
    if position.debt > 0 && now > position.lastAccrual {
      var interest :- AccrueInterest(position.debt, position.apr, now - position.lastAccrual);
      if interest > 0 {
        var debt :- Add(position.debt, interest);
        position := position.(debt := debt);
        var borrowed :- Add(config.totalBorrowed, interest);
        config := config.(totalBorrowed := borrowed);
        var share :- ReserveShare(interest, config.protocolShare);
        var reserve :- Add(config.reserve, share);
        config := config.(reserve := reserve);
        charged := interest;
      }
    }
    position := position.(lastAccrual := now);
    return Ok(Accrued(position, config, charged));
  }

  method Reselect(p: Position, market: Market, signed: Option<SignedPrice>, env: Env) returns (r: Result<Position>)
    ensures r == L.ReselectApr(p, market, signed, env)
  {
    var apr := p.apr;
    if p.debt == 0 {
      apr := SelectAprBps(market.params.bands, 0);
      return Ok(p.(apr := apr));
    }
    if signed.None? {
      return Ok(p);
    }
    var quote := CheckedPrice(market, signed.value, env.now);
    if quote.Ok? {
      var value :- ValueOf(p.collateral, market, quote.value, env.multiplier);
      var ltv :- LtvBps(p.debt, value);
      apr := SelectAprBps(market.params.bands, ltv);
    }
    return Ok(p.(apr := apr));
  }

  /** What the withdrawal test has priced, the rate selection after it can price too. */
  lemma PricedAlready(p: Position, market: Market, signed: Option<SignedPrice>, remaining: u64, env: Env)
    requires L.StaysCovered(p, remaining, market, signed, env).Pass?
    ensures L.ReselectApr(p.(collateral := remaining), market, signed, env).Ok?
  {
  }

  method GuardWithdrawal(p: Position, remaining: u64, market: Market, signed: Option<SignedPrice>, env: Env)
    returns (covered: Check)
    ensures covered == L.StaysCovered(p, remaining, market, signed, env)
  {
    if p.debt > 0 {
      if signed.None? {
        return Refuse(WrongOracle);
      }
      var quote := CheckedPrice(market, signed.value, env.now);
      if quote.Err? {
        return Refuse(quote.error);
      }
      var ltv := LtvAt(remaining, p.debt, market, quote.value, env.multiplier);
      if ltv.Err? {
        return Refuse(ltv.error);
      }
      return Need(ltv.value <= market.params.maxLtv, InsufficientCollateral);
    }
    return Pass;
  }

  method Seize(p: Position, market: Market, signed: SignedPrice, closeFactor: u16, repay: u64, env: Env)
    returns (r: Result<Seizure>)
    ensures r == L.SeizureTerms(p, market, signed, closeFactor, repay, env)
  {
    var quote :- CheckedPrice(market, signed, env.now);
    var value :- ValueOf(p.collateral, market, quote, env.multiplier);
    var ltv :- LtvBps(p.debt, value);
    :- Need(ltv > market.params.liqThreshold, NotLiquidatable);
    var maxRepay := p.debt * closeFactor / BPS;
    :- Need(repay <= maxRepay, ExceedsCloseFactor);
    var seize :- SeizeAmount(repay, market.params.liqBonus, quote.price, env.multiplier, market.decimals);
    if seize > p.collateral {
      seize := p.collateral;
    }
    return Ok(Seizure(quote, seize));
  }

  method GuardLending(vault: u64, c: Config, amount: u64) returns (room: Check)
    ensures room == L.LendingRoom(vault, c, amount)
  {
    var pool := PoolValue(vault, c.totalBorrowed, c.reserve);
    if pool.Err? {
      return Refuse(pool.error);
    }
    var borrowed := Add(c.totalBorrowed, amount);
    if borrowed.Err? {
      return Refuse(borrowed.error);
    }
    var utilization := UtilizationBps(borrowed.value, pool.value);
    if utilization.Err? {
      return Refuse(utilization.error);
    }
    if utilization.value > c.maxUtilization {
      return Refuse(PoolUtilizationCap);
    }
    if c.reserve > vault {
      return Refuse(InsufficientLiquidity);
    }
    var idle := vault - c.reserve;
    return Need(idle >= amount, InsufficientLiquidity);
  }

  class StockCard {
    var config: Config
    var vault: u64
    var markets: map<Key, Market>
    var prices: map<Key, SignedPrice>
    var positions: map<PositionId, Position>
    var savers: map<Key, u64>
    ghost var flows: Flows

    ghost function State(): Ledger
      reads this
    {
      L.Ledger(config, vault, markets, prices, positions, savers, flows)
    }

    constructor (config: Config)
      ensures State() == L.Ledger(config, 0, map[], map[], map[], map[], NO_FLOWS)
    {
      this.config, vault := config, 0;
      markets, prices, positions, savers := map[], map[], map[], map[];
      flows := NO_FLOWS;
    }

    static method InitConfig(admin: Key, cashbackAuthority: Key, priceSigner: Key,
                             protocolShare: u16, maxUtilization: u16, closeFactor: u16)
      returns (r: Result<StockCard>)
      ensures var spec := L.InitConfig(admin, cashbackAuthority, priceSigner, protocolShare, maxUtilization, closeFactor);
              match r
              case Ok(program) => spec.Ok? && fresh(program) && program.State() == spec.value && Inv(program.State())
              case Err(e) => spec == Err(e)
    {
      if protocolShare > BPS || maxUtilization > BPS || closeFactor > BPS {
        return Err(InvalidRiskParams);
      }
      ReachableStates(admin, cashbackAuthority, priceSigner, protocolShare, maxUtilization, closeFactor, []);
      var program := new StockCard(
        Config(admin, cashbackAuthority, priceSigner, protocolShare, maxUtilization, closeFactor, 0, 0, 0, false));
      return Ok(program);
    }

    // ----- collateral and debt ----------------------------------------------------

    method Deposit(id: PositionId, amount: u64, withPrice: bool, env: Env) returns (r: Result<()>)
      modifies this
      ensures (r, State()) == Apply(old(State()), L.Deposit(old(State()), id, amount, withPrice, env))
      ensures Safely(old(State()), r, State(), None)
      ensures Deposits(old(State()), r, State(), id, amount, withPrice, env)
    {
      hide Safely, Deposits;
      DepositAsPromised(State(), id, amount, withPrice, env);
      StepIsSafe(State(), ActDeposit(id, amount, withPrice), env);
      if !(id.market in markets && (withPrice ==> id.market in prices)) {
        return Err(AccountMissing);
      }
      :- Need(amount > 0, ZeroAmount);
      var market := markets[id.market];
      var position;
      if id in positions {
        position := positions[id];
      } else {
        var apr := SelectAprBps(market.params.bands, 0);
        position := Position(0, 0, env.now, apr);
      }
      var a :- AccrueInterestNow(position, config, env.now);
      position := a.position;
      :- Need(env.CollateralMoves(), TransferFailed);
      var received :- TransferIn(market.vault, amount, env.funds);
      var collateral :- Add(position.collateral, amount);
      position := position.(collateral := collateral);
      var total :- Add(market.totalCollateral, amount);
      position :- Reselect(position, market, if withPrice then Some(prices[id.market]) else None, env);
      config := a.config;
      markets := markets[id.market := market.(totalCollateral := total, vault := received)];
      positions := positions[id := position];
      flows := flows.Charge(a.interest);
      return Ok(());
    }

    method DepositFor(signer: Key, id: PositionId, amount: u64, withPrice: bool, env: Env) returns (r: Result<()>)
      modifies this
      ensures (r, State()) == Apply(old(State()), L.DepositFor(old(State()), signer, id, amount, withPrice, env))
      ensures Safely(old(State()), r, State(), None)
    {
      hide Safely;
      StepIsSafe(State(), ActDepositFor(signer, id, amount, withPrice), env);
      if signer != config.cashbackAuthority {
        return Err(Unauthorized);
      }
      r := Deposit(id, amount, withPrice, env);
    }

    method Borrow(signer: Key, id: PositionId, amount: u64, env: Env) returns (r: Result<()>)
      modifies this
      ensures (r, State()) == Apply(old(State()), L.Borrow(old(State()), signer, id, amount, env))
      ensures Safely(old(State()), r, State(), None)
      ensures Lends(old(State()), r, State(), signer, id, amount, env)
    {
      hide L.Accrue, CheckedPrice, ValueOf, LtvBps, Safely, Lends;
      BorrowAsPromised(State(), signer, id, amount, env);
      StepIsSafe(State(), ActBorrow(signer, id, amount), env);
      :- Need(!config.paused, Paused);
      :- Need(id.market in markets && id in positions && id.market in prices, AccountMissing);
      :- Need(signer == id.owner, Unauthorized);
      :- Need(amount > 0, ZeroAmount);
      var market := markets[id.market];
      var a :- AccrueInterestNow(positions[id], config, env.now);
      var position, cfg := a.position, a.config;
      :- Need(env.VaultOpen() && market.totalCollateral <= market.vault, MarketBlocked);
      var quote :- CheckedPrice(market, prices[id.market], env.now);
      var value :- ValueOf(position.collateral, market, quote, env.multiplier);
      var newDebt :- Add(position.debt, amount);
      var ltv :- LtvBps(newDebt, value);
      :- Need(ltv <= market.params.maxLtv, ExceedsMaxLtv);
      var room := GuardLending(vault, cfg, amount);
      :- room;
      var wouldBorrow := cfg.totalBorrowed + amount;
      var left := if env.ownVault then vault else vault - amount;
      var apr := SelectAprBps(market.params.bands, ltv);
      vault := left;
      positions := positions[id := position.(debt := newDebt, apr := apr)];
      config := cfg.(totalBorrowed := wouldBorrow);
      flows := flows.Charge(a.interest);
      flows := flows.(borrowed := flows.borrowed + amount, stayed := flows.stayed + if env.ownVault then amount else 0);
      return Ok(());
    }

    method Repay(id: PositionId, amount: u64, withPrice: bool, env: Env) returns (r: Result<()>)
      modifies this
      ensures (r, State()) == Apply(old(State()), L.Repay(old(State()), id, amount, withPrice, env))
      ensures Safely(old(State()), r, State(), None)
      ensures Repays(old(State()), r, State(), id, amount, withPrice, env)
    {
      hide L.Accrue, L.ReselectApr, Safely, Repays;
      RepayAsPromised(State(), id, amount, withPrice, env);
      StepIsSafe(State(), ActRepay(id, amount, withPrice), env);
      :- Need(id.market in markets && id in positions && (withPrice ==> id.market in prices), AccountMissing);
      :- Need(amount > 0, ZeroAmount);
      var a :- AccrueInterestNow(positions[id], config, env.now);
      var position, cfg := a.position, a.config;
      var paid := if amount <= position.debt then amount else position.debt;
      :- Need(paid > 0, ZeroAmount);
      var received :- TransferIn(vault, paid, env.funds);
      position := position.(debt := position.debt - paid);
      var borrowed :- Minus(cfg.totalBorrowed, paid);
      position :- Reselect(position, markets[id.market], if withPrice then Some(prices[id.market]) else None, env);
      vault := received;
      positions := positions[id := position];
      config := cfg.(totalBorrowed := borrowed);
      flows := flows.Charge(a.interest);
      flows := flows.(repaid := flows.repaid + paid);
      return Ok(());
    }

    method Withdraw(signer: Key, id: PositionId, amount: u64, withPrice: bool, env: Env) returns (r: Result<()>)
      modifies this
      ensures (r, State()) == Apply(old(State()), L.Withdraw(old(State()), signer, id, amount, withPrice, env))
      ensures Safely(old(State()), r, State(), None)
      ensures Releases(old(State()), r, State(), signer, id, amount, withPrice, env)
    {
      hide L.Accrue, L.ReselectApr, L.StaysCovered, Safely, Releases;
      WithdrawAsPromised(State(), signer, id, amount, withPrice, env);
      StepIsSafe(State(), ActWithdraw(signer, id, amount, withPrice), env);
      :- Need(!config.paused, Paused);
      :- Need(id.market in markets && id in positions && (withPrice ==> id.market in prices), AccountMissing);
      :- Need(signer == id.owner, Unauthorized);
      :- Need(amount > 0, ZeroAmount);
      var market := markets[id.market];
      var signed := if withPrice then Some(prices[id.market]) else None;
      var a :- AccrueInterestNow(positions[id], config, env.now);
      var position := a.position;
      :- Need(amount <= position.collateral, InsufficientCollateral);
      var covered := GuardWithdrawal(position, position.collateral - amount, market, signed, env);
      :- covered;
      :- Need(env.CollateralMoves(), TransferFailed);
      var left :- TransferOut(market.vault, amount);
      position := position.(collateral := position.collateral - amount);
      var total :- Minus(market.totalCollateral, amount);
      PricedAlready(a.position, market, signed, position.collateral, env);
      var reselected := Reselect(position, market, signed, env);
      position := reselected.value;
      config := a.config;
      markets := markets[id.market := market.(totalCollateral := total, vault := left)];
      positions := positions[id := position];
      flows := flows.Charge(a.interest);
      return Ok(());
    }

    method Liquidate(id: PositionId, repay: u64, env: Env) returns (r: Result<()>)
      modifies this
      ensures (r, State()) == Apply(old(State()), L.Liquidate(old(State()), id, repay, env))
      ensures Safely(old(State()), r, State(), None)
      ensures Liquidates(old(State()), r, State(), id, repay, env)
    {
      hide L.Accrue, L.SeizureTerms, LtvAt, Safely, Liquidates;
      LiquidateAsPromised(State(), id, repay, env);
      StepIsSafe(State(), ActLiquidate(id, repay), env);
      :- Need(id.market in markets && id in positions && id.market in prices, AccountMissing);
      :- Need(repay > 0, ZeroAmount);
      var market := markets[id.market];
      var a :- AccrueInterestNow(positions[id], config, env.now);
      var position, cfg := a.position, a.config;
      var seizure :- Seize(position, market, prices[id.market], cfg.closeFactor, repay, env);
      var seize := seizure.amount;
      var received :- TransferIn(vault, repay, env.funds);
      :- Need(env.CollateralMoves(), TransferFailed);
      var left :- TransferOut(market.vault, seize);
      var debt :- Minus(position.debt, repay);
      position := position.(debt := debt, collateral := position.collateral - seize);
      var borrowed :- Minus(cfg.totalBorrowed, repay);
      var total :- Minus(market.totalCollateral, seize);
      var ltv :- LtvAt(position.collateral, position.debt, market, seizure.quote, env.multiplier);
      var apr := SelectAprBps(market.params.bands, ltv);
      vault := received;
      config := cfg.(totalBorrowed := borrowed);
      markets := markets[id.market := market.(totalCollateral := total, vault := left)];
      positions := positions[id := position.(apr := apr)];
      flows := flows.Charge(a.interest);
      flows := flows.(repaid := flows.repaid + repay);
      return Ok(());
    }

    // ----- savings ----------------------------------------------------------------

    method DepositSavings(saver: Key, amount: u64, env: Env) returns (r: Result<()>)
      modifies this
      ensures (r, State()) == Apply(old(State()), L.DepositSavings(old(State()), saver, amount, env))
      ensures Safely(old(State()), r, State(), Some(saver))
      ensures Saves(old(State()), r, State(), saver, amount, env)
    {
      hide Safely, Saves;
      DepositSavingsAsPromised(State(), saver, amount, env);
      StepIsSafe(State(), ActDepositSavings(saver, amount), env);
      if amount == 0 {
        return Err(ZeroAmount);
      }
      var pool :- PoolValue(vault, config.totalBorrowed, config.reserve);
      var shares :- SharesForDeposit(amount, config.totalShares, pool);
      :- Need(shares > 0, ZeroAmount);
      var received :- TransferIn(vault, amount, env.funds);
      var held: u64 := if saver in savers then savers[saver] else 0;
      held :- Add(held, shares);
      var total :- Add(config.totalShares, shares);
      vault := received;
      savers := savers[saver := held];
      flows := flows.(saved := flows.saved + amount);
      config := config.(totalShares := total);
      return Ok(());
    }

    method WithdrawSavings(saver: Key, shares: u64) returns (r: Result<()>)
      modifies this
      ensures (r, State()) == Apply(old(State()), L.WithdrawSavings(old(State()), saver, shares))
      ensures Safely(old(State()), r, State(), Some(saver))
      ensures Redeems(old(State()), r, State(), saver, shares)
    {
      hide Safely, Redeems;
      WithdrawSavingsAsPromised(State(), saver, shares);
      StepIsSafe(State(), ActWithdrawSavings(saver, shares), QUIET);
      if saver !in savers {
        return Err(AccountMissing);
      }
      :- Need(shares > 0, ZeroAmount);
      :- Need(shares <= savers[saver], InsufficientCollateral);
      var pool :- PoolValue(vault, config.totalBorrowed, config.reserve);
      var amount :- AmountForShares(shares, config.totalShares, pool);
      :- Need(amount > 0, ZeroAmount);
      :- Need(config.reserve <= vault, InsufficientLiquidity);
      var idle := vault - config.reserve;
      :- Need(idle >= amount, InsufficientLiquidity);
      var left := vault - amount;
      var held := savers[saver] - shares;
      var total :- Minus(config.totalShares, shares);
      vault := left;
      savers := savers[saver := held];
      flows := flows.(redeemed := flows.redeemed + amount);
      config := config.(totalShares := total);
      return Ok(());
    }

    method ClaimReserve(signer: Key, amount: u64) returns (r: Result<()>)
      modifies this
      ensures (r, State()) == Apply(old(State()), L.ClaimReserve(old(State()), signer, amount))
      ensures Safely(old(State()), r, State(), None)
      ensures Claims(old(State()), r, State(), signer, amount)
    {
      hide Safely, Claims;
      ClaimReserveAsPromised(State(), signer, amount);
      StepIsSafe(State(), ActClaimReserve(signer, amount), QUIET);
      if signer != config.admin {
        return Err(Unauthorized);
      }
      :- Need(amount > 0, ZeroAmount);
      :- Need(amount <= config.reserve, InsufficientLiquidity);
      var left :- TransferOut(vault, amount);
      vault := left;
      config := config.(reserve := config.reserve - amount);
      flows := flows.(claimed := flows.claimed + amount);
      return Ok(());
    }

    // ----- administration -----------------------------------------------------------

    method AddMarket(signer: Key, m: Key, params: RiskParams, decimals: nat, signedOracle: bool, env: Env)
      returns (r: Result<()>)
      modifies this
      ensures (r, State()) == Apply(old(State()), L.AddMarket(old(State()), signer, m, params, decimals, signedOracle, env))
      ensures Safely(old(State()), r, State(), None)
    {
      hide Safely;
      StepIsSafe(State(), ActAddMarket(signer, m, params, decimals, signedOracle), env);
      if signer != config.admin {
        return Err(Unauthorized);
      }
      :- Need(m !in markets, AccountInUse);
      var accepted := ValidateRiskParams(params.maxLtv, params.liqThreshold, params.liqBonus, params.haircut, params.bands);
      :- accepted;
      :- Need(env.mintTransferable, MarketBlocked);
      markets := markets[m := Market(params, decimals, signedOracle, 0, 0)];
      return Ok(());
    }

    method UpdateMarket(signer: Key, m: Key, params: RiskParams) returns (r: Result<()>)
      modifies this
      ensures (r, State()) == Apply(old(State()), L.UpdateMarket(old(State()), signer, m, params))
      ensures Safely(old(State()), r, State(), None)
    {
      hide Safely;
      StepIsSafe(State(), ActUpdateMarket(signer, m, params), QUIET);
      if signer != config.admin {
        return Err(Unauthorized);
      }
      :- Need(m in markets, AccountMissing);
      var accepted := ValidateRiskParams(params.maxLtv, params.liqThreshold, params.liqBonus, params.haircut, params.bands);
      :- accepted;
      markets := markets[m := markets[m].(params := params)];
      return Ok(());
    }

    method SetPause(signer: Key, paused: bool) returns (r: Result<()>)
      modifies this
      ensures (r, State()) == Apply(old(State()), L.SetPause(old(State()), signer, paused))
      ensures Safely(old(State()), r, State(), None)
    {
      hide Safely;
      StepIsSafe(State(), ActSetPause(signer, paused), QUIET);
      if signer != config.admin {
        return Err(Unauthorized);
      }
      config := config.(paused := paused);
      return Ok(());
    }

    method SetSignedPrice(signer: Key, m: Key, price: int, expo: int, env: Env) returns (r: Result<()>)
      modifies this
      ensures (r, State()) == Apply(old(State()), L.SetSignedPrice(old(State()), signer, m, price, expo, env))
      ensures Safely(old(State()), r, State(), None)
    {
      hide Safely;
      StepIsSafe(State(), ActSetSignedPrice(signer, m, price, expo), env);
      if signer != config.priceSigner {
        return Err(Unauthorized);
      }
      :- Need(m in markets, AccountMissing);
      :- Need(markets[m].signedOracle, WrongOracle);
      :- Need(price > 0 && -12 <= expo <= 0, InvalidPrice);
      prices := prices[m := SignedPrice(price, expo, env.now)];
      return Ok(());
    }
  }
}
