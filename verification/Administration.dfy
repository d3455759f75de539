/** What the administrator, the price signer and the cashback authority can do, and what a pause
    stops. */
module Administration {
  import opened Outcomes
  import opened RiskMath
  import opened Bands
  import opened Ledger
  import opened Invariants
  import opened Positions
  import opened Admission

  /** The program starts exactly with a share, a cap and a factor of at most the whole, unpaused and
      with nothing owed to anyone. */
  lemma InitExactly(admin: Key, cashback: Key, signer: Key, share: u16, cap: u16, factor: u16)
    ensures var r := InitConfig(admin, cashback, signer, share, cap, factor);
            && (r.Ok? <==> share <= BPS && cap <= BPS && factor <= BPS)
            && (r.Ok? ==>
                  && r.value.config == Config(admin, cashback, signer, share, cap, factor, 0, 0, 0, false)
                  && r.value.vault == 0 && r.value.markets == map[] && r.value.positions == map[] && r.value.savers == map[])
  {
  }

  /** Only the administrator adds a market, only one that is not there, with accepted parameters and
      a mint that moves. It starts empty, with the mint's own decimals, so that a whole token is
      worth its price, and nothing else changes. */
  lemma AddMarketExactly(s: Ledger, signer: Key, m: Key, params: RiskParams, decimals: nat, oracle: bool, env: Env)
    ensures var r := AddMarket(s, signer, m, params, decimals, oracle, env);
            && (r.Ok? <==> signer == s.config.admin && m !in s.markets && params.Valid() && env.mintTransferable)
            && (r.Ok? ==>
                  && m in r.value.markets
                  && r.value == s.(markets := s.markets[m := r.value.markets[m]])
                  && var added := r.value.markets[m];
                  && added.params == params && added.signedOracle == oracle && added.totalCollateral == added.vault == 0
                  && forall price: nat :: TokenWorth(added, Pow10(decimals), price) == price)
  {
    forall price: nat
      ensures FloorValue(Pow10(decimals), MULTIPLIER_SCALE, price, 0, decimals) == price
    {
      OneToken(price, decimals);
    }
  }

  function TokenWorth(m: Market, amount: nat, price: nat): nat {
    FloorValue(amount, MULTIPLIER_SCALE, price, 0, m.decimals)
  }

  /** Only the administrator changes a market's parameters, to accepted ones, and nothing but them. */
  lemma UpdateMarketExactly(s: Ledger, signer: Key, m: Key, params: RiskParams)
    ensures var r := UpdateMarket(s, signer, m, params);
            && (r.Ok? <==> signer == s.config.admin && m in s.markets && params.Valid())
            && (r.Ok? ==> r.value == s.(markets := s.markets[m := s.markets[m].(params := params)]))
  {
  }

  /** Only the price signer posts a price, and only for a market of that kind. It is dated by the
      clock: from then on it is read, in millionths of a dollar, until both windows have passed. */
  lemma PostedPriceReads(s: Ledger, signer: Key, m: Key, price: int, expo: int, env: Env, later: int)
    requires env.now <= later
    ensures var r := SetSignedPrice(s, signer, m, price, expo, env);
            && (r.Ok? <==> signer == s.config.priceSigner && m in s.markets && s.markets[m].signedOracle && price > 0 && -12 <= expo <= 0)
            && (r.Ok? ==>
                  && m in r.value.prices
                  && r.value == s.(prices := s.prices[m := r.value.prices[m]])
                  && var params := s.markets[m].params;
                  && var quote := CheckedPrice(s.markets[m], r.value.prices[m], later);
                  && var age := later - env.now;
                  && (quote.Ok? <==> (age <= params.maxPriceAge || age <= params.closedMarketAge) && HasPrice(price, expo))
                  && (quote.Ok? ==>
                        quote.value.price * Pow10(18) <= price * Pow10(expo + 24) < (quote.value.price + 1) * Pow10(18)))
  {
    hide Pow10, CheckedPrice, HasPrice;
    var r := SetSignedPrice(s, signer, m, price, expo, env);
    if r.Ok? {
      QuoteExactly(s.markets[m], r.value.prices[m], later);
    }
  }

  /** Only the cashback authority deposits for others, and for it the deposit is like any other. */
  lemma DepositForExactly(s: Ledger, signer: Key, id: PositionId, amount: u64, withPrice: bool, env: Env)
    requires Sound(s)
    ensures DepositFor(s, signer, id, amount, withPrice, env).Ok? <==>
              signer == s.config.cashbackAuthority && MayDeposit(s, id, amount, withPrice, env)
    ensures signer == s.config.cashbackAuthority ==>
              DepositFor(s, signer, id, amount, withPrice, env) == Deposit(s, id, amount, withPrice, env)
  {
    hide Sound, Deposit, MayDeposit;
    DepositExactly(s, id, amount, withPrice, env);
  }

  // ----- the pause ---------------------------------------------------------------------------

  function Pausing(s: Ledger, paused: bool): Ledger {
    s.(config := s.config.(paused := paused))
  }

  function PausingResult(r: Result<Ledger>, paused: bool): Result<Ledger> {
    if r.Ok? then Ok(Pausing(r.value, paused)) else r
  }

  lemma AccruePausing(p: Position, c: Config, now: int, paused: bool)
    ensures var a, b := Accrue(p, c, now), Accrue(p, c.(paused := paused), now);
            b == if a.Ok? then Ok(a.value.(config := a.value.config.(paused := paused))) else a
  {
  }

  /** Only the administrator sets the pause. While it is set no loan is granted and no collateral
      released, and every other instruction does exactly what it would do without it. */
  lemma PauseStopsOnly(s: Ledger, action: Action, env: Env, paused: bool)
    ensures action.ActSetPause? ==>
              Step(s, action, env) == if action.signer == s.config.admin then Ok(Pausing(s, action.paused)) else Err(Unauthorized)
    ensures action.ActBorrow? || action.ActWithdraw? ==> Step(Pausing(s, true), action, env) == Err(Paused)
    ensures !action.ActSetPause? && !action.ActBorrow? && !action.ActWithdraw? ==>
              Step(Pausing(s, paused), action, env) == PausingResult(Step(s, action, env), paused)
  {
    hide Accrue, Deposit, Repay, Liquidate;
    match action
    case ActDeposit(id, amount, withPrice) => DepositPausing(s, id, amount, withPrice, env, paused);
    case ActDepositFor(_, id, amount, withPrice) => DepositPausing(s, id, amount, withPrice, env, paused);
    case ActRepay(id, amount, withPrice) => RepayPausing(s, id, amount, withPrice, env, paused);
    case ActLiquidate(id, repay) => LiquidatePausing(s, id, repay, env, paused);
    case ActBorrow(_, _, _) =>
    case ActWithdraw(_, _, _, _) =>
    case ActSetPause(_, _) =>
    case _ => OthersPausing(s, action, env, paused);
  }

  lemma OthersPausing(s: Ledger, action: Action, env: Env, paused: bool)
    requires !OnPosition(action) && !action.ActSetPause?
    ensures Step(Pausing(s, paused), action, env) == PausingResult(Step(s, action, env), paused)
  {
    hide RiskParams.Valid, PoolValue, SharesForDeposit, AmountForShares;
  }

  lemma DepositPausing(s: Ledger, id: PositionId, amount: u64, withPrice: bool, env: Env, paused: bool)
    ensures Deposit(Pausing(s, paused), id, amount, withPrice, env) == PausingResult(Deposit(s, id, amount, withPrice, env), paused)
  {
    hide Accrue, ReselectApr, SelectApr;
    if id.market in s.markets {
      AccruePausing(Opened(s, id, env.now), s.config, env.now, paused);
    }
  }

  lemma RepayPausing(s: Ledger, id: PositionId, amount: u64, withPrice: bool, env: Env, paused: bool)
    ensures Repay(Pausing(s, paused), id, amount, withPrice, env) == PausingResult(Repay(s, id, amount, withPrice, env), paused)
  {
    hide Accrue, ReselectApr;
    if id in s.positions {
      AccruePausing(s.positions[id], s.config, env.now, paused);
    }
  }

  lemma LiquidatePausing(s: Ledger, id: PositionId, repay: u64, env: Env, paused: bool)
    ensures Liquidate(Pausing(s, paused), id, repay, env) == PausingResult(Liquidate(s, id, repay, env), paused)
  {
    hide Accrue, SeizureTerms, LtvAt, SelectApr;
    if id in s.positions {
      AccruePausing(s.positions[id], s.config, env.now, paused);
    }
  }
}
