/** The accounts of the lending program and what each instruction does to them, as values.
    An instruction either yields the next ledger or an error; an error leaves no trace. */
module Ledger {
  import opened Outcomes
  import opened Rounding
  import opened RiskMath
  import opened Bands

  type Key = nat

  datatype RiskParams = RiskParams(
    maxLtv: u16,
    liqThreshold: u16,
    liqBonus: u16,
    haircut: u16,
    bands: seq<RateBand>,
    maxPriceAge: nat,
    closedMarketAge: nat,
    closedHaircut: u16)
  {
    ghost predicate Valid() {
      ValidRisk(maxLtv, liqThreshold, liqBonus, haircut, bands)
    }
  }

  /** `vault` is the token balance of the market's collateral vault, `totalCollateral` the
      program's own record of what positions hold in it. */
  datatype Market = Market(params: RiskParams, decimals: nat, signedOracle: bool, totalCollateral: u64, vault: u64)

  datatype SignedPrice = SignedPrice(price: int, expo: int, publishTime: int)

  datatype PositionId = PositionId(market: Key, owner: Key)

  datatype Position = Position(collateral: u64, debt: u64, lastAccrual: int, apr: u16)

  datatype Config = Config(
    admin: Key,
    cashbackAuthority: Key,
    priceSigner: Key,
    protocolShare: u16,
    maxUtilization: u16,
    closeFactor: u16,
    totalBorrowed: u64,
    totalShares: u64,
    reserve: u64,
    paused: bool)

  /** Everything ever charged, and all the cash that ever moved: a record kept for reasoning, read
      by no instruction. `accruals` counts the charges that were not zero, `stayed` is the part of
      the loans that was paid to the vault itself. */
  datatype Flows = Flows(
    interest: nat,
    accruals: nat,
    borrowed: nat,
    stayed: nat,
    repaid: nat,
    claimed: nat,
    saved: nat,
    redeemed: nat,
    donated: nat)
  {
    function Charge(amount: nat): Flows {
      if amount == 0 then this else this.(interest := interest + amount, accruals := accruals + 1)
    }
  }

  const NO_FLOWS: Flows := Flows(0, 0, 0, 0, 0, 0, 0, 0, 0)

  datatype Ledger = Ledger(
    config: Config,
    vault: u64,
    markets: map<Key, Market>,
    prices: map<Key, SignedPrice>,
    positions: map<PositionId, Position>,
    savers: map<Key, u64>,
    flows: Flows)

  /** What an instruction reads from outside the program: the clock, the collateral mint's
      display multiplier (in millionths), whether the mint, the collateral vault and the other
      party's collateral account let tokens move, the payer's balance, and whether the account
      named to receive a loan is the program's own vault. */
  datatype Env = Env(
    now: int,
    multiplier: u64,
    mintTransferable: bool,
    vaultFrozen: bool,
    partyFrozen: bool,
    funds: u64,
    ownVault: bool)
  {
    predicate VaultOpen() { mintTransferable && !vaultFrozen }
    predicate CollateralMoves() { VaultOpen() && !partyFrozen }
  }

  datatype Quote = Quote(price: u64, haircut: u16)

  // ----- prices ---------------------------------------------------------------

  function CheckedPrice(market: Market, signed: SignedPrice, now: int): (r: Result<Quote>)
    ensures r.Err? ==> r.error in {WrongOracle, InvalidPrice, StalePrice, MathOverflow}
  {
    var age := now - signed.publishTime;
    if !market.signedOracle then Err(WrongOracle)
    else if signed.price <= 0 || age < 0 then Err(InvalidPrice)
    else if age <= market.params.maxPriceAge then
      var price :- PriceToUsd6(signed.price, signed.expo);
      Ok(Quote(price, market.params.haircut))
    else if market.params.closedMarketAge > 0 && age <= market.params.closedMarketAge then
      var price :- PriceToUsd6(signed.price, signed.expo);
      Ok(Quote(price, market.params.closedHaircut))
    else Err(StalePrice)
  }

  function ValueOf(collateral: u64, market: Market, quote: Quote, multiplier: u64): Result<u64> {
    CollateralValue(collateral, multiplier, quote.price, quote.haircut, market.decimals)
  }

  function LtvAt(collateral: u64, debt: u64, market: Market, quote: Quote, multiplier: u64): (r: Result<u64>)
    ensures r.Err? ==> r.error in {MathOverflow, InvalidRiskParams}
  {
    var value :- ValueOf(collateral, market, quote, multiplier);
    LtvBps(debt, value)
  }

  // ----- token transfers ------------------------------------------------------

  function TransferIn(balance: u64, amount: u64, funds: u64): Result<u64> {
    if amount <= funds && balance + amount <= U64_MAX then Ok(balance + amount) else Err(TransferFailed)
  }

  function TransferOut(balance: u64, amount: u64): Result<u64> {
    if amount <= balance then Ok(balance - amount) else Err(TransferFailed)
  }

  /** A loan paid to the vault it comes from leaves the balance as it is. */
  function PayLoan(balance: u64, amount: u64, ownVault: bool): Result<u64> {
    var left :- TransferOut(balance, amount);
    Ok(if ownVault then balance else left)
  }

  // ----- interest -------------------------------------------------------------

  datatype Accrued = Accrued(position: Position, config: Config, interest: u64)

  /** A position's debt with the interest pending at a moment. */
  function DebtAt(p: Position, now: int): nat {
    if p.debt > 0 && now > p.lastAccrual then p.debt + Charge(p.debt, p.apr, now - p.lastAccrual) else p.debt
  }

  /** The interest pending fits every word it is added to. */
  predicate ChargeFits(p: Position, c: Config, now: int) {
    p.debt == 0 || now <= p.lastAccrual ||
    var interest := Charge(p.debt, p.apr, now - p.lastAccrual);
    && p.debt * p.apr * (now - p.lastAccrual) <= U128_MAX
    && p.debt + interest <= U64_MAX
    && c.totalBorrowed + interest <= U64_MAX
    && c.reserve + CeilDiv(interest * c.protocolShare, BPS) <= U64_MAX
  }

  function Accrue(p: Position, c: Config, now: int): (r: Result<Accrued>)
    ensures r.Ok? <==> ChargeFits(p, c, now)
    ensures r.Err? ==> r.error == MathOverflow
  {
    if p.debt > 0 && now > p.lastAccrual then
      var interest :- AccrueInterest(p.debt, p.apr, now - p.lastAccrual);
      if interest > 0 then
        var debt :- Add(p.debt, interest);
        var borrowed :- Add(c.totalBorrowed, interest);
        var share :- ReserveShare(interest, c.protocolShare);
        var reserve :- Add(c.reserve, share);
        Ok(Accrued(p.(debt := debt, lastAccrual := now), c.(totalBorrowed := borrowed, reserve := reserve), interest))
      else Ok(Accrued(p.(lastAccrual := now), c, 0))
    else Ok(Accrued(p.(lastAccrual := now), c, 0))
  }

  /** A position with its interest charged. */
  function Owing(p: Position, c: Config, now: int): (q: Position)
    requires ChargeFits(p, c, now)
    ensures q == p.(debt := q.debt, lastAccrual := now) && q.debt == DebtAt(p, now)
  {
    Accrue(p, c, now).value.position
  }

  function ReselectApr(p: Position, market: Market, signed: Option<SignedPrice>, env: Env): (r: Result<Position>)
    ensures r.Err? ==> r.error in {MathOverflow, InvalidRiskParams}
  {
    if p.debt == 0 then Ok(p.(apr := SelectApr(market.params.bands, 0)))
    else if signed.None? then Ok(p)
    else
      var quote := CheckedPrice(market, signed.value, env.now);
      if quote.Err? then Ok(p) else
      var ltv :- LtvAt(p.collateral, p.debt, market, quote.value, env.multiplier);
      Ok(p.(apr := SelectApr(market.params.bands, ltv)))
  }

  function PriceAccount(s: Ledger, m: Key, withPrice: bool): Option<SignedPrice> {
    if withPrice && m in s.prices then Some(s.prices[m]) else None
  }

  // ----- instructions on positions --------------------------------------------

  function Opened(s: Ledger, id: PositionId, now: int): Position
    requires id.market in s.markets
  {
    if id in s.positions then s.positions[id]
    else Position(0, 0, now, SelectApr(s.markets[id.market].params.bands, 0))
  }

  function Deposit(s: Ledger, id: PositionId, amount: u64, withPrice: bool, env: Env): Result<Ledger> {
    if !(id.market in s.markets && (withPrice ==> id.market in s.prices)) then Err(AccountMissing) else
    :- Need(amount > 0, ZeroAmount);
    var market := s.markets[id.market];
    var a :- Accrue(Opened(s, id, env.now), s.config, env.now);
    :- Need(env.CollateralMoves(), TransferFailed);
    var vault :- TransferIn(market.vault, amount, env.funds);
    var collateral :- Add(a.position.collateral, amount);
    var total :- Add(market.totalCollateral, amount);
    var position :- ReselectApr(a.position.(collateral := collateral), market,
                                PriceAccount(s, id.market, withPrice), env);
    Ok(s.(config := a.config,
          markets := s.markets[id.market := market.(totalCollateral := total, vault := vault)],
          positions := s.positions[id := position],
          flows := s.flows.Charge(a.interest)))
  }

  function DepositFor(s: Ledger, signer: Key, id: PositionId, amount: u64, withPrice: bool, env: Env): Result<Ledger> {
    if signer != s.config.cashbackAuthority then Err(Unauthorized) else
    Deposit(s, id, amount, withPrice, env)
  }

  /** The liquidity tests of a loan of `amount`, after interest. */
  function LendingRoom(vault: u64, c: Config, amount: u64): Check {
    match PoolValue(vault, c.totalBorrowed, c.reserve)
    case Err(e) => Refuse(e)
    case Ok(pool) =>
      match Add(c.totalBorrowed, amount)
      case Err(e) => Refuse(e)
      case Ok(borrowed) =>
        match UtilizationBps(borrowed, pool)
        case Err(e) => Refuse(e)
        case Ok(utilization) =>
          if utilization > c.maxUtilization then Refuse(PoolUtilizationCap)
          else IdleCash(vault, c.reserve, amount)
  }

  function IdleCash(vault: u64, reserve: u64, amount: u64): Check {
    Need(reserve <= vault && amount <= vault - reserve, InsufficientLiquidity)
  }

  function Borrow(s: Ledger, signer: Key, id: PositionId, amount: u64, env: Env): Result<Ledger> {
    if s.config.paused then Err(Paused) else
    :- Need(id.market in s.markets && id in s.positions && id.market in s.prices, AccountMissing);
    :- Need(signer == id.owner, Unauthorized);
    :- Need(amount > 0, ZeroAmount);
    var market := s.markets[id.market];
    var a :- Accrue(s.positions[id], s.config, env.now);
    :- Need(env.VaultOpen() && market.totalCollateral <= market.vault, MarketBlocked);
    var quote :- CheckedPrice(market, s.prices[id.market], env.now);
    var value :- ValueOf(a.position.collateral, market, quote, env.multiplier);
    var debt :- Add(a.position.debt, amount);
    var ltv :- LtvBps(debt, value);
    :- Need(ltv <= market.params.maxLtv, ExceedsMaxLtv);
    :- LendingRoom(s.vault, a.config, amount);
    var vault :- PayLoan(s.vault, amount, env.ownVault);
    var borrowed :- Add(a.config.totalBorrowed, amount);
    var position := a.position.(debt := debt, apr := SelectApr(market.params.bands, ltv));
    var flows := s.flows.Charge(a.interest);
    Ok(s.(config := a.config.(totalBorrowed := borrowed),
          vault := vault,
          positions := s.positions[id := position],
          flows := flows.(borrowed := flows.borrowed + amount, stayed := flows.stayed + if env.ownVault then amount else 0)))
  }

  function Repay(s: Ledger, id: PositionId, amount: u64, withPrice: bool, env: Env): Result<Ledger> {
    if !(id.market in s.markets && id in s.positions && (withPrice ==> id.market in s.prices)) then Err(AccountMissing) else
    :- Need(amount > 0, ZeroAmount);
    var a :- Accrue(s.positions[id], s.config, env.now);
    var paid := if amount <= a.position.debt then amount else a.position.debt;
    :- Need(paid > 0, ZeroAmount);
    var vault :- TransferIn(s.vault, paid, env.funds);
    var debt :- Minus(a.position.debt, paid);
    var borrowed :- Minus(a.config.totalBorrowed, paid);
    var position :- ReselectApr(a.position.(debt := debt), s.markets[id.market],
                                PriceAccount(s, id.market, withPrice), env);
    var flows := s.flows.Charge(a.interest);
    Ok(s.(config := a.config.(totalBorrowed := borrowed),
          vault := vault,
          positions := s.positions[id := position],
          flows := flows.(repaid := flows.repaid + paid)))
  }

  /** With debt left, the collateral that stays must keep the position within the limit. */
  function StaysCovered(p: Position, remaining: u64, market: Market, signed: Option<SignedPrice>, env: Env): Check {
    if p.debt == 0 then Pass
    else if signed.None? then Refuse(WrongOracle)
    else match CheckedPrice(market, signed.value, env.now)
      case Err(e) => Refuse(e)
      case Ok(quote) =>
        match LtvAt(remaining, p.debt, market, quote, env.multiplier)
        case Err(e) => Refuse(e)
        case Ok(ltv) => Need(ltv <= market.params.maxLtv, InsufficientCollateral)
  }

  function Withdraw(s: Ledger, signer: Key, id: PositionId, amount: u64, withPrice: bool, env: Env): Result<Ledger> {
    if s.config.paused then Err(Paused) else
    :- Need(id.market in s.markets && id in s.positions && (withPrice ==> id.market in s.prices), AccountMissing);
    :- Need(signer == id.owner, Unauthorized);
    :- Need(amount > 0, ZeroAmount);
    var market := s.markets[id.market];
    var signed := PriceAccount(s, id.market, withPrice);
    var a :- Accrue(s.positions[id], s.config, env.now);
    :- Need(amount <= a.position.collateral, InsufficientCollateral);
    :- StaysCovered(a.position, a.position.collateral - amount, market, signed, env);
    :- Need(env.CollateralMoves(), TransferFailed);
    var vault :- TransferOut(market.vault, amount);
    var collateral :- Minus(a.position.collateral, amount);
    var total :- Minus(market.totalCollateral, amount);
    var position :- ReselectApr(a.position.(collateral := collateral), market, signed, env);
    Ok(s.(config := a.config,
          markets := s.markets[id.market := market.(totalCollateral := total, vault := vault)],
          positions := s.positions[id := position],
          flows := s.flows.Charge(a.interest)))
  }

  datatype Seizure = Seizure(quote: Quote, amount: u64)

  /** Whether a position may be liquidated for `repay` now, and the collateral that pays for it:
      the formula's amount, capped at what is there. */
  function SeizureTerms(p: Position, market: Market, signed: SignedPrice, closeFactor: u16, repay: u64, env: Env): (r: Result<Seizure>)
    ensures r.Ok? ==> r.value.amount <= p.collateral
    ensures r != Err(Underflow)
  {
    var quote :- CheckedPrice(market, signed, env.now);
    var ltv :- LtvAt(p.collateral, p.debt, market, quote, env.multiplier);
    :- Need(ltv > market.params.liqThreshold, NotLiquidatable);
    :- Need(repay <= p.debt * closeFactor / BPS, ExceedsCloseFactor);
    var wanted :- SeizeAmount(repay, market.params.liqBonus, quote.price, env.multiplier, market.decimals);
    Ok(Seizure(quote, if wanted <= p.collateral then wanted else p.collateral))
  }

  function Liquidate(s: Ledger, id: PositionId, repay: u64, env: Env): Result<Ledger> {
    if !(id.market in s.markets && id in s.positions && id.market in s.prices) then Err(AccountMissing) else
    :- Need(repay > 0, ZeroAmount);
    var market := s.markets[id.market];
    var a :- Accrue(s.positions[id], s.config, env.now);
    var seizure :- SeizureTerms(a.position, market, s.prices[id.market], a.config.closeFactor, repay, env);
    var seized := seizure.amount;
    var vault :- TransferIn(s.vault, repay, env.funds);
    :- Need(env.CollateralMoves(), TransferFailed);
    var collateralVault :- TransferOut(market.vault, seized);
    var debt :- Minus(a.position.debt, repay);
    var collateral :- Minus(a.position.collateral, seized);
    var borrowed :- Minus(a.config.totalBorrowed, repay);
    var total :- Minus(market.totalCollateral, seized);
    var newLtv :- LtvAt(collateral, debt, market, seizure.quote, env.multiplier);
    var position := a.position.(debt := debt, collateral := collateral, apr := SelectApr(market.params.bands, newLtv));
    var flows := s.flows.Charge(a.interest);
    Ok(s.(config := a.config.(totalBorrowed := borrowed),
          vault := vault,
          markets := s.markets[id.market := market.(totalCollateral := total, vault := collateralVault)],
          positions := s.positions[id := position],
          flows := flows.(repaid := flows.repaid + repay)))
  }

  // ----- instructions on the savings pool -------------------------------------

  function SharesHeld(s: Ledger, saver: Key): u64 {
    if saver in s.savers then s.savers[saver] else 0
  }

  function DepositSavings(s: Ledger, saver: Key, amount: u64, env: Env): Result<Ledger> {
    if amount == 0 then Err(ZeroAmount) else
    var pool :- PoolValue(s.vault, s.config.totalBorrowed, s.config.reserve);
    var shares :- SharesForDeposit(amount, s.config.totalShares, pool);
    :- Need(shares > 0, ZeroAmount);
    var vault :- TransferIn(s.vault, amount, env.funds);
    var held :- Add(SharesHeld(s, saver), shares);
    var total :- Add(s.config.totalShares, shares);
    Ok(s.(config := s.config.(totalShares := total), vault := vault, savers := s.savers[saver := held],
          flows := s.flows.(saved := s.flows.saved + amount)))
  }

  function WithdrawSavings(s: Ledger, saver: Key, shares: u64): Result<Ledger> {
    if saver !in s.savers then Err(AccountMissing) else
    :- Need(shares > 0, ZeroAmount);
    :- Need(shares <= s.savers[saver], InsufficientCollateral);
    var pool :- PoolValue(s.vault, s.config.totalBorrowed, s.config.reserve);
    var amount :- AmountForShares(shares, s.config.totalShares, pool);
    :- Need(amount > 0, ZeroAmount);
    :- IdleCash(s.vault, s.config.reserve, amount);
    var vault :- TransferOut(s.vault, amount);
    var held :- Minus(s.savers[saver], shares);
    var total :- Minus(s.config.totalShares, shares);
    Ok(s.(config := s.config.(totalShares := total), vault := vault, savers := s.savers[saver := held],
          flows := s.flows.(redeemed := s.flows.redeemed + amount)))
  }

  function ClaimReserve(s: Ledger, signer: Key, amount: u64): Result<Ledger> {
    if signer != s.config.admin then Err(Unauthorized) else
    :- Need(amount > 0, ZeroAmount);
    :- Need(amount <= s.config.reserve, InsufficientLiquidity);
    var vault :- TransferOut(s.vault, amount);
    var reserve :- Minus(s.config.reserve, amount);
    Ok(s.(config := s.config.(reserve := reserve), vault := vault,
          flows := s.flows.(claimed := s.flows.claimed + amount)))
  }

  // ----- administration -------------------------------------------------------

  /** The program's first state, or an error when a share, cap or factor exceeds the whole. */
  function InitConfig(admin: Key, cashbackAuthority: Key, priceSigner: Key,
                      protocolShare: u16, maxUtilization: u16, closeFactor: u16): Result<Ledger> {
    if !(protocolShare <= BPS && maxUtilization <= BPS && closeFactor <= BPS) then Err(InvalidRiskParams) else
    Ok(Ledger(Config(admin, cashbackAuthority, priceSigner, protocolShare, maxUtilization, closeFactor, 0, 0, 0, false),
              0, map[], map[], map[], map[], NO_FLOWS))
  }

  ghost function AddMarket(s: Ledger, signer: Key, m: Key, params: RiskParams, decimals: nat, signedOracle: bool, env: Env)
    : Result<Ledger>
  {
    if signer != s.config.admin then Err(Unauthorized) else
    :- Need(m !in s.markets, AccountInUse);
    :- Need(params.Valid(), InvalidRiskParams);
    :- Need(env.mintTransferable, MarketBlocked);
    Ok(s.(markets := s.markets[m := Market(params, decimals, signedOracle, 0, 0)]))
  }

  ghost function UpdateMarket(s: Ledger, signer: Key, m: Key, params: RiskParams): Result<Ledger> {
    if signer != s.config.admin then Err(Unauthorized) else
    :- Need(m in s.markets, AccountMissing);
    :- Need(params.Valid(), InvalidRiskParams);
    Ok(s.(markets := s.markets[m := s.markets[m].(params := params)]))
  }

  function SetPause(s: Ledger, signer: Key, paused: bool): Result<Ledger> {
    if signer != s.config.admin then Err(Unauthorized) else
    Ok(s.(config := s.config.(paused := paused)))
  }

  function SetSignedPrice(s: Ledger, signer: Key, m: Key, price: int, expo: int, env: Env): Result<Ledger> {
    if signer != s.config.priceSigner then Err(Unauthorized) else
    :- Need(m in s.markets, AccountMissing);
    :- Need(s.markets[m].signedOracle, WrongOracle);
    :- Need(price > 0 && -12 <= expo <= 0, InvalidPrice);
    Ok(s.(prices := s.prices[m := SignedPrice(price, expo, env.now)]))
  }

  // ----- token transfers made outside the program ------------------------------

  function Donate(s: Ledger, amount: u64, env: Env): Result<Ledger> {
    var vault :- TransferIn(s.vault, amount, env.funds);
    Ok(s.(vault := vault, flows := s.flows.(donated := s.flows.donated + amount)))
  }

  function DonateCollateral(s: Ledger, m: Key, amount: u64, env: Env): Result<Ledger> {
    if m !in s.markets then Err(AccountMissing) else
    :- Need(env.CollateralMoves(), TransferFailed);
    var vault :- TransferIn(s.markets[m].vault, amount, env.funds);
    Ok(s.(markets := s.markets[m := s.markets[m].(vault := vault)]))
  }

  // ----- runs -----------------------------------------------------------------

  datatype Action =
    | ActAddMarket(signer: Key, m: Key, params: RiskParams, decimals: nat, signedOracle: bool)
    | ActUpdateMarket(signer: Key, m: Key, params: RiskParams)
    | ActSetPause(signer: Key, paused: bool)
    | ActSetSignedPrice(signer: Key, m: Key, price: int, expo: int)
    | ActDeposit(id: PositionId, amount: u64, withPrice: bool)
    | ActDepositFor(signer: Key, id: PositionId, amount: u64, withPrice: bool)
    | ActBorrow(signer: Key, id: PositionId, amount: u64)
    | ActRepay(id: PositionId, amount: u64, withPrice: bool)
    | ActWithdraw(signer: Key, id: PositionId, amount: u64, withPrice: bool)
    | ActLiquidate(id: PositionId, amount: u64)
    | ActDepositSavings(saver: Key, amount: u64)
    | ActWithdrawSavings(saver: Key, shares: u64)
    | ActClaimReserve(signer: Key, amount: u64)
    | ActDonate(amount: u64)
    | ActDonateCollateral(m: Key, amount: u64)

  ghost function Step(s: Ledger, action: Action, env: Env): Result<Ledger> {
    match action
    case ActAddMarket(signer, m, params, decimals, oracle) => AddMarket(s, signer, m, params, decimals, oracle, env)
    case ActUpdateMarket(signer, m, params) => UpdateMarket(s, signer, m, params)
    case ActSetPause(signer, paused) => SetPause(s, signer, paused)
    case ActSetSignedPrice(signer, m, price, expo) => SetSignedPrice(s, signer, m, price, expo, env)
    case ActDeposit(id, amount, withPrice) => Deposit(s, id, amount, withPrice, env)
    case ActDepositFor(signer, id, amount, withPrice) => DepositFor(s, signer, id, amount, withPrice, env)
    case ActBorrow(signer, id, amount) => Borrow(s, signer, id, amount, env)
    case ActRepay(id, amount, withPrice) => Repay(s, id, amount, withPrice, env)
    case ActWithdraw(signer, id, amount, withPrice) => Withdraw(s, signer, id, amount, withPrice, env)
    case ActLiquidate(id, amount) => Liquidate(s, id, amount, env)
    case ActDepositSavings(saver, amount) => DepositSavings(s, saver, amount, env)
    case ActWithdrawSavings(saver, shares) => WithdrawSavings(s, saver, shares)
    case ActClaimReserve(signer, amount) => ClaimReserve(s, signer, amount)
    case ActDonate(amount) => Donate(s, amount, env)
    case ActDonateCollateral(m, amount) => DonateCollateral(s, m, amount, env)
  }

  /** A failed instruction changes nothing. */
  ghost function After(s: Ledger, action: Action, env: Env): Ledger {
    var r := Step(s, action, env);
    if r.Ok? then r.value else s
  }

  datatype Event = Event(action: Action, env: Env)

  ghost function Run(s: Ledger, trace: seq<Event>): Ledger
    decreases trace
  {
    if trace == [] then s else Run(After(s, trace[0].action, trace[0].env), trace[1..])
  }
}
