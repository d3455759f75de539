/** What every instruction keeps, and hence what holds in every reachable state. */
module Invariants {
  import opened Outcomes
  import opened Rounding
  import opened RiskMath
  import opened Bands
  import opened Sums
  import opened Ledger

  function DebtOf(id: PositionId, p: Position): nat { p.debt }

  function SharesOf(saver: Key, shares: u64): nat { shares }

  function CollateralOf(m: Key, id: PositionId, p: Position): nat {
    if id.market == m then p.collateral else 0
  }

  function CollateralIn(m: Key): (PositionId, Position) -> nat {
    (id: PositionId, p: Position) => CollateralOf(m, id, p)
  }

  /** The totals kept by the program are the sums of the accounts behind them. */
  ghost predicate LedgersAgree(s: Ledger) {
    && s.config.totalBorrowed == Sum(s.positions, DebtOf)
    && s.config.totalShares == Sum(s.savers, SharesOf)
    && (forall m | m in s.markets :: s.markets[m].totalCollateral == Sum(s.positions, CollateralIn(m)))
    && (forall id | id in s.positions :: id.market in s.markets)
  }

  /** What savers own: cash plus loans, less the protocol's reserve. */
  function Pool(s: Ledger): int {
    s.vault + s.config.totalBorrowed - s.config.reserve
  }

  /** A share is always worth at least the one unit it was first sold for. */
  ghost predicate PoolSound(s: Ledger) {
    Pool(s) >= s.config.totalShares
  }

  ghost predicate VaultsHold(s: Ledger) {
    forall m | m in s.markets :: s.markets[m].totalCollateral <= s.markets[m].vault
  }

  ghost predicate Parameters(s: Ledger) {
    && s.config.protocolShare <= BPS && s.config.maxUtilization <= BPS && s.config.closeFactor <= BPS
    && (forall m | m in s.markets :: s.markets[m].params.Valid())
    && (forall m | m in s.prices :: m in s.markets && s.prices[m].price > 0 && -12 <= s.prices[m].expo <= 0)
    && (forall id | id in s.positions :: 1 <= s.positions[id].apr <= MAX_APR)
  }

  /** All interest ever charged is still lent out or was repaid, and the protocol's cut of it,
      claimed or not, exceeds its exact share by less than one unit for each charge. */
  ghost predicate InterestAccounted(f: Flows, c: Config) {
    var cut := c.reserve + f.claimed;
    && f.interest + f.borrowed == c.totalBorrowed + f.repaid
    && f.interest * c.protocolShare <= cut * BPS
    && (f.accruals == 0 ==> f.interest == cut == 0)
    && (f.accruals > 0 ==> cut * BPS < f.interest * c.protocolShare + f.accruals * BPS)
    && cut <= f.interest
  }

  /** The vault holds what was ever paid in less what was ever paid out. */
  ghost predicate CashAccounted(s: Ledger) {
    var f := s.flows;
    s.vault == f.saved + f.repaid + f.stayed + f.donated - f.redeemed - f.borrowed - f.claimed
  }

  ghost predicate Sound(s: Ledger) {
    LedgersAgree(s) && PoolSound(s) && VaultsHold(s) && Parameters(s)
  }

  ghost predicate Inv(s: Ledger) {
    Sound(s) && InterestAccounted(s.flows, s.config) && CashAccounted(s)
  }

  // ----- instructions on positions ---------------------------------------------

  /** What an instruction on a position moves: interest charged and the protocol's share of it,
      cash lent or paid in, collateral in (positive) or out (negative), and how much of the loan
      never left the vault because it was paid to the vault itself. */
  datatype Move = Move(interest: nat, share: nat, lent: nat, paid: nat, collateral: int, stayed: nat)

  /** The protocol's share is its percentage of the interest rounded up, at most all of it. */
  ghost predicate FairShare(mv: Move, protocolShare: nat) {
    && mv.share <= mv.interest
    && mv.interest * protocolShare <= mv.share * BPS
    && (mv.interest == 0 ==> mv.share == 0)
    && (mv.interest > 0 ==> mv.share * BPS < mv.interest * protocolShare + BPS)
  }

  function Before(s: Ledger, id: PositionId): Position {
    if id in s.positions then s.positions[id] else Position(0, 0, 0, 0)
  }

  /** The ledger `t` is `s` after moving exactly `mv` on one position, every total included. */
  ghost predicate Moved(s: Ledger, t: Ledger, id: PositionId, mv: Move) {
    && id.market in s.markets
    && id in t.positions
    && var p := t.positions[id];
    && var m := s.markets[id.market];
    && var n := t.markets;
    && FairShare(mv, s.config.protocolShare)
    && t.positions == s.positions[id := p]
    && p.debt == Before(s, id).debt + mv.interest + mv.lent - mv.paid
    && p.collateral == Before(s, id).collateral + mv.collateral
    && 1 <= p.apr <= MAX_APR
    && id.market in n
    && n == s.markets[id.market := n[id.market]]
    && n[id.market] == m.(totalCollateral := n[id.market].totalCollateral, vault := n[id.market].vault)
    && n[id.market].totalCollateral == m.totalCollateral + mv.collateral
    && n[id.market].vault == m.vault + mv.collateral
    && mv.stayed <= mv.lent
    && t.vault == s.vault - mv.lent + mv.stayed + mv.paid
    && t.config == s.config.(totalBorrowed := t.config.totalBorrowed, reserve := t.config.reserve)
    && t.config.totalBorrowed == s.config.totalBorrowed + mv.interest + mv.lent - mv.paid
    && t.config.reserve == s.config.reserve + mv.share
    && t.prices == s.prices && t.savers == s.savers
    && var f := s.flows.Charge(mv.interest);
    && t.flows == f.(borrowed := f.borrowed + mv.lent, stayed := f.stayed + mv.stayed, repaid := f.repaid + mv.paid)
  }

  /** The interest and the protocol's share of it, rounded up. */
  lemma ShareOf(interest: nat, protocolShare: nat) returns (mv: Move)
    requires protocolShare <= BPS
    ensures mv == Move(interest, mv.share, 0, 0, 0, 0) && FairShare(mv, protocolShare)
    ensures interest * protocolShare >= 0 && mv.share == CeilDiv(interest * protocolShare, BPS)
  {
    MulLe(0, interest, protocolShare);
    MulLe(protocolShare, BPS, interest);
    CeilLe(interest * protocolShare, BPS, interest);
    mv := Move(interest, CeilDiv(interest * protocolShare, BPS), 0, 0, 0, 0);
    assert (mv.share - 1) * BPS == mv.share * BPS - BPS;
  }

  /** A successful accrual raises the debt and the total by the same interest, and the reserve
      by the protocol's share of it rounded up, which is never more than the interest. */
  lemma AccrueMoves(p: Position, c: Config, now: int) returns (mv: Move)
    requires Accrue(p, c, now).Ok? && c.protocolShare <= BPS
    ensures var a := Accrue(p, c, now).value;
            && mv == Move(a.interest, mv.share, 0, 0, 0, 0)
            && FairShare(mv, c.protocolShare)
            && a.position.debt == p.debt + mv.interest
            && a.position == p.(debt := a.position.debt, lastAccrual := now)
            && a.config.totalBorrowed == c.totalBorrowed + mv.interest
            && a.config.reserve == c.reserve + mv.share
            && a.config == c.(totalBorrowed := a.config.totalBorrowed, reserve := a.config.reserve)
            && (p.debt == 0 || now == p.lastAccrual ==> mv.interest == 0)
  {
    var a := Accrue(p, c, now).value;
    mv := ShareOf(a.interest, c.protocolShare);
  }

  lemma AprInRange(m: Market, ltv: u64)
    requires m.params.Valid()
    ensures 1 <= SelectApr(m.params.bands, ltv) <= MAX_APR
  {
    AcceptedBandsCover(m.params.maxLtv, m.params.liqThreshold, m.params.liqBonus, m.params.haircut, m.params.bands, ltv);
  }

  lemma ReselectKeeps(p: Position, m: Market, signed: Option<SignedPrice>, env: Env)
    requires ReselectApr(p, m, signed, env).Ok? && m.params.Valid() && 1 <= p.apr <= MAX_APR
    ensures var q := ReselectApr(p, m, signed, env).value;
            q == p.(apr := q.apr) && 1 <= q.apr <= MAX_APR
  {
    AprInRange(m, 0);
    if p.debt > 0 && signed.Some? && CheckedPrice(m, signed.value, env.now).Ok? {
      AprInRange(m, LtvAt(p.collateral, p.debt, m, CheckedPrice(m, signed.value, env.now).value, env.multiplier).value);
    }
  }

  /** The part of the invariant an instruction on a position needs. */
  ghost predicate Legal(s: Ledger, id: PositionId) {
    && s.config.protocolShare <= BPS
    && (id.market in s.markets ==> s.markets[id.market].params.Valid())
    && (id in s.positions ==> 1 <= s.positions[id].apr <= MAX_APR)
  }

  lemma DepositMoves(s: Ledger, id: PositionId, amount: u64, withPrice: bool, env: Env) returns (mv: Move)
    requires Legal(s, id) && Deposit(s, id, amount, withPrice, env).Ok?
    ensures Moved(s, Deposit(s, id, amount, withPrice, env).value, id, mv)
    ensures mv.stayed == mv.lent == mv.paid == 0 && mv.collateral == amount
  {
    hide Accrue, ReselectApr, ValidRisk;
    var market := s.markets[id.market];
    var start := Opened(s, id, env.now);
    AprInRange(market, 0);
    mv := AccrueMoves(start, s.config, env.now);
    var a := Accrue(start, s.config, env.now).value;
    ReselectKeeps(a.position.(collateral := a.position.collateral + amount), market, PriceAccount(s, id.market, withPrice), env);
    mv := mv.(collateral := amount);
  }

  lemma BorrowMoves(s: Ledger, signer: Key, id: PositionId, amount: u64, env: Env) returns (mv: Move)
    requires Legal(s, id) && Borrow(s, signer, id, amount, env).Ok?
    ensures Moved(s, Borrow(s, signer, id, amount, env).value, id, mv)
    ensures mv.lent == amount && mv.paid == 0 && mv.collateral == 0 && mv.stayed == if env.ownVault then amount else 0
  {
    hide Accrue, CheckedPrice, ValueOf, LtvBps, LendingRoom, ValidRisk;
    var market := s.markets[id.market];
    mv := AccrueMoves(s.positions[id], s.config, env.now);
    var a := Accrue(s.positions[id], s.config, env.now).value;
    var quote := CheckedPrice(market, s.prices[id.market], env.now).value;
    AprInRange(market, LtvAt(a.position.collateral, a.position.debt + amount, market, quote, env.multiplier).value);
    mv := mv.(lent := amount, stayed := if env.ownVault then amount else 0);
    var t := Borrow(s, signer, id, amount, env).value;
    assert t.markets == s.markets[id.market := market];
  }

  lemma RepayMoves(s: Ledger, id: PositionId, amount: u64, withPrice: bool, env: Env) returns (mv: Move)
    requires Legal(s, id) && Repay(s, id, amount, withPrice, env).Ok?
    ensures Moved(s, Repay(s, id, amount, withPrice, env).value, id, mv)
    ensures mv.stayed == mv.lent == 0 && mv.collateral == 0
    ensures 0 < mv.paid <= amount && (mv.paid < amount ==> Repay(s, id, amount, withPrice, env).value.positions[id].debt == 0)
  {
    hide Accrue, ReselectApr, ValidRisk;
    var market := s.markets[id.market];
    mv := AccrueMoves(s.positions[id], s.config, env.now);
    var a := Accrue(s.positions[id], s.config, env.now).value;
    var paid := if amount <= a.position.debt then amount else a.position.debt;
    ReselectKeeps(a.position.(debt := a.position.debt - paid), market, PriceAccount(s, id.market, withPrice), env);
    mv := mv.(paid := paid);
    var t := Repay(s, id, amount, withPrice, env).value;
    assert t.markets == s.markets[id.market := market];
  }

  lemma WithdrawMoves(s: Ledger, signer: Key, id: PositionId, amount: u64, withPrice: bool, env: Env) returns (mv: Move)
    requires Legal(s, id) && Withdraw(s, signer, id, amount, withPrice, env).Ok?
    ensures Moved(s, Withdraw(s, signer, id, amount, withPrice, env).value, id, mv)
    ensures mv.stayed == mv.lent == mv.paid == 0 && mv.collateral == 0 - amount
  {
    hide Accrue, ReselectApr, StaysCovered, ValidRisk;
    var market := s.markets[id.market];
    mv := AccrueMoves(s.positions[id], s.config, env.now);
    var a := Accrue(s.positions[id], s.config, env.now).value;
    ReselectKeeps(a.position.(collateral := a.position.collateral - amount), market, PriceAccount(s, id.market, withPrice), env);
    mv := mv.(collateral := 0 - amount);
  }

  lemma LiquidateMoves(s: Ledger, id: PositionId, repay: u64, env: Env) returns (mv: Move)
    requires Legal(s, id) && Liquidate(s, id, repay, env).Ok?
    ensures Moved(s, Liquidate(s, id, repay, env).value, id, mv)
    ensures mv.stayed == mv.lent == 0 && mv.paid == repay && mv.collateral <= 0
  {
    hide Accrue, LtvAt, ValidRisk;
    var market := s.markets[id.market];
    mv := AccrueMoves(s.positions[id], s.config, env.now);
    var a := Accrue(s.positions[id], s.config, env.now).value;
    var t := Liquidate(s, id, repay, env).value;
    var quote := CheckedPrice(market, s.prices[id.market], env.now).value;
    var p := t.positions[id];
    AprInRange(market, LtvAt(p.collateral, p.debt, market, quote, env.multiplier).value);
    mv := mv.(paid := repay, collateral := p.collateral - a.position.collateral);
  }

  // ----- a move keeps the invariant ---------------------------------------------

  lemma MovedAgrees(s: Ledger, t: Ledger, id: PositionId, mv: Move)
    requires LedgersAgree(s) && Moved(s, t, id, mv)
    ensures LedgersAgree(t)
  {
    var p := t.positions[id];
    SumUpdate(s.positions, id, p, DebtOf);
    forall m | m in t.markets
      ensures t.markets[m].totalCollateral == Sum(t.positions, CollateralIn(m))
    {
      SumUpdate(s.positions, id, p, CollateralIn(m));
    }
  }

  lemma MovedSound(s: Ledger, t: Ledger, id: PositionId, mv: Move)
    requires Sound(s) && Moved(s, t, id, mv)
    ensures Sound(t)
  {
    hide ValidRisk;
    MovedAgrees(s, t, id, mv);
  }

  /** Interest is accounted for however it accrues. */
  lemma MovedAccounted(f: Flows, c: Config, f': Flows, c': Config, mv: Move)
    requires InterestAccounted(f, c) && FairShare(mv, c.protocolShare)
    requires var g := f.Charge(mv.interest); f' == g.(borrowed := g.borrowed + mv.lent, stayed := g.stayed + mv.stayed, repaid := g.repaid + mv.paid)
    requires c'.protocolShare == c.protocolShare && c'.reserve == c.reserve + mv.share
    requires c'.totalBorrowed == c.totalBorrowed + mv.interest + mv.lent - mv.paid
    ensures InterestAccounted(f', c')
  {
    assert (f.interest + mv.interest) * c.protocolShare == f.interest * c.protocolShare + mv.interest * c.protocolShare;
  }

  // ----- instructions on the pool -----------------------------------------------

  lemma DepositSavingsKeeps(s: Ledger, saver: Key, amount: u64, env: Env)
    requires Sound(s) && DepositSavings(s, saver, amount, env).Ok?
    ensures Sound(DepositSavings(s, saver, amount, env).value)
  {
    var t := DepositSavings(s, saver, amount, env).value;
    var minted := t.config.totalShares - s.config.totalShares;
    if s.config.totalShares > 0 {
      MintAtMost(amount, s.config.totalShares, Pool(s), minted);
    }
    SavedKeeps(s, t, saver, minted, amount);
  }

  /** Shares written and cash moved, on one saver's account and the totals. */
  lemma SavedKeeps(s: Ledger, t: Ledger, saver: Key, minted: int, paid: int)
    requires Sound(s) && saver in t.savers
    requires t == s.(config := s.config.(totalShares := t.config.totalShares), vault := t.vault, savers := s.savers[saver := t.savers[saver]],
                      flows := t.flows)
    requires t.config.totalShares == s.config.totalShares + minted && t.vault == s.vault + paid
    requires t.savers[saver] == Share(s.savers, saver, SharesOf) + minted
    requires Pool(s) + paid >= s.config.totalShares + minted
    ensures Sound(t)
  {
    hide ValidRisk;
    SumUpdate(s.savers, saver, t.savers[saver], SharesOf);
  }

  lemma MintAtMost(amount: nat, total: nat, pool: nat, minted: nat)
    requires 0 < total <= pool && minted == amount * total / pool
    ensures minted <= amount && minted * pool <= amount * total
  {
    MulLe(total, pool, amount);
    FloorGe(amount * total, pool, minted);
    MulCancel(minted, amount, pool);
  }

  lemma WithdrawSavingsKeeps(s: Ledger, saver: Key, shares: u64)
    requires Sound(s) && WithdrawSavings(s, saver, shares).Ok?
    ensures Sound(WithdrawSavings(s, saver, shares).value)
  {
    var t := WithdrawSavings(s, saver, shares).value;
    RedeemLeaves(shares, s.config.totalShares, Pool(s), s.vault - t.vault);
    SavedKeeps(s, t, saver, 0 - shares, t.vault - s.vault);
  }

  lemma RedeemLeaves(shares: nat, total: nat, pool: nat, amount: nat)
    requires 0 < total <= pool && shares <= total && amount == shares * pool / total
    ensures shares <= amount && amount * total <= shares * pool
    ensures pool - amount >= total - shares
  {
    FloorGe(shares * pool, total, amount);
    MulLe(total, pool, shares);
    FloorGe(shares * pool, total, shares);
    MulLe(total, pool, total - shares);
    assert (pool - amount) * total >= pool * (total - shares);
    MulCancel(total - shares, pool - amount, total);
  }

  lemma AddMarketKeeps(s: Ledger, signer: Key, m: Key, params: RiskParams, decimals: nat, oracle: bool, env: Env)
    requires Sound(s) && AddMarket(s, signer, m, params, decimals, oracle, env).Ok?
    ensures Sound(AddMarket(s, signer, m, params, decimals, oracle, env).value)
  {
    hide ValidRisk;
    NewMarketKeeps(s, m, Market(params, decimals, oracle, 0, 0));
  }

  lemma NewMarketKeeps(s: Ledger, m: Key, market: Market)
    requires Sound(s) && m !in s.markets && market.params.Valid() && market.totalCollateral == 0
    ensures Sound(s.(markets := s.markets[m := market]))
  {
    hide RiskParams.Valid;
    SumZero(s.positions, CollateralIn(m));
  }

  lemma UpdateMarketKeeps(s: Ledger, signer: Key, m: Key, params: RiskParams)
    requires Sound(s) && UpdateMarket(s, signer, m, params).Ok?
    ensures Sound(UpdateMarket(s, signer, m, params).value)
  {
    hide ValidRisk;
  }

  lemma SetSignedPriceKeeps(s: Ledger, signer: Key, m: Key, price: int, expo: int, env: Env)
    requires Sound(s) && SetSignedPrice(s, signer, m, price, expo, env).Ok?
    ensures Sound(SetSignedPrice(s, signer, m, price, expo, env).value)
  {
    hide ValidRisk;
  }

  lemma ClaimReserveKeeps(s: Ledger, signer: Key, amount: u64)
    requires Sound(s) && ClaimReserve(s, signer, amount).Ok?
    ensures Sound(ClaimReserve(s, signer, amount).value)
  {
    hide ValidRisk;
  }

  lemma SetPauseKeeps(s: Ledger, signer: Key, paused: bool)
    requires Sound(s) && SetPause(s, signer, paused).Ok?
    ensures Sound(SetPause(s, signer, paused).value)
  {
    hide ValidRisk;
  }

  lemma DonateKeeps(s: Ledger, amount: u64, env: Env)
    requires Sound(s) && Donate(s, amount, env).Ok?
    ensures Sound(Donate(s, amount, env).value)
  {
    hide ValidRisk;
  }

  lemma DonateCollateralKeeps(s: Ledger, m: Key, amount: u64, env: Env)
    requires Sound(s) && DonateCollateral(s, m, amount, env).Ok?
    ensures Sound(DonateCollateral(s, m, amount, env).value)
  {
    hide RiskParams.Valid;
  }

  lemma SoundMakesLegal(s: Ledger, id: PositionId)
    requires Sound(s)
    ensures Legal(s, id)
  {
  }

  predicate OnPosition(action: Action) {
    action.ActDeposit? || action.ActDepositFor? || action.ActBorrow? || action.ActRepay?
    || action.ActWithdraw? || action.ActLiquidate?
  }

  /** Every instruction on a position is one move on that position and nothing more. */
  lemma PositionStepMoves(s: Ledger, action: Action, env: Env) returns (mv: Move)
    requires OnPosition(action) && Legal(s, action.id) && Step(s, action, env).Ok?
    ensures Moved(s, Step(s, action, env).value, action.id, mv)
    ensures mv.lent > 0 ==> action.ActBorrow? && mv.lent == action.amount
    ensures mv.stayed == if env.ownVault then mv.lent else 0
    ensures mv.collateral < 0 ==> action.ActWithdraw? || action.ActLiquidate?
    ensures mv.paid > 0 ==> action.ActRepay? || action.ActLiquidate?
  {
    match action
    case ActDeposit(id, amount, withPrice) => mv := DepositMoves(s, id, amount, withPrice, env);
    case ActDepositFor(_, id, amount, withPrice) => mv := DepositMoves(s, id, amount, withPrice, env);
    case ActBorrow(signer, id, amount) => mv := BorrowMoves(s, signer, id, amount, env);
    case ActRepay(id, amount, withPrice) => mv := RepayMoves(s, id, amount, withPrice, env);
    case ActWithdraw(signer, id, amount, withPrice) => mv := WithdrawMoves(s, signer, id, amount, withPrice, env);
    case ActLiquidate(id, amount) => mv := LiquidateMoves(s, id, amount, env);
  }

  lemma StepKeepsSound(s: Ledger, action: Action, env: Env)
    requires Sound(s) && Step(s, action, env).Ok?
    ensures Sound(Step(s, action, env).value)
  {
    if OnPosition(action) {
      SoundMakesLegal(s, action.id);
      var mv := PositionStepMoves(s, action, env);
      MovedSound(s, Step(s, action, env).value, action.id, mv);
    } else {
      OtherStepKeeps(s, action, env);
    }
  }

  lemma OtherStepKeeps(s: Ledger, action: Action, env: Env)
    requires Sound(s) && Step(s, action, env).Ok? && !OnPosition(action)
    ensures Sound(Step(s, action, env).value)
  {
    hide Sound;
    match action
    case ActAddMarket(signer, m, params, decimals, oracle) => AddMarketKeeps(s, signer, m, params, decimals, oracle, env);
    case ActUpdateMarket(signer, m, params) => UpdateMarketKeeps(s, signer, m, params);
    case ActSetSignedPrice(signer, m, price, expo) => SetSignedPriceKeeps(s, signer, m, price, expo, env);
    case ActDepositSavings(saver, amount) => DepositSavingsKeeps(s, saver, amount, env);
    case ActWithdrawSavings(saver, shares) => WithdrawSavingsKeeps(s, saver, shares);
    case ActClaimReserve(signer, amount) => ClaimReserveKeeps(s, signer, amount);
    case ActDonateCollateral(m, amount) => DonateCollateralKeeps(s, m, amount, env);
    case ActSetPause(signer, paused) => SetPauseKeeps(s, signer, paused);
    case ActDonate(amount) => DonateKeeps(s, amount, env);
  }

  /** Claiming moves the protocol's cut from owed to paid; nothing else off positions touches it. */
  lemma OtherStepAccounted(s: Ledger, action: Action, env: Env)
    requires !OnPosition(action) && Step(s, action, env).Ok?
    ensures var t := Step(s, action, env).value;
            && t.config.protocolShare == s.config.protocolShare
            && t.config.totalBorrowed == s.config.totalBorrowed
            && t.config.reserve + t.flows.claimed == s.config.reserve + s.flows.claimed
            && t.flows == s.flows.(claimed := t.flows.claimed, saved := t.flows.saved, redeemed := t.flows.redeemed, donated := t.flows.donated)
  {
  }

  lemma ClaimAccounted(f: Flows, c: Config, f': Flows, c': Config)
    requires InterestAccounted(f, c)
    requires c'.protocolShare == c.protocolShare && c'.totalBorrowed == c.totalBorrowed
    requires c'.reserve + f'.claimed == c.reserve + f.claimed && f' == f.(claimed := f'.claimed, saved := f'.saved, redeemed := f'.redeemed, donated := f'.donated)
    ensures InterestAccounted(f', c')
  {
  }

  lemma StepKeepsAccounts(s: Ledger, action: Action, env: Env)
    requires InterestAccounted(s.flows, s.config) && Step(s, action, env).Ok?
    requires OnPosition(action) ==> Legal(s, action.id)
    ensures InterestAccounted(Step(s, action, env).value.flows, Step(s, action, env).value.config)
  {
    var t := Step(s, action, env).value;
    if OnPosition(action) {
      var mv := PositionStepMoves(s, action, env);
      MoveAccounted(s, t, action.id, mv);
    } else {
      OtherStepAccounted(s, action, env);
      ClaimAccounted(s.flows, s.config, t.flows, t.config);
    }
  }

  lemma MoveAccounted(s: Ledger, t: Ledger, id: PositionId, mv: Move)
    requires InterestAccounted(s.flows, s.config) && Moved(s, t, id, mv)
    ensures InterestAccounted(t.flows, t.config)
  {
    MovedAccounted(s.flows, s.config, t.flows, t.config, mv);
  }

  lemma StepKeepsCash(s: Ledger, action: Action, env: Env)
    requires CashAccounted(s) && Step(s, action, env).Ok?
    requires OnPosition(action) ==> Legal(s, action.id)
    ensures CashAccounted(Step(s, action, env).value)
  {
    if OnPosition(action) {
      hide Step;
      var mv := PositionStepMoves(s, action, env);
    }
  }

  /** Every instruction that succeeds, from any state that has the invariant, leads to one that has it. */
  lemma StepKeeps(s: Ledger, action: Action, env: Env)
    requires Inv(s) && Step(s, action, env).Ok?
    ensures Inv(Step(s, action, env).value)
  {
    StepKeepsSound(s, action, env);
    if OnPosition(action) {
      SoundMakesLegal(s, action.id);
    }
    StepKeepsAccounts(s, action, env);
    StepKeepsCash(s, action, env);
  }

  lemma {:induction false} RunKeeps(s: Ledger, trace: seq<Event>)
    requires Inv(s)
    ensures Inv(Run(s, trace))
    decreases trace
  {
    if trace != [] {
      if Step(s, trace[0].action, trace[0].env).Ok? {
        StepKeeps(s, trace[0].action, trace[0].env);
      }
      RunKeeps(After(s, trace[0].action, trace[0].env), trace[1..]);
    }
  }

  /** From `init_config` onward, whatever anyone does: the totals agree with the accounts, a
      share is worth at least one unit, the vaults hold what positions claim, every parameter
      and rate is legal, and all interest is accounted for. */
  lemma ReachableStates(admin: Key, cashback: Key, signer: Key, share: u16, cap: u16, factor: u16, trace: seq<Event>)
    requires InitConfig(admin, cashback, signer, share, cap, factor).Ok?
    ensures Inv(Run(InitConfig(admin, cashback, signer, share, cap, factor).value, trace))
  {
    RunKeeps(InitConfig(admin, cashback, signer, share, cap, factor).value, trace);
  }

  ghost predicate First(s: Ledger) {
    exists admin, cashback, signer, share, cap, factor :: InitConfig(admin, cashback, signer, share, cap, factor) == Ok(s)
  }

  /** Some run from a first state leads here. */
  ghost predicate Reachable(s: Ledger) {
    exists first: Ledger, trace: seq<Event> :: First(first) && Run(first, trace) == s
  }

  lemma {:induction false} RunExtends(s: Ledger, trace: seq<Event>, e: Event)
    ensures Run(s, trace + [e]) == After(Run(s, trace), e.action, e.env)
    decreases trace
  {
    if trace == [] {
      assert [e][1..] == [];
      assert trace + [e] == [e];
    } else {
      assert (trace + [e])[1..] == trace[1..] + [e];
      RunExtends(After(s, trace[0].action, trace[0].env), trace[1..], e);
    }
  }

  lemma FirstIsReachable(s: Ledger)
    requires First(s)
    ensures Reachable(s)
  {
    assert Run(s, []) == s;
  }

  lemma StepStaysReachable(s: Ledger, action: Action, env: Env)
    requires Reachable(s)
    ensures Reachable(After(s, action, env))
  {
    var first: Ledger, trace: seq<Event> :| First(first) && Run(first, trace) == s;
    RunExtends(first, trace, Event(action, env));
  }

  /** No account exceeds the total it is part of. */
  lemma InTotals(s: Ledger, id: PositionId)
    requires LedgersAgree(s) && id in s.positions
    ensures s.positions[id].debt <= s.config.totalBorrowed
    ensures s.positions[id].collateral <= s.markets[id.market].totalCollateral
  {
    SumUpdate(s.positions, id, s.positions[id], DebtOf);
    SumUpdate(s.positions, id, s.positions[id], CollateralIn(id.market));
  }

  /** A close factor of at most the whole never asks for more than the debt. */
  lemma CloseFactorWithin(debt: nat, factor: nat, repay: nat)
    requires factor <= BPS && repay <= debt * factor / BPS
    ensures repay <= debt
  {
    MulLe(factor, BPS, debt);
    FloorGe(debt * factor, BPS, repay);
  }

  lemma RepayNoUnderflow(s: Ledger, id: PositionId, amount: u64, withPrice: bool, env: Env)
    requires id in s.positions ==> s.positions[id].debt <= s.config.totalBorrowed
    ensures Repay(s, id, amount, withPrice, env) != Err(Underflow)
  {
  }

  lemma WithdrawNoUnderflow(s: Ledger, signer: Key, id: PositionId, amount: u64, withPrice: bool, env: Env)
    requires id in s.positions && id.market in s.markets ==> s.positions[id].collateral <= s.markets[id.market].totalCollateral
    ensures Withdraw(s, signer, id, amount, withPrice, env) != Err(Underflow)
  {
  }

  lemma LiquidateNoUnderflow(s: Ledger, id: PositionId, repay: u64, env: Env)
    requires s.config.closeFactor <= BPS
    requires id in s.positions ==> s.positions[id].debt <= s.config.totalBorrowed
    requires id in s.positions && id.market in s.markets ==> s.positions[id].collateral <= s.markets[id.market].totalCollateral
    ensures Liquidate(s, id, repay, env) != Err(Underflow)
  {
    if id in s.positions && Accrue(s.positions[id], s.config, env.now).Ok? {
      var a := Accrue(s.positions[id], s.config, env.now).value;
      if repay <= a.position.debt * a.config.closeFactor / BPS {
        CloseFactorWithin(a.position.debt, a.config.closeFactor, repay);
      }
    }
  }

  lemma WithdrawSavingsNoUnderflow(s: Ledger, saver: Key, shares: u64)
    requires saver in s.savers ==> s.savers[saver] <= s.config.totalShares
    ensures WithdrawSavings(s, saver, shares) != Err(Underflow)
  {
  }

  lemma OtherNoUnderflow(s: Ledger, action: Action, env: Env)
    requires action.ActWithdrawSavings? ==> action.saver in s.savers ==> s.savers[action.saver] <= s.config.totalShares
    requires !action.ActRepay? && !action.ActWithdraw? && !action.ActLiquidate?
    ensures Step(s, action, env) != Err(Underflow)
  {
    if action.ActWithdrawSavings? {
      WithdrawSavingsNoUnderflow(s, action.saver, action.shares);
    }
  }

  /** Kept totals are never smaller than an account they include, so none of the program's
      unchecked subtractions can go below zero. */
  lemma NoUnderflow(s: Ledger, action: Action, env: Env)
    requires LedgersAgree(s) && s.config.closeFactor <= BPS
    ensures Step(s, action, env) != Err(Underflow)
  {
    if OnPosition(action) && action.id in s.positions {
      InTotals(s, action.id);
    }
    match action
    case ActRepay(id, amount, withPrice) => RepayNoUnderflow(s, id, amount, withPrice, env);
    case ActWithdraw(signer, id, amount, withPrice) => WithdrawNoUnderflow(s, signer, id, amount, withPrice, env);
    case ActLiquidate(id, repay) => LiquidateNoUnderflow(s, id, repay, env);
    case ActWithdrawSavings(saver, _) =>
      SumUpdate(s.savers, saver, 0, SharesOf);
      OtherNoUnderflow(s, action, env);
    case _ => OtherNoUnderflow(s, action, env);
  }
}
