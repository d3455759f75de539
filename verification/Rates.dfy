/** The rate a position is charged after every instruction on it. */
module Rates {
  import opened Outcomes
  import opened RiskMath
  import opened Bands
  import opened Ledger
  import opened Invariants
  import opened Positions

  predicate NamesPrice(action: Action) {
    match action
    case ActBorrow(_, _, _) => true
    case ActLiquidate(_, _) => true
    case ActDeposit(_, _, withPrice) => withPrice
    case ActDepositFor(_, _, _, withPrice) => withPrice
    case ActRepay(_, _, withPrice) => withPrice
    case ActWithdraw(_, _, _, withPrice) => withPrice
    case _ => false
  }

  /** The quote an instruction has to select a rate with: that of the price it names, if readable. */
  function QuoteSeen(s: Ledger, id: PositionId, named: bool, env: Env): Option<Quote> {
    if named && Readable(s, id, env) then Some(QuoteNow(s, id, env)) else None
  }

  /** The rate after an instruction: without debt that of the lowest band in use, with debt and a
      quote that of the lowest band the debt keeps to at that quote, and otherwise the old one. */
  ghost predicate RateRule(q: Position, before: u16, m: Market, quote: Option<Quote>, multiplier: u64) {
    if q.debt == 0 then RateOf(q.apr, m.params.bands, 0, 0)
    else if quote.None? then q.apr == before
    else RateOf(q.apr, m.params.bands, q.debt, FloorValue(q.collateral, multiplier, quote.value.price, quote.value.haircut, m.decimals))
  }

  lemma SelectedAtLtv(q: Position, before: u16, m: Market, quote: Quote, multiplier: u64)
    requires m.params.Valid() && LtvAt(q.collateral, q.debt, m, quote, multiplier).Ok?
    requires q.apr == SelectApr(m.params.bands, LtvAt(q.collateral, q.debt, m, quote, multiplier).value)
    ensures RateRule(q, before, m, Some(quote), multiplier)
  {
    hide RateOf, CollateralValue, FloorValue, LtvBps, SelectApr;
    ValueAnswers(q.collateral, multiplier, quote.price, quote.haircut, m.decimals);
    var value := ValueOf(q.collateral, m, quote, multiplier).value;
    SelectIsRateOf(m.params.maxLtv, m.params.liqThreshold, m.params.liqBonus, m.params.haircut, m.params.bands, q.debt, value);
    if q.debt == 0 {
      NoDebtNoLtv(value);
      NoDebtRate(m);
    }
  }

  lemma NoDebtNoLtv(value: u64)
    ensures LtvBps(0, value) == Ok(0)
  {
  }

  lemma NoDebtRate(m: Market)
    requires m.params.Valid()
    ensures RateOf(SelectApr(m.params.bands, 0), m.params.bands, 0, 0)
  {
    hide RateOf;
    SelectIsRateOf(m.params.maxLtv, m.params.liqThreshold, m.params.liqBonus, m.params.haircut, m.params.bands, 0, 0);
  }

  lemma ReselectRule(p: Position, m: Market, signed: Option<SignedPrice>, env: Env)
    requires m.params.Valid() && ReselectApr(p, m, signed, env).Ok?
    ensures var q := ReselectApr(p, m, signed, env).value;
            var quote := if signed.Some? && CheckedPrice(m, signed.value, env.now).Ok?
                         then Some(CheckedPrice(m, signed.value, env.now).value) else None;
            q == p.(apr := q.apr) && RateRule(q, p.apr, m, quote, env.multiplier)
  {
    hide RateOf, LtvAt, CheckedPrice, RiskParams.Valid;
    NoDebtRate(m);
    if p.debt > 0 && signed.Some? && CheckedPrice(m, signed.value, env.now).Ok? {
      SelectedAtLtv(ReselectApr(p, m, signed, env).value, p.apr, m, CheckedPrice(m, signed.value, env.now).value, env.multiplier);
    }
  }

  /** The result `r` of an instruction on a position leaves it the rate of the rule. */
  ghost predicate RateKept(s: Ledger, r: Result<Ledger>, id: PositionId, named: bool, env: Env) {
    && id.market in s.markets && r.Ok? && id in r.value.positions
    && RateRule(r.value.positions[id], RateBefore(s, id), s.markets[id.market], QuoteSeen(s, id, named, env), env.multiplier)
  }

  function RateBefore(s: Ledger, id: PositionId): u16 {
    if id in s.positions then s.positions[id].apr else 0
  }

  lemma DepositRule(s: Ledger, id: PositionId, amount: u64, withPrice: bool, env: Env)
    requires Legal(s, id) && Deposit(s, id, amount, withPrice, env).Ok?
    ensures RateKept(s, Deposit(s, id, amount, withPrice, env), id, withPrice, env)
  {
    hide RateOf, ReselectApr, CheckedPrice, RiskParams.Valid, FloorValue;
    var p := Owing(Opened(s, id, env.now), s.config, env.now);
    ReselectRule(p.(collateral := p.collateral + amount), s.markets[id.market], PriceAccount(s, id.market, withPrice), env);
  }

  lemma RepayRule(s: Ledger, id: PositionId, amount: u64, withPrice: bool, env: Env)
    requires Legal(s, id) && Repay(s, id, amount, withPrice, env).Ok?
    ensures RateKept(s, Repay(s, id, amount, withPrice, env), id, withPrice, env)
  {
    hide RateOf, ReselectApr, CheckedPrice, RiskParams.Valid, FloorValue;
    var p := Owing(s.positions[id], s.config, env.now);
    ReselectRule(p.(debt := if amount <= p.debt then p.debt - amount else 0), s.markets[id.market], PriceAccount(s, id.market, withPrice), env);
  }

  lemma WithdrawRule(s: Ledger, signer: Key, id: PositionId, amount: u64, withPrice: bool, env: Env)
    requires Legal(s, id) && Withdraw(s, signer, id, amount, withPrice, env).Ok?
    ensures RateKept(s, Withdraw(s, signer, id, amount, withPrice, env), id, withPrice, env)
  {
    hide RateOf, ReselectApr, StaysCovered, CheckedPrice, RiskParams.Valid, FloorValue;
    var p := Owing(s.positions[id], s.config, env.now);
    ReselectRule(p.(collateral := p.collateral - amount), s.markets[id.market], PriceAccount(s, id.market, withPrice), env);
  }

  lemma BorrowRule(s: Ledger, signer: Key, id: PositionId, amount: u64, env: Env)
    requires Legal(s, id) && Borrow(s, signer, id, amount, env).Ok?
    ensures RateKept(s, Borrow(s, signer, id, amount, env), id, true, env)
  {
    hide RateOf, CheckedPrice, ValueOf, LtvBps, LendingRoom, RiskParams.Valid, FloorValue;
    SelectedAtLtv(Borrow(s, signer, id, amount, env).value.positions[id], RateBefore(s, id), s.markets[id.market],
                  QuoteNow(s, id, env), env.multiplier);
  }

  lemma LiquidateRule(s: Ledger, id: PositionId, repay: u64, env: Env)
    requires Legal(s, id) && Liquidate(s, id, repay, env).Ok?
    ensures RateKept(s, Liquidate(s, id, repay, env), id, true, env)
  {
    hide RateOf, CheckedPrice, LtvAt, RiskParams.Valid, FloorValue;
    SelectedAtLtv(Liquidate(s, id, repay, env).value.positions[id], RateBefore(s, id), s.markets[id.market],
                  QuoteNow(s, id, env), env.multiplier);
  }

  /** After every instruction on a position its rate follows the rule: it is selected anew exactly
      when no debt is left or a readable price is named, and left as it was otherwise. */
  lemma RateFollowsPosition(s: Ledger, action: Action, env: Env)
    requires OnPosition(action) && Legal(s, action.id) && Step(s, action, env).Ok?
    ensures RateKept(s, Step(s, action, env), action.id, NamesPrice(action), env)
  {
    hide RateKept, Legal;
    match action
    case ActBorrow(signer, id, amount) => BorrowRule(s, signer, id, amount, env);
    case ActLiquidate(id, repay) => LiquidateRule(s, id, repay, env);
    case ActDeposit(id, amount, withPrice) => DepositRule(s, id, amount, withPrice, env);
    case ActDepositFor(_, id, amount, withPrice) => DepositRule(s, id, amount, withPrice, env);
    case ActRepay(id, amount, withPrice) => RepayRule(s, id, amount, withPrice, env);
    case ActWithdraw(signer, id, amount, withPrice) => WithdrawRule(s, signer, id, amount, withPrice, env);
  }
}
