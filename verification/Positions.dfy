/** What borrowers and liquidators can rely on. */
module Positions {
  import opened Outcomes
  import opened Rounding
  import opened RiskMath
  import opened Bands
  import opened Ledger
  import opened Invariants

  // ----- coverage under liquidation ---------------------------------------------------

  /** Debt with the liquidation bonus on top, on the scale of `BPS * collateral * price`. */
  function Claim(m: Market): nat {
    (BPS + m.params.liqBonus) * Pow10(m.decimals) * MULTIPLIER_SCALE
  }

  function Backing(quote: Quote, multiplier: u64): nat {
    BPS * quote.price * multiplier
  }

  /** The collateral, before any haircut, pays for the whole debt with the bonus. */
  ghost predicate Covered(debt: nat, collateral: nat, m: Market, quote: Quote, multiplier: u64) {
    debt * Claim(m) <= collateral * Backing(quote, multiplier)
  }

  /** The arithmetic of one liquidation of a covered position, at claim rate `a` over worth `b`. */
  lemma SeizureKeepsCover(debt: nat, collateral: nat, repay: nat, a: nat, b: nat, seized: nat)
    requires a > 0 && b > 0 && repay <= debt && debt * a <= collateral * b
    requires seized == repay * a / b
    ensures seized <= collateral
    ensures (debt - repay) * a <= (collateral - seized) * b
    ensures debt * seized <= repay * collateral
  {
    FloorGe(repay * a, b, seized);
    MulLe(repay, debt, a);
    MulCancel(seized, collateral, b);
    assert (debt - repay) * a == debt * a - repay * a;
    assert (collateral - seized) * b == collateral * b - seized * b;
    MulLe(seized * b, repay * a, debt);
    MulLe(debt * a, collateral * b, repay);
    assert (debt * seized) * b <= (repay * collateral) * b;
    MulCancel(debt * seized, repay * collateral, b);
  }

  /** What a successful liquidation does, whatever the state of the position. */
  lemma LiquidateOutcome(s: Ledger, id: PositionId, repay: u64, env: Env)
    requires s.config.closeFactor <= BPS && Liquidate(s, id, repay, env).Ok?
    ensures var m := s.markets[id.market];
            var quote := CheckedPrice(m, s.prices[id.market], env.now);
            var p := Owing(s.positions[id], s.config, env.now);
            var t := Liquidate(s, id, repay, env).value;
            && quote.Ok?
            && var wanted := SeizeAmount(repay, m.params.liqBonus, quote.value.price, env.multiplier, m.decimals);
            && wanted.Ok?
            && 0 < repay <= p.debt
            && t.positions[id].debt == p.debt - repay
            && t.positions[id].collateral == p.collateral - (if wanted.value <= p.collateral then wanted.value else p.collateral)
            && t.positions[id].lastAccrual == env.now
            && t.markets[id.market] == m.(totalCollateral := t.markets[id.market].totalCollateral, vault := t.markets[id.market].vault)
            && t.prices == s.prices && t.config.closeFactor == s.config.closeFactor
  {
    CloseFactorWithin(Owing(s.positions[id], s.config, env.now).debt, s.config.closeFactor, repay);
  }

  lemma SeizeIsFloor(repay: u64, m: Market, quote: Quote, multiplier: u64)
    requires SeizeAmount(repay, m.params.liqBonus, quote.price, multiplier, m.decimals).Ok?
    ensures Claim(m) > 0 && Backing(quote, multiplier) > 0
    ensures SeizeAmount(repay, m.params.liqBonus, quote.price, multiplier, m.decimals).value
            == repay * Claim(m) / Backing(quote, multiplier)
  {
    MulPos(quote.price, multiplier);
    MulPos(BPS + m.params.liqBonus, Pow10(m.decimals));
    assert repay * (BPS + m.params.liqBonus) * Pow10(m.decimals) * MULTIPLIER_SCALE == repay * Claim(m);
  }

  /** A liquidation of a covered position is paid in full by the formula, leaves it covered, and
      does not raise its debt per unit of collateral. */
  lemma LiquidationKeepsCover(s: Ledger, id: PositionId, repay: u64, env: Env)
    requires s.config.closeFactor <= BPS && Liquidate(s, id, repay, env).Ok?
    requires CoveredAt(s, id, env)
    ensures var m := s.markets[id.market];
            var quote := CheckedPrice(m, s.prices[id.market], env.now).value;
            var p := Owing(s.positions[id], s.config, env.now);
            var q := Liquidate(s, id, repay, env).value.positions[id];
            && SeizeAmount(repay, m.params.liqBonus, quote.price, env.multiplier, m.decimals) == Ok(p.collateral - q.collateral)
            && Covered(q.debt, q.collateral, m, quote, env.multiplier)
            && q.debt * p.collateral <= p.debt * q.collateral
  {
    LiquidateOutcome(s, id, repay, env);
    var m := s.markets[id.market];
    var quote := CheckedPrice(m, s.prices[id.market], env.now).value;
    SeizeIsFloor(repay, m, quote, env.multiplier);
    CoverCase(Owing(s.positions[id], s.config, env.now), Liquidate(s, id, repay, env).value.positions[id], repay,
              Claim(m), Backing(quote, env.multiplier));
  }

  lemma CoverCase(p: Position, q: Position, repay: nat, a: nat, b: nat)
    requires a > 0 && b > 0 && repay <= p.debt && p.debt * a <= p.collateral * b
    requires q.debt == p.debt - repay
    requires var wanted := repay * a / b; q.collateral == p.collateral - (if wanted <= p.collateral then wanted else p.collateral)
    ensures repay * a / b == p.collateral - q.collateral
    ensures q.debt * a <= q.collateral * b
    ensures q.debt * p.collateral <= p.debt * q.collateral
  {
    DivBounds(repay * a, b);
    SeizureKeepsCover(p.debt, p.collateral, repay, a, b, repay * a / b);
  }

  /** A position in a market with a readable price, covered with the interest pending. */
  ghost predicate CoveredAt(s: Ledger, id: PositionId, env: Env) {
    && id in s.positions && Readable(s, id, env)
    && Covered(DebtAt(s.positions[id], env.now), s.positions[id].collateral, s.markets[id.market], QuoteNow(s, id, env), env.multiplier)
  }

  /** The position's market has a readable price. */
  predicate Readable(s: Ledger, id: PositionId, env: Env) {
    id.market in s.markets && id.market in s.prices && CheckedPrice(s.markets[id.market], s.prices[id.market], env.now).Ok?
  }

  function QuoteNow(s: Ledger, id: PositionId, env: Env): Quote
    requires Readable(s, id, env)
  {
    CheckedPrice(s.markets[id.market], s.prices[id.market], env.now).value
  }

  /** At one moment, `q` owes no more than `p` and no more per unit of collateral. */
  ghost predicate NoRiskier(p: Position, q: Position, now: int) {
    DebtAt(q, now) <= DebtAt(p, now) && DebtAt(q, now) * p.collateral <= DebtAt(p, now) * q.collateral
  }

  lemma NoRiskierChain(p: Position, q: Position, r: Position, now: int)
    requires NoRiskier(p, q, now) && NoRiskier(q, r, now)
    ensures NoRiskier(p, r, now)
  {
    RatioChain(DebtAt(p, now), p.collateral, DebtAt(q, now), q.collateral, DebtAt(r, now), r.collateral);
  }

  lemma RatioChain(a: nat, x: nat, b: nat, y: nat, c: nat, z: nat)
    requires b * x <= a * y && c * y <= b * z && c <= b
    ensures c * x <= a * z
  {
    if y > 0 {
      MulLe(c * y, b * z, x);
      MulLe(b * x, a * y, z);
      assert (c * x) * y <= (a * z) * y;
      MulCancel(c * x, a * z, y);
    } else if x > 0 && b > 0 {
      MulPos(b, x);
    }
  }

  /** Liquidating one position again and again at one moment. */
  function Liquidations(s: Ledger, id: PositionId, repays: seq<u64>, env: Env): Result<Ledger>
    decreases repays
  {
    if repays == [] then Ok(s) else
    var t :- Liquidate(s, id, repays[0], env);
    Liquidations(t, id, repays[1..], env)
  }

  lemma OneLiquidation(s: Ledger, id: PositionId, repay: u64, env: Env)
    requires s.config.closeFactor <= BPS && CoveredAt(s, id, env) && Liquidate(s, id, repay, env).Ok?
    ensures var t := Liquidate(s, id, repay, env).value;
            && t.config.closeFactor <= BPS && CoveredAt(t, id, env)
            && NoRiskier(s.positions[id], t.positions[id], env.now)
            && DebtAt(t.positions[id], env.now) < DebtAt(s.positions[id], env.now)
  {
    LiquidateOutcome(s, id, repay, env);
    LiquidationKeepsCover(s, id, repay, env);
    var t := Liquidate(s, id, repay, env).value;
    assert CheckedPrice(t.markets[id.market], t.prices[id.market], env.now)
        == CheckedPrice(s.markets[id.market], s.prices[id.market], env.now);
  }

  /** Any run of liquidations at one quote of a covered position keeps it covered, never raises
      its debt per unit of collateral, and is no longer than the debt has units. */
  lemma {:induction false} LiquidationsKeepCover(s: Ledger, id: PositionId, repays: seq<u64>, env: Env)
    requires s.config.closeFactor <= BPS && CoveredAt(s, id, env) && Liquidations(s, id, repays, env).Ok?
    ensures var t := Liquidations(s, id, repays, env).value;
            && CoveredAt(t, id, env)
            && NoRiskier(s.positions[id], t.positions[id], env.now)
            && DebtAt(t.positions[id], env.now) + |repays| <= DebtAt(s.positions[id], env.now)
    decreases repays
  {
    if repays != [] {
      OneLiquidation(s, id, repays[0], env);
      var t := Liquidate(s, id, repays[0], env).value;
      LiquidationsKeepCover(t, id, repays[1..], env);
      NoRiskierChain(s.positions[id], t.positions[id], Liquidations(t, id, repays[1..], env).value.positions[id], env.now);
    }
  }

  lemma CoveredHasBacking(debt: nat, m: Market, quote: Quote, multiplier: u64)
    requires Covered(debt, 0, m, quote, multiplier)
    ensures debt == 0
  {
    MulPos(BPS + m.params.liqBonus, Pow10(m.decimals));
    if debt > 0 {
      MulPos(debt, Claim(m));
    }
  }

  // ----- coverage whatever anyone does ---------------------------------------------------

  /** What a successful deposit leaves, on a new position too. */
  lemma DepositOutcome(s: Ledger, id: PositionId, amount: u64, withPrice: bool, env: Env)
    requires Deposit(s, id, amount, withPrice, env).Ok?
    ensures id.market in s.markets && ChargeFits(Opened(s, id, env.now), s.config, env.now)
    ensures var m, p := s.markets[id.market], Owing(Opened(s, id, env.now), s.config, env.now);
            var t := Deposit(s, id, amount, withPrice, env).value;
            && t.prices == s.prices && id.market in t.markets
            && t.markets[id.market] == m.(totalCollateral := t.markets[id.market].totalCollateral, vault := t.markets[id.market].vault)
            && t.positions[id] == p.(collateral := Before(s, id).collateral + amount, apr := t.positions[id].apr)
            && (withPrice && p.debt > 0 && Readable(s, id, env) ==>
                  ValueOf(t.positions[id].collateral, m, QuoteNow(s, id, env), env.multiplier).Ok?)
  {
  }

  /** What a successful repayment leaves. */
  lemma RepayOutcome(s: Ledger, id: PositionId, repay: u64, withPrice: bool, env: Env)
    requires id in s.positions && Repay(s, id, repay, withPrice, env).Ok?
    ensures ChargeFits(s.positions[id], s.config, env.now)
    ensures var p := Owing(s.positions[id], s.config, env.now);
            var t := Repay(s, id, repay, withPrice, env).value;
            && t.markets == s.markets && t.prices == s.prices
            && t.positions[id] == p.(debt := if repay < p.debt then p.debt - repay else 0, apr := t.positions[id].apr)
  {
  }

  lemma MoreCollateral(debt: nat, less: nat, more: nat, m: Market, quote: Quote, multiplier: u64)
    requires less <= more && Covered(debt, less, m, quote, multiplier)
    ensures Covered(debt, more, m, quote, multiplier) && debt * less <= debt * more
  {
    MulLe(0, quote.price, multiplier);
    MulLe(less, more, Backing(quote, multiplier));
    MulLe(less, more, debt);
  }

  lemma LessDebt(less: nat, more: nat, collateral: nat, m: Market, quote: Quote, multiplier: u64)
    requires less <= more && Covered(more, collateral, m, quote, multiplier)
    ensures Covered(less, collateral, m, quote, multiplier) && less * collateral <= more * collateral
  {
    MulPos(BPS + m.params.liqBonus, Pow10(m.decimals));
    MulLe(less, more, Claim(m));
    MulLe(less, more, collateral);
  }

  /** An event that is neither the owner's own loan or withdrawal, nor a change of the market's
      parameters or of its price, at one moment and one multiplier. */
  predicate LeavesAlone(e: Event, id: PositionId, env: Env) {
    && e.env.now == env.now && e.env.multiplier == env.multiplier
    && !(e.action.ActBorrow? && e.action.id == id)
    && !(e.action.ActWithdraw? && e.action.id == id)
    && !(e.action.ActUpdateMarket? && e.action.m == id.market)
    && !(e.action.ActSetSignedPrice? && e.action.m == id.market)
  }

  /** The position, its market's terms and its price, as far as coverage depends on them. */
  ghost predicate SameTerms(s: Ledger, t: Ledger, id: PositionId) {
    && id.market in s.markets && id.market in t.markets && id.market in s.prices && id.market in t.prices
    && t.prices[id.market] == s.prices[id.market]
    && t.markets[id.market] == s.markets[id.market].(totalCollateral := t.markets[id.market].totalCollateral,
                                                     vault := t.markets[id.market].vault)
  }

  lemma OthersKeepTerms(s: Ledger, e: Event, id: PositionId, env: Env)
    requires Sound(s) && id in s.positions && id.market in s.prices && LeavesAlone(e, id, env)
    requires Step(s, e.action, e.env).Ok? && !(OnPosition(e.action) && e.action.id == id)
    ensures var t := Step(s, e.action, e.env).value;
            SameTerms(s, t, id) && id in t.positions && t.positions[id] == s.positions[id]
  {
    hide Sound;
    HasMarket(s, id);
    if OnPosition(e.action) {
      hide Step;
      SoundMakesLegal(s, e.action.id);
      var mv := PositionStepMoves(s, e.action, e.env);
      MovedKeepsTerms(s, Step(s, e.action, e.env).value, e.action.id, mv, id);
    } else {
      OffPositionKeepsTerms(s, e, id, env);
    }
  }

  lemma HasMarket(s: Ledger, id: PositionId)
    requires Sound(s) && id in s.positions
    ensures id.market in s.markets
  {
  }

  lemma OffPositionKeepsTerms(s: Ledger, e: Event, id: PositionId, env: Env)
    requires id in s.positions && id.market in s.markets && id.market in s.prices && LeavesAlone(e, id, env)
    requires Step(s, e.action, e.env).Ok? && !OnPosition(e.action)
    ensures var t := Step(s, e.action, e.env).value;
            SameTerms(s, t, id) && id in t.positions && t.positions[id] == s.positions[id]
  {
    hide RiskParams.Valid, PoolValue, SharesForDeposit, AmountForShares;
  }

  lemma MovedKeepsTerms(s: Ledger, t: Ledger, target: PositionId, mv: Move, id: PositionId)
    requires Moved(s, t, target, mv) && id in s.positions && id.market in s.markets && id.market in s.prices && id != target
    ensures SameTerms(s, t, id) && id in t.positions && t.positions[id] == s.positions[id]
  {
  }

  lemma EventKeepsCover(s: Ledger, e: Event, id: PositionId, env: Env)
    requires Sound(s) && CoveredAt(s, id, env) && LeavesAlone(e, id, env)
    ensures var t := After(s, e.action, e.env);
            CoveredAt(t, id, env) && NoRiskier(s.positions[id], t.positions[id], env.now)
  {
    hide Step, Sound;
    if Step(s, e.action, e.env).Ok? {
      if OnPosition(e.action) && e.action.id == id {
        OwnEventKeepsCover(s, e, id, env);
      } else {
        OthersKeepTerms(s, e, id, env);
        SameTermsKeepCover(s, Step(s, e.action, e.env).value, id, env);
      }
    }
  }

  lemma SameTermsKeepCover(s: Ledger, t: Ledger, id: PositionId, env: Env)
    requires CoveredAt(s, id, env) && SameTerms(s, t, id) && id in t.positions && t.positions[id] == s.positions[id]
    ensures CoveredAt(t, id, env) && NoRiskier(s.positions[id], t.positions[id], env.now)
  {
  }

  lemma SoundCloseFactor(s: Ledger)
    requires Sound(s)
    ensures s.config.closeFactor <= BPS
  {
  }

  lemma SameMoment(s: Ledger, id: PositionId, env: Env, env': Env)
    requires env.now == env'.now && env.multiplier == env'.multiplier
    ensures CoveredAt(s, id, env) <==> CoveredAt(s, id, env')
  {
  }

  lemma OwnEventKeepsCover(s: Ledger, e: Event, id: PositionId, env: Env)
    requires Sound(s) && CoveredAt(s, id, env) && LeavesAlone(e, id, env)
    requires Step(s, e.action, e.env).Ok? && OnPosition(e.action) && e.action.id == id
    ensures var t := Step(s, e.action, e.env).value;
            CoveredAt(t, id, env) && NoRiskier(s.positions[id], t.positions[id], env.now)
  {
    hide Sound;
    SoundCloseFactor(s);
    SameMoment(s, id, env, e.env);
    SameMoment(Step(s, e.action, e.env).value, id, env, e.env);
    hide CoveredAt, NoRiskier, Deposit, Repay, Liquidate, Borrow, Withdraw;
    match e.action
    case ActDeposit(_, amount, withPrice) => DepositKeepsCover(s, id, amount, withPrice, e.env);
    case ActDepositFor(_, _, amount, withPrice) => DepositKeepsCover(s, id, amount, withPrice, e.env);
    case ActRepay(_, amount, withPrice) => RepayKeepsCover(s, id, amount, withPrice, e.env);
    case ActLiquidate(_, repay) => OneLiquidation(s, id, repay, e.env);
  }

  lemma DepositKeepsCover(s: Ledger, id: PositionId, amount: u64, withPrice: bool, env: Env)
    requires CoveredAt(s, id, env) && Deposit(s, id, amount, withPrice, env).Ok?
    ensures var t := Deposit(s, id, amount, withPrice, env).value;
            CoveredAt(t, id, env) && NoRiskier(s.positions[id], t.positions[id], env.now)
  {
    DepositOutcome(s, id, amount, withPrice, env);
    hide Deposit;
    var p := s.positions[id];
    MoreCollateral(DebtAt(p, env.now), p.collateral, p.collateral + amount, s.markets[id.market], QuoteNow(s, id, env), env.multiplier);
  }

  lemma RepayKeepsCover(s: Ledger, id: PositionId, amount: u64, withPrice: bool, env: Env)
    requires CoveredAt(s, id, env) && Repay(s, id, amount, withPrice, env).Ok?
    ensures var t := Repay(s, id, amount, withPrice, env).value;
            CoveredAt(t, id, env) && NoRiskier(s.positions[id], t.positions[id], env.now)
  {
    RepayOutcome(s, id, amount, withPrice, env);
    hide Repay;
    var p, q := s.positions[id], Repay(s, id, amount, withPrice, env).value.positions[id];
    LessDebt(q.debt, DebtAt(p, env.now), p.collateral, s.markets[id.market], QuoteNow(s, id, env), env.multiplier);
  }

  /** A covered position stays covered, and becomes no riskier, over any run at one moment, quote
      and multiplier in which its owner neither borrows nor withdraws, whoever else does what. */
  lemma {:induction false} CoverStays(s: Ledger, trace: seq<Event>, id: PositionId, env: Env)
    requires Sound(s) && CoveredAt(s, id, env)
    requires forall i | 0 <= i < |trace| :: LeavesAlone(trace[i], id, env)
    ensures CoveredAt(Run(s, trace), id, env)
    ensures NoRiskier(s.positions[id], Run(s, trace).positions[id], env.now)
    decreases trace
  {
    if trace != [] {
      var e := trace[0];
      var t := After(s, e.action, e.env);
      EventKeepsCover(s, e, id, env);
      if Step(s, e.action, e.env).Ok? {
        StepKeepsSound(s, e.action, e.env);
      }
      CoverStays(t, trace[1..], id, env);
      NoRiskierChain(s.positions[id], t.positions[id], Run(t, trace[1..]).positions[id], env.now);
    }
  }

  /** Over any such run a covered position never ends as debt with nothing behind it. */
  lemma NoBadDebt(s: Ledger, trace: seq<Event>, id: PositionId, env: Env)
    requires Sound(s) && CoveredAt(s, id, env)
    requires forall i | 0 <= i < |trace| :: LeavesAlone(trace[i], id, env)
    ensures var t := Run(s, trace);
            id in t.positions && (t.positions[id].collateral == 0 ==> t.positions[id].debt == 0)
  {
    CoverStays(s, trace, id, env);
    var t := Run(s, trace);
    if t.positions[id].collateral == 0 {
      CoveredHasBacking(DebtAt(t.positions[id], env.now), t.markets[id.market], QuoteNow(t, id, env), env.multiplier);
    }
  }

  // ----- the buffer between borrowing and liquidation ----------------------------------

  /** A loan is granted only within the limit at the value of that moment. */
  lemma BorrowWithinLimit(s: Ledger, signer: Key, id: PositionId, amount: u64, env: Env)
    requires Borrow(s, signer, id, amount, env).Ok?
    ensures var m := s.markets[id.market];
            var q := Borrow(s, signer, id, amount, env).value.positions[id];
            var quote := CheckedPrice(m, s.prices[id.market], env.now);
            quote.Ok? && var v := ValueOf(q.collateral, m, quote.value, env.multiplier); v.Ok? && WithinLimit(q.debt, v.value, m.params.maxLtv)
  {
    var m := s.markets[id.market];
    var q := Borrow(s, signer, id, amount, env).value.positions[id];
    var quote := CheckedPrice(m, s.prices[id.market], env.now).value;
    LtvWithin(q.debt, ValueOf(q.collateral, m, quote, env.multiplier).value, m.params.maxLtv);
  }

  /** With debt left, collateral is released only within the limit. */
  lemma WithdrawWithinLimit(s: Ledger, signer: Key, id: PositionId, amount: u64, withPrice: bool, env: Env)
    requires Withdraw(s, signer, id, amount, withPrice, env).Ok?
    ensures var m := s.markets[id.market];
            var q := Withdraw(s, signer, id, amount, withPrice, env).value.positions[id];
            q.debt > 0 ==>
              id.market in s.prices &&
              var quote := CheckedPrice(m, s.prices[id.market], env.now);
              quote.Ok? && var v := ValueOf(q.collateral, m, quote.value, env.multiplier); v.Ok? && WithinLimit(q.debt, v.value, m.params.maxLtv)
  {
    var m := s.markets[id.market];
    var q := Withdraw(s, signer, id, amount, withPrice, env).value.positions[id];
    if q.debt > 0 {
      var quote := CheckedPrice(m, s.prices[id.market], env.now).value;
      LtvWithin(q.debt, ValueOf(q.collateral, m, quote, env.multiplier).value, m.params.maxLtv);
    }
  }

  /** The values of the collateral that keep a position within the limit at one value from being
      liquidated at another: all those worth at least limit / threshold of it. */
  lemma BufferArithmetic(debt: nat, limit: nat, threshold: nat, value: nat, value': nat)
    requires debt * BPS <= limit * value && limit * value <= threshold * value'
    ensures debt * BPS <= threshold * value'
  {
  }

  /** A position with no new interest, within the limit at a collateral value of `value`, cannot
      be liquidated while its value is at least limit / threshold of that. */
  lemma BufferHolds(s: Ledger, id: PositionId, repay: u64, env: Env, value: u64)
    requires id in s.positions && id.market in s.markets && id.market in s.prices
    requires WithinLimit(s.positions[id].debt, value, s.markets[id.market].params.maxLtv)
    requires ChargeFits(s.positions[id], s.config, env.now) && Owing(s.positions[id], s.config, env.now).debt == s.positions[id].debt
    requires CheckedPrice(s.markets[id.market], s.prices[id.market], env.now).Ok?
    requires var m := s.markets[id.market];
             var v := ValueOf(s.positions[id].collateral, m, CheckedPrice(m, s.prices[id.market], env.now).value, env.multiplier);
             v.Ok? && m.params.maxLtv * value <= m.params.liqThreshold * v.value
    ensures Liquidate(s, id, repay, env) == Err(if repay == 0 then ZeroAmount else NotLiquidatable)
  {
    var m := s.markets[id.market];
    var p := s.positions[id];
    var v := ValueOf(p.collateral, m, CheckedPrice(m, s.prices[id.market], env.now).value, env.multiplier).value;
    BufferArithmetic(p.debt, m.params.maxLtv, m.params.liqThreshold, value, v);
    LtvWithin(p.debt, v, m.params.liqThreshold);
  }

  /** A position touched at this moment and within the limit at this moment's quote. */
  lemma NoLiquidationNow(s: Ledger, id: PositionId, repay: u64, env: Env)
    requires id in s.positions && id.market in s.markets && id.market in s.prices
    requires s.markets[id.market].params.maxLtv < s.markets[id.market].params.liqThreshold
    requires s.positions[id].lastAccrual == env.now
    requires s.positions[id].debt > 0 ==>
               var m := s.markets[id.market];
               var quote := CheckedPrice(m, s.prices[id.market], env.now);
               quote.Ok? && var v := ValueOf(s.positions[id].collateral, m, quote.value, env.multiplier);
               v.Ok? && WithinLimit(s.positions[id].debt, v.value, m.params.maxLtv)
    ensures Liquidate(s, id, repay, env).Err?
  {
    var m := s.markets[id.market];
    if s.positions[id].debt > 0 {
      var v := ValueOf(s.positions[id].collateral, m, CheckedPrice(m, s.prices[id.market], env.now).value, env.multiplier).value;
      MulLe(m.params.maxLtv, m.params.liqThreshold, v);
      BufferHolds(s, id, repay, env, v);
    }
  }

  /** In particular the borrower cannot be liquidated at the moment and the quote of the loan. */
  lemma NoLiquidationAfterBorrow(s: Ledger, signer: Key, id: PositionId, amount: u64, repay: u64, env: Env, env': Env)
    requires Legal(s, id) && Borrow(s, signer, id, amount, env).Ok?
    requires env'.now == env.now && env'.multiplier == env.multiplier
    ensures Liquidate(Borrow(s, signer, id, amount, env).value, id, repay, env').Err?
  {
    BorrowWithinLimit(s, signer, id, amount, env);
    BorrowLeaves(s, signer, id, amount, env);
    NoLiquidationNow(Borrow(s, signer, id, amount, env).value, id, repay, env');
  }

  lemma BorrowLeaves(s: Ledger, signer: Key, id: PositionId, amount: u64, env: Env)
    requires Borrow(s, signer, id, amount, env).Ok?
    ensures var t := Borrow(s, signer, id, amount, env).value;
            t.markets == s.markets && t.prices == s.prices && t.positions[id].lastAccrual == env.now
            && id.market in s.markets && id.market in s.prices
  {
  }

  /** Nor at the moment and the quote of a withdrawal, whatever debt is left. */
  lemma NoLiquidationAfterWithdraw(s: Ledger, signer: Key, id: PositionId, amount: u64, withPrice: bool, repay: u64, env: Env, env': Env)
    requires Legal(s, id) && Withdraw(s, signer, id, amount, withPrice, env).Ok?
    requires env'.now == env.now && env'.multiplier == env.multiplier
    ensures Liquidate(Withdraw(s, signer, id, amount, withPrice, env).value, id, repay, env').Err?
  {
    WithdrawWithinLimit(s, signer, id, amount, withPrice, env);
    WithdrawLeaves(s, signer, id, amount, withPrice, env);
    var t := Withdraw(s, signer, id, amount, withPrice, env).value;
    if id.market in t.prices {
      assert CheckedPrice(t.markets[id.market], t.prices[id.market], env.now)
          == CheckedPrice(s.markets[id.market], s.prices[id.market], env.now);
      NoLiquidationNow(t, id, repay, env');
    }
  }

  lemma WithdrawLeaves(s: Ledger, signer: Key, id: PositionId, amount: u64, withPrice: bool, env: Env)
    requires Withdraw(s, signer, id, amount, withPrice, env).Ok?
    ensures var t := Withdraw(s, signer, id, amount, withPrice, env).value;
            && id.market in s.markets && id.market in t.markets && t.prices == s.prices
            && t.markets[id.market] == s.markets[id.market].(totalCollateral := t.markets[id.market].totalCollateral,
                                                             vault := t.markets[id.market].vault)
            && t.positions[id].lastAccrual == env.now
  {
  }

  // ----- who can change a position -------------------------------------------------------

  /** A position is never deleted and changes only through an instruction on it. Its collateral
      falls only when its owner signs a withdrawal or it is liquidated, and its debt exceeds what
      it was plus interest only when its owner signs a loan. */
  lemma OnlyOwnerTakes(s: Ledger, action: Action, env: Env, id: PositionId)
    requires Step(s, action, env).Ok? && id in s.positions
    requires OnPosition(action) ==> Legal(s, action.id)
    ensures var t := Step(s, action, env).value;
            && id in t.positions
            && (!(OnPosition(action) && action.id == id) ==> t.positions[id] == s.positions[id])
            && (t.positions[id].collateral < s.positions[id].collateral ==>
                  action.id == id && ((action.ActWithdraw? && action.signer == id.owner) || action.ActLiquidate?))
            && (t.positions[id].debt - s.positions[id].debt > t.flows.interest - s.flows.interest ==>
                  action.ActBorrow? && action.id == id && action.signer == id.owner)
  {
    if OnPosition(action) {
      var mv := PositionStepMoves(s, action, env);
      MovedTouchesOne(s, Step(s, action, env).value, action.id, mv, id);
    } else {
      OthersLeavePositions(s, action, env);
    }
  }

  lemma MovedTouchesOne(s: Ledger, t: Ledger, target: PositionId, mv: Move, id: PositionId)
    requires Moved(s, t, target, mv) && id in s.positions
    ensures id in t.positions
    ensures id != target ==> t.positions[id] == s.positions[id]
    ensures t.positions[id].collateral < s.positions[id].collateral ==> id == target && mv.collateral < 0
    ensures t.positions[id].debt - s.positions[id].debt <= mv.interest + mv.lent
    ensures t.flows.interest == s.flows.interest + mv.interest
  {
  }

  lemma OthersLeavePositions(s: Ledger, action: Action, env: Env)
    requires !OnPosition(action) && Step(s, action, env).Ok?
    ensures Step(s, action, env).value.positions == s.positions
    ensures Step(s, action, env).value.flows.interest == s.flows.interest
  {
  }

  // ----- what an accepted instruction has passed -----------------------------------------------

  predicate Fresh(m: Market, signed: SignedPrice, now: int) {
    0 <= now - signed.publishTime <= (if m.params.closedMarketAge > m.params.maxPriceAge then m.params.closedMarketAge else m.params.maxPriceAge)
  }

  /** What a posted price answers, for every age and every exponent: the refusals are a market of
      another kind, a price that is not one or comes from the future, one older than both windows,
      and one that does not fit a word. Otherwise it is read in millionths of a dollar, rounded
      down, with the ordinary haircut within the ordinary window and the closed one beyond it. */
  lemma QuoteExactly(m: Market, signed: SignedPrice, now: int)
    ensures var quote := CheckedPrice(m, signed, now);
            var dated := signed.price > 0 && signed.publishTime <= now;
            && (quote == Err(WrongOracle) <==> !m.signedOracle)
            && (quote == Err(InvalidPrice) <==> m.signedOracle && !dated)
            && (quote == Err(StalePrice) <==> m.signedOracle && dated && !Fresh(m, signed, now))
            && (quote.Ok? <==> m.signedOracle && dated && Fresh(m, signed, now) && HasPrice(signed.price, signed.expo))
            && (quote.Ok? ==>
                  && quote.value.price * Pow10(18) <= signed.price * Pow10(signed.expo + 24) < (quote.value.price + 1) * Pow10(18)
                  && quote.value.haircut == if now - signed.publishTime <= m.params.maxPriceAge then m.params.haircut else m.params.closedHaircut)
  {
    hide PriceToUsd6, Pow10;
    PriceAnswers(signed.price, signed.expo);
    PriceRefusals(signed.price, signed.expo);
  }

  lemma PriceRefusals(price: int, expo: int)
    ensures PriceToUsd6(price, expo) == Err(InvalidPrice) ==> price <= 0
    ensures PriceToUsd6(price, expo) !in {Err(WrongOracle), Err(StalePrice)}
  {
  }

  /** A price that can be read at some moment could be read at every moment since it was posted,
      at the same price, and took the closed-market haircut no earlier than after the open one.
      A price that has gone stale stays stale until another is posted. */
  lemma PriceAges(m: Market, signed: SignedPrice, now: int, later: int)
    requires signed.publishTime <= now <= later
    ensures CheckedPrice(m, signed, later).Ok? ==>
              var early, late := CheckedPrice(m, signed, now), CheckedPrice(m, signed, later);
              && Fresh(m, signed, later)
              && early.Ok? && early.value.price == late.value.price
              && late.value.haircut in {m.params.haircut, m.params.closedHaircut}
              && (later - signed.publishTime <= m.params.maxPriceAge ==> early == late && late.value.haircut == m.params.haircut)
              && (now - signed.publishTime > m.params.maxPriceAge ==> early == late && late.value.haircut == m.params.closedHaircut)
    ensures CheckedPrice(m, signed, now) == Err(StalePrice) ==> CheckedPrice(m, signed, later) == Err(StalePrice)
    ensures CheckedPrice(m, signed, now).Ok? && !Fresh(m, signed, later) ==> CheckedPrice(m, signed, later) == Err(StalePrice)
  {
  }

  /** A liquidation happens only over the threshold, on a fresh price, and takes no more of the
      debt than the close factor. */
  lemma LiquidatedOnlyOverThreshold(s: Ledger, id: PositionId, repay: u64, env: Env)
    requires Liquidate(s, id, repay, env).Ok?
    ensures var m := s.markets[id.market];
            var p := Owing(s.positions[id], s.config, env.now);
            var quote := CheckedPrice(m, s.prices[id.market], env.now);
            var value := ValueOf(p.collateral, m, quote.value, env.multiplier);
            && Fresh(m, s.prices[id.market], env.now)
            && quote.Ok? && value.Ok? && p.debt * BPS > m.params.liqThreshold * value.value
            && repay * BPS <= p.debt * s.config.closeFactor
  {
    var m := s.markets[id.market];
    var p := Owing(s.positions[id], s.config, env.now);
    var quote := CheckedPrice(m, s.prices[id.market], env.now).value;
    LtvWithin(p.debt, ValueOf(p.collateral, m, quote, env.multiplier).value, m.params.liqThreshold);
    DivBounds(p.debt * s.config.closeFactor, BPS);
  }

  /** A loan is granted only on a fresh price, and leaves the loans within the cap on the pool. */
  lemma BorrowRespectsCap(s: Ledger, signer: Key, id: PositionId, amount: u64, env: Env)
    requires Borrow(s, signer, id, amount, env).Ok?
    ensures var t := Borrow(s, signer, id, amount, env).value;
            && Fresh(s.markets[id.market], s.prices[id.market], env.now)
            && t.config.totalBorrowed * BPS <= s.config.maxUtilization * Pool(t)
  {
    hide Accrue, ValueOf, LtvBps, LendingRoom;
    var t := Borrow(s, signer, id, amount, env).value;
    var a := Accrue(s.positions[id], s.config, env.now).value;
    CapHolds(s.vault, a.config, amount);
    CapOnMore(a.config.totalBorrowed + amount, a.config.maxUtilization, s.vault + a.config.totalBorrowed - a.config.reserve, Pool(t));
    SameCap(s.positions[id], s.config, env.now);
  }

  lemma CapOnMore(lent: int, cap: nat, pool: int, more: int)
    requires lent * BPS <= cap * pool && pool <= more
    ensures lent * BPS <= cap * more
  {
    MulLe(pool, more, cap);
  }

  lemma SameCap(p: Position, c: Config, now: int)
    requires Accrue(p, c, now).Ok?
    ensures Accrue(p, c, now).value.config.maxUtilization == c.maxUtilization
  {
  }

  lemma CapHolds(vault: u64, c: Config, amount: u64)
    requires LendingRoom(vault, c, amount).Pass?
    ensures (c.totalBorrowed + amount) * BPS <= c.maxUtilization * (vault + c.totalBorrowed - c.reserve)
  {
    var pool := vault + c.totalBorrowed - c.reserve;
    if pool > 0 {
      CeilLe((c.totalBorrowed + amount) * BPS, pool, c.maxUtilization);
    }
  }
}
