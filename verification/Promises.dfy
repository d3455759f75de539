/** What the instructions promise those who rely on them, gathered from the theorems on the
    ledger: the contracts of the program's methods. */
module Promises {
  import opened Outcomes
  import opened RiskMath
  import opened Ledger
  import opened Invariants
  import opened Savings
  import opened Positions
  import opened Admission

  /** The result and the state that an instruction's specification calls for. */
  ghost function Apply(before: Ledger, r: Result<Ledger>): (Result<()>, Ledger) {
    match r
    case Ok(after) => (Ok(()), after)
    case Err(e) => (Err(e), before)
  }

  // ----- what every instruction promises --------------------------------------------------

  /** From one state to the next, with the result `r`: the invariant of reachable states is kept
      and no unchecked subtraction aborts, no share loses value, and no saver but the one acting
      can redeem less. */
  ghost predicate Safely(s: Ledger, r: Result<()>, t: Ledger, actor: Option<Key>) {
    && (Inv(s) ==> Inv(t) && r != Err(Underflow))
    && (Sound(s) && s.config.totalShares > 0 ==> Pool(t) * s.config.totalShares >= Pool(s) * t.config.totalShares)
    && (Sound(s) ==> forall saver: Key | actor != Some(saver) :: Redeemable(t, saver) >= Redeemable(s, saver))
  }

  function Actor(action: Action): Option<Key> {
    if action.ActDepositSavings? || action.ActWithdrawSavings? then Some(action.saver) else None
  }

  lemma StepIsSafe(s: Ledger, action: Action, env: Env)
    ensures var (r, t) := Apply(s, Step(s, action, env)); Safely(s, r, t, Actor(action))
  {
    hide Step, Inv, LedgersAgree, PoolSound, VaultsHold, Parameters, Redeemable;
    var (r, t) := Apply(s, Step(s, action, env));
    if Sound(s) {
      NoUnderflowWhenSound(s, action, env);
    }
    InvIsSound(s);
    if Step(s, action, env).Ok? && Sound(s) {
      if Inv(s) {
        StepKeeps(s, action, env);
      }
      if s.config.totalShares > 0 {
        SharePriceNeverFalls(s, action, env);
      }
      forall saver: Key | Actor(action) != Some(saver)
        ensures Redeemable(t, saver) >= Redeemable(s, saver)
      {
        NeverDiluted(s, action, env, saver);
      }
    }
  }

  lemma InvIsSound(s: Ledger)
    ensures Inv(s) ==> Sound(s)
  {
  }

  lemma NoUnderflowWhenSound(s: Ledger, action: Action, env: Env)
    requires Sound(s)
    ensures Step(s, action, env) != Err(Underflow)
  {
    hide Step;
    NoUnderflow(s, action, env);
  }

  /** For the instructions that read nothing from outside. */
  const QUIET: Env := Env(0, 0, false, false, false, 0, false)

  // ----- what each one promises -------------------------------------------------------------

  /** A deposit goes through exactly when it may, and touches no other position. */
  ghost predicate Deposits(s: Ledger, r: Result<()>, t: Ledger, id: PositionId, amount: u64, withPrice: bool, env: Env) {
    && (Sound(s) ==> (r.Ok? <==> MayDeposit(s, id, amount, withPrice, env)))
    && OthersStay(s, t, id)
  }

  ghost predicate OthersStay(s: Ledger, t: Ledger, id: PositionId) {
    forall other | other in s.positions && other != id :: other in t.positions && t.positions[other] == s.positions[other]
  }

  lemma DepositAsPromised(s: Ledger, id: PositionId, amount: u64, withPrice: bool, env: Env)
    ensures var (r, t) := Apply(s, Deposit(s, id, amount, withPrice, env)); Deposits(s, r, t, id, amount, withPrice, env)
  {
    hide Sound, MayDeposit;
    if Sound(s) {
      DepositExactly(s, id, amount, withPrice, env);
    }
  }

  /** A loan is granted exactly when it may be, within the limit at a readable price and within
      the cap, and leaves the reserve in cash. */
  ghost predicate Lends(s: Ledger, r: Result<()>, t: Ledger, signer: Key, id: PositionId, amount: u64, env: Env) {
    && (Sound(s) ==> (r.Ok? <==> MayBorrow(s, signer, id, amount, env)))
    && (r.Ok? ==>
          && LimitKept(s, t, id, env)
          && t.config.totalBorrowed * BPS <= s.config.maxUtilization * Pool(t)
          && (s.config.maxUtilization <= BPS ==> t.config.reserve <= t.vault))
    && OthersStay(s, t, id)
  }

  /** The position is within the limit of its market at the value of this moment. */
  ghost predicate LimitKept(s: Ledger, t: Ledger, id: PositionId, env: Env) {
    && Readable(s, id, env) && id in t.positions
    && var m, q := s.markets[id.market], t.positions[id];
    && var value := ValueOf(q.collateral, m, QuoteNow(s, id, env), env.multiplier);
    && value.Ok? && WithinLimit(q.debt, value.value, m.params.maxLtv)
  }

  lemma BorrowAsPromised(s: Ledger, signer: Key, id: PositionId, amount: u64, env: Env)
    ensures var (r, t) := Apply(s, Borrow(s, signer, id, amount, env)); Lends(s, r, t, signer, id, amount, env)
  {
    hide Sound, MayBorrow;
    if Sound(s) {
      BorrowExactly(s, signer, id, amount, env);
    }
    if Borrow(s, signer, id, amount, env).Ok? {
      BorrowWithinLimit(s, signer, id, amount, env);
      BorrowRespectsCap(s, signer, id, amount, env);
      if s.config.maxUtilization <= BPS {
        BorrowFindsCash(s, signer, id, amount, env);
      }
    }
  }

  /** A repayment goes through exactly when it may, paused or not. */
  ghost predicate Repays(s: Ledger, r: Result<()>, t: Ledger, id: PositionId, amount: u64, withPrice: bool, env: Env) {
    && (LedgersAgree(s) ==> (r.Ok? <==> MayRepay(s, id, amount, withPrice, env)))
    && OthersStay(s, t, id)
  }

  lemma RepayAsPromised(s: Ledger, id: PositionId, amount: u64, withPrice: bool, env: Env)
    ensures var (r, t) := Apply(s, Repay(s, id, amount, withPrice, env)); Repays(s, r, t, id, amount, withPrice, env)
  {
    hide LedgersAgree, MayRepay;
    if LedgersAgree(s) {
      RepayExactly(s, id, amount, withPrice, env);
    }
  }

  /** Collateral is released exactly when it may be, and with debt left only within the limit. */
  ghost predicate Releases(s: Ledger, r: Result<()>, t: Ledger, signer: Key, id: PositionId, amount: u64, withPrice: bool, env: Env) {
    && (Sound(s) ==> (r.Ok? <==> MayWithdraw(s, signer, id, amount, withPrice, env)))
    && (r.Ok? ==> id in t.positions && (t.positions[id].debt > 0 ==> LimitKept(s, t, id, env)))
    && OthersStay(s, t, id)
  }

  lemma WithdrawAsPromised(s: Ledger, signer: Key, id: PositionId, amount: u64, withPrice: bool, env: Env)
    ensures var (r, t) := Apply(s, Withdraw(s, signer, id, amount, withPrice, env));
            Releases(s, r, t, signer, id, amount, withPrice, env)
  {
    hide Sound, MayWithdraw;
    if Sound(s) {
      WithdrawExactly(s, signer, id, amount, withPrice, env);
    }
    if Withdraw(s, signer, id, amount, withPrice, env).Ok? {
      WithdrawWithinLimit(s, signer, id, amount, withPrice, env);
    }
  }

  /** A liquidation goes through exactly when it may, and a position it finds covered it leaves
      covered and no riskier. */
  ghost predicate Liquidates(s: Ledger, r: Result<()>, t: Ledger, id: PositionId, repay: u64, env: Env) {
    && (Sound(s) ==> (r.Ok? <==> MayLiquidate(s, id, repay, env)))
    && (s.config.closeFactor <= BPS && CoveredAt(s, id, env) ==>
          CoveredAt(t, id, env) && NoRiskier(s.positions[id], t.positions[id], env.now))
    && OthersStay(s, t, id)
  }

  lemma LiquidateAsPromised(s: Ledger, id: PositionId, repay: u64, env: Env)
    ensures var (r, t) := Apply(s, Liquidate(s, id, repay, env)); Liquidates(s, r, t, id, repay, env)
  {
    hide Sound, MayLiquidate, CoveredAt;
    if Sound(s) {
      LiquidateExactly(s, id, repay, env);
    }
    if Liquidate(s, id, repay, env).Ok? && s.config.closeFactor <= BPS && CoveredAt(s, id, env) {
      OneLiquidation(s, id, repay, env);
    }
  }

  /** A saver's deposit goes through exactly when it may and mints the most the price allows. */
  ghost predicate Saves(s: Ledger, r: Result<()>, t: Ledger, saver: Key, amount: u64, env: Env) {
    Sound(s) ==>
      && (r.Ok? <==> MaySave(s, amount, env))
      && (r.Ok? ==>
            var minted := t.config.totalShares - s.config.totalShares;
            minted > 0 && Buys(s, amount, minted) && SharesHeld(t, saver) == SharesHeld(s, saver) + minted && t.vault == s.vault + amount)
  }

  lemma DepositSavingsAsPromised(s: Ledger, saver: Key, amount: u64, env: Env)
    ensures var (r, t) := Apply(s, DepositSavings(s, saver, amount, env)); Saves(s, r, t, saver, amount, env)
  {
    hide MaySave, Buys, DepositSavings;
    if Sound(s) {
      DepositSavingsExactly(s, saver, amount, env);
    }
  }

  /** A saver gets what the shares asked for are worth, at least a unit each, exactly when they are
      held, that much cash is beyond the reserve and the pool's value fits a word. */
  ghost predicate Redeems(s: Ledger, r: Result<()>, t: Ledger, saver: Key, shares: u64) {
    Sound(s) ==>
      && (r.Ok? <==> MayRedeem(s, saver, shares))
      && (r.Ok? ==>
            var due := s.vault - t.vault;
            && shares <= due
            && due * s.config.totalShares <= shares * Pool(s) < (due + 1) * s.config.totalShares
            && SharesHeld(t, saver) == SharesHeld(s, saver) - shares)
  }

  lemma WithdrawSavingsAsPromised(s: Ledger, saver: Key, shares: u64)
    ensures var (r, t) := Apply(s, WithdrawSavings(s, saver, shares)); Redeems(s, r, t, saver, shares)
  {
    hide MayRedeem, WithdrawSavings;
    if Sound(s) {
      WithdrawSavingsExactly(s, saver, shares);
      if WithdrawSavings(s, saver, shares).Ok? {
        AtLeastAUnitEach(s, saver, shares);
      }
    }
  }

  lemma AtLeastAUnitEach(s: Ledger, saver: Key, shares: u64)
    requires Sound(s) && WithdrawSavings(s, saver, shares).Ok?
    ensures shares <= s.vault - WithdrawSavings(s, saver, shares).value.vault
  {
    WithdrawSavingsOutcome(s, saver, shares);
  }

  /** The reserve is paid to the administrator exactly as far as there is cash, and leaves the pool. */
  ghost predicate Claims(s: Ledger, r: Result<()>, t: Ledger, signer: Key, amount: u64) {
    && (r.Ok? <==> signer == s.config.admin && 0 < amount <= s.config.reserve && amount <= s.vault)
    && (r.Ok? ==> s.vault - t.vault == s.config.reserve - t.config.reserve == amount)
    && Pool(t) == Pool(s)
  }

  lemma ClaimReserveAsPromised(s: Ledger, signer: Key, amount: u64)
    ensures var (r, t) := Apply(s, ClaimReserve(s, signer, amount)); Claims(s, r, t, signer, amount)
  {
    hide ClaimReserve;
    ClaimExactly(s, signer, amount);
  }
}
