/** What savers can rely on: the value of a share, what it redeems for, and the pool's cash. */
module Savings {
  import opened Outcomes
  import opened Rounding
  import opened RiskMath
  import opened Sums
  import opened Ledger
  import opened Invariants

  // ----- the pool ---------------------------------------------------------------

  /** In a reachable state the pool's value is never below zero and never zero while shares
      exist; computing it can only fail by being too wide for a word. */
  lemma PoolIsSound(s: Ledger)
    requires Sound(s)
    ensures PoolValue(s.vault, s.config.totalBorrowed, s.config.reserve)
            == if Pool(s) <= U64_MAX then Ok(Pool(s)) else Err(MathOverflow)
    ensures s.config.totalShares > 0 ==> Pool(s) > 0
  {
  }

  /** An instruction on a position never takes from savers: the pool gains exactly the interest
      charged less the protocol's share of it, and a loan that is paid to the vault itself. */
  lemma PoolGainsInterest(s: Ledger, action: Action, env: Env) returns (mv: Move)
    requires Sound(s) && OnPosition(action) && Step(s, action, env).Ok?
    ensures Moved(s, Step(s, action, env).value, action.id, mv)
    ensures Pool(Step(s, action, env).value) == Pool(s) + mv.interest - mv.share + mv.stayed
    ensures mv.stayed > 0 ==> action.ActBorrow? && env.ownVault && mv.stayed == action.amount
  {
    SoundMakesLegal(s, action.id);
    mv := PositionStepMoves(s, action, env);
  }

  /** The pool's value per share never falls, whoever does whatever, while any share exists. */
  lemma SharePriceNeverFalls(s: Ledger, action: Action, env: Env)
    requires Sound(s) && s.config.totalShares > 0 && Step(s, action, env).Ok?
    ensures var t := Step(s, action, env).value;
            Pool(t) * s.config.totalShares >= Pool(s) * t.config.totalShares
  {
    var t := Step(s, action, env).value;
    if action.ActDepositSavings? {
      DepositSharePrice(s, action.saver, action.amount, env);
    } else if action.ActWithdrawSavings? {
      WithdrawSharePrice(s, action.saver, action.shares);
    } else {
      if OnPosition(action) {
        SoundMakesLegal(s, action.id);
      }
      PoolOnlyGrows(s, action, env);
      MulLe(Pool(s), Pool(t), s.config.totalShares);
    }
  }

  /** Apart from savers coming and going, the pool never shrinks and the shares stay. */
  lemma PoolOnlyGrows(s: Ledger, action: Action, env: Env)
    requires !action.ActDepositSavings? && !action.ActWithdrawSavings? && Step(s, action, env).Ok?
    requires OnPosition(action) ==> Legal(s, action.id)
    ensures Pool(Step(s, action, env).value) >= Pool(s)
    ensures Step(s, action, env).value.config.totalShares == s.config.totalShares
  {
    if OnPosition(action) {
      var mv := PositionStepMoves(s, action, env);
    }
  }

  lemma DepositSharePrice(s: Ledger, saver: Key, amount: u64, env: Env)
    requires PoolSound(s) && s.config.totalShares > 0 && DepositSavings(s, saver, amount, env).Ok?
    ensures var t := DepositSavings(s, saver, amount, env).value;
            Pool(t) * s.config.totalShares >= Pool(s) * t.config.totalShares
  {
    var P, T := Pool(s), s.config.totalShares;
    var minted := SharesForDeposit(amount, T, P).value;
    MintAtMost(amount, T, P, minted);
    assert (P + amount) * T == P * T + amount * T;
    assert P * (T + minted) == P * T + minted * P;
  }

  lemma WithdrawSharePrice(s: Ledger, saver: Key, shares: u64)
    requires PoolSound(s) && s.config.totalShares > 0 && WithdrawSavings(s, saver, shares).Ok?
    ensures var t := WithdrawSavings(s, saver, shares).value;
            Pool(t) * s.config.totalShares >= Pool(s) * t.config.totalShares
  {
    var P, T := Pool(s), s.config.totalShares;
    var amount := AmountForShares(shares, T, P).value;
    RedeemLeaves(shares, T, P, amount);
    assert (P - amount) * T == P * T - amount * T;
    assert P * (T - shares) == P * T - shares * P;
  }

  // ----- one saver --------------------------------------------------------------

  /** What a saver's shares are worth, rounded down; nothing when there are no shares. */
  ghost function Redeemable(s: Ledger, saver: Key): int {
    if s.config.totalShares == 0 then 0 else SharesHeld(s, saver) * Pool(s) / s.config.totalShares
  }

  predicate ActsOnSavingsOf(action: Action, saver: Key) {
    (action.ActDepositSavings? || action.ActWithdrawSavings?) && action.saver == saver
  }

  lemma HeldInTotal(s: Ledger, saver: Key)
    requires LedgersAgree(s)
    ensures SharesHeld(s, saver) <= s.config.totalShares
  {
    SumUpdate(s.savers, saver, 0, SharesOf);
  }

  lemma OtherKeepShares(s: Ledger, action: Action, env: Env, saver: Key)
    requires Legal(s, if OnPosition(action) then action.id else PositionId(0, 0))
    requires !ActsOnSavingsOf(action, saver) && Step(s, action, env).Ok?
    ensures SharesHeld(Step(s, action, env).value, saver) == SharesHeld(s, saver)
  {
    if OnPosition(action) {
      var mv := PositionStepMoves(s, action, env);
    }
  }

  /** Nobody else's instruction ever reduces what a saver can redeem. */
  lemma NeverDiluted(s: Ledger, action: Action, env: Env, saver: Key)
    requires Sound(s) && !ActsOnSavingsOf(action, saver) && Step(s, action, env).Ok?
    ensures Redeemable(Step(s, action, env).value, saver) >= Redeemable(s, saver)
  {
    SoundMakesLegal(s, if OnPosition(action) then action.id else PositionId(0, 0));
    OtherKeepShares(s, action, env, saver);
    StepKeepsSound(s, action, env);
    if s.config.totalShares > 0 {
      SharePriceNeverFalls(s, action, env);
    }
    DearerSharesRedeemMore(s, Step(s, action, env).value, saver);
  }

  lemma DearerSharesRedeemMore(s: Ledger, t: Ledger, saver: Key)
    requires LedgersAgree(s) && LedgersAgree(t) && PoolSound(s) && PoolSound(t)
    requires SharesHeld(t, saver) == SharesHeld(s, saver)
    requires s.config.totalShares > 0 ==> Pool(t) * s.config.totalShares >= Pool(s) * t.config.totalShares
    ensures Redeemable(t, saver) >= Redeemable(s, saver)
  {
    HeldInTotal(s, saver);
    HeldInTotal(t, saver);
    hide LedgersAgree, SharesHeld;
    if SharesHeld(s, saver) > 0 {
      RatioMono(SharesHeld(s, saver), Pool(s), s.config.totalShares, Pool(t), t.config.totalShares);
    }
  }

  lemma RatioMono(x: nat, p: nat, t: nat, p': nat, t': nat)
    requires t > 0 && t' > 0 && p' * t >= p * t'
    ensures x * p' / t' >= x * p / t
  {
    var k := x * p / t;
    FloorGe(x * p, t, k);
    assert k * t <= x * p;
    MulLe(k * t, x * p, t');
    MulLe(p * t', p' * t, x);
    assert (k * t') * t <= (x * p') * t;
    MulCancel(k * t', x * p', t);
    FloorGe(x * p', t', k);
  }

  /** Over any run in which a saver does not act, what they can redeem does not fall. */
  lemma {:induction false} NeverDilutedOverRuns(s: Ledger, trace: seq<Event>, saver: Key)
    requires Sound(s)
    requires forall i | 0 <= i < |trace| :: !ActsOnSavingsOf(trace[i].action, saver)
    ensures Redeemable(Run(s, trace), saver) >= Redeemable(s, saver)
    decreases trace
  {
    if trace != [] {
      if Step(s, trace[0].action, trace[0].env).Ok? {
        NeverDiluted(s, trace[0].action, trace[0].env, saver);
        StepKeepsSound(s, trace[0].action, trace[0].env);
      }
      NeverDilutedOverRuns(After(s, trace[0].action, trace[0].env), trace[1..], saver);
    }
  }

  // ----- all savers together ------------------------------------------------------

  function DueTo(pool: nat, total: nat, saver: Key, shares: u64): nat {
    if total == 0 then 0 else shares * pool / total
  }

  function Dues(pool: nat, total: nat): (Key, u64) -> nat {
    (saver: Key, shares: u64) => DueTo(pool, total, saver, shares)
  }

  /** `worth` parts of a pool of `total` shares claim no more than `shares` of them. */
  ghost predicate AtMost(worth: int, total: int, shares: int, pool: int) {
    worth * total <= shares * pool
  }

  lemma AddAtMost(w: int, w': int, total: int, x: int, x': int, pool: int)
    requires AtMost(w, total, x, pool) && AtMost(w', total, x', pool)
    ensures AtMost(w + w', total, x + x', pool)
  {
  }

  lemma NothingAtMost(total: int, pool: int)
    ensures AtMost(0, total, 0, pool)
  {
  }

  lemma DueToOne(pool: nat, total: nat, saver: Key, shares: u64)
    requires total > 0
    ensures AtMost(DueTo(pool, total, saver, shares), total, shares, pool)
  {
    FloorGe(shares * pool, total, DueTo(pool, total, saver, shares));
  }

  lemma {:induction false} DuesWithin(savers: map<Key, u64>, pool: nat, total: nat)
    requires total > 0
    ensures AtMost(Sum(savers, Dues(pool, total)), total, Sum(savers, SharesOf), pool)
    decreases |savers|
  {
    hide AtMost, DueTo;
    if savers == map[] {
      NothingAtMost(total, pool);
    } else {
      var k :| k in savers;
      SumSplit(savers, k, Dues(pool, total));
      SumSplit(savers, k, SharesOf);
      DuesWithin(savers - {k}, pool, total);
      DueToOne(pool, total, k, savers[k]);
      AddAtMost(DueTo(pool, total, k, savers[k]), Sum(savers - {k}, Dues(pool, total)), total,
                savers[k], Sum(savers - {k}, SharesOf), pool);
    }
  }

  /** All savers' claims together never exceed the pool. */
  lemma ClaimsWithinPool(s: Ledger)
    requires Sound(s)
    ensures Sum(s.savers, Dues(Pool(s), s.config.totalShares)) <= Pool(s)
    ensures forall k | k in s.savers :: Dues(Pool(s), s.config.totalShares)(k, s.savers[k]) == Redeemable(s, k)
  {
    var P, T := Pool(s), s.config.totalShares;
    if T == 0 {
      SumZero(s.savers, Dues(P, T));
    } else {
      DuesWithin(s.savers, P, T);
      MulCancel(Sum(s.savers, Dues(P, T)), P, T);
    }
  }

  // ----- in and out ---------------------------------------------------------------

  /** Depositing and at once redeeming the minted shares returns at most the deposit, and the
      loss is less than one share's worth plus one unit. */
  lemma DepositThenRedeem(s: Ledger, saver: Key, amount: u64, env: Env)
    requires PoolSound(s) && s.config.totalShares > 0 && DepositSavings(s, saver, amount, env).Ok?
    requires var t := DepositSavings(s, saver, amount, env).value;
             WithdrawSavings(t, saver, t.config.totalShares - s.config.totalShares).Ok?
    ensures var t := DepositSavings(s, saver, amount, env).value;
            var u := WithdrawSavings(t, saver, t.config.totalShares - s.config.totalShares).value;
            var loss := u.vault - s.vault;
            && 0 <= loss
            && loss * t.config.totalShares < Pool(s) + t.config.totalShares
            && SharesHeld(u, saver) == SharesHeld(s, saver)
            && u.config == s.config
  {
    RoundTripFacts(s, saver, amount, env);
    var t := DepositSavings(s, saver, amount, env).value;
    RoundTripLoss(amount, s.config.totalShares, Pool(s), t.config.totalShares - s.config.totalShares);
  }

  lemma RoundTripFacts(s: Ledger, saver: Key, amount: u64, env: Env)
    requires s.config.totalShares > 0 && DepositSavings(s, saver, amount, env).Ok?
    ensures var t := DepositSavings(s, saver, amount, env).value;
            var minted := t.config.totalShares - s.config.totalShares;
            && Pool(s) > 0 && minted == amount * s.config.totalShares / Pool(s)
            && (WithdrawSavings(t, saver, minted).Ok? ==>
                  var u := WithdrawSavings(t, saver, minted).value;
                  && u.vault == s.vault + amount - minted * (Pool(s) + amount) / t.config.totalShares
                  && SharesHeld(u, saver) == SharesHeld(s, saver)
                  && u.config == s.config)
  {
  }

  lemma RoundTripLoss(amount: nat, T: nat, P: nat, minted: nat)
    requires 0 < T && 0 < P && minted == amount * T / P
    ensures var back := minted * (P + amount) / (T + minted);
            back <= amount && (amount - back) * (T + minted) < P + (T + minted)
  {
    var back := minted * (P + amount) / (T + minted);
    DivBounds(amount * T, P);
    DivBounds(minted * (P + amount), T + minted);
    RoundTripBound(amount, T, P, minted, back);
  }

  lemma RoundTripBound(amount: nat, T: nat, P: nat, minted: nat, back: nat)
    requires 0 < T
    requires minted * P <= amount * T < (minted + 1) * P
    requires back * (T + minted) <= minted * (P + amount) < (back + 1) * (T + minted)
    ensures back <= amount
    ensures (amount - back) * (T + minted) < P + (T + minted)
  {
    assert minted * (P + amount) == minted * P + amount * minted <= amount * T + amount * minted == amount * (T + minted);
    MulCancel(back, amount, T + minted);
    assert (amount - back) * (T + minted) == amount * T + amount * minted - back * (T + minted);
    assert (back + 1) * (T + minted) == back * (T + minted) + T + minted;
    assert (minted + 1) * P == minted * P + P;
  }

  /** A saver who asks for shares they hold is refused in only two cases: the pool's value is
      too wide for a word, or the cash is out on loan. The payment is at least one unit a share. */
  lemma WithdrawSavingsOutcome(s: Ledger, saver: Key, shares: u64)
    requires LedgersAgree(s) && PoolSound(s) && saver in s.savers && 0 < shares <= s.savers[saver]
    ensures s.config.totalShares > 0
    ensures var due := shares * Pool(s) / s.config.totalShares;
            && due >= shares
            && match WithdrawSavings(s, saver, shares)
               case Ok(t) => due <= s.vault - s.config.reserve && t.vault == s.vault - due
                             && t.config.totalShares == s.config.totalShares - shares
               case Err(e) => if Pool(s) > U64_MAX then e == MathOverflow
                              else e == InsufficientLiquidity && s.vault - s.config.reserve < due
  {
    HeldInTotal(s, saver);
    DueWithin(shares, s.config.totalShares, Pool(s));
  }

  /** A redemption goes through exactly when the shares are held, the pool's value fits a word and
      the cash beyond the reserve covers what they are worth. It pays just that and burns just those
      shares. */
  lemma WithdrawSavingsExactly(s: Ledger, saver: Key, shares: u64)
    requires LedgersAgree(s) && PoolSound(s)
    ensures WithdrawSavings(s, saver, shares).Ok? <==> MayRedeem(s, saver, shares)
    ensures WithdrawSavings(s, saver, shares).Ok? ==>
              var t := WithdrawSavings(s, saver, shares).value;
              var due := s.vault - t.vault;
              && due * s.config.totalShares <= shares * Pool(s) < (due + 1) * s.config.totalShares
              && t == s.(vault := t.vault,
                         savers := s.savers[saver := SharesHeld(s, saver) - shares],
                         config := s.config.(totalShares := s.config.totalShares - shares),
                         flows := s.flows.(redeemed := s.flows.redeemed + due))
  {
    if 0 < shares <= SharesHeld(s, saver) {
      WithdrawSavingsOutcome(s, saver, shares);
      DivBounds(shares * Pool(s), s.config.totalShares);
      FloorGe(shares * Pool(s), s.config.totalShares, s.vault - s.config.reserve + 1);
    }
  }

  /** Shares worth no more than the cash beyond the reserve. */
  ghost predicate MayRedeem(s: Ledger, saver: Key, shares: u64) {
    && 0 < shares <= SharesHeld(s, saver)
    && Pool(s) <= U64_MAX
    && shares * Pool(s) < (s.vault - s.config.reserve + 1) * s.config.totalShares
  }

  lemma DueWithin(shares: nat, total: nat, pool: nat)
    requires 0 < shares <= total <= pool
    ensures shares <= shares * pool / total <= pool
  {
    RedeemLeaves(shares, total, pool, shares * pool / total);
    MulLe(shares, total, pool);
    assert (pool + 1) * total == pool * total + total > shares * pool;
    FloorGe(shares * pool, total, pool + 1);
  }

  // ----- deposits and claims --------------------------------------------------------------------

  /** The deposit buys at least one share and every total fits its word. */
  ghost predicate MaySave(s: Ledger, amount: u64, env: Env) {
    && 0 < amount <= env.funds && s.vault + amount <= U64_MAX
    && Pool(s) <= U64_MAX
    && (s.config.totalShares > 0 ==>
          Pool(s) <= amount * s.config.totalShares < (U64_MAX + 1 - s.config.totalShares) * Pool(s))
  }

  /** The most shares that `amount` pays for at the price of the moment, one each when there are none. */
  ghost predicate Buys(s: Ledger, amount: u64, minted: nat) {
    if s.config.totalShares == 0 then minted == amount
    else minted * Pool(s) <= amount * s.config.totalShares < (minted + 1) * Pool(s)
  }

  /** A saver's deposit goes through, paused or not and whether or not the saver has shares already,
      exactly when the saver has the cash, it buys a share and the totals fit their words. What is
      minted is the most that the price allows, and shares and cash rise by just that. */
  lemma DepositSavingsExactly(s: Ledger, saver: Key, amount: u64, env: Env)
    requires LedgersAgree(s) && PoolSound(s)
    ensures DepositSavings(s, saver, amount, env).Ok? <==> MaySave(s, amount, env)
    ensures DepositSavings(s, saver, amount, env).Ok? ==>
              var t := DepositSavings(s, saver, amount, env).value;
              var minted := t.config.totalShares - s.config.totalShares;
              && minted > 0 && Buys(s, amount, minted)
              && t == s.(vault := s.vault + amount,
                         savers := s.savers[saver := SharesHeld(s, saver) + minted],
                         config := s.config.(totalShares := s.config.totalShares + minted),
                         flows := s.flows.(saved := s.flows.saved + amount))
  {
    HeldInTotal(s, saver);
    if s.config.totalShares > 0 && amount > 0 && Pool(s) <= U64_MAX {
      Bought(amount, s.config.totalShares, Pool(s));
    }
  }

  lemma Bought(amount: nat, total: u64, pool: nat)
    requires pool > 0
    ensures amount * total >= 0
    ensures var minted := amount * total / pool;
            && 0 <= minted && minted * pool <= amount * total < (minted + 1) * pool
            && (1 <= minted <==> pool <= amount * total)
            && (total + minted <= U64_MAX <==> amount * total < (U64_MAX + 1 - total) * pool)
  {
    MulLe(0, amount, total);
    DivBounds(amount * total, pool);
    FloorGe(amount * total, pool, 1);
    FloorGe(amount * total, pool, U64_MAX + 1 - total);
  }

  /** The reserve is paid out to the administrator alone, as far as there is cash. Vault and reserve
      fall by the amount, the pool and all else stay. */
  lemma ClaimExactly(s: Ledger, signer: Key, amount: u64)
    ensures ClaimReserve(s, signer, amount).Ok? <==>
              signer == s.config.admin && 0 < amount <= s.config.reserve && amount <= s.vault
    ensures ClaimReserve(s, signer, amount).Ok? ==>
              var t := ClaimReserve(s, signer, amount).value;
              && s.vault - t.vault == s.config.reserve - t.config.reserve == amount
              && Pool(t) == Pool(s)
              && t == s.(vault := t.vault, config := s.config.(reserve := t.config.reserve),
                         flows := s.flows.(claimed := s.flows.claimed + amount))
  {
  }

  // ----- lending ------------------------------------------------------------------

  /** With the cap at most the whole, a loan within the cap always finds its cash, even when the
      reserve is larger than the cash before interest is collected. */
  lemma CapLeavesCash(vault: u64, c: Config, amount: u64)
    requires c.maxUtilization <= BPS && amount > 0
    ensures LendingRoom(vault, c, amount) != Refuse(InsufficientLiquidity)
    ensures LendingRoom(vault, c, amount).Pass? ==> c.reserve + amount <= vault
  {
    var pool := PoolValue(vault, c.totalBorrowed, c.reserve);
    if pool.Ok? && pool.value > 0 && Add(c.totalBorrowed, amount).Ok? {
      var n := (c.totalBorrowed + amount) * BPS;
      CeilLe(n, pool.value, c.maxUtilization);
      MulLe(c.maxUtilization, BPS, pool.value);
    }
  }

  /** Neither liquidity refusal of `borrow` can happen, and a loan leaves the reserve in cash. */
  lemma BorrowFindsCash(s: Ledger, signer: Key, id: PositionId, amount: u64, env: Env)
    requires s.config.maxUtilization <= BPS
    ensures Borrow(s, signer, id, amount, env) !in {Err(InsufficientLiquidity), Err(TransferFailed)}
    ensures Borrow(s, signer, id, amount, env).Ok? ==>
              var t := Borrow(s, signer, id, amount, env).value; t.config.reserve <= t.vault
  {
    if amount > 0 && id in s.positions && Accrue(s.positions[id], s.config, env.now).Ok? {
      CapLeavesCash(s.vault, Accrue(s.positions[id], s.config, env.now).value.config, amount);
    }
  }
}
