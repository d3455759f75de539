/** The app's previews carried out as instructions: what the program then does. The app previews
    at the market's ordinary haircut, whatever the age of the price; the program uses the haircut
    that the age calls for. What a preview promises depends on how the two compare. */
module Previews {
  import opened Outcomes
  import opened Rounding
  import opened RiskMath
  import opened Ledger
  import opened Invariants
  import opened Positions
  import opened Admission
  import C = ClientRisk

  /** A position in a market with a readable price, whatever interest is pending: what the app
      shows a preview of. */
  ghost predicate Shown(s: Ledger, id: PositionId, env: Env) {
    && Legal(s, id)
    && Ready(s, id, env)
    && QuoteNow(s, id, env).price > 0 && env.multiplier > 0
  }

  /** The program's value of some collateral of this position, at the haircut of the moment. */
  ghost function ValueNow(s: Ledger, id: PositionId, collateral: nat, env: Env): nat
    requires Shown(s, id, env)
  {
    var quote := QuoteNow(s, id, env);
    FloorValue(collateral, env.multiplier, quote.price, quote.haircut, s.markets[id.market].decimals)
  }

  /** The same with the market's ordinary haircut. */
  ghost function OpenValue(s: Ledger, id: PositionId, collateral: nat, env: Env): nat
    requires Shown(s, id, env)
  {
    FloorValue(collateral, env.multiplier, QuoteNow(s, id, env).price, s.markets[id.market].params.haircut, s.markets[id.market].decimals)
  }

  /** What the app shows the collateral to be worth. */
  ghost function ShownValue(s: Ledger, id: PositionId, env: Env): nat
    requires Shown(s, id, env)
  {
    var m := s.markets[id.market];
    C.CollateralValue(s.positions[id].collateral, m.decimals, QuoteNow(s, id, env).price, m.params.haircut, env.multiplier)
  }

  /** The most a position may owe: as the app shows it, and as the program has it. */
  ghost function ShownLimit(s: Ledger, id: PositionId, env: Env): nat
    requires Shown(s, id, env)
  {
    C.Limit(ShownValue(s, id, env), s.markets[id.market].params.maxLtv)
  }

  ghost function RealLimit(s: Ledger, id: PositionId, collateral: nat, env: Env): nat
    requires Shown(s, id, env)
  {
    C.Limit(ValueNow(s, id, collateral, env), s.markets[id.market].params.maxLtv)
  }

  ghost function OwedNow(s: Ledger, id: PositionId, env: Env): nat
    requires Shown(s, id, env)
  {
    DebtAt(s.positions[id], env.now)
  }

  lemma ShownTerms(s: Ledger, id: PositionId, env: Env)
    requires Shown(s, id, env)
    ensures var params := s.markets[id.market].params;
            0 < params.maxLtv < params.liqThreshold <= BPS && params.haircut < BPS
  {
  }

  /** The shown limit is never above the real one while the program's haircut is no deeper than the
      ordinary one, and at that haircut the real one is at most a unit above it, and with no
      haircut equal to it. */
  lemma ShownAgainstReal(s: Ledger, id: PositionId, env: Env)
    requires Shown(s, id, env)
    ensures var shown, actual := ShownLimit(s, id, env), RealLimit(s, id, s.positions[id].collateral, env);
            var open, quoted := s.markets[id.market].params.haircut, QuoteNow(s, id, env).haircut;
            && (quoted <= open ==> shown <= actual)
            && (open <= quoted ==> actual <= shown + 1)
            && (open == 0 ==> actual <= shown)
  {
    hide FloorValue, C.CollateralValue, C.Limit;
    ShownTerms(s, id, env);
    var m, p, quote := s.markets[id.market], s.positions[id], QuoteNow(s, id, env);
    var open, value := OpenValue(s, id, p.collateral, env), ValueNow(s, id, p.collateral, env);
    OpenAgainstShown(p.collateral, env.multiplier, quote.price, m.params.haircut, m.params.maxLtv, m.decimals);
    if quote.haircut <= m.params.haircut {
      HaircutLowers(p.collateral, env.multiplier, quote.price, quote.haircut, m.params.haircut, m.decimals);
      C.LimitMono(open, value, m.params.maxLtv);
    }
    if m.params.haircut <= quote.haircut {
      HaircutLowers(p.collateral, env.multiplier, quote.price, m.params.haircut, quote.haircut, m.decimals);
      C.LimitMono(value, open, m.params.maxLtv);
    }
  }

  lemma OpenAgainstShown(collateral: nat, multiplier: nat, price: nat, haircut: nat, maxLtv: nat, decimals: nat)
    requires haircut < BPS && maxLtv <= BPS
    ensures var shown := C.Limit(C.CollateralValue(collateral, decimals, price, haircut, multiplier), maxLtv);
            var open := C.Limit(FloorValue(collateral, multiplier, price, haircut, decimals), maxLtv);
            shown <= open <= shown + 1 && (haircut == 0 ==> open == shown)
  {
    hide FloorValue, C.CollateralValue, C.Limit, WithinLimit;
    var shown := C.Limit(C.CollateralValue(collateral, decimals, price, haircut, multiplier), maxLtv);
    var value := FloorValue(collateral, multiplier, price, haircut, decimals);
    C.LimitDecides(shown, collateral, multiplier, price, haircut, maxLtv, decimals);
    C.LimitDecides(C.Limit(value, maxLtv), collateral, multiplier, price, haircut, maxLtv, decimals);
    C.WithinIsLimit(shown, value, maxLtv);
    C.WithinIsLimit(C.Limit(value, maxLtv), value, maxLtv);
  }

  // ----- borrowing -----------------------------------------------------------------------

  /** The credit previewed on a given debt. */
  ghost function CreditOn(s: Ledger, id: PositionId, debt: nat, env: Env): nat
    requires Shown(s, id, env)
  {
    C.AvailableCredit(debt, ShownValue(s, id, env), s.markets[id.market].params.maxLtv)
  }

  /** A loan is refused for its size exactly when the debt with it is over the real limit. */
  lemma LoanDecided(s: Ledger, signer: Key, id: PositionId, loan: u64, env: Env)
    requires Shown(s, id, env) && loan > 0
    ensures var fits := OwedNow(s, id, env) + loan <= RealLimit(s, id, s.positions[id].collateral, env);
            && (fits ==> Borrow(s, signer, id, loan, env) != Err(ExceedsMaxLtv))
            && (!fits ==> Borrow(s, signer, id, loan, env).Err?)
  {
    hide FloorValue, C.Limit, CollateralValue, LtvBps, HasValue;
    var m, p, quote := s.markets[id.market], Owing(s.positions[id], s.config, env.now), QuoteNow(s, id, env);
    ValueAnswers(p.collateral, env.multiplier, quote.price, quote.haircut, m.decimals);
    var value := ValueOf(p.collateral, m, quote, env.multiplier);
    C.WithinIsLimit(p.debt + loan, ValueNow(s, id, p.collateral, env), m.params.maxLtv);
    if value.Ok? && p.debt + loan <= U64_MAX {
      LtvWithin(p.debt + loan, value.value, m.params.maxLtv);
    }
  }

  /** What credit previewed on some debt, with `pending` left out of it, promises of a loan: one
      within it is never refused for its size if the shown limit is no higher than the real one,
      and one above it is refused if the real limit is no higher, or at most a unit. */
  ghost predicate Binds(s: Ledger, id: PositionId, env: Env, credit: nat, pending: int, r: Result<Ledger>, loan: u64)
    requires Shown(s, id, env)
  {
    var shown, actual := ShownLimit(s, id, env), RealLimit(s, id, s.positions[id].collateral, env);
    && (shown <= actual && loan + pending <= credit ==> r != Err(ExceedsMaxLtv))
    && (actual <= shown && loan + pending > credit ==> r.Err?)
    && (actual <= shown + 1 && loan + pending > credit + 1 ==> r.Err?)
  }

  /** Credit previewed on the debt with the interest pending. */
  lemma CreditBindsBorrow(s: Ledger, signer: Key, id: PositionId, loan: u64, env: Env)
    requires Shown(s, id, env) && loan > 0
    ensures Binds(s, id, env, CreditOn(s, id, OwedNow(s, id, env), env), 0, Borrow(s, signer, id, loan, env), loan)
  {
    hide Borrow, Shown, ValueNow, ShownValue, C.Limit, DebtAt;
    LoanDecided(s, signer, id, loan, env);
  }

  /** The borrow page previews credit on the debt last recorded. What that promises of a loan is
      promised of the loan and the interest pending together. */
  lemma StoredCreditBindsBorrow(s: Ledger, signer: Key, id: PositionId, loan: u64, env: Env)
    requires Shown(s, id, env) && loan > 0
    ensures var pending := OwedNow(s, id, env) - s.positions[id].debt;
            pending >= 0 && Binds(s, id, env, CreditOn(s, id, s.positions[id].debt, env), pending, Borrow(s, signer, id, loan, env), loan)
  {
    LoanDecided(s, signer, id, loan, env);
    assert OwedNow(s, id, env) >= s.positions[id].debt;
    hide Borrow, Shown, ValueNow, ShownValue, C.Limit, DebtAt;
  }

  /** Every loan within the previewed credit is within the program's limit exactly when the shown
      limit is no higher than the real one, or there is no credit. Otherwise the full credit is
      refused. */
  lemma CreditHolds(s: Ledger, signer: Key, id: PositionId, env: Env)
    requires Shown(s, id, env)
    ensures var owed, credit := OwedNow(s, id, env), CreditOn(s, id, OwedNow(s, id, env), env);
            var shown, actual := ShownLimit(s, id, env), RealLimit(s, id, s.positions[id].collateral, env);
            && ((forall loan: nat | 0 < loan <= credit :: InLimit(owed, loan, actual)) <==> shown <= actual || credit == 0)
            && (shown > actual && 0 < credit <= U64_MAX ==> Borrow(s, signer, id, credit, env).Err?)
  {
    hide Borrow, Legal, ChargeFits, CheckedPrice, ValueNow, ShownValue, C.Limit, DebtAt;
    var owed, credit := OwedNow(s, id, env), CreditOn(s, id, OwedNow(s, id, env), env);
    var shown, actual := ShownLimit(s, id, env), RealLimit(s, id, s.positions[id].collateral, env);
    if shown > actual && credit > 0 {
      assert !InLimit(owed, credit, actual);
      if credit <= U64_MAX {
        LoanDecided(s, signer, id, credit, env);
      }
    }
  }

  predicate InLimit(owed: nat, loan: nat, limit: nat) {
    owed + loan <= limit
  }

  // ----- coming back to the limit ----------------------------------------------------------

  /** The fix for a position, previewed on its debt with the interest pending. */
  ghost function FixNow(s: Ledger, id: PositionId, env: Env): C.Fix
    requires Shown(s, id, env)
  {
    var m := s.markets[id.market];
    C.FixAmounts(OwedNow(s, id, env), s.positions[id].collateral, env.multiplier, QuoteNow(s, id, env).price,
                 m.params.haircut, m.params.maxLtv, m.decimals)
  }

  /** A debt within the threshold of the program's value cannot be liquidated. */
  lemma WithinThreshold(s: Ledger, id: PositionId, repay: u64, env: Env)
    requires Readable(s, id, env) && id in s.positions
    requires var m, p, quote := s.markets[id.market], s.positions[id], QuoteNow(s, id, env);
             WithinLimit(DebtAt(p, env.now), FloorValue(p.collateral, env.multiplier, quote.price, quote.haircut, m.decimals), m.params.liqThreshold)
    ensures Liquidate(s, id, repay, env).Err?
  {
    hide FloorValue, HasValue, CollateralValue, LtvBps;
    var m, p, quote := s.markets[id.market], s.positions[id], QuoteNow(s, id, env);
    ValueAnswers(p.collateral, env.multiplier, quote.price, quote.haircut, m.decimals);
    var value := ValueOf(p.collateral, m, quote, env.multiplier);
    if value.Ok? && DebtAt(p, env.now) <= U64_MAX {
      LtvWithin(DebtAt(p, env.now), value.value, m.params.liqThreshold);
    }
  }

  /** The threshold on the value of the moment allows all that the limit on the ordinary one does. */
  ghost predicate Buffered(s: Ledger, id: PositionId, collateral: nat, env: Env)
    requires Shown(s, id, env)
  {
    var params := s.markets[id.market].params;
    params.maxLtv * OpenValue(s, id, collateral, env) <= params.liqThreshold * ValueNow(s, id, collateral, env)
  }

  lemma ShallowIsBuffered(s: Ledger, id: PositionId, collateral: nat, env: Env)
    requires Shown(s, id, env) && QuoteNow(s, id, env).haircut <= s.markets[id.market].params.haircut
    ensures OpenValue(s, id, collateral, env) <= ValueNow(s, id, collateral, env) && Buffered(s, id, collateral, env)
  {
    var m, quote := s.markets[id.market], QuoteNow(s, id, env);
    ShownTerms(s, id, env);
    hide FloorValue, Shown;
    HaircutLowers(collateral, env.multiplier, quote.price, quote.haircut, m.params.haircut, m.decimals);
    var open, value := OpenValue(s, id, collateral, env), ValueNow(s, id, collateral, env);
    MulLe(open, value, m.params.maxLtv);
    MulLe(m.params.maxLtv, m.params.liqThreshold, value);
  }

  lemma WithinBuffer(debt: nat, limit: nat, open: nat, threshold: nat, value: nat)
    requires WithinLimit(debt, open, limit) && limit * open <= threshold * value
    ensures WithinLimit(debt, value, threshold)
  {
  }

  /** After an instruction on it the position has no interest pending and the same price. */
  lemma AfterTouch(s: Ledger, t: Ledger, id: PositionId, env: Env)
    requires Readable(s, id, env) && SameTerms(s, t, id) && id in t.positions && t.positions[id].lastAccrual == env.now
    ensures Readable(t, id, env) && QuoteNow(t, id, env) == QuoteNow(s, id, env)
    ensures DebtAt(t.positions[id], env.now) == t.positions[id].debt
  {
  }

  /** Repaying the previewed amount leaves at most the shown limit. So the position is within the
      program's limit if the shown limit is no higher than the real one, and is not if the real
      one is lower by a cent and debt is left. It cannot be liquidated at that moment while the
      threshold on the value of the moment allows what the limit on the ordinary one does. */
  lemma RepayingTheFixRestores(s: Ledger, id: PositionId, withPrice: bool, env: Env)
    requires Shown(s, id, env) && FixNow(s, id, env).repayUsd6 <= U64_MAX
    requires Repay(s, id, FixNow(s, id, env).repayUsd6, withPrice, env).Ok?
    ensures var fix, collateral := FixNow(s, id, env).repayUsd6, s.positions[id].collateral;
            var shown, actual := ShownLimit(s, id, env), RealLimit(s, id, collateral, env);
            var t := Repay(s, id, fix, withPrice, env).value;
            var q := t.positions[id];
            var within := WithinLimit(q.debt, ValueNow(s, id, collateral, env), s.markets[id.market].params.maxLtv);
            && q.debt <= shown
            && (within <==> q.debt <= actual)
            && (shown <= actual ==> within)
            && (q.debt > 0 && actual + C.CENT <= shown ==> !within)
            && (Buffered(s, id, collateral, env) ==> forall repay: u64 :: Liquidate(t, id, repay, env).Err?)
  {
    var m, p, quote := s.markets[id.market], s.positions[id], QuoteNow(s, id, env);
    var fix := FixNow(s, id, env).repayUsd6;
    ShownTerms(s, id, env);
    RepayOutcome(s, id, fix, withPrice, env);
    C.RepaySuffices(OwedNow(s, id, env), p.collateral, env.multiplier, quote.price, m.params.haircut, m.params.maxLtv, m.decimals);
    hide FloorValue, C.Limit, C.FixAmounts, C.CollateralValue, WithinLimit, DebtAt, Repay, Liquidate, CheckedPrice, Legal, ChargeFits;
    var t := Repay(s, id, fix, withPrice, env).value;
    var q := t.positions[id];
    C.WithinIsLimit(q.debt, ValueNow(s, id, p.collateral, env), m.params.maxLtv);
    if Buffered(s, id, p.collateral, env) {
      WithinBuffer(q.debt, m.params.maxLtv, OpenValue(s, id, p.collateral, env), m.params.liqThreshold, ValueNow(s, id, p.collateral, env));
      forall repay: u64
        ensures Liquidate(t, id, repay, env).Err?
      {
        AfterTouch(s, t, id, env);
        WithinThreshold(t, id, repay, env);
      }
    }
  }

  /** After depositing the previewed tokens the debt is within the limit of the value at the
      ordinary haircut. So it is within the program's limit if the haircut of the moment is no
      deeper, and in any case exactly when it is at most the real limit of what is then there. It
      cannot be liquidated at that moment while the threshold on that value allows what the limit
      on the ordinary one does. Naming the price rules out a collateral without a value. */
  lemma DepositingTheFixRestores(s: Ledger, id: PositionId, withPrice: bool, env: Env)
    requires Shown(s, id, env) && FixNow(s, id, env).addTokens <= U64_MAX
    requires Deposit(s, id, FixNow(s, id, env).addTokens, withPrice, env).Ok?
    ensures var m, quote := s.markets[id.market], QuoteNow(s, id, env);
            var t := Deposit(s, id, FixNow(s, id, env).addTokens, withPrice, env).value;
            var q := t.positions[id];
            var within := WithinLimit(q.debt, ValueNow(s, id, q.collateral, env), m.params.maxLtv);
            && q.debt == OwedNow(s, id, env) && q.collateral == s.positions[id].collateral + FixNow(s, id, env).addTokens
            && WithinLimit(q.debt, OpenValue(s, id, q.collateral, env), m.params.maxLtv)
            && (within <==> q.debt <= RealLimit(s, id, q.collateral, env))
            && (quote.haircut <= m.params.haircut ==> within)
            && (Buffered(s, id, q.collateral, env) ==> forall repay: u64 :: Liquidate(t, id, repay, env).Err?)
            && (withPrice && q.debt > 0 ==> HasValue(q.collateral, env.multiplier, quote.price, quote.haircut, m.decimals))
  {
    var m, p, quote := s.markets[id.market], s.positions[id], QuoteNow(s, id, env);
    var add := FixNow(s, id, env).addTokens;
    ShownTerms(s, id, env);
    DepositOutcome(s, id, add, withPrice, env);
    var t := Deposit(s, id, add, withPrice, env).value;
    var q := t.positions[id];
    C.AddingSuffices(OwedNow(s, id, env), p.collateral, env.multiplier, quote.price, m.params.haircut, m.params.maxLtv, m.decimals);
    ValueAnswers(q.collateral, env.multiplier, quote.price, quote.haircut, m.decimals);
    hide FloorValue, HasValue, C.Limit, C.FixAmounts, C.CollateralValue, WithinLimit, DebtAt, Deposit, Liquidate, CheckedPrice, Legal, ChargeFits;
    C.WithinIsLimit(q.debt, ValueNow(s, id, q.collateral, env), m.params.maxLtv);
    if quote.haircut <= m.params.haircut {
      ShallowIsBuffered(s, id, q.collateral, env);
      MoreValueStaysWithin(q.debt, OpenValue(s, id, q.collateral, env), ValueNow(s, id, q.collateral, env), m.params.maxLtv);
    }
    if Buffered(s, id, q.collateral, env) {
      WithinBuffer(q.debt, m.params.maxLtv, OpenValue(s, id, q.collateral, env), m.params.liqThreshold, ValueNow(s, id, q.collateral, env));
      forall repay: u64
        ensures Liquidate(t, id, repay, env).Err?
      {
        AfterTouch(s, t, id, env);
        WithinThreshold(t, id, repay, env);
      }
    }
  }

  lemma MoreValueStaysWithin(debt: nat, less: nat, more: nat, limit: nat)
    requires WithinLimit(debt, less, limit) && less <= more
    ensures WithinLimit(debt, more, limit)
  {
    MulLe(less, more, limit);
  }

  // ----- liquidation -------------------------------------------------------------------------

  /** The liquidation price previewed on a given debt at a given haircut. */
  ghost function LiquidationPriceOn(s: Ledger, id: PositionId, debt: nat, haircut: nat, env: Env): nat
    requires Shown(s, id, env) && haircut < BPS
  {
    var m := s.markets[id.market];
    C.LiquidationPrice(debt, s.positions[id].collateral, env.multiplier, haircut, m.params.liqThreshold, m.decimals)
  }

  /** A position over the threshold of the program's value is never refused liquidation as uncalled
      for, one that is not over it always is. */
  lemma OverIsLiquidatable(s: Ledger, id: PositionId, repay: u64, env: Env)
    requires Shown(s, id, env)
    requires var m, p, quote := s.markets[id.market], s.positions[id], QuoteNow(s, id, env);
             HasValue(p.collateral, env.multiplier, quote.price, quote.haircut, m.decimals)
    ensures var over := !WithinLimit(OwedNow(s, id, env), ValueNow(s, id, s.positions[id].collateral, env), s.markets[id.market].params.liqThreshold);
            && (over ==> Liquidate(s, id, repay, env) != Err(NotLiquidatable))
            && (!over ==> Liquidate(s, id, repay, env) == Err(if repay == 0 then ZeroAmount else NotLiquidatable))
  {
    hide FloorValue, HasValue, CollateralValue, LtvBps;
    var m, p, quote := s.markets[id.market], Owing(s.positions[id], s.config, env.now), QuoteNow(s, id, env);
    ValueAnswers(p.collateral, env.multiplier, quote.price, quote.haircut, m.decimals);
    LtvWithin(p.debt, ValueOf(p.collateral, m, quote, env.multiplier).value, m.params.liqThreshold);
  }

  /** Below the liquidation price previewed on any debt up to the one owed, at any haircut up to
      the program's, a liquidation is never refused as uncalled for, and goes through exactly when
      the rest of what it takes is there. */
  lemma BelowThePriceLiquidates(s: Ledger, id: PositionId, debt: nat, haircut: nat, repay: u64, env: Env)
    requires Sound(s) && Shown(s, id, env) && debt <= OwedNow(s, id, env)
    requires haircut < BPS && haircut <= QuoteNow(s, id, env).haircut
    requires QuoteNow(s, id, env).price < LiquidationPriceOn(s, id, debt, haircut, env)
    requires var m, p, quote := s.markets[id.market], s.positions[id], QuoteNow(s, id, env);
             HasValue(p.collateral, env.multiplier, quote.price, quote.haircut, m.decimals)
    ensures Liquidate(s, id, repay, env) != Err(NotLiquidatable)
    ensures Liquidate(s, id, repay, env).Ok? <==> Clear(s, id, repay, env)
  {
    var m, p, quote := s.markets[id.market], s.positions[id], QuoteNow(s, id, env);
    OverIsLiquidatable(s, id, repay, env);
    LiquidateExactly(s, id, repay, env);
    hide Sound, Legal, CheckedPrice, ChargeFits, HasValue, FloorValue, WithinLimit, Clear, Liquidate, C.LiquidationPrice, DebtAt;
    C.BelowLiquidationPrice(debt, p.collateral, env.multiplier, haircut, m.params.liqThreshold, m.decimals, quote.price);
    HaircutLowers(p.collateral, env.multiplier, quote.price, haircut, quote.haircut, m.decimals);
    StaysOver(debt, OwedNow(s, id, env), ValueNow(s, id, p.collateral, env),
              FloorValue(p.collateral, env.multiplier, quote.price, haircut, m.decimals), m.params.liqThreshold);
  }

  lemma StaysOver(less: nat, more: nat, low: nat, high: nat, threshold: nat)
    requires less <= more && low <= high && !WithinLimit(less, high, threshold)
    ensures !WithinLimit(more, low, threshold)
  {
    MulLe(low, high, threshold);
  }

  lemma NotOverNotLiquidated(s: Ledger, id: PositionId, repay: u64, env: Env)
    requires Shown(s, id, env)
    ensures OwedNow(s, id, env) * BPS <= s.markets[id.market].params.liqThreshold * ValueNow(s, id, s.positions[id].collateral, env) ==>
              Liquidate(s, id, repay, env).Err?
  {
    hide FloorValue, Liquidate, DebtAt;
    if WithinLimit(OwedNow(s, id, env), ValueNow(s, id, s.positions[id].collateral, env), s.markets[id.market].params.liqThreshold) {
      WithinThreshold(s, id, repay, env);
    }
  }

  /** Above the liquidation price previewed on at least the debt owed, at a haircut no shallower than
      the program's, a position with collateral is not over the threshold by so much as a unit of
      value: a liquidation can go through only within that unit of rounding. */
  lemma AboveThePriceHolds(s: Ledger, id: PositionId, debt: nat, haircut: nat, repay: u64, env: Env)
    requires Shown(s, id, env) && debt >= OwedNow(s, id, env) && s.positions[id].collateral > 0
    requires QuoteNow(s, id, env).haircut <= haircut < BPS
    requires QuoteNow(s, id, env).price > LiquidationPriceOn(s, id, debt, haircut, env)
    ensures var threshold, value := s.markets[id.market].params.liqThreshold, ValueNow(s, id, s.positions[id].collateral, env);
            && OwedNow(s, id, env) * BPS < threshold * (value + 1)
            && (OwedNow(s, id, env) * BPS <= threshold * value ==> Liquidate(s, id, repay, env).Err?)
  {
    var m, p, quote := s.markets[id.market], s.positions[id], QuoteNow(s, id, env);
    ShownTerms(s, id, env);
    NotOverNotLiquidated(s, id, repay, env);
    hide Legal, CheckedPrice, ChargeFits, FloorValue, Liquidate, C.LiquidationPrice, DebtAt;
    var low := FloorValue(p.collateral, env.multiplier, quote.price, haircut, m.decimals);
    C.AboveLiquidationPrice(debt, p.collateral, env.multiplier, haircut, m.params.liqThreshold, m.decimals, quote.price);
    HaircutLowers(p.collateral, env.multiplier, quote.price, quote.haircut, haircut, m.decimals);
    StaysUnder(OwedNow(s, id, env), debt, m.params.liqThreshold, low, ValueNow(s, id, p.collateral, env));
  }

  lemma StaysUnder(less: nat, more: nat, threshold: nat, low: nat, high: nat)
    requires less <= more && low <= high && more * BPS < threshold * (low + 1)
    ensures less * BPS < threshold * (high + 1)
  {
    MulLe(low + 1, high + 1, threshold);
  }

  /** At every price at which the collateral's value reaches the safe one, it is refused as
      uncalled for. */
  lemma SafeValueIsSafe(s: Ledger, id: PositionId, repay: u64, env: Env)
    requires Shown(s, id, env)
    requires var m, p, quote := s.markets[id.market], s.positions[id], QuoteNow(s, id, env);
             HasValue(p.collateral, env.multiplier, quote.price, quote.haircut, m.decimals)
    requires ValueNow(s, id, s.positions[id].collateral, env) >= C.SafeValue(OwedNow(s, id, env), s.markets[id.market].params.liqThreshold)
    ensures Liquidate(s, id, repay, env) == Err(if repay == 0 then ZeroAmount else NotLiquidatable)
  {
    OverIsLiquidatable(s, id, repay, env);
    CeilLe(OwedNow(s, id, env) * BPS, s.markets[id.market].params.liqThreshold, ValueNow(s, id, s.positions[id].collateral, env));
  }
}
