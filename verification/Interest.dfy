/** Interest over time: what splitting an interval into several accruals costs. */
module Interest {
  import opened Outcomes
  import opened Rounding
  import opened RiskMath
  import opened Ledger

  /** The debt after charging each span in turn on what is then owed. */
  function Compound(debt: nat, apr: nat, spans: seq<nat>): nat
    decreases spans
  {
    if spans == [] then debt else Compound(debt + Charge(debt, apr, spans[0]), apr, spans[1..])
  }

  function Total(spans: seq<nat>): nat {
    if spans == [] then 0 else spans[0] + Total(spans[1..])
  }

  /** A year at a rate in basis points costs that fraction of the debt, rounded up. */
  lemma YearlyCharge(debt: nat, apr: nat)
    ensures debt * apr >= 0 && Charge(debt, apr, SECONDS_PER_YEAR) == CeilDiv(debt * apr, BPS)
  {
    MulLe(0, debt, apr);
    CeilScales(debt * apr, BPS, SECONDS_PER_YEAR);
  }

  /** Scaling both sides keeps a quotient, rounded up. */
  lemma CeilScales(n: nat, d: nat, k: nat)
    requires d > 0 && k > 0
    ensures n * k >= 0 && d * k > 0 && CeilDiv(n * k, d * k) == CeilDiv(n, d)
  {
    MulLe(0, n, k);
    MulPos(d, k);
    var q, r := CeilDiv(n, d), CeilDiv(n * k, d * k);
    assert q * (d * k) == q * d * k && r * (d * k) == r * d * k;
    MulLe(n, q * d, k);
    CeilLe(n * k, d * k, q);
    MulCancel(n, r * d, k);
    CeilLe(n, d, r);
  }

  lemma ChargeMono(debt: nat, debt': nat, apr: nat, seconds: nat)
    requires debt <= debt'
    ensures Charge(debt, apr, seconds) <= Charge(debt', apr, seconds)
  {
    MulLe(debt, debt', apr);
    MulLe(debt * apr, debt' * apr, seconds);
    CeilMono(debt * apr * seconds, debt' * apr * seconds, YEAR);
  }

  /** Splitting one interval in two costs at most one extra unit of rounding on the same debt. */
  lemma ChargeSplit(debt: nat, apr: nat, first: nat, second: nat)
    ensures Charge(debt, apr, first + second) <= Charge(debt, apr, first) + Charge(debt, apr, second)
            <= Charge(debt, apr, first + second) + 1
  {
    assert debt * apr * (first + second) == debt * apr * first + debt * apr * second;
    CeilSplit(debt * apr * first, debt * apr * second, YEAR);
  }

  /** At a fixed rate, no way of splitting an interval leaves less debt than charging it once. */
  lemma {:induction false} SplittingNeverHelps(debt: nat, apr: nat, spans: seq<nat>)
    ensures Compound(debt, apr, spans) >= debt + Charge(debt, apr, Total(spans))
    decreases spans
  {
    if spans != [] {
      var rest := Total(spans[1..]);
      var owed := debt + Charge(debt, apr, spans[0]);
      SplittingNeverHelps(owed, apr, spans[1..]);
      ChargeMono(debt, owed, apr, rest);
      ChargeSplit(debt, apr, spans[0], rest);
    }
  }

  /** Two charges exceed one by at most a unit of rounding and the interest on the first charge. */
  lemma SplittingInTwoCosts(debt: nat, apr: nat, first: nat, second: nat)
    ensures Compound(debt, apr, [first, second])
            <= debt + Charge(debt, apr, first + second) + 1 + Charge(Charge(debt, apr, first), apr, second)
  {
    var i := Charge(debt, apr, first);
    CompoundTwo(debt, apr, first, second);
    ChargeSum(debt, i, apr, second);
    ChargeSplit(debt, apr, first, second);
  }

  lemma CompoundTwo(debt: nat, apr: nat, first: nat, second: nat)
    ensures var owed := debt + Charge(debt, apr, first);
            Compound(debt, apr, [first, second]) == owed + Charge(owed, apr, second)
  {
    var owed := debt + Charge(debt, apr, first);
    assert [first, second][1..] == [second] && [second][1..] == [];
    assert Compound(owed + Charge(owed, apr, second), apr, []) == owed + Charge(owed, apr, second);
  }

  lemma ChargeSum(debt: nat, more: nat, apr: nat, seconds: nat)
    ensures Charge(debt + more, apr, seconds) <= Charge(debt, apr, seconds) + Charge(more, apr, seconds)
  {
    assert (debt + more) * apr * seconds == debt * apr * seconds + more * apr * seconds;
    CeilSplit(debt * apr * seconds, more * apr * seconds, YEAR);
  }

  // ----- the program's accruals -----------------------------------------------------

  /** Accruing at each of the given times in turn. */
  function AccrueAt(p: Position, c: Config, times: seq<int>): Result<Accrued>
    decreases times
  {
    if times == [] then Ok(Accrued(p, c, 0)) else
    var a :- Accrue(p, c, times[0]);
    AccrueAt(a.position, a.config, times[1..])
  }

  function Spans(start: int, times: seq<int>): (spans: seq<nat>)
    requires Ordered(start, times)
    decreases times
  {
    if times == [] then [] else [times[0] - start] + Spans(times[0], times[1..])
  }

  predicate Ordered(start: int, times: seq<int>)
    decreases times
  {
    times == [] || (start <= times[0] && Ordered(times[0], times[1..]))
  }

  lemma AccrueCharges(p: Position, c: Config, now: int)
    requires p.lastAccrual <= now && Accrue(p, c, now).Ok?
    ensures var q := Accrue(p, c, now).value.position;
            q == p.(debt := q.debt, lastAccrual := now) && q.debt == p.debt + Charge(p.debt, p.apr, now - p.lastAccrual)
  {
  }

  lemma {:induction false} AccrueAtCompounds(p: Position, c: Config, times: seq<int>)
    requires Ordered(p.lastAccrual, times) && AccrueAt(p, c, times).Ok?
    ensures AccrueAt(p, c, times).value.position.debt == Compound(p.debt, p.apr, Spans(p.lastAccrual, times))
    ensures times != [] ==> Total(Spans(p.lastAccrual, times)) == times[|times| - 1] - p.lastAccrual
    decreases times
  {
    if times != [] {
      AccrueCharges(p, c, times[0]);
      var a := Accrue(p, c, times[0]).value;
      AccrueAtCompounds(a.position, a.config, times[1..]);
      assert Spans(p.lastAccrual, times)[1..] == Spans(times[0], times[1..]);
    }
  }

  /** However often a position is touched between two moments without a rate change, it owes at
      least what one accrual at the end would have charged. */
  lemma TouchingNeverHelps(p: Position, c: Config, times: seq<int>)
    requires times != [] && Ordered(p.lastAccrual, times)
    requires AccrueAt(p, c, times).Ok? && Accrue(p, c, times[|times| - 1]).Ok?
    ensures AccrueAt(p, c, times).value.position.debt >= Accrue(p, c, times[|times| - 1]).value.position.debt
  {
    AccrueAtCompounds(p, c, times);
    SplittingNeverHelps(p.debt, p.apr, Spans(p.lastAccrual, times));
    LastAfterStart(p.lastAccrual, times);
    AccrueCharges(p, c, times[|times| - 1]);
  }

  lemma {:induction false} LastAfterStart(start: int, times: seq<int>)
    requires times != [] && Ordered(start, times)
    ensures start <= times[|times| - 1]
    decreases times
  {
    if |times| > 1 {
      LastAfterStart(times[0], times[1..]);
    }
  }
}
