# StockCard lending: a verified model

StockCard lends USDC against tokenized stocks and collectibles. This project models, in Dafny, four parts of it and proves what borrowers, savers, liquidators and the app's users can rely on.

| files | what they model |
|---|---|
| `Outcomes`, `Rounding`, `RiskMath`, `Bands` | the program's integer arithmetic: every rounding direction, every overflow exit, rate bands and their validation |
| `Ledger` | the accounts as values, and each instruction as a function from a ledger to the next ledger or an error |
| `Promises`, `Program` | the same instructions as methods of a class that updates its accounts in place, proved equal to `Ledger`, with what each promises in its contract |
| `Sums`, `Invariants`, `Savings`, `Positions`, `Rates`, `Interest` | what holds in every reachable state, for savers, for borrowers and liquidators, for the rate of a debt, and over time |
| `Admission` | exactly when each instruction on a position goes through, as conditions on its inputs and the state it finds |
| `Refusals`, `Administration` | what each refusal says of its cause; what the administrator, the price signer and the cashback authority can do, and what a pause stops |
| `Cases` | reachable states in which the program falls short of its comments |
| `ClientRisk`, `Previews` | the app's previews of the arithmetic, and what they promise about the program's decisions |
| `Iban` | IBAN normal form, display form, checksum and validation |
| `Signer` | the price signer's decision for one symbol |

## How the program is modelled

- An instruction runs on copies of the accounts it loads; the runtime writes them back only when the handler succeeds. `Program.StockCard` therefore computes on local copies and assigns its fields at the end, and a refused instruction provably leaves every field as it was. Each method's contract equates the result and the whole new state with the function of the same name in `Ledger`, about which the theorems are proved, over single steps and over whole runs (`Ledger.Run`), and states what those theorems promise of the method (`Promises`).
- Token transfers are moves between a vault balance and an account outside the program. They fail on missing funds, on a balance too wide for a word, and on a collateral mint or vault that does not move. Anyone may also send tokens straight to a vault (`Donate`, `DonateCollateral`), so every invariant allows for it.
- What an instruction reads from outside is an argument, `Env`: the clock, the mint's display multiplier in millionths, whether the mint, the collateral vault and the other party's collateral account let tokens move, the payer's balance, and whether the account named to receive a loan is the program's own vault (`borrow.rs:31-34` constrains only its mint; whether the runtime refuses the same account twice is not modelled, and every theorem holds either way). All of it may change arbitrarily from step to step. The clock need not be monotone for any theorem about runs.
- Words are `u16` and `u64` subset types and 128-bit intermediates are bounded explicitly. The build has overflow checks on, so an overflow aborts without a trace; it is reported as `MathOverflow`, as the program's own checks are. The abort of an unchecked subtraction is a separate error, `Underflow`, so that its absence is a theorem.
- A position's address is derived from its market and its owner, so a deposit is into the signer's own position by construction; `borrow` and `withdraw` take a signer and refuse any but the owner.
- `Flows` is a record of everything ever charged and of all the cash that ever moved. No instruction reads it.
- Arrays of exactly three rate bands are sequences of any length: the theorems hold for all lengths.

## Where the code and its comments differ

Each difference is stated exactly, and where the code breaks a promise there is a concrete case.

- `app/src/lib/risk.ts:45` says the collateral value matches the program's. It rounds down twice where the program rounds down once, and is one unit lower exactly when the dropped dust adds up to a unit (`CollateralValueWithinOne`, `CollateralValueDiffers`).
- The app previews credit, fixes and liquidation prices at the market's ordinary haircut (`app/src/lib/portfolio.ts:75-76`, `app/src/app/api/alerts/check/route.ts:98-123`), and says the numbers preview what the program will enforce (`app/src/lib/risk.ts:1-3`). Once the price is older than the market's ordinary age the program uses the closed-market haircut. Every loan within the shown credit is within the program's limit exactly when the shown limit is no higher than the real one, as it is whenever the haircut in force is no deeper than the ordinary one (`CreditHolds`, `ShownAgainstReal`). With the terms the devnet seed gives the stock markets it is not: in reachable states a loan within the shown credit is refused (`ClosedCreditRefused`) and paying the shown fix leaves the position over its limit (`ClosedFixFallsShort`).
- `programs/stockcard/src/instructions/mod.rs:55-56` says deposits and repayments never fail on price. One that names a readable price fails exactly when debt is left whose collateral has no value or whose loan-to-value is too wide, as conditions on the inputs (`PriceStopsRepay`, `PriceStopsDeposit`). It happens in a state reached from `init_config`, because the closed-market haircut is not validated (`ClosedPriceStops`). A repayment that names no price needs only debt, the money for it and amounts that fit their words, paused or not (`RepayExactly`).
- `app/src/lib/prices/signer.ts:96-100` says a source is dropped when it disagrees with both others. It is dropped whenever some pair agrees and some pair does not. It is then always the lowest or the highest, and disagrees with both exactly when its spread to the middle price is over the limit (`DroppedIsExtreme`, `DropsOneThatAgrees`).
- `app/src/lib/prices/signer.ts:131` says Pyth never prices collateral on its own. It does, exactly when the gates pass and nothing else is usable (`PythAlone`, `PythPostsAlone`). The answer "no usable price source" is unreachable (`AlwaysACandidate`).
- A loan-to-value too wide for a word is an error and not the sentinel (`programs/stockcard/src/math.rs:96-102`), so a position whose value is almost nothing, but not nothing, cannot be liquidated (`TooWideToLiquidate`, and `NoneCanLiquidate` in a reachable state). `LiquidateExactly` says when a liquidation does go through; a partial one can also fail for what it would leave (`OneCannotThreeCan`).
- Swapping a digit with the letter of eleven times its value (1 and B, 2 and M, 3 and X) keeps an IBAN valid (`SwapUndetected`); `SwapDetected` shows these are the only undetected swaps of neighbours anywhere.

## Model

| member | source | states |
|---|---|---|
| Program.StockCard.constructor | programs/stockcard/src/state.rs:38-122 | A new program holds its config, empty vaults and no accounts. |
| Program.StockCard.InitConfig | programs/stockcard/src/instructions/init_config.rs:33-59 | Creates the first state, in which the invariant holds, or refuses a share, cap or factor above the whole. |
| Program.StockCard.Deposit | programs/stockcard/src/instructions/deposit.rs:40-96 | The new state is that of `Ledger.Deposit`; it keeps the invariant, the share price and every saver's claim; in a reachable state it goes through exactly when `MayDeposit`; no other position is touched. |
| Program.StockCard.DepositFor | programs/stockcard/src/instructions/deposit_for.rs:41-97 | The same ledger move on someone else's position, for the cashback authority only, with the invariant, share price and claims kept. |
| Program.StockCard.Borrow | programs/stockcard/src/instructions/borrow.rs:10-127 | The new state is that of `Ledger.Borrow`, owner's signature and a loan paid to the program's own vault included; it keeps the invariant, the share price and every claim; goes through exactly when `MayBorrow`; leaves the position within its limit, all loans within the cap and the reserve in cash. |
| Program.StockCard.Repay | programs/stockcard/src/instructions/repay.rs:37-81 | The new state is that of `Ledger.Repay`; it keeps the invariant, the share price and every claim; goes through exactly when `MayRepay`. |
| Program.StockCard.Withdraw | programs/stockcard/src/instructions/withdraw.rs:10-109 | The new state is that of `Ledger.Withdraw`, owner's signature included; it keeps the invariant, the share price and every claim; goes through exactly when `MayWithdraw`; with debt left, stays within the limit. |
| Program.StockCard.Liquidate | programs/stockcard/src/instructions/liquidate.rs:49-144 | The new state is that of `Ledger.Liquidate`; it keeps the invariant, the share price and every claim; goes through exactly when `MayLiquidate`; a covered position stays covered and becomes no riskier. |
| Program.StockCard.DepositSavings | programs/stockcard/src/instructions/savings.rs:35-70 | The new state is that of `Ledger.DepositSavings`; it keeps the invariant; no share loses value and no other saver can redeem less; it goes through exactly when `MaySave`, for new and old savers, and mints the most the price allows. |
| Program.StockCard.WithdrawSavings | programs/stockcard/src/instructions/savings.rs:98-135 | The new state is that of `Ledger.WithdrawSavings`; it keeps the invariant; no share loses value and no other saver can redeem less; it goes through exactly when `MayRedeem` and pays exactly the floor, at least a unit a share. |
| Program.StockCard.ClaimReserve | programs/stockcard/src/instructions/savings.rs:156-179 | The new state is that of `Ledger.ClaimReserve`; it keeps the invariant, the share price and every claim; it goes through exactly for the administrator, within reserve and cash, and vault and reserve fall by the amount. |
| Program.StockCard.AddMarket | programs/stockcard/src/instructions/add_market.rs:39-104 | A market is added exactly when the administrator asks with accepted parameters and a mint that moves. |
| Program.StockCard.UpdateMarket | programs/stockcard/src/instructions/admin.rs:16-44 | Parameters are replaced exactly when accepted; totals and vault are untouched. |
| Program.StockCard.SetPause | programs/stockcard/src/instructions/admin.rs:54-57 | Only the administrator sets the pause flag, and nothing else changes. |
| Program.StockCard.SetSignedPrice | programs/stockcard/src/instructions/set_signed_price.rs:24-41 | Only the price signer posts a positive price with an exponent in -12..0, stamped with the clock. |
| Program.PricedAlready | programs/stockcard/src/instructions/withdraw.rs:91-101 | After the withdrawal guard passes, the rate selection that follows cannot fail. |
| Promises.StepIsSafe | programs/stockcard/src/instructions/mod.rs:30-53 | Every instruction, accepted or refused, keeps the invariant, never aborts in an unchecked subtraction, never lowers the share price and never reduces what a saver who does not act can redeem. |
| Admission.DepositExactly | programs/stockcard/src/instructions/deposit.rs:40-96 | In a reachable state a deposit goes through if and only if its market exists, the amount is positive, held by the depositor and fits the vault, the interest fits its words, the collateral moves, and a named price does not stop the rate. |
| Admission.RepayExactly | programs/stockcard/src/instructions/repay.rs:37-81 | A repayment goes through, paused or not, if and only if there is debt, the payer has the money, the words fit, and a named price does not stop the rate. |
| Admission.WithdrawExactly | programs/stockcard/src/instructions/withdraw.rs:10-109 | In a reachable state a withdrawal goes through if and only if the program is not paused, the owner signs, the amount is there, the collateral moves, and with debt left a named price keeps the rest within the limit, compared without rounding. |
| Admission.FreeToLeave | programs/stockcard/src/instructions/withdraw.rs:38-109 | Without debt, only a pause, or a mint, a vault or an account of the owner that lets nothing move, keeps an owner from any part of the collateral. |
| Admission.BorrowExactly | programs/stockcard/src/instructions/borrow.rs:10-127 | In a reachable state a loan is granted if and only if the program is not paused, the owner signs, the collateral moves, the price is readable, debt times 10000 is within the limit times the value, and all loans times 10000 within the cap times the pool. |
| Admission.LiquidateExactly | programs/stockcard/src/instructions/liquidate.rs:49-144 | In a reachable state a liquidation goes through if and only if the position is over the threshold by the exact comparison, the repayment is within the close factor, the seizure formula fits its words, the money is there, the collateral moves, and neither the loan-to-value before nor the one after is too wide for a word. |
| Admission.SomeAmountLiquidates | programs/stockcard/src/instructions/liquidate.rs:69-87 | If any amount of a position can be liquidated, debt times close factor is at least 10000 and one unit is allowed; while 10000 times the debt fits a word, one unit goes through if and only if it is allowed. |
| Admission.TooWideToLiquidate | programs/stockcard/src/math.rs:96-102 | A position whose loan-to-value is too wide for a word cannot be liquidated for any amount. |
| Refusals.BorrowRefused | programs/stockcard/src/instructions/borrow.rs:10-95 | In a reachable state every refusal of a loan names its cause: pause, signer, amount, blocked mint or vault, the price's own refusal, the exact limit, the exact cap, a word. |
| Refusals.RepayRefused | programs/stockcard/src/instructions/repay.rs:37-73 | Every refusal of a repayment names its cause. |
| Refusals.DepositRefused | programs/stockcard/src/instructions/deposit.rs:40-88 | Every refusal of a deposit names its cause. |
| Refusals.WithdrawRefused | programs/stockcard/src/instructions/withdraw.rs:10-101 | Every refusal of a withdrawal names its cause. |
| Refusals.LiquidateRefused | programs/stockcard/src/instructions/liquidate.rs:49-134 | Every refusal of a liquidation names its cause. |
| Administration.InitExactly | programs/stockcard/src/instructions/init_config.rs:33-59 | The program starts if and only if share, cap and factor are at most the whole, with the given authorities, unpaused and empty. |
| Administration.AddMarketExactly | programs/stockcard/src/instructions/add_market.rs:39-104 | A market is added if and only if the administrator asks, it is new, the parameters are accepted and the mint moves; it starts empty with the mint's decimals, by which a whole token is worth its price; nothing else changes. |
| Administration.UpdateMarketExactly | programs/stockcard/src/instructions/admin.rs:16-44 | Parameters change if and only if the administrator gives accepted ones for an existing market, and nothing else does. |
| Administration.PostedPriceReads | programs/stockcard/src/instructions/set_signed_price.rs:24-41 | A price is posted if and only if the signer, the kind, the sign and the exponent are right; from the moment of the post it is read, as its dollars rounded down to millionths, until both windows have passed; nothing else changes. |
| Administration.DepositForExactly | programs/stockcard/src/instructions/deposit_for.rs:41-97 | Only the cashback authority deposits for others, and its deposit is otherwise like any other. |
| Administration.PauseStopsOnly | programs/stockcard/src/instructions/admin.rs:46-57 | Only the administrator sets the pause; under it every loan and withdrawal is refused as paused, and every other instruction gives exactly the result it would give without it. |
| Admission.PriceStopsRepay | programs/stockcard/src/instructions/mod.rs:55-84 | Naming a price makes an otherwise good repayment fail if and only if it leaves debt, the price is readable, and what is left has no value (haircut, decimals, product or quotient out of range) or too wide a loan-to-value. |
| Admission.PriceStopsDeposit | programs/stockcard/src/instructions/mod.rs:55-84 | The same for a deposit, on the debt and the collateral it makes. |
| Cases.ClosedPriceStops | programs/stockcard/src/instructions/mod.rs:55-79 | A state reached from `init_config` in which a repayment and a deposit fail for naming the price and go through without it. |
| Cases.NoneCanLiquidate | programs/stockcard/src/math.rs:96-102 | A state reached from `init_config` with a position over the threshold of which no amount can be liquidated. |
| Cases.OneCannotThreeCan | programs/stockcard/src/instructions/liquidate.rs:125-134 | And one where repaying one unit fails for the loan-to-value it would leave, while three go through. |
| Cases.ClosedCreditRefused | programs/stockcard/src/instructions/borrow.rs:61-75 | A state reached from `init_config`, with seeded terms and the market closed, in which a loan within the shown credit is refused for its size. |
| Cases.ClosedFixFallsShort | programs/stockcard/src/instructions/repay.rs:45-73 | And one in which repaying the shown fix leaves the position over its limit. |
| Invariants.ReachableStates | programs/stockcard/src/instructions/init_config.rs:33-59 | After any run from the first state: total debt, shares and each market's collateral are the sums of the accounts; pool value is at least the shares; vaults hold what positions claim; all parameters and rates (1 to 5000) are legal; total interest is lent or repaid, and the protocol's cut of it lies between its exact share and that plus one unit per charge, never above the interest; the vault holds all cash ever paid in less all ever paid out. |
| Invariants.RunKeeps | programs/stockcard/src/instructions/mod.rs:30-53 | Any run of any instructions keeps that invariant from any state that has it. |
| Invariants.StepKeepsSound | programs/stockcard/src/instructions/liquidate.rs:120-123 | One successful instruction keeps sums, pool bound, vaults and parameters. |
| Invariants.StepKeepsAccounts | programs/stockcard/src/instructions/mod.rs:32-50 | One successful instruction keeps the accounts of interest and reserve. |
| Invariants.StepKeepsCash | programs/stockcard/src/instructions/savings.rs:42-130 | One successful instruction keeps the account of cash: the vault is what was saved, repaid and given less what was redeemed, lent out and claimed. |
| Invariants.PositionStepMoves | programs/stockcard/src/instructions/borrow.rs:97-119 | Every instruction on a position moves debt, collateral, cash, totals and reserve by one set of amounts on that position, a loan paid to the vault itself staying there, and leaves every other account, market and price as it was. |
| Invariants.AccrueMoves | programs/stockcard/src/instructions/mod.rs:31-53 | Debt and total rise by the same interest, the reserve by its share rounded up, never more than the interest. |
| Invariants.NoUnderflow | programs/stockcard/src/instructions/savings.rs:132-133 | While the sums agree, none of the unchecked subtractions of any instruction goes below zero. |
| Invariants.InTotals | programs/stockcard/src/instructions/repay.rs:63-64 | No position's debt or collateral exceeds the total it belongs to. |
| Savings.SharePriceNeverFalls | programs/stockcard/src/instructions/savings.rs:35-179 | For every instruction, pool' * shares >= pool * shares' while shares exist. |
| Savings.NeverDiluted | programs/stockcard/src/math.rs:135-156 | Nobody else's instruction reduces what a saver's shares redeem for. |
| Savings.NeverDilutedOverRuns | programs/stockcard/src/math.rs:135-156 | Nor does any run of instructions in which the saver does not act. |
| Savings.PoolGainsInterest | programs/stockcard/src/instructions/mod.rs:35-49 | An instruction on a position changes the pool by exactly its interest less the protocol's share, plus a loan that is paid to the vault itself. |
| Savings.PoolOnlyGrows | programs/stockcard/src/math.rs:150-156 | Apart from savers coming and going, no instruction shrinks the pool or changes the number of shares. |
| Savings.PoolIsSound | programs/stockcard/src/math.rs:125-156 | In a reachable state the pool's value never underflows, and is never zero while shares exist, so the zero-pool error is unreachable. |
| Savings.ClaimsWithinPool | programs/stockcard/src/math.rs:135-140 | What all savers together can redeem never exceeds the pool. |
| Savings.DepositThenRedeem | programs/stockcard/src/instructions/savings.rs:35-135 | Depositing and at once redeeming returns at most the deposit, loses less than a share's worth plus one unit, and restores shares and config. |
| Savings.WithdrawSavingsOutcome | programs/stockcard/src/instructions/savings.rs:98-135 | Redeeming held shares pays the floor, at least one unit a share, or is refused only for want of cash or a pool too wide for a word: the zero-amount refusal never happens. |
| Savings.WithdrawSavingsExactly | programs/stockcard/src/instructions/savings.rs:98-135 | A redemption goes through if and only if the shares are held, the pool fits a word and cash beyond the reserve covers their worth; it pays the floor, burns just those shares and leaves all else. |
| Savings.DepositSavingsExactly | programs/stockcard/src/instructions/savings.rs:35-70 | A saver's deposit goes through, paused or not, saver new or not, if and only if the cash is there, it buys a share and the totals fit; minted is the amount when there are no shares and otherwise the largest number with minted * pool <= amount * shares; held, total and vault rise by just that and all else stays. |
| Savings.ClaimExactly | programs/stockcard/src/instructions/savings.rs:156-179 | A claim goes through if and only if the administrator asks for a positive amount within reserve and vault; both fall by it, and the pool and all else stay. |
| Savings.CapLeavesCash | programs/stockcard/src/instructions/borrow.rs:77-95 | With a cap of at most the whole, a loan within it never meets either cash refusal. |
| Savings.BorrowFindsCash | programs/stockcard/src/instructions/borrow.rs:89-112 | `borrow` is never refused for liquidity or transfer, and leaves the reserve in cash. |
| Positions.SeizureKeepsCover | programs/stockcard/src/instructions/liquidate.rs:80-87 | The arithmetic of one seizure of a covered position: within the collateral, still covered, debt per unit of collateral not raised. |
| Positions.LiquidateOutcome | programs/stockcard/src/instructions/liquidate.rs:71-123 | The repayment is at most the debt and comes off it; collateral falls by the formula's amount capped at what is there. |
| Positions.LiquidationKeepsCover | programs/stockcard/src/instructions/liquidate.rs:59-123 | A covered position's seizure is never capped, leaves it covered, and does not raise debt over collateral. |
| Positions.LiquidationsKeepCover | programs/stockcard/src/instructions/liquidate.rs:49-144 | So does any run of liquidations at one quote of a position covered with its pending interest, and the run is no longer than that debt has units. |
| Positions.CoverStays | programs/stockcard/src/instructions/liquidate.rs:59-123 | A covered position stays covered and becomes no riskier over any run at one moment, quote and multiplier in which its owner neither borrows nor withdraws, whoever else does what. |
| Positions.NoBadDebt | programs/stockcard/src/math.rs:105-123 | Over any such run a covered position never ends with debt and no collateral. |
| Positions.LiquidatedOnlyOverThreshold | programs/stockcard/src/instructions/liquidate.rs:57-78 | A liquidation means a fresh price, debt above threshold times value exactly, and a repayment within the close factor. |
| Positions.PriceAges | programs/stockcard/src/oracle.rs:16-42 | A price readable at some moment was readable ever since it was posted, at the same price and with the open haircut first; a stale price stays stale until another is posted. |
| Positions.QuoteExactly | programs/stockcard/src/oracle.rs:16-42 | A price is refused as of another kind, as invalid or as stale exactly when it is; otherwise it is read exactly when it fits, as its dollars rounded down, with the ordinary haircut within the ordinary window and the closed one beyond it. |
| Positions.DepositOutcome | programs/stockcard/src/instructions/deposit.rs:44-79 | A deposit leaves the position, new or old, with its interest charged and its collateral up by the amount. |
| Positions.RepayOutcome | programs/stockcard/src/instructions/repay.rs:43-64 | A repayment leaves the position with its interest charged and its debt down by the amount, to nothing at most. |
| Positions.SeizeIsFloor | programs/stockcard/src/math.rs:105-123 | The seizure formula is the floor of repayment times claim over worth, both positive. |
| Positions.BorrowWithinLimit | programs/stockcard/src/instructions/borrow.rs:61-75 | A granted loan leaves debt * 10000 <= limit * value, without rounding. |
| Positions.BorrowRespectsCap | programs/stockcard/src/instructions/borrow.rs:77-88 | A granted loan was on a fresh price and leaves total loans within the cap on the pool. |
| Positions.WithdrawWithinLimit | programs/stockcard/src/instructions/withdraw.rs:47-67 | With debt left, a withdrawal leaves the position within the limit. |
| Positions.BufferHolds | programs/stockcard/src/instructions/liquidate.rs:57-69 | A position within its limit at one value is refused liquidation at any value of at least limit / threshold of it. |
| Positions.NoLiquidationAfterBorrow | programs/stockcard/src/instructions/liquidate.rs:59-69 | Right after a loan, at that moment and quote, liquidation is refused. |
| Positions.NoLiquidationAfterWithdraw | programs/stockcard/src/instructions/liquidate.rs:59-69 | Likewise right after a withdrawal. |
| Positions.OnlyOwnerTakes | programs/stockcard/src/instructions/withdraw.rs:18-23 | A position changes only through an instruction on it; its collateral falls only by a withdrawal its owner signs or a liquidation; its debt grows beyond interest only by a loan its owner signs. |
| Rates.RateFollowsPosition | programs/stockcard/src/instructions/mod.rs:57-84 | After every instruction on a position: without debt, the rate of the lowest band in use; with debt and a readable price named, that of the lowest band the debt keeps to by the exact comparison, or of the last band; otherwise the rate is left as it was. |
| Bands.SelectAprBps | programs/stockcard/src/math.rs:46-58 | The scan that keeps the latest rate returns the specified rate. |
| Bands.SelectCovered | programs/stockcard/src/math.rs:45-58 | A covered loan-to-value pays the rate of its lowest covering band. |
| Bands.SelectUncovered | programs/stockcard/src/math.rs:45-58 | An uncovered one pays the rate of the last band in use. |
| Bands.ValidateRiskParams | programs/stockcard/src/instructions/mod.rs:86-116 | The scan accepts exactly the parameter sets whose limit is below the threshold and whose bands rise, carry legal rates and reach the limit. |
| Bands.AcceptedBandsCover | programs/stockcard/src/instructions/mod.rs:93-114 | Under accepted parameters every loan-to-value up to the limit is covered, and every rate charged lies in 1..5000. |
| Bands.SelectIsRateOf | programs/stockcard/src/math.rs:45-58 | What is selected at a debt's loan-to-value is the rate of the lowest band the debt keeps to without rounding, or of the last. |
| Bands.BoundsReached | programs/stockcard/src/instructions/mod.rs:93-114 | Each bound on the parameters is accepted, and one beyond it refused. |
| RiskMath.ValueAnswers | programs/stockcard/src/math.rs:76-93 | The collateral value exists if and only if haircut, decimals, product and quotient are in range, and is then one floor of the whole product. |
| RiskMath.HaircutLowers | programs/stockcard/src/math.rs:86-92 | A deeper haircut never raises the value. |
| RiskMath.PriceAnswers | programs/stockcard/src/math.rs:60-73 | A price is read if and only if it is positive, its exponent is in -24..12 and its dollars fit, and then as millionths rounded down, by one formula for all exponents. |
| RiskMath.OneToken | programs/stockcard/src/math.rs:75-93 | A whole token shown as one is worth its price. |
| RiskMath.LtvWithin | programs/stockcard/src/math.rs:96-102 | The rounded-up test is the exact comparison of debt with a fraction of value, and there is no answer exactly when the quotient is too wide for a word. |
| RiskMath.PriceScaleFree | programs/stockcard/src/math.rs:60-73 | A price converts to the same dollars however its exponent splits it. |
| Rounding.CeilDiv | programs/stockcard/src/math.rs:9-18 | The least number whose multiple reaches the dividend. |
| Interest.SplittingNeverHelps | programs/stockcard/src/math.rs:35-38 | At a fixed rate, charging over any partition of an interval leaves at least the debt of one charge. |
| Interest.SplittingInTwoCosts | programs/stockcard/src/math.rs:35-38 | Two charges exceed one by at most one unit and the interest on the first charge. |
| Interest.YearlyCharge | programs/stockcard/src/math.rs:34-38 | A year at a rate costs that fraction of the debt, rounded up. |
| Interest.AccrueAtCompounds | programs/stockcard/src/instructions/mod.rs:31-53 | Accruing at given times is compounding over the spans between them. |
| Interest.TouchingNeverHelps | programs/stockcard/src/instructions/mod.rs:31-53 | However often a position is touched, it owes at least what one accrual at the end charges. |
| ClientRisk.InterestMatches | app/src/lib/risk.ts:14-18 | The interest preview is the program's charge whenever it has one. |
| ClientRisk.LtvMatches | app/src/lib/risk.ts:57-61 | The loan-to-value preview is the program's, sentinel included. |
| ClientRisk.SelectAprBps | app/src/lib/risk.ts:34-43 | The app's scan, on any loan-to-value however large, returns the program's rate for it or for the largest word. |
| ClientRisk.TwoFloors | app/src/lib/risk.ts:53-54 | Rounding down in between loses one unit exactly when the dropped parts add up to one, and never more. |
| ClientRisk.FloorWithinOne | app/src/lib/risk.ts:53-54 | For all inputs, one floor of the whole is the preview's two floors, or one more exactly when the dust reaches a unit. |
| ClientRisk.CollateralValueWithinOne | app/src/lib/risk.ts:45-55 | The preview is the program's value, or one less exactly when the dust reaches a unit. |
| ClientRisk.CollateralValueMatches | app/src/lib/risk.ts:45-55 | Without a haircut the two are equal. |
| ClientRisk.CollateralValueDiffers | app/src/lib/risk.ts:45-55 | A case where they are not. |
| ClientRisk.LimitDecides | app/src/lib/risk.ts:97-98 | At one haircut, the limit on the preview's value decides to within a unit whether a debt is within the program's limit, and exactly without a haircut. |
| ClientRisk.CreditDecides | app/src/lib/risk.ts:97-100 | At one haircut, every loan up to the preview is within the program's limit, none more than a unit above is, and without a haircut the preview is exact. |
| ClientRisk.RepaySuffices | app/src/lib/risk.ts:157-161 | Repaying the preview, capped at the debt, leaves at most the previewed limit, less than a cent under it if any debt is left, which at that haircut is within the program's limit. |
| ClientRisk.RepayIsLeast | app/src/lib/risk.ts:157-161 | The repayment is in whole cents, and a cent less fails the app's own test. |
| ClientRisk.AddingSuffices | app/src/lib/risk.ts:162-173 | Adding the previewed tokens brings the debt within the program's limit at that haircut despite the double rounding. |
| ClientRisk.AddIsLeast | app/src/lib/risk.ts:162-173 | The tokens to add are in steps of the fourth decimal, and the fewest steps whose worth reaches the value missing; none exactly when none is missing. |
| ClientRisk.OverThresholdIsBelowSafe | programs/stockcard/src/instructions/liquidate.rs:68-69 | Debt exceeds threshold times value exactly when the value is below ceil(debt * 10000 / threshold), and that is the program's test whenever it has an answer. |
| ClientRisk.BelowLiquidationPrice | app/src/lib/risk.ts:109-125 | At every price below the preview, debt exceeds threshold times the program's value, for all inputs. |
| ClientRisk.AboveLiquidationPrice | app/src/lib/risk.ts:109-125 | At every price above the preview the debt is within the threshold of the unrounded value, and of the rounded one to within a unit. |
| Previews.ShownAgainstReal | app/src/lib/portfolio.ts:75-76 | The limit the app shows, at the ordinary haircut, is no higher than the program's while the haircut in force is no deeper, and at most a unit lower while it is no shallower. |
| Previews.RepayingTheFixRestores | app/src/app/api/alerts/check/route.ts:98-123 | After `repay` of the fix previewed at the ordinary haircut, the debt is at most the shown limit. It is within the program's limit exactly when at most the real one: always if the shown limit is no higher, never if the real one is lower by a cent and debt is left. No liquidation is possible at that moment while the threshold on the value in force allows what the limit on the ordinary value does. |
| Previews.DepositingTheFixRestores | app/src/app/api/alerts/check/route.ts:98-123 | After `deposit` of the fix the debt is within the limit of the ordinary value; within the program's exactly when at most the real limit of what is then there, always if the haircut in force is no deeper; no liquidation under the same condition as for the repayment. |
| Previews.LoanDecided | programs/stockcard/src/instructions/borrow.rs:61-75 | `borrow` refuses every loan that takes the debt over the real limit, and never refuses another for its size. |
| Previews.CreditBindsBorrow | app/src/lib/risk.ts:97-100 | With the interest pending, a loan within the credit at the ordinary haircut is never refused for its size if the shown limit is no higher than the real one, and one above it is refused if the real one is no higher, or is refused a unit above it if the real one is at most a unit higher. |
| Previews.CreditHolds | app/src/lib/portfolio.ts:69-76 | Every loan within the shown credit is within the program's limit if and only if the shown limit is no higher than the real one or there is no credit; otherwise the full credit is refused. |
| Previews.StoredCreditBindsBorrow | app/src/app/borrow/page.tsx:81 | Credit previewed on the recorded debt promises the same of the loan and the pending interest together. |
| Previews.BelowThePriceLiquidates | app/src/lib/risk.ts:109-125 | Below the liquidation price previewed on any debt up to the one owed, at any haircut up to the one in force, `liquidate` is never refused as uncalled for and goes through exactly when nothing else stands in its way. |
| Previews.AboveThePriceHolds | app/src/lib/risk.ts:109-125 | Above the previewed price the debt is over the threshold by less than a unit of value, and not at all means `liquidate` refuses. |
| Previews.SafeValueIsSafe | programs/stockcard/src/instructions/liquidate.rs:68-69 | Once the value reaches ceil(debt * 10000 / threshold), `liquidate` is always refused as uncalled for. |
| Iban.FormatReadsBack | app/src/lib/iban.ts:44-51 | The display form normalizes and validates like the number it shows. |
| Iban.GroupedShape | app/src/lib/iban.ts:48-51 | The display form is the number with a space after every fourth character but the last. |
| Iban.CaseMakesNoDifference | app/src/lib/iban.ts:44-46 | Small letters read as their capitals, and everything else is kept. |
| Iban.SpacingMakesNoDifference | app/src/lib/iban.ts:44-46 | Spaces, hyphens, tabs and line breaks anywhere make no difference to the verdict. |
| Iban.RefusalsNameTheirCause | app/src/lib/iban.ts:70-86 | Every refusal names the first cause that applies, and an acceptance reports the number, its country and its last four characters. |
| Iban.Mod97 | app/src/lib/iban.ts:59-68 | The streamed remainder is that of the whole integer the rearranged, expanded characters write. |
| Iban.Validate | app/src/lib/iban.ts:70-86 | The early returns give the specified verdict, error by error. |
| Iban.AcceptedExactly | app/src/lib/iban.ts:70-86 | Accepted exactly when the normal form has a listed country, its length, digits where due, and an integer of remainder one. |
| Iban.AcceptedIsGenuine | app/src/lib/iban.ts:44-86 | Whatever is accepted is accepted for its normal form, which is itself accepted. |
| Iban.BlockReplaced | app/src/lib/iban.ts:59-68 | Replacing a block of characters by one of the same width keeps the remainder exactly when the blocks' own numbers agree modulo 97. |
| Iban.SubstitutionDetected | app/src/lib/iban.ts:59-86 | One digit for another, or one letter for another, anywhere, is always rejected. |
| Iban.SwapDetected | app/src/lib/iban.ts:59-86 | Swapping any two different neighbours is accepted exactly when both come after the check digits and write the same integer both ways; never within one class. |
| Iban.ShortPowers | app/src/lib/iban.ts:63-66 | None of the first sixty powers of ten leaves 1 modulo 97, which is why the swap across the check digits is caught. |
| Iban.SwapUndetected | app/src/lib/iban.ts:59-86 | A genuine number, and the other genuine number its neighbours 1 and B make. |
| Iban.CheckDigitsFit | app/src/lib/iban.ts:78-83 | Two check digits fit an account exactly when they bring its number to remainder one. |
| Iban.CheckDigitsExist | app/src/lib/iban.ts:59-86 | Every account number of a listed country has exactly one accepted pair from 02 to 98: 98 less the remainder with 00. |
| Signer.MaxSpread | app/src/lib/prices/signer.ts:82-90 | The widest disagreement of any two, reached by some pair; zero with fewer than two. |
| Signer.AgreeingPair | app/src/lib/prices/signer.ts:101-114 | None exactly when no pair agrees, else the first of the tightest pairs, and the one left out. |
| Signer.Decide | app/src/lib/prices/signer.ts:123-182 | The decision is the one the rules call for. |
| Signer.DecisionUnique | app/src/lib/prices/signer.ts:123-182 | The rules call for exactly one decision. |
| Signer.AlwaysACandidate | app/src/lib/prices/signer.ts:129-149 | Past the gates there is always a candidate. |
| Signer.GatesOpen | app/src/lib/prices/signer.ts:126-139 | The gates open exactly without demonstration, halt, missing price, stale stock data or a closed market. |
| Signer.CandidatesExactly | app/src/lib/prices/signer.ts:26-31 | The candidates are the issuer's positive price, Jupiter's with enough liquidity and Pyth's fresh and tight enough, in that order. |
| Signer.SkipsNameTheirCause | app/src/lib/prices/signer.ts:123-182 | A skipped post names the first cause that applies. |
| Signer.NotesSayWhich | app/src/lib/prices/signer.ts:151-180 | Note and spread say which sources were used and how far they are apart. |
| Signer.PostedIsAverage | app/src/lib/prices/signer.ts:92-94 | The price is the average of the sources used, and its millionths the nearest integer. |
| Signer.SpreadIs | app/src/lib/prices/signer.ts:75-77 | The spread is the difference against the midpoint in basis points, to the nearest. |
| Signer.PostsWhenSomeAgree | app/src/lib/prices/signer.ts:173-181 | With two or three candidates a price is posted exactly when some pair agrees. |
| Signer.PostedAgrees | app/src/lib/prices/signer.ts:151-181 | All sources averaged agree pairwise and are candidates; the price lies between them. |
| Signer.PythAlone | app/src/lib/prices/signer.ts:129-171 | Only Pyth is used exactly when the gates pass and neither other source is usable. |
| Signer.PythPostsAlone | app/src/lib/prices/signer.ts:164-171 | Such a reading, and its posted price. |
| Signer.SpreadGrows | app/src/lib/prices/signer.ts:75-77 | Moving one of two prices further away never lowers their rounded spread. |
| Signer.DroppedIsExtreme | app/src/lib/prices/signer.ts:96-114 | Whenever the decision drops a source, it is the lowest or the highest of the three, never the middle one, and it disagrees with both others exactly when its spread to the middle price is over the limit. |
| Signer.DropsOneThatAgrees | app/src/lib/prices/signer.ts:96-114 | A reading whose decision drops a source that is within the limit of the middle one. |

## Left out

- FormatReadsBack: the upper-casing of characters outside ASCII is not modelled; such a character stays as it is, which is rejected where JavaScript's mapping (of the long s, say) might give an ASCII letter. A character outside the basic plane counts as one here and as two in JavaScript, so display groups may fall elsewhere.
- Decide: prices are exact reals, so floating-point rounding, infinities and NaN are not modelled.
- The order in which the runtime tests an instruction's accounts, and so which of two account errors it reports.
- Account plumbing: addresses, seeds, rent, mint and owner constraints, events, cross-program calls and the parsing of token extensions.
- The conversion of a mint's floating-point multiplier: the multiplier is an arbitrary word at each step, zero included, and its refusal as invalid is not modelled.
- Issuer clawback and transfer fees: a collateral vault changes only by the transfers modelled.
- A frozen USDC account or a failing USDC mint.
- The 64-bit and 32-bit widths of timestamps, prices and exponents, which are unbounded integers here.
- The app's reading of a price: it takes every exponent to be -6 and shows a price of any age, where the previews here start from a price the program can read.
- The Switchboard oracle, beyond its refusal.
- Rates that fall as loan-to-value rises, and a closed-market haircut below the open one: the code accepts both, and nothing here assumes otherwise.
- Halting a market with a limit of zero (`app/src/app/api/admin/guards/route.ts:116`): `validate_risk_params` refuses it, as `Bands.ValidateRiskParams` states.
- Other parts of `risk.ts` (alert bands, health, formatting, and the share and utilization previews, which are the program's own formulas) and the masked form of an IBAN.
- Fetching prices, pages, wallets, storage, notifications, card and payout mocks, the landing site and its simulations, and encryption.
