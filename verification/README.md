# Verified model of the liquid-staking suite

This project models the integer state machines of the suite's Soroban contracts (the liquidity pool,
the staking vault and its sXLM token, the lending market, the bridge with its relayer, governance)
and two off-chain computations (the daily balance jobs and the dex quotes with their time-weighted
price), and proves what they keep over every run.

How it is laid out, for each contract:

- a *Model* module: the storage as a datatype and one function per entry point. A function returns
  `None` where the contract panics; the host then reverts the call, so the state is unchanged.
- a *Contract* module: a class whose fields are the storage keys and whose methods write them in the
  order the source does. Each method is proved equal to the step of its model, including that a
  panicking call leaves everything as it was.
- a *Calls* module (or a section of the property module): for each entry point exactly when it is
  accepted and what it then does, without the model's own formulas. Every amount that is rounded is
  pinned by the products it lies between, with the scales written out: q is the floor of a / b when
  q·b ≤ a < (q + 1)·b.
- property modules over single steps, and *Runs* / *Safety* modules over every sequence of calls,
  clock ticks and transfers by others, started from deployment.

`TokenLedger` is the balance map of the token contracts; `Sums` adds up maps; `Arithmetic` holds the
truncating division of the contracts and its order properties.

Conventions. 128-bit integers are unbounded. A signature is a caller parameter; a contract signs
nothing itself, so no caller is the contract's own address. Ledger time and sequence only grow.
Runs record history beside the state (prices per second, rewards paid, payouts, ballots), so a
property can speak of it.

`LpPoolScenarios` holds short concrete runs from deployment that reach what the pool does not
promise; `CohortActivity` and `GovernanceRuns` end with theirs.

Where the code and its own comments disagree, the code is modelled:

- `runWalletDailyActivityJob` says that without earlier rows a balance comes from all events up to
  the date; the code uses that day's events alone (`CohortActivity.GapForgets`, and a history it
  loses in `CohortActivity.GapLosesHistory`). The two agree exactly when the earlier events cancel
  out, or neither the day's changes nor the whole sum is positive.
- Governance says a reference supply of zero means an absolute minimum of votes; the code then checks
  no quorum at all: a verdict is a bare majority (`GovernanceRuns.VerdictExactly`), and one ballot of
  one unit enacts a proposal at any quorum setting (`GovernanceRuns.OneBallotEnacts`).
- The pool's deposit settles the accumulator but pays nothing, so exactly what the depositor had
  pending is lost, and nothing is lost if and only if nothing was pending
  (`LpPoolRewards.DepositForfeits`, reached in `LpPoolScenarios.DepositCanForfeit`); a claim and a
  removal do pay it.
- The relayer says a poll returns all new announcements since the last one. One the cursor has passed
  is lost when its sender is a contract, when the poll failed, or when the server's page ended before
  it (`BridgeRelay.AnnouncementsCanBeLost`); `BridgeRelay.HandedOnExactly` says exactly which are
  handed on.
- The token has a single minter, while both the vault and the bridge need to be it; each is modelled
  against a token whose minter it is. A bridge that is not the minter announces and releases nothing in
  any run (`BridgeSafety.IdleWithoutMinter`).
- The relayer's ABI declares the Stellar address of a burn as an indexed string, which arrives as a
  hash. Whether a delivery can succeed is left to the environment: the safety theorem covers both.

Properties one might expect that the code does not have, with a failing run and the exact condition:

- The product of the reserves can fall in a swap, and a round trip can return more than was paid
  (`LpPoolScenarios.RoundTripCanProfit`). The product falls exactly when the remainder of the division
  exceeds the retained fee times the output reserve left (`LpPoolSwaps.SwapXlmProduct`,
  `LpPoolSwaps.SwapSxlmProduct`). With X and S the reserves, n the sXLM reserve the first leg leaves
  and cut the protocol's share, a round trip of a returns at most a if and only if
  (X − cut) · (S − n after fee) ≤ a · n, all of it known before the first leg (`LpPoolSwaps.RoundTrip`);
  the other direction is the same without the cut (`LpPoolSwaps.RoundTripFromSxlm`, a run in
  `LpPoolScenarios.RoundTripFromSxlmCanProfit`).
- Reward payouts can run ahead of what was distributed, by less than one unit per debt rewritten by
  a deposit, a removal or a claim that pays nothing (`LpPoolRuns.RewardBudget`); payouts stay within
  it in every run with a given number of rewrites if and only if that number is at most one
  (`LpPoolScenarios.OvershootThreshold`).
- A quote need not execute: it does exactly when its output is below the whole reserve, the user and
  the pool have the funds to exchange, a negative slippage adds less than a unit to the minimum and,
  for XLM in, the fee is not zero (`DexQuotes.QuoteExecutes`;
  one refused quote per cause in `LpPoolScenarios.QuoteCanFail`).
- The carried daily balance can exceed the backfilled one (`CohortActivity.CarriedCanExceed`); it
  equals it exactly when no running total was negative or the latest is the lowest so far
  (`CohortActivity.FastAgainstSlow`).

## Model

| member | source | states |
|---|---|---|
| IntegerSqrt.NewtonSqrt | contracts/lp-pool/src/lib.rs:145-156 | Newton's loop from x = n terminates for every n and returns r with r² ≤ n < (r+1)²; 0 for n ≤ 0 |
| IntegerSqrt.NewtonStepAbove | contracts/lp-pool/src/lib.rs:149-154 | a Newton step from any positive x never lands below the floor of the root |
| LpPoolContract.LpPool.constructor | contracts/lp-pool/src/lib.rs:353-382 | a new pool is empty, without program, at the default protocol fee |
| LpPoolContract.LpPool.UpdateCumulativePrice | contracts/lp-pool/src/lib.rs:166-215 | in-place price observation equals the model step; every other field is unchanged |
| LpPoolContract.LpPool.UpdateRewards | contracts/lp-pool/src/lib.rs:223-292 | in-place accumulator update equals the model step in all its branches |
| LpPoolContract.LpPool.SetProgram | contracts/lp-pool/src/lib.rs:418-513 | only admin or governance with valid parameters replaces the program; otherwise nothing changes |
| LpPoolContract.LpPool.Claim | contracts/lp-pool/src/lib.rs:533-577 | pays and rewrites the debt as the model does, or reverts wholly |
| LpPoolContract.LpPool.Shares | contracts/lp-pool/src/lib.rs:601-614 | amounts taken and shares minted of a deposit; fails only on a zero reserve |
| LpPoolContract.LpPool.Add | contracts/lp-pool/src/lib.rs:584-652 | a deposit takes both tokens and credits shares together, or changes nothing |
| LpPoolContract.LpPool.PayEarned | contracts/lp-pool/src/lib.rs:668-690 | a removal first pays what is unclaimed and positive, if there is a program |
| LpPoolContract.LpPool.Remove | contracts/lp-pool/src/lib.rs:655-725 | a removal pays rewards and both tokens and debits shares together, or changes nothing |
| LpPoolContract.LpPool.Quote | contracts/lp-pool/src/lib.rs:740-753 | succeeds exactly when all shared assertions of a swap hold |
| LpPoolContract.LpPool.SwapXlm | contracts/lp-pool/src/lib.rs:732-784 | XLM in: both transfers, reserves and accrued fees move together, or nothing does |
| LpPoolContract.LpPool.SwapSxlm | contracts/lp-pool/src/lib.rs:787-832 | sXLM in: no protocol cut; all or nothing |
| LpPoolContract.LpPool.Collect | contracts/lp-pool/src/lib.rs:839-862 | the admin receives exactly the accrued fees, which become zero; nothing happens when there are none |
| LpPoolContract.LpPool.SetFee | contracts/lp-pool/src/lib.rs:865-870 | only the admin changes the protocol fee |
| LpPoolContract.LpPool.SetGovernanceContract | contracts/lp-pool/src/lib.rs:397-404 | only the admin changes the governance address |
| LpPoolContract.LpPool.Pending | contracts/lp-pool/src/lib.rs:516-530 | the view computes the pending rewards of the model without changing state |
| LpPoolCalls.SwapXlmExactly | contracts/lp-pool/src/lib.rs:732-784 | accepted exactly when input, reserves, net input, output, minimum, fee and funds allow it; then the reserve left is the floor of k over reserve + net, the accrued fees grow by the floor of fee · protocol rate / fee rate, and the rest of the input enters the reserve; nothing else changes |
| LpPoolCalls.SwapSxlmExactly | contracts/lp-pool/src/lib.rs:787-832 | the same for sXLM in, where the whole input enters the reserve and no fee accrues |
| LpPoolCalls.AddExactly | contracts/lp-pool/src/lib.rs:584-652 | accepted exactly when shares and both amounts are positive and the user has them; into a live pool the shares are the most both offers are worth, the offer worth no more is taken whole, of the other only the floor of the shares' worth; one position, one debt and two balances change |
| LpPoolCalls.RemoveExactly | contracts/lp-pool/src/lib.rs:655-725 | accepted exactly within the shares when both outputs are positive and the pool can pay; the outputs are the floors of the shares' part of each reserve, after the pending rewards |
| LpPoolCalls.ClaimExactly | contracts/lp-pool/src/lib.rs:541-577 | a claim pays the pending view, rewrites the user's debt to the floor of shares · accumulator / 10¹² and changes no other debt, share or reserve |
| LpPoolCalls.CollectExactly | contracts/lp-pool/src/lib.rs:839-862 | accepted exactly from the admin when the fees can be paid; they are paid whole and cleared |
| LpPoolCalls.ProgramExactly | contracts/lp-pool/src/lib.rs:418-513 | accepted exactly from admin or governance for a positive rate and budget and a window; the program starts undistributed with its own clock and a cleared accumulator |
| LpPoolSwaps.AcceptedOut | contracts/lp-pool/src/lib.rs:747-752 | an accepted output leaves a positive reserve that is the floor quotient of the product by a positive divisor, for any fee setting |
| LpPoolSwaps.SwapXlmProduct | contracts/lp-pool/src/lib.rs:740-776 | new k − old k = retained fee · new sXLM reserve − k mod (reserve + input net of fee), for every successful swap; k falls exactly when the remainder is larger, which is known beforehand |
| LpPoolSwaps.SwapSxlmProduct | contracts/lp-pool/src/lib.rs:795-824 | the same in the other direction, where the whole fee is retained |
| LpPoolSwaps.FeeSplit | contracts/lp-pool/src/lib.rs:741-769 | with 0 ≤ protocol fee ≤ fee ≤ 10000 the cut is part of the fee and the fee part of the input |
| LpPoolSwaps.RoundTrip | contracts/lp-pool/src/lib.rs:732-832 | XLM to sXLM and back returns at most the amount paid if and only if (X − cut) · (proceeds after fee) ≤ amount · n, read off the pool before the first leg; never more than amount − cut when both legs keep k |
| LpPoolSwaps.RoundTripFromSxlm | contracts/lp-pool/src/lib.rs:732-832 | sXLM to XLM and back returns at most the amount paid if and only if S · (proceeds after fee) ≤ amount · n, read off the pool before the first leg |
| LpPoolShares.DepositRates | contracts/lp-pool/src/lib.rs:601-635 | a deposit takes at most what was offered; reserve per share does not fall on the limiting side and obeys r'·T > r·T' − T on the other |
| LpPoolShares.RemovalRates | contracts/lp-pool/src/lib.rs:692-706 | a removal lowers neither side's reserve per share and keeps supply and reserves all zero or all positive |
| LpPoolShares.AddThenRemove | contracts/lp-pool/src/lib.rs:584-725 | adding and removing the minted shares returns no more of either token than was taken; exactly the same for a first deposit |
| LpPoolShares.FirstDeposit | contracts/lp-pool/src/lib.rs:605-606 | the first deposit takes all and mints the floor of the geometric mean |
| LpPoolRewards.UpdateKeepsBudget | contracts/lp-pool/src/lib.rs:223-292 | an update raises all claims together by no more than it books as distributed |
| LpPoolRewards.RewriteKeepsBudget | contracts/lp-pool/src/lib.rs:638-644 | rewriting a debt, with or without first paying the accrued rewards, costs less than one unit of budget |
| LpPoolRewards.ClaimKeepsBudget | contracts/lp-pool/src/lib.rs:541-577 | a paying claim uses exactly the budget it releases |
| LpPoolRewards.BudgetBoundsPayouts | contracts/lp-pool/src/lib.rs:249-292 | payouts ≤ distributed + max(0, rewrites − 1) ≤ total rewards + max(0, rewrites − 1) |
| LpPoolRewards.ProjectionIsUpdate | contracts/lp-pool/src/lib.rs:296-345 | the projected accumulator is the one an update would store |
| LpPoolRewards.ViewMatchesClaim | contracts/lp-pool/src/lib.rs:516-577 | a claim pays exactly the pending view, leaves 0 pending, and fails exactly when the pool holds less than a positive pending amount |
| LpPoolRewards.DepositForfeits | contracts/lp-pool/src/lib.rs:593-644 | a deposit moves exactly its two amounts and leaves nothing pending; in every token the loss is exactly what was pending, so none if and only if nothing was |
| LpPoolRewards.ClaimLosesNothing | contracts/lp-pool/src/lib.rs:541-577 | a claim keeps balance + pending of every token |
| LpPoolRewards.RemovalPaysPending | contracts/lp-pool/src/lib.rs:668-708 | a removal pays exactly the pending view and leaves nothing pending |
| LpPoolRewards.SplitOnce | contracts/lp-pool/src/lib.rs:223-292 | two updates distribute exactly what one does and lose at most one unit of accumulator |
| LpPoolRewards.SplitPeriod | contracts/lp-pool/src/lib.rs:223-292 | n updates at unchanged positive supply: same program, same distributed total, accumulator lower by at most n − 1 |
| LpPoolRuns.StepKeepsRewards | contracts/lp-pool/src/lib.rs:475-725 | every call keeps Σ shares = supply and P·paid + Σ max(0, lp·acc − P·debt) ≤ P·distributed + (P − 1)·rewrites |
| LpPoolRuns.RewardBudget | contracts/lp-pool/src/lib.rs:223-708 | the same in every run from deployment, stale debts of replaced programs included; payouts never exceed what was distributed with at most one rewrite |
| LpPoolProgram.DistributedExactly | contracts/lp-pool/src/lib.rs:223-292 | in every run distributed = min(total, rate · n), with n the seconds, from the start up to the last settling call and before the end, in which there were shares |
| LpPoolProgram.PositionEarns | contracts/lp-pool/src/lib.rs:223-345 | after a claim, at a constant supply and whatever updates follow, the pending view is the position's share of rate · seconds (within the budget left): less than one unit more, and less only by one unit and shares / 10¹² per update |
| LpPoolScenarios.OvershootThreshold | contracts/lp-pool/src/lib.rs:223-708 | for each number of rewrites: payouts stay within what was distributed in every run with that many if and only if it is at most one |
| LpPoolScenarios.PaidAhead | contracts/lp-pool/src/lib.rs:223-644 | a run with two rewrites that pays 4 when 3 were distributed |
| LpPoolScenarios.DepositCanForfeit | contracts/lp-pool/src/lib.rs:593-644 | a run in which a second deposit loses one earned unit |
| LpPoolScenarios.RoundTripCanProfit | contracts/lp-pool/src/lib.rs:732-832 | a run from deployment at fees of 30 and 5 basis points where k falls and 113 stroops of XLM come back as 124 |
| LpPoolScenarios.RoundTripFromSxlmCanProfit | contracts/lp-pool/src/lib.rs:732-832 | the same run starting with sXLM, where the sXLM swap lowers k |
| LpPoolScenarios.QuoteCanFail | backend/src/dex-integration/index.ts:138-190 | a deployed pool refuses its own quote for each cause alone: whole reserve, zero fee, missing funds, negative slippage |
| LpPoolCustody.StepKeepsCustody | contracts/lp-pool/src/lib.rs:533-862 | every call keeps native balance = XLM reserve + accrued fees and sXLM balance = sXLM reserve, plus what others sent, less rewards paid in that token |
| LpPoolCustody.CustodyAlways | contracts/lp-pool/src/lib.rs:533-862 | custody holds in every run, whatever the fee settings and reward assets |
| LpPoolCustody.StepKeepsReserves | contracts/lp-pool/src/lib.rs:584-832 | every call after which the protocol fee is within the swap fee keeps supply and reserves all zero or all positive |
| LpPoolCustody.PoolInvariant | contracts/lp-pool/src/lib.rs:584-862 | in every run whose protocol fee in force stays within the swap fee: Σ shares = supply, all zero or all positive, and custody |
| LpPoolOracle.UpdateCatchesUp | contracts/lp-pool/src/lib.rs:166-215 | an update makes each cumulative price the sum of the floor prices of all elapsed seconds |
| LpPoolOracle.StepKeepsOracle | contracts/lp-pool/src/lib.rs:584-832 | every call that changes reserves has recorded the old price first |
| LpPoolOracle.OracleSums | contracts/lp-pool/src/lib.rs:166-215 | in every run each cumulative price is the sum over every second before the last update of the floor price then in force, empty seconds counting zero |
| LpPoolOracle.AveragePrice | contracts/lp-pool/src/lib.rs:917-941 | two readings differ by the prices in between, and their quotient over the time lies between the least and greatest of them |
| LpPoolOracle.PriceIsRatio | contracts/lp-pool/src/lib.rs:189-192 | the XLM price is the floor of 10¹⁸ · XLM reserve / sXLM reserve, the sXLM price the converse; an empty pool has none |
| LpPoolOracle.GainAtConstantReserves | contracts/lp-pool/src/lib.rs:186-215 | over n seconds at reserves x, y the sum gains g with g·y ≤ n·x·10¹⁸ < (g + n)·y |
| LpPoolOracle.AverageRatio | contracts/lp-pool/src/lib.rs:917-941 | in every run, while the pool is not empty, the average of a cumulative price between two readings lies between any bounds of the ratio of its reserves, up to the unit rounded off |
| SxlmToken.MoveConserves | contracts/sxlm-token/src/lib.rs:219-232 | a transfer keeps the sum of balances; a self-transfer changes none |
| SxlmToken.CallsConserve | contracts/sxlm-token/src/lib.rs:166-248 | every call keeps supply = Σ balances, none negative; only the minter changes the supply |
| SxlmToken.SxlmContract.MintTo | contracts/sxlm-token/src/lib.rs:166-177 | only the minter mints; balance and supply move together |
| SxlmToken.SxlmContract.BurnFrom | contracts/sxlm-token/src/lib.rs:180-194 | only the minter burns, at most the balance |
| SxlmToken.SxlmContract.ApproveSpender | contracts/sxlm-token/src/lib.rs:203-212 | an approval replaces the allowance |
| SxlmToken.SxlmContract.SpendAllowance | contracts/sxlm-token/src/lib.rs:117-123 | spending fails beyond the allowance and otherwise lowers it by the amount |
| SxlmToken.SxlmContract.TransferTo | contracts/sxlm-token/src/lib.rs:219-232 | a transfer fails beyond the balance; the payee is read after the payer is written |
| SxlmToken.SxlmContract.TransferFrom | contracts/sxlm-token/src/lib.rs:234-248 | allowance and balances change together or not at all |
| SxlmToken.SxlmContract.SetMinter | contracts/sxlm-token/src/lib.rs:273-278 | only the admin replaces the minter |
| SxlmToken.SxlmContract.SetAdmin | contracts/sxlm-token/src/lib.rs:281-286 | only the admin hands over |
| TokenCalls.SupplyExactly | contracts/sxlm-token/src/lib.rs:166-194 | when mints and burns are accepted, and that they change one balance and the supply by the amount |
| TokenCalls.SendExactly | contracts/sxlm-token/src/lib.rs:219-232 | a transfer is accepted exactly within the balance and moves the amount between two accounts alone |
| TokenCalls.SendFromExactly | contracts/sxlm-token/src/lib.rs:234-248 | accepted exactly within allowance and balance; the allowance falls by the amount and no other changes |
| TokenCalls.ApprovalsAddUp | contracts/sxlm-token/src/lib.rs:117-248 | over any calls by anyone, what a spender took since the owner's last approval and the allowance left add up to the amount approved |
| StakingContract.Staking.constructor | contracts/staking/src/lib.rs:143-165 | a new vault has empty totals and queue and is not paused |
| StakingContract.Staking.DepositXlm | contracts/staking/src/lib.rs:184-220 | transfer, mint and totals together, or nothing |
| StakingContract.Staking.NextWithdrawalId | contracts/staking/src/lib.rs:105-115 | ids are handed out in sequence |
| StakingContract.Staking.Request | contracts/staking/src/lib.rs:223-285 | burn, then payment from the buffer or a queue entry; all or nothing |
| StakingContract.Staking.Claim | contracts/staking/src/lib.rs:288-320 | pays an unclaimed, unlocked entry to its owner and marks it, or changes nothing |
| StakingContract.Staking.Rewards | contracts/staking/src/lib.rs:328-349 | the admin's reward is split between treasury and stake |
| StakingContract.Staking.TakeFees | contracts/staking/src/lib.rs:353-383 | the admin takes at most the treasury; an amount of 0 or less takes all of it |
| StakingContract.Staking.Slash | contracts/staking/src/lib.rs:396-428 | the admin lowers the stake by at most all of it |
| StakingContract.Staking.Fund | contracts/staking/src/lib.rs:473-487 | the admin's transfer raises the buffer |
| StakingContract.Staking.SetPaused | contracts/staking/src/lib.rs:453-467 | only the admin pauses |
| StakingContract.Staking.SetCooldown | contracts/staking/src/lib.rs:503-509 | only the admin changes the cooldown |
| StakingContract.Staking.SetAdmin | contracts/staking/src/lib.rs:496-501 | only the admin hands over |
| StakingCalls.DepositExactly | contracts/staking/src/lib.rs:184-220 | when a deposit is accepted; it mints the floor of amount · supply / stake, one for one into a vault without shares or stake, to the depositor alone |
| StakingCalls.RequestExactly | contracts/staking/src/lib.rs:223-285 | when a request is accepted; it burns the shares and pays the floor of their worth from a sufficient buffer, else queues it under the next id to unlock a cooldown later |
| StakingCalls.ClaimExactly | contracts/staking/src/lib.rs:288-320 | accepted exactly from the owner of an unclaimed entry from its unlock ledger on when the vault holds the amount; one entry, the stake and two balances change |
| StakingCalls.RewardsExactly | contracts/staking/src/lib.rs:328-349 | a tenth, rounded down, goes to the treasury, the rest to the stake |
| StakingCalls.FeesExactly | contracts/staking/src/lib.rs:353-383 | when fees are paid: the amount asked for, or the whole treasury when asked for nothing |
| StakingCalls.AdminExactly | contracts/staking/src/lib.rs:396-487 | when slashing and funding are accepted, and that each moves its one total by the amount |
| StakingCalls.FirstDepositIsOneForOne | contracts/staking/src/lib.rs:143-220 | a deployed vault runs, holds and owes nothing, and its first deposit mints one for one |
| StakingCalls.RateExactly | contracts/staking/src/lib.rs:515-524 | the published rate is the floor of 10⁷ · stake / supply, and 10⁷ without shares |
| StakingRate.RoundTrip | contracts/staking/src/lib.rs:196-241 | depositing x and withdrawing the minted m at once yields exactly x − ceil((x·S mod T)/(S+m)) |
| StakingRate.StepRate | contracts/staking/src/lib.rs:184-410 | from positive stake and supply no step but a claim or slashing lowers stake per share; those strictly lower it |
| StakingRate.RateNeverFalls | contracts/staking/src/lib.rs:184-410 | over every run in which no claim is paid, nothing is slashed and the supply stays positive, stake per share never falls and the stake stays positive |
| StakingRate.PublishedRateFollows | contracts/staking/src/lib.rs:515-524 | the published floor rate does not fall when stake per share does not |
| StakingRuns.StepKeepsLedger | contracts/staking/src/lib.rs:184-487 | every call keeps native balance = stake + buffer + treasury + instant payouts + slashed − gross rewards, plus what others sent |
| StakingRuns.StepKeepsSupply | contracts/staking/src/lib.rs:196-250 | every call of vault or token keeps vault supply = token supply = Σ balances while the vault is minter |
| StakingRuns.StepKeepsQueue | contracts/staking/src/lib.rs:264-320 | every call keeps ids 0..counter−1, payouts matching claimed entries once each, and Σ requested = Σ unclaimed + Σ paid |
| StakingRuns.QueueOnlyGrows | contracts/staking/src/lib.rs:264-320 | over any run no entry's owner, amount or unlock ledger changes and a claim is never undone |
| StakingRuns.VaultInvariant | contracts/staking/src/lib.rs:143-487 | ledger, supply and queue invariants in every run from deployment |
| LendingContract.Lending.constructor | contracts/lending/src/lib.rs:162-185 | a new market is empty, at rate 1 and the default bonus |
| LendingContract.Lending.Deposit | contracts/lending/src/lib.rs:253-272 | collateral, its total and the tokens move together, or nothing does |
| LendingContract.Lending.Withdraw | contracts/lending/src/lib.rs:275-306 | collateral leaves only within balance and health |
| LendingContract.Lending.TakeLoan | contracts/lending/src/lib.rs:309-342 | a loan is granted only within the limit and the pool's balance |
| LendingContract.Lending.RepayLoan | contracts/lending/src/lib.rs:345-366 | a repayment is capped at the debt |
| LendingContract.Lending.LiquidatePosition | contracts/lending/src/lib.rs:369-418 | debt in, collateral out and position cleared together, only when unhealthy |
| LendingContract.Lending.SetRate | contracts/lending/src/lib.rs:204-215 | only the admin sets a positive rate |
| LendingContract.Lending.SetFactor | contracts/lending/src/lib.rs:218-229 | only the admin sets a factor in 1..10000 |
| LendingContract.Lending.SetThreshold | contracts/lending/src/lib.rs:232-238 | only the admin sets a threshold in 1..10000 |
| LendingCalls.HealthExactly | contracts/lending/src/lib.rs:145-154 | the health factor is the floor of collateral · rate · factor / (10⁴ · debt), the largest number without debt |
| LendingCalls.WithdrawExactly | contracts/lending/src/lib.rs:275-306 | accepted exactly when what remains, at rate and factor, covers 10¹¹ · debt, and the market can pay |
| LendingCalls.BorrowExactly | contracts/lending/src/lib.rs:309-342 | accepted exactly when the collateral, at rate and factor, covers 10¹¹ · the whole debt, and the market can pay |
| LendingCalls.RepayExactly | contracts/lending/src/lib.rs:345-366 | takes the smaller of offer and debt, exactly from who has it |
| LendingCalls.LiquidateExactly | contracts/lending/src/lib.rs:369-418 | accepted exactly when the collateral at the threshold does not cover 10¹¹ · debt and both transfers succeed; takes the worth of the debt with bonus, as two floors, or all the collateral, and clears the debt |
| LendingSafety.ChecksAgree | contracts/lending/src/lib.rs:147-154 | for positive debt, debt ≤ borrow limit ⟺ health factor ≥ 1.0 ⟺ debt·10¹¹ ≤ weighted collateral |
| LendingSafety.SeizureBounds | contracts/lending/src/lib.rs:386-396 | seized ≤ collateral; seized·er ≤ debtWithBonus·10⁷ < (seized+1)·er unless capped; all collateral goes exactly when its value does not exceed what is owed |
| LendingSafety.HealthyEnoughIsNotCapped | contracts/lending/src/lib.rs:377-396 | never capped when hf·BPS² ≥ threshold·(BPS+bonus)·10⁷ |
| LendingSafety.LiquidatableExactly | contracts/lending/src/lib.rs:374-380 | in a consistent market a position can be liquidated if and only if its threshold value is below its debt |
| LendingSafety.StepKeepsBooks | contracts/lending/src/lib.rs:253-418 | every call keeps totals = per-user sums, native balance + loans = funds received, and all collateral held |
| LendingSafety.MarketConserves | contracts/lending/src/lib.rs:253-418 | the same in every run from deployment |
| LendingSafety.StepKeepsCovered | contracts/lending/src/lib.rs:275-342 | every call that leaves rate and factor not lower and the factor within the threshold keeps each position within its borrow limit |
| LendingSafety.NeverLiquidatable | contracts/lending/src/lib.rs:204-418 | in every run where rate and factor in force never fall and the factor stays within the threshold, whatever refused calls try, no position is ever liquidatable |
| BridgeContract.BridgeAdapter.constructor | contracts/bridge/src/lib.rs:162-185 | a new bridge has nothing locked and no hash processed |
| BridgeContract.BridgeAdapter.IncrementNonce | contracts/bridge/src/lib.rs:90-101 | a user's nonce grows by one |
| BridgeContract.BridgeAdapter.Send | contracts/bridge/src/lib.rs:197-240 | burn, locked total and nonce change together, or nothing does |
| BridgeContract.BridgeAdapter.Release | contracts/bridge/src/lib.rs:249-290 | only the relayer releases, once per hash; mint and bookkeeping together |
| BridgeContract.BridgeAdapter.SetPause | contracts/bridge/src/lib.rs:331-341 | only the admin pauses |
| BridgeContract.BridgeAdapter.ReplaceRelayer | contracts/bridge/src/lib.rs:343-349 | only the admin replaces the relayer |
| BridgeContract.BridgeAdapter.TransferAdmin | contracts/bridge/src/lib.rs:351-355 | only the admin hands over |
| BridgeContract.BridgeAdapter.SetMinimum | contracts/bridge/src/lib.rs:357-366 | only the admin sets a positive minimum |
| BridgeRelay.SorobanListener.PollBridgeEvents | backend/src/bridge-relayer/index.ts:89-134 | the first poll and polls without progress return nothing; otherwise those of the server's page that parse; the cursor advances even when the query fails, and never goes back |
| BridgeRelay.SorobanListener.Relay | backend/src/bridge-relayer/index.ts:356-381 | over any sequence of polls the loop moves the cursor and hands on events as the model of polls does |
| BridgeRelay.HandedOnExactly | backend/src/bridge-relayer/index.ts:89-171 | over any polls an announcement is handed on if and only if its sender is an account and some answered poll, whose cursor has not passed its ledger, has it on the page it reads |
| BridgeRelay.NothingElseLost | backend/src/bridge-relayer/index.ts:89-134 | of the announcements the cursor has passed, one is lost only when its sender is a contract or the poll that passed its ledger failed or cut its page before it |
| BridgeRelay.CursorIsLatest | backend/src/bridge-relayer/index.ts:89-134 | after the first poll the cursor is the latest ledger any poll has named |
| BridgeRelay.ContractSendersAreLost | backend/src/bridge-relayer/index.ts:120-149 | an announcement of a contract is never handed on |
| BridgeRelay.AnnouncementsCanBeLost | backend/src/bridge-relayer/index.ts:89-171 | a run that loses one for each cause |
| BridgeRelay.ShownIsMinted | backend/src/bridge-relayer/index.ts:356-381 | once the loop's mints are delivered, the hash of every announcement by an account shown by some answered poll is minted, and the cross-chain invariant holds |
| BridgeSafety.GuardHolds | contracts/bridge/src/lib.rs:276-281 | the locked total always covers a burn not yet released, so the guarded subtraction always happens |
| BridgeSafety.DeliverOutKeeps | backend/src/bridge-relayer/index.ts:199-218 | any delivery of an announcement to its recipient, repeated or late, keeps the invariant |
| BridgeSafety.DeliverBackKeeps | backend/src/bridge-relayer/index.ts:270-308 | any delivery of a burn, repeated or late, keeps the invariant |
| BridgeSafety.CrossChainSafety | backend/src/bridge-relayer/index.ts:338-382 | in every interleaving 10¹¹·Σ released ≤ Σ burned ≤ Σ minted ≤ 10¹¹·Σ out, locked = Σ out − Σ released, the wrapped supply is backed, no hash is honoured or released twice, and every unreleased burn is covered |
| BridgeSafety.ReleasesAreWorthBurns | backend/src/bridge-relayer/index.ts:264-308 | in every run 10¹¹ · Σ released ≤ Σ burned for them ≤ 10¹¹ · Σ released + (10¹¹ − 1) · number of releases, and Σ minted = 10¹¹ · Σ of the announcements honoured |
| BridgeSafety.DeliverBackExactly | backend/src/bridge-relayer/index.ts:270-308 | a delivered burn is accepted exactly when its worth r, the floor of amount / 10¹¹, is positive and fits 64 bits, the bridge runs, serves the chain and has not seen the hash; the recipient gets r |
| BridgeSafety.DeliverOutExactly | backend/src/bridge-relayer/index.ts:199-218 | an announcement with a new hash mints 10¹¹ per stroop to its recipient; with a known one nothing |
| BridgeSafety.SendExactly | contracts/bridge/src/lib.rs:197-240 | bridging out is accepted exactly when running, at least the minimum and within the balance, to 20 bytes on a chain served; burn, nonce and locked total move by it |
| BridgeSafety.IdleWithoutMinter | contracts/bridge/src/lib.rs:197-290 | in any run a bridge that is not the token's minter announces and releases nothing |
| BridgeSafety.NoncesAreConsecutive | contracts/bridge/src/lib.rs:90-101 | in every run consecutive announcements of a sender have consecutive nonces |
| GovernanceContract.Governance.constructor | contracts/governance/src/lib.rs:156-187 | a new governance has no proposals and reference supply 0 |
| GovernanceContract.Governance.SetReferenceSupply | contracts/governance/src/lib.rs:202-210 | only the admin sets a reference supply, not negative |
| GovernanceContract.Governance.NextProposalId | contracts/governance/src/lib.rs:99-109 | ids are handed out in sequence |
| GovernanceContract.Governance.Create | contracts/governance/src/lib.rs:229-270 | a proposal needs the minimum balance and gets the next id |
| GovernanceContract.Governance.CastVote | contracts/governance/src/lib.rs:273-308 | a vote counts once per voter, in time, with positive weight |
| GovernanceContract.Governance.ExecuteProposal | contracts/governance/src/lib.rs:312-366 | parameter and executed flag change together, only on a passed verdict after the end |
| GovernanceRuns.StepKeepsTallies | contracts/governance/src/lib.rs:229-308 | every call keeps each side = Σ recorded weights of distinct voters who voted in time |
| GovernanceRuns.EnactKeepsExecutions | contracts/governance/src/lib.rs:312-366 | an execution is recorded once, was justified, and sets the parameter to its value |
| GovernanceRuns.StepContinues | contracts/governance/src/lib.rs:273-366 | no call changes a proposal's terms, an ended tally, or an execution |
| GovernanceRuns.VerdictIsFinal | contracts/governance/src/lib.rs:279-347 | after its end a proposal's tally never changes over any run, so its verdict at a fixed supply is the same at every later ledger |
| GovernanceRuns.VerdictExactly | contracts/governance/src/lib.rs:325-347 | a verdict is a majority and, exactly when the reference supply is positive, the quorum |
| GovernanceRuns.ProposeExactly | contracts/governance/src/lib.rs:229-270 | accepted exactly with 100 tokens; opens under the next id, with no votes, from this ledger to a voting period later |
| GovernanceRuns.VoteExactly | contracts/governance/src/lib.rs:273-308 | accepted exactly through the end ledger, once per voter, with weight; adds it to one side |
| GovernanceRuns.ExecuteExactly | contracts/governance/src/lib.rs:312-366 | accepted exactly after the end, once, with a majority and (votes + 1) · 10⁴ > supply · quorum at a positive reference supply; sets the one parameter |
| GovernanceRuns.VotingWindow | contracts/governance/src/lib.rs:229-366 | in every run a proposal takes votes exactly through a voting period from its start and is executed only after it |
| GovernanceRuns.OneBallotEnacts | contracts/governance/src/lib.rs:180-347 | from deployment, with no reference supply, one ballot of one unit enacts a proposal at any quorum and voting period |
| GovernanceRuns.GovernanceInvariant | contracts/governance/src/lib.rs:229-407 | in every run: tallies are recorded weights of distinct voters; each proposal executes at most once and only justified; get_param is the last executed value or empty |
| CohortActivity.CohortAggregator.WalkDays | backend/src/cohort-aggregator/index.ts:391-413 | the loop writes exactly the missing days' running totals of one wallet, clamped at zero |
| CohortActivity.CohortAggregator.Backfill | backend/src/cohort-aggregator/index.ts:375-413 | exactly the missing days of all wallets with history are written; all other rows stay |
| CohortActivity.CohortAggregator.CarryWallet | backend/src/cohort-aggregator/index.ts:508-525 | one wallet's row is the previous day's plus the day's change, clamped at zero |
| CohortActivity.CohortAggregator.RunDailyJob | backend/src/cohort-aggregator/index.ts:449-526 | exactly the wallets seen the day before or active that day get a row; all other rows stay |
| CohortActivity.CarryForward | backend/src/cohort-aggregator/index.ts:500-526 | from a zero start the carried balance is S − min(0, least S so far), for every wallet, day and side |
| CohortActivity.FastAgainstSlow | backend/src/cohort-aggregator/index.ts:391-526 | the carried balance is never below the backfilled row and equals it exactly when no running total was negative or the latest is the least |
| CohortActivity.RowsStayWellFormed | backend/src/cohort-aggregator/index.ts:391-526 | either computation flags a side as active exactly when its amount is positive, and writes no negative amount |
| CohortActivity.CarriedCanExceed | backend/src/cohort-aggregator/index.ts:391-526 | −5 then +5 is carried as 5 and backfilled as 0 |
| CohortActivity.GapForgets | backend/src/cohort-aggregator/index.ts:451-472 | a wallet without a row for the day before gets that day's changes alone; this is the documented balance of all events if and only if the earlier ones cancel out, or change and total are both not positive |
| CohortActivity.GapLosesHistory | backend/src/cohort-aggregator/index.ts:451-526 | a deposit of 5 is gone two days later when the day between was not run |
| DexTwap.SortIsStable | backend/src/dex-integration/index.ts:235-237 | sorting keeps the order of observations made at the same time |
| DexTwap.FindFirst | backend/src/dex-integration/index.ts:243 | the first observation not before the window, or −1 when there is none |
| DexTwap.WeighSegments | backend/src/dex-integration/index.ts:243-269 | the loop's weighted sum is a sum of terms whose weights are positive and add up to exactly the window, for any observations; and it is the sum over every millisecond of the price in force, the first price extended backwards |
| DexTwap.ComputeTwap | backend/src/dex-integration/index.ts:226-284 | fails exactly on a window that is not positive or no observation; otherwise a weighted mean whose weights add up to exactly the window, equal to the average of the step function over it |
| DexTwap.AverageBetween | backend/src/dex-integration/index.ts:269-271 | the average lies between the least and greatest price in force in the window |
| DexTwap.AverageWithinObserved | backend/src/dex-integration/index.ts:269-271 | the average lies between any bounds of the observed prices; of equal prices it is that price |
| DexQuotes.QuoteIsContractOutput | backend/src/dex-integration/index.ts:119-136 | the off-chain quote is the contract's output whenever the contract accepts, and the contract accepts exactly positive quotes below the reserve and at least the minimum |
| DexQuotes.MinimumWithinQuote | backend/src/dex-integration/index.ts:169-170 | the minimum exceeds the quote exactly when a negative slippage adds a whole unit |
| DexQuotes.QuoteExecutes | backend/src/dex-integration/index.ts:138-190 | a quote on current reserves executes at exactly its amount if and only if its output is below the reserve, balances suffice, the minimum is within the quote and, for XLM in, the fee is not zero; for any slippage |
| DexQuotes.QuoteExactly | backend/src/dex-integration/index.ts:119-190 | when a quote exists; its output leaves the floor of k over reserve + net input, its minimum is the floor of output · (10⁴ − slippage) / 10⁴ |

## Left out

- 128-bit overflow panics: integers are unbounded, so a call that would overflow is modelled as succeeding.
- Storage lifetimes, contract upgrades, events as such and address encodings: they do not touch the arithmetic.
- Trustlines, authorisation trees and fees of the token contracts: a token is a balance map whose transfer fails on insufficient funds.
- The wrapped token on the EVM side: modelled by what its interface says, minting once per hash and chain, one announcement per burn.
- Donations are modelled, but a token that takes a fee on transfer or calls back is not.
- Borrow-rate accrual in lending: the stored rate is read by no entry point.
- Vault calls that change nothing modelled here: validator list, treasury address, rate recalibration events.
- Changing the token's minter within a vault run: the vault's supply invariant is about a vault that stays the minter.
- RPC retries, the wire encoding of events and key handling of the relayer: a poll or a mint may simply fail.
- SQL grouping of events into daily deltas, batching of upserts, and the cohort retention and average jobs.
- Floating-point rounding: prices in the time-weighted average are reals, times are integer milliseconds.
- Deviation, confidence labels and display amounts of quotes and oracle snapshots: closed forms of values modelled here.
- Withdrawals queued beyond what the vault holds: the code does not prevent them, and no bound is claimed.
- IntegerSqrt.NewtonSqrt: speed of convergence is not stated, only termination and the result.
