/**
 Liquidity mining: what the reward accumulator owes, and how far payouts can run ahead of the
 rewards distributed.
 */
module LpPoolRewards {
  import opened Wrappers
  import opened Arithmetic
  import opened Sums
  import opened TokenLedger
  import opened LpPoolModel
  import opened LpPoolFrames

  // ---------- The bookkeeping every step keeps ----------

  /** Share balances add up to the supply; balances, debts and the accumulator are not negative. */
  ghost predicate SharesOk(s: Pool) {
    && Sum(s.lp) == s.totalLp
    && NonNegative(s.lp)
    && NonNegative(s.debt)
    && s.acc >= 0
    && (s.program.None? ==> s.acc == 0)
    && (s.program.Some? ==>
        var p := s.program.value;
        p.rewardPerSecond > 0 && 0 <= p.distributed <= p.totalRewards)
  }

  function Distributed(s: Pool): int {
    if s.program.None? then 0 else s.program.value.distributed
  }

  /** What one position can still claim, scaled; a debt above the accrual counts as nothing. */
  function Claimable(lp: int, acc: int, debt: int): int {
    Max(0, lp * acc - PRECISION * debt)
  }

  function Claims(lp: map<Address, int>, debt: map<Address, int>, acc: int): map<Address, int> {
    map u | u in lp :: Claimable(lp[u], acc, Get(debt, u))
  }

  ghost function Outstanding(s: Pool): int {
    Sum(Claims(s.lp, s.debt, s.acc))
  }

  /**
   The budget: what was paid and what is still claimable is covered by what was distributed and
   less than one unit for each debt that a deposit, a removal or an unpaid claim rewrote.
   */
  ghost predicate WithinBudget(s: Pool, paid: int, rewrites: int) {
    PRECISION * paid + Outstanding(s) <= PRECISION * Distributed(s) + (PRECISION - 1) * rewrites
  }

  /** The budget depends on nothing but shares, debts, the accumulator and the program. */
  predicate SameMining(s: Pool, s': Pool) {
    s.totalLp == s'.totalLp && s.lp == s'.lp && s.debt == s'.debt && s.acc == s'.acc && s.program == s'.program
  }

  lemma OutstandingNonNegative(s: Pool)
    ensures 0 <= Outstanding(s)
  {
    SumNonNegative(Claims(s.lp, s.debt, s.acc));
  }

  // ---------- The accumulator ----------

  lemma AccrualBound(lp: int, acc: int, gain: int, debt: int)
    requires lp >= 0 && gain >= 0
    ensures Claimable(lp, acc + gain, debt) <= Claimable(lp, acc, debt) + gain * lp
  {
    assert lp * (acc + gain) == lp * acc + gain * lp;
    assert 0 <= gain * lp;
  }

  /** Raising the accumulator raises all claims together by at most the gain per share. */
  lemma ClaimsGrow(s: Pool, gain: int)
    requires SharesOk(s) && gain >= 0
    ensures Sum(Claims(s.lp, s.debt, s.acc + gain)) <= Outstanding(s) + gain * s.totalLp
  {
    forall u | u in s.lp
      ensures Claimable(s.lp[u], s.acc + gain, Get(s.debt, u))
              <= Claimable(s.lp[u], s.acc, Get(s.debt, u)) + gain * s.lp[u]
    {
      AccrualBound(s.lp[u], s.acc, gain, Get(s.debt, u));
    }
    SumLinearBound(Claims(s.lp, s.debt, s.acc + gain), Claims(s.lp, s.debt, s.acc), s.lp, gain);
  }

  lemma UpdatePoolShape(s: Pool, now: nat)
    requires SharesOk(s)
    ensures var u := UpdatePool(s, now);
            && SharesOk(u)
            && (SameMining(s, u)
                || (&& s.totalLp > 0
                    && Distributed(u) > Distributed(s)
                    && u == s.(acc := s.acc + Quot((Distributed(u) - Distributed(s)) * PRECISION, s.totalLp),
                               lastRewardTime := u.lastRewardTime, program := u.program)))
  {
    SumNonNegative(s.lp);
    var u := UpdatePool(s, now);
    if !SameMining(s, u) {
      QuotFloor((Distributed(u) - Distributed(s)) * PRECISION, s.totalLp);
    }
  }

  /** Updating the pool hands out no more than it books as distributed. */
  lemma UpdateKeepsBudget(s: Pool, now: nat, paid: int, rewrites: int)
    requires SharesOk(s) && WithinBudget(s, paid, rewrites)
    ensures SharesOk(UpdatePool(s, now)) && WithinBudget(UpdatePool(s, now), paid, rewrites)
  {
    UpdatePoolShape(s, now);
    var u := UpdatePool(s, now);
    if !SameMining(s, u) {
      var reward := Distributed(u) - Distributed(s);
      var gain := Quot(reward * PRECISION, s.totalLp);
      QuotFloor(reward * PRECISION, s.totalLp);
      ClaimsGrow(s, gain);
    }
  }

  // ---------- Debt rewrites ----------

  /** Right after its debt is rewritten a position can claim less than one unit. */
  lemma FreshDebt(lp: int, acc: int)
    requires lp >= 0 && acc >= 0
    ensures Accrued(lp, acc) >= 0
    ensures 0 <= lp * acc - PRECISION * Accrued(lp, acc) < PRECISION
    ensures Claimable(lp, acc, Accrued(lp, acc)) == lp * acc - PRECISION * Accrued(lp, acc)
  {
    assert lp * acc >= 0;
    QuotFloor(lp * acc, PRECISION);
  }

  /** Giving a user a new balance and a fresh debt replaces only that user's claim. */
  lemma RewriteOne(s: Pool, user: Address, newLp: int)
    requires SharesOk(s) && newLp >= 0
    ensures var debt := s.debt[user := Accrued(newLp, s.acc)];
            var left := newLp * s.acc - PRECISION * Accrued(newLp, s.acc);
            && NonNegative(debt)
            && 0 <= left < PRECISION
            && Sum(Claims(s.lp[user := newLp], debt, s.acc))
               == Outstanding(s) - Claimable(Get(s.lp, user), s.acc, Get(s.debt, user)) + left
  {
    FreshDebt(newLp, s.acc);
    var debt := s.debt[user := Accrued(newLp, s.acc)];
    var left := newLp * s.acc - PRECISION * Accrued(newLp, s.acc);
    var before := Claims(s.lp, s.debt, s.acc);
    assert Claims(s.lp[user := newLp], debt, s.acc) == before[user := left];
    SumUpdate(before, user, left);
    if user in s.lp {
      assert Get(before, user) == Claimable(s.lp[user], s.acc, Get(s.debt, user));
    } else {
      assert Get(s.debt, user) >= 0;
      assert Get(before, user) == 0 == Claimable(0, s.acc, Get(s.debt, user));
    }
  }

  /** A debt rewrite, whether or not it first pays what accrued, costs less than one unit of budget. */
  lemma RewriteKeepsBudget(s: Pool, s': Pool, user: Address, newLp: int, reward: int, paid: int, rewrites: int)
    requires 0 <= reward && (reward > 0 ==> reward == Accrued(Get(s.lp, user), s.acc) - Get(s.debt, user))
    requires SharesOk(s) && WithinBudget(s, paid, rewrites) && newLp >= 0
    requires s'.lp == s.lp[user := newLp] && s'.debt == s.debt[user := Accrued(newLp, s.acc)]
    requires s'.acc == s.acc && s'.program == s.program
    ensures WithinBudget(s', paid + reward, rewrites + 1)
  {
    RewriteOne(s, user, newLp);
    FreshDebt(Get(s.lp, user), s.acc);
  }

  /** A claim that pays uses exactly the budget it releases. */
  lemma ClaimKeepsBudget(s: Pool, s': Pool, user: Address, paid: int, rewrites: int)
    requires SharesOk(s) && WithinBudget(s, paid, rewrites) && user in s.lp
    requires s'.lp == s.lp && s'.debt == s.debt[user := Accrued(s.lp[user], s.acc)]
    requires s'.acc == s.acc && s'.program == s.program
    ensures var reward := Accrued(s.lp[user], s.acc) - Get(s.debt, user);
            reward > 0 ==> WithinBudget(s', paid + reward, rewrites)
  {
    RewriteOne(s, user, s.lp[user]);
    assert s.lp[user := s.lp[user]] == s.lp;
    FreshDebt(s.lp[user], s.acc);
  }

  /**
   Payouts exceed the rewards distributed by less than the number of debt rewrites; with at most
   one rewrite they do not exceed them at all.
   */
  lemma BudgetBoundsPayouts(s: Pool, paid: int, rewrites: nat)
    requires SharesOk(s) && WithinBudget(s, paid, rewrites)
    ensures paid <= Distributed(s) + Max(0, rewrites - 1)
    ensures s.program.Some? ==> paid <= s.program.value.totalRewards + Max(0, rewrites - 1)
  {
    OutstandingNonNegative(s);
  }

  // ---------- The view and the claim agree ----------

  lemma ProjectionIsUpdate(s: Pool, now: nat)
    ensures ProjectedAcc(s, now) == UpdatePool(s, now).acc
    ensures UpdatePool(s, now).lp == s.lp && UpdatePool(s, now).debt == s.debt
    ensures UpdatePool(s, now).bank == s.bank && UpdatePool(s, now).program.Some? == s.program.Some?
  {
  }

  /** A second update at the same time changes nothing. */
  lemma UpdateSettles(s: Pool, now: nat)
    ensures UpdatePool(UpdatePool(s, now), now).acc == UpdatePool(s, now).acc
  {
  }

  /**
   A claim pays exactly what the view reports at that time, leaves nothing pending, and fails
   only when the pool cannot cover a positive amount.
   */
  lemma ViewMatchesClaim(s: Pool, user: Address, now: nat)
    requires SharesOk(s) && user != s.cfg.self
    ensures var pending := PendingRewards(s, user, now);
            var claim := ClaimRewards(s, user, now);
            && (claim.Some? ==> claim.value.1 == pending && PendingRewards(claim.value.0, user, now) == 0)
            && (claim.None? <==>
                pending > 0
                && Balance(s.bank, UpdatePool(s, now).program.value.rewardAsset, s.cfg.self) < pending)
  {
    ProjectionIsUpdate(s, now);
    UpdatePoolShape(s, now);
    var u := UpdatePool(s, now);
    var lp := Get(s.lp, user);
    FreshDebt(lp, u.acc);
    var claim := ClaimRewards(s, user, now);
    if claim.Some? {
      var s' := claim.value.0;
      UpdateSettles(s, now);
      ProjectionIsUpdate(s', now);
      assert UpdatePool(s', now).acc == u.acc;
    }
  }

  /** What is pending for a user in a token. */
  function PendingIn(s: Pool, user: Address, token: Address, now: nat): int {
    if s.program.Some? && s.program.value.rewardAsset == token then PendingRewards(s, user, now) else 0
  }

  /** What a user has of a token: the balance and what is pending. */
  function Entitled(s: Pool, user: Address, token: Address, now: nat): int {
    Balance(s.bank, token, user) + PendingIn(s, user, token, now)
  }

  /** What a deposit takes of a token. */
  function Taken(cfg: Config, d: Deposit, token: Address): int {
    (if token == cfg.native then d.xlm else 0) + (if token == cfg.sxlm then d.sxlm else 0)
  }

  /** A claim turns what is pending into balance: nobody is worse off for claiming. */
  lemma ClaimLosesNothing(s: Pool, user: Address, token: Address, now: nat)
    requires SharesOk(s) && ClaimRewards(s, user, now).Some?
    ensures Entitled(ClaimRewards(s, user, now).value.0, user, token, now) == Entitled(s, user, token, now)
  {
    var (s', paid) := ClaimRewards(s, user, now).value;
    ViewMatchesClaim(s, user, now);
    UpdateKeepsHoldings(s, now);
    var u := UpdatePool(s, now);
    if paid > 0 {
      TransferMoves(u.bank, u.program.value.rewardAsset, u.cfg.self, user, paid);
    }
    hide PendingRewards, UpdatePool, Accrued, Transfer;
  }

  /** Nothing is pending without a program, whose accumulator is zero. */
  lemma NoProgramNothingPending(s: Pool, user: Address, now: nat)
    requires SharesOk(s) && s.program.None?
    ensures PendingRewards(s, user, now) == 0
  {
    assert Get(s.lp, user) * s.acc == 0;
  }

  /**
   A deposit moves exactly the two amounts it takes and leaves nothing pending, so exactly what was
   pending before is lost; nothing is lost if and only if nothing was pending.
   */
  lemma DepositForfeits(s: Pool, user: Address, xlm: int, sxlm: int, now: nat)
    requires SharesOk(s) && AddLiquidity(s, user, xlm, sxlm, now).Some?
    ensures var (s', d) := AddLiquidity(s, user, xlm, sxlm, now).value;
            && TransferBoth(s.bank, s.cfg.native, user, s.cfg.self, d.xlm,
                            s.cfg.sxlm, user, s.cfg.self, d.sxlm) == Some(s'.bank)
            && PendingRewards(s', user, now) == 0
            && (forall token ::
                  Entitled(s', user, token, now) + Taken(s.cfg, d, token)
                  == Entitled(s, user, token, now) - PendingIn(s, user, token, now))
            && ((forall token :: Entitled(s', user, token, now) + Taken(s.cfg, d, token) == Entitled(s, user, token, now))
                <==> PendingRewards(s, user, now) == 0)
  {
    var (s', d) := AddLiquidity(s, user, xlm, sxlm, now).value;
    SettleKeepsHoldings(s, now);
    NothingPendingAfterDeposit(s, user, xlm, sxlm, now);
    if s.program.None? {
      NoProgramNothingPending(s, user, now);
    }
    hide Settle, DepositShares, PendingRewards, Credit;
    forall token
      ensures Balance(s'.bank, token, user) + Taken(s.cfg, d, token) == Balance(s.bank, token, user)
    {
      TransferMoves(s.bank, s.cfg.native, user, s.cfg.self, d.xlm);
      var first := Transfer(s.bank, s.cfg.native, user, s.cfg.self, d.xlm).value;
      TransferMoves(first, s.cfg.sxlm, user, s.cfg.self, d.sxlm);
    }
    hide AddLiquidity, Taken;
    if PendingRewards(s, user, now) != 0 {
      var token := s.program.value.rewardAsset;
      assert Entitled(s', user, token, now) + Taken(s.cfg, d, token) != Entitled(s, user, token, now);
    }
  }

  /** A position whose debt was rewritten after settling has nothing pending at that time. */
  lemma FreshPosition(u: Pool, s': Pool, user: Address, now: nat)
    requires var v := UpdatePool(u, now);
             s'.program == v.program && s'.lastRewardTime == v.lastRewardTime && s'.acc == v.acc
    requires Get(s'.debt, user) == Accrued(Get(s'.lp, user), s'.acc)
    ensures PendingRewards(s', user, now) == 0
  {
    ProjectionIsUpdate(s', now);
    SettledStays(u, s', now);
    hide UpdatePool, ProjectedAcc, Accrued;
  }

  lemma NothingPendingAfterDeposit(s: Pool, user: Address, xlm: int, sxlm: int, now: nat)
    requires AddLiquidity(s, user, xlm, sxlm, now).Some?
    ensures PendingRewards(AddLiquidity(s, user, xlm, sxlm, now).value.0, user, now) == 0
  {
    hide Transfer, DepositShares, UpdatePrice, UpdatePool, TransferBoth, Accrued, PendingRewards;
    FreshPosition(UpdatePrice(s, now), AddLiquidity(s, user, xlm, sxlm, now).value.0, user, now);
  }

  /** A removal pays exactly what was pending and leaves nothing. */
  lemma RemovalPaysPending(s: Pool, user: Address, amount: int, now: nat)
    requires SharesOk(s) && RemoveLiquidity(s, user, amount, now).Some?
    ensures var (s', w) := RemoveLiquidity(s, user, amount, now).value;
            w.rewards == PendingRewards(s, user, now) && PendingRewards(s', user, now) == 0
  {
    AutoClaimIsPending(s, user, now);
    NothingPendingAfterRemoval(s, user, amount, now);
    hide Settle, PendingRewards, AutoClaim, Transfer, TransferBoth, Quot;
  }

  /** After settling, the unclaimed rewards of a removal are what the view reported. */
  lemma AutoClaimIsPending(s: Pool, user: Address, now: nat)
    requires SharesOk(s)
    ensures Get(s.lp, user) > 0 ==> AutoClaim(Settle(s, now), user) == PendingRewards(s, user, now)
    ensures Settle(s, now).lp == s.lp
  {
    var u := UpdatePrice(s, now);
    PriceKeepsMining(s, now);
    ProjectionIsUpdate(s, now);
    ProjectionIsUpdate(u, now);
    ProjectionIgnoresPrice(s, u, now);
    if s.program.None? {
      NoProgramNothingPending(s, user, now);
    }
    hide UpdatePrice, UpdatePool, ProjectedAcc, Accrued;
  }

  lemma ProjectionIgnoresPrice(s: Pool, u: Pool, now: nat)
    requires u.totalLp == s.totalLp && u.acc == s.acc && u.program == s.program && u.lastRewardTime == s.lastRewardTime
    ensures ProjectedAcc(u, now) == ProjectedAcc(s, now)
  {
    hide Quot, WindowReward;
  }

  lemma NothingPendingAfterRemoval(s: Pool, user: Address, amount: int, now: nat)
    requires RemoveLiquidity(s, user, amount, now).Some?
    ensures PendingRewards(RemoveLiquidity(s, user, amount, now).value.0, user, now) == 0
  {
    hide Transfer, UpdatePrice, UpdatePool, TransferBoth, AutoClaim, PayRewards, Quot, Accrued, PendingRewards;
    FreshPosition(UpdatePrice(s, now), RemoveLiquidity(s, user, amount, now).value.0, user, now);
  }

  lemma PriceKeepsMining(s: Pool, now: nat)
    ensures var u := UpdatePrice(s, now);
            && u.totalLp == s.totalLp && u.lp == s.lp && u.debt == s.debt && u.acc == s.acc
            && u.program == s.program && u.lastRewardTime == s.lastRewardTime
  {
    hide Price;
  }

  /** The accumulator of a settled pool does not move again at the same time, whatever its supply. */
  lemma SettledStays(u: Pool, s': Pool, now: nat)
    requires var v := UpdatePool(u, now);
             s'.program == v.program && s'.lastRewardTime == v.lastRewardTime && s'.acc == v.acc
    ensures UpdatePool(s', now).acc == s'.acc
  {
    hide Quot, WindowReward;
  }

  // ---------- Splitting a period ----------

  /** One update at each of the given times. */
  function UpdateAll(s: Pool, times: seq<nat>): Pool {
    if times == [] then s else UpdatePool(UpdateAll(s, times[..|times| - 1]), times[|times| - 1])
  }

  predicate NonDecreasing(times: seq<nat>) {
    forall i, j | 0 <= i < j < |times| :: times[i] <= times[j]
  }

  lemma SplitFloors(a: int, b: int, total: int)
    requires a >= 0 && b >= 0 && total > 0
    ensures Quot(a + b, total) - 1 <= Quot(a, total) + Quot(b, total) <= Quot(a + b, total)
  {
    QuotFloor(a, total);
    QuotFloor(b, total);
    hide Quot;
    var qa, qb := Quot(a, total), Quot(b, total);
    MulDistributes(total, qa, qb);
    MulDistributes(total, qa + qb, 2);
    QuotAtLeast(a + b, total, qa + qb);
    QuotAtLeast(a + b, total, qa + qb + 2);
  }

  lemma SplitReward(p: Program, first: nat, second: nat)
    requires p.rewardPerSecond > 0 && p.distributed <= p.totalRewards
    ensures var r := WindowReward(p, first);
            && r >= 0
            && WindowReward(p.(distributed := p.distributed + r), second) >= 0
            && r + WindowReward(p.(distributed := p.distributed + r), second) == WindowReward(p, first + second)
  {
    assert p.rewardPerSecond * (first + second) == p.rewardPerSecond * first + p.rewardPerSecond * second;
    assert p.rewardPerSecond * first >= 0 && p.rewardPerSecond * second >= 0;
  }

  /** An update within the program, at a positive supply: a window without reward changes nothing else. */
  lemma UpdateInWindow(s: Pool, p: Program, last: nat, now: nat)
    requires s.program == Some(p) && s.lastRewardTime.GetOr(p.startTime) == last && s.totalLp > 0
    requires last < now && last < p.endTime && WindowReward(p, Min(now, p.endTime) - last) >= 0
    ensures var reward := WindowReward(p, Min(now, p.endTime) - last);
            UpdatePool(s, now) == s.(acc := s.acc + Quot(reward * PRECISION, s.totalLp),
                                     lastRewardTime := Some(Min(now, p.endTime)),
                                     program := Some(p.(distributed := p.distributed + reward)))
  {
    assert Quot(0, s.totalLp) == 0;
    hide Quot, WindowReward;
  }

  lemma SplitOnce(s: Pool, t1: nat, t2: nat)
    requires SharesOk(s) && s.totalLp > 0 && t1 <= t2
    ensures var one := UpdatePool(s, t2);
            var two := UpdatePool(UpdatePool(s, t1), t2);
            && two.program == one.program
            && two.lastRewardTime == one.lastRewardTime
            && one.acc - 1 <= two.acc <= one.acc
  {
    if s.program.Some? && s.lastRewardTime.GetOr(s.program.value.startTime) < Min(t1, s.program.value.endTime) {
      SplitInWindow(s, s.program.value, s.lastRewardTime.GetOr(s.program.value.startTime), t1, t2);
    } else {
      assert UpdatePool(s, t1) == s;
    }
  }

  /** Two updates within the program; the second may find it ended or no time passed. */
  lemma SplitInWindow(s: Pool, p: Program, last: nat, t1: nat, t2: nat)
    requires s.program == Some(p) && s.lastRewardTime.GetOr(p.startTime) == last && s.totalLp > 0
    requires p.rewardPerSecond > 0 && p.distributed <= p.totalRewards
    requires t1 <= t2 && last < Min(t1, p.endTime)
    ensures var one := UpdatePool(s, t2);
            var two := UpdatePool(UpdatePool(s, t1), t2);
            && two.program == one.program
            && two.lastRewardTime == one.lastRewardTime
            && one.acc - 1 <= two.acc <= one.acc
  {
    var mid, end := Min(t1, p.endTime), Min(t2, p.endTime);
    SplitWindow(s, p, last, mid, end);
    UpdateInWindow(s, p, last, t1);
    UpdateInWindow(s, p, last, t2);
    var s1 := UpdatePool(s, t1);
    if mid < end {
      hide UpdatePool, Quot, WindowReward;
      UpdateInWindow(s1, s1.program.value, mid, t2);
    } else {
      assert UpdatePool(s1, t2) == s1;
    }
  }

  /** The rewards and the accumulator gains of two adjoining windows. */
  lemma SplitWindow(s: Pool, p: Program, last: nat, mid: nat, end: nat)
    requires p.rewardPerSecond > 0 && p.distributed <= p.totalRewards && s.totalLp > 0
    requires last <= mid <= end
    ensures var r1 := WindowReward(p, mid - last);
            var r2 := WindowReward(p.(distributed := p.distributed + r1), end - mid);
            && r1 >= 0 && r2 >= 0 && r1 + r2 == WindowReward(p, end - last)
            && Quot((r1 + r2) * PRECISION, s.totalLp) - 1
               <= Quot(r1 * PRECISION, s.totalLp) + Quot(r2 * PRECISION, s.totalLp)
               <= Quot((r1 + r2) * PRECISION, s.totalLp)
  {
    SplitReward(p, mid - last, end - mid);
    var r1 := WindowReward(p, mid - last);
    var r2 := WindowReward(p.(distributed := p.distributed + r1), end - mid);
    SplitFloors(r1 * PRECISION, r2 * PRECISION, s.totalLp);
  }

  /** An update adds the same to any accumulator when the rest of the state agrees. */
  lemma UpdateIgnoresAcc(s: Pool, s': Pool, now: nat)
    requires s' == s.(acc := s'.acc)
    ensures UpdatePool(s', now) == UpdatePool(s, now).(acc := UpdatePool(s, now).acc + s'.acc - s.acc)
  {
    hide Quot, WindowReward;
  }

  /** One update more, on a state that is behind by a few units of accumulator, loses at most one more. */
  lemma SplitMore(s: Pool, many: Pool, t1: nat, t2: nat, lost: nat)
    requires SharesOk(s) && s.totalLp > 0 && t1 <= t2
    requires many == UpdatePool(s, t1).(acc := many.acc)
    requires UpdatePool(s, t1).acc - lost <= many.acc <= UpdatePool(s, t1).acc
    ensures var one, more := UpdatePool(s, t2), UpdatePool(many, t2);
            && more == one.(acc := more.acc)
            && one.acc - (lost + 1) <= more.acc <= one.acc
  {
    SplitOnce(s, t1, t2);
    UpdateIgnoresAcc(UpdatePool(s, t1), many, t2);
    OnlyRewardsMove(s, t1, t2);
    hide UpdatePool, SharesOk;
  }

  lemma OnlyRewardsMove(s: Pool, t1: nat, t2: nat)
    ensures var one, two := UpdatePool(s, t2), UpdatePool(UpdatePool(s, t1), t2);
            two == one.(acc := two.acc, program := two.program, lastRewardTime := two.lastRewardTime)
  {
    Untouched(s, t1);
    Untouched(s, t2);
    Untouched(UpdatePool(s, t1), t2);
    hide UpdatePool;
  }

  lemma Untouched(s: Pool, now: nat)
    ensures var u := UpdatePool(s, now);
            u == s.(acc := u.acc, program := u.program, lastRewardTime := u.lastRewardTime)
  {
    hide Quot, WindowReward;
  }

  /**
   Splitting a period into any number of updates at an unchanged positive supply distributes
   exactly the same total and loses less than one unit of accumulator per extra update.
   */
  lemma {:induction false} SplitPeriod(s: Pool, times: seq<nat>)
    requires SharesOk(s) && s.totalLp > 0
    requires times != [] && NonDecreasing(times)
    ensures var one := UpdatePool(s, times[|times| - 1]);
            var many := UpdateAll(s, times);
            && many == one.(acc := many.acc)
            && one.acc - (|times| - 1) <= many.acc <= one.acc
  {
    var n := |times| - 1;
    if n == 0 {
      assert UpdateAll(s, times[..0]) == s;
    } else {
      hide UpdatePool, SharesOk;
      var prefix := times[..n];
      SplitPeriod(s, prefix);
      SplitMore(s, UpdateAll(s, prefix), times[n - 1], times[n], n - 1);
    }
  }
}
