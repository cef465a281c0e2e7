/**
 What a mining program distributes and what a position earns of it, in seconds, rates and shares:
 rewards are neither lost nor invented beyond rounding.
 */
module LpPoolProgram {
  import opened Wrappers
  import opened Arithmetic
  import opened Sums
  import opened TokenLedger
  import opened LpPoolModel
  import opened LpPoolFrames
  import opened LpPoolRewards
  import opened LpPoolRuns

  // ---------- What is distributed ----------

  /** The seconds from, ..., until - 1 in which there were shares. */
  function Earning(supplies: seq<int>, from: int, until: int): nat
    decreases until - from
  {
    if until <= from then 0 else
      Earning(supplies, from, until - 1) + if 0 <= until - 1 < |supplies| && supplies[until - 1] > 0 then 1 else 0
  }

  lemma {:induction false} EarningSplit(supplies: seq<int>, from: int, mid: int, until: int)
    requires from <= mid <= until
    ensures Earning(supplies, from, until) == Earning(supplies, from, mid) + Earning(supplies, mid, until)
    decreases until - mid
  {
    if mid < until {
      EarningSplit(supplies, from, mid, until - 1);
    }
  }

  lemma {:induction false} EarningConstant(supplies: seq<int>, from: int, until: int, supply: int)
    requires 0 <= from <= until <= |supplies| && forall t | from <= t < until :: supplies[t] == supply
    ensures Earning(supplies, from, until) == if supply > 0 then until - from else 0
    decreases until - from
  {
    if from < until {
      EarningConstant(supplies, from, until - 1, supply);
    }
  }

  lemma {:induction false} EarningPrefix(supplies: seq<int>, more: seq<int>, from: int, until: int)
    requires until <= |supplies|
    ensures Earning(supplies + more, from, until) == Earning(supplies, from, until)
    decreases until - from
  {
    if from < until {
      EarningPrefix(supplies, more, from, until - 1);
    }
  }

  /** How far the rewards are accounted for. */
  function Accounted(p: Program, settled: nat): nat {
    Max(p.startTime, Min(settled, p.endTime))
  }

  /**
   The program has distributed its rate for each second with shares up to the last settlement, within
   its budget; the supply has not changed since.
   */
  ghost predicate ProgramInv(sys: System) {
    var s := sys.pool;
    && |sys.supplies| == sys.now && sys.settled <= sys.now
    && s.totalLp >= 0
    && (s.program.Some? ==>
          var p := s.program.value;
          var last := Accounted(p, sys.settled);
          && p.startTime < p.endTime && p.rewardPerSecond > 0 && 0 <= p.distributed <= p.totalRewards
          && s.lastRewardTime == Some(last)
          && p.distributed == Min(p.totalRewards, p.rewardPerSecond * Earning(sys.supplies, p.startTime, last))
          && forall t | last <= t < sys.now && t < p.endTime :: sys.supplies[t] == s.totalLp)
  }

  /** An update brings the distributed total to the present. */
  lemma UpdateDistributes(s: Pool, p: Program, last: nat, now: nat, counted: nat, seconds: nat)
    requires s.program == Some(p) && s.lastRewardTime == Some(last) && s.totalLp >= 0
    requires p.rewardPerSecond > 0 && 0 <= p.distributed <= p.totalRewards
    requires p.distributed == Min(p.totalRewards, p.rewardPerSecond * counted)
    requires seconds == if last < now && s.totalLp > 0 && last < p.endTime then Min(now, p.endTime) - last else 0
    ensures var u := UpdatePool(s, now);
            && u.lastRewardTime == Some(if now <= last || last >= p.endTime then last else Min(now, p.endTime))
            && u.program == Some(p.(distributed := Min(p.totalRewards, p.rewardPerSecond * (counted + seconds))))
            && u.totalLp == s.totalLp
  {
    MulDistributes(p.rewardPerSecond, counted, seconds);
    MulPositive(p.rewardPerSecond, seconds);
    hide Quot;
  }

  lemma SettleDistributes(sys: System, s: Pool)
    requires ProgramInv(sys) && sys.pool.program.Some?
    requires s.program == sys.pool.program && s.lastRewardTime == sys.pool.lastRewardTime && s.totalLp == sys.pool.totalLp
    ensures var u := UpdatePool(s, sys.now);
            var p := sys.pool.program.value;
            var last := Accounted(p, sys.now);
            && u.lastRewardTime == Some(last)
            && u.program == Some(p.(distributed :=
                 Min(p.totalRewards, p.rewardPerSecond * Earning(sys.supplies, p.startTime, last))))
  {
    var p := s.program.value;
    var last := Accounted(p, sys.settled);
    var next := Accounted(p, sys.now);
    EarningSplit(sys.supplies, p.startTime, last, next);
    if last < next {
      EarningConstant(sys.supplies, last, next, s.totalLp);
    }
    UpdateDistributes(s, p, last, sys.now, Earning(sys.supplies, p.startTime, last), Earning(sys.supplies, last, next));
  }

  /** What a settling call leaves: the program of the updated pool, and any supply. */
  lemma SettledKeeps(sys: System, s: Pool, sys': System)
    requires ProgramInv(sys) && sys'.supplies == sys.supplies && sys'.now == sys.now && sys'.settled == sys.now
    requires s.program == sys.pool.program && s.lastRewardTime == sys.pool.lastRewardTime && s.totalLp == sys.pool.totalLp
    requires var u := UpdatePool(s, sys.now);
             sys'.pool.program == u.program && sys'.pool.lastRewardTime == u.lastRewardTime
    requires sys'.pool.totalLp >= 0
    ensures ProgramInv(sys')
  {
    if s.program.Some? {
      SettleDistributes(sys, s);
      MulPositive(s.program.value.rewardPerSecond,
                  Earning(sys.supplies, s.program.value.startTime, Accounted(s.program.value, sys.now)));
    }
    hide UpdatePool, Earning;
  }

  lemma AddKeepsProgram(sys: System, a: Action)
    requires ProgramInv(sys) && a.Add?
    ensures ProgramInv(Step(sys, a))
  {
    var r := AddLiquidity(sys.pool, a.user, a.xlm, a.sxlm, sys.now);
    if r.Some? {
      hide AddLiquidity, Step, UpdatePool, UpdatePrice, ProgramInv;
      AddStep(sys, a.user, a.xlm, a.sxlm);
      AddMining(sys.pool, a.user, a.xlm, a.sxlm, sys.now);
      PriceKeepsMining(sys.pool, sys.now);
      SupplyStays(sys, sys.now);
      SettledKeeps(sys, UpdatePrice(sys.pool, sys.now), Step(sys, a));
    } else {
      hide AddLiquidity;
      assert Step(sys, a) == sys;
    }
  }

  lemma SupplyStays(sys: System, now: nat)
    requires ProgramInv(sys)
    ensures Settle(sys.pool, now).totalLp == sys.pool.totalLp >= 0
  {
    SettleKeepsHoldings(sys.pool, now);
  }

  lemma RemoveKeepsProgram(sys: System, a: Action)
    requires ProgramInv(sys) && SharesOk(sys.pool) && a.Remove?
    ensures ProgramInv(Step(sys, a))
  {
    var r := RemoveLiquidity(sys.pool, a.user, a.amount, sys.now);
    if r.Some? {
      hide RemoveLiquidity, Step, UpdatePool, UpdatePrice, ProgramInv;
      RemoveMining(sys.pool, a.user, a.amount, sys.now);
      RemoveStep(sys, a.user, a.amount);
      PriceKeepsMining(sys.pool, sys.now);
      SettleKeepsHoldings(sys.pool, sys.now);
      SharesNonNegative(sys.pool, a.user);
      SettledKeeps(sys, UpdatePrice(sys.pool, sys.now), Step(sys, a));
    } else {
      hide RemoveLiquidity;
      assert Step(sys, a) == sys;
    }
  }

  lemma ClaimKeepsProgram(sys: System, a: Action)
    requires ProgramInv(sys) && a.Claim?
    ensures ProgramInv(Step(sys, a))
  {
    var r := ClaimRewards(sys.pool, a.user, sys.now);
    if r.Some? {
      ClaimMining(sys.pool, a.user, sys.now);
      UpdateKeepsHoldings(sys.pool, sys.now);
      hide ClaimRewards, UpdatePool;
      var sys' := Step(sys, a);
      assert sys'.pool == r.value.0 && sys'.settled == sys.now && sys'.supplies == sys.supplies;
      hide Step;
      SettledKeeps(sys, sys.pool, sys');
    } else {
      hide ClaimRewards;
      assert Step(sys, a) == sys;
    }
  }

  lemma TickKeepsProgram(sys: System)
    requires ProgramInv(sys)
    ensures ProgramInv(Step(sys, Tick))
  {
    var s := sys.pool;
    var sys' := Step(sys, Tick);
    if s.program.Some? {
      var p := s.program.value;
      var last := Accounted(p, sys.settled);
      if last <= sys.now {
        EarningPrefix(sys.supplies, [s.totalLp], p.startTime, last);
      }
    }
  }

  lemma SetProgramKeepsProgram(sys: System, a: Action)
    requires ProgramInv(sys) && a.SetProgram?
    ensures ProgramInv(Step(sys, a))
  {
    UpdateKeepsHoldings(sys.pool, sys.now);
    hide UpdatePool;
  }

  lemma OthersKeepProgram(sys: System, a: Action)
    requires ProgramInv(sys) && !a.Tick? && !a.Add? && !a.Remove? && !a.Claim? && !a.SetProgram?
    ensures ProgramInv(Step(sys, a))
  {
    OthersKeepMining(sys, a);
    OthersKeepClock(sys, a);
    hide Step;
  }

  lemma StepKeepsProgram(sys: System, a: Action)
    requires ProgramInv(sys) && SharesOk(sys.pool)
    ensures ProgramInv(Step(sys, a))
  {
    hide ProgramInv, Step, SharesOk;
    match a
    case Tick => TickKeepsProgram(sys);
    case Add(_, _, _) => AddKeepsProgram(sys, a);
    case Remove(_, _) => RemoveKeepsProgram(sys, a);
    case Claim(_) => ClaimKeepsProgram(sys, a);
    case SetProgram(_, _, _, _, _, _) => SetProgramKeepsProgram(sys, a);
    case _ => OthersKeepProgram(sys, a);
  }

  lemma {:induction false} RunKeepsProgram(sys: System, actions: seq<Action>)
    requires ProgramInv(sys) && RewardsInv(sys)
    ensures ProgramInv(Run(sys, actions))
    decreases |actions|
  {
    if actions != [] {
      StepKeepsProgram(sys, actions[0]);
      StepKeepsRewards(sys, actions[0]);
      hide Step, ProgramInv, RewardsInv;
      RunKeepsProgram(Step(sys, actions[0]), actions[1..]);
    }
  }

  /**
   In every run the program in force has distributed, within its budget, exactly its rate for each
   second, from its start up to the last call that settled the pool and before its end, in which
   there were shares.
   */
  lemma DistributedExactly(cfg: Config, bank: Bank, actions: seq<Action>)
    ensures var sys := Run(Start(cfg, bank), actions);
            sys.pool.program.Some? ==>
              var p := sys.pool.program.value;
              p.distributed
              == Min(p.totalRewards, p.rewardPerSecond * Earning(sys.supplies, p.startTime, Min(sys.settled, p.endTime)))
  {
    var start := Start(cfg, bank);
    assert Claims(map[], map[], 0) == map[];
    RunKeepsProgram(start, actions);
  }

  // ---------- What a position earns ----------

  /** The seconds of the program from one time to another. */
  function ProgramSeconds(p: Program, from: nat, until: nat): nat {
    Max(0, Min(until, p.endTime) - Accounted(p, from))
  }

  /** The rewards of those seconds, within what is left of the budget. */
  function Gain(p: Program, from: nat, until: nat): int {
    Min(p.rewardPerSecond * ProgramSeconds(p, from, until), p.totalRewards - p.distributed)
  }

  /** One update at a positive supply raises the accumulator by the floor of the gain per share. */
  lemma UpdateGains(s: Pool, p: Program, from: nat, until: nat)
    requires s.program == Some(p) && s.lastRewardTime == Some(Accounted(p, from)) && s.totalLp > 0
    requires p.startTime < p.endTime && p.rewardPerSecond > 0 && p.distributed <= p.totalRewards
    ensures Gain(p, from, until) >= 0
    ensures IsFloor(UpdatePool(s, until).acc - s.acc, Gain(p, from, until) * 1_000_000_000_000, s.totalLp)
  {
    MulPositive(p.rewardPerSecond, ProgramSeconds(p, from, until));
    QuotIsFloor(Gain(p, from, until) * PRECISION, s.totalLp);
    assert Quot(0, s.totalLp) == 0;
    hide Quot, IsFloor;
  }

  /** A reward within d units of accumulator per share, which is at most the gain. */
  lemma RewardAtMost(lp: int, d: int, total: int, gain: int, r: int)
    requires 0 <= lp && 0 < total
    requires d * total <= gain * PRECISION && r * PRECISION < lp * d + PRECISION
    ensures r * total < lp * gain + total
  {
    MulLe(r * PRECISION + 1, lp * d + PRECISION, total);
    MulDistributes(total, r * PRECISION, 1);
    MulDistributes(total, lp * d, PRECISION);
    MulLe(d * total, gain * PRECISION, lp);
    Reorder(lp, d, total);
    Reorder(d, total, lp);
    Reorder(r, PRECISION, total);
    Reorder(gain, PRECISION, lp);
    Reorder(lp, gain, PRECISION);
    if r * total >= lp * gain + total {
      MulLe(lp * gain + total, r * total, PRECISION);
      MulDistributes(PRECISION, lp * gain, total);
    }
  }

  /** A reward of at least d units of accumulator per share, which is short of the gain by less than n. */
  lemma RewardAtLeast(lp: int, d: int, total: int, gain: int, r: int, n: int)
    requires 0 <= lp && 0 < total
    requires gain * PRECISION < (d + n) * total && (r + 1) * PRECISION > lp * d
    ensures (r + 1) * total * PRECISION + n * lp * total > lp * gain * PRECISION
  {
    MulLe(lp * d + 1, (r + 1) * PRECISION, total);
    MulDistributes(total, lp * d, 1);
    MulLe(gain * PRECISION, (d + n) * total, lp);
    MulDistributes(total, d, n);
    MulDistributes(lp, d * total, n * total);
    Reorder(lp, d, total);
    Reorder(d, total, lp);
    Reorder(n, total, lp);
    Reorder(n, lp, total);
    Reorder(r + 1, PRECISION, total);
    Reorder(gain, PRECISION, lp);
    Reorder(lp, gain, PRECISION);
    MulCommutes(lp, d * total);
    MulCommutes(lp, d * total + n * total);
  }

  /** From the floors of debt, accrual and accumulator to the reward, in shares of the gain. */
  lemma RewardBetween(lp: int, acc1: int, acc2: int, total: int, gain: int, n: int, debt: int, accrued: int)
    requires 0 <= lp && 0 < total && 0 <= gain
    requires (acc2 - acc1) * total <= gain * PRECISION < (acc2 - acc1 + n) * total
    requires IsFloor(debt, lp * acc1, PRECISION) && IsFloor(accrued, lp * acc2, PRECISION)
    ensures (accrued - debt) * total < lp * gain + total
    ensures (accrued - debt + 1) * total * PRECISION + n * lp * total > lp * gain * PRECISION
  {
    var d, r := acc2 - acc1, accrued - debt;
    MulDistributes(lp, acc2, -acc1);
    MulCommutes(lp, d);
    MulCommutes(lp, acc2);
    MulCommutes(lp, acc1);
    assert r * PRECISION < lp * d + PRECISION && (r + 1) * PRECISION > lp * d;
    hide IsFloor;
    RewardAtMost(lp, d, total, gain, r);
    RewardAtLeast(lp, d, total, gain, r, n);
  }

  lemma {:induction false} UpdateAllKeepsShares(s: Pool, times: seq<nat>)
    requires SharesOk(s)
    ensures SharesOk(UpdateAll(s, times))
    ensures UpdateAll(s, times).lp == s.lp && UpdateAll(s, times).debt == s.debt
  {
    if times != [] {
      UpdateAllKeepsShares(s, times[..|times| - 1]);
      UpdatePoolShape(UpdateAll(s, times[..|times| - 1]), times[|times| - 1]);
      ProjectionIsUpdate(UpdateAll(s, times[..|times| - 1]), times[|times| - 1]);
      hide UpdatePool, SharesOk;
    }
  }

  /** Updates behind by a few units of accumulator: what the view then reads. */
  lemma ViewAfterUpdates(s: Pool, times: seq<nat>, user: Address)
    requires SharesOk(s) && s.totalLp > 0 && times != [] && NonDecreasing(times)
    ensures var many := UpdateAll(s, times);
            var lp := Get(s.lp, user);
            PendingRewards(many, user, times[|times| - 1])
            == if lp == 0 then 0 else Max(0, Accrued(lp, many.acc) - Get(s.debt, user))
  {
    var until := times[|times| - 1];
    var one, many := UpdatePool(s, until), UpdateAll(s, times);
    SplitPeriod(s, times);
    UpdateAllKeepsShares(s, times);
    UpdateIgnoresAcc(one, many, until);
    UpdateSettles(s, until);
    ProjectionIsUpdate(many, until);
    hide UpdatePool, UpdateAll, ProjectedAcc, Accrued, SharesOk;
  }

  /**
   Between a claim and a later time, at a constant supply and with the pool updated any number of
   times, a position earns its share of the program's rate for the seconds in between: less than one
   unit more, and less only by one unit and the rounding of the updates.
   */
  lemma PositionEarns(sys: System, user: Address, times: seq<nat>)
    requires ProgramInv(sys) && SharesOk(sys.pool) && sys.pool.totalLp > 0 && sys.pool.program.Some?
    requires ClaimRewards(sys.pool, user, sys.now).Some?
    requires times != [] && NonDecreasing(times)
    ensures var s := ClaimRewards(sys.pool, user, sys.now).value.0;
            var until := times[|times| - 1];
            var pending := PendingRewards(UpdateAll(s, times), user, until);
            var lp, total := Get(sys.pool.lp, user), sys.pool.totalLp;
            && s.program.Some?
            && var gain := Gain(s.program.value, sys.now, until);
            && pending * total < lp * gain + total
            && (pending + 1) * total * 1_000_000_000_000 + |times| * lp * total > lp * gain * 1_000_000_000_000
  {
    var s := ClaimRewards(sys.pool, user, sys.now).value.0;
    var until := times[|times| - 1];
    var lp, total := Get(sys.pool.lp, user), sys.pool.totalLp;
    hide ProgramInv, UpdatePool, UpdateAll, ClaimRewards, SharesOk, Gain, PendingRewards, IsFloor, Accrued, Get, NonDecreasing;
    ClaimSettles(sys, user);
    PositionEarnsFrom(s, user, sys.now, times);
  }

  lemma PositionEarnsFrom(s: Pool, user: Address, from: nat, times: seq<nat>)
    requires SharesOk(s) && s.totalLp > 0 && s.program.Some? && s.lastRewardTime == Some(Accounted(s.program.value, from))
    requires var p := s.program.value;
             p.startTime < p.endTime && p.rewardPerSecond > 0 && p.distributed <= p.totalRewards
    requires Get(s.debt, user) == Accrued(Get(s.lp, user), s.acc)
    requires times != [] && NonDecreasing(times)
    ensures var until := times[|times| - 1];
            var pending := PendingRewards(UpdateAll(s, times), user, until);
            var lp, total, gain := Get(s.lp, user), s.totalLp, Gain(s.program.value, from, until);
            && pending * total < lp * gain + total
            && (pending + 1) * total * PRECISION + |times| * lp * total > lp * gain * PRECISION
  {
    var until := times[|times| - 1];
    hide UpdatePool, UpdateAll, SharesOk, Gain, PendingRewards, IsFloor, Accrued, Get;
    UpdateGains(s, s.program.value, from, until);
    SplitPeriod(s, times);
    ViewAfterUpdates(s, times, user);
    UpdateAllKeepsShares(s, times);
    SharesAndAcc(s, user);
    SharesAndAcc(UpdateAll(s, times), user);
    EarnedBetween(Get(s.lp, user), s.acc, UpdatePool(s, until).acc, UpdateAll(s, times).acc, s.totalLp,
                  Gain(s.program.value, from, until), |times|);
  }

  lemma SharesAndAcc(s: Pool, user: Address)
    requires SharesOk(s)
    ensures Get(s.lp, user) >= 0 && s.acc >= 0
  {
    SharesNonNegative(s, user);
  }

  lemma EarnedBetween(lp: int, acc: int, one: int, many: int, total: int, gain: int, n: nat)
    requires 0 <= lp && 0 < total && 0 <= gain && 0 <= acc && 0 <= many && 1 <= n
    requires IsFloor(one - acc, gain * PRECISION, total) && one - (n - 1) <= many <= one
    ensures var pending := if lp == 0 then 0 else Max(0, Accrued(lp, many) - Accrued(lp, acc));
            && pending * total < lp * gain + total
            && (pending + 1) * total * PRECISION + n * lp * total > lp * gain * PRECISION
  {
    MulPositive(lp, acc);
    MulPositive(lp, many);
    MulPositive(lp, gain);
    QuotIsFloor(lp * acc, PRECISION);
    QuotIsFloor(lp * many, PRECISION);
    MulLe(many - acc, one - acc, total);
    MulLe(one - acc + 1, many - acc + n, total);
    var debt, accrued := Accrued(lp, acc), Accrued(lp, many);
    hide Accrued, Quot;
    RewardBetween(lp, acc, many, total, gain, n, debt, accrued);
    var pending := if lp == 0 then 0 else Max(0, accrued - debt);
    MulLe(accrued - debt + 1, pending + 1, total);
    MulLe((accrued - debt + 1) * total, (pending + 1) * total, PRECISION);
  }

  /** After a claim the debt is the accrual at a settled accumulator, and the clock is the claim's. */
  lemma ClaimSettles(sys: System, user: Address)
    requires ProgramInv(sys) && SharesOk(sys.pool) && sys.pool.program.Some?
    requires ClaimRewards(sys.pool, user, sys.now).Some?
    ensures var s := ClaimRewards(sys.pool, user, sys.now).value.0;
            && SharesOk(s) && s.lp == sys.pool.lp && s.totalLp == sys.pool.totalLp
            && Get(s.debt, user) == Accrued(Get(s.lp, user), s.acc)
            && s.program.Some? && s.lastRewardTime == Some(Accounted(s.program.value, sys.now))
            && s.program.value.startTime < s.program.value.endTime && s.program.value.rewardPerSecond > 0
            && s.program.value.distributed <= s.program.value.totalRewards
  {
    ClaimMining(sys.pool, user, sys.now);
    UpdateKeepsHoldings(sys.pool, sys.now);
    SettleDistributes(sys, sys.pool);
    UpdatePoolShape(sys.pool, sys.now);
    var u := UpdatePool(sys.pool, sys.now);
    SharesNonNegative(u, user);
    FreshDebt(Get(u.lp, user), u.acc);
    hide UpdatePool, ClaimRewards, Accrued;
  }
}
