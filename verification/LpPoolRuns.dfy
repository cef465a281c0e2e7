/**
 Runs of the pool: any sequence of calls, clock ticks and transfers by others, and what holds in
 every state they reach.
 */
module LpPoolRuns {
  import opened Wrappers
  import opened Arithmetic
  import opened Sums
  import opened TokenLedger
  import opened LpPoolModel
  import opened LpPoolRewards

  datatype Action =
    | Tick
    | Outside(balances: Bank)
    | Receive(token: Address, from: Address, amount: int)
    | SetProgram(caller: Address, asset: Address, perSecond: int, total: int, start: nat, end: nat)
    | Claim(user: Address)
    | Add(user: Address, xlm: int, sxlm: int)
    | Remove(user: Address, amount: int)
    | SwapXlm(user: Address, amount: int, minOut: int)
    | SwapSxlm(user: Address, amount: int, minOut: int)
    | Collect(caller: Address)
    | SetFee(caller: Address, bps: nat)
    | SetGov(caller: Address, governance: Address)

  /**
   The pool, the clock, and what an observer records: the reserves in force during each elapsed
   second, the tokens transferred in from outside, all rewards paid out per asset, and the
   rewards paid and the debts rewritten by deposits, removals and unpaid claims since the current
   program was set. For the rewards it also notes the share supply of each elapsed second, where the
   seconds before the current program count with the supply that the program found, and the last
   time the pool was settled under it.
   */
  datatype System = System(pool: Pool, now: nat, history: seq<(int, int)>,
                           received: map<Address, int>, rewardsOut: map<Address, int>,
                           paid: int, rewrites: nat, supplies: seq<int>, settled: nat)

  function Start(cfg: Config, bank: Bank): System {
    System(Initial(cfg, bank), 0, [],
           map[cfg.native := Balance(bank, cfg.native, cfg.self), cfg.sxlm := Balance(bank, cfg.sxlm, cfg.self)],
           map[], 0, 0, [], 0)
  }

  /** Token movements among other accounts leave the pool's own balances alone. */
  function Overlay(bank: Bank, outside: Bank, self: Address): Bank {
    (map k | k in outside && k.1 != self :: outside[k]) + (map k | k in bank && k.1 == self :: bank[k])
  }

  function Bump(m: map<Address, int>, k: Address, amount: int): map<Address, int> {
    m[k := Get(m, k) + amount]
  }

  function PayOut(sys: System, s: Pool, reward: int): System
    requires reward > 0 ==> s.program.Some?
  {
    if reward > 0
    then sys.(rewardsOut := Bump(sys.rewardsOut, s.program.value.rewardAsset, reward), paid := sys.paid + reward)
    else sys
  }

  /** One step; a call that panics changes nothing. */
  function Step(sys: System, a: Action): System {
    var s := sys.pool;
    match a
    case Tick => sys.(now := sys.now + 1, history := sys.history + [(s.reserveXlm, s.reserveSxlm)],
                      supplies := sys.supplies + [s.totalLp])
    case Outside(balances) => sys.(pool := s.(bank := Overlay(s.bank, balances, s.cfg.self)))
    case Receive(token, from, amount) =>
      var r := Transfer(s.bank, token, from, s.cfg.self, amount);
      if from == s.cfg.self || r.None? then sys else
        sys.(pool := s.(bank := r.value), received := Bump(sys.received, token, amount))
    case SetProgram(caller, asset, perSecond, total, start, end) =>
      var r := SetMiningProgram(s, caller, asset, perSecond, total, start, end, sys.now);
      if r.None? then sys else
        sys.(pool := r.value, paid := 0, rewrites := 0, supplies := seq(sys.now, _ => s.totalLp), settled := 0)
    case Claim(user) =>
      var r := ClaimRewards(s, user, sys.now);
      if r.None? then sys else
        var rewrote := if r.value.1 == 0 then 1 else 0;
        PayOut(sys, r.value.0, r.value.1).(pool := r.value.0, rewrites := sys.rewrites + rewrote, settled := sys.now)
    case Add(user, xlm, sxlm) =>
      var r := AddLiquidity(s, user, xlm, sxlm, sys.now);
      if r.None? then sys else sys.(pool := r.value.0, rewrites := sys.rewrites + 1, settled := sys.now)
    case Remove(user, amount) =>
      var r := RemoveLiquidity(s, user, amount, sys.now);
      if r.None? then sys else
        PayOut(sys, r.value.0, r.value.1.rewards).(pool := r.value.0, rewrites := sys.rewrites + 1, settled := sys.now)
    case SwapXlm(user, amount, minOut) =>
      var r := SwapXlmToSxlm(s, user, amount, minOut, sys.now);
      if r.None? then sys else sys.(pool := r.value.0)
    case SwapSxlm(user, amount, minOut) =>
      var r := SwapSxlmToXlm(s, user, amount, minOut, sys.now);
      if r.None? then sys else sys.(pool := r.value.0)
    case Collect(caller) =>
      var r := CollectProtocolFees(s, caller);
      if r.None? then sys else sys.(pool := r.value.0)
    case SetFee(caller, bps) => sys.(pool := SetProtocolFee(s, caller, bps).GetOr(s))
    case SetGov(caller, g) => sys.(pool := SetGovernance(s, caller, g).GetOr(s))
  }

  function Run(sys: System, actions: seq<Action>): System
    decreases |actions|
  {
    if actions == [] then sys else Run(Step(sys, actions[0]), actions[1..])
  }

  // ---------- Successful calls as steps ----------

  /** A deposit step that succeeds. */
  lemma AddStep(sys: System, user: Address, xlm: int, sxlm: int)
    requires AddLiquidity(sys.pool, user, xlm, sxlm, sys.now).Some?
    ensures Step(sys, Add(user, xlm, sxlm))
            == sys.(pool := AddLiquidity(sys.pool, user, xlm, sxlm, sys.now).value.0, rewrites := sys.rewrites + 1,
                    settled := sys.now)
  {
    hide AddLiquidity;
  }

  lemma RemoveStep(sys: System, user: Address, amount: int)
    requires RemoveLiquidity(sys.pool, user, amount, sys.now).Some?
    requires var r := RemoveLiquidity(sys.pool, user, amount, sys.now).value; r.1.rewards > 0 ==> r.0.program.Some?
    ensures var (s', w) := RemoveLiquidity(sys.pool, user, amount, sys.now).value;
            Step(sys, Remove(user, amount))
            == PayOut(sys, s', w.rewards).(pool := s', rewrites := sys.rewrites + 1, settled := sys.now)
  {
    hide RemoveLiquidity;
  }

  /** A claim step that pays. */
  lemma ClaimStep(sys: System, user: Address)
    requires ClaimRewards(sys.pool, user, sys.now).Some?
    requires var r := ClaimRewards(sys.pool, user, sys.now).value; r.1 > 0 && r.0.program.Some?
    ensures var (s', reward) := ClaimRewards(sys.pool, user, sys.now).value;
            var sys' := Step(sys, Claim(user));
            sys'.pool == s' && sys'.now == sys.now && sys'.paid == sys.paid + reward && sys'.rewrites == sys.rewrites
  {
    hide ClaimRewards;
  }

  /** A swap step that succeeds. */
  lemma SwapXlmStep(sys: System, user: Address, amount: int)
    requires SwapXlmToSxlm(sys.pool, user, amount, 0, sys.now).Some?
    ensures Step(sys, SwapXlm(user, amount, 0))
            == sys.(pool := SwapXlmToSxlm(sys.pool, user, amount, 0, sys.now).value.0)
  {
    hide SwapXlmToSxlm;
  }

  lemma SwapSxlmStep(sys: System, user: Address, amount: int)
    requires SwapSxlmToXlm(sys.pool, user, amount, 0, sys.now).Some?
    ensures Step(sys, SwapSxlm(user, amount, 0))
            == sys.(pool := SwapSxlmToXlm(sys.pool, user, amount, 0, sys.now).value.0)
  {
    hide SwapSxlmToXlm;
  }

  // ---------- Shares and rewards ----------

  ghost predicate RewardsInv(sys: System) {
    SharesOk(sys.pool) && WithinBudget(sys.pool, sys.paid, sys.rewrites)
  }

  lemma SharesAfter(s: Pool, user: Address, newLp: int, s': Pool)
    requires SharesOk(s) && newLp >= 0
    requires s'.lp == s.lp[user := newLp] && s'.debt == s.debt[user := Accrued(newLp, s.acc)]
    requires s'.acc == s.acc && s'.program == s.program
    requires s'.totalLp == s.totalLp - Get(s.lp, user) + newLp
    ensures SharesOk(s')
  {
    SumUpdate(s.lp, user, newLp);
    FreshDebt(newLp, s.acc);
  }

  lemma SettleKeeps(s: Pool, now: nat, paid: int, rewrites: int)
    requires SharesOk(s) && WithinBudget(s, paid, rewrites)
    ensures SharesOk(Settle(s, now)) && WithinBudget(Settle(s, now), paid, rewrites)
  {
    assert SameMining(s, UpdatePrice(s, now));
    UpdateKeepsBudget(UpdatePrice(s, now), now, paid, rewrites);
  }

  lemma AddMining(s: Pool, user: Address, xlm: int, sxlm: int, now: nat)
    requires AddLiquidity(s, user, xlm, sxlm, now).Some?
    ensures var u := Settle(s, now);
            var (s', d) := AddLiquidity(s, user, xlm, sxlm, now).value;
            var newLp := Get(u.lp, user) + d.minted;
            && d.minted > 0
            && s'.lp == u.lp[user := newLp] && s'.debt == u.debt[user := Accrued(newLp, u.acc)]
            && s'.acc == u.acc && s'.program == u.program && s'.lastRewardTime == u.lastRewardTime
            && s'.totalLp == u.totalLp + d.minted
  {
    hide Settle, DepositShares, Transfer;
  }

  lemma RemoveMining(s: Pool, user: Address, amount: int, now: nat)
    requires RemoveLiquidity(s, user, amount, now).Some?
    ensures var u := Settle(s, now);
            var (s', w) := RemoveLiquidity(s, user, amount, now).value;
            var newLp := Get(u.lp, user) - amount;
            && (w.rewards > 0 ==> s'.program.Some?)
            && newLp >= 0 && 0 <= w.rewards == AutoClaim(u, user)
            && s'.lp == u.lp[user := newLp] && s'.debt == u.debt[user := Accrued(newLp, u.acc)]
            && s'.acc == u.acc && s'.program == u.program && s'.lastRewardTime == u.lastRewardTime
            && s'.totalLp == u.totalLp - amount
  {
    hide Settle, Transfer;
  }

  /** A deposit or a removal after settlement: one user's balance changes and its debt is rewritten. */
  lemma PositionChange(u: Pool, s': Pool, user: Address, newLp: int, reward: int, paid: int, rewrites: int)
    requires SharesOk(u) && WithinBudget(u, paid, rewrites) && newLp >= 0
    requires 0 <= reward && (reward > 0 ==> reward == Accrued(Get(u.lp, user), u.acc) - Get(u.debt, user))
    requires s'.lp == u.lp[user := newLp] && s'.debt == u.debt[user := Accrued(newLp, u.acc)]
    requires s'.acc == u.acc && s'.program == u.program
    requires s'.totalLp == u.totalLp - Get(u.lp, user) + newLp
    ensures SharesOk(s') && WithinBudget(s', paid + reward, rewrites + 1)
  {
    SharesAfter(u, user, newLp, s');
    RewriteKeepsBudget(u, s', user, newLp, reward, paid, rewrites);
  }

  lemma AddKeepsRewards(sys: System, user: Address, xlm: int, sxlm: int)
    requires RewardsInv(sys)
    ensures RewardsInv(Step(sys, Add(user, xlm, sxlm)))
  {
    var r := AddLiquidity(sys.pool, user, xlm, sxlm, sys.now);
    if r.Some? {
      hide Step, AddLiquidity, Settle, SharesOk, WithinBudget;
      AddStep(sys, user, xlm, sxlm);
      AddMining(sys.pool, user, xlm, sxlm, sys.now);
      SettleKeeps(sys.pool, sys.now, sys.paid, sys.rewrites);
      var u := Settle(sys.pool, sys.now);
      SharesNonNegative(u, user);
      PositionChange(u, r.value.0, user, Get(u.lp, user) + r.value.1.minted, 0, sys.paid, sys.rewrites);
    } else {
      hide AddLiquidity, SharesOk, WithinBudget;
      assert Step(sys, Add(user, xlm, sxlm)) == sys;
    }
  }

  lemma SharesNonNegative(s: Pool, user: Address)
    requires SharesOk(s)
    ensures 0 <= Get(s.lp, user) <= s.totalLp
  {
    SumNonNegative(s.lp);
  }

  lemma RemoveKeepsRewards(sys: System, user: Address, amount: int)
    requires RewardsInv(sys)
    ensures RewardsInv(Step(sys, Remove(user, amount)))
  {
    var r := RemoveLiquidity(sys.pool, user, amount, sys.now);
    if r.Some? {
      hide Step, RemoveLiquidity, Settle, SharesOk, WithinBudget;
      RemoveMining(sys.pool, user, amount, sys.now);
      RemoveStep(sys, user, amount);
      SettleKeeps(sys.pool, sys.now, sys.paid, sys.rewrites);
      var u := Settle(sys.pool, sys.now);
      PositionChange(u, r.value.0, user, Get(u.lp, user) - amount, r.value.1.rewards, sys.paid, sys.rewrites);
    } else {
      hide RemoveLiquidity, SharesOk, WithinBudget;
      assert Step(sys, Remove(user, amount)) == sys;
    }
  }

  lemma ClaimMining(s: Pool, user: Address, now: nat)
    requires ClaimRewards(s, user, now).Some?
    ensures var u := UpdatePool(s, now);
            var (s', reward) := ClaimRewards(s, user, now).value;
            && s'.lp == u.lp && s'.debt == u.debt[user := Accrued(Get(u.lp, user), u.acc)]
            && s'.acc == u.acc && s'.program == u.program && s'.lastRewardTime == u.lastRewardTime
            && s'.totalLp == u.totalLp
            && 0 <= reward
            && (reward > 0 ==> user in u.lp && reward == Accrued(u.lp[user], u.acc) - Get(u.debt, user))
  {
    hide UpdatePool, Accrued, Transfer;
  }

  lemma ClaimKeepsRewards(sys: System, user: Address)
    requires RewardsInv(sys)
    ensures RewardsInv(Step(sys, Claim(user)))
  {
    var r := ClaimRewards(sys.pool, user, sys.now);
    if r.Some? {
      ClaimMining(sys.pool, user, sys.now);
      var u := UpdatePool(sys.pool, sys.now);
      UpdateKeepsBudget(sys.pool, sys.now, sys.paid, sys.rewrites);
      hide ClaimRewards, UpdatePool;
      var (s', reward) := r.value;
      FreshDebt(Get(u.lp, user), u.acc);
      if reward > 0 {
        ClaimKeepsBudget(u, s', user, sys.paid, sys.rewrites);
      } else {
        ClaimWithoutPay(u, s', user);
      }
    }
  }

  /** A claim that pays nothing writes a debt but no balance; an absent balance counts as zero. */
  lemma ClaimWithoutPay(u: Pool, s': Pool, user: Address)
    requires SharesOk(u)
    requires s'.lp == u.lp && s'.debt == u.debt[user := Accrued(Get(u.lp, user), u.acc)] && s'.acc == u.acc
    ensures Outstanding(s') <= Outstanding(u) + (PRECISION - 1)
  {
    var lp := Get(u.lp, user);
    RewriteOne(u, user, lp);
    FreshDebt(lp, u.acc);
    if user in u.lp {
      assert u.lp[user := lp] == u.lp;
    } else {
      assert Claims(s'.lp, s'.debt, s'.acc) == Claims(u.lp, u.debt, u.acc);
    }
  }

  lemma SetProgramKeepsRewards(sys: System, a: Action)
    requires RewardsInv(sys) && a.SetProgram?
    ensures RewardsInv(Step(sys, a))
  {
    UpdatePoolShape(sys.pool, sys.now);
    var s' := Step(sys, a).pool;
    var r := SetMiningProgram(sys.pool, a.caller, a.asset, a.perSecond, a.total, a.start, a.end, sys.now);
    if r.Some? {
      SumZero(Claims(s'.lp, s'.debt, 0));
    }
  }

  /** What a step that concerns neither shares nor rewards keeps. */
  predicate MiningKept(sys: System, sys': System) {
    SameMining(sys.pool, sys'.pool) && sys'.paid == sys.paid && sys'.rewrites == sys.rewrites
  }

  lemma XlmSwapKeepsMining(sys: System, a: Action)
    requires a.SwapXlm?
    ensures MiningKept(sys, Step(sys, a))
  {
    hide CheckedOut, TransferBoth, ProtocolCut, Price;
  }

  lemma SxlmSwapKeepsMining(sys: System, a: Action)
    requires a.SwapSxlm?
    ensures MiningKept(sys, Step(sys, a))
  {
    hide CheckedOut, TransferBoth, Price;
  }

  lemma OthersKeepMining(sys: System, a: Action)
    requires !a.Add? && !a.Remove? && !a.Claim? && !a.SetProgram?
    ensures MiningKept(sys, Step(sys, a))
  {
    if a.SwapXlm? {
      XlmSwapKeepsMining(sys, a);
    } else if a.SwapSxlm? {
      SxlmSwapKeepsMining(sys, a);
    } else {
      hide Transfer, Overlay, SwapXlmToSxlm, SwapSxlmToXlm, AddLiquidity, RemoveLiquidity, ClaimRewards, SetMiningProgram;
    }
  }

  lemma OthersKeepClock(sys: System, a: Action)
    requires !a.Tick? && !a.Add? && !a.Remove? && !a.Claim? && !a.SetProgram?
    ensures var sys' := Step(sys, a);
            && sys'.now == sys.now && sys'.supplies == sys.supplies && sys'.settled == sys.settled
            && sys'.pool.lastRewardTime == sys.pool.lastRewardTime
  {
    hide Transfer, Overlay, CheckedOut, TransferBoth, ProtocolCut, Price;
  }

  lemma StepKeepsRewards(sys: System, a: Action)
    requires RewardsInv(sys)
    ensures RewardsInv(Step(sys, a))
  {
    match a
    case Add(user, xlm, sxlm) => AddKeepsRewards(sys, user, xlm, sxlm);
    case Remove(user, amount) => RemoveKeepsRewards(sys, user, amount);
    case Claim(user) => ClaimKeepsRewards(sys, user);
    case SetProgram(_, _, _, _, _, _) => SetProgramKeepsRewards(sys, a);
    case _ =>
      OthersKeepMining(sys, a);
      hide Step;
  }

  lemma {:induction false} RunKeepsRewards(sys: System, actions: seq<Action>)
    requires RewardsInv(sys)
    ensures RewardsInv(Run(sys, actions))
    decreases |actions|
  {
    if actions != [] {
      StepKeepsRewards(sys, actions[0]);
      RunKeepsRewards(Step(sys, actions[0]), actions[1..]);
    }
  }

  /**
   In every run, share balances add up to the supply, and the rewards paid since a program was set
   exceed its budget by less than one unit per debt rewrite; never with at most one rewrite.
   */
  lemma RewardBudget(cfg: Config, bank: Bank, actions: seq<Action>)
    ensures var sys := Run(Start(cfg, bank), actions);
            && SharesOk(sys.pool)
            && WithinBudget(sys.pool, sys.paid, sys.rewrites)
            && sys.paid <= Distributed(sys.pool) + Max(0, sys.rewrites - 1)
            && (sys.rewrites <= 1 ==> sys.paid <= Distributed(sys.pool))
            && (sys.pool.program.Some? ==>
                  sys.paid <= sys.pool.program.value.totalRewards + Max(0, sys.rewrites - 1))
  {
    var sys := Start(cfg, bank);
    assert Claims(map[], map[], 0) == map[];
    RunKeepsRewards(sys, actions);
    var end := Run(sys, actions);
    BudgetBoundsPayouts(end.pool, end.paid, end.rewrites);
  }
}
