/** What the pool holds against what its storage says, and why no step divides by zero. */
module LpPoolCustody {
  import opened Wrappers
  import opened Arithmetic
  import opened Sums
  import opened TokenLedger
  import opened LpPoolModel
  import opened LpPoolFrames
  import opened LpPoolShares
  import opened LpPoolSwaps
  import opened LpPoolRewards
  import opened LpPoolRuns

  // ---------- Balances held ----------

  function Held(s: Pool, token: Address): int {
    Balance(s.bank, token, s.cfg.self)
  }

  /** What the pool's balance of a token must be, besides what storage accounts for. */
  function Extra(sys: System, token: Address): int {
    Get(sys.received, token) - Get(sys.rewardsOut, token)
  }

  /**
   The native balance is the XLM reserve and the accrued protocol fees, the sXLM balance is the
   sXLM reserve; transfers from outside and rewards paid in a pool token are counted separately.
   */
  predicate Custody(sys: System) {
    var s := sys.pool;
    && s.cfg.native != s.cfg.sxlm
    && s.cfg.admin != s.cfg.self
    && Held(s, s.cfg.native) == s.reserveXlm + s.accruedFees + Extra(sys, s.cfg.native)
    && Held(s, s.cfg.sxlm) == s.reserveSxlm + Extra(sys, s.cfg.sxlm)
  }

  /** Two transfers of different tokens between the pool and one user. */
  lemma PairMoves(bank: Bank, token1: Address, from1: Address, to1: Address, amount1: int,
                  token2: Address, from2: Address, to2: Address, amount2: int, self: Address)
    requires token1 != token2 && from1 != to1 && from2 != to2
    requires self in {from1, to1} && self in {from2, to2}
    requires TransferBoth(bank, token1, from1, to1, amount1, token2, from2, to2, amount2).Some?
    ensures var bank' := TransferBoth(bank, token1, from1, to1, amount1, token2, from2, to2, amount2).value;
            && Balance(bank', token1, self)
               == Balance(bank, token1, self) + (if self == to1 then amount1 else -amount1)
            && Balance(bank', token2, self)
               == Balance(bank, token2, self) + (if self == to2 then amount2 else -amount2)
  {
    TransferMoves(bank, token1, from1, to1, amount1);
    var first := Transfer(bank, token1, from1, to1, amount1).value;
    TransferMoves(first, token2, from2, to2, amount2);
  }

  lemma AddKeepsCustody(sys: System, a: Action)
    requires Custody(sys) && a.Add?
    ensures Custody(Step(sys, a))
  {
    var s := sys.pool;
    var r := AddLiquidity(s, a.user, a.xlm, a.sxlm, sys.now);
    if r.Some? {
      SettleKeepsHoldings(s, sys.now);
      hide Settle, DepositShares, TransferBoth;
      var d := r.value.1;
      PairMoves(s.bank, s.cfg.native, a.user, s.cfg.self, d.xlm, s.cfg.sxlm, a.user, s.cfg.self, d.sxlm, s.cfg.self);
    }
  }

  /** What the payments of a removal do to the pool's two balances. */
  lemma RemovalPayments(u: Pool, user: Address, amount: int)
    requires user != u.cfg.self && u.cfg.native != u.cfg.sxlm
    requires RemoveSettled(u, user, amount).Some?
    ensures var (s', w) := RemoveSettled(u, user, amount).value;
            var paidIn := (token: Address) =>
              if w.rewards > 0 && u.program.value.rewardAsset == token then w.rewards else 0;
            && (w.rewards > 0 ==> u.program.Some?)
            && Balance(s'.bank, u.cfg.native, u.cfg.self) == Held(u, u.cfg.native) - paidIn(u.cfg.native) - w.xlm
            && Balance(s'.bank, u.cfg.sxlm, u.cfg.self) == Held(u, u.cfg.sxlm) - paidIn(u.cfg.sxlm) - w.sxlm
  {
    var w := RemoveSettled(u, user, amount).value.1;
    var bank := PayRewards(u, user, w.rewards).value;
    if w.rewards > 0 {
      TransferMoves(u.bank, u.program.value.rewardAsset, u.cfg.self, user, w.rewards);
    }
    hide Transfer, TransferBoth, Accrued, Quot;
    PairMoves(bank, u.cfg.native, u.cfg.self, user, w.xlm, u.cfg.sxlm, u.cfg.self, user, w.sxlm, u.cfg.self);
  }

  lemma RemoveKeepsCustody(sys: System, a: Action)
    requires Custody(sys) && a.Remove?
    ensures Custody(Step(sys, a))
  {
    var s := sys.pool;
    if RemoveLiquidity(s, a.user, a.amount, sys.now).Some? {
      var (s', w) := RemoveLiquidity(s, a.user, a.amount, sys.now).value;
      RemovalShape(s, a.user, a.amount, sys.now);
      hide RemoveLiquidity, RemoveSettled, Settle, Step;
      SettleKeepsHoldings(s, sys.now);
      RemovalPayments(Settle(s, sys.now), a.user, a.amount);
      RemoveStep(sys, a.user, a.amount);
    } else {
      hide RemoveLiquidity;
      assert Step(sys, a) == sys;
    }
  }

  lemma RemovalShape(s: Pool, user: Address, amount: int, now: nat)
    requires RemoveLiquidity(s, user, amount, now).Some?
    ensures user != s.cfg.self && RemoveSettled(Settle(s, now), user, amount) == RemoveLiquidity(s, user, amount, now)
    ensures var (s', w) := RemoveLiquidity(s, user, amount, now).value;
            && s'.cfg == s.cfg && s'.accruedFees == s.accruedFees
            && (w.rewards > 0 ==> s'.program.Some? && s'.program == Settle(s, now).program)
            && s'.reserveXlm == s.reserveXlm - w.xlm && s'.reserveSxlm == s.reserveSxlm - w.sxlm
  {
    SettleKeepsHoldings(s, now);
    hide Settle, TransferBoth, Transfer, Quot, Accrued, PayRewards;
  }

  lemma SwapXlmKeepsCustody(sys: System, a: Action)
    requires Custody(sys) && a.SwapXlm?
    ensures Custody(Step(sys, a))
  {
    var s := sys.pool;
    var r := SwapXlmToSxlm(s, a.user, a.amount, a.minOut, sys.now);
    PriceKeepsHoldings(s, sys.now);
    hide CheckedOut, TransferBoth, Transfer, UpdatePrice, ProtocolCut;
    if r.Some? {
      PairMoves(s.bank, s.cfg.native, a.user, s.cfg.self, a.amount,
                s.cfg.sxlm, s.cfg.self, a.user, r.value.1, s.cfg.self);
    }
  }

  lemma SwapSxlmKeepsCustody(sys: System, a: Action)
    requires Custody(sys) && a.SwapSxlm?
    ensures Custody(Step(sys, a))
  {
    var s := sys.pool;
    var r := SwapSxlmToXlm(s, a.user, a.amount, a.minOut, sys.now);
    PriceKeepsHoldings(s, sys.now);
    hide CheckedOut, TransferBoth, Transfer, UpdatePrice;
    if r.Some? {
      PairMoves(s.bank, s.cfg.sxlm, a.user, s.cfg.self, a.amount,
                s.cfg.native, s.cfg.self, a.user, r.value.1, s.cfg.self);
    }
  }

  lemma ClaimKeepsCustody(sys: System, a: Action)
    requires Custody(sys) && a.Claim?
    ensures Custody(Step(sys, a))
  {
    var s := sys.pool;
    var u := UpdatePool(s, sys.now);
    UpdateKeepsHoldings(s, sys.now);
    hide UpdatePool, Accrued;
    var r := ClaimRewards(s, a.user, sys.now);
    if r.Some? && r.value.1 > 0 {
      TransferMoves(u.bank, u.program.value.rewardAsset, s.cfg.self, a.user, r.value.1);
    }
  }

  lemma PaymentKeepsCustody(sys: System, a: Action)
    requires Custody(sys) && (a.Receive? || a.Collect?)
    ensures Custody(Step(sys, a))
  {
    var s := sys.pool;
    if a.Receive? {
      if a.from != s.cfg.self && Transfer(s.bank, a.token, a.from, s.cfg.self, a.amount).Some? {
        TransferMoves(s.bank, a.token, a.from, s.cfg.self, a.amount);
      }
    } else if CollectProtocolFees(s, a.caller).Some? && s.accruedFees > 0 {
      TransferMoves(s.bank, s.cfg.native, s.cfg.self, s.cfg.admin, s.accruedFees);
    }
  }

  lemma SettingsKeepCustody(sys: System, a: Action)
    requires Custody(sys)
    requires a.Tick? || a.Outside? || a.SetProgram? || a.SetFee? || a.SetGov?
    ensures Custody(Step(sys, a))
  {
    UpdateKeepsHoldings(sys.pool, sys.now);
    hide UpdatePool;
  }

  lemma StepKeepsCustody(sys: System, a: Action)
    requires Custody(sys)
    ensures Custody(Step(sys, a))
  {
    hide Step, Custody;
    match a
    case Add(_, _, _) => AddKeepsCustody(sys, a);
    case Remove(_, _) => RemoveKeepsCustody(sys, a);
    case SwapXlm(_, _, _) => SwapXlmKeepsCustody(sys, a);
    case SwapSxlm(_, _, _) => SwapSxlmKeepsCustody(sys, a);
    case Claim(_) => ClaimKeepsCustody(sys, a);
    case Receive(_, _, _) => PaymentKeepsCustody(sys, a);
    case Collect(_) => PaymentKeepsCustody(sys, a);
    case _ => SettingsKeepCustody(sys, a);
  }

  lemma {:induction false} RunKeepsCustody(sys: System, actions: seq<Action>)
    requires Custody(sys)
    ensures Custody(Run(sys, actions))
    decreases |actions|
  {
    if actions != [] {
      StepKeepsCustody(sys, actions[0]);
      RunKeepsCustody(Step(sys, actions[0]), actions[1..]);
    }
  }

  // ---------- Reserves and shares ----------

  /** The protocol fee after a call is within the swap fee. */
  predicate FeeBounded(sys: System, a: Action) {
    Step(sys, a).pool.protocolFeeBps <= Step(sys, a).pool.cfg.feeBps
  }

  /** Runs in which the protocol fee in force stays within the swap fee; refused calls may try anything. */
  predicate FeesBounded(sys: System, actions: seq<Action>)
    decreases |actions|
  {
    actions == [] || (FeeBounded(sys, actions[0]) && FeesBounded(Step(sys, actions[0]), actions[1..]))
  }

  ghost predicate ReservesInv(sys: System) {
    Balanced(sys.pool) && FeesInRange(sys.pool) && SharesOk(sys.pool)
  }

  lemma AddKeepsBalance(sys: System, a: Action)
    requires ReservesInv(sys) && a.Add?
    ensures Balanced(Step(sys, a).pool) && FeesInRange(Step(sys, a).pool)
  {
    var s := sys.pool;
    SettleKeepsHoldings(s, sys.now);
    hide Settle, TransferBoth, Quot;
  }

  lemma RemoveKeepsBalance(sys: System, a: Action)
    requires ReservesInv(sys) && a.Remove?
    ensures Balanced(Step(sys, a).pool) && FeesInRange(Step(sys, a).pool)
  {
    var s := sys.pool;
    if RemoveLiquidity(s, a.user, a.amount, sys.now).Some? {
      SharesNonNegative(s, a.user);
      RemovalRates(s, a.user, a.amount, sys.now);
      SettleKeepsHoldings(s, sys.now);
      hide Settle, TransferBoth, Transfer, Balanced;
    }
  }

  lemma SwapXlmKeepsBalance(sys: System, a: Action)
    requires ReservesInv(sys) && a.SwapXlm?
    ensures Balanced(Step(sys, a).pool) && FeesInRange(Step(sys, a).pool)
  {
    var s := sys.pool;
    if a.amount > 0 {
      FeeSplit(a.amount, s.cfg.feeBps, s.protocolFeeBps);
    }
    hide TransferBoth, Price, ProtocolCut, AfterFee, SwapOut, SharesOk;
  }

  lemma SwapSxlmKeepsBalance(sys: System, a: Action)
    requires ReservesInv(sys) && a.SwapSxlm?
    ensures Balanced(Step(sys, a).pool) && FeesInRange(Step(sys, a).pool)
  {
    hide TransferBoth, Price, AfterFee, SwapOut, SharesOk;
  }

  lemma OthersKeepReserves(sys: System, a: Action)
    requires ReservesInv(sys) && !a.Add? && !a.Remove? && !a.SwapXlm? && !a.SwapSxlm?
    requires FeeBounded(sys, a)
    ensures Balanced(Step(sys, a).pool) && FeesInRange(Step(sys, a).pool)
  {
    UpdateKeepsHoldings(sys.pool, sys.now);
    hide SharesOk, UpdatePool, Transfer, Accrued, Overlay;
  }

  lemma ConfigFixed(sys: System, a: Action)
    ensures Step(sys, a).pool.cfg == sys.pool.cfg
  {
    UpdateKeepsHoldings(sys.pool, sys.now);
    SettleKeepsHoldings(sys.pool, sys.now);
    hide UpdatePool, Settle, Transfer, TransferBoth, Accrued, Overlay, CheckedOut, ProtocolCut, DepositShares, Price, Quot;
  }

  lemma StepKeepsReserves(sys: System, a: Action)
    requires ReservesInv(sys)
    requires FeeBounded(sys, a)
    ensures ReservesInv(Step(sys, a)) && Step(sys, a).pool.cfg == sys.pool.cfg
  {
    SharesStep(sys, a);
    ConfigFixed(sys, a);
    hide Step, SharesOk, Balanced, FeesInRange;
    match a
    case Add(_, _, _) => AddKeepsBalance(sys, a);
    case Remove(_, _) => RemoveKeepsBalance(sys, a);
    case SwapXlm(_, _, _) => SwapXlmKeepsBalance(sys, a);
    case SwapSxlm(_, _, _) => SwapSxlmKeepsBalance(sys, a);
    case _ => OthersKeepReserves(sys, a);
  }

  /** The share bookkeeping part of the rewards invariant needs no budget. */
  lemma SharesStep(sys: System, a: Action)
    requires SharesOk(sys.pool)
    ensures SharesOk(Step(sys, a).pool)
  {
    // A large enough paid-in budget makes the reward invariant hold from any such state.
    OutstandingNonNegative(sys.pool);
    var richer := sys.(paid := 0, rewrites := Outstanding(sys.pool));
    StepKeepsRewards(richer, a);
    assert Step(richer, a).pool == Step(sys, a).pool;
  }

  lemma {:induction false} RunKeepsReserves(sys: System, actions: seq<Action>)
    requires ReservesInv(sys) && FeesBounded(sys, actions)
    ensures ReservesInv(Run(sys, actions))
    decreases |actions|
  {
    if actions != [] {
      StepKeepsReserves(sys, actions[0]);
      RunKeepsReserves(Step(sys, actions[0]), actions[1..]);
    }
  }

  /**
   In every run with fees in range the share balances add up to the supply, supply and reserves
   are all zero or all positive, and the balances the pool holds are the ones its storage claims.
   */
  lemma PoolInvariant(cfg: Config, bank: Bank, actions: seq<Action>)
    requires DEFAULT_PROTOCOL_FEE_BPS <= cfg.feeBps <= BPS && FeesBounded(Start(cfg, bank), actions)
    requires cfg.native != cfg.sxlm && cfg.admin != cfg.self
    ensures var sys := Run(Start(cfg, bank), actions);
            && Sum(sys.pool.lp) == sys.pool.totalLp
            && Balanced(sys.pool)
            && Custody(sys)
  {
    var sys := Start(cfg, bank);
    RunKeepsReserves(sys, actions);
    RunKeepsCustody(sys, actions);
  }

  /** Custody needs nothing of the fees: it holds in every run. */
  lemma CustodyAlways(cfg: Config, bank: Bank, actions: seq<Action>)
    requires cfg.native != cfg.sxlm && cfg.admin != cfg.self
    ensures Custody(Run(Start(cfg, bank), actions))
  {
    RunKeepsCustody(Start(cfg, bank), actions);
  }
}
