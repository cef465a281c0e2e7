/** Solvency of positions, what a liquidation takes, and what every run of the market keeps. */
module LendingSafety {
  import opened Wrappers
  import opened Arithmetic
  import opened Sums
  import opened TokenLedger
  import opened LendingModel

  // ---------- The two solvency checks ----------

  /** The value both checks compare with the debt, before any division. */
  function Weighted(collateral: int, factor: int, rate: int): int {
    collateral * rate * factor
  }

  /** The borrow limit and the health factor are the same check, differently divided. */
  lemma ChecksAgree(collateral: int, debt: int, factor: int, rate: int)
    requires 0 <= Weighted(collateral, factor, rate) && debt > 0
    ensures debt <= MaxBorrow(collateral, factor, rate)
            <==> HealthFactor(collateral, debt, factor, rate) >= RATE_PRECISION
    ensures HealthFactor(collateral, debt, factor, rate) >= RATE_PRECISION
            <==> debt * (BPS * RATE_PRECISION) <= Weighted(collateral, factor, rate)
  {
    var w := Weighted(collateral, factor, rate);
    QuotAtLeast(w, BPS * RATE_PRECISION, debt);
    QuotAtLeast(w, BPS * debt, RATE_PRECISION);
  }

  lemma WeightedMono(c: int, c': int, factor: int, factor': int, rate: int, rate': int)
    requires 0 <= c <= c' && 0 <= factor <= factor' && 0 <= rate <= rate'
    ensures 0 <= Weighted(c, factor, rate) <= Weighted(c', factor', rate')
  {
    MulPositive(c, rate);
    MulLe(c, c', rate);
    MulCommutes(c', rate);
    MulCommutes(c', rate');
    MulLe(rate, rate', c');
    MulPositive(c * rate, factor);
    MulLe(c * rate, c' * rate', factor);
    MulCommutes(c' * rate', factor);
    MulCommutes(c' * rate', factor');
    MulLe(factor, factor', c' * rate');
  }

  // ---------- Liquidation ----------

  /** What a liquidation takes: never more than the collateral, the debt with bonus rounded down. */
  lemma SeizureBounds(collateral: int, debt: int, bonus: int, rate: int)
    requires collateral >= 0 && debt > 0 && bonus >= 0 && rate > 0
    ensures var seized := Seized(collateral, debt, bonus, rate);
            var owed := DebtWithBonus(debt, bonus) * RATE_PRECISION;
            && 0 <= seized <= collateral
            && (seized < collateral ==> seized * rate <= owed < (seized + 1) * rate)
            && (seized == collateral <==> collateral * rate <= owed)
  {
    MulPositive(debt, BPS + bonus);
    QuotFloor(debt * (BPS + bonus), BPS);
    var owed := DebtWithBonus(debt, bonus) * RATE_PRECISION;
    QuotFloor(owed, rate);
    MulDistributes(rate, Quot(owed, rate), 1);
    QuotAtLeast(owed, rate, collateral);
  }

  /** A position healthy enough to cover the bonus is never seized past its collateral. */
  lemma HealthyEnoughIsNotCapped(collateral: int, debt: int, bonus: int, threshold: int, rate: int)
    requires collateral >= 0 && debt > 0 && bonus >= 0 && rate > 0 && threshold > 0
    requires HealthFactor(collateral, debt, threshold, rate) * (BPS * BPS)
             >= threshold * ((BPS + bonus) * RATE_PRECISION)
    ensures Seized(collateral, debt, bonus, rate) == Quot(DebtWithBonus(debt, bonus) * RATE_PRECISION, rate)
    ensures DebtWithBonus(debt, bonus) * RATE_PRECISION <= collateral * rate
  {
    var hf := HealthFactor(collateral, debt, threshold, rate);
    WeightedMono(0, collateral, threshold, threshold, rate, rate);
    var w := Weighted(collateral, threshold, rate);
    QuotFloor(w, BPS * debt);
    MulPositive(debt, BPS + bonus);
    QuotFloor(debt * (BPS + bonus), BPS);
    var owed := DebtWithBonus(debt, bonus) * RATE_PRECISION;
    CoversBonus(collateral * rate, threshold, debt, bonus, hf, DebtWithBonus(debt, bonus));
    QuotAtMost(owed, rate, collateral);
  }

  /** hf bounds value over debt from below; the bonus then fits into the value. */
  lemma CoversBonus(value: int, threshold: int, debt: int, bonus: int, hf: int, withBonus: int)
    requires value >= 0 && threshold > 0 && debt > 0 && bonus >= 0
    requires hf * (BPS * debt) <= value * threshold
    requires hf * (BPS * BPS) >= threshold * ((BPS + bonus) * RATE_PRECISION)
    requires 0 <= withBonus && withBonus * BPS <= debt * (BPS + bonus)
    ensures withBonus * RATE_PRECISION <= value
  {
    var k := (BPS + bonus) * RATE_PRECISION;
    MulLe(threshold * k, hf * (BPS * BPS), debt);
    assert hf * (BPS * BPS) * debt == hf * (BPS * debt) * BPS;
    MulLe(hf * (BPS * debt), value * threshold, BPS);
    assert threshold * k * debt == (k * debt) * threshold;
    assert value * threshold * BPS == (value * BPS) * threshold;
    MulCancel(k * debt, value * BPS, threshold);
    assert k * debt == debt * (BPS + bonus) * RATE_PRECISION;
    MulLe(withBonus * BPS, debt * (BPS + bonus), RATE_PRECISION);
    assert withBonus * BPS * RATE_PRECISION == withBonus * RATE_PRECISION * BPS;
  }

  // ---------- Runs ----------

  datatype Action =
    | Outside(token: Address, from: Address, to: Address, amount: int)
    | Deposit(user: Address, amount: int)
    | Withdraw(user: Address, amount: int)
    | TakeLoan(user: Address, amount: int)
    | RepayLoan(user: Address, amount: int)
    | LiquidatePosition(liquidator: Address, borrower: Address)
    | SetRate(caller: Address, rate: int)
    | SetFactor(caller: Address, bps: nat)
    | SetThreshold(caller: Address, bps: nat)

  /** The market and what it received of each token by transfers outside its entry points. */
  datatype System = System(market: Market, native: int, sxlm: int)

  function Start(s: Market): System {
    System(s, Balance(s.bank, s.native, s.self), Balance(s.bank, s.sxlm, s.self))
  }

  function Step(sys: System, a: Action): System {
    var s := sys.market;
    match a
    case Outside(token, from, to, amount) =>
      var r := Transfer(s.bank, token, from, to, amount);
      if from == s.self || r.None? then sys else
        System(s.(bank := r.value),
               sys.native + (if to == s.self && token == s.native then amount else 0),
               sys.sxlm + (if to == s.self && token == s.sxlm then amount else 0))
    case Deposit(user, amount) => sys.(market := DepositCollateral(s, user, amount).GetOr(s))
    case Withdraw(user, amount) => sys.(market := WithdrawCollateral(s, user, amount).GetOr(s))
    case TakeLoan(user, amount) => sys.(market := Borrow(s, user, amount).GetOr(s))
    case RepayLoan(user, amount) => sys.(market := Repay(s, user, amount).GetOr(s))
    case LiquidatePosition(liquidator, borrower) => sys.(market := Liquidate(s, liquidator, borrower).GetOr(s))
    case SetRate(caller, rate) => sys.(market := UpdateRate(s, caller, rate).GetOr(s))
    case SetFactor(caller, bps) => sys.(market := UpdateFactor(s, caller, bps).GetOr(s))
    case SetThreshold(caller, bps) => sys.(market := UpdateThreshold(s, caller, bps).GetOr(s))
  }

  function Run(sys: System, actions: seq<Action>): System
    decreases |actions|
  {
    if actions == [] then sys else Run(Step(sys, actions[0]), actions[1..])
  }

  /**
   The totals are the sums over users; what the market lent out and what it still holds add up to
   what came in from outside; all collateral is held.
   */
  ghost predicate BooksInv(sys: System) {
    var s := sys.market;
    && s.native != s.sxlm
    && s.exchangeRate > 0 && s.collateralFactor >= 0 && s.liquidationThreshold >= 0 && s.bonus >= 0
    && NonNegative(s.collateral) && NonNegative(s.borrowed)
    && Sum(s.collateral) == s.totalCollateral
    && Sum(s.borrowed) == s.totalBorrowed
    && Balance(s.bank, s.native, s.self) + s.totalBorrowed == sys.native
    && Balance(s.bank, s.sxlm, s.self) == s.totalCollateral + sys.sxlm
  }

  lemma CollateralKeepsBooks(sys: System, a: Action)
    requires BooksInv(sys) && (a.Deposit? || a.Withdraw?)
    ensures BooksInv(Step(sys, a))
  {
    var s := sys.market;
    hide HealthFactor;
    if a.Deposit? && DepositCollateral(s, a.user, a.amount).Some? {
      TransferMoves(s.bank, s.sxlm, a.user, s.self, a.amount);
      SumUpdate(s.collateral, a.user, Get(s.collateral, a.user) + a.amount);
    } else if a.Withdraw? && WithdrawCollateral(s, a.user, a.amount).Some? {
      TransferMoves(s.bank, s.sxlm, s.self, a.user, a.amount);
      SumUpdate(s.collateral, a.user, Get(s.collateral, a.user) - a.amount);
    }
  }

  lemma DebtKeepsBooks(sys: System, a: Action)
    requires BooksInv(sys) && (a.TakeLoan? || a.RepayLoan?)
    ensures BooksInv(Step(sys, a))
  {
    var s := sys.market;
    hide MaxBorrow;
    var debt := Get(s.borrowed, a.user);
    if a.TakeLoan? && Borrow(s, a.user, a.amount).Some? {
      TransferMoves(s.bank, s.native, s.self, a.user, a.amount);
      SumUpdate(s.borrowed, a.user, debt + a.amount);
    } else if a.RepayLoan? && Repay(s, a.user, a.amount).Some? {
      TransferMoves(s.bank, s.native, a.user, s.self, Min(a.amount, debt));
      SumUpdate(s.borrowed, a.user, debt - Min(a.amount, debt));
    }
  }

  lemma LiquidationKeepsBooks(sys: System, a: Action)
    requires BooksInv(sys) && a.LiquidatePosition?
    ensures BooksInv(Step(sys, a))
  {
    var s := sys.market;
    if Liquidate(s, a.liquidator, a.borrower).Some? {
      var debt, held := Get(s.borrowed, a.borrower), Get(s.collateral, a.borrower);
      var seized := Seized(held, debt, s.bonus, s.exchangeRate);
      SeizureBounds(held, debt, s.bonus, s.exchangeRate);
      hide Seized, HealthFactor;
      TransferMoves(s.bank, s.native, a.liquidator, s.self, debt);
      var paid := Transfer(s.bank, s.native, a.liquidator, s.self, debt).value;
      TransferMoves(paid, s.sxlm, s.self, a.liquidator, seized);
      hide Transfer;
      SumUpdate(s.collateral, a.borrower, held - seized);
      SumUpdate(s.borrowed, a.borrower, 0);
    }
  }

  lemma StepKeepsBooks(sys: System, a: Action)
    requires BooksInv(sys)
    ensures BooksInv(Step(sys, a))
  {
    var s := sys.market;
    match a
    case Deposit(_, _) => CollateralKeepsBooks(sys, a);
    case Withdraw(_, _) => CollateralKeepsBooks(sys, a);
    case TakeLoan(_, _) => DebtKeepsBooks(sys, a);
    case RepayLoan(_, _) => DebtKeepsBooks(sys, a);
    case LiquidatePosition(_, _) => LiquidationKeepsBooks(sys, a);
    case Outside(token, from, to, amount) =>
      if from != to && Transfer(s.bank, token, from, to, amount).Some? {
        TransferMoves(s.bank, token, from, to, amount);
      }
    case _ =>
  }

  lemma {:induction false} RunKeepsBooks(sys: System, actions: seq<Action>)
    requires BooksInv(sys)
    ensures BooksInv(Run(sys, actions))
    decreases |actions|
  {
    if actions != [] {
      StepKeepsBooks(sys, actions[0]);
      RunKeepsBooks(Step(sys, actions[0]), actions[1..]);
    }
  }

  /** In every run the totals are the per-user sums and native balance plus loans is conserved. */
  lemma MarketConserves(self: Address, admin: Address, native: Address, sxlm: Address,
                        factor: nat, threshold: nat, bank: Bank, actions: seq<Action>)
    requires native != sxlm
    ensures BooksInv(Run(Start(Initial(self, admin, native, sxlm, factor, threshold, bank)), actions))
  {
    RunKeepsBooks(Start(Initial(self, admin, native, sxlm, factor, threshold, bank)), actions);
  }

  // ---------- No position becomes liquidatable ----------

  /** Every position meets the check that let it borrow. */
  ghost predicate AllCovered(s: Market) {
    forall u | u in s.borrowed && s.borrowed[u] > 0 ::
      s.borrowed[u] * (BPS * RATE_PRECISION) <= Weighted(Get(s.collateral, u), s.collateralFactor, s.exchangeRate)
  }

  /** The settings after a call: rate and factor not lower, the factor within the threshold. */
  predicate Benign(sys: System, a: Action) {
    var s, s' := sys.market, Step(sys, a).market;
    && s.exchangeRate <= s'.exchangeRate
    && s.collateralFactor <= s'.collateralFactor <= s'.liquidationThreshold
  }

  /** Runs in which no call that takes effect worsens the settings; refused calls may try anything. */
  predicate BenignRun(sys: System, actions: seq<Action>)
    decreases |actions|
  {
    actions == [] || (Benign(sys, actions[0]) && BenignRun(Step(sys, actions[0]), actions[1..]))
  }

  /** A position can be liquidated exactly when its threshold value falls short of its debt. */
  lemma LiquidatableExactly(sys: System, user: Address)
    requires BooksInv(sys)
    ensures var s := sys.market;
            Liquidatable(s, user) <==>
            Get(s.borrowed, user) > 0
            && Weighted(Get(s.collateral, user), s.liquidationThreshold, s.exchangeRate)
               < Get(s.borrowed, user) * (BPS * RATE_PRECISION)
  {
    var s := sys.market;
    var c, debt := Get(s.collateral, user), Get(s.borrowed, user);
    if debt > 0 {
      WeightedMono(0, c, s.liquidationThreshold, s.liquidationThreshold, s.exchangeRate, s.exchangeRate);
      ChecksAgree(c, debt, s.liquidationThreshold, s.exchangeRate);
    }
  }

  lemma CoveredIsSafe(sys: System, user: Address)
    requires BooksInv(sys) && AllCovered(sys.market)
    requires sys.market.collateralFactor <= sys.market.liquidationThreshold
    ensures !Liquidatable(sys.market, user)
  {
    var s := sys.market;
    var c := Get(s.collateral, user);
    WeightedMono(c, c, s.collateralFactor, s.liquidationThreshold, s.exchangeRate, s.exchangeRate);
    LiquidatableExactly(sys, user);
  }

  /** A user's own position after a call, or any unchanged position under better settings. */
  lemma OwnPositionCovered(sys: System, a: Action, user: Address)
    requires BooksInv(sys) && AllCovered(sys.market) && Benign(sys, a) && !a.LiquidatePosition?
    ensures var s' := Step(sys, a).market;
            Get(s'.borrowed, user) > 0 ==>
            Get(s'.borrowed, user) * (BPS * RATE_PRECISION)
            <= Weighted(Get(s'.collateral, user), s'.collateralFactor, s'.exchangeRate)
  {
    var s, s' := sys.market, Step(sys, a).market;
    var c, d, c', d' := Get(s.collateral, user), Get(s.borrowed, user), Get(s'.collateral, user), Get(s'.borrowed, user);
    StepKeepsBooks(sys, a);
    SettingsOrPosition(sys, a);
    hide Transfer;
    if c <= c' && d' <= d {
      hide Step;
      if d' > 0 {
        WeightedMono(c, c', s.collateralFactor, s'.collateralFactor, s.exchangeRate, s'.exchangeRate);
        MulLe(d', d, BPS * RATE_PRECISION);
      }
    } else if d' > 0 {
      WeightedMono(0, c', s.collateralFactor, s.collateralFactor, s.exchangeRate, s.exchangeRate);
      ChecksAgree(c', d', s.collateralFactor, s.exchangeRate);
      hide HealthFactor, MaxBorrow, Weighted;
    }
  }

  /** A call that changes a setting changes no position, and a call that changes a position no setting. */
  lemma SettingsOrPosition(sys: System, a: Action)
    ensures var s, s' := sys.market, Step(sys, a).market;
            if a.SetRate? || a.SetFactor? || a.SetThreshold?
            then s'.collateral == s.collateral && s'.borrowed == s.borrowed
            else s'.collateralFactor == s.collateralFactor && s'.exchangeRate == s.exchangeRate
                 && s'.liquidationThreshold == s.liquidationThreshold
  {
    hide Transfer, TransferBoth, HealthFactor, MaxBorrow, Seized;
  }

  lemma StepKeepsCovered(sys: System, a: Action)
    requires BooksInv(sys) && AllCovered(sys.market) && Benign(sys, a)
    requires sys.market.collateralFactor <= sys.market.liquidationThreshold
    ensures AllCovered(Step(sys, a).market)
    ensures Step(sys, a).market.collateralFactor <= Step(sys, a).market.liquidationThreshold
  {
    if a.LiquidatePosition? {
      CoveredIsSafe(sys, a.borrower);
    } else {
      forall u | u in Step(sys, a).market.borrowed && Step(sys, a).market.borrowed[u] > 0
        ensures Step(sys, a).market.borrowed[u] * (BPS * RATE_PRECISION)
                <= Weighted(Get(Step(sys, a).market.collateral, u), Step(sys, a).market.collateralFactor,
                            Step(sys, a).market.exchangeRate)
      {
        OwnPositionCovered(sys, a, u);
        hide Step;
      }
    }
  }

  lemma {:induction false} RunKeepsCovered(sys: System, actions: seq<Action>)
    requires BooksInv(sys) && AllCovered(sys.market) && BenignRun(sys, actions)
    requires sys.market.collateralFactor <= sys.market.liquidationThreshold
    ensures BooksInv(Run(sys, actions)) && AllCovered(Run(sys, actions).market)
    ensures Run(sys, actions).market.collateralFactor <= Run(sys, actions).market.liquidationThreshold
    decreases |actions|
  {
    if actions != [] {
      StepKeepsCovered(sys, actions[0]);
      StepKeepsBooks(sys, actions[0]);
      RunKeepsCovered(Step(sys, actions[0]), actions[1..]);
    }
  }

  /**
   In every run in which the exchange rate and the collateral factor never fall and the factor
   stays within the threshold, no position can ever be liquidated.
   */
  lemma NeverLiquidatable(self: Address, admin: Address, native: Address, sxlm: Address,
                          factor: nat, threshold: nat, bank: Bank, actions: seq<Action>, user: Address)
    requires native != sxlm && factor <= threshold
    requires BenignRun(Start(Initial(self, admin, native, sxlm, factor, threshold, bank)), actions)
    ensures !Liquidatable(Run(Start(Initial(self, admin, native, sxlm, factor, threshold, bank)), actions).market, user)
  {
    var sys := Start(Initial(self, admin, native, sxlm, factor, threshold, bank));
    RunKeepsCovered(sys, actions);
    CoveredIsSafe(Run(sys, actions), user);
  }
}
