/**
 Exactly when a call of the lending market is accepted and what it then does, in the numbers of
 storage alone.
 */
module LendingCalls {
  import opened Wrappers
  import opened Arithmetic
  import opened Sums
  import opened TokenLedger
  import opened LendingModel
  import opened LendingSafety

  /** Debt is covered when 10^11 times it is at most collateral times rate times a weight in basis points. */
  predicate CoveredBy(collateral: int, debt: int, rate: int, weightBps: int) {
    debt * 100_000_000_000 <= collateral * rate * weightBps
  }

  lemma WeightNonNegative(collateral: int, rate: int, weightBps: int)
    requires 0 <= collateral && 0 <= rate && 0 <= weightBps
    ensures 0 <= Weighted(collateral, weightBps, rate)
  {
    WeightedMono(0, collateral, weightBps, weightBps, rate, rate);
  }

  /** The published health factor is a floor, or the largest number when there is no debt. */
  lemma HealthExactly(collateral: int, debt: int, factor: int, rate: int)
    requires 0 <= collateral && 0 <= debt && 0 <= rate && 0 <= factor
    ensures if debt == 0 then HealthFactor(collateral, debt, factor, rate) == 0x7fff_ffff_ffff_ffff_ffff_ffff_ffff_ffff
            else IsFloor(HealthFactor(collateral, debt, factor, rate), collateral * rate * factor, 10_000 * debt)
  {
    if debt > 0 {
      WeightNonNegative(collateral, rate, factor);
      QuotIsFloor(collateral * rate * factor, BPS * debt);
    }
  }

  /** Collateral comes in by a transfer of the staked token and changes nothing else. */
  lemma DepositExactly(s: Market, user: Address, amount: int)
    ensures var r := DepositCollateral(s, user, amount);
            var moved := Transfer(s.bank, s.sxlm, user, s.self, amount);
            && (r.Some? <==> user != s.self && amount > 0 && moved.Some?)
            && (r.Some? ==>
                  var s' := r.value;
                  && Get(s'.collateral, user) - Get(s.collateral, user) == amount
                  && s' == s.(collateral := s.collateral[user := Get(s'.collateral, user)],
                              totalCollateral := s.totalCollateral + amount, bank := moved.value))
  {
    hide Transfer;
  }

  /** Collateral leaves when what remains covers the debt by the collateral factor. */
  lemma WithdrawExactly(sys: System, user: Address, amount: int)
    requires BooksInv(sys)
    ensures var s := sys.market;
            var r := WithdrawCollateral(s, user, amount);
            var moved := Transfer(s.bank, s.sxlm, s.self, user, amount);
            var held, debt := Get(s.collateral, user), Get(s.borrowed, user);
            && (r.Some? <==> user != s.self && 0 < amount <= held && moved.Some?
                             && (debt > 0 ==> CoveredBy(held - amount, debt, s.exchangeRate, s.collateralFactor)))
            && (r.Some? ==>
                  r.value == s.(collateral := s.collateral[user := held - amount],
                                totalCollateral := s.totalCollateral - amount, bank := moved.value))
  {
    var s := sys.market;
    var held, debt := Get(s.collateral, user), Get(s.borrowed, user);
    if 0 < amount <= held && debt > 0 {
      WeightNonNegative(held - amount, s.exchangeRate, s.collateralFactor);
      ChecksAgree(held - amount, debt, s.collateralFactor, s.exchangeRate);
    }
    hide Transfer, HealthFactor, MaxBorrow;
  }

  /** A loan is granted when the collateral covers the whole debt by the collateral factor. */
  lemma BorrowExactly(sys: System, user: Address, amount: int)
    requires BooksInv(sys)
    ensures var s := sys.market;
            var r := Borrow(s, user, amount);
            var moved := Transfer(s.bank, s.native, s.self, user, amount);
            var debt := Get(s.borrowed, user) + amount;
            && (r.Some? <==> user != s.self && amount > 0 && moved.Some?
                             && CoveredBy(Get(s.collateral, user), debt, s.exchangeRate, s.collateralFactor))
            && (r.Some? ==>
                  r.value == s.(borrowed := s.borrowed[user := debt], totalBorrowed := s.totalBorrowed + amount,
                                bank := moved.value))
  {
    var s := sys.market;
    var held, debt := Get(s.collateral, user), Get(s.borrowed, user) + amount;
    if amount > 0 {
      WeightNonNegative(held, s.exchangeRate, s.collateralFactor);
      ChecksAgree(held, debt, s.collateralFactor, s.exchangeRate);
    }
    hide Transfer, HealthFactor, MaxBorrow;
  }

  /** A repayment takes the smaller of the offer and the debt. */
  lemma RepayExactly(s: Market, user: Address, amount: int, paid: int)
    requires paid <= amount && paid <= Get(s.borrowed, user) && (paid == amount || paid == Get(s.borrowed, user))
    ensures var r := Repay(s, user, amount);
            var moved := Transfer(s.bank, s.native, user, s.self, paid);
            && (r.Some? <==> user != s.self && amount > 0 && moved.Some?)
            && (r.Some? ==>
                  r.value == s.(borrowed := s.borrowed[user := Get(s.borrowed, user) - paid],
                                totalBorrowed := s.totalBorrowed - paid, bank := moved.value))
  {
    hide Transfer;
  }

  /** The parameters of a liquidation's law: the debt with bonus and its worth in collateral, as floors. */
  predicate SeizureFloors(s: Market, debt: int, withBonus: int, worth: int) {
    IsFloor(withBonus, debt * (10_000 + s.bonus), 10_000) && IsFloor(worth, withBonus * 10_000_000, s.exchangeRate)
  }

  lemma SeizedIsFloor(s: Market, held: int, debt: int, withBonus: int, worth: int)
    requires debt > 0 && s.bonus >= 0 && s.exchangeRate > 0 && SeizureFloors(s, debt, withBonus, worth)
    ensures Seized(held, debt, s.bonus, s.exchangeRate) == Min(worth, held)
  {
    MulPositive(debt, 10_000 + s.bonus);
    FloorIsQuot(withBonus, debt * (10_000 + s.bonus), 10_000);
    FloorIsQuot(worth, withBonus * 10_000_000, s.exchangeRate);
  }

  /**
   Anyone may repay the whole debt of a position whose collateral, weighted by the threshold, does
   not cover it, for the debt's worth with bonus or all the collateral, whichever is less.
   */
  lemma LiquidateExactly(sys: System, liquidator: Address, borrower: Address, withBonus: int, worth: int)
    requires BooksInv(sys)
    requires SeizureFloors(sys.market, Get(sys.market.borrowed, borrower), withBonus, worth)
    ensures var s := sys.market;
            var r := Liquidate(s, liquidator, borrower);
            var held, debt := Get(s.collateral, borrower), Get(s.borrowed, borrower);
            var seized := if worth < held then worth else held;
            var moved := TransferBoth(s.bank, s.native, liquidator, s.self, debt, s.sxlm, s.self, liquidator, seized);
            && (r.Some? <==> liquidator != s.self && debt > 0 && moved.Some?
                             && !CoveredBy(held, debt, s.exchangeRate, s.liquidationThreshold))
            && (r.Some? ==>
                  r.value == s.(collateral := s.collateral[borrower := held - seized],
                                borrowed := s.borrowed[borrower := 0],
                                totalCollateral := s.totalCollateral - seized,
                                totalBorrowed := s.totalBorrowed - debt, bank := moved.value))
  {
    var s := sys.market;
    var held, debt := Get(s.collateral, borrower), Get(s.borrowed, borrower);
    LiquidatableExactly(sys, borrower);
    if debt > 0 {
      SeizedIsFloor(s, held, debt, withBonus, worth);
    }
    hide TransferBoth, HealthFactor, Seized, SeizureFloors, Liquidatable;
  }

  /** The settings are the admin's, each within its range, and change nothing else. */
  lemma SettingsExactly(s: Market, caller: Address, rate: int, bps: nat)
    ensures UpdateRate(s, caller, rate)
            == if caller == s.admin && rate > 0 then Some(s.(exchangeRate := rate)) else None
    ensures UpdateFactor(s, caller, bps)
            == if caller == s.admin && 1 <= bps <= 10_000 then Some(s.(collateralFactor := bps)) else None
    ensures UpdateThreshold(s, caller, bps)
            == if caller == s.admin && 1 <= bps <= 10_000 then Some(s.(liquidationThreshold := bps)) else None
  {
  }

  /** A deployed market: rate 1, a bonus of 5%, no positions, and the settings it was given. */
  lemma InitialExactly(self: Address, admin: Address, native: Address, sxlm: Address, factor: nat, threshold: nat, bank: Bank)
    ensures var s := Initial(self, admin, native, sxlm, factor, threshold, bank);
            && s.exchangeRate == 10_000_000 && s.bonus == 500
            && s.collateralFactor == factor && s.liquidationThreshold == threshold && s.admin == admin
            && s.totalCollateral == 0 && s.totalBorrowed == 0 && s.collateral == map[] && s.borrowed == map[] && s.bank == bank
  {
  }
}
