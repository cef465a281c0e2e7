/** The lending market: storage and the effect of each entry point; None is a panicked call. */
module LendingModel {
  import opened Wrappers
  import opened Arithmetic
  import opened Sums
  import opened TokenLedger

  const BPS: int := 10_000
  const RATE_PRECISION: int := 10_000_000
  const LIQUIDATION_BONUS_BPS: int := 500
  // The largest 128-bit integer: the health factor of a position without debt
  const INFINITE_HEALTH: int := 170141183460469231731687303715884105727

  datatype Market = Market(
    self: Address,
    admin: Address,
    native: Address,
    sxlm: Address,
    collateralFactor: int,
    liquidationThreshold: int,
    bonus: int,
    exchangeRate: int,
    totalCollateral: int,
    totalBorrowed: int,
    collateral: map<Address, int>,
    borrowed: map<Address, int>,
    bank: Bank)

  function Initial(self: Address, admin: Address, native: Address, sxlm: Address,
                   collateralFactor: nat, liquidationThreshold: nat, bank: Bank): Market
  {
    Market(self, admin, native, sxlm, collateralFactor, liquidationThreshold, LIQUIDATION_BONUS_BPS,
           RATE_PRECISION, 0, 0, map[], map[], bank)
  }

  /** Weighted collateral over debt, scaled so that 1.0 is RATE_PRECISION. */
  function HealthFactor(collateral: int, borrowed: int, factor: int, rate: int): int {
    if borrowed == 0 then INFINITE_HEALTH else Quot(collateral * rate * factor, BPS * borrowed)
  }

  function MaxBorrow(collateral: int, factor: int, rate: int): int {
    Quot(collateral * rate * factor, BPS * RATE_PRECISION)
  }

  function DepositCollateral(s: Market, user: Address, amount: int): Option<Market> {
    if user == s.self || amount <= 0 then None else
      var bank :- Transfer(s.bank, s.sxlm, user, s.self, amount);
      Some(s.(collateral := s.collateral[user := Get(s.collateral, user) + amount],
              totalCollateral := s.totalCollateral + amount, bank := bank))
  }

  function WithdrawCollateral(s: Market, user: Address, amount: int): Option<Market> {
    if user == s.self || amount <= 0 || Get(s.collateral, user) < amount then None else
      var left := Get(s.collateral, user) - amount;
      var debt := Get(s.borrowed, user);
      :- Need(debt > 0 ==> HealthFactor(left, debt, s.collateralFactor, s.exchangeRate) >= RATE_PRECISION);
      var bank :- Transfer(s.bank, s.sxlm, s.self, user, amount);
      Some(s.(collateral := s.collateral[user := left],
              totalCollateral := s.totalCollateral - amount, bank := bank))
  }

  function Borrow(s: Market, user: Address, amount: int): Option<Market> {
    if user == s.self || amount <= 0 then None else
      var debt := Get(s.borrowed, user) + amount;
      :- Need(debt <= MaxBorrow(Get(s.collateral, user), s.collateralFactor, s.exchangeRate));
      var bank :- Transfer(s.bank, s.native, s.self, user, amount);
      Some(s.(borrowed := s.borrowed[user := debt],
              totalBorrowed := s.totalBorrowed + amount, bank := bank))
  }

  function Repay(s: Market, user: Address, amount: int): Option<Market> {
    if user == s.self || amount <= 0 then None else
      var paid := Min(amount, Get(s.borrowed, user));
      var bank :- Transfer(s.bank, s.native, user, s.self, paid);
      Some(s.(borrowed := s.borrowed[user := Get(s.borrowed, user) - paid],
              totalBorrowed := s.totalBorrowed - paid, bank := bank))
  }

  predicate Liquidatable(s: Market, user: Address) {
    var debt := Get(s.borrowed, user);
    debt > 0
    && HealthFactor(Get(s.collateral, user), debt, s.liquidationThreshold, s.exchangeRate) < RATE_PRECISION
  }

  function DebtWithBonus(debt: int, bonus: int): int {
    Quot(debt * (BPS + bonus), BPS)
  }

  /** What the debt and its bonus are worth in sXLM, capped at the borrower's collateral. */
  function Seized(collateral: int, debt: int, bonus: int, rate: int): int
    requires rate != 0
  {
    Min(Quot(DebtWithBonus(debt, bonus) * RATE_PRECISION, rate), collateral)
  }

  function Liquidate(s: Market, liquidator: Address, borrower: Address): Option<Market> {
    if liquidator == s.self || !Liquidatable(s, borrower) || s.exchangeRate == 0 then None else
      var debt, held := Get(s.borrowed, borrower), Get(s.collateral, borrower);
      var seized := Seized(held, debt, s.bonus, s.exchangeRate);
      var bank :- TransferBoth(s.bank, s.native, liquidator, s.self, debt, s.sxlm, s.self, liquidator, seized);
      Some(s.(collateral := s.collateral[borrower := held - seized],
              borrowed := s.borrowed[borrower := 0],
              totalCollateral := s.totalCollateral - seized,
              totalBorrowed := s.totalBorrowed - debt,
              bank := bank))
  }

  function UpdateRate(s: Market, caller: Address, rate: int): Option<Market> {
    if caller != s.admin || rate <= 0 then None else Some(s.(exchangeRate := rate))
  }

  function UpdateFactor(s: Market, caller: Address, bps: nat): Option<Market> {
    if caller != s.admin || !(0 < bps <= 10000) then None else Some(s.(collateralFactor := bps))
  }

  function UpdateThreshold(s: Market, caller: Address, bps: nat): Option<Market> {
    if caller != s.admin || !(0 < bps <= 10000) then None else Some(s.(liquidationThreshold := bps))
  }
}
