/** The lending contract: storage updated in place, proved against the steps of its model. */
module LendingContract {
  import opened Wrappers
  import opened Arithmetic
  import opened Sums
  import opened TokenLedger
  import opened LendingModel

  class Lending {
    const self: Address
    const admin: Address
    const native: Address
    const sxlm: Address
    const tokens: Tokens
    var collateralFactor: int
    var liquidationThreshold: int
    var bonus: int
    var exchangeRate: int
    var totalCollateral: int
    var totalBorrowed: int
    var collateral: map<Address, int>
    var borrowed: map<Address, int>

    function State(): Market
      reads this, tokens
    {
      Market(self, admin, native, sxlm, collateralFactor, liquidationThreshold, bonus, exchangeRate,
             totalCollateral, totalBorrowed, collateral, borrowed, tokens.balances)
    }

    constructor (self: Address, admin: Address, native: Address, sxlm: Address,
                 collateralFactor: nat, liquidationThreshold: nat, tokens: Tokens)
      ensures State() == Initial(self, admin, native, sxlm, collateralFactor, liquidationThreshold, tokens.balances)
      ensures this.tokens == tokens
    {
      this.self, this.admin, this.native, this.sxlm, this.tokens := self, admin, native, sxlm, tokens;
      this.collateralFactor := collateralFactor;
      this.liquidationThreshold := liquidationThreshold;
      bonus := LIQUIDATION_BONUS_BPS;
      exchangeRate := RATE_PRECISION;
      totalCollateral, totalBorrowed := 0, 0;
      collateral, borrowed := map[], map[];
    }

    method Deposit(user: Address, amount: int) returns (ok: bool)
      modifies this, tokens
      ensures ok == DepositCollateral(old(State()), user, amount).Some?
      ensures State() == DepositCollateral(old(State()), user, amount).GetOr(old(State()))
    {
      ok := user != self && amount > 0;
      if ok {
        ok := tokens.Pay(sxlm, user, self, amount);
      }
      if ok {
        collateral := collateral[user := Get(collateral, user) + amount];
        totalCollateral := totalCollateral + amount;
      }
    }

    method Withdraw(user: Address, amount: int) returns (ok: bool)
      modifies this, tokens
      ensures ok == WithdrawCollateral(old(State()), user, amount).Some?
      ensures State() == WithdrawCollateral(old(State()), user, amount).GetOr(old(State()))
    {
      var current := Get(collateral, user);
      if user == self || amount <= 0 || current < amount {
        return false;
      }
      var left := current - amount;
      var debt := Get(borrowed, user);
      if debt > 0 {
        var hf := HealthFactor(left, debt, collateralFactor, exchangeRate);
        if hf < RATE_PRECISION {
          return false;
        }
      }
      ok := tokens.Pay(sxlm, self, user, amount);
      if ok {
        collateral := collateral[user := left];
        totalCollateral := totalCollateral - amount;
      }
    }

    method TakeLoan(user: Address, amount: int) returns (ok: bool)
      modifies this, tokens
      ensures ok == Borrow(old(State()), user, amount).Some?
      ensures State() == Borrow(old(State()), user, amount).GetOr(old(State()))
    {
      if user == self || amount <= 0 {
        return false;
      }
      var debt := Get(borrowed, user) + amount;
      var limit := Quot(Get(collateral, user) * exchangeRate * collateralFactor, BPS * RATE_PRECISION);
      if debt > limit || Balance(tokens.balances, native, self) < amount {
        return false;
      }
      ok := tokens.Pay(native, self, user, amount);
      if ok {
        borrowed := borrowed[user := debt];
        totalBorrowed := totalBorrowed + amount;
      }
    }

    method RepayLoan(user: Address, amount: int) returns (ok: bool)
      modifies this, tokens
      ensures ok == Repay(old(State()), user, amount).Some?
      ensures State() == Repay(old(State()), user, amount).GetOr(old(State()))
    {
      if user == self || amount <= 0 {
        return false;
      }
      var debt := Get(borrowed, user);
      var paid := if amount > debt then debt else amount;
      ok := tokens.Pay(native, user, self, paid);
      if ok {
        borrowed := borrowed[user := debt - paid];
        totalBorrowed := totalBorrowed - paid;
      }
    }

    method LiquidatePosition(liquidator: Address, borrower: Address) returns (ok: bool)
      modifies this, tokens
      ensures ok == Liquidate(old(State()), liquidator, borrower).Some?
      ensures State() == Liquidate(old(State()), liquidator, borrower).GetOr(old(State()))
    {
      var held, debt := Get(collateral, borrower), Get(borrowed, borrower);
      if liquidator == self || debt <= 0 {
        return false;
      }
      var hf := HealthFactor(held, debt, liquidationThreshold, exchangeRate);
      if hf >= RATE_PRECISION || exchangeRate == 0 {
        return false;
      }
      var withBonus := Quot(debt * (BPS + bonus), BPS);
      var toSeize := Quot(withBonus * RATE_PRECISION, exchangeRate);
      var sent := if toSeize > held then held else toSeize;
      ok := tokens.PayBoth(native, liquidator, self, debt, sxlm, self, liquidator, sent);
      if ok {
        totalCollateral := totalCollateral - sent;
        totalBorrowed := totalBorrowed - debt;
        collateral := collateral[borrower := held - sent];
        borrowed := borrowed[borrower := 0];
      }
    }

    method SetRate(caller: Address, rate: int) returns (ok: bool)
      modifies this`exchangeRate
      ensures ok == UpdateRate(old(State()), caller, rate).Some?
      ensures State() == UpdateRate(old(State()), caller, rate).GetOr(old(State()))
    {
      ok := caller == admin && rate > 0;
      if ok {
        exchangeRate := rate;
      }
    }

    method SetFactor(caller: Address, bps: nat) returns (ok: bool)
      modifies this`collateralFactor
      ensures ok == UpdateFactor(old(State()), caller, bps).Some?
      ensures State() == UpdateFactor(old(State()), caller, bps).GetOr(old(State()))
    {
      ok := caller == admin && 0 < bps <= 10000;
      if ok {
        collateralFactor := bps;
      }
    }

    method SetThreshold(caller: Address, bps: nat) returns (ok: bool)
      modifies this`liquidationThreshold
      ensures ok == UpdateThreshold(old(State()), caller, bps).Some?
      ensures State() == UpdateThreshold(old(State()), caller, bps).GetOr(old(State()))
    {
      ok := caller == admin && 0 < bps <= 10000;
      if ok {
        liquidationThreshold := bps;
      }
    }
  }
}
