/** The vault contract: storage fields updated in place, proved against the steps of its model. */
module StakingContract {
  import opened Wrappers
  import opened Arithmetic
  import opened TokenLedger
  import opened SxlmToken
  import opened StakingModel

  class Staking {
    const self: Address
    const native: Address
    const tokens: Tokens
    const sxlm: SxlmContract
    var admin: Address
    var cooldown: nat
    var paused: bool
    var totalXlmStaked: int
    var totalSxlmSupply: int
    var liquidityBuffer: int
    var treasuryBalance: int
    var withdrawalCounter: nat
    var withdrawalQueue: map<nat, Request>

    function State(): Vault
      reads this, tokens, sxlm
    {
      Vault(self, native, admin, cooldown, paused, totalXlmStaked, totalSxlmSupply, liquidityBuffer,
            treasuryBalance, withdrawalCounter, withdrawalQueue, sxlm.State(), tokens.balances)
    }

    constructor (self: Address, native: Address, admin: Address, cooldown: nat, tokens: Tokens, sxlm: SxlmContract)
      ensures State() == Initial(self, native, admin, cooldown, sxlm.State(), tokens.balances)
      ensures this.tokens == tokens && this.sxlm == sxlm
    {
      this.self := self;
      this.native := native;
      this.tokens := tokens;
      this.sxlm := sxlm;
      this.admin := admin;
      this.cooldown := cooldown;
      paused := false;
      totalXlmStaked := 0;
      totalSxlmSupply := 0;
      liquidityBuffer := 0;
      treasuryBalance := 0;
      withdrawalCounter := 0;
      withdrawalQueue := map[];
    }

    method DepositXlm(user: Address, amount: int) returns (ok: bool)
      modifies this, tokens, sxlm
      ensures ok == Deposit(old(State()), user, amount).Some?
      ensures State() == Deposit(old(State()), user, amount).GetOr(old(State()))
    {
      ok := !paused && user != self && amount > 0;
      if !ok {
        return;
      }
      var funds := tokens.balances;
      ok := tokens.Pay(native, user, self, amount);
      if !ok {
        return;
      }
      var minted := if totalSxlmSupply == 0 || totalXlmStaked == 0 then amount
                    else Quot(amount * totalSxlmSupply, totalXlmStaked);
      if minted > 0 {
        ok := sxlm.MintTo(self, user, minted);
      }
      if minted <= 0 || !ok {
        tokens.Revert(funds);
        return false;
      }
      totalXlmStaked := totalXlmStaked + amount;
      totalSxlmSupply := totalSxlmSupply + minted;
    }

    method NextWithdrawalId() returns (id: nat)
      modifies this`withdrawalCounter
      ensures id == old(withdrawalCounter) && withdrawalCounter == id + 1
    {
      id := withdrawalCounter;
      withdrawalCounter := id + 1;
    }

    method Request(user: Address, amount: int, ledger: nat) returns (ok: bool)
      modifies this, tokens, sxlm
      ensures ok == RequestWithdrawal(old(State()), user, amount, ledger).Some?
      ensures State() == RequestWithdrawal(old(State()), user, amount, ledger).GetOr(old(State()))
    {
      hide Transfer, Burn, Quot;
      ok := !paused && user != self && amount > 0 && totalSxlmSupply != 0;
      if !ok {
        return;
      }
      var out := Quot(amount * totalXlmStaked, totalSxlmSupply);
      if out <= 0 {
        return false;
      }
      var shares := sxlm.State();
      ok := sxlm.BurnFrom(self, user, amount);
      if !ok {
        return;
      }
      if liquidityBuffer >= out {
        ok := tokens.Pay(native, self, user, out);
        if !ok {
          sxlm.Revert(shares);
          return;
        }
        liquidityBuffer := liquidityBuffer - out;
        totalXlmStaked := totalXlmStaked - out;
      } else {
        var id := NextWithdrawalId();
        withdrawalQueue := withdrawalQueue[id := StakingModel.Request(id, user, out, ledger + cooldown, false)];
      }
      totalSxlmSupply := totalSxlmSupply - amount;
    }

    method Claim(user: Address, id: nat, ledger: nat) returns (ok: bool)
      modifies this, tokens
      ensures ok == ClaimWithdrawal(old(State()), user, id, ledger).Some?
      ensures State() == ClaimWithdrawal(old(State()), user, id, ledger).GetOr(old(State()))
    {
      ok := user != self && id in withdrawalQueue;
      if !ok {
        return;
      }
      var request := withdrawalQueue[id];
      ok := request.user == user && !request.claimed && ledger >= request.unlock;
      if !ok {
        return;
      }
      ok := tokens.Pay(native, self, user, request.amount);
      if !ok {
        return;
      }
      withdrawalQueue := withdrawalQueue[id := request.(claimed := true)];
      totalXlmStaked := totalXlmStaked - request.amount;
    }

    method Rewards(caller: Address, amount: int) returns (ok: bool)
      modifies this
      ensures ok == AddRewards(old(State()), caller, amount).Some?
      ensures State() == AddRewards(old(State()), caller, amount).GetOr(old(State()))
    {
      ok := caller == admin && caller != self && amount > 0;
      if ok {
        var fee := Quot(amount * PROTOCOL_FEE_BPS, BPS);
        treasuryBalance := treasuryBalance + fee;
        totalXlmStaked := totalXlmStaked + (amount - fee);
      }
    }

    method TakeFees(caller: Address, amount: int) returns (ok: bool)
      modifies this, tokens
      ensures ok == WithdrawFees(old(State()), caller, amount).Some?
      ensures State() == WithdrawFees(old(State()), caller, amount).GetOr(old(State()))
    {
      var out := if amount <= 0 then treasuryBalance else amount;
      ok := caller == admin && caller != self && 0 < out <= treasuryBalance;
      if ok {
        ok := tokens.Pay(native, self, admin, out);
      }
      if ok {
        treasuryBalance := treasuryBalance - out;
      }
    }

    method Slash(caller: Address, amount: int) returns (ok: bool)
      modifies this
      ensures ok == ApplySlashing(old(State()), caller, amount).Some?
      ensures State() == ApplySlashing(old(State()), caller, amount).GetOr(old(State()))
    {
      ok := caller == admin && caller != self && 0 < amount <= totalXlmStaked;
      if ok {
        totalXlmStaked := totalXlmStaked - amount;
      }
    }

    method Fund(caller: Address, amount: int) returns (ok: bool)
      modifies this, tokens
      ensures ok == AddLiquidity(old(State()), caller, amount).Some?
      ensures State() == AddLiquidity(old(State()), caller, amount).GetOr(old(State()))
    {
      ok := caller == admin && caller != self && amount > 0;
      if ok {
        ok := tokens.Pay(native, admin, self, amount);
      }
      if ok {
        liquidityBuffer := liquidityBuffer + amount;
      }
    }

    method SetPaused(caller: Address, value: bool) returns (ok: bool)
      modifies this`paused
      ensures ok <==> IsAdmin(old(State()), caller)
      ensures State() == if ok then old(State()).(paused := value) else old(State())
    {
      ok := caller == admin && caller != self;
      if ok {
        paused := value;
      }
    }

    method SetCooldown(caller: Address, value: nat) returns (ok: bool)
      modifies this`cooldown
      ensures ok <==> IsAdmin(old(State()), caller)
      ensures State() == if ok then old(State()).(cooldown := value) else old(State())
    {
      ok := caller == admin && caller != self;
      if ok {
        cooldown := value;
      }
    }

    method SetAdmin(caller: Address, newAdmin: Address) returns (ok: bool)
      modifies this`admin
      ensures ok <==> IsAdmin(old(State()), caller)
      ensures State() == if ok then old(State()).(admin := newAdmin) else old(State())
    {
      ok := caller == admin && caller != self;
      if ok {
        admin := newAdmin;
      }
    }
  }
}
