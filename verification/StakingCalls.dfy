/**
 Exactly when a call of the vault is accepted and what it then does, in the numbers of storage alone:
 every amount is pinned by the products it lies between.
 */
module StakingCalls {
  import opened Wrappers
  import opened Arithmetic
  import opened Sums
  import opened TokenLedger
  import opened SxlmToken
  import opened StakingModel

  /** The shares of a deposit: one for one into a vault without shares or stake, else a floor. */
  predicate DepositFloors(s: Vault, amount: int, minted: int) {
    if s.supply == 0 || s.staked == 0 then minted == amount
    else if s.staked > 0 then IsFloor(minted, amount * s.supply, s.staked) else minted == 0
  }

  lemma SharesAreFloor(s: Vault, amount: int, minted: int)
    requires s.supply >= 0 && amount > 0 && DepositFloors(s, amount, minted)
    ensures if minted > 0 then SharesFor(s, amount) == minted else SharesFor(s, amount) <= 0
  {
    if s.supply != 0 && s.staked != 0 {
      MulPositive(amount, s.supply);
      if s.staked > 0 {
        FloorIsQuot(minted, amount * s.supply, s.staked);
      } else {
        QuotNegativeDivisor(amount * s.supply, s.staked);
      }
    }
  }

  /** The token after a mint to, or with a negative amount a burn from, one account. */
  ghost predicate TokenChanged(t: Token, t': Token, user: Address, amount: int) {
    && Get(t'.balances, user) == Get(t.balances, user) + amount
    && (forall u | u != user :: Get(t'.balances, u) == Get(t.balances, u))
    && t' == t.(balances := t'.balances, supply := t.supply + amount)
  }

  lemma DepositExactly(s: Vault, user: Address, amount: int, minted: int)
    requires s.supply >= 0 && (amount > 0 ==> DepositFloors(s, amount, minted))
    ensures var r := Deposit(s, user, amount);
            var moved := Transfer(s.bank, s.native, user, s.self, amount);
            && (r.Some? <==> !s.paused && user != s.self && amount > 0 && moved.Some? && minted > 0
                             && s.token.minter == s.self)
            && (r.Some? ==>
                  var s' := r.value;
                  && s' == s.(staked := s.staked + amount, supply := s.supply + minted, token := s'.token, bank := moved.value)
                  && TokenChanged(s.token, s'.token, user, minted))
  {
    if amount > 0 {
      SharesAreFloor(s, amount, minted);
    }
    hide SharesFor, Transfer, DepositFloors;
  }

  /** The worth of shares: the floor of their part of the stake. */
  predicate RequestFloors(s: Vault, amount: int, out: int) {
    s.supply > 0 ==> IsFloor(out, amount * s.staked, s.supply)
  }

  lemma WorthIsFloor(s: Vault, amount: int, out: int)
    requires s.supply > 0 && amount > 0 && RequestFloors(s, amount, out)
    ensures if out > 0 then Worth(s, amount) == out else Worth(s, amount) <= 0
  {
    if s.staked >= 0 {
      MulPositive(amount, s.staked);
      FloorIsQuot(out, amount * s.staked, s.supply);
    } else {
      MulLe(s.staked, -1, amount);
      MulCommutes(s.staked, amount);
      assert amount * s.staked < 0;
      QuotFloor(-(amount * s.staked), s.supply);
      if out > 0 {
        MulLe(1, out, s.supply);
      }
    }
  }

  /**
   A withdrawal request burns the shares at once; it is paid from the buffer when the buffer covers
   it, and otherwise queued under the next id until the cooldown is over, with stake and buffer as
   they were.
   */
  lemma RequestExactly(s: Vault, user: Address, amount: int, ledger: nat, out: int)
    requires s.supply >= 0 && (amount > 0 ==> RequestFloors(s, amount, out))
    ensures var r := RequestWithdrawal(s, user, amount, ledger);
            var moved := Transfer(s.bank, s.native, s.self, user, out);
            && (r.Some? <==> !s.paused && user != s.self && s.supply > 0 && 0 < amount <= Get(s.token.balances, user)
                             && out > 0 && s.token.minter == s.self && (s.buffer >= out ==> moved.Some?))
            && (r.Some? ==>
                  var s' := r.value;
                  && TokenChanged(s.token, s'.token, user, -amount)
                  && s' == if s.buffer >= out
                           then s.(supply := s.supply - amount, token := s'.token, bank := moved.value,
                                   buffer := s.buffer - out, staked := s.staked - out)
                           else s.(supply := s.supply - amount, token := s'.token, counter := s.counter + 1,
                                   queue := s.queue[s.counter := Request(s.counter, user, out, ledger + s.cooldown, false)]))
  {
    if amount > 0 && s.supply > 0 {
      WorthIsFloor(s, amount, out);
    }
    hide Worth, Transfer, RequestFloors;
  }

  /** A claim pays the owner of an unclaimed entry from its unlock ledger on, whatever the pause. */
  lemma ClaimExactly(s: Vault, user: Address, id: nat, ledger: nat)
    requires forall i | i in s.queue :: s.queue[i].amount > 0
    ensures var r := ClaimWithdrawal(s, user, id, ledger);
            && (r.Some? <==> user != s.self && id in s.queue && s.queue[id].user == user && !s.queue[id].claimed
                             && s.queue[id].unlock <= ledger
                             && s.queue[id].amount <= Balance(s.bank, s.native, s.self))
            && (r.Some? ==>
                  var s', e := r.value, s.queue[id];
                  && s'.queue.Keys == s.queue.Keys && s'.queue[id] == e.(claimed := true)
                  && (forall i | i in s.queue && i != id :: s'.queue[i] == s.queue[i])
                  && s'.staked == s.staked - e.amount
                  && Transfer(s.bank, s.native, s.self, user, e.amount) == Some(s'.bank)
                  && s' == s.(queue := s'.queue, staked := s'.staked, bank := s'.bank))
  {
  }

  /** Rewards: a tenth, rounded down, goes to the treasury, and the rest raises the stake. */
  lemma RewardsExactly(s: Vault, caller: Address, amount: int)
    ensures var r := AddRewards(s, caller, amount);
            && (r.Some? <==> caller == s.admin && caller != s.self && amount > 0)
            && (r.Some? ==>
                  var fee := r.value.treasury - s.treasury;
                  && IsFloor(fee, amount, 10)
                  && r.value == s.(treasury := s.treasury + fee, staked := s.staked + amount - fee))
  {
    if amount > 0 {
      QuotIsFloor(amount * PROTOCOL_FEE_BPS, BPS);
    }
  }

  /** The treasury pays the admin the amount asked for, or all of it when asked for nothing. */
  lemma FeesExactly(s: Vault, caller: Address, amount: int)
    ensures var r := WithdrawFees(s, caller, amount);
            var out := if amount <= 0 then s.treasury else amount;
            var moved := Transfer(s.bank, s.native, s.self, s.admin, out);
            && (r.Some? <==> caller == s.admin && caller != s.self && 0 < out <= s.treasury && moved.Some?)
            && (r.Some? ==> r.value.treasury + out == s.treasury
                            && r.value == s.(treasury := r.value.treasury, bank := moved.value))
  {
    hide Transfer;
  }

  /** Slashing takes from the stake alone; funding moves the admin's tokens into the buffer alone. */
  lemma AdminExactly(s: Vault, caller: Address, amount: int)
    ensures var r := ApplySlashing(s, caller, amount);
            && (r.Some? <==> caller == s.admin && caller != s.self && 0 < amount <= s.staked)
            && (r.Some? ==> r.value.staked + amount == s.staked && r.value == s.(staked := r.value.staked))
    ensures var r := AddLiquidity(s, caller, amount);
            var moved := Transfer(s.bank, s.native, s.admin, s.self, amount);
            && (r.Some? <==> caller == s.admin && caller != s.self && amount > 0 && moved.Some?)
            && (r.Some? ==> r.value.buffer - amount == s.buffer
                            && r.value == s.(buffer := r.value.buffer, bank := moved.value))
  {
    hide Transfer;
  }

  /** The published rate is the floor of 10^7 times the stake behind one share, and 10^7 without shares. */
  lemma RateExactly(s: Vault)
    requires s.supply >= 0 && s.staked >= 0
    ensures if s.supply == 0 then ExchangeRate(s) == 10_000_000
            else IsFloor(ExchangeRate(s), s.staked * 10_000_000, s.supply)
  {
    if s.supply > 0 {
      QuotIsFloor(s.staked * RATE_PRECISION, s.supply);
    }
  }

  /** A deployed vault runs, holds nothing and owes nothing: the first deposit mints one for one. */
  lemma FirstDepositIsOneForOne(self: Address, native: Address, admin: Address, cooldown: nat, token: Token, bank: Bank,
                                user: Address, amount: int)
    requires token.minter == self && user != self && 0 < amount <= Balance(bank, native, user)
    ensures var s := Initial(self, native, admin, cooldown, token, bank);
            var r := Deposit(s, user, amount);
            && s.buffer == 0 && s.treasury == 0 && s.counter == 0 && s.queue == map[] && s.cooldown == cooldown
            && r.Some? && r.value.staked == amount && r.value.supply == amount
            && Get(r.value.token.balances, user) == Get(token.balances, user) + amount
  {
    var s := Initial(self, native, admin, cooldown, token, bank);
    DepositExactly(s, user, amount, amount);
    TransferExactly(bank, native, user, self, amount);
  }
}
