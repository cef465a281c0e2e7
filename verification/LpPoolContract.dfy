/**
 The pool contract itself: storage fields updated in place, in the order the entry points
 write them. Each method is proved to do what the step of the same name says, and to leave
 every field alone when it panics.
 */
module LpPoolContract {
  import opened Wrappers
  import opened Arithmetic
  import opened Sums
  import opened TokenLedger
  import opened IntegerSqrt
  import opened LpPoolModel

  class LpPool {
    const cfg: Config
    const tokens: Tokens
    var governance: Option<Address>
    var protocolFeeBps: int
    var accruedFees: int
    var reserveXlm: int
    var reserveSxlm: int
    var totalLp: int
    var lp: map<Address, int>
    var program: Option<Program>
    var acc: int
    var lastRewardTime: Option<nat>
    var debt: map<Address, int>
    var cumXlm: int
    var cumSxlm: int
    var timestampLast: Option<nat>

    function State(): Pool
      reads this, tokens
    {
      Pool(cfg, governance, protocolFeeBps, accruedFees, reserveXlm, reserveSxlm, totalLp, lp,
           program, acc, lastRewardTime, debt, cumXlm, cumSxlm, timestampLast, tokens.balances)
    }

    constructor (cfg: Config, tokens: Tokens)
      ensures State() == Initial(cfg, tokens.balances)
      ensures this.tokens == tokens
    {
      this.cfg := cfg;
      this.tokens := tokens;
      governance := None;
      protocolFeeBps := DEFAULT_PROTOCOL_FEE_BPS;
      accruedFees := 0;
      reserveXlm := 0;
      reserveSxlm := 0;
      totalLp := 0;
      lp := map[];
      program := None;
      acc := 0;
      lastRewardTime := None;
      debt := map[];
      cumXlm := 0;
      cumSxlm := 0;
      timestampLast := None;
    }

    /** The host's rollback of a call that panicked. */
    method Revert(s: Pool)
      requires s.cfg == cfg
      modifies this, tokens
      ensures State() == s
    {
      tokens.Revert(s.bank);
      governance := s.governance;
      protocolFeeBps := s.protocolFeeBps;
      accruedFees := s.accruedFees;
      reserveXlm := s.reserveXlm;
      reserveSxlm := s.reserveSxlm;
      totalLp := s.totalLp;
      lp := s.lp;
      program := s.program;
      acc := s.acc;
      lastRewardTime := s.lastRewardTime;
      debt := s.debt;
      cumXlm := s.cumXlm;
      cumSxlm := s.cumSxlm;
      timestampLast := s.timestampLast;
    }

    method UpdateCumulativePrice(now: nat)
      modifies this
      ensures State() == UpdatePrice(old(State()), now)
    {
      hide Quot;
      if reserveXlm <= 0 || reserveSxlm <= 0 {
        timestampLast := Some(now);
        return;
      }
      var last := timestampLast.GetOr(now);
      if now <= last {
        return;
      }
      var elapsed := now - last;
      var priceXlm := Quot(reserveXlm * PRICE_PRECISION, reserveSxlm);
      var priceSxlm := Quot(reserveSxlm * PRICE_PRECISION, reserveXlm);
      cumXlm := cumXlm + priceXlm * elapsed;
      cumSxlm := cumSxlm + priceSxlm * elapsed;
      timestampLast := Some(now);
    }

    method UpdateRewards(now: nat)
      modifies this
      ensures State() == UpdatePool(old(State()), now)
    {
      hide Quot;
      if program.None? {
        return;
      }
      var p := program.value;
      var last := lastRewardTime.GetOr(p.startTime);
      if now <= last || last >= p.endTime {
        return;
      }
      var effectiveNow: nat := if now > p.endTime then p.endTime else now;
      var elapsed := effectiveNow - last;
      if totalLp == 0 {
        lastRewardTime := Some(effectiveNow);
        return;
      }
      var remaining := p.totalRewards - p.distributed;
      var raw := p.rewardPerSecond * elapsed;
      var reward := if raw > remaining then remaining else raw;
      if reward <= 0 {
        lastRewardTime := Some(effectiveNow);
        return;
      }
      acc := acc + Quot(reward * PRECISION, totalLp);
      lastRewardTime := Some(effectiveNow);
      program := Some(p.(distributed := p.distributed + reward));
    }

    method SettleAt(now: nat)
      modifies this
      ensures State() == Settle(old(State()), now)
    {
      UpdateCumulativePrice(now);
      UpdateRewards(now);
    }

    method SetProgram(caller: Address, asset: Address, perSecond: int, total: int, start: nat, end: nat, now: nat)
      returns (ok: bool)
      modifies this
      ensures ok == SetMiningProgram(old(State()), caller, asset, perSecond, total, start, end, now).Some?
      ensures State() == SetMiningProgram(old(State()), caller, asset, perSecond, total, start, end, now).GetOr(old(State()))
    {
      ok := (caller == cfg.admin || governance == Some(caller)) && end > start && perSecond > 0 && total > 0;
      if !ok {
        return;
      }
      UpdateRewards(now);
      program := Some(Program(asset, perSecond, total, 0, start, end));
      lastRewardTime := Some(start);
      acc := 0;
    }

    method Claim(user: Address, now: nat) returns (ok: bool, earned: int)
      modifies this, tokens
      ensures var r := ClaimRewards(old(State()), user, now);
              && ok == r.Some?
              && (ok ==> State() == r.value.0 && earned == r.value.1)
              && (!ok ==> State() == old(State()))
    {
      hide Quot;
      ok, earned := user != cfg.self, 0;
      if !ok {
        return;
      }
      var before := State();
      UpdateRewards(now);
      var held := Get(lp, user);
      var owed := Quot(held * acc, PRECISION);
      earned := if held > 0 then owed - Get(debt, user) else 0;
      if earned <= 0 {
        debt := debt[user := owed];
        earned := 0;
        return;
      }
      if program.None? {
        Revert(before);
        return false, 0;
      }
      ok := tokens.Pay(program.value.rewardAsset, cfg.self, user, earned);
      if !ok {
        Revert(before);
        return;
      }
      debt := debt[user := owed];
    }

    /** The amounts a deposit takes and the shares it mints; panics on a division by zero. */
    method Shares(xlm: int, sxlm: int) returns (ok: bool, d: Deposit)
      ensures ok <==> totalLp == 0 || (reserveXlm != 0 && reserveSxlm != 0)
      ensures ok ==> d == DepositShares(State(), xlm, sxlm)
    {
      ok, d := true, Deposit(xlm, sxlm, 0);
      if totalLp == 0 {
        var minted := NewtonSqrt(xlm * sxlm);
        d := Deposit(xlm, sxlm, minted);
      } else if reserveXlm == 0 || reserveSxlm == 0 {
        ok := false;
      } else {
        var fromXlm := Quot(xlm * totalLp, reserveXlm);
        var fromSxlm := Quot(sxlm * totalLp, reserveSxlm);
        if fromXlm < fromSxlm {
          d := Deposit(xlm, Quot(fromXlm * reserveSxlm, totalLp), fromXlm);
        } else {
          d := Deposit(Quot(fromSxlm * reserveXlm, totalLp), sxlm, fromSxlm);
        }
      }
    }

    method CreditShares(user: Address, d: Deposit)
      modifies this
      ensures State() == Credit(old(State()), user, d)
    {
      hide Quot;
      reserveXlm := reserveXlm + d.xlm;
      reserveSxlm := reserveSxlm + d.sxlm;
      totalLp := totalLp + d.minted;
      var newLp := Get(lp, user) + d.minted;
      lp := lp[user := newLp];
      debt := debt[user := Quot(newLp * acc, PRECISION)];
    }

    method Add(user: Address, xlm: int, sxlm: int, now: nat) returns (ok: bool, minted: int)
      modifies this, tokens
      ensures var r := AddLiquidity(old(State()), user, xlm, sxlm, now);
              && ok == r.Some?
              && (ok ==> State() == r.value.0 && minted == r.value.1.minted)
              && (!ok ==> State() == old(State()))
    {
      ok, minted := user != cfg.self && xlm > 0 && sxlm > 0, 0;
      if !ok {
        return;
      }
      var before := State();
      SettleAt(now);
      ok, minted := AddChecked(user, xlm, sxlm);
      if !ok {
        Revert(before);
      }
    }

    /** A deposit after settlement; a caller rolls back when it fails. */
    method AddChecked(user: Address, xlm: int, sxlm: int) returns (ok: bool, minted: int)
      modifies this, tokens
      ensures var r := AddSettled(old(State()), user, xlm, sxlm);
              ok == r.Some? && (ok ==> State() == r.value.0 && minted == r.value.1.minted)
    {
      hide Quot, Accrued, DepositShares, Transfer, TransferBoth;
      var d;
      ok, d := Shares(xlm, sxlm);
      ok := ok && d.minted > 0 && d.xlm > 0 && d.sxlm > 0;
      if ok {
        ok := tokens.PayBoth(cfg.native, user, cfg.self, d.xlm, cfg.sxlm, user, cfg.self, d.sxlm);
      }
      minted := d.minted;
      if ok {
        CreditShares(user, d);
      }
    }

    method PayEarned(user: Address) returns (ok: bool, rewards: int)
      modifies tokens
      ensures rewards == AutoClaim(old(State()), user)
      ensures ok == PayRewards(old(State()), user, rewards).Some?
      ensures tokens.balances == PayRewards(old(State()), user, rewards).GetOr(old(tokens.balances))
    {
      hide Quot;
      ok, rewards := true, 0;
      var earned := Quot(Get(lp, user) * acc, PRECISION) - Get(debt, user);
      if earned > 0 && program.Some? {
        rewards := earned;
        ok := tokens.Pay(program.value.rewardAsset, cfg.self, user, earned);
      }
    }

    method DebitShares(user: Address, amount: int, w: Withdrawal)
      modifies this
      ensures State() == Debit(old(State()), user, amount, w)
    {
      hide Quot;
      reserveXlm := reserveXlm - w.xlm;
      reserveSxlm := reserveSxlm - w.sxlm;
      totalLp := totalLp - amount;
      var newLp := Get(lp, user) - amount;
      lp := lp[user := newLp];
      debt := debt[user := Quot(newLp * acc, PRECISION)];
    }

    method Remove(user: Address, amount: int, now: nat) returns (ok: bool, w: Withdrawal)
      modifies this, tokens
      ensures var r := RemoveLiquidity(old(State()), user, amount, now);
              && ok == r.Some?
              && (ok ==> State() == r.value.0 && w == r.value.1)
              && (!ok ==> State() == old(State()))
    {
      ok, w := user != cfg.self && amount > 0, Withdrawal(0, 0, 0);
      if !ok {
        return;
      }
      var before := State();
      SettleAt(now);
      ok, w := RemoveChecked(user, amount);
      if !ok {
        Revert(before);
      }
    }

    /** A removal after settlement; a caller rolls back when it fails. */
    method RemoveChecked(user: Address, amount: int) returns (ok: bool, w: Withdrawal)
      modifies this, tokens
      ensures var r := RemoveSettled(old(State()), user, amount);
              ok == r.Some? && (ok ==> State() == r.value.0 && w == r.value.1)
    {
      hide Quot, Accrued, AutoClaim, Transfer, TransferBoth;
      w := Withdrawal(0, 0, 0);
      var rewards := 0;
      ok := Get(lp, user) >= amount;
      if ok {
        ok, rewards := PayEarned(user);
      }
      if ok && totalLp != 0 {
        w := Withdrawal(Quot(amount * reserveXlm, totalLp), Quot(amount * reserveSxlm, totalLp), rewards);
      }
      ok := ok && totalLp != 0 && w.xlm > 0 && w.sxlm > 0;
      if ok {
        ok := tokens.PayBoth(cfg.native, cfg.self, user, w.xlm, cfg.sxlm, cfg.self, user, w.sxlm);
      }
      if ok {
        DebitShares(user, amount, w);
      }
    }

    /** The output of a swap, with the assertions both directions make. */
    method Quote(reserveIn: int, reserveOut: int, amount: int, minOut: int) returns (ok: bool, out: int)
      ensures var r := CheckedOut(reserveIn, reserveOut, amount, minOut, cfg.feeBps);
              ok == r.Some? && (ok ==> out == r.value)
    {
      ok, out := false, 0;
      if amount <= 0 {
        return;
      }
      var afterFee := Quot(amount * (BPS - cfg.feeBps), BPS);
      if reserveIn <= 0 || reserveOut <= 0 || reserveIn + afterFee == 0 {
        return;
      }
      out := reserveOut - Quot(reserveIn * reserveOut, reserveIn + afterFee);
      ok := 0 < out < reserveOut && out >= minOut;
    }

    method SwapXlm(user: Address, amount: int, minOut: int, now: nat) returns (ok: bool, out: int)
      modifies this, tokens
      ensures var r := SwapXlmToSxlm(old(State()), user, amount, minOut, now);
              && ok == r.Some?
              && (ok ==> State() == r.value.0 && out == r.value.1)
              && (!ok ==> State() == old(State()))
    {
      hide Quot, UpdatePrice, CheckedOut, Transfer, TransferBoth;
      ok, out := user != cfg.self, 0;
      if !ok {
        return;
      }
      var before := State();
      UpdateCumulativePrice(now);
      ok, out := Quote(reserveXlm, reserveSxlm, amount, minOut);
      if ok {
        ok := tokens.PayBoth(cfg.native, user, cfg.self, amount, cfg.sxlm, cfg.self, user, out);
      }
      if !ok || cfg.feeBps == 0 {
        Revert(before);
        return false, 0;
      }
      var fee := amount - Quot(amount * (BPS - cfg.feeBps), BPS);
      var cut := Quot(fee * protocolFeeBps, cfg.feeBps);
      reserveXlm := reserveXlm + amount - cut;
      reserveSxlm := reserveSxlm - out;
      accruedFees := accruedFees + cut;
    }

    method SwapSxlm(user: Address, amount: int, minOut: int, now: nat) returns (ok: bool, out: int)
      modifies this, tokens
      ensures var r := SwapSxlmToXlm(old(State()), user, amount, minOut, now);
              && ok == r.Some?
              && (ok ==> State() == r.value.0 && out == r.value.1)
              && (!ok ==> State() == old(State()))
    {
      hide UpdatePrice, CheckedOut, Transfer, TransferBoth;
      ok, out := user != cfg.self, 0;
      if !ok {
        return;
      }
      var before := State();
      UpdateCumulativePrice(now);
      ok, out := Quote(reserveSxlm, reserveXlm, amount, minOut);
      if ok {
        ok := tokens.PayBoth(cfg.sxlm, user, cfg.self, amount, cfg.native, cfg.self, user, out);
      }
      if !ok {
        Revert(before);
        return;
      }
      reserveSxlm := reserveSxlm + amount;
      reserveXlm := reserveXlm - out;
    }

    method Collect(caller: Address) returns (ok: bool, collected: int)
      modifies this, tokens
      ensures var r := CollectProtocolFees(old(State()), caller);
              && ok == r.Some?
              && (ok ==> State() == r.value.0 && collected == r.value.1)
              && (!ok ==> State() == old(State()))
    {
      ok, collected := caller == cfg.admin, 0;
      if !ok || accruedFees <= 0 {
        return;
      }
      ok := tokens.Pay(cfg.native, cfg.self, cfg.admin, accruedFees);
      if ok {
        collected := accruedFees;
        accruedFees := 0;
      }
    }

    method SetFee(caller: Address, bps: nat) returns (ok: bool)
      modifies this`protocolFeeBps
      ensures ok == SetProtocolFee(old(State()), caller, bps).Some?
      ensures State() == SetProtocolFee(old(State()), caller, bps).GetOr(old(State()))
    {
      ok := caller == cfg.admin;
      if ok {
        protocolFeeBps := bps;
      }
    }

    method SetGovernanceContract(caller: Address, address: Address) returns (ok: bool)
      modifies this`governance
      ensures ok == SetGovernance(old(State()), caller, address).Some?
      ensures State() == SetGovernance(old(State()), caller, address).GetOr(old(State()))
    {
      ok := caller == cfg.admin;
      if ok {
        governance := Some(address);
      }
    }

    /** The view of a user's unclaimed rewards. */
    method Pending(user: Address, now: nat) returns (pending: int)
      ensures pending == PendingRewards(State(), user, now)
    {
      var held := Get(lp, user);
      if held == 0 {
        return 0;
      }
      pending := Quot(held * ProjectedAcc(State(), now), PRECISION) - Get(debt, user);
      if pending < 0 {
        pending := 0;
      }
    }
  }
}
