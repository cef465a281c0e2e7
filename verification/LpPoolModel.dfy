/**
 The liquidity pool: storage and the effect of each entry point on it. A step returns None
 when the contract panics, in which case the host leaves the state as it was.
 */
module LpPoolModel {
  import opened Wrappers
  import opened Arithmetic
  import opened Sums
  import opened TokenLedger
  import opened IntegerSqrt

  const BPS: int := 10_000
  // Scale of the reward accumulator
  const PRECISION: int := 1_000_000_000_000
  // Scale of the cumulative prices
  const PRICE_PRECISION: int := 1_000_000_000_000_000_000
  const DEFAULT_PROTOCOL_FEE_BPS: int := 5

  datatype Config = Config(self: Address, admin: Address, native: Address, sxlm: Address, feeBps: nat)

  datatype Program = Program(rewardAsset: Address, rewardPerSecond: int, totalRewards: int,
                             distributed: int, startTime: nat, endTime: nat)

  datatype Pool = Pool(
    cfg: Config,
    governance: Option<Address>,
    protocolFeeBps: int,
    accruedFees: int,
    reserveXlm: int,
    reserveSxlm: int,
    totalLp: int,
    lp: map<Address, int>,
    program: Option<Program>,
    acc: int,
    lastRewardTime: Option<nat>,
    debt: map<Address, int>,
    cumXlm: int,
    cumSxlm: int,
    timestampLast: Option<nat>,
    bank: Bank)

  function Initial(cfg: Config, bank: Bank): Pool {
    Pool(cfg, None, DEFAULT_PROTOCOL_FEE_BPS, 0, 0, 0, 0, map[], None, 0, None, map[], 0, 0, None, bank)
  }

  // ---------- Price oracle ----------

  /** The floor price of one token in the other, scaled; an empty pool has none. */
  function Price(num: int, den: int): int {
    if num <= 0 || den <= 0 then 0 else Quot(num * PRICE_PRECISION, den)
  }

  function UpdatePrice(s: Pool, now: nat): Pool {
    if s.reserveXlm <= 0 || s.reserveSxlm <= 0 then s.(timestampLast := Some(now))
    else
      var last := s.timestampLast.GetOr(now);
      if now <= last then s else
        s.(cumXlm := s.cumXlm + Price(s.reserveXlm, s.reserveSxlm) * (now - last),
           cumSxlm := s.cumSxlm + Price(s.reserveSxlm, s.reserveXlm) * (now - last),
           timestampLast := Some(now))
  }

  // ---------- Liquidity mining ----------

  /** The reward a window of the given length adds, capped at what is left of the budget. */
  function WindowReward(p: Program, elapsed: int): int {
    Min(p.rewardPerSecond * elapsed, p.totalRewards - p.distributed)
  }

  function UpdatePool(s: Pool, now: nat): Pool {
    if s.program.None? then s else
      var p := s.program.value;
      var last := s.lastRewardTime.GetOr(p.startTime);
      if now <= last || last >= p.endTime then s else
        var effectiveNow: nat := Min(now, p.endTime);
        var reward := WindowReward(p, effectiveNow - last);
        if s.totalLp == 0 || reward <= 0 then s.(lastRewardTime := Some(effectiveNow))
        else s.(acc := s.acc + Quot(reward * PRECISION, s.totalLp),
                lastRewardTime := Some(effectiveNow),
                program := Some(p.(distributed := p.distributed + reward)))
  }

  /** The accumulator a view reports at a given time, without storing it. */
  function ProjectedAcc(s: Pool, now: nat): int {
    if s.program.None? then s.acc else
      var p := s.program.value;
      var last := s.lastRewardTime.GetOr(p.startTime);
      if now <= last || last >= p.endTime || s.totalLp == 0 then s.acc else
        var reward := WindowReward(p, Min(now, p.endTime) - last);
        if reward <= 0 then s.acc else s.acc + Quot(reward * PRECISION, s.totalLp)
  }

  /** What a position has accumulated since the program started, before its debt. */
  function Accrued(lp: int, acc: int): int {
    Quot(lp * acc, PRECISION)
  }

  function PendingRewards(s: Pool, user: Address, now: nat): int {
    var lp := Get(s.lp, user);
    if lp == 0 then 0 else Max(0, Accrued(lp, ProjectedAcc(s, now)) - Get(s.debt, user))
  }

  function SetMiningProgram(s: Pool, caller: Address, asset: Address, perSecond: int, total: int,
                            start: nat, end: nat, now: nat): Option<Pool> {
    if caller != s.cfg.admin && s.governance != Some(caller) then None else
    :- Need(end > start && perSecond > 0 && total > 0);
    Some(UpdatePool(s, now).(program := Some(Program(asset, perSecond, total, 0, start, end)),
                             lastRewardTime := Some(start),
                             acc := 0))
  }

  /** The rewards paid by a claim, and the state after it. */
  function ClaimRewards(s: Pool, user: Address, now: nat): Option<(Pool, int)> {
    if user == s.cfg.self then None else
    var u := UpdatePool(s, now);
    var lp := Get(u.lp, user);
    var accrued := Accrued(lp, u.acc);
    var earned := if lp > 0 then accrued - Get(u.debt, user) else 0;
    var settled := u.(debt := u.debt[user := accrued]);
    if earned <= 0 then Some((settled, 0)) else
      :- Need(u.program.Some?);
      var paid :- Transfer(u.bank, u.program.value.rewardAsset, s.cfg.self, user, earned);
      Some((settled.(bank := paid), earned))
  }

  // ---------- Liquidity ----------

  datatype Deposit = Deposit(xlm: int, sxlm: int, minted: int)

  /** What a deposit takes of each offered amount and the shares it mints. */
  function DepositShares(s: Pool, xlm: int, sxlm: int): Deposit
    requires s.totalLp == 0 || (s.reserveXlm != 0 && s.reserveSxlm != 0)
  {
    if s.totalLp == 0 then Deposit(xlm, sxlm, Isqrt(xlm * sxlm)) else
      var fromXlm := Quot(xlm * s.totalLp, s.reserveXlm);
      var fromSxlm := Quot(sxlm * s.totalLp, s.reserveSxlm);
      if fromXlm < fromSxlm
      then Deposit(xlm, Quot(fromXlm * s.reserveSxlm, s.totalLp), fromXlm)
      else Deposit(Quot(fromSxlm * s.reserveXlm, s.totalLp), sxlm, fromSxlm)
  }

  function AddLiquidity(s: Pool, user: Address, xlm: int, sxlm: int, now: nat): Option<(Pool, Deposit)> {
    if user == s.cfg.self || xlm <= 0 || sxlm <= 0 then None else
    AddSettled(Settle(s, now), user, xlm, sxlm)
  }

  function AddSettled(u: Pool, user: Address, xlm: int, sxlm: int): Option<(Pool, Deposit)> {
    if u.totalLp != 0 && (u.reserveXlm == 0 || u.reserveSxlm == 0) then None else
    var d := DepositShares(u, xlm, sxlm);
    :- Need(d.minted > 0 && d.xlm > 0 && d.sxlm > 0);
    var paid :- TransferBoth(u.bank, u.cfg.native, user, u.cfg.self, d.xlm,
                             u.cfg.sxlm, user, u.cfg.self, d.sxlm);
    Some((Credit(u, user, d).(bank := paid), d))
  }

  /** What liquidity changes record first: the price observation, then the rewards. */
  function Settle(s: Pool, now: nat): Pool {
    UpdatePool(UpdatePrice(s, now), now)
  }

  function Credit(s: Pool, user: Address, d: Deposit): Pool {
    var newLp := Get(s.lp, user) + d.minted;
    s.(reserveXlm := s.reserveXlm + d.xlm,
       reserveSxlm := s.reserveSxlm + d.sxlm,
       totalLp := s.totalLp + d.minted,
       lp := s.lp[user := newLp],
       debt := s.debt[user := Accrued(newLp, s.acc)])
  }

  datatype Withdrawal = Withdrawal(xlm: int, sxlm: int, rewards: int)

  /** The unclaimed rewards a removal pays out first. */
  function AutoClaim(s: Pool, user: Address): int {
    var earned := Accrued(Get(s.lp, user), s.acc) - Get(s.debt, user);
    if earned > 0 && s.program.Some? then earned else 0
  }

  function PayRewards(s: Pool, user: Address, amount: int): Option<Bank>
    requires amount > 0 ==> s.program.Some?
  {
    if amount > 0 then Transfer(s.bank, s.program.value.rewardAsset, s.cfg.self, user, amount) else Some(s.bank)
  }

  function RemoveLiquidity(s: Pool, user: Address, amount: int, now: nat): Option<(Pool, Withdrawal)> {
    if user == s.cfg.self || amount <= 0 then None else
    RemoveSettled(Settle(s, now), user, amount)
  }

  function RemoveSettled(u: Pool, user: Address, amount: int): Option<(Pool, Withdrawal)> {
    if Get(u.lp, user) < amount then None else
    var rewards := AutoClaim(u, user);
    var bank :- PayRewards(u, user, rewards);
    :- Need(u.totalLp != 0);
    var w := Withdrawal(Quot(amount * u.reserveXlm, u.totalLp), Quot(amount * u.reserveSxlm, u.totalLp), rewards);
    :- Need(w.xlm > 0 && w.sxlm > 0);
    var paid :- TransferBoth(bank, u.cfg.native, u.cfg.self, user, w.xlm,
                             u.cfg.sxlm, u.cfg.self, user, w.sxlm);
    Some((Debit(u, user, amount, w).(bank := paid), w))
  }

  function Debit(s: Pool, user: Address, amount: int, w: Withdrawal): Pool {
    var newLp := Get(s.lp, user) - amount;
    s.(reserveXlm := s.reserveXlm - w.xlm,
       reserveSxlm := s.reserveSxlm - w.sxlm,
       totalLp := s.totalLp - amount,
       lp := s.lp[user := newLp],
       debt := s.debt[user := Accrued(newLp, s.acc)])
  }

  // ---------- Swaps ----------

  function AfterFee(amount: int, feeBps: int): int {
    Quot(amount * (BPS - feeBps), BPS)
  }

  /** The constant-product output for an input net of fee. */
  function SwapOut(reserveIn: int, reserveOut: int, afterFee: int): int
    requires reserveIn + afterFee != 0
  {
    reserveOut - Quot(reserveIn * reserveOut, reserveIn + afterFee)
  }

  /** The guards both swap directions share: Some(output) when they all hold. */
  function CheckedOut(reserveIn: int, reserveOut: int, amount: int, minOut: int, feeBps: int): Option<int> {
    if amount <= 0 || reserveIn <= 0 || reserveOut <= 0 then None else
    var afterFee := AfterFee(amount, feeBps);
    :- Need(reserveIn + afterFee != 0);
    var out := SwapOut(reserveIn, reserveOut, afterFee);
    :- Need(0 < out < reserveOut && out >= minOut);
    Some(out)
  }

  /** The protocol's share of the fee of an XLM input. */
  function ProtocolCut(amount: int, feeBps: int, protocolFeeBps: int): int
    requires feeBps != 0
  {
    Quot((amount - AfterFee(amount, feeBps)) * protocolFeeBps, feeBps)
  }

  function SwapXlmToSxlm(s: Pool, user: Address, amount: int, minOut: int, now: nat): Option<(Pool, int)> {
    if user == s.cfg.self then None else
    var u := UpdatePrice(s, now);
    var out :- CheckedOut(u.reserveXlm, u.reserveSxlm, amount, minOut, s.cfg.feeBps);
    var paid :- TransferBoth(u.bank, s.cfg.native, user, s.cfg.self, amount,
                             s.cfg.sxlm, s.cfg.self, user, out);
    :- Need(s.cfg.feeBps != 0);
    var cut := ProtocolCut(amount, s.cfg.feeBps, u.protocolFeeBps);
    Some((u.(reserveXlm := u.reserveXlm + amount - cut,
             reserveSxlm := u.reserveSxlm - out,
             accruedFees := u.accruedFees + cut,
             bank := paid), out))
  }

  function SwapSxlmToXlm(s: Pool, user: Address, amount: int, minOut: int, now: nat): Option<(Pool, int)> {
    if user == s.cfg.self then None else
    var u := UpdatePrice(s, now);
    var out :- CheckedOut(u.reserveSxlm, u.reserveXlm, amount, minOut, s.cfg.feeBps);
    var paid :- TransferBoth(u.bank, s.cfg.sxlm, user, s.cfg.self, amount,
                             s.cfg.native, s.cfg.self, user, out);
    Some((u.(reserveSxlm := u.reserveSxlm + amount,
             reserveXlm := u.reserveXlm - out,
             bank := paid), out))
  }

  // ---------- Fees and settings ----------

  function CollectProtocolFees(s: Pool, caller: Address): Option<(Pool, int)> {
    if caller != s.cfg.admin then None else
    if s.accruedFees <= 0 then Some((s, 0)) else
      var paid :- Transfer(s.bank, s.cfg.native, s.cfg.self, s.cfg.admin, s.accruedFees);
      Some((s.(accruedFees := 0, bank := paid), s.accruedFees))
  }

  function SetProtocolFee(s: Pool, caller: Address, bps: nat): Option<Pool> {
    if caller != s.cfg.admin then None else
    Some(s.(protocolFeeBps := bps))
  }

  function SetGovernance(s: Pool, caller: Address, governance: Address): Option<Pool> {
    if caller != s.cfg.admin then None else
    Some(s.(governance := Some(governance)))
  }
}
