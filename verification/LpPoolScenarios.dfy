/**
 Short runs from deployment that reach what the pool does not promise: a profitable round trip,
 rewards paid ahead of distribution, a forfeited reward, and quotes that do not execute.
 */
module LpPoolScenarios {
  import opened Wrappers
  import opened Arithmetic
  import opened Sums
  import opened TokenLedger
  import opened IntegerSqrt
  import opened LpPoolModel
  import opened LpPoolFrames
  import opened LpPoolSwaps
  import opened LpPoolRewards
  import opened LpPoolRuns
  import opened DexQuotes

  function Cfg(feeBps: nat): Config {
    Config("pool", "admin", "xlm", "sxlm", feeBps)
  }

  lemma {:induction false} RunAppend(sys: System, first: seq<Action>, second: seq<Action>)
    ensures Run(sys, first + second) == Run(Run(sys, first), second)
    decreases |first|
  {
    if first == [] {
      assert first + second == second;
    } else {
      assert (first + second)[1..] == first[1..] + second;
      RunAppend(Step(sys, first[0]), first[1..], second);
    }
  }

  lemma RunOne(sys: System, a: Action)
    ensures Run(sys, [a]) == Step(sys, a)
  {
    assert [a][1..] == [];
    assert Run(Step(sys, a), []) == Step(sys, a);
  }

  lemma RunStep(sys: System, actions: seq<Action>, a: Action)
    ensures Run(sys, actions + [a]) == Step(Run(sys, actions), a)
  {
    RunAppend(sys, actions, [a]);
    RunOne(Run(sys, actions), a);
  }

  lemma RunThree(sys: System, a: Action, b: Action, c: Action)
    ensures Run(sys, [a]) == Step(sys, a)
    ensures Run(sys, [a, b]) == Step(Step(sys, a), b)
    ensures Run(sys, [a, b, c]) == Step(Step(Step(sys, a), b), c)
  {
    RunOne(sys, a);
    RunStep(sys, [a], b);
    RunStep(sys, [a, b], c);
    assert [a] + [b] == [a, b] && [a, b] + [c] == [a, b, c];
    hide Run, Step;
  }

  /** A deposit whose shares and funds suffice succeeds, and moves nothing but the two amounts. */
  lemma DepositSucceeds(s: Pool, user: Address, xlm: int, sxlm: int, now: nat, d: Deposit)
    requires user != s.cfg.self && s.cfg.native != s.cfg.sxlm && xlm > 0 && sxlm > 0
    requires s.totalLp == 0 || (s.reserveXlm != 0 && s.reserveSxlm != 0)
    requires DepositShares(s, xlm, sxlm) == d && d.minted > 0 && d.xlm > 0 && d.sxlm > 0
    requires Balance(s.bank, s.cfg.native, user) >= d.xlm && Balance(s.bank, s.cfg.sxlm, user) >= d.sxlm
    ensures AddLiquidity(s, user, xlm, sxlm, now).Some?
    ensures var (s', d') := AddLiquidity(s, user, xlm, sxlm, now).value;
            && d' == d
            && s' == Credit(Settle(s, now), user, d).(bank := s'.bank)
            && Balance(s'.bank, s.cfg.native, s.cfg.self) == Balance(s.bank, s.cfg.native, s.cfg.self) + d.xlm
            && Balance(s'.bank, s.cfg.sxlm, s.cfg.self) == Balance(s.bank, s.cfg.sxlm, s.cfg.self) + d.sxlm
            && Balance(s'.bank, s.cfg.native, user) == Balance(s.bank, s.cfg.native, user) - d.xlm
            && Balance(s'.bank, s.cfg.sxlm, user) == Balance(s.bank, s.cfg.sxlm, user) - d.sxlm
            && (forall t, a | a != user && a != s.cfg.self :: Balance(s'.bank, t, a) == Balance(s.bank, t, a))
            && (forall t, a | t != s.cfg.native && t != s.cfg.sxlm :: Balance(s'.bank, t, a) == Balance(s.bank, t, a))
  {
    SettleKeepsHoldings(s, now);
    TransferMoves(s.bank, s.cfg.native, user, s.cfg.self, d.xlm);
    var first := Transfer(s.bank, s.cfg.native, user, s.cfg.self, d.xlm).value;
    assert DepositShares(Settle(s, now), xlm, sxlm) == d;
    TransferMoves(first, s.cfg.sxlm, user, s.cfg.self, d.sxlm);
    hide Settle, DepositShares, Transfer, Credit;
  }

  /** A swap of XLM at the time of the last price observation, by a user and a pool with the funds. */
  lemma XlmSwapSucceeds(s: Pool, user: Address, amount: int, now: nat, out: int)
    requires user != s.cfg.self && s.cfg.native != s.cfg.sxlm && s.cfg.feeBps != 0
    requires s.timestampLast == Some(now)
    requires CheckedOut(s.reserveXlm, s.reserveSxlm, amount, 0, s.cfg.feeBps) == Some(out)
    requires Balance(s.bank, s.cfg.native, user) >= amount && Balance(s.bank, s.cfg.sxlm, s.cfg.self) >= out
    ensures SwapXlmToSxlm(s, user, amount, 0, now).Some?
    ensures var s' := SwapXlmToSxlm(s, user, amount, 0, now).value.0;
            && s'.cfg == s.cfg && s'.timestampLast == s.timestampLast && s'.protocolFeeBps == s.protocolFeeBps
            && s'.reserveXlm == s.reserveXlm + amount - ProtocolCut(amount, s.cfg.feeBps, s.protocolFeeBps)
            && s'.reserveSxlm == s.reserveSxlm - out
            && Balance(s'.bank, s.cfg.native, s.cfg.self) == Balance(s.bank, s.cfg.native, s.cfg.self) + amount
            && Balance(s'.bank, s.cfg.native, user) == Balance(s.bank, s.cfg.native, user) - amount
            && Balance(s'.bank, s.cfg.sxlm, user) == Balance(s.bank, s.cfg.sxlm, user) + out
            && Balance(s'.bank, s.cfg.sxlm, s.cfg.self) == Balance(s.bank, s.cfg.sxlm, s.cfg.self) - out
  {
    AlreadyObserved(s, now);
    TransferMoves(s.bank, s.cfg.native, user, s.cfg.self, amount);
    var first := Transfer(s.bank, s.cfg.native, user, s.cfg.self, amount).value;
    TransferMoves(first, s.cfg.sxlm, s.cfg.self, user, out);
    hide CheckedOut, UpdatePrice, Transfer, ProtocolCut;
  }

  lemma AlreadyObserved(s: Pool, now: nat)
    requires s.timestampLast == Some(now)
    ensures UpdatePrice(s, now) == s
  {
  }

  lemma SxlmSwapSucceeds(s: Pool, user: Address, amount: int, now: nat, out: int)
    requires user != s.cfg.self && s.cfg.native != s.cfg.sxlm
    requires s.timestampLast == Some(now)
    requires CheckedOut(s.reserveSxlm, s.reserveXlm, amount, 0, s.cfg.feeBps) == Some(out)
    requires Balance(s.bank, s.cfg.sxlm, user) >= amount && Balance(s.bank, s.cfg.native, s.cfg.self) >= out
    ensures SwapSxlmToXlm(s, user, amount, 0, now).Some?
    ensures var s' := SwapSxlmToXlm(s, user, amount, 0, now).value.0;
            && s'.cfg == s.cfg && s'.timestampLast == s.timestampLast && s'.protocolFeeBps == s.protocolFeeBps
            && s'.reserveSxlm == s.reserveSxlm + amount
            && s'.reserveXlm == s.reserveXlm - out
            && Balance(s'.bank, s.cfg.sxlm, s.cfg.self) == Balance(s.bank, s.cfg.sxlm, s.cfg.self) + amount
            && Balance(s'.bank, s.cfg.sxlm, user) == Balance(s.bank, s.cfg.sxlm, user) - amount
            && Balance(s'.bank, s.cfg.native, user) == Balance(s.bank, s.cfg.native, user) + out
            && Balance(s'.bank, s.cfg.native, s.cfg.self) == Balance(s.bank, s.cfg.native, s.cfg.self) - out
  {
    AlreadyObserved(s, now);
    TransferMoves(s.bank, s.cfg.sxlm, user, s.cfg.self, amount);
    var first := Transfer(s.bank, s.cfg.sxlm, user, s.cfg.self, amount).value;
    TransferMoves(first, s.cfg.native, s.cfg.self, user, out);
    hide CheckedOut, UpdatePrice, Transfer;
  }

  // ---------- Swaps ----------

  // What the accounts hold before deployment
  const FUNDS: Bank :=
    map[("xlm", "lp") := 1000, ("sxlm", "lp") := 1000, ("xlm", "user") := 113, ("sxlm", "user") := 113,
        ("xlm", "whale") := 10000]

  /** A pool with one deposit. */
  function Seeded(feeBps: nat, xlm: int, sxlm: int): System {
    Step(Start(Cfg(feeBps), FUNDS), Add("lp", xlm, sxlm))
  }

  lemma FundsHeld()
    ensures Balance(FUNDS, "xlm", "lp") == 1000 && Balance(FUNDS, "sxlm", "lp") == 1000
    ensures Balance(FUNDS, "xlm", "user") == 113 && Balance(FUNDS, "sxlm", "user") == 113
    ensures Balance(FUNDS, "xlm", "stranger") == 0 && Balance(FUNDS, "xlm", "whale") == 10000
    ensures Balance(FUNDS, "xlm", "pool") == 0 && Balance(FUNDS, "sxlm", "pool") == 0
  {
  }

  lemma SeededShares(s: Pool, xlm: int, sxlm: int)
    requires s.totalLp == 0 && xlm > 0 && sxlm > 0 && xlm * sxlm == 10000
    ensures DepositShares(s, xlm, sxlm) == Deposit(xlm, sxlm, 100)
  {
    RootUnique(10000, 100);
    hide Root;
  }

  lemma SeededPool(feeBps: nat, xlm: int, sxlm: int)
    requires 0 < xlm <= 1000 && 0 < sxlm <= 1000 && xlm * sxlm == 10000
    ensures var sys := Seeded(feeBps, xlm, sxlm);
            && sys.now == 0
            && sys.pool.cfg == Cfg(feeBps) && sys.pool.protocolFeeBps == 5
            && sys.pool.reserveXlm == xlm && sys.pool.reserveSxlm == sxlm && sys.pool.totalLp == 100
            && sys.pool.timestampLast == Some(0)
            && Balance(sys.pool.bank, "xlm", "pool") == xlm && Balance(sys.pool.bank, "sxlm", "pool") == sxlm
            && Balance(sys.pool.bank, "xlm", "user") == 113 && Balance(sys.pool.bank, "sxlm", "user") == 113
            && Balance(sys.pool.bank, "xlm", "stranger") == 0 && Balance(sys.pool.bank, "xlm", "whale") == 10000
  {
    var sys := Start(Cfg(feeBps), FUNDS);
    FundsHeld();
    SeededShares(sys.pool, xlm, sxlm);
    assert Settle(sys.pool, 0) == sys.pool.(timestampLast := Some(0));
    hide Balance, AddLiquidity, DepositShares, Step, Accrued, Settle;
    DepositSucceeds(sys.pool, "lp", xlm, sxlm, 0, Deposit(xlm, sxlm, 100));
    AddStep(sys, "lp", xlm, sxlm);
  }

  lemma SeededQuotes()
    ensures CheckedOut(1000, 10, 113, 0, 30) == Some(2)
    ensures ProtocolCut(113, 30, 5) == 0 && ProtocolCut(2, 30, 5) == 0
    ensures CheckedOut(8, 1113, 2, 0, 30) == Some(124)
  {
    assert AfterFee(113, 30) == 112;
    assert AfterFee(2, 30) == 1;
  }

  /** What the user holds after a run. */
  predicate UserHolds(sys: System, xlm: int, sxlm: int) {
    Balance(sys.pool.bank, "xlm", "user") == xlm && Balance(sys.pool.bank, "sxlm", "user") == sxlm
  }

  /** A pool at fees of 30 and 5 basis points without accrued fees, its reserves and the user's funds. */
  predicate Trading(sys: System, x: int, y: int, userXlm: int, userSxlm: int) {
    && sys.now == 0 && sys.pool.cfg == Cfg(30) && sys.pool.protocolFeeBps == 5 && sys.pool.timestampLast == Some(0)
    && sys.pool.reserveXlm == x && sys.pool.reserveSxlm == y
    && Balance(sys.pool.bank, "xlm", "pool") == x && Balance(sys.pool.bank, "sxlm", "pool") == y
    && UserHolds(sys, userXlm, userSxlm)
  }

  lemma TradeXlm(sys: System, amount: int, out: int, x: int, y: int, userXlm: int, userSxlm: int)
    requires Trading(sys, x, y, userXlm, userSxlm) && amount <= userXlm && out <= y
    requires CheckedOut(x, y, amount, 0, 30) == Some(out) && ProtocolCut(amount, 30, 5) == 0
    ensures Trading(Step(sys, SwapXlm("user", amount, 0)), x + amount, y - out, userXlm - amount, userSxlm + out)
  {
    hide CheckedOut, ProtocolCut, SwapXlmToSxlm, Balance, Step;
    XlmSwapSucceeds(sys.pool, "user", amount, 0, out);
    SwapXlmStep(sys, "user", amount);
  }

  lemma TradeSxlm(sys: System, amount: int, out: int, x: int, y: int, userXlm: int, userSxlm: int)
    requires Trading(sys, x, y, userXlm, userSxlm) && amount <= userSxlm && out <= x
    requires CheckedOut(y, x, amount, 0, 30) == Some(out)
    ensures Trading(Step(sys, SwapSxlm("user", amount, 0)), x - out, y + amount, userXlm + out, userSxlm - amount)
  {
    hide CheckedOut, ProtocolCut, SwapSxlmToXlm, Balance, Step;
    SxlmSwapSucceeds(sys.pool, "user", amount, 0, out);
    SwapSxlmStep(sys, "user", amount);
  }

  lemma SeededTrading(xlm: int, sxlm: int)
    requires 0 < xlm <= 1000 && 0 < sxlm <= 1000 && xlm * sxlm == 10000
    ensures Trading(Seeded(30, xlm, sxlm), xlm, sxlm, 113, 113)
  {
    SeededPool(30, xlm, sxlm);
    hide Seeded, Balance;
  }

  /**
   From deployment, with fees in range: after one deposit, a user who swaps 113 stroops of XLM and
   the proceeds back has 11 more and as much sXLM as before; the first leg lowers the product.
   */
  lemma RoundTripCanProfit()
    ensures var start := Start(Cfg(30), FUNDS);
            var seeded := Run(start, [Add("lp", 1000, 10)]);
            var swapped := Run(start, [Add("lp", 1000, 10), SwapXlm("user", 113, 0)]);
            var back := Run(start, [Add("lp", 1000, 10), SwapXlm("user", 113, 0), SwapSxlm("user", 2, 0)]);
            && FeesInRange(start.pool)
            && UserHolds(seeded, 113, 113)
            && Product(swapped.pool) < Product(seeded.pool)
            && UserHolds(back, 124, 113)
  {
    var start := Start(Cfg(30), FUNDS);
    var s0 := Seeded(30, 1000, 10);
    RunThree(start, Add("lp", 1000, 10), SwapXlm("user", 113, 0), SwapSxlm("user", 2, 0));
    assert FeesInRange(start.pool) && s0 == Step(start, Add("lp", 1000, 10));
    hide Start, Step, Run, Seeded, Balance, CheckedOut, ProtocolCut;
    SeededTrading(1000, 10);
    SeededQuotes();
    TradeXlm(s0, 113, 2, 1000, 10, 113, 113);
    TradeSxlm(Step(s0, SwapXlm("user", 113, 0)), 2, 124, 1113, 8, 0, 115);
  }

  /** The same in the other direction. */
  lemma RoundTripFromSxlmCanProfit()
    ensures var start := Start(Cfg(30), FUNDS);
            var seeded := Run(start, [Add("lp", 10, 1000)]);
            var swapped := Run(start, [Add("lp", 10, 1000), SwapSxlm("user", 113, 0)]);
            var back := Run(start, [Add("lp", 10, 1000), SwapSxlm("user", 113, 0), SwapXlm("user", 2, 0)]);
            && FeesInRange(start.pool)
            && UserHolds(seeded, 113, 113)
            && Product(swapped.pool) < Product(seeded.pool)
            && UserHolds(back, 113, 124)
  {
    var start := Start(Cfg(30), FUNDS);
    var s0 := Seeded(30, 10, 1000);
    RunThree(start, Add("lp", 10, 1000), SwapSxlm("user", 113, 0), SwapXlm("user", 2, 0));
    assert FeesInRange(start.pool) && s0 == Step(start, Add("lp", 10, 1000));
    hide Start, Step, Run, Seeded, Balance, CheckedOut, ProtocolCut;
    SeededTrading(10, 1000);
    SeededQuotes();
    TradeSxlm(s0, 113, 2, 10, 1000, 113, 113);
    TradeXlm(Step(s0, SwapSxlm("user", 113, 0)), 2, 124, 8, 1113, 115, 0);
  }

  // ---------- Quotes that do not execute ----------

  /** A quote on the current reserves that the same pool then refuses. */
  predicate Refused(sys: System, user: Address, amount: int, slippageBps: int) {
    var quote := QuoteExactIn(SnapshotOf(sys.pool), Xlm, amount, slippageBps);
    && quote.Some?
    && SwapXlmToSxlm(sys.pool, user, amount, quote.value.minimumOut, sys.now).None?
  }

  /** A quote of a pool with 1000 XLM and 10 sXLM. */
  lemma QuotedOut(amount: int, feeBps: nat, out: int, slippageBps: int)
    requires amount > 0 && 0 < out == ApplyConstantProductQuote(1000, 10, amount, feeBps)
    ensures var quote := QuoteExactIn(SnapshotOf(Seeded(feeBps, 1000, 10).pool), Xlm, amount, slippageBps);
            quote.Some? && quote.value.out == out
  {
    SeededPool(feeBps, 1000, 10);
    hide Seeded, ApplyConstantProductQuote;
  }

  /**
   One quote for each cause, all else being as it should: an output of the whole reserve, a fee of
   zero, a user without the funds, and a negative slippage that asks for more than was quoted.
   */
  lemma QuoteCanFail()
    ensures Refused(Seeded(30, 1000, 10), "whale", 10000, 50)
    ensures Refused(Seeded(0, 1000, 10), "user", 113, 50)
    ensures Refused(Seeded(30, 1000, 10), "stranger", 113, 50)
    ensures Refused(Seeded(30, 1000, 10), "user", 113, -5000)
  {
    SeededPool(30, 1000, 10);
    SeededPool(0, 1000, 10);
    assert AfterFee(10000, 30) == 9970 && AfterFee(113, 0) == 113 && AfterFee(113, 30) == 112;
    QuotedOut(10000, 30, 10, 50);
    QuotedOut(113, 0, 2, 50);
    QuotedOut(113, 30, 2, 50);
    QuotedOut(113, 30, 2, -5000);
    hide Seeded, SwapXlmToSxlm, ApplyConstantProductQuote, QuoteExactIn, Balance;
    QuoteExecutes(Seeded(30, 1000, 10).pool, Xlm, "whale", 10000, 50, 0);
    QuoteExecutes(Seeded(0, 1000, 10).pool, Xlm, "user", 113, 50, 0);
    QuoteExecutes(Seeded(30, 1000, 10).pool, Xlm, "stranger", 113, 50, 0);
    QuoteExecutes(Seeded(30, 1000, 10).pool, Xlm, "user", 113, -5000, 0);
  }

  // ---------- Rewards ahead of distribution ----------

  // Three providers, and the rewards already in the pool's hands
  const PROVIDERS: Bank :=
    map[("xlm", "a") := 3, ("sxlm", "a") := 3, ("xlm", "b") := 1, ("sxlm", "b") := 1,
        ("xlm", "c") := 1, ("sxlm", "c") := 1, ("reward", "pool") := 100]

  /** One unit of reward per second, after a deposit of two units of each token. */
  const SETUP: seq<Action> := [Add("a", 2, 2), SetProgram("admin", "reward", 1, 100, 0, 100), Tick]

  function Running(distributed: int): Program {
    Program("reward", 1, 100, distributed, 0, 100)
  }

  /** What the scenario depends on. */
  predicate Mining(sys: System, now: nat, rewrites: nat, total: int, lp: map<Address, int>, debt: map<Address, int>,
                   acc: int, last: nat, distributed: int)
  {
    var s := sys.pool;
    && sys.now == now && sys.paid == 0 && sys.rewrites == rewrites
    && s.cfg == Cfg(30)
    && s.reserveXlm == total && s.reserveSxlm == total && s.totalLp == total
    && s.lp == lp && s.debt == debt && s.acc == acc && s.lastRewardTime == Some(last)
    && s.program == Some(Running(distributed))
    && Balance(s.bank, "reward", "pool") == 100
  }

  predicate Funded(sys: System, user: Address) {
    Balance(sys.pool.bank, "xlm", user) == 1 && Balance(sys.pool.bank, "sxlm", user) == 1
  }

  lemma ProvidersHold()
    ensures Balance(PROVIDERS, "xlm", "a") == 3 && Balance(PROVIDERS, "sxlm", "a") == 3
    ensures Balance(PROVIDERS, "xlm", "b") == 1 && Balance(PROVIDERS, "sxlm", "b") == 1
    ensures Balance(PROVIDERS, "xlm", "c") == 1 && Balance(PROVIDERS, "sxlm", "c") == 1
    ensures Balance(PROVIDERS, "reward", "pool") == 100
  {
  }

  lemma FirstShares(s: Pool)
    requires s.totalLp == 0 && s.acc == 0
    ensures DepositShares(s, 2, 2) == Deposit(2, 2, 2) && Accrued(2, s.acc) == 0
  {
    RootUnique(4, 2);
    hide Root;
  }

  lemma FirstDeposit()
    ensures var sys := Step(Start(Cfg(30), PROVIDERS), Add("a", 2, 2));
            && sys.now == 0
            && sys.pool.cfg == Cfg(30) && sys.pool.program == None && sys.pool.lastRewardTime == None && sys.pool.acc == 0
            && sys.pool.reserveXlm == 2 && sys.pool.reserveSxlm == 2 && sys.pool.totalLp == 2
            && sys.pool.lp == map["a" := 2] && sys.pool.debt == map["a" := 0]
            && Balance(sys.pool.bank, "reward", "pool") == 100
            && Funded(sys, "a") && Funded(sys, "b") && Funded(sys, "c")
  {
    var sys := Start(Cfg(30), PROVIDERS);
    ProvidersHold();
    FirstShares(sys.pool);
    assert Settle(sys.pool, 0) == sys.pool.(timestampLast := Some(0));
    hide Balance, AddLiquidity, DepositShares, Step, Accrued, Settle;
    DepositSucceeds(sys.pool, "a", 2, 2, 0, Deposit(2, 2, 2));
    AddStep(sys, "a", 2, 2);
  }

  lemma ProgramSet()
    ensures var sys := Run(Start(Cfg(30), PROVIDERS), SETUP);
            && Mining(sys, 1, 0, 2, map["a" := 2], map["a" := 0], 0, 0, 0)
            && Funded(sys, "a") && Funded(sys, "b") && Funded(sys, "c")
  {
    FirstDeposit();
    var start := Start(Cfg(30), PROVIDERS);
    var first := Step(start, SETUP[0]);
    var second := Step(first, SETUP[1]);
    assert SETUP[1..] == [SETUP[1], SETUP[2]] && SETUP[1..][1..] == [SETUP[2]] && SETUP[1..][1..][1..] == [];
    assert Mining(second, 0, 0, 2, map["a" := 2], map["a" := 0], 0, 0, 0);
    assert Run(start, SETUP) == Step(second, Tick);
    hide Balance;
  }

  /** What an update accrues while the program runs at one unit per second. */
  lemma Accrues(s: Pool, now: nat, last: nat, distributed: int)
    requires s.program == Some(Running(distributed)) && s.lastRewardTime == Some(last) && s.totalLp > 0
    requires last <= now <= 100 && distributed + (now - last) <= 100
    ensures var u := UpdatePool(s, now);
            && u.program == Some(Running(distributed + (now - last))) && u.lastRewardTime == Some(now)
            && u.acc == s.acc + Quot((now - last) * PRECISION, s.totalLp)
            && u.lp == s.lp && u.debt == s.debt
  {
    if now == last {
      assert Quot(0, s.totalLp) == 0;
    }
    hide Quot;
  }

  lemma AccruesSettled(s: Pool, now: nat, last: nat, distributed: int)
    requires s.program == Some(Running(distributed)) && s.lastRewardTime == Some(last) && s.totalLp > 0
    requires last <= now <= 100 && distributed + (now - last) <= 100
    ensures var u := Settle(s, now);
            && u.program == Some(Running(distributed + (now - last))) && u.lastRewardTime == Some(now)
            && u.acc == s.acc + Quot((now - last) * PRECISION, s.totalLp)
            && u.lp == s.lp && u.debt == s.debt
  {
    PriceKeepsMining(s, now);
    Accrues(UpdatePrice(s, now), now, last, distributed);
    hide UpdatePool, UpdatePrice;
  }

  /** In a pool whose reserves equal its supply, one unit of each token buys one share. */
  lemma EvenDeposit(sys: System, user: Address, rewrites: nat, total: int, lp: map<Address, int>,
                    debt: map<Address, int>, acc: int, last: nat, distributed: int, gain: int)
    requires Mining(sys, 1, rewrites, total, lp, debt, acc, last, distributed) && total > 0
    requires Funded(sys, user) && user != "pool" && user !in lp && last <= 1 && 0 <= distributed <= 1
    requires gain == Quot((1 - last) * PRECISION, total) && 0 <= acc + gain < PRECISION
    ensures Mining(Step(sys, Add(user, 1, 1)), 1, rewrites + 1, total + 1, lp[user := 1], debt[user := 0],
                   acc + gain, 1, distributed + 1 - last)
    ensures forall other | other != user && other != "pool" && Funded(sys, other) ::
              Funded(Step(sys, Add(user, 1, 1)), other)
  {
    var s := sys.pool;
    EvenShares(s, total);
    assert Accrued(1, acc + gain) == 0;
    hide Step, AddLiquidity, Settle, DepositShares, Balance, Quot, Accrued;
    DepositSucceeds(s, user, 1, 1, 1, Deposit(1, 1, 1));
    AccruesSettled(s, 1, last, distributed);
    SettleKeepsHoldings(s, 1);
    AddStep(sys, user, 1, 1);
  }

  lemma EvenShares(s: Pool, total: int)
    requires s.totalLp == total && s.reserveXlm == total && s.reserveSxlm == total && total > 0
    ensures DepositShares(s, 1, 1) == Deposit(1, 1, 1)
  {
    assert Quot(1 * total, total) == 1;
  }

  const SHARES: map<Address, int> := map["a" := 2, "b" := 1, "c" := 1]
  const NO_DEBT: map<Address, int> := map["a" := 0, "b" := 0, "c" := 0]

  /** The state of the scenario from the third second on. */
  predicate Paying(sys: System, rewrites: nat, paid: int, debt: map<Address, int>, acc: int, last: nat, distributed: int) {
    var s := sys.pool;
    && sys.now == 3 && sys.paid == paid && sys.rewrites == rewrites
    && s.cfg == Cfg(30) && s.totalLp == 4 && s.lp == SHARES && s.debt == debt
    && s.acc == acc && s.lastRewardTime == Some(last) && s.program == Some(Running(distributed))
    && Balance(s.bank, "reward", "pool") == 100 - paid
  }

  /** The first deposit before the program, two more in its first second, and two seconds of waiting. */
  const JOINED: seq<Action> := SETUP + [Add("b", 1, 1)] + [Add("c", 1, 1)] + [Tick, Tick]

  lemma SecondDeposit(sys: System)
    requires Mining(sys, 1, 0, 2, map["a" := 2], map["a" := 0], 0, 0, 0) && Funded(sys, "b") && Funded(sys, "c")
    ensures Mining(Step(sys, Add("b", 1, 1)), 1, 1, 3, map["a" := 2, "b" := 1], map["a" := 0, "b" := 0],
                   500_000_000_000, 1, 1)
    ensures Funded(Step(sys, Add("b", 1, 1)), "c")
  {
    hide Step, Balance;
    var lp, debt: map<Address, int> := map["a" := 2], map["a" := 0];
    assert lp["b" := 1] == map["a" := 2, "b" := 1] && debt["b" := 0] == map["a" := 0, "b" := 0];
    EvenDeposit(sys, "b", 0, 2, lp, debt, 0, 0, 0, 500_000_000_000);
  }

  lemma SecondJoined()
    ensures var sys := Run(Start(Cfg(30), PROVIDERS), SETUP + [Add("b", 1, 1)]);
            && Mining(sys, 1, 1, 3, map["a" := 2, "b" := 1], map["a" := 0, "b" := 0], 500_000_000_000, 1, 1)
            && Funded(sys, "c")
  {
    ProgramSet();
    hide Step, Run, Start, Mining, Funded;
    SecondDeposit(Run(Start(Cfg(30), PROVIDERS), SETUP));
    RunStep(Start(Cfg(30), PROVIDERS), SETUP, Add("b", 1, 1));
  }

  lemma ThirdJoined()
    ensures Mining(Run(Start(Cfg(30), PROVIDERS), SETUP + [Add("b", 1, 1)] + [Add("c", 1, 1)]),
                   1, 2, 4, SHARES, NO_DEBT, 500_000_000_000, 1, 1)
  {
    SecondJoined();
    var start := Start(Cfg(30), PROVIDERS);
    var s2 := Run(start, SETUP + [Add("b", 1, 1)]);
    var lp, debt: map<Address, int> := map["a" := 2, "b" := 1], map["a" := 0, "b" := 0];
    EvenDeposit(s2, "c", 1, 3, lp, debt, 500_000_000_000, 1, 1, 0);
    RunStep(start, SETUP + [Add("b", 1, 1)], Add("c", 1, 1));
    hide Step, Run, Balance, Start;
    assert lp["c" := 1] == SHARES && debt["c" := 0] == NO_DEBT;
  }

  lemma Joined()
    ensures Paying(Run(Start(Cfg(30), PROVIDERS), JOINED), 2, 0, NO_DEBT, 500_000_000_000, 1, 1)
  {
    ThirdJoined();
    var start := Start(Cfg(30), PROVIDERS);
    RunAppend(start, SETUP + [Add("b", 1, 1)] + [Add("c", 1, 1)], [Tick, Tick]);
    TwoTicks(Run(start, SETUP + [Add("b", 1, 1)] + [Add("c", 1, 1)]));
    hide Step, Run, Balance, Start;
  }

  lemma TwoTicks(sys: System)
    ensures Run(sys, [Tick, Tick]).now == sys.now + 2
    ensures var sys' := Run(sys, [Tick, Tick]);
            sys' == sys.(now := sys'.now, history := sys'.history, supplies := sys'.supplies)
  {
    assert [Tick, Tick][1..] == [Tick] && [Tick][1..] == [];
    assert Run(sys, [Tick, Tick]) == Step(Step(sys, Tick), Tick);
  }

  /** What a holder without debt is paid once a share has earned one unit. */
  lemma ClaimTaken(s: Pool, user: Address, acc: int, last: nat, distributed: int)
    requires s.cfg == Cfg(30) && s.totalLp == 4 && s.program == Some(Running(distributed)) && s.lastRewardTime == Some(last)
    requires last <= 3 && 0 <= distributed <= 3 && s.acc == acc && acc + Quot((3 - last) * PRECISION, 4) == PRECISION
    requires user in s.lp && 0 < s.lp[user] <= 2 && Get(s.debt, user) == 0 && user != "pool"
    requires Balance(s.bank, "reward", "pool") >= s.lp[user]
    ensures ClaimRewards(s, user, 3).Some?
    ensures var (s', reward) := ClaimRewards(s, user, 3).value;
            && reward == s.lp[user]
            && s'.cfg == s.cfg && s'.totalLp == 4 && s'.lp == s.lp && s'.debt == s.debt[user := reward]
            && s'.acc == PRECISION && s'.lastRewardTime == Some(3) && s'.program == Some(Running(distributed + 3 - last))
            && Balance(s'.bank, "reward", "pool") == Balance(s.bank, "reward", "pool") - reward
  {
    assert Accrued(s.lp[user], PRECISION) == s.lp[user];
    Accrues(s, 3, last, distributed);
    UpdateKeepsHoldings(s, 3);
    TransferMoves(UpdatePool(s, 3).bank, "reward", "pool", user, s.lp[user]);
    hide UpdatePool, Transfer, Accrued, Quot, Balance;
  }

  lemma ClaimPays(sys: System, user: Address, paid: int, debt: map<Address, int>, acc: int, last: nat, distributed: int)
    requires Paying(sys, 2, paid, debt, acc, last, distributed)
    requires 1 <= last <= 3 && 0 <= distributed <= 3 && 0 <= paid <= 3
    requires acc + Quot((3 - last) * PRECISION, 4) == PRECISION
    requires user in SHARES && 0 < SHARES[user] <= 2 && Get(debt, user) == 0 && user != "pool"
    ensures Paying(Step(sys, Claim(user)), 2, paid + SHARES[user], debt[user := SHARES[user]], PRECISION, 3,
                   distributed + 3 - last)
  {
    hide Step, ClaimRewards, Quot, Balance;
    ClaimTaken(sys.pool, user, acc, last, distributed);
    ClaimStep(sys, user);
  }

  /** The run above and a claim by each holder. */
  const CLAIMED: seq<Action> := JOINED + [Claim("a")] + [Claim("b")] + [Claim("c")]

  /** Four units are paid and three distributed. */
  predicate Ahead(sys: System, rewrites: nat) {
    Paying(sys, rewrites, 4, sys.pool.debt, PRECISION, 3, 3)
  }

  /** The three claims, from any state in which a share has earned half a unit and two seconds are due. */
  lemma ThreeClaims(sys: System)
    requires Paying(sys, 2, 0, NO_DEBT, 500_000_000_000, 1, 1)
    ensures Ahead(Step(Step(Step(sys, Claim("a")), Claim("b")), Claim("c")), 2)
  {
    var debt1 := NO_DEBT["a" := 2];
    var debt2 := debt1["b" := 1];
    assert Get(NO_DEBT, "a") == 0 && Get(debt1, "b") == 0 && Get(debt2, "c") == 0;
    hide Step, Paying, Get;
    ClaimPays(sys, "a", 0, NO_DEBT, 500_000_000_000, 1, 1);
    var s1 := Step(sys, Claim("a"));
    ClaimPays(s1, "b", 2, debt1, PRECISION, 3, 3);
    var s2 := Step(s1, Claim("b"));
    ClaimPays(s2, "c", 3, debt2, PRECISION, 3, 3);
    DebtOf(Step(s2, Claim("c")), debt2["c" := 1]);
  }

  lemma DebtOf(sys: System, debt: map<Address, int>)
    requires Paying(sys, 2, 4, debt, PRECISION, 3, 3)
    ensures Ahead(sys, 2)
  {
  }

  /** Four units are paid when three have been distributed, after two rewrites. */
  lemma PaidAhead()
    ensures Ahead(Run(Start(Cfg(30), PROVIDERS), CLAIMED), 2)
  {
    Joined();
    var start := Start(Cfg(30), PROVIDERS);
    hide Step, Run, Start, Paying, Ahead;
    ThreeClaims(Run(start, JOINED));
    RunStep(start, JOINED, Claim("a"));
    RunStep(start, JOINED + [Claim("a")], Claim("b"));
    RunStep(start, JOINED + [Claim("a")] + [Claim("b")], Claim("c"));
  }

  function Idle(n: nat): seq<Action> {
    seq(n, _ => Claim("nobody"))
  }

  /** Claims by an account without shares are rewrites that change nothing else. */
  lemma {:induction false} IdleClaims(sys: System, n: nat, rewrites: nat)
    requires Ahead(sys, rewrites)
    ensures Ahead(Run(sys, Idle(n)), rewrites + n)
    decreases n
  {
    if n > 0 {
      assert Idle(n)[1..] == Idle(n - 1) && Idle(n)[0] == Claim("nobody");
      IdleClaim(sys, rewrites);
      IdleClaims(Step(sys, Claim("nobody")), n - 1, rewrites + 1);
      hide Step, Ahead;
    }
  }

  lemma IdleClaim(sys: System, rewrites: nat)
    requires Ahead(sys, rewrites)
    ensures Ahead(Step(sys, Claim("nobody")), rewrites + 1)
  {
    Accrues(sys.pool, 3, 3, 3);
    UpdateKeepsHoldings(sys.pool, 3);
    assert "nobody" !in SHARES;
    assert Accrued(0, PRECISION) == 0 && Quot(0, 4) == 0;
    hide UpdatePool, Transfer, Accrued, Quot, Balance;
  }

  /**
   The number of debt rewrites decides: payouts stay within what was distributed in every run with
   that many rewrites if and only if there is at most one.
   */
  lemma OvershootThreshold(rewrites: nat)
    ensures rewrites <= 1 <==>
            forall cfg, bank, actions :: Run(Start(cfg, bank), actions).rewrites == rewrites ==>
              Run(Start(cfg, bank), actions).paid <= Distributed(Run(Start(cfg, bank), actions).pool)
  {
    if rewrites <= 1 {
      forall cfg, bank, actions | Run(Start(cfg, bank), actions).rewrites == rewrites
        ensures Run(Start(cfg, bank), actions).paid <= Distributed(Run(Start(cfg, bank), actions).pool)
      {
        RewardBudget(cfg, bank, actions);
      }
    } else {
      var start := Start(Cfg(30), PROVIDERS);
      PaidAhead();
      var s := Run(start, CLAIMED);
      IdleClaims(s, rewrites - 2, 2);
      RunAppend(start, CLAIMED, Idle(rewrites - 2));
      var end := Run(start, CLAIMED + Idle(rewrites - 2));
      assert end.rewrites == rewrites && end.paid > Distributed(end.pool);
    }
  }

  // ---------- A reward forfeited ----------

  /** The first provider's second deposit loses the unit it had earned. */
  lemma DepositCanForfeit()
    ensures var s := Run(Start(Cfg(30), PROVIDERS), SETUP).pool;
            && SharesOk(s)
            && PendingRewards(s, "a", 1) == 1
            && AddLiquidity(s, "a", 1, 1, 1).Some?
            && PendingRewards(AddLiquidity(s, "a", 1, 1, 1).value.0, "a", 1) == 0
            && Entitled(AddLiquidity(s, "a", 1, 1, 1).value.0, "a", "reward", 1) == Entitled(s, "a", "reward", 1) - 1
  {
    ProgramSet();
    var s := Run(Start(Cfg(30), PROVIDERS), SETUP).pool;
    RewardBudget(Cfg(30), PROVIDERS, SETUP);
    hide Step, Run, Start, Balance, SharesOk, WithinBudget;
    OneUnitPending(s);
    assert DepositShares(s, 1, 1) == Deposit(1, 1, 1);
    DepositSucceeds(s, "a", 1, 1, 1, Deposit(1, 1, 1));
    DepositForfeits(s, "a", 1, 1, 1);
    hide AddLiquidity, PendingRewards;
    assert PendingIn(s, "a", "reward", 1) == 1 && Taken(s.cfg, Deposit(1, 1, 1), "reward") == 0;
  }

  lemma OneUnitPending(s: Pool)
    requires s.program == Some(Running(0)) && s.lastRewardTime == Some(0) && s.totalLp == 2 && s.acc == 0
    requires s.lp == map["a" := 2] && s.debt == map["a" := 0]
    ensures PendingRewards(s, "a", 1) == 1
  {
    Accrues(s, 1, 0, 0);
    ProjectionIsUpdate(s, 1);
    hide UpdatePool, ProjectedAcc;
  }
}
