/**
 Exactly when a call of the pool is accepted and what it then does, in the numbers of storage alone:
 every amount is pinned by the products it lies between.
 */
module LpPoolCalls {
  import opened Wrappers
  import opened Arithmetic
  import opened Sums
  import opened TokenLedger
  import opened IntegerSqrt
  import opened LpPoolModel
  import opened LpPoolFrames
  import opened LpPoolSwaps
  import opened LpPoolShares
  import opened LpPoolRewards

  // ---------- Swaps ----------

  /** What a swap never touches: shares, rewards and settings. */
  predicate OnlyReserves(s: Pool, s': Pool) {
    SameMining(s, s') && s'.cfg == s.cfg && s'.protocolFeeBps == s.protocolFeeBps && s'.governance == s.governance
    && s'.lastRewardTime == s.lastRewardTime
  }

  /** An input net of fee is the floor of its fraction; it is not positive at a fee of the whole. */
  lemma NetOfFee(amount: int, feeBps: nat, net: int)
    requires amount > 0 && IsFloor(net, amount * (10_000 - feeBps), 10_000)
    ensures net > 0 ==> AfterFee(amount, feeBps) == net
    ensures net <= 0 ==> AfterFee(amount, feeBps) <= 0
    ensures 0 <= net ==> net <= amount
  {
    if feeBps <= 10_000 {
      MulPositive(amount, 10_000 - feeBps);
      FloorIsQuot(net, amount * (10_000 - feeBps), 10_000);
      MulLe(10_000 - feeBps, 10_000, amount);
      MulCommutes(10_000 - feeBps, amount);
    } else {
      MulPositive(amount, feeBps - 10_000);
      assert amount * (10_000 - feeBps) == -(amount * (feeBps - 10_000));
    }
  }

  /**
   The shared guards: accepted exactly when everything is positive and the output, with the floor
   quotient `left` staying in the pool, is positive, below the reserve and at least the minimum.
   */
  lemma GuardsExactly(reserveIn: int, reserveOut: int, amount: int, minOut: int, feeBps: nat, net: int, left: int)
    requires amount > 0 ==> IsFloor(net, amount * (10_000 - feeBps), 10_000)
    requires reserveIn > 0 && net > 0 ==> IsFloor(left, reserveIn * reserveOut, reserveIn + net)
    ensures var ok := amount > 0 && reserveIn > 0 && net > 0 && 0 < left < reserveOut && reserveOut - left >= minOut;
            CheckedOut(reserveIn, reserveOut, amount, minOut, feeBps) == if ok then Some(reserveOut - left) else None
  {
    if amount > 0 && reserveIn > 0 && reserveOut > 0 {
      NetOfFee(amount, feeBps, net);
      hide AfterFee;
      MulPositive(reserveIn, reserveOut);
      if net > 0 {
        FloorIsQuot(left, reserveIn * reserveOut, reserveIn + net);
      } else if CheckedOut(reserveIn, reserveOut, amount, minOut, feeBps).Some? {
        AcceptedOut(reserveIn, reserveOut, amount, minOut, feeBps);
        NoGainWithoutInput(reserveIn, reserveOut, AfterFee(amount, feeBps));
      }
    } else if net > 0 && reserveIn > 0 && reserveOut <= 0 {
      hide AfterFee;
    }
  }

  lemma NoGainWithoutInput(reserveIn: int, reserveOut: int, net: int)
    requires reserveIn > 0 && reserveOut > 0 && net <= 0 && reserveIn + net > 0
    ensures Quot(reserveIn * reserveOut, reserveIn + net) >= reserveOut
  {
    MulPositive(reserveIn, reserveOut);
    MulLe(reserveIn + net, reserveIn, reserveOut);
    MulCommutes(reserveIn + net, reserveOut);
    QuotAtLeast(reserveIn * reserveOut, reserveIn + net, reserveOut);
  }

  /** The parameters of a swap's law: the net input and what stays of the output token, as floors. */
  predicate SwapFloors(reserveIn: int, reserveOut: int, amount: int, feeBps: nat, net: int, left: int) {
    && (amount > 0 ==> IsFloor(net, amount * (10_000 - feeBps), 10_000))
    && (reserveIn > 0 && net > 0 ==> IsFloor(left, reserveIn * reserveOut, reserveIn + net))
  }

  predicate SwapInRange(reserveIn: int, reserveOut: int, amount: int, minOut: int, net: int, left: int) {
    amount > 0 && reserveIn > 0 && net > 0 && 0 < left < reserveOut && reserveOut - left >= minOut
  }

  /**
   An XLM swap: when it is accepted, and then the reserves, the protocol's part of the fee (the
   floor of fee times protocol rate over fee rate) and the tokens that change hands.
   */
  lemma SwapXlmExactly(s: Pool, user: Address, amount: int, minOut: int, now: nat, net: int, left: int)
    requires SwapFloors(s.reserveXlm, s.reserveSxlm, amount, s.cfg.feeBps, net, left)
    requires s.protocolFeeBps >= 0
    ensures var r := SwapXlmToSxlm(s, user, amount, minOut, now);
            var out := s.reserveSxlm - left;
            var moved := TransferBoth(s.bank, s.cfg.native, user, s.cfg.self, amount, s.cfg.sxlm, s.cfg.self, user, out);
            && (r.Some? <==> user != s.cfg.self && s.cfg.feeBps != 0 && moved.Some?
                             && SwapInRange(s.reserveXlm, s.reserveSxlm, amount, minOut, net, left))
            && (r.Some? ==>
                  var s' := r.value.0;
                  var cut := s'.accruedFees - s.accruedFees;
                  && r.value.1 == out
                  && IsFloor(cut, (amount - net) * s.protocolFeeBps, s.cfg.feeBps)
                  && s'.reserveXlm == s.reserveXlm + amount - cut
                  && s'.reserveSxlm == left
                  && s'.bank == moved.value
                  && OnlyReserves(s, s'))
  {
    GuardsExactly(s.reserveXlm, s.reserveSxlm, amount, minOut, s.cfg.feeBps, net, left);
    PriceKeepsHoldings(s, now);
    PriceKeepsMining(s, now);
    hide CheckedOut, UpdatePrice, TransferBoth, Quot, AfterFee, IsFloor;
    if SwapInRange(s.reserveXlm, s.reserveSxlm, amount, minOut, net, left) && s.cfg.feeBps != 0 {
      NetOfFee(amount, s.cfg.feeBps, net);
      MulPositive(amount - net, s.protocolFeeBps);
      QuotIsFloor((amount - net) * s.protocolFeeBps, s.cfg.feeBps);
    }
  }

  /** An sXLM swap pays no protocol fee: the whole input stays in the reserve. */
  lemma SwapSxlmExactly(s: Pool, user: Address, amount: int, minOut: int, now: nat, net: int, left: int)
    requires SwapFloors(s.reserveSxlm, s.reserveXlm, amount, s.cfg.feeBps, net, left)
    ensures var r := SwapSxlmToXlm(s, user, amount, minOut, now);
            var out := s.reserveXlm - left;
            var moved := TransferBoth(s.bank, s.cfg.sxlm, user, s.cfg.self, amount, s.cfg.native, s.cfg.self, user, out);
            && (r.Some? <==> user != s.cfg.self && moved.Some?
                             && SwapInRange(s.reserveSxlm, s.reserveXlm, amount, minOut, net, left))
            && (r.Some? ==>
                  var s' := r.value.0;
                  && r.value.1 == out
                  && s'.reserveSxlm == s.reserveSxlm + amount
                  && s'.reserveXlm == left
                  && s'.accruedFees == s.accruedFees
                  && s'.bank == moved.value
                  && OnlyReserves(s, s'))
  {
    GuardsExactly(s.reserveSxlm, s.reserveXlm, amount, minOut, s.cfg.feeBps, net, left);
    PriceKeepsHoldings(s, now);
    PriceKeepsMining(s, now);
    hide CheckedOut, UpdatePrice, TransferBoth, IsFloor;
  }

  // ---------- Liquidity ----------

  /**
   What a deposit takes of a live pool. The shares are the most that both offers are worth; the offer
   worth no more than them is taken whole, of the other only the floor of the shares' worth.
   */
  predicate FairShare(s: Pool, xlm: int, sxlm: int, d: Deposit) {
    var m, t := d.minted, s.totalLp;
    && m * s.reserveXlm <= xlm * t && m * s.reserveSxlm <= sxlm * t
    && if (m + 1) * s.reserveSxlm <= sxlm * t
       then xlm * t < (m + 1) * s.reserveXlm && d.xlm == xlm && IsFloor(d.sxlm, m * s.reserveSxlm, t)
       else d.sxlm == sxlm && IsFloor(d.xlm, m * s.reserveXlm, t)
  }

  /** The first deposit is taken whole and mints the floor of the root of the product. */
  predicate FirstShare(xlm: int, sxlm: int, d: Deposit) {
    d.xlm == xlm && d.sxlm == sxlm && d.minted >= 0
    && d.minted * d.minted <= xlm * sxlm < (d.minted + 1) * (d.minted + 1)
  }

  predicate DepositFloors(s: Pool, xlm: int, sxlm: int, d: Deposit) {
    if s.totalLp == 0 then FirstShare(xlm, sxlm, d) else FairShare(s, xlm, sxlm, d)
  }

  lemma SharesAreFair(s: Pool, xlm: int, sxlm: int)
    requires Balanced(s) && s.totalLp > 0 && xlm > 0 && sxlm > 0
    ensures DepositShares(s, xlm, sxlm).minted >= 0 && FairShare(s, xlm, sxlm, DepositShares(s, xlm, sxlm))
  {
    var t := s.totalLp;
    var fromXlm, fromSxlm := Quot(xlm * t, s.reserveXlm), Quot(sxlm * t, s.reserveSxlm);
    MulPositive(xlm, t);
    MulPositive(sxlm, t);
    QuotIsFloor(xlm * t, s.reserveXlm);
    QuotIsFloor(sxlm * t, s.reserveSxlm);
    var m := DepositShares(s, xlm, sxlm).minted;
    MulPositive(m, s.reserveXlm);
    MulPositive(m, s.reserveSxlm);
    QuotIsFloor(m * s.reserveXlm, t);
    QuotIsFloor(m * s.reserveSxlm, t);
    hide Quot;
    if fromXlm < fromSxlm {
      MulLe(m, fromSxlm, s.reserveSxlm);
      MulLe(m + 1, fromSxlm, s.reserveSxlm);
    } else {
      MulLe(m, fromXlm, s.reserveXlm);
    }
  }

  /** At most one share count is the most both offers are worth. */
  lemma FairShareUnique(s: Pool, xlm: int, sxlm: int, d: Deposit, e: Deposit)
    requires s.reserveXlm > 0 && s.reserveSxlm > 0 && s.totalLp > 0
    requires FairShare(s, xlm, sxlm, d) && FairShare(s, xlm, sxlm, e)
    ensures d == e
  {
    if d.minted < e.minted {
      NotTheMost(s, xlm, sxlm, d, e.minted);
    } else if e.minted < d.minted {
      NotTheMost(s, xlm, sxlm, e, d.minted);
    }
    FloorUnique(d.xlm, e.xlm, d.minted * s.reserveXlm, s.totalLp);
    FloorUnique(d.sxlm, e.sxlm, d.minted * s.reserveSxlm, s.totalLp);
  }

  lemma NotTheMost(s: Pool, xlm: int, sxlm: int, d: Deposit, more: int)
    requires s.reserveXlm > 0 && s.reserveSxlm > 0 && d.minted < more
    requires FairShare(s, xlm, sxlm, d)
    ensures more * s.reserveXlm > xlm * s.totalLp || more * s.reserveSxlm > sxlm * s.totalLp
  {
    MulLe(d.minted + 1, more, s.reserveXlm);
    MulLe(d.minted + 1, more, s.reserveSxlm);
  }

  lemma FloorUnique(p: int, q: int, a: int, b: int)
    requires b > 0
    ensures IsFloor(p, a, b) && IsFloor(q, a, b) ==> p == q
  {
    if p < q {
      MulLe(p + 1, q, b);
    } else if q < p {
      MulLe(q + 1, p, b);
    }
  }

  lemma DepositIsExact(s: Pool, xlm: int, sxlm: int, d: Deposit)
    requires Balanced(s) && xlm > 0 && sxlm > 0 && DepositFloors(s, xlm, sxlm, d)
    ensures d == DepositShares(s, xlm, sxlm)
  {
    if s.totalLp == 0 {
      MulPositive(xlm, sxlm);
      RootUnique(xlm * sxlm, d.minted);
    } else {
      SharesAreFair(s, xlm, sxlm);
      FairShareUnique(s, xlm, sxlm, d, DepositShares(s, xlm, sxlm));
    }
  }

  /** The user's debt is the floor of shares times accumulator; no other debt changes. */
  predicate DebtRewritten(s: Pool, s': Pool, user: Address, newLp: int) {
    && s'.debt.Keys == s.debt.Keys + {user}
    && (forall u | u in s.debt && u != user :: s'.debt[u] == s.debt[u])
    && IsFloor(s'.debt[user], newLp * s'.acc, 1_000_000_000_000)
  }

  /** A changed position: the user's shares and debt, and nobody else's. */
  predicate Repositioned(s: Pool, s': Pool, user: Address, newLp: int) {
    && s'.lp == s.lp[user := newLp] && DebtRewritten(s, s', user, newLp)
    && s'.cfg == s.cfg && s'.protocolFeeBps == s.protocolFeeBps && s'.accruedFees == s.accruedFees
  }

  lemma DebtIsFloor(newLp: int, acc: int)
    requires newLp >= 0 && acc >= 0
    ensures IsFloor(Accrued(newLp, acc), newLp * acc, 1_000_000_000_000)
  {
    MulPositive(newLp, acc);
    QuotIsFloor(newLp * acc, PRECISION);
  }

  /** A deposit: when it is accepted, what it takes and mints, and that nothing else changes hands. */
  lemma AddExactly(s: Pool, user: Address, xlm: int, sxlm: int, now: nat, d: Deposit)
    requires Balanced(s) && SharesOk(s)
    requires xlm > 0 && sxlm > 0 ==> DepositFloors(s, xlm, sxlm, d)
    ensures var r := AddLiquidity(s, user, xlm, sxlm, now);
            var moved := TransferBoth(s.bank, s.cfg.native, user, s.cfg.self, d.xlm, s.cfg.sxlm, user, s.cfg.self, d.sxlm);
            && (r.Some? <==> user != s.cfg.self && xlm > 0 && sxlm > 0 && d.minted > 0 && d.xlm > 0 && d.sxlm > 0
                             && moved.Some?)
            && (r.Some? ==>
                  var s' := r.value.0;
                  && r.value.1 == d
                  && s'.reserveXlm == s.reserveXlm + d.xlm && s'.reserveSxlm == s.reserveSxlm + d.sxlm
                  && s'.totalLp == s.totalLp + d.minted
                  && s'.bank == moved.value
                  && Repositioned(s, s', user, Get(s.lp, user) + d.minted))
  {
    hide TransferBoth, Accrued, IsFloor, DepositFloors, DepositShares, SharesOk, Settle;
    SettleKeepsHoldings(s, now);
    SettledDebts(s, now);
    SettledSharesOk(s, now);
    var u := Settle(s, now);
    if xlm > 0 && sxlm > 0 {
      DepositIsExact(s, xlm, sxlm, d);
      SharesAlike(s, u, xlm, sxlm);
      SettledDeposit(u, user, xlm, sxlm, d);
    }
  }

  lemma SharesAlike(s: Pool, u: Pool, xlm: int, sxlm: int)
    requires SameHoldings(s, u) && (s.totalLp == 0 || (s.reserveXlm != 0 && s.reserveSxlm != 0))
    ensures DepositShares(u, xlm, sxlm) == DepositShares(s, xlm, sxlm)
  {
    hide Quot, Isqrt;
  }

  lemma SettledDeposit(u: Pool, user: Address, xlm: int, sxlm: int, d: Deposit)
    requires Balanced(u) && SharesOk(u) && xlm > 0 && sxlm > 0 && d == DepositShares(u, xlm, sxlm)
    ensures var r := AddSettled(u, user, xlm, sxlm);
            var moved := TransferBoth(u.bank, u.cfg.native, user, u.cfg.self, d.xlm, u.cfg.sxlm, user, u.cfg.self, d.sxlm);
            && (r.Some? <==> d.minted > 0 && d.xlm > 0 && d.sxlm > 0 && moved.Some?)
            && (r.Some? ==>
                  var s' := r.value.0;
                  && r.value.1 == d
                  && s'.reserveXlm == u.reserveXlm + d.xlm && s'.reserveSxlm == u.reserveSxlm + d.sxlm
                  && s'.totalLp == u.totalLp + d.minted
                  && s'.bank == moved.value
                  && Repositioned(u, s', user, Get(u.lp, user) + d.minted))
  {
    hide TransferBoth, Accrued, IsFloor, DepositShares, SharesOk;
    SharesBounded(u, user);
    if d.minted > 0 {
      DebtIsFloor(Get(u.lp, user) + d.minted, u.acc);
    }
  }

  lemma SettledSharesOk(s: Pool, now: nat)
    requires SharesOk(s)
    ensures SharesOk(Settle(s, now))
  {
    PriceKeepsMining(s, now);
    UpdatePoolShape(UpdatePrice(s, now), now);
    hide UpdatePool, UpdatePrice;
  }

  lemma SharesBounded(s: Pool, user: Address)
    requires SharesOk(s)
    ensures 0 <= Get(s.lp, user) <= s.totalLp && s.acc >= 0
  {
    SumNonNegative(s.lp);
  }

  /** The parameters of a removal's law: the floors of the shares' part of each reserve. */
  predicate RemovalFloors(s: Pool, amount: int, w: Withdrawal) {
    s.totalLp > 0 ==> IsFloor(w.xlm, amount * s.reserveXlm, s.totalLp) && IsFloor(w.sxlm, amount * s.reserveSxlm, s.totalLp)
  }

  /** What a removal pays: the pending rewards first, then the two floors. */
  function Paid(s: Pool, user: Address, w: Withdrawal): Option<Bank>
    requires w.rewards > 0 ==> s.program.Some?
  {
    if w.rewards < 0 then None else
    var bank :- if w.rewards == 0 then Some(s.bank)
                else Transfer(s.bank, s.program.value.rewardAsset, s.cfg.self, user, w.rewards);
    TransferBoth(bank, s.cfg.native, s.cfg.self, user, w.xlm, s.cfg.sxlm, s.cfg.self, user, w.sxlm)
  }

  /** A removal: when it is accepted, and what it pays out and burns. */
  lemma RemoveExactly(s: Pool, user: Address, amount: int, now: nat, w: Withdrawal)
    requires Balanced(s) && SharesOk(s) && RemovalFloors(s, amount, w)
    requires w.rewards == PendingRewards(s, user, now) && (w.rewards > 0 ==> s.program.Some?)
    ensures var r := RemoveLiquidity(s, user, amount, now);
            && (r.Some? <==> user != s.cfg.self && 0 < amount <= Get(s.lp, user) && w.xlm > 0 && w.sxlm > 0
                             && Paid(s, user, w).Some?)
            && (r.Some? ==>
                  var s' := r.value.0;
                  && r.value.1 == w
                  && s'.reserveXlm == s.reserveXlm - w.xlm && s'.reserveSxlm == s.reserveSxlm - w.sxlm
                  && s'.totalLp == s.totalLp - amount
                  && s'.bank == Paid(s, user, w).value
                  && Repositioned(s, s', user, Get(s.lp, user) - amount))
  {
    hide Settle, TransferBoth, Transfer, Accrued, IsFloor, SharesOk, Quot, PendingRewards, AutoClaim, RemovalFloors;
    var u := Settle(s, now);
    SettleKeepsHoldings(s, now);
    SettledDebts(s, now);
    AutoClaimIsPending(s, user, now);
    SettledSharesOk(s, now);
    SharesBounded(u, user);
    if 0 < amount <= Get(u.lp, user) {
      RemovalAlike(s, u, amount, w);
      SettledRemoval(u, user, amount, w);
    }
  }

  lemma RemovalAlike(s: Pool, u: Pool, amount: int, w: Withdrawal)
    requires SameHoldings(s, u) && RemovalFloors(s, amount, w)
    ensures RemovalFloors(u, amount, w)
  {
  }

  lemma SettledRemoval(u: Pool, user: Address, amount: int, w: Withdrawal)
    requires Balanced(u) && SharesOk(u) && RemovalFloors(u, amount, w) && 0 < amount <= Get(u.lp, user)
    requires w.rewards == AutoClaim(u, user)
    ensures var r := RemoveSettled(u, user, amount);
            && (w.rewards > 0 ==> u.program.Some?)
            && (r.Some? <==> w.xlm > 0 && w.sxlm > 0 && Paid(u, user, w).Some?)
            && (r.Some? ==>
                  var s' := r.value.0;
                  && r.value.1 == w
                  && s'.reserveXlm == u.reserveXlm - w.xlm && s'.reserveSxlm == u.reserveSxlm - w.sxlm
                  && s'.totalLp == u.totalLp - amount
                  && s'.bank == Paid(u, user, w).value
                  && Repositioned(u, s', user, Get(u.lp, user) - amount))
  {
    SharesBounded(u, user);
    MulPositive(amount, u.reserveXlm);
    MulPositive(amount, u.reserveSxlm);
    FloorIsQuot(w.xlm, amount * u.reserveXlm, u.totalLp);
    FloorIsQuot(w.sxlm, amount * u.reserveSxlm, u.totalLp);
    DebtIsFloor(Get(u.lp, user) - amount, u.acc);
    hide TransferBoth, Transfer, Accrued, IsFloor, SharesOk, Quot;
  }

  lemma SettledDebts(s: Pool, now: nat)
    ensures Settle(s, now).debt == s.debt && Settle(s, now).program.Some? == s.program.Some?
  {
    ProjectionIsUpdate(UpdatePrice(s, now), now);
    PriceKeepsMining(s, now);
    hide UpdatePrice, UpdatePool;
  }

  // ---------- Claims, fees, program ----------

  /** A claim rewrites one debt and moves one payment: no shares, reserves or other debts. */
  lemma ClaimExactly(s: Pool, user: Address, now: nat)
    requires SharesOk(s) && ClaimRewards(s, user, now).Some?
    ensures var (s', paid) := ClaimRewards(s, user, now).value;
            && s'.lp == s.lp && DebtRewritten(s, s', user, Get(s.lp, user))
            && s'.totalLp == s.totalLp && s'.reserveXlm == s.reserveXlm && s'.reserveSxlm == s.reserveSxlm
            && s'.accruedFees == s.accruedFees
            && paid == PendingRewards(s, user, now)
            && (paid == 0 ==> s'.bank == s.bank)
            && (paid > 0 ==> s.program.Some?
                             && Transfer(s.bank, s.program.value.rewardAsset, s.cfg.self, user, paid) == Some(s'.bank))
  {
    var u := UpdatePool(s, now);
    ViewMatchesClaim(s, user, now);
    ProjectionIsUpdate(s, now);
    UpdateKeepsHoldings(s, now);
    UpdatePoolShape(s, now);
    SharesBounded(u, user);
    DebtIsFloor(Get(u.lp, user), u.acc);
    hide UpdatePool, Accrued, IsFloor, SharesOk, PendingRewards, Transfer;
  }

  /** The admin collects exactly the accrued fees; without any, nothing happens. */
  lemma CollectExactly(s: Pool, caller: Address)
    ensures var r := CollectProtocolFees(s, caller);
            var moved := Transfer(s.bank, s.cfg.native, s.cfg.self, s.cfg.admin, s.accruedFees);
            && (r.Some? <==> caller == s.cfg.admin && (s.accruedFees > 0 ==> moved.Some?))
            && (r.Some? && s.accruedFees > 0 ==> r.value == (s.(accruedFees := 0, bank := moved.value), s.accruedFees))
            && (r.Some? && s.accruedFees <= 0 ==> r.value == (s, 0))
  {
  }

  /** A new program starts undistributed, with a cleared accumulator and its own clock. */
  lemma ProgramExactly(s: Pool, caller: Address, asset: Address, perSecond: int, total: int, start: nat, end: nat, now: nat)
    ensures var r := SetMiningProgram(s, caller, asset, perSecond, total, start, end, now);
            && (r.Some? <==> (caller == s.cfg.admin || s.governance == Some(caller))
                             && start < end && perSecond > 0 && total > 0)
            && (r.Some? ==>
                  var s' := r.value;
                  && s'.program == Some(Program(asset, perSecond, total, 0, start, end))
                  && s'.acc == 0 && s'.lastRewardTime == Some(start)
                  && s'.lp == s.lp && s'.debt == s.debt && SameHoldings(s, s'.(program := s.program)))
  {
    UpdateKeepsHoldings(s, now);
    ProjectionIsUpdate(s, now);
    hide UpdatePool;
  }

  /** The settings are the admin's and change nothing else. */
  lemma SettingsExactly(s: Pool, caller: Address, bps: nat, governance: Address)
    ensures SetProtocolFee(s, caller, bps) == if caller == s.cfg.admin then Some(s.(protocolFeeBps := bps)) else None
    ensures SetGovernance(s, caller, governance)
            == if caller == s.cfg.admin then Some(s.(governance := Some(governance))) else None
  {
  }
}
