/** Off-chain swap quotes, against what the pool contract does with them. */
module DexQuotes {
  import opened Wrappers
  import opened Arithmetic
  import opened TokenLedger
  import opened LpPoolModel
  import opened LpPoolFrames
  import opened LpPoolCalls

  datatype TokenIn = Xlm | Sxlm

  datatype Snapshot = Snapshot(reserveXlm: int, reserveSxlm: int, feeBps: nat)

  datatype SwapQuote = SwapQuote(out: int, minimumOut: int)

  function ApplyConstantProductQuote(reserveIn: int, reserveOut: int, amount: int, feeBps: nat): int {
    if reserveIn <= 0 || reserveOut <= 0 || amount <= 0 then 0 else
      var afterFee := Quot(amount * (BPS - feeBps), BPS);
      if afterFee <= 0 then 0 else reserveOut - Quot(reserveIn * reserveOut, reserveIn + afterFee)
  }

  function QuoteExactIn(p: Snapshot, token: TokenIn, amount: int, slippageBps: int): Option<SwapQuote> {
    if amount <= 0 || p.reserveXlm <= 0 || p.reserveSxlm <= 0 then None else
      var out := match token
        case Xlm => ApplyConstantProductQuote(p.reserveXlm, p.reserveSxlm, amount, p.feeBps)
        case Sxlm => ApplyConstantProductQuote(p.reserveSxlm, p.reserveXlm, amount, p.feeBps);
      if out <= 0 then None else Some(SwapQuote(out, Quot(out * Max(0, BPS - slippageBps), BPS)))
  }

  /** The quoted amount is what the contract computes; it accepts it below the whole reserve. */
  lemma QuoteIsContractOutput(reserveIn: int, reserveOut: int, amount: int, feeBps: nat, minOut: int)
    ensures var out := ApplyConstantProductQuote(reserveIn, reserveOut, amount, feeBps);
            CheckedOut(reserveIn, reserveOut, amount, minOut, feeBps)
            == if 0 < out < reserveOut && out >= minOut then Some(out) else None
  {
    if amount > 0 && reserveIn > 0 && reserveOut > 0 {
      var afterFee := AfterFee(amount, feeBps);
      if afterFee <= 0 && reserveIn + afterFee != 0 {
        NoFreeOutput(reserveIn, reserveOut, afterFee);
      }
    }
  }

  /** An input that the fee eats entirely buys nothing the contract would pay out. */
  lemma NoFreeOutput(reserveIn: int, reserveOut: int, afterFee: int)
    requires reserveIn > 0 && reserveOut > 0 && afterFee <= 0 && reserveIn + afterFee != 0
    ensures !(0 < SwapOut(reserveIn, reserveOut, afterFee) < reserveOut)
  {
    var d := reserveIn + afterFee;
    MulPositive(reserveIn, reserveOut);
    if d < 0 {
      QuotNegativeDivisor(reserveIn * reserveOut, d);
    } else {
      MulLe(d, reserveIn, reserveOut);
      MulCommutes(d, reserveOut);
      QuotAtLeast(reserveIn * reserveOut, d, reserveOut);
    }
  }

  /** The minimum is within the quote unless the slippage is so negative that it adds a whole unit. */
  lemma MinimumWithinQuote(out: int, slippageBps: int)
    requires out > 0
    ensures 0 <= Quot(out * Max(0, BPS - slippageBps), BPS)
    ensures Quot(out * Max(0, BPS - slippageBps), BPS) <= out <==> out * -slippageBps < BPS
  {
    var kept := Max(0, BPS - slippageBps);
    MulPositive(out, kept);
    QuotFloor(out * kept, BPS);
    MulDistributes(out, BPS, -slippageBps);
    QuotAtLeast(out * kept, BPS, out + 1);
    if slippageBps >= 0 {
      MulPositive(out, slippageBps);
      MulLe(kept, BPS, out);
      MulCommutes(kept, out);
    }
  }

  function SnapshotOf(s: Pool): Snapshot {
    Snapshot(s.reserveXlm, s.reserveSxlm, s.cfg.feeBps)
  }

  /**
   A quote on the current reserves, sent with its own minimum, executes at exactly the quoted
   amount; besides the balances it needs only an output below the whole reserve, a slippage that
   does not lift the minimum above the quote and, for XLM in, a fee that is not zero, since the
   protocol's share is computed by dividing by it.
   */
  lemma QuoteExecutes(s: Pool, token: TokenIn, user: Address, amount: int, slippageBps: int, now: nat)
    requires user != s.cfg.self
    requires QuoteExactIn(SnapshotOf(s), token, amount, slippageBps).Some?
    ensures var q := QuoteExactIn(SnapshotOf(s), token, amount, slippageBps).value;
            match token
            case Xlm =>
              var swap := SwapXlmToSxlm(s, user, amount, q.minimumOut, now);
              && (swap.Some? <==> q.out < s.reserveSxlm && q.out * -slippageBps < BPS && s.cfg.feeBps != 0
                                  && TransferBoth(s.bank, s.cfg.native, user, s.cfg.self, amount,
                                                  s.cfg.sxlm, s.cfg.self, user, q.out).Some?)
              && (swap.Some? ==> swap.value.1 == q.out)
            case Sxlm =>
              var swap := SwapSxlmToXlm(s, user, amount, q.minimumOut, now);
              && (swap.Some? <==> q.out < s.reserveXlm && q.out * -slippageBps < BPS
                                  && TransferBoth(s.bank, s.cfg.sxlm, user, s.cfg.self, amount,
                                                  s.cfg.native, s.cfg.self, user, q.out).Some?)
              && (swap.Some? ==> swap.value.1 == q.out)
  {
    var q := QuoteExactIn(SnapshotOf(s), token, amount, slippageBps).value;
    MinimumWithinQuote(q.out, slippageBps);
    PriceKeepsHoldings(s, now);
    QuoteIsContractOutput(s.reserveXlm, s.reserveSxlm, amount, s.cfg.feeBps, q.minimumOut);
    QuoteIsContractOutput(s.reserveSxlm, s.reserveXlm, amount, s.cfg.feeBps, q.minimumOut);
    hide CheckedOut, TransferBoth, UpdatePrice, ApplyConstantProductQuote, ProtocolCut;
  }

  /** The parameters of a quote's law: net input, what stays in the reserve, and the minimum, as floors. */
  predicate QuoteFloors(reserveIn: int, reserveOut: int, amount: int, feeBps: nat, slippageBps: int,
                        net: int, left: int, minimum: int)
  {
    && SwapFloors(reserveIn, reserveOut, amount, feeBps, net, left)
    && if slippageBps >= 10_000 then minimum == 0
       else IsFloor(minimum, (reserveOut - left) * (10_000 - slippageBps), 10_000)
  }

  lemma MinimumIsFloor(out: int, slippageBps: int, minimum: int)
    requires out > 0
    requires if slippageBps >= 10_000 then minimum == 0 else IsFloor(minimum, out * (10_000 - slippageBps), 10_000)
    ensures Quot(out * Max(0, BPS - slippageBps), BPS) == minimum
  {
    if slippageBps < 10_000 {
      MulPositive(out, 10_000 - slippageBps);
      FloorIsQuot(minimum, out * (10_000 - slippageBps), 10_000);
    }
  }

  /** A quote exists when reserves, amount and output are positive; output and minimum are floors. */
  lemma QuoteExactly(p: Snapshot, token: TokenIn, amount: int, slippageBps: int, net: int, left: int, minimum: int)
    requires var (reserveIn, reserveOut) := if token.Xlm? then (p.reserveXlm, p.reserveSxlm) else (p.reserveSxlm, p.reserveXlm);
             QuoteFloors(reserveIn, reserveOut, amount, p.feeBps, slippageBps, net, left, minimum)
    ensures var (reserveIn, reserveOut) := if token.Xlm? then (p.reserveXlm, p.reserveSxlm) else (p.reserveSxlm, p.reserveXlm);
            QuoteExactIn(p, token, amount, slippageBps)
            == if amount > 0 && reserveIn > 0 && reserveOut > 0 && net > 0 && left < reserveOut
               then Some(SwapQuote(reserveOut - left, minimum)) else None
  {
    var (reserveIn, reserveOut) := if token.Xlm? then (p.reserveXlm, p.reserveSxlm) else (p.reserveSxlm, p.reserveXlm);
    if amount > 0 && reserveIn > 0 && reserveOut > 0 {
      NetOfFee(amount, p.feeBps, net);
      if net > 0 {
        MulPositive(reserveIn, reserveOut);
        FloorIsQuot(left, reserveIn * reserveOut, reserveIn + net);
        if left < reserveOut {
          MinimumIsFloor(reserveOut - left, slippageBps, minimum);
        }
      }
    }
    hide Quot, IsFloor;
  }
}
