/** What a swap does to the product of the reserves, and what a round trip returns. */
module LpPoolSwaps {
  import opened Wrappers
  import opened Arithmetic
  import opened TokenLedger
  import opened LpPoolModel
  import opened LpPoolFrames

  function Product(s: Pool): int {
    s.reserveXlm * s.reserveSxlm
  }

  /** The part of an XLM input's fee that stays in the reserve. */
  function RetainedXlm(s: Pool, amount: int): int
    requires s.cfg.feeBps != 0
  {
    amount - AfterFee(amount, s.cfg.feeBps) - ProtocolCut(amount, s.cfg.feeBps, s.protocolFeeBps)
  }

  /** An sXLM input pays no protocol cut. */
  function RetainedSxlm(s: Pool, amount: int): int {
    amount - AfterFee(amount, s.cfg.feeBps)
  }

  /** What the floor division of an XLM input loses of the product. */
  function LostXlm(s: Pool, amount: int): int
    requires s.reserveXlm + AfterFee(amount, s.cfg.feeBps) != 0
  {
    Product(s) % (s.reserveXlm + AfterFee(amount, s.cfg.feeBps))
  }

  function LostSxlm(s: Pool, amount: int): int
    requires s.reserveSxlm + AfterFee(amount, s.cfg.feeBps) != 0
  {
    Product(s) % (s.reserveSxlm + AfterFee(amount, s.cfg.feeBps))
  }

  /** The sXLM reserve an XLM input leaves. */
  function SxlmLeft(s: Pool, amount: int): int
    requires s.reserveXlm + AfterFee(amount, s.cfg.feeBps) != 0
  {
    Quot(Product(s), s.reserveXlm + AfterFee(amount, s.cfg.feeBps))
  }

  /** The XLM reserve an sXLM input leaves. */
  function XlmLeft(s: Pool, amount: int): int
    requires s.reserveSxlm + AfterFee(amount, s.cfg.feeBps) != 0
  {
    Quot(Product(s), s.reserveSxlm + AfterFee(amount, s.cfg.feeBps))
  }

  /** An accepted output leaves a floor quotient of the product by a positive divisor. */
  lemma AcceptedOut(reserveIn: int, reserveOut: int, amount: int, minOut: int, feeBps: int)
    requires CheckedOut(reserveIn, reserveOut, amount, minOut, feeBps).Some?
    ensures var d := reserveIn + AfterFee(amount, feeBps);
            var newOut := reserveOut - CheckedOut(reserveIn, reserveOut, amount, minOut, feeBps).value;
            && d > 0
            && 0 < newOut < reserveOut
            && newOut == Quot(reserveIn * reserveOut, d)
            && newOut * d == reserveIn * reserveOut - (reserveIn * reserveOut) % d
  {
    var d := reserveIn + AfterFee(amount, feeBps);
    var k := reserveIn * reserveOut;
    assert k > 0;
    if d < 0 {
      QuotNegativeDivisor(k, d);
    } else {
      assert k == (k / d) * d + k % d;
    }
  }

  /** The gain of a leg: (d + retained) * newOut against the old product. */
  lemma LegIdentity(d: int, retained: int, newOut: int, k: int, lost: int)
    requires newOut * d == k - lost
    ensures (d + retained) * newOut - k == retained * newOut - lost
  {
  }

  lemma XlmLeg(s: Pool, user: Address, amount: int, minOut: int, now: nat)
    requires SwapXlmToSxlm(s, user, amount, minOut, now).Some?
    ensures var (s', out) := SwapXlmToSxlm(s, user, amount, minOut, now).value;
            && amount > 0 && s.cfg.feeBps != 0
            && CheckedOut(s.reserveXlm, s.reserveSxlm, amount, minOut, s.cfg.feeBps) == Some(out)
            && s'.cfg == s.cfg && s'.protocolFeeBps == s.protocolFeeBps
            && s'.reserveXlm == s.reserveXlm + amount - ProtocolCut(amount, s.cfg.feeBps, s.protocolFeeBps)
            && s'.reserveSxlm == s.reserveSxlm - out
  {
    PriceKeepsHoldings(s, now);
    hide UpdatePrice, TransferBoth, ProtocolCut, AfterFee, SwapOut;
  }

  lemma SxlmLeg(s: Pool, user: Address, amount: int, minOut: int, now: nat)
    requires SwapSxlmToXlm(s, user, amount, minOut, now).Some?
    ensures var (s', out) := SwapSxlmToXlm(s, user, amount, minOut, now).value;
            && amount > 0
            && CheckedOut(s.reserveSxlm, s.reserveXlm, amount, minOut, s.cfg.feeBps) == Some(out)
            && s'.cfg == s.cfg && s'.protocolFeeBps == s.protocolFeeBps
            && s'.reserveSxlm == s.reserveSxlm + amount
            && s'.reserveXlm == s.reserveXlm - out
  {
    PriceKeepsHoldings(s, now);
    hide UpdatePrice, TransferBoth, AfterFee, SwapOut;
  }

  /**
   Every XLM swap moves the product by exactly the retained fee times the new output reserve,
   less the remainder of the floor division; so it falls exactly when the remainder, which the
   reserves and the amount determine beforehand, is the larger.
   */
  lemma SwapXlmProduct(s: Pool, user: Address, amount: int, minOut: int, now: nat)
    requires SwapXlmToSxlm(s, user, amount, minOut, now).Some?
    ensures s.cfg.feeBps != 0 && s.reserveXlm + AfterFee(amount, s.cfg.feeBps) > 0
    ensures var s' := SwapXlmToSxlm(s, user, amount, minOut, now).value.0;
            && s'.reserveSxlm == SxlmLeft(s, amount) > 0
            && Product(s') - Product(s) == RetainedXlm(s, amount) * s'.reserveSxlm - LostXlm(s, amount)
            && (Product(s') < Product(s) <==> RetainedXlm(s, amount) * SxlmLeft(s, amount) < LostXlm(s, amount))
  {
    XlmLeg(s, user, amount, minOut, now);
    AcceptedOut(s.reserveXlm, s.reserveSxlm, amount, minOut, s.cfg.feeBps);
    hide SwapXlmToSxlm, CheckedOut, AfterFee, ProtocolCut;
    var s' := SwapXlmToSxlm(s, user, amount, minOut, now).value.0;
    LegIdentity(s.reserveXlm + AfterFee(amount, s.cfg.feeBps), RetainedXlm(s, amount), s'.reserveSxlm,
                Product(s), LostXlm(s, amount));
  }

  lemma SwapSxlmProduct(s: Pool, user: Address, amount: int, minOut: int, now: nat)
    requires SwapSxlmToXlm(s, user, amount, minOut, now).Some?
    ensures s.reserveSxlm + AfterFee(amount, s.cfg.feeBps) > 0
    ensures var s' := SwapSxlmToXlm(s, user, amount, minOut, now).value.0;
            && s'.reserveXlm == XlmLeft(s, amount) > 0
            && Product(s') - Product(s) == RetainedSxlm(s, amount) * s'.reserveXlm - LostSxlm(s, amount)
            && (Product(s') < Product(s) <==> RetainedSxlm(s, amount) * XlmLeft(s, amount) < LostSxlm(s, amount))
  {
    SxlmLeg(s, user, amount, minOut, now);
    AcceptedOut(s.reserveSxlm, s.reserveXlm, amount, minOut, s.cfg.feeBps);
    hide SwapSxlmToXlm, CheckedOut, AfterFee;
    var s' := SwapSxlmToXlm(s, user, amount, minOut, now).value.0;
    var d, retained := s.reserveSxlm + AfterFee(amount, s.cfg.feeBps), RetainedSxlm(s, amount);
    MulCommutes(s.reserveSxlm, s.reserveXlm);
    LegIdentity(d, retained, s'.reserveXlm, Product(s), LostSxlm(s, amount));
    assert s'.reserveSxlm == d + retained;
    MulCommutes(d + retained, s'.reserveXlm);
  }

  /** The fee settings under which the protocol's cut is a part of the fee. */
  predicate FeesInRange(s: Pool) {
    0 < s.cfg.feeBps <= BPS && 0 <= s.protocolFeeBps <= s.cfg.feeBps
  }

  /** With fees in range the cut is never more than the fee, nor the fee more than the input. */
  lemma FeeSplit(amount: int, feeBps: int, protocolFeeBps: int)
    requires amount >= 0 && 0 < feeBps <= BPS && 0 <= protocolFeeBps <= feeBps
    ensures 0 <= AfterFee(amount, feeBps) <= amount
    ensures 0 <= ProtocolCut(amount, feeBps, protocolFeeBps) <= amount - AfterFee(amount, feeBps)
  {
    assert 0 <= amount * (BPS - feeBps) <= amount * BPS;
    QuotFloor(amount * (BPS - feeBps), BPS);
    var fee := amount - AfterFee(amount, feeBps);
    assert 0 <= fee * protocolFeeBps <= fee * feeBps;
    QuotFloor(fee * protocolFeeBps, feeBps);
    QuotAtLeast(fee * protocolFeeBps, feeBps, fee + 1);
  }

  /**
   Whether a round trip with an amount is no profit, read off the pool before the first leg: with
   `left` the sXLM reserve the first leg leaves, what the second leg's input is worth after fee at
   the XLM reserve less the protocol's cut does not exceed the amount at `left`.
   */
  predicate NoProfit(s: Pool, amount: int)
    requires s.cfg.feeBps != 0 && s.reserveXlm + AfterFee(amount, s.cfg.feeBps) != 0
  {
    var left := SxlmLeft(s, amount);
    (s.reserveXlm - ProtocolCut(amount, s.cfg.feeBps, s.protocolFeeBps)) * AfterFee(s.reserveSxlm - left, s.cfg.feeBps)
    <= amount * left
  }

  /** The second leg returns reserve - floor(left * reserve / (left + net)), where reserve = base + amount. */
  lemma ReturnAtMost(base: int, amount: int, left: int, net: int)
    requires left > 0 && left + net > 0 && base + amount > 0
    ensures base + amount - Quot(left * (base + amount), left + net) <= amount <==> base * net <= amount * left
  {
    MulPositive(left, base + amount);
    QuotAtLeast(left * (base + amount), left + net, base);
    MulDistributes(base, left, net);
    MulDistributes(left, base, amount);
    MulCommutes(left, base);
    MulCommutes(left, amount);
  }

  /** When the sXLM reserve is back and the product has not fallen, nor has the XLM reserve. */
  lemma KeptProductKeepsSide(s: Pool, s2: Pool)
    requires s.reserveSxlm > 0 && s2.reserveSxlm == s.reserveSxlm
    ensures Product(s) <= Product(s2) <==> s.reserveXlm <= s2.reserveXlm
  {
    MulCancel(s.reserveXlm, s2.reserveXlm, s.reserveSxlm);
  }

  /**
   Swapping XLM to sXLM and the proceeds back returns at most the XLM paid exactly when NoProfit
   held before the first leg. In particular a round trip whose legs both keep the product loses at
   least the protocol's cut.
   */
  lemma RoundTrip(s: Pool, user: Address, amount: int, min1: int, now1: nat, min2: int, now2: nat)
    requires SwapXlmToSxlm(s, user, amount, min1, now1).Some?
    requires var (s1, bought) := SwapXlmToSxlm(s, user, amount, min1, now1).value;
             SwapSxlmToXlm(s1, user, bought, min2, now2).Some?
    ensures s.cfg.feeBps != 0 && s.reserveXlm + AfterFee(amount, s.cfg.feeBps) > 0
    ensures var (s1, bought) := SwapXlmToSxlm(s, user, amount, min1, now1).value;
            var (s2, returned) := SwapSxlmToXlm(s1, user, bought, min2, now2).value;
            var cut := ProtocolCut(amount, s.cfg.feeBps, s.protocolFeeBps);
            && (returned <= amount <==> NoProfit(s, amount))
            && (FeesInRange(s) && Product(s) <= Product(s1) <= Product(s2) ==> returned <= amount - cut)
  {
    hide SwapXlmToSxlm, SwapSxlmToXlm, CheckedOut, AfterFee, ProtocolCut, Quot, RetainedXlm, RetainedSxlm, LostXlm, LostSxlm;
    var (s1, bought) := SwapXlmToSxlm(s, user, amount, min1, now1).value;
    var (s2, returned) := SwapSxlmToXlm(s1, user, bought, min2, now2).value;
    XlmLeg(s, user, amount, min1, now1);
    SxlmLeg(s1, user, bought, min2, now2);
    SwapXlmProduct(s, user, amount, min1, now1);
    SwapSxlmProduct(s1, user, bought, min2, now2);
    AcceptedOut(s1.reserveSxlm, s1.reserveXlm, bought, min2, s.cfg.feeBps);
    assert s1.reserveXlm > 0 && s.reserveSxlm > 0;
    var cut := ProtocolCut(amount, s.cfg.feeBps, s.protocolFeeBps);
    ReturnAtMost(s.reserveXlm - cut, amount, s1.reserveSxlm, AfterFee(bought, s.cfg.feeBps));
    KeptProductKeepsSide(s, s2);
  }

  /** The same for a round trip that starts with sXLM, where the cut falls on the second leg. */
  predicate NoProfitFromSxlm(s: Pool, amount: int)
    requires s.reserveSxlm + AfterFee(amount, s.cfg.feeBps) != 0
  {
    var left := XlmLeft(s, amount);
    s.reserveSxlm * AfterFee(s.reserveXlm - left, s.cfg.feeBps) <= amount * left
  }

  /** Swapping sXLM to XLM and the proceeds back returns at most the sXLM paid exactly then. */
  lemma RoundTripFromSxlm(s: Pool, user: Address, amount: int, min1: int, now1: nat, min2: int, now2: nat)
    requires SwapSxlmToXlm(s, user, amount, min1, now1).Some?
    requires var (s1, bought) := SwapSxlmToXlm(s, user, amount, min1, now1).value;
             SwapXlmToSxlm(s1, user, bought, min2, now2).Some?
    ensures s.reserveSxlm + AfterFee(amount, s.cfg.feeBps) > 0
    ensures var (s1, bought) := SwapSxlmToXlm(s, user, amount, min1, now1).value;
            var (s2, returned) := SwapXlmToSxlm(s1, user, bought, min2, now2).value;
            returned <= amount <==> NoProfitFromSxlm(s, amount)
  {
    hide SwapXlmToSxlm, SwapSxlmToXlm, CheckedOut, AfterFee, ProtocolCut, Quot, RetainedXlm, RetainedSxlm, LostXlm, LostSxlm;
    var (s1, bought) := SwapSxlmToXlm(s, user, amount, min1, now1).value;
    SxlmLeg(s, user, amount, min1, now1);
    XlmLeg(s1, user, bought, min2, now2);
    SwapSxlmProduct(s, user, amount, min1, now1);
    SwapXlmProduct(s1, user, bought, min2, now2);
    AcceptedOut(s1.reserveXlm, s1.reserveSxlm, bought, min2, s.cfg.feeBps);
    assert s1.reserveSxlm > 0;
    ReturnAtMost(s.reserveSxlm, amount, s1.reserveXlm, AfterFee(bought, s.cfg.feeBps));
  }
}
