/** What settling rewards and recording prices leave unchanged. */
module LpPoolFrames {
  import opened Wrappers
  import opened Arithmetic
  import opened LpPoolModel

  /** Everything an update of the rewards or of the oracle leaves alone. */
  predicate SameHoldings(s: Pool, u: Pool) {
    && u.cfg == s.cfg && u.bank == s.bank && u.reserveXlm == s.reserveXlm && u.reserveSxlm == s.reserveSxlm
    && u.accruedFees == s.accruedFees && u.totalLp == s.totalLp && u.lp == s.lp
    && u.program.Some? == s.program.Some?
    && (u.program.Some? ==> u.program.value.rewardAsset == s.program.value.rewardAsset)
    && u.protocolFeeBps == s.protocolFeeBps
  }

  lemma UpdateKeepsHoldings(s: Pool, now: nat)
    ensures SameHoldings(s, UpdatePool(s, now))
  {
    hide Quot, WindowReward;
  }

  lemma PriceKeepsHoldings(s: Pool, now: nat)
    ensures SameHoldings(s, UpdatePrice(s, now))
  {
    hide Price;
  }

  lemma SettleKeepsHoldings(s: Pool, now: nat)
    ensures SameHoldings(s, Settle(s, now))
  {
    PriceKeepsHoldings(s, now);
    UpdateKeepsHoldings(UpdatePrice(s, now), now);
    hide UpdatePool, UpdatePrice;
  }
}
