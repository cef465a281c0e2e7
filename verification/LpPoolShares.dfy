/** What deposits and removals do to the reserves behind one share. */
module LpPoolShares {
  import opened Wrappers
  import opened Arithmetic
  import opened Sums
  import opened TokenLedger
  import opened IntegerSqrt
  import opened LpPoolModel
  import opened LpPoolFrames

  /** Share supply and reserves are all zero or all positive. */
  predicate Balanced(s: Pool) {
    || (s.totalLp == 0 && s.reserveXlm == 0 && s.reserveSxlm == 0)
    || (s.totalLp > 0 && s.reserveXlm > 0 && s.reserveSxlm > 0)
  }

  /** Shares minted within an offer's worth do not dilute its side, and buy back at most the offer. */
  lemma OfferCovers(r: int, total: int, offer: int, minted: int)
    requires r >= 0 && total > 0 && offer >= 0 && minted >= 0
    requires minted * r <= offer * total
    ensures (r + offer) * total >= r * (total + minted)
    ensures Quot(minted * (r + offer), total + minted) <= offer
  {
    MulDistributes(total, r, offer);
    MulDistributes(r, total, minted);
    MulDistributes(minted, r, offer);
    MulDistributes(offer, total, minted);
    MulCommutes(r, minted);
    MulCommutes(offer, minted);
    MulPositive(minted, r + offer);
    QuotAtMost(minted * (r + offer), total + minted, offer);
  }

  /** The same within one unit, when what was taken rounds the worth of the shares down. */
  lemma FloorCovers(r: int, total: int, taken: int, minted: int)
    requires r >= 0 && total > 0 && taken >= 0 && minted >= 0
    requires minted * r < taken * total + total
    ensures (r + taken) * total > r * (total + minted) - total
    ensures Quot(minted * (r + taken), total + minted) <= taken
  {
    MulDistributes(total, r, taken);
    MulDistributes(r, total, minted);
    MulDistributes(minted, r, taken);
    MulDistributes(taken, total, minted);
    MulCommutes(r, minted);
    MulCommutes(taken, minted);
    MulPositive(minted, r + taken);
    QuotAtMost(minted * (r + taken), total + minted, taken);
  }

  /** The side whose offer runs out first: all of it is taken and its rate does not fall. */
  lemma LimitingSide(r: int, total: int, offer: int, minted: int)
    requires r > 0 && total > 0 && offer > 0 && minted == Quot(offer * total, r)
    ensures 0 <= minted && minted * r <= offer * total
    ensures (r + offer) * total >= r * (total + minted)
    ensures Quot(minted * (r + offer), total + minted) <= offer
  {
    MulPositive(offer, total);
    QuotFloor(offer * total, r);
    OfferCovers(r, total, offer, minted);
  }

  /** The other side: at most the offer is taken, and less than one unit too little. */
  lemma MatchedSide(r: int, total: int, offer: int, minted: int, taken: int)
    requires r > 0 && total > 0 && offer > 0
    requires 0 <= minted <= Quot(offer * total, r) && taken == Quot(minted * r, total)
    ensures 0 <= taken <= offer
    ensures (r + taken) * total > r * (total + minted) - total
    ensures Quot(minted * (r + taken), total + minted) <= taken
  {
    MulPositive(offer, total);
    MulPositive(minted, r);
    QuotFloor(offer * total, r);
    MulLe(minted, Quot(offer * total, r), r);
    QuotFloor(minted * r, total);
    QuotAtMost(minted * r, total, offer);
    FloorCovers(r, total, taken, minted);
  }

  lemma Added(s: Pool, user: Address, xlm: int, sxlm: int, now: nat)
    requires AddLiquidity(s, user, xlm, sxlm, now).Some?
    ensures var (s', d) := AddLiquidity(s, user, xlm, sxlm, now).value;
            && xlm > 0 && sxlm > 0 && d.minted > 0 && d.xlm > 0 && d.sxlm > 0
            && (s.totalLp == 0 || (s.reserveXlm != 0 && s.reserveSxlm != 0))
            && d == DepositShares(s, xlm, sxlm)
            && s'.totalLp == s.totalLp + d.minted
            && s'.reserveXlm == s.reserveXlm + d.xlm
            && s'.reserveSxlm == s.reserveSxlm + d.sxlm
  {
    SettleKeepsHoldings(s, now);
    hide Settle, TransferBoth, Quot, Isqrt;
  }

  lemma Removed(s: Pool, user: Address, amount: int, now: nat)
    requires RemoveLiquidity(s, user, amount, now).Some?
    ensures var (s', w) := RemoveLiquidity(s, user, amount, now).value;
            && 0 < amount <= Get(s.lp, user) && s.totalLp != 0
            && w.xlm == Quot(amount * s.reserveXlm, s.totalLp)
            && w.sxlm == Quot(amount * s.reserveSxlm, s.totalLp)
            && s'.totalLp == s.totalLp - amount
            && s'.reserveXlm == s.reserveXlm - w.xlm
            && s'.reserveSxlm == s.reserveSxlm - w.sxlm
  {
    SettleKeepsHoldings(s, now);
    hide Settle, TransferBoth, Quot, AutoClaim, PayRewards;
  }

  /**
   A deposit into a live pool takes no more than was offered; on the side that limits it the
   reserve per share does not fall, and on the other it falls by less than one unit of reserve
   over the old supply.
   */
  lemma DepositRates(s: Pool, user: Address, xlm: int, sxlm: int, now: nat)
    requires Balanced(s) && s.totalLp > 0
    requires AddLiquidity(s, user, xlm, sxlm, now).Some?
    ensures var (s', d) := AddLiquidity(s, user, xlm, sxlm, now).value;
            && s'.totalLp == s.totalLp + d.minted
            && 0 < d.xlm <= xlm && 0 < d.sxlm <= sxlm
            && if d.xlm == xlm && d.minted == Quot(xlm * s.totalLp, s.reserveXlm)
               then s'.reserveXlm * s.totalLp >= s.reserveXlm * s'.totalLp
                    && s'.reserveSxlm * s.totalLp > s.reserveSxlm * s'.totalLp - s.totalLp
               else d.sxlm == sxlm
                    && s'.reserveSxlm * s.totalLp >= s.reserveSxlm * s'.totalLp
                    && s'.reserveXlm * s.totalLp > s.reserveXlm * s'.totalLp - s.totalLp
  {
    hide AddLiquidity, DepositShares, Quot;
    Added(s, user, xlm, sxlm, now);
    SidesOfDeposit(s, xlm, sxlm, AddLiquidity(s, user, xlm, sxlm, now).value.1);
  }

  /** The two sides of a deposit into a live pool: one limits it, the other is matched to it. */
  lemma SidesOfDeposit(s: Pool, xlm: int, sxlm: int, d: Deposit)
    requires Balanced(s) && s.totalLp > 0 && xlm > 0 && sxlm > 0
    requires d == DepositShares(s, xlm, sxlm) && d.minted > 0
    ensures d.xlm <= xlm && d.sxlm <= sxlm
    ensures if d.xlm == xlm && d.minted == Quot(xlm * s.totalLp, s.reserveXlm)
            then (s.reserveXlm + d.xlm) * s.totalLp >= s.reserveXlm * (s.totalLp + d.minted)
                 && (s.reserveSxlm + d.sxlm) * s.totalLp > s.reserveSxlm * (s.totalLp + d.minted) - s.totalLp
            else d.sxlm == sxlm
                 && (s.reserveSxlm + d.sxlm) * s.totalLp >= s.reserveSxlm * (s.totalLp + d.minted)
                 && (s.reserveXlm + d.xlm) * s.totalLp > s.reserveXlm * (s.totalLp + d.minted) - s.totalLp
  {
    var fromXlm := Quot(xlm * s.totalLp, s.reserveXlm);
    var fromSxlm := Quot(sxlm * s.totalLp, s.reserveSxlm);
    hide Quot;
    LimitingSide(s.reserveXlm, s.totalLp, xlm, fromXlm);
    LimitingSide(s.reserveSxlm, s.totalLp, sxlm, fromSxlm);
    if fromXlm < fromSxlm {
      MatchedSide(s.reserveSxlm, s.totalLp, sxlm, d.minted, d.sxlm);
    } else {
      MatchedSide(s.reserveXlm, s.totalLp, xlm, d.minted, d.xlm);
    }
  }

  lemma RemoveSide(r: int, total: int, amount: int)
    requires r >= 0 && total > 0 && 0 <= amount <= total
    ensures 0 <= Quot(amount * r, total) <= r
    ensures amount == total ==> Quot(amount * r, total) == r
    ensures amount < total && r > 0 ==> Quot(amount * r, total) < r
    ensures (r - Quot(amount * r, total)) * total >= r * (total - amount)
  {
    MulPositive(amount, r);
    MulLe(amount, total, r);
    MulCommutes(r, total);
    QuotFloor(amount * r, total);
    QuotAtMost(amount * r, total, r);
    var out := Quot(amount * r, total);
    MulDistributes(total, r, -out);
    MulDistributes(r, total, -amount);
    MulCommutes(r, amount);
    if amount == total {
      QuotUnique(amount * r, total, r);
    } else if r > 0 {
      MulDistributes(r, amount, 1);
      MulLe(amount + 1, total, r);
      BelowFull(amount * r, total, r);
    }
  }

  lemma BelowFull(a: int, total: int, r: int)
    requires total > 0 && r > 0 && 0 <= a < r * total
    ensures Quot(a, total) < r
  {
    MulDistributes(total, r - 1, 1);
    QuotAtMost(a, total, r - 1);
  }

  /** A removal lowers the reserve per share on neither side. */
  lemma RemovalRates(s: Pool, user: Address, amount: int, now: nat)
    requires Balanced(s) && Get(s.lp, user) <= s.totalLp
    requires RemoveLiquidity(s, user, amount, now).Some?
    ensures var (s', w) := RemoveLiquidity(s, user, amount, now).value;
            && s'.totalLp == s.totalLp - amount
            && s'.reserveXlm * s.totalLp >= s.reserveXlm * s'.totalLp
            && s'.reserveSxlm * s.totalLp >= s.reserveSxlm * s'.totalLp
            && Balanced(s')
  {
    Removed(s, user, amount, now);
    hide RemoveLiquidity;
    RemoveSide(s.reserveXlm, s.totalLp, amount);
    RemoveSide(s.reserveSxlm, s.totalLp, amount);
  }

  /** The shares a deposit mints buy back no more than the deposit took. */
  lemma SharesBuyBack(s: Pool, xlm: int, sxlm: int)
    requires Balanced(s) && s.totalLp > 0 && xlm > 0 && sxlm > 0
    requires DepositShares(s, xlm, sxlm).minted > 0
    ensures var d := DepositShares(s, xlm, sxlm);
            && Quot(d.minted * (s.reserveXlm + d.xlm), s.totalLp + d.minted) <= d.xlm <= xlm
            && Quot(d.minted * (s.reserveSxlm + d.sxlm), s.totalLp + d.minted) <= d.sxlm <= sxlm
  {
    var d := DepositShares(s, xlm, sxlm);
    var fromXlm := Quot(xlm * s.totalLp, s.reserveXlm);
    var fromSxlm := Quot(sxlm * s.totalLp, s.reserveSxlm);
    if fromXlm < fromSxlm {
      LimitingSide(s.reserveXlm, s.totalLp, xlm, d.minted);
      MatchedSide(s.reserveSxlm, s.totalLp, sxlm, d.minted, d.sxlm);
    } else {
      LimitingSide(s.reserveSxlm, s.totalLp, sxlm, d.minted);
      MatchedSide(s.reserveXlm, s.totalLp, xlm, d.minted, d.xlm);
    }
  }

  /** Adding liquidity and removing the minted shares returns no more of either token. */
  lemma AddThenRemove(s: Pool, user: Address, xlm: int, sxlm: int, now: nat, later: nat)
    requires Balanced(s)
    requires AddLiquidity(s, user, xlm, sxlm, now).Some?
    requires var (s1, d) := AddLiquidity(s, user, xlm, sxlm, now).value;
             RemoveLiquidity(s1, user, d.minted, later).Some?
    ensures var (s1, d) := AddLiquidity(s, user, xlm, sxlm, now).value;
            var (s2, w) := RemoveLiquidity(s1, user, d.minted, later).value;
            && w.xlm <= d.xlm <= xlm
            && w.sxlm <= d.sxlm <= sxlm
            && (s.totalLp == 0 ==> w.xlm == xlm && w.sxlm == sxlm)
  {
    hide AddLiquidity, RemoveLiquidity;
    var (s1, d) := AddLiquidity(s, user, xlm, sxlm, now).value;
    Added(s, user, xlm, sxlm, now);
    Removed(s1, user, d.minted, later);
    if s.totalLp == 0 {
      RemoveSide(xlm, d.minted, d.minted);
      RemoveSide(sxlm, d.minted, d.minted);
    } else {
      SharesBuyBack(s, xlm, sxlm);
    }
  }

  /** The first deposit mints the floor of the geometric mean of the amounts. */
  lemma FirstDeposit(s: Pool, user: Address, xlm: int, sxlm: int, now: nat)
    requires s.totalLp == 0
    requires AddLiquidity(s, user, xlm, sxlm, now).Some?
    ensures var d := AddLiquidity(s, user, xlm, sxlm, now).value.1;
            && d.xlm == xlm && d.sxlm == sxlm
            && d.minted * d.minted <= xlm * sxlm < (d.minted + 1) * (d.minted + 1)
  {
    Added(s, user, xlm, sxlm, now);
    hide AddLiquidity;
    assert xlm * sxlm > 0;
  }
}
