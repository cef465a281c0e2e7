/** The vault's exchange rate: round trips, and which steps can lower it. */
module StakingRate {
  import opened Wrappers
  import opened Arithmetic
  import opened TokenLedger
  import opened SxlmToken
  import opened StakingModel
  import opened StakingRuns

  predicate Live(s: Vault) {
    s.staked > 0 && s.supply > 0
  }

  /** The stake behind one share has not fallen, compared without division. */
  predicate RateKept(s: Vault, s': Vault) {
    s'.staked * s.supply >= s.staked * s'.supply
  }

  /** The smallest integer at least a / b. */
  function Ceil(a: int, b: int): int
    requires b > 0
  {
    -((-a) / b)
  }

  lemma CeilBounds(a: int, b: int)
    requires b > 0
    ensures (Ceil(a, b) - 1) * b < a <= Ceil(a, b) * b
  {
    var q, m := (-a) / b, (-a) % b;
    assert -a == q * b + m;
    MulDistributes(b, -q, -1);
    assert (-q) * b == -(q * b);
  }

  /**
   Depositing x and withdrawing the minted shares at once returns x less the rounding of the
   mint, spread over the new supply and rounded up.
   */
  lemma RoundTrip(s: Vault, user: Address, x: int)
    requires Live(s) && Deposit(s, user, x).Some?
    ensures var s1 := Deposit(s, user, x).value;
            var minted := SharesFor(s, x);
            && s1.supply == s.supply + minted > 0
            && Worth(s1, minted) == x - Ceil((x * s.supply) % s.staked, s.supply + minted)
  {
    var s1 := Deposit(s, user, x).value;
    var m := SharesFor(s, x);
    hide Transfer, Mint;
    var r := (x * s.supply) % s.staked;
    MulPositive(x, s.supply);
    assert x * s.supply == m * s.staked + r;
    var total := s.supply + m;
    var c := Ceil(r, total);
    CeilBounds(r, total);
    MulDistributes(m, s.staked, x);
    MulDistributes(x, s.supply, m);
    MulCommutes(x, m);
    assert m * (s.staked + x) == x * total - r;
    MulDistributes(total, x, -c);
    MulDistributes(total, c, -1);
    assert (-c) * total == -(c * total);
    MulPositive(m, s.staked + x);
    QuotUnique(m * (s.staked + x), total, x - c);
  }

  /** An amount out of at most the shares' worth keeps the rate of the rest. */
  lemma BurnKeepsRate(s: Vault, amount: int)
    requires Live(s) && 0 < amount
    ensures Worth(s, amount) * s.supply <= amount * s.staked
    ensures (s.staked - Worth(s, amount)) * s.supply >= s.staked * (s.supply - amount)
    ensures s.staked * s.supply >= s.staked * (s.supply - amount)
  {
    MulPositive(amount, s.staked);
    QuotFloor(amount * s.staked, s.supply);
    MulDistributes(s.supply, s.staked, -Worth(s, amount));
    assert (-Worth(s, amount)) * s.supply == -(Worth(s, amount) * s.supply);
    MulDistributes(s.staked, s.supply, -amount);
    MulCommutes(amount, s.staked);
  }

  lemma MintKeepsRate(s: Vault, amount: int)
    requires Live(s) && 0 < amount
    ensures (s.staked + amount) * s.supply >= s.staked * (s.supply + SharesFor(s, amount))
  {
    MulPositive(amount, s.supply);
    QuotFloor(amount * s.supply, s.staked);
    MulDistributes(s.supply, s.staked, amount);
    MulDistributes(s.staked, s.supply, SharesFor(s, amount));
    MulCommutes(SharesFor(s, amount), s.staked);
  }

  lemma RewardKeepsRate(s: Vault, amount: int)
    requires Live(s) && 0 < amount
    ensures 0 <= RewardFee(amount) < amount
    ensures (s.staked + (amount - RewardFee(amount))) * s.supply >= s.staked * s.supply
  {
    QuotFloor(amount * PROTOCOL_FEE_BPS, BPS);
    MulLe(s.staked, s.staked + (amount - RewardFee(amount)), s.supply);
  }

  /**
   From a live vault, every step but a claim and a slashing keeps the stake per share, whether a
   request is paid at once or queued; claims and slashings strictly lower it.
   */
  lemma StepRate(sys: System, a: Action)
    requires Live(sys.vault) && QueueInv(sys)
    ensures var s, s' := sys.vault, Step(sys, a).vault;
            if a.ClaimXlm? || a.Slash?
            then s' == s || (s'.supply == s.supply && s'.staked < s.staked && s'.staked * s.supply < s.staked * s'.supply)
            else RateKept(s, s')
  {
    var s := sys.vault;
    hide Transfer, Mint, Burn, CallToken, SharesFor, Worth, RewardFee;
    match a
    case DepositXlm(_, amount) =>
      if amount > 0 {
        MintKeepsRate(s, amount);
      }
    case RequestXlm(_, amount) =>
      if amount > 0 {
        BurnKeepsRate(s, amount);
      }
    case Reward(_, amount) =>
      if amount > 0 {
        RewardKeepsRate(s, amount);
      }
    case ClaimXlm(_, _) => StrictlyLess(Step(sys, a).vault.staked, s.staked, s.supply);
    case Slash(_, _) => StrictlyLess(Step(sys, a).vault.staked, s.staked, s.supply);
    case _ =>
  }

  lemma StrictlyLess(a: int, b: int, c: int)
    requires c > 0
    ensures a < b ==> a * c < b * c
  {
    if a < b {
      MulLe(a + 1, b, c);
    }
  }

  /** Runs in which no claim is paid, nothing is slashed, and the supply never runs out. */
  predicate KeepsShares(sys: System, actions: seq<Action>)
    decreases |actions|
  {
    actions == []
    || (&& (actions[0].ClaimXlm? || actions[0].Slash? ==> Step(sys, actions[0]).vault == sys.vault)
        && Step(sys, actions[0]).vault.supply > 0
        && KeepsShares(Step(sys, actions[0]), actions[1..]))
  }

  lemma RateChain(s0: Vault, s1: Vault, s2: Vault)
    requires s0.supply > 0 && s1.supply > 0 && s2.supply > 0
    requires RateKept(s0, s1) && RateKept(s1, s2)
    ensures RateKept(s0, s2)
  {
    MulLe(s0.staked * s1.supply, s1.staked * s0.supply, s2.supply);
    MulLe(s1.staked * s2.supply, s2.staked * s1.supply, s0.supply);
    var left, right := s0.staked * s2.supply, s2.staked * s0.supply;
    assert left * s1.supply == s0.staked * s1.supply * s2.supply;
    assert right * s1.supply == s2.staked * s1.supply * s0.supply;
    assert s1.staked * s0.supply * s2.supply == s1.staked * s2.supply * s0.supply;
    MulCancel(left, right, s1.supply);
  }

  /** A kept rate of a live vault with shares left is a positive stake. */
  lemma StaysLive(s: Vault, s': Vault)
    requires Live(s) && s'.supply > 0 && RateKept(s, s')
    ensures Live(s')
  {
    MulPositive(s.staked - 1, s'.supply - 1);
    assert s.staked * s'.supply > 0;
    if s'.staked <= 0 {
      MulLe(s'.staked, 0, s.supply);
    }
  }

  /** Over every such run the stake per share never falls. */
  lemma {:induction false} RateNeverFalls(sys: System, actions: seq<Action>)
    requires Live(sys.vault) && QueueInv(sys) && KeepsShares(sys, actions)
    ensures RateKept(sys.vault, Run(sys, actions).vault) && Live(Run(sys, actions).vault)
    decreases |actions|
  {
    if actions != [] {
      var next := Step(sys, actions[0]);
      StepRate(sys, actions[0]);
      StepKeepsQueue(sys, actions[0]);
      hide Step, QueueInv;
      StaysLive(sys.vault, next.vault);
      RateNeverFalls(next, actions[1..]);
      RateChain(sys.vault, next.vault, Run(next, actions[1..]).vault);
    }
  }

  /** The published rate, a floor, follows the stake per share. */
  lemma PublishedRateFollows(s: Vault, s': Vault)
    requires Live(s) && Live(s') && RateKept(s, s')
    ensures ExchangeRate(s) <= ExchangeRate(s')
  {
    var rate := ExchangeRate(s);
    QuotFloor(s.staked * RATE_PRECISION, s.supply);
    MulLe(s.staked * s'.supply, s'.staked * s.supply, RATE_PRECISION);
    MulLe(rate * s.supply, s.staked * RATE_PRECISION, s'.supply);
    assert rate * s.supply * s'.supply == rate * s'.supply * s.supply;
    assert s.staked * RATE_PRECISION * s'.supply == s.staked * s'.supply * RATE_PRECISION;
    assert s'.staked * s.supply * RATE_PRECISION == s'.staked * RATE_PRECISION * s.supply;
    MulCancel(rate * s'.supply, s'.staked * RATE_PRECISION, s.supply);
    QuotAtLeast(s'.staked * RATE_PRECISION, s'.supply, rate);
  }
}
