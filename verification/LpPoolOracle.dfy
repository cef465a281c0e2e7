/** The on-chain price oracle: what a cumulative price is the sum of. */
module LpPoolOracle {
  import opened Wrappers
  import opened Arithmetic
  import opened TokenLedger
  import opened LpPoolModel
  import opened LpPoolRuns

  datatype Side = XlmPerSxlm | SxlmPerXlm

  /** The floor price in force while the reserves were r. */
  function PriceOf(r: (int, int), side: Side): int {
    match side
    case XlmPerSxlm => Price(r.0, r.1)
    case SxlmPerXlm => Price(r.1, r.0)
  }

  /** The sum of the prices in force during the seconds from, ..., until - 1. */
  function PriceSum(history: seq<(int, int)>, from: nat, until: nat, side: Side): int
    requires from <= until <= |history|
    decreases until
  {
    if from == until then 0 else PriceSum(history, from, until - 1, side) + PriceOf(history[until - 1], side)
  }

  function Cumulative(s: Pool, side: Side): int {
    match side
    case XlmPerSxlm => s.cumXlm
    case SxlmPerXlm => s.cumSxlm
  }

  function LastUpdate(s: Pool): nat {
    s.timestampLast.GetOr(0)
  }

  function Reserves(s: Pool): (int, int) {
    (s.reserveXlm, s.reserveSxlm)
  }

  predicate Empty(s: Pool) {
    s.reserveXlm <= 0 || s.reserveSxlm <= 0
  }

  /**
   Each cumulative price is the sum of the floor prices of all seconds before the last update,
   and the reserves have not changed since.
   */
  predicate OracleInv(sys: System) {
    var s := sys.pool;
    && |sys.history| == sys.now
    && LastUpdate(s) <= sys.now
    && (s.timestampLast.None? ==> Empty(s))
    && (forall t | LastUpdate(s) <= t < sys.now :: sys.history[t] == Reserves(s))
    && (forall side :: Cumulative(s, side) == PriceSum(sys.history, 0, LastUpdate(s), side))
  }

  lemma {:induction false} PriceSumPrefix(history: seq<(int, int)>, more: seq<(int, int)>, from: nat, until: nat, side: Side)
    requires from <= until <= |history|
    ensures PriceSum(history + more, from, until, side) == PriceSum(history, from, until, side)
    decreases until
  {
    if from < until {
      PriceSumPrefix(history, more, from, until - 1, side);
    }
  }

  lemma {:induction false} PriceSumSplit(history: seq<(int, int)>, from: nat, mid: nat, until: nat, side: Side)
    requires from <= mid <= until <= |history|
    ensures PriceSum(history, from, until, side) == PriceSum(history, from, mid, side) + PriceSum(history, mid, until, side)
    decreases until
  {
    if mid < until {
      PriceSumSplit(history, from, mid, until - 1, side);
    }
  }

  /** Over a stretch of unchanged reserves the sum is price times duration. */
  lemma {:induction false} ConstantStretch(history: seq<(int, int)>, from: nat, until: nat, r: (int, int), side: Side)
    requires from <= until <= |history|
    requires forall t | from <= t < until :: history[t] == r
    ensures PriceSum(history, from, until, side) == PriceOf(r, side) * (until - from)
    decreases until
  {
    if from < until {
      ConstantStretch(history, from, until - 1, r, side);
      var p, d := PriceOf(r, side), until - 1 - from;
      assert p * (d + 1) == p * d + p;
    }
  }

  /** An update brings the sums forward to the present; afterwards reserves may change. */
  lemma UpdateCatchesUp(sys: System)
    requires OracleInv(sys)
    ensures var u := UpdatePrice(sys.pool, sys.now);
            && u.timestampLast == Some(sys.now)
            && forall side :: Cumulative(u, side) == PriceSum(sys.history, 0, sys.now, side)
  {
    var s := sys.pool;
    var last := LastUpdate(s);
    forall side
      ensures Cumulative(UpdatePrice(s, sys.now), side) == PriceSum(sys.history, 0, sys.now, side)
    {
      PriceSumSplit(sys.history, 0, last, sys.now, side);
      ConstantStretch(sys.history, last, sys.now, Reserves(s), side);
    }
  }

  /** A step either leaves reserves and oracle alone or has updated the oracle first. */
  predicate SameOracle(s: Pool, s': Pool) {
    Reserves(s) == Reserves(s') && s.cumXlm == s'.cumXlm && s.cumSxlm == s'.cumSxlm
    && s.timestampLast == s'.timestampLast
  }

  predicate UpdatedOracle(s: Pool, s': Pool, now: nat) {
    var u := UpdatePrice(s, now);
    s'.cumXlm == u.cumXlm && s'.cumSxlm == u.cumSxlm && s'.timestampLast == u.timestampLast
  }

  lemma UpdatePoolKeepsOracle(s: Pool, now: nat)
    ensures SameOracle(s, UpdatePool(s, now))
  {
    hide Quot, WindowReward;
  }

  lemma StepUpdatesFirst(sys: System, a: Action)
    requires !a.Tick?
    ensures var sys' := Step(sys, a);
            && sys'.now == sys.now && sys'.history == sys.history
            && (SameOracle(sys.pool, sys'.pool) || UpdatedOracle(sys.pool, sys'.pool, sys.now))
  {
    UpdatePoolKeepsOracle(sys.pool, sys.now);
    UpdatePoolKeepsOracle(UpdatePrice(sys.pool, sys.now), sys.now);
    hide UpdatePool, UpdatePrice, Transfer, TransferBoth, Accrued, Overlay, CheckedOut, ProtocolCut, DepositShares,
         AutoClaim, PayRewards, Quot;
  }

  lemma StepKeepsOracle(sys: System, a: Action)
    requires OracleInv(sys)
    ensures OracleInv(Step(sys, a))
  {
    var sys' := Step(sys, a);
    if a.Tick? {
      forall side
        ensures PriceSum(sys'.history, 0, LastUpdate(sys.pool), side) == PriceSum(sys.history, 0, LastUpdate(sys.pool), side)
      {
        PriceSumPrefix(sys.history, [Reserves(sys.pool)], 0, LastUpdate(sys.pool), side);
      }
    } else {
      StepUpdatesFirst(sys, a);
      hide Step, UpdatePrice;
      if !SameOracle(sys.pool, sys'.pool) {
        UpdateCatchesUp(sys);
        var u := UpdatePrice(sys.pool, sys.now);
        forall side
          ensures Cumulative(sys'.pool, side) == Cumulative(u, side)
        {
        }
      } else {
        forall side
          ensures Cumulative(sys'.pool, side) == Cumulative(sys.pool, side)
        {
        }
      }
    }
  }

  lemma {:induction false} RunKeepsOracle(sys: System, actions: seq<Action>)
    requires OracleInv(sys)
    ensures OracleInv(Run(sys, actions))
    ensures sys.history <= Run(sys, actions).history
    ensures LastUpdate(sys.pool) <= LastUpdate(Run(sys, actions).pool)
    decreases |actions|
  {
    if actions != [] {
      StepKeepsOracle(sys, actions[0]);
      LastUpdateGrows(sys, actions[0]);
      RunKeepsOracle(Step(sys, actions[0]), actions[1..]);
    }
  }

  lemma LastUpdateGrows(sys: System, a: Action)
    requires OracleInv(sys)
    ensures LastUpdate(sys.pool) <= LastUpdate(Step(sys, a).pool)
    ensures sys.history <= Step(sys, a).history
  {
    if !a.Tick? {
      StepUpdatesFirst(sys, a);
      UpdateCatchesUp(sys);
      hide Step, UpdatePrice;
    }
  }

  /**
   In every run each cumulative price is the sum, over every second before the last update, of the
   floor price in force in that second; seconds of an empty pool count as zero.
   */
  lemma OracleSums(cfg: Config, bank: Bank, actions: seq<Action>)
    ensures var sys := Run(Start(cfg, bank), actions);
            && |sys.history| == sys.now && LastUpdate(sys.pool) <= sys.now
            && sys.pool.cumXlm == PriceSum(sys.history, 0, LastUpdate(sys.pool), XlmPerSxlm)
            && sys.pool.cumSxlm == PriceSum(sys.history, 0, LastUpdate(sys.pool), SxlmPerXlm)
  {
    var sys := Start(cfg, bank);
    StartIsConsistent(cfg, bank);
    RunKeepsOracle(sys, actions);
    var end := Run(sys, actions);
    assert Cumulative(end.pool, XlmPerSxlm) == end.pool.cumXlm;
    assert Cumulative(end.pool, SxlmPerXlm) == end.pool.cumSxlm;
  }

  lemma {:induction false} PriceSumBounds(history: seq<(int, int)>, from: nat, until: nat, side: Side, low: int, high: int)
    requires from <= until <= |history|
    requires forall t | from <= t < until :: low <= PriceOf(history[t], side) <= high
    ensures low * (until - from) <= PriceSum(history, from, until, side) <= high * (until - from)
    decreases until
  {
    if from < until {
      PriceSumBounds(history, from, until - 1, side, low, high);
      var d := until - 1 - from;
      assert low * (d + 1) == low * d + low;
      assert high * (d + 1) == high * d + high;
    }
  }

  /** Two readings differ by the prices of the seconds between their updates. */
  lemma ReadingsDiffer(sys1: System, sys2: System, side: Side)
    requires OracleInv(sys1) && OracleInv(sys2) && sys1.history <= sys2.history
    requires LastUpdate(sys1.pool) <= LastUpdate(sys2.pool)
    ensures Cumulative(sys2.pool, side) - Cumulative(sys1.pool, side)
            == PriceSum(sys2.history, LastUpdate(sys1.pool), LastUpdate(sys2.pool), side)
  {
    var t1, t2 := LastUpdate(sys1.pool), LastUpdate(sys2.pool);
    var later := sys2.history[|sys1.history|..];
    assert sys2.history == sys1.history + later;
    PriceSumPrefix(sys1.history, later, 0, t1, side);
    PriceSumSplit(sys2.history, 0, t1, t2, side);
  }

  /**
   Between two readings of a run the quotient of their difference over the elapsed time lies
   between the least and the greatest price in between.
   */
  lemma AveragePrice(cfg: Config, bank: Bank, before: seq<Action>, between: seq<Action>, side: Side, low: int, high: int)
    requires var sys1 := Run(Start(cfg, bank), before);
             var sys2 := Run(sys1, between);
             && LastUpdate(sys1.pool) < LastUpdate(sys2.pool) <= |sys2.history|
             && forall t | LastUpdate(sys1.pool) <= t < LastUpdate(sys2.pool) ::
               low <= PriceOf(sys2.history[t], side) <= high
    ensures var sys1 := Run(Start(cfg, bank), before);
            var sys2 := Run(sys1, between);
            var t1, t2 := LastUpdate(sys1.pool), LastUpdate(sys2.pool);
            var gain := Cumulative(sys2.pool, side) - Cumulative(sys1.pool, side);
            && gain == PriceSum(sys2.history, t1, t2, side)
            && low <= gain / (t2 - t1) <= high
  {
    var start := Start(cfg, bank);
    assert OracleInv(start) by {
      StartIsConsistent(cfg, bank);
    }
    hide Start, OracleInv, LastUpdate, PriceSum, Cumulative;
    RunKeepsOracle(start, before);
    var sys1 := Run(start, before);
    RunKeepsOracle(sys1, between);
    var sys2 := Run(sys1, between);
    hide Run;
    ReadingsDiffer(sys1, sys2, side);
    var t1, t2 := LastUpdate(sys1.pool), LastUpdate(sys2.pool);
    PriceSumBounds(sys2.history, t1, t2, side, low, high);
    QuotientBetween(Cumulative(sys2.pool, side) - Cumulative(sys1.pool, side), t2 - t1, low, high);
  }

  lemma StartIsConsistent(cfg: Config, bank: Bank)
    ensures OracleInv(Start(cfg, bank))
  {
    forall side
      ensures Cumulative(Start(cfg, bank).pool, side) == 0
    {
    }
  }

  lemma QuotientBetween(a: int, n: int, low: int, high: int)
    requires n > 0 && low * n <= a <= high * n
    ensures low <= a / n <= high
  {
    var q, r := a / n, a % n;
    assert a == q * n + r;
    if q < low {
      MulLe(q + 1, low, n);
    } else if q > high {
      MulLe(high + 1, q, n);
    }
  }

  // ---------- In terms of the reserves ----------

  /** The reserve a side prices, and the reserve it is priced in units of. */
  function Priced(r: (int, int), side: Side): (int, int) {
    match side
    case XlmPerSxlm => r
    case SxlmPerXlm => (r.1, r.0)
  }

  /** A price is the floor of 10^18 times the ratio of the reserves, and zero for an empty pool. */
  lemma PriceIsRatio(r: (int, int), side: Side)
    ensures var (x, y) := Priced(r, side);
            if x > 0 && y > 0 then IsFloor(PriceOf(r, side), x * 1_000_000_000_000_000_000, y) else PriceOf(r, side) == 0
  {
    var (x, y) := Priced(r, side);
    if x > 0 && y > 0 {
      QuotIsFloor(x * PRICE_PRECISION, y);
    }
  }

  /**
   Over n seconds at unchanged reserves x and y the sum gains g with g y <= n x 10^18 < (g + n) y:
   the ratio of the reserves for each second, rounded down by less than one unit per second.
   */
  lemma GainAtConstantReserves(history: seq<(int, int)>, from: nat, until: nat, r: (int, int), side: Side)
    requires from < until <= |history| && forall t | from <= t < until :: history[t] == r
    requires r.0 > 0 && r.1 > 0
    ensures var (x, y) := Priced(r, side);
            var g, n := PriceSum(history, from, until, side), until - from;
            g * y <= n * x * 1_000_000_000_000_000_000 < (g + n) * y
  {
    var (x, y) := Priced(r, side);
    var p, n := PriceOf(r, side), until - from;
    PriceIsRatio(r, side);
    ConstantStretch(history, from, until, r, side);
    ScaleFloor(p, x * PRICE_PRECISION, y, n);
    hide PriceOf, PriceSum, IsFloor;
    MulDistributes(n, p, 1);
    Reorder(n, x, PRICE_PRECISION);
    MulCommutes(n, x * PRICE_PRECISION);
    Reorder(x, PRICE_PRECISION, n);
  }

  lemma ScaleFloor(p: int, a: int, b: int, n: int)
    requires n > 0 && IsFloor(p, a, b)
    ensures p * n * b <= n * a < (p + 1) * n * b
  {
    MulLe(p * b, a, n);
    MulLe(a + 1, (p + 1) * b, n);
    MulDistributes(n, a, 1);
    MulCommutes(a, n);
    Reorder(p, b, n);
    Reorder(p + 1, b, n);
  }

  lemma PriceAbove(p: int, x: int, y: int, num: int, den: int, scale: int)
    requires y > 0 && den > 0 && scale > 0
    requires num * y <= x * den && x * scale < (p + 1) * y
    ensures num * scale < (p + 1) * den
  {
    MulLe(num * y, x * den, scale);
    MulLe(x * scale + 1, (p + 1) * y, den);
    MulDistributes(den, x * scale, 1);
    Reorder(num, y, scale);
    Reorder(x, den, scale);
    Reorder(p + 1, y, den);
    LessFromScaled(num * scale, (p + 1) * den, y);
  }

  lemma PriceBelow(p: int, x: int, y: int, num: int, den: int, scale: int)
    requires y > 0 && den > 0 && scale > 0
    requires x * den <= num * y && p * y <= x * scale
    ensures p * den <= num * scale
  {
    MulLe(x * den, num * y, scale);
    MulLe(p * y, x * scale, den);
    Reorder(num, y, scale);
    Reorder(x, den, scale);
    Reorder(p, y, den);
    MulCancel(p * den, num * scale, y);
  }

  /** A bound on the ratio of the reserves bounds the price, up to the unit rounded off. */
  lemma PriceFromRatio(r: (int, int), side: Side, num: int, den: int)
    requires r.0 > 0 && r.1 > 0 && den > 0
    ensures var (x, y) := Priced(r, side);
            && (num * y <= x * den ==> num * 1_000_000_000_000_000_000 < (PriceOf(r, side) + 1) * den)
            && (x * den <= num * y ==> PriceOf(r, side) * den <= num * 1_000_000_000_000_000_000)
  {
    var (x, y) := Priced(r, side);
    var p := PriceOf(r, side);
    PriceIsRatio(r, side);
    hide PriceOf;
    if num * y <= x * den {
      PriceAbove(p, x, y, num, den, PRICE_PRECISION);
    }
    if x * den <= num * y {
      PriceBelow(p, x, y, num, den, PRICE_PRECISION);
    }
  }

  /** The ratio of the reserves in each second of a stretch lies between two fractions. */
  predicate RatiosBetween(history: seq<(int, int)>, from: nat, until: nat, side: Side,
                          lowNum: int, lowDen: int, highNum: int, highDen: int)
    requires until <= |history|
  {
    forall t | from <= t < until ::
      var (x, y) := Priced(history[t], side);
      x > 0 && y > 0 && lowNum * y <= x * lowDen && x * highDen <= highNum * y
  }

  lemma {:induction false} SumFromRatios(history: seq<(int, int)>, from: nat, until: nat, side: Side,
                                         lowNum: int, lowDen: int, highNum: int, highDen: int)
    requires from <= until <= |history| && lowDen > 0 && highDen > 0
    requires RatiosBetween(history, from, until, side, lowNum, lowDen, highNum, highDen)
    ensures var g, n := PriceSum(history, from, until, side), until - from;
            && n * lowNum * 1_000_000_000_000_000_000 <= (g + n) * lowDen
            && g * highDen <= n * highNum * 1_000_000_000_000_000_000
    decreases until
  {
    if from < until {
      SumFromRatios(history, from, until - 1, side, lowNum, lowDen, highNum, highDen);
      var r := history[until - 1];
      PriceFromRatio(r, side, lowNum, lowDen);
      PriceFromRatio(r, side, highNum, highDen);
      var g, n, p := PriceSum(history, from, until - 1, side), until - 1 - from, PriceOf(r, side);
      hide PriceOf, PriceSum, RatiosBetween;
      assert (n + 1) * lowNum * PRICE_PRECISION == n * lowNum * PRICE_PRECISION + lowNum * PRICE_PRECISION;
      assert (n + 1) * highNum * PRICE_PRECISION == n * highNum * PRICE_PRECISION + highNum * PRICE_PRECISION;
      MulDistributes(lowDen, g + n, p + 1);
      MulDistributes(highDen, g, p);
    }
  }

  lemma RatioBetweenReadings(sys1: System, sys2: System, side: Side, lowNum: int, lowDen: int, highNum: int, highDen: int)
    requires OracleInv(sys1) && OracleInv(sys2) && sys1.history <= sys2.history
    requires LastUpdate(sys1.pool) <= LastUpdate(sys2.pool) && lowDen > 0 && highDen > 0
    requires RatiosBetween(sys2.history, LastUpdate(sys1.pool), LastUpdate(sys2.pool), side, lowNum, lowDen, highNum, highDen)
    ensures var n := LastUpdate(sys2.pool) - LastUpdate(sys1.pool);
            var gain := if side.XlmPerSxlm? then sys2.pool.cumXlm - sys1.pool.cumXlm else sys2.pool.cumSxlm - sys1.pool.cumSxlm;
            && n * lowNum * 1_000_000_000_000_000_000 <= (gain + n) * lowDen
            && gain * highDen <= n * highNum * 1_000_000_000_000_000_000
  {
    ReadingsDiffer(sys1, sys2, side);
    SumFromRatios(sys2.history, LastUpdate(sys1.pool), LastUpdate(sys2.pool), side, lowNum, lowDen, highNum, highDen);
    hide RatiosBetween, OracleInv, PriceSum, LastUpdate;
  }

  /**
   What an integrator reads: while the pool is not empty, the average of a cumulative price between
   two readings lies between any bounds of the ratio of its reserves, times 10^18, less the one unit
   rounded off.
   */
  lemma AverageRatio(cfg: Config, bank: Bank, before: seq<Action>, between: seq<Action>, side: Side,
                     lowNum: int, lowDen: int, highNum: int, highDen: int)
    requires lowDen > 0 && highDen > 0
    requires var sys1 := Run(Start(cfg, bank), before);
             var sys2 := Run(sys1, between);
             && LastUpdate(sys2.pool) <= |sys2.history|
             && RatiosBetween(sys2.history, LastUpdate(sys1.pool), LastUpdate(sys2.pool), side, lowNum, lowDen, highNum, highDen)
    ensures var sys1 := Run(Start(cfg, bank), before);
            var sys2 := Run(sys1, between);
            var n := LastUpdate(sys2.pool) - LastUpdate(sys1.pool);
            var gain := if side.XlmPerSxlm? then sys2.pool.cumXlm - sys1.pool.cumXlm else sys2.pool.cumSxlm - sys1.pool.cumSxlm;
            && n * lowNum * 1_000_000_000_000_000_000 <= (gain + n) * lowDen
            && gain * highDen <= n * highNum * 1_000_000_000_000_000_000
  {
    var start := Start(cfg, bank);
    hide Run, Start, OracleInv, LastUpdate, RatiosBetween;
    StartIsConsistent(cfg, bank);
    RunKeepsOracle(start, before);
    var sys1 := Run(start, before);
    RunKeepsOracle(sys1, between);
    RatioBetweenReadings(sys1, Run(sys1, between), side, lowNum, lowDen, highNum, highDen);
  }
}
