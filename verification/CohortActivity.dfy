/**
 Daily wallet balances, computed in two ways: a backfill that walks the whole history with running
 totals, and a daily job that carries the previous day's rows forward.
 */
module CohortActivity {
  import opened Arithmetic

  type Wallet = string
  // Calendar days are counted
  type Day = int

  datatype Delta = Delta(stake: int, borrow: int)

  datatype Row = Row(stakeActive: bool, borrowActive: bool, staked: int, borrowed: int)

  type Table = map<(Wallet, Day), Row>
  // Net changes per wallet and day; a day without events has no entry
  type History = map<Wallet, map<Day, Delta>>

  datatype Side = Stake | Borrow

  function Positive(n: int): int {
    if n > 0 then n else 0
  }

  function MakeRow(staked: int, borrowed: int): Row {
    Row(staked > 0, borrowed > 0, Positive(staked), Positive(borrowed))
  }

  function Change(history: History, wallet: Wallet, day: Day, side: Side): int {
    if wallet !in history || day !in history[wallet] then 0 else
      match side
      case Stake => history[wallet][day].stake
      case Borrow => history[wallet][day].borrow
  }

  /** The running total of the days first .. first + n - 1. */
  function Running(history: History, wallet: Wallet, first: Day, n: nat, side: Side): int {
    if n == 0 then 0 else Running(history, wallet, first, n - 1, side) + Change(history, wallet, first + n - 1, side)
  }

  // ---------- The two computations as functions of the table ----------

  /** The row the backfill writes for a day: its running totals from the first day on, clamped. */
  function BackfillRow(history: History, wallet: Wallet, first: Day, day: Day): Row
    requires first <= day
  {
    MakeRow(Running(history, wallet, first, day - first + 1, Stake), Running(history, wallet, first, day - first + 1, Borrow))
  }

  /** The table after a backfill of the missing days among first .. last. */
  ghost predicate Backfilled(before: Table, after: Table, history: History, wallets: set<Wallet>, missing: set<Day>,
                             first: Day, last: Day)
  {
    forall w, d ::
      if w in wallets && d in missing && first <= d <= last
      then (w, d) in after && after[(w, d)] == BackfillRow(history, w, first, d)
      else ((w, d) in after <==> (w, d) in before) && ((w, d) in before ==> after[(w, d)] == before[(w, d)])
  }

  function Amount(table: Table, wallet: Wallet, day: Day, side: Side): int {
    if (wallet, day) !in table then 0 else
      match side
      case Stake => table[(wallet, day)].staked
      case Borrow => table[(wallet, day)].borrowed
  }

  /** The wallets the daily job writes: those with a row the day before or an event that day. */
  predicate Seen(table: Table, history: History, wallet: Wallet, day: Day) {
    (wallet, day - 1) in table || (wallet in history && day in history[wallet])
  }

  function CarriedRow(table: Table, history: History, wallet: Wallet, day: Day): Row {
    MakeRow(Amount(table, wallet, day - 1, Stake) + Change(history, wallet, day, Stake),
            Amount(table, wallet, day - 1, Borrow) + Change(history, wallet, day, Borrow))
  }

  /** The daily job's table: carried rows for the given wallets, all other rows as before. */
  ghost predicate Carried(before: Table, after: Table, history: History, wallets: set<Wallet>, day: Day) {
    forall w, d ::
      if d == day && w in wallets
      then (w, d) in after && after[(w, d)] == CarriedRow(before, history, w, d)
      else ((w, d) in after <==> (w, d) in before) && ((w, d) in before ==> after[(w, d)] == before[(w, d)])
  }

  function Wallets(table: Table, history: History, day: Day): (r: set<Wallet>)
    ensures forall w :: w in r <==> Seen(table, history, w, day)
  {
    var r := (set k | k in table && k.1 == day - 1 :: k.0) + (set w | w in history && day in history[w]);
    assert forall w :: Seen(table, history, w, day) ==> w in r by {
      forall w | (w, day - 1) in table
        ensures w in r
      {
        assert (w, day - 1).0 == w;
      }
    }
    r
  }

  ghost predicate DailyStep(before: Table, after: Table, history: History, day: Day) {
    Carried(before, after, history, Wallets(before, history, day), day)
  }

  lemma CarriedMore(before: Table, now: Table, history: History, done: set<Wallet>, day: Day, wallet: Wallet)
    requires Carried(before, now, history, done, day)
    ensures Carried(before, now[(wallet, day) := CarriedRow(before, history, wallet, day)], history,
                    done + {wallet}, day)
  {
    hide CarriedRow;
  }

  // ---------- The service ----------

  class CohortAggregator {
    var activity: Table

    constructor (stored: Table)
      ensures activity == stored
    {
      activity := stored;
    }

    /** One wallet's walk over the whole range, with running totals. */
    method WalkDays(history: History, wallet: Wallet, missing: set<Day>, first: Day, last: Day)
      requires wallet in history
      modifies this
      ensures Backfilled(old(activity), activity, history, {wallet}, missing, first, last)
    {
      if last < first {
        return;
      }
      var cumStake, cumBorrow := 0, 0;
      var day := first;
      while day <= last
        invariant first <= day <= last + 1
        invariant cumStake == Running(history, wallet, first, day - first, Stake)
        invariant cumBorrow == Running(history, wallet, first, day - first, Borrow)
        invariant Backfilled(old(activity), activity, history, {wallet}, missing, first, day - 1)
        decreases last - day
      {
        if day in history[wallet] {
          cumStake := cumStake + history[wallet][day].stake;
          cumBorrow := cumBorrow + history[wallet][day].borrow;
        }
        if day in missing {
          activity := activity[(wallet, day) := Row(cumStake > 0, cumBorrow > 0,
                                                   if cumStake > 0 then cumStake else 0,
                                                   if cumBorrow > 0 then cumBorrow else 0)];
        }
        day := day + 1;
      }
    }

    /** Running totals over the whole history, written for the missing days. */
    method Backfill(history: History, missing: set<Day>, first: Day, last: Day)
      modifies this
      ensures Backfilled(old(activity), activity, history, history.Keys, missing, first, last)
    {
      var todo := history.Keys;
      while todo != {}
        invariant todo <= history.Keys
        invariant Backfilled(old(activity), activity, history, history.Keys - todo, missing, first, last)
        decreases |todo|
      {
        var wallet :| wallet in todo;
        WalkDays(history, wallet, missing, first, last);
        todo := todo - {wallet};
      }
    }

    /** Yesterday's rows plus today's changes. */
    method RunDailyJob(history: History, day: Day)
      modifies this
      ensures DailyStep(old(activity), activity, history, day)
    {
      var before := activity;
      var todo := Wallets(before, history, day);
      ghost var all, done: set<Wallet> := todo, {};
      while todo != {}
        invariant done + todo == all
        invariant Carried(before, activity, history, done, day)
        decreases |todo|
      {
        hide Carried, CarriedRow;
        var wallet :| wallet in todo;
        CarriedMore(before, activity, history, done, day, wallet);
        CarryWallet(history, before, wallet, day);
        todo, done := todo - {wallet}, done + {wallet};
      }
      assert done == all;
    }

    method CarryWallet(history: History, before: Table, wallet: Wallet, day: Day)
      modifies this
      ensures activity == old(activity)[(wallet, day) := CarriedRow(before, history, wallet, day)]
    {
      var staked := Amount(before, wallet, day - 1, Stake) + Change(history, wallet, day, Stake);
      var borrowed := Amount(before, wallet, day - 1, Borrow) + Change(history, wallet, day, Borrow);
      activity := activity[(wallet, day) := Row(staked > 0, borrowed > 0,
                                               if staked > 0 then staked else 0,
                                               if borrowed > 0 then borrowed else 0)];
    }
  }

  // ---------- Fast against slow ----------

  /** The least running total over the first 0 .. n days, the empty one included. */
  function LeastRunning(history: History, wallet: Wallet, first: Day, n: nat, side: Side): int {
    if n == 0 then 0 else
      Min(LeastRunning(history, wallet, first, n - 1, side), Running(history, wallet, first, n, side))
  }

  /** The tables after 0, 1, ..., n daily jobs from the first day on. */
  ghost predicate DailyRun(tables: seq<Table>, history: History, first: Day) {
    && tables != []
    && (forall k | k in tables[0] :: k.1 < first - 1)
    && (forall i | 0 < i < |tables| :: DailyStep(tables[i - 1], tables[i], history, first + i - 1))
  }

  lemma DailyAmount(before: Table, after: Table, history: History, day: Day, wallet: Wallet, side: Side)
    requires DailyStep(before, after, history, day)
    ensures if Seen(before, history, wallet, day)
            then Amount(after, wallet, day, side)
                 == Positive(Amount(before, wallet, day - 1, side) + Change(history, wallet, day, side))
            else Change(history, wallet, day, side) == 0 && Amount(before, wallet, day - 1, side) == 0
                 && ((wallet, day) in after <==> (wallet, day) in before)
  {
    assert (wallet, day) in after || (wallet, day) !in after;
  }

  lemma {:induction false} NoLaterRows(tables: seq<Table>, history: History, first: Day, i: nat, wallet: Wallet, day: Day)
    requires DailyRun(tables, history, first) && i < |tables|
    requires day == first - 1 || day >= first + i
    ensures (wallet, day) !in tables[i]
  {
    if i > 0 {
      NoLaterRows(tables, history, first, i - 1, wallet, day);
      assert DailyStep(tables[i - 1], tables[i], history, first + i - 1);
    }
  }

  /**
   From a zero start the carried balance is the running total raised by its deepest dip below zero,
   so it is never below the backfilled one, and equals it exactly when no running total was
   negative or the latest is as low as any before it.
   */
  lemma {:induction false} CarryForward(tables: seq<Table>, history: History, first: Day, n: nat, wallet: Wallet, side: Side)
    requires DailyRun(tables, history, first) && 0 < n < |tables|
    ensures var carried := Amount(tables[n], wallet, first + n - 1, side);
            var total := Running(history, wallet, first, n, side);
            var least := LeastRunning(history, wallet, first, n, side);
            && carried == total - least
            && carried >= Positive(total)
            && (carried == Positive(total) <==> least == 0 || total == least)
  {
    var day := first + n - 1;
    assert DailyStep(tables[n - 1], tables[n], history, day);
    DailyAmount(tables[n - 1], tables[n], history, day, wallet, side);
    NoLaterRows(tables, history, first, n - 1, wallet, day);
    hide DailyStep, DailyRun, Change;
    if n > 1 {
      CarryForward(tables, history, first, n - 1, wallet, side);
    } else {
      NoLaterRows(tables, history, first, 0, wallet, first - 1);
    }
    LeastIsLow(history, wallet, first, n, side);
  }

  lemma LeastIsLow(history: History, wallet: Wallet, first: Day, n: nat, side: Side)
    ensures LeastRunning(history, wallet, first, n, side) <= Min(0, Running(history, wallet, first, n, side))
  {
    if n > 0 {
      LeastIsLow(history, wallet, first, n - 1, side);
    }
  }

  /** The same against the rows the backfill stores for the same day. */
  lemma FastAgainstSlow(tables: seq<Table>, stored: Table, filled: Table, history: History, missing: set<Day>,
                        first: Day, n: nat, wallet: Wallet, side: Side)
    requires DailyRun(tables, history, first) && 0 < n < |tables|
    requires wallet in history && first + n - 1 in missing
    requires Backfilled(stored, filled, history, history.Keys, missing, first, first + n - 1)
    ensures var day := first + n - 1;
            var fast, slow := Amount(tables[n], wallet, day, side), Amount(filled, wallet, day, side);
            var least := LeastRunning(history, wallet, first, n, side);
            && slow <= fast
            && (least == 0 || Running(history, wallet, first, n, side) == least <==> fast == slow)
  {
    CarryForward(tables, history, first, n, wallet, side);
    hide DailyRun, Running, LeastRunning;
    assert filled[(wallet, first + n - 1)] == BackfillRow(history, wallet, first, first + n - 1);
  }

  /**
   A wallet without a row for the previous day gets that day's changes alone. This is the balance
   of all its events up to the date exactly when the earlier ones cancel out, or when they and the
   day's changes both come to nothing positive.
   */
  lemma GapForgets(before: Table, after: Table, history: History, first: Day, day: Day, wallet: Wallet, side: Side)
    requires DailyStep(before, after, history, day)
    requires (wallet, day - 1) !in before && (wallet, day) !in before && first <= day
    ensures var change := Change(history, wallet, day, side);
            var earlier := Running(history, wallet, first, day - first, side);
            && Amount(after, wallet, day, side) == Positive(change)
            && (Amount(after, wallet, day, side) == Positive(Running(history, wallet, first, day - first + 1, side))
                <==> earlier == 0 || (change <= 0 && earlier + change <= 0))
  {
    DailyAmount(before, after, history, day, wallet, side);
  }

  /** A row counts a side as active exactly when its amount is positive, and no amount is negative. */
  predicate WellFormed(r: Row) {
    r.staked >= 0 && r.borrowed >= 0 && (r.stakeActive <==> r.staked > 0) && (r.borrowActive <==> r.borrowed > 0)
  }

  /** Either computation keeps all rows well formed, and writes none but its own. */
  lemma RowsStayWellFormed(before: Table, after: Table, history: History, wallets: set<Wallet>, missing: set<Day>,
                           first: Day, last: Day)
    requires forall k | k in before :: WellFormed(before[k])
    requires Backfilled(before, after, history, wallets, missing, first, last) || DailyStep(before, after, history, last)
    ensures forall k | k in after :: WellFormed(after[k])
  {
    forall k | k in after
      ensures WellFormed(after[k])
    {
      var (w, d) := k;
      assert k == (w, d);
      assert (w, d) in before || (w, d) !in before;
    }
  }

  // ---------- Where the two computations differ ----------

  // A wallet that first withdraws more than is on record, then deposits as much
  const DIP: History := map["wallet" := map[0 := Delta(-5, 0), 1 := Delta(5, 0)]]

  // Day 0 of that wallet in either computation
  const DAY_ZERO: Table := map[("wallet", 0) := Row(false, false, 0, 0)]

  lemma JobAfter(before: Table, row: Row, history: History, day: Day)
    requires Wallets(before, history, day) == {"wallet"} && row == CarriedRow(before, history, "wallet", day)
    ensures DailyStep(before, before[("wallet", day) := row], history, day)
  {
  }

  /** After a dip below zero the daily job carries 5 where the backfill finds 0. */
  lemma CarriedCanExceed()
    ensures var tables := [map[], DAY_ZERO, DAY_ZERO[("wallet", 1) := Row(true, false, 5, 0)]];
            var filled := DAY_ZERO[("wallet", 1) := Row(false, false, 0, 0)];
            && DailyRun(tables, DIP, 0)
            && Backfilled(map[], filled, DIP, DIP.Keys, {0, 1}, 0, 1)
            && Amount(tables[2], "wallet", 1, Stake) == 5
            && Amount(filled, "wallet", 1, Stake) == 0
  {
    JobAfter(map[], Row(false, false, 0, 0), DIP, 0);
    assert map[][("wallet", 0) := Row(false, false, 0, 0)] == DAY_ZERO;
    JobAfter(DAY_ZERO, Row(true, false, 5, 0), DIP, 1);
    assert Running(DIP, "wallet", 0, 1, Stake) == -5 && Running(DIP, "wallet", 0, 1, Borrow) == 0;
    assert Running(DIP, "wallet", 0, 2, Stake) == 0 && Running(DIP, "wallet", 0, 2, Borrow) == 0;
    hide Running;
  }

  // A wallet that deposits once
  const ONE_DEPOSIT: History := map["wallet" := map[0 := Delta(5, 0)]]

  /** When day 1 is not run, day 2 has nothing for a wallet whose events add up to 5. */
  lemma GapLosesHistory()
    ensures var table := map[("wallet", 0) := Row(true, false, 5, 0)];
            && DailyStep(map[], table, ONE_DEPOSIT, 0)
            && DailyStep(table, table, ONE_DEPOSIT, 2)
            && Amount(table, "wallet", 2, Stake) == 0
            && Running(ONE_DEPOSIT, "wallet", 0, 3, Stake) == 5
  {
    var table := map[("wallet", 0) := Row(true, false, 5, 0)];
    JobAfter(map[], Row(true, false, 5, 0), ONE_DEPOSIT, 0);
    assert map[][("wallet", 0) := Row(true, false, 5, 0)] == table;
    assert Wallets(table, ONE_DEPOSIT, 2) == {};
    assert Running(ONE_DEPOSIT, "wallet", 0, 1, Stake) == 5;
    assert Running(ONE_DEPOSIT, "wallet", 0, 2, Stake) == 5;
  }
}
