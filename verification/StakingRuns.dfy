/**
 Runs of the vault and its token: the exchange rate, the ledger and the withdrawal queue in
 every state reached by calls of the vault, of the token, and transfers by others.
 */
module StakingRuns {
  import opened Wrappers
  import opened Sums
  import opened TokenLedger
  import opened SxlmToken
  import opened StakingModel

  datatype Action =
    | Advance
    | Outside(token: Address, from: Address, to: Address, amount: int)
    | DepositXlm(user: Address, amount: int)
    | RequestXlm(user: Address, amount: int)
    | ClaimXlm(user: Address, id: nat)
    | Reward(caller: Address, amount: int)
    | TakeFees(caller: Address, amount: int)
    | Slash(caller: Address, amount: int)
    | Fund(caller: Address, amount: int)
    | SetAdmin(caller: Address, newAdmin: Address)
    | SetPaused(caller: Address, on: bool)
    | SetCooldown(caller: Address, ledgers: nat)
    | TokenCall(call: TokenCall)

  // Calls of the token by anyone but the vault
  datatype TokenCall =
    | MintCall(caller: Address, to: Address, amount: int)
    | BurnCall(caller: Address, from: Address, amount: int)
    | ApproveCall(caller: Address, spender: Address, amount: int)
    | SendCall(caller: Address, to: Address, amount: int)
    | SendFromCall(spender: Address, from: Address, to: Address, amount: int)

  datatype Payout = Payout(id: nat, user: Address, amount: int, ledger: nat)

  /** The vault, the ledger sequence, and an observer's totals. */
  datatype System = System(vault: Vault, ledger: nat, received: int, instant: int, slashed: int,
                           gross: int, requested: int, payouts: seq<Payout>)

  function Start(s: Vault): System {
    System(s, 0, Balance(s.bank, s.native, s.self), 0, 0, 0, 0, [])
  }

  function CallToken(t: Token, c: TokenCall): Option<Token> {
    match c
    case MintCall(caller, to, amount) => Mint(t, caller, to, amount)
    case BurnCall(caller, from, amount) => Burn(t, caller, from, amount)
    case ApproveCall(caller, spender, amount) => Approve(t, caller, spender, amount)
    case SendCall(caller, to, amount) => Send(t, caller, to, amount)
    case SendFromCall(spender, from, to, amount) => SendFrom(t, spender, from, to, amount)
  }

  function CallerOf(c: TokenCall): Address {
    if c.SendFromCall? then c.spender else c.caller
  }

  function Step(sys: System, a: Action): System {
    var s := sys.vault;
    match a
    case Advance => sys.(ledger := sys.ledger + 1)
    case Outside(token, from, to, amount) =>
      var r := Transfer(s.bank, token, from, to, amount);
      if from == s.self || r.None? then sys else
        sys.(vault := s.(bank := r.value),
             received := sys.received + if to == s.self && token == s.native then amount else 0)
    case DepositXlm(user, amount) => sys.(vault := Deposit(s, user, amount).GetOr(s))
    case RequestXlm(user, amount) =>
      var r := RequestWithdrawal(s, user, amount, sys.ledger);
      if r.None? then sys else
        var out := Worth(s, amount);
        if r.value.counter == s.counter then sys.(vault := r.value, instant := sys.instant + out)
        else sys.(vault := r.value, requested := sys.requested + out)
    case ClaimXlm(user, id) =>
      var r := ClaimWithdrawal(s, user, id, sys.ledger);
      if r.None? then sys else
        sys.(vault := r.value, payouts := sys.payouts + [Payout(id, user, s.queue[id].amount, sys.ledger)])
    case Reward(caller, amount) =>
      var r := AddRewards(s, caller, amount);
      if r.None? then sys else sys.(vault := r.value, gross := sys.gross + amount)
    case TakeFees(caller, amount) => sys.(vault := WithdrawFees(s, caller, amount).GetOr(s))
    case Slash(caller, amount) =>
      var r := ApplySlashing(s, caller, amount);
      if r.None? then sys else sys.(vault := r.value, slashed := sys.slashed + amount)
    case Fund(caller, amount) => sys.(vault := AddLiquidity(s, caller, amount).GetOr(s))
    case SetAdmin(caller, newAdmin) => if IsAdmin(s, caller) then sys.(vault := s.(admin := newAdmin)) else sys
    case SetPaused(caller, on) => if IsAdmin(s, caller) then sys.(vault := s.(paused := on)) else sys
    case SetCooldown(caller, n) => if IsAdmin(s, caller) then sys.(vault := s.(cooldown := n)) else sys
    case TokenCall(c) =>
      if CallerOf(c) == s.self then sys else sys.(vault := s.(token := CallToken(s.token, c).GetOr(s.token)))
  }

  function Run(sys: System, actions: seq<Action>): System
    decreases |actions|
  {
    if actions == [] then sys else Run(Step(sys, actions[0]), actions[1..])
  }

  // ---------- Ledger ----------

  /**
   The vault's native balance is its recorded totals plus what storage booked without a transfer:
   instant payouts lower both the buffer and the stake, slashing lowers the stake alone, and
   rewards raise stake and treasury without funds. Transfers from outside are counted in.
   */
  predicate LedgerInv(sys: System) {
    var s := sys.vault;
    Balance(s.bank, s.native, s.self)
    == s.staked + s.buffer + s.treasury + sys.instant + sys.slashed - sys.gross + sys.received
  }

  /** While the vault is the token's only minter its supply is the token's, and its balances' sum. */
  ghost predicate SupplyInv(s: Vault) {
    s.token.minter == s.self && s.supply == s.token.supply && Conserved(s.token)
  }

  lemma MoneyKeepsLedger(sys: System, a: Action)
    requires LedgerInv(sys)
    requires a.DepositXlm? || a.RequestXlm? || a.ClaimXlm?
    ensures LedgerInv(Step(sys, a))
  {
    var s := sys.vault;
    hide Mint, Burn, Worth, SharesFor;
    if a.DepositXlm? && Deposit(s, a.user, a.amount).Some? {
      TransferMoves(s.bank, s.native, a.user, s.self, a.amount);
    } else if a.RequestXlm? && RequestWithdrawal(s, a.user, a.amount, sys.ledger).Some? {
      if s.buffer >= Worth(s, a.amount) {
        TransferMoves(s.bank, s.native, s.self, a.user, Worth(s, a.amount));
      }
    } else if a.ClaimXlm? && ClaimWithdrawal(s, a.user, a.id, sys.ledger).Some? {
      TransferMoves(s.bank, s.native, s.self, a.user, s.queue[a.id].amount);
    }
  }

  lemma StepKeepsLedger(sys: System, a: Action)
    requires LedgerInv(sys)
    ensures LedgerInv(Step(sys, a))
  {
    var s := sys.vault;
    if a.DepositXlm? || a.RequestXlm? || a.ClaimXlm? {
      MoneyKeepsLedger(sys, a);
      hide Step;
    } else {
      hide CallToken;
      if a.Outside? && Transfer(s.bank, a.token, a.from, a.to, a.amount).Some? && a.from != a.to {
        TransferMoves(s.bank, a.token, a.from, a.to, a.amount);
      } else if a.TakeFees? && WithdrawFees(s, a.caller, a.amount).Some? {
        TransferMoves(s.bank, s.native, s.self, s.admin, if a.amount <= 0 then s.treasury else a.amount);
      } else if a.Fund? && AddLiquidity(s, a.caller, a.amount).Some? {
        TransferMoves(s.bank, s.native, s.admin, s.self, a.amount);
      }
    }
  }

  lemma StepKeepsSupply(sys: System, a: Action)
    requires SupplyInv(sys.vault)
    ensures SupplyInv(Step(sys, a).vault)
  {
    var s := sys.vault;
    var t := s.token;
    hide Conserved, Transfer, Worth;
    match a
    case DepositXlm(user, amount) =>
      var r := Deposit(s, user, amount);
      if r.Some? {
        CallsConserve(t, r.value.token, s.self, user, user, SharesFor(s, amount));
      }
    case RequestXlm(user, amount) =>
      var r := RequestWithdrawal(s, user, amount, sys.ledger);
      if r.Some? {
        CallsConserve(t, r.value.token, s.self, user, user, amount);
      }
    case TokenCall(c) =>
      var r := CallToken(t, c);
      if CallerOf(c) != s.self && r.Some? {
        match c {
          case MintCall(caller, x, amount) => CallsConserve(t, r.value, caller, x, x, amount);
          case BurnCall(caller, x, amount) => CallsConserve(t, r.value, caller, x, x, amount);
          case ApproveCall(caller, x, amount) => CallsConserve(t, r.value, caller, x, x, amount);
          case SendCall(caller, x, amount) => CallsConserve(t, r.value, caller, x, x, amount);
          case SendFromCall(spender, x, y, amount) => CallsConserve(t, r.value, spender, x, y, amount);
        }
      }
    case _ =>
  }

  // ---------- Withdrawal queue ----------

  function Amounts(queue: map<nat, Request>, claimed: bool): map<nat, int> {
    map id | id in queue && queue[id].claimed == claimed :: queue[id].amount
  }

  function PaidTo(payouts: seq<Payout>): int {
    if payouts == [] then 0 else PaidTo(payouts[..|payouts| - 1]) + payouts[|payouts| - 1].amount
  }

  /** Every payout settles one claimed entry: its owner, its amount, at or after its unlock. */
  predicate PayoutsMatch(s: Vault, payouts: seq<Payout>) {
    && (forall i | 0 <= i < |payouts| ::
          var p := payouts[i];
          && p.id in s.queue && s.queue[p.id].claimed
          && p.user == s.queue[p.id].user && p.amount == s.queue[p.id].amount && p.ledger >= s.queue[p.id].unlock)
    && (forall i, j | 0 <= i < j < |payouts| :: payouts[i].id != payouts[j].id)
  }

  /** Ids are 0 .. counter - 1, and what was requested is what is unclaimed and what was paid. */
  ghost predicate QueueInv(sys: System) {
    var s := sys.vault;
    && (forall id: nat :: id in s.queue <==> id < s.counter)
    && (forall id | id in s.queue :: s.queue[id].id == id && s.queue[id].amount > 0)
    && PayoutsMatch(s, sys.payouts)
    && sys.requested == Sum(Amounts(s.queue, false)) + PaidTo(sys.payouts)
  }

  /** A new entry under the next id adds its amount to what is unclaimed. */
  lemma EntryAppended(s: Vault, entry: Request)
    requires s.counter !in s.queue && entry.id == s.counter && !entry.claimed
    ensures Sum(Amounts(s.queue[s.counter := entry], false)) == Sum(Amounts(s.queue, false)) + entry.amount
  {
    assert Amounts(s.queue[s.counter := entry], false) == Amounts(s.queue, false)[s.counter := entry.amount];
    SumUpdate(Amounts(s.queue, false), s.counter, entry.amount);
  }

  lemma RequestKeepsQueue(sys: System, a: Action)
    requires QueueInv(sys) && a.RequestXlm?
    ensures QueueInv(Step(sys, a))
  {
    var s := sys.vault;
    var r := RequestWithdrawal(s, a.user, a.amount, sys.ledger);
    hide Transfer, Burn, Worth, Sum, Amounts;
    if r.Some? && r.value.counter == s.counter + 1 {
      EntryAppended(s, r.value.queue[s.counter]);
    }
  }

  lemma ClaimKeepsQueue(sys: System, a: Action)
    requires QueueInv(sys) && a.ClaimXlm?
    ensures QueueInv(Step(sys, a))
  {
    var s := sys.vault;
    var r := ClaimWithdrawal(s, a.user, a.id, sys.ledger);
    hide Transfer, Sum;
    if r.Some? {
      var open := Amounts(s.queue, false);
      assert Amounts(r.value.queue, false) == open - {a.id};
      SumRemove(open, a.id);
      hide Amounts;
      var sys' := Step(sys, a);
      assert sys'.payouts[..|sys.payouts|] == sys.payouts;
    }
  }

  lemma StepKeepsQueue(sys: System, a: Action)
    requires QueueInv(sys)
    ensures QueueInv(Step(sys, a))
  {
    if a.RequestXlm? {
      RequestKeepsQueue(sys, a);
    } else if a.ClaimXlm? {
      ClaimKeepsQueue(sys, a);
    } else {
      hide Transfer, CallToken, Mint, SharesFor, Amounts, PayoutsMatch, Sum, RequestWithdrawal, ClaimWithdrawal;
      assert Step(sys, a).vault.queue == sys.vault.queue && Step(sys, a).vault.counter == sys.vault.counter;
      assert Step(sys, a).payouts == sys.payouts && Step(sys, a).requested == sys.requested;
      PayoutsDepend(sys.vault, Step(sys, a).vault, sys.payouts);
    }
  }

  lemma PayoutsDepend(s: Vault, s': Vault, payouts: seq<Payout>)
    requires s'.queue == s.queue
    ensures PayoutsMatch(s', payouts) == PayoutsMatch(s, payouts)
  {
  }

  /** An entry's owner, amount and unlock ledger are fixed, and a claim is final. */
  predicate SameEntry(r: Request, r': Request) {
    r'.id == r.id && r'.user == r.user && r'.amount == r.amount && r'.unlock == r.unlock
    && (r.claimed ==> r'.claimed)
  }

  predicate QueueExtends(q: map<nat, Request>, q': map<nat, Request>) {
    forall id | id in q :: id in q' && SameEntry(q[id], q'[id])
  }

  lemma StepExtendsQueue(sys: System, a: Action)
    requires QueueInv(sys)
    ensures QueueExtends(sys.vault.queue, Step(sys, a).vault.queue)
  {
    hide Transfer, CallToken, Mint, Burn, SharesFor, Worth, Amounts, PayoutsMatch;
  }

  /** In every run the queue only grows and no entry is ever rewritten, except to be claimed. */
  lemma {:induction false} QueueOnlyGrows(sys: System, actions: seq<Action>)
    requires QueueInv(sys)
    ensures QueueInv(Run(sys, actions))
    ensures QueueExtends(sys.vault.queue, Run(sys, actions).vault.queue)
    decreases |actions|
  {
    if actions != [] {
      StepKeepsQueue(sys, actions[0]);
      StepExtendsQueue(sys, actions[0]);
      QueueOnlyGrows(Step(sys, actions[0]), actions[1..]);
    }
  }

  // ---------- Every run ----------

  lemma {:induction false} RunKeepsLedger(sys: System, actions: seq<Action>)
    requires LedgerInv(sys) && SupplyInv(sys.vault)
    ensures LedgerInv(Run(sys, actions)) && SupplyInv(Run(sys, actions).vault)
    decreases |actions|
  {
    if actions != [] {
      StepKeepsLedger(sys, actions[0]);
      StepKeepsSupply(sys, actions[0]);
      RunKeepsLedger(Step(sys, actions[0]), actions[1..]);
    }
  }

  lemma VaultInvariant(self: Address, native: Address, admin: Address, cooldown: nat, tokenAdmin: Address,
                       bank: Bank, actions: seq<Action>)
    ensures var sys := Run(Start(Initial(self, native, admin, cooldown, Token(tokenAdmin, self, map[], map[], 0), bank)),
                           actions);
            LedgerInv(sys) && SupplyInv(sys.vault) && QueueInv(sys)
  {
    var s := Initial(self, native, admin, cooldown, Token(tokenAdmin, self, map[], map[], 0), bank);
    var sys := Start(s);
    assert Amounts(s.queue, false) == map[];
    RunKeepsLedger(sys, actions);
    QueueOnlyGrows(sys, actions);
  }
}
