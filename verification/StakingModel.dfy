/** The staking vault: storage and the effect of each entry point; None is a panicked call. */
module StakingModel {
  import opened Wrappers
  import opened Arithmetic
  import opened TokenLedger
  import opened SxlmToken

  const RATE_PRECISION: int := 10_000_000
  const PROTOCOL_FEE_BPS: int := 1000
  const BPS: int := 10_000

  datatype Request = Request(id: nat, user: Address, amount: int, unlock: nat, claimed: bool)

  datatype Vault = Vault(
    self: Address,
    native: Address,
    admin: Address,
    cooldown: nat,
    paused: bool,
    staked: int,
    supply: int,
    buffer: int,
    treasury: int,
    counter: nat,
    queue: map<nat, Request>,
    token: Token,
    bank: Bank)

  function Initial(self: Address, native: Address, admin: Address, cooldown: nat, token: Token, bank: Bank): Vault {
    Vault(self, native, admin, cooldown, false, 0, 0, 0, 0, 0, map[], token, bank)
  }

  function SharesFor(s: Vault, amount: int): int {
    if s.supply == 0 || s.staked == 0 then amount else Quot(amount * s.supply, s.staked)
  }

  function Deposit(s: Vault, user: Address, amount: int): Option<Vault> {
    if s.paused || user == s.self || amount <= 0 then None else
      var bank :- Transfer(s.bank, s.native, user, s.self, amount);
      var minted := SharesFor(s, amount);
      :- Need(minted > 0);
      var token :- Mint(s.token, s.self, user, minted);
      Some(s.(staked := s.staked + amount, supply := s.supply + minted, token := token, bank := bank))
  }

  /** The XLM a given amount of sXLM is worth. */
  function Worth(s: Vault, amount: int): int
    requires s.supply != 0
  {
    Quot(amount * s.staked, s.supply)
  }

  function RequestWithdrawal(s: Vault, user: Address, amount: int, ledger: nat): Option<Vault> {
    if s.paused || user == s.self || amount <= 0 || s.supply == 0 then None else
      var out := Worth(s, amount);
      :- Need(out > 0);
      var token :- Burn(s.token, s.self, user, amount);
      var burned := s.(supply := s.supply - amount, token := token);
      if s.buffer >= out then
        var bank :- Transfer(s.bank, s.native, s.self, user, out);
        Some(burned.(buffer := s.buffer - out, staked := s.staked - out, bank := bank))
      else
        Some(burned.(counter := s.counter + 1,
                     queue := s.queue[s.counter := Request(s.counter, user, out, ledger + s.cooldown, false)]))
  }

  function ClaimWithdrawal(s: Vault, user: Address, id: nat, ledger: nat): Option<Vault> {
    if user == s.self || id !in s.queue then None else
      var r := s.queue[id];
      :- Need(r.user == user && !r.claimed && ledger >= r.unlock);
      var bank :- Transfer(s.bank, s.native, s.self, user, r.amount);
      Some(s.(queue := s.queue[id := r.(claimed := true)], staked := s.staked - r.amount, bank := bank))
  }

  /** The admin's signature; the vault itself signs nothing. */
  predicate IsAdmin(s: Vault, caller: Address) {
    caller == s.admin && caller != s.self
  }

  function RewardFee(amount: int): int {
    Quot(amount * PROTOCOL_FEE_BPS, BPS)
  }

  function AddRewards(s: Vault, caller: Address, amount: int): Option<Vault> {
    if !IsAdmin(s, caller) || amount <= 0 then None else
      Some(s.(treasury := s.treasury + RewardFee(amount), staked := s.staked + (amount - RewardFee(amount))))
  }

  function WithdrawFees(s: Vault, caller: Address, amount: int): Option<Vault> {
    if !IsAdmin(s, caller) then None else
      var out := if amount <= 0 then s.treasury else amount;
      :- Need(0 < out <= s.treasury);
      var bank :- Transfer(s.bank, s.native, s.self, s.admin, out);
      Some(s.(treasury := s.treasury - out, bank := bank))
  }

  function ApplySlashing(s: Vault, caller: Address, amount: int): Option<Vault> {
    if !IsAdmin(s, caller) || amount <= 0 || amount > s.staked then None else
      Some(s.(staked := s.staked - amount))
  }

  function AddLiquidity(s: Vault, caller: Address, amount: int): Option<Vault> {
    if !IsAdmin(s, caller) || amount <= 0 then None else
      var bank :- Transfer(s.bank, s.native, s.admin, s.self, amount);
      Some(s.(buffer := s.buffer + amount, bank := bank))
  }

  function ExchangeRate(s: Vault): int {
    if s.supply == 0 then RATE_PRECISION else Quot(s.staked * RATE_PRECISION, s.supply)
  }
}
