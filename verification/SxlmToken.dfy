/** The sXLM token: its storage, the effect of each call, and the contract updated in place. */
module SxlmToken {
  import opened Wrappers
  import opened Sums
  import opened TokenLedger

  /** Allowances are keyed by owner and spender. */
  datatype Token = Token(
    admin: Address,
    minter: Address,
    balances: map<Address, int>,
    allowances: map<(Address, Address), int>,
    supply: int)

  function Mint(t: Token, caller: Address, to: Address, amount: int): Option<Token> {
    if amount < 0 || caller != t.minter then None else
      Some(t.(balances := t.balances[to := Get(t.balances, to) + amount], supply := t.supply + amount))
  }

  function Burn(t: Token, caller: Address, from: Address, amount: int): Option<Token> {
    if amount < 0 || caller != t.minter || Get(t.balances, from) < amount then None else
      Some(t.(balances := t.balances[from := Get(t.balances, from) - amount], supply := t.supply - amount))
  }

  function Approve(t: Token, caller: Address, spender: Address, amount: int): Option<Token> {
    if amount < 0 then None else Some(t.(allowances := t.allowances[(caller, spender) := amount]))
  }

  /** The payee's balance is read after the payer's was written, so a self-transfer is neutral. */
  function Move(balances: map<Address, int>, from: Address, to: Address, amount: int): map<Address, int> {
    var debited := balances[from := Get(balances, from) - amount];
    debited[to := Get(debited, to) + amount]
  }

  function Send(t: Token, caller: Address, to: Address, amount: int): Option<Token> {
    if amount < 0 || Get(t.balances, caller) < amount then None else
      Some(t.(balances := Move(t.balances, caller, to, amount)))
  }

  function SendFrom(t: Token, spender: Address, from: Address, to: Address, amount: int): Option<Token> {
    if amount < 0 || Get(t.allowances, (from, spender)) < amount || Get(t.balances, from) < amount then None else
      Some(t.(allowances := t.allowances[(from, spender) := Get(t.allowances, (from, spender)) - amount],
              balances := Move(t.balances, from, to, amount)))
  }

  /** The supply is the sum of the balances, none of which is negative; so is no allowance. */
  ghost predicate Conserved(t: Token) {
    Sum(t.balances) == t.supply && NonNegative(t.balances) && NonNegative(t.allowances)
  }

  lemma MoveConserves(balances: map<Address, int>, from: Address, to: Address, amount: int)
    requires NonNegative(balances) && 0 <= amount <= Get(balances, from)
    ensures Sum(Move(balances, from, to, amount)) == Sum(balances)
    ensures NonNegative(Move(balances, from, to, amount))
    ensures from == to ==> forall a :: Get(Move(balances, from, to, amount), a) == Get(balances, a)
  {
    var debited := balances[from := Get(balances, from) - amount];
    SumUpdate(balances, from, Get(balances, from) - amount);
    SumUpdate(debited, to, Get(debited, to) + amount);
    hide Sum;
  }

  /** Every successful call keeps the supply equal to the sum of the balances. */
  lemma CallsConserve(t: Token, t': Token, caller: Address, a: Address, b: Address, amount: int)
    requires Conserved(t)
    requires Some(t') in {Mint(t, caller, a, amount), Burn(t, caller, a, amount), Approve(t, caller, a, amount),
                          Send(t, caller, a, amount), SendFrom(t, caller, a, b, amount)}
    ensures Conserved(t') && t'.minter == t.minter && t'.admin == t.admin
    ensures caller != t.minter ==> t'.supply == t.supply
  {
    if Mint(t, caller, a, amount) == Some(t') {
      SumUpdate(t.balances, a, Get(t.balances, a) + amount);
    } else if Burn(t, caller, a, amount) == Some(t') {
      SumUpdate(t.balances, a, Get(t.balances, a) - amount);
    } else if Send(t, caller, a, amount) == Some(t') {
      MoveConserves(t.balances, caller, a, amount);
    } else if SendFrom(t, caller, a, b, amount) == Some(t') {
      MoveConserves(t.balances, a, b, amount);
    }
  }

  class SxlmContract {
    var admin: Address
    var minter: Address
    var balances: map<Address, int>
    var allowances: map<(Address, Address), int>
    var totalSupply: int

    function State(): Token
      reads this
    {
      Token(admin, minter, balances, allowances, totalSupply)
    }

    constructor (admin: Address, minter: Address)
      ensures State() == Token(admin, minter, map[], map[], 0)
    {
      this.admin := admin;
      this.minter := minter;
      balances := map[];
      allowances := map[];
      totalSupply := 0;
    }

    /** The host's rollback of a call that panicked. */
    method Revert(t: Token)
      modifies this
      ensures State() == t
    {
      admin, minter := t.admin, t.minter;
      balances, allowances, totalSupply := t.balances, t.allowances, t.supply;
    }

    method MintTo(caller: Address, to: Address, amount: int) returns (ok: bool)
      modifies this
      ensures ok == Mint(old(State()), caller, to, amount).Some?
      ensures State() == Mint(old(State()), caller, to, amount).GetOr(old(State()))
    {
      ok := amount >= 0 && caller == minter;
      if ok {
        balances := balances[to := Get(balances, to) + amount];
        totalSupply := totalSupply + amount;
      }
    }

    method BurnFrom(caller: Address, from: Address, amount: int) returns (ok: bool)
      modifies this
      ensures ok == Burn(old(State()), caller, from, amount).Some?
      ensures State() == Burn(old(State()), caller, from, amount).GetOr(old(State()))
    {
      ok := amount >= 0 && caller == minter && Get(balances, from) >= amount;
      if ok {
        balances := balances[from := Get(balances, from) - amount];
        totalSupply := totalSupply - amount;
      }
    }

    method ApproveSpender(caller: Address, spender: Address, amount: int) returns (ok: bool)
      modifies this
      ensures ok == Approve(old(State()), caller, spender, amount).Some?
      ensures State() == Approve(old(State()), caller, spender, amount).GetOr(old(State()))
    {
      ok := amount >= 0;
      if ok {
        allowances := allowances[(caller, spender) := amount];
      }
    }

    method SpendAllowance(from: Address, spender: Address, amount: int) returns (ok: bool)
      modifies this`allowances
      ensures ok <==> Get(old(allowances), (from, spender)) >= amount
      ensures allowances == if ok then old(allowances)[(from, spender) := Get(old(allowances), (from, spender)) - amount]
                            else old(allowances)
    {
      var allowance := Get(allowances, (from, spender));
      ok := allowance >= amount;
      if ok {
        allowances := allowances[(from, spender) := allowance - amount];
      }
    }

    method TransferTo(caller: Address, to: Address, amount: int) returns (ok: bool)
      modifies this
      ensures ok == Send(old(State()), caller, to, amount).Some?
      ensures State() == Send(old(State()), caller, to, amount).GetOr(old(State()))
    {
      var held := Get(balances, caller);
      ok := 0 <= amount <= held;
      if ok {
        balances := balances[caller := held - amount];
        balances := balances[to := Get(balances, to) + amount];
      }
    }

    method TransferFrom(spender: Address, from: Address, to: Address, amount: int) returns (ok: bool)
      modifies this
      ensures ok == SendFrom(old(State()), spender, from, to, amount).Some?
      ensures State() == SendFrom(old(State()), spender, from, to, amount).GetOr(old(State()))
    {
      if amount < 0 {
        return false;
      }
      var before := State();
      ok := SpendAllowance(from, spender, amount);
      if !ok {
        return;
      }
      var held := Get(balances, from);
      if held < amount {
        Revert(before);
        return false;
      }
      balances := balances[from := held - amount];
      balances := balances[to := Get(balances, to) + amount];
    }

    method SetMinter(caller: Address, newMinter: Address) returns (ok: bool)
      modifies this
      ensures ok <==> caller == old(admin)
      ensures State() == if ok then old(State()).(minter := newMinter) else old(State())
    {
      ok := caller == admin;
      if ok {
        minter := newMinter;
      }
    }

    method SetAdmin(caller: Address, newAdmin: Address) returns (ok: bool)
      modifies this
      ensures ok <==> caller == old(admin)
      ensures State() == if ok then old(State()).(admin := newAdmin) else old(State())
    {
      ok := caller == admin;
      if ok {
        admin := newAdmin;
      }
    }
  }
}
