/**
 Token contracts as the pool, the lending market and the vault see them: one balance per
 token and account, and a transfer that fails when the payer is short.
 */
module TokenLedger {
  import opened Wrappers

  type Address = string

  type Bank = map<(Address, Address), int>

  function Balance(bank: Bank, token: Address, owner: Address): int {
    if (token, owner) in bank then bank[(token, owner)] else 0
  }

  function Transfer(bank: Bank, token: Address, from: Address, to: Address, amount: int): Option<Bank> {
    if amount < 0 || Balance(bank, token, from) < amount then None else
      var debited := bank[(token, from) := Balance(bank, token, from) - amount];
      Some(debited[(token, to) := Balance(debited, token, to) + amount])
  }

  function TransferBoth(bank: Bank, token1: Address, from1: Address, to1: Address, amount1: int,
                        token2: Address, from2: Address, to2: Address, amount2: int): Option<Bank>
  {
    var first :- Transfer(bank, token1, from1, to1, amount1);
    Transfer(first, token2, from2, to2, amount2)
  }

  /** A transfer moves the amount between two balances and touches no other. */
  lemma TransferMoves(bank: Bank, token: Address, from: Address, to: Address, amount: int)
    requires from != to && Transfer(bank, token, from, to, amount).Some?
    ensures var bank' := Transfer(bank, token, from, to, amount).value;
            && Balance(bank', token, from) == Balance(bank, token, from) - amount
            && Balance(bank', token, to) == Balance(bank, token, to) + amount
            && forall t, a | (t, a) != (token, from) && (t, a) != (token, to) ::
              Balance(bank', t, a) == Balance(bank, t, a)
  {
  }

  /** A transfer succeeds exactly when the amount is within the payer's balance; to oneself it is neutral. */
  lemma TransferExactly(bank: Bank, token: Address, from: Address, to: Address, amount: int)
    ensures var r := Transfer(bank, token, from, to, amount);
            && (r.Some? <==> 0 <= amount <= Balance(bank, token, from))
            && (r.Some? && from == to ==> forall t, a :: Balance(r.value, t, a) == Balance(bank, t, a))
  {
  }

  /** Two transfers of different tokens between two accounts: both or neither, each within its payer's balance. */
  lemma BothExactly(bank: Bank, token1: Address, from1: Address, to1: Address, amount1: int,
                    token2: Address, from2: Address, to2: Address, amount2: int)
    requires token1 != token2 && from1 != to1 && from2 != to2
    ensures var r := TransferBoth(bank, token1, from1, to1, amount1, token2, from2, to2, amount2);
            && (r.Some? <==> 0 <= amount1 <= Balance(bank, token1, from1) && 0 <= amount2 <= Balance(bank, token2, from2))
            && (r.Some? ==>
                  && Balance(r.value, token1, from1) == Balance(bank, token1, from1) - amount1
                  && Balance(r.value, token1, to1) == Balance(bank, token1, to1) + amount1
                  && Balance(r.value, token2, from2) == Balance(bank, token2, from2) - amount2
                  && Balance(r.value, token2, to2) == Balance(bank, token2, to2) + amount2)
  {
    TransferExactly(bank, token1, from1, to1, amount1);
    if 0 <= amount1 <= Balance(bank, token1, from1) {
      TransferMoves(bank, token1, from1, to1, amount1);
      var first := Transfer(bank, token1, from1, to1, amount1).value;
      TransferExactly(first, token2, from2, to2, amount2);
      if 0 <= amount2 <= Balance(first, token2, from2) {
        TransferMoves(first, token2, from2, to2, amount2);
      }
    }
    hide Transfer, Balance;
  }

  /** The balances held by all token contracts, updated in place by transfers. */
  class Tokens {
    var balances: Bank

    constructor (initial: Bank)
      ensures balances == initial
    {
      balances := initial;
    }

    method Pay(token: Address, from: Address, to: Address, amount: int) returns (ok: bool)
      modifies this
      ensures ok <==> Transfer(old(balances), token, from, to, amount).Some?
      ensures balances == Transfer(old(balances), token, from, to, amount).GetOr(old(balances))
    {
      var held := Balance(balances, token, from);
      ok := 0 <= amount <= held;
      if ok {
        balances := balances[(token, from) := held - amount];
        balances := balances[(token, to) := Balance(balances, token, to) + amount];
      }
    }

    /** Two transfers of one call: either both happen or neither does. */
    method PayBoth(token1: Address, from1: Address, to1: Address, amount1: int,
                   token2: Address, from2: Address, to2: Address, amount2: int)
      returns (ok: bool)
      modifies this
      ensures var r := TransferBoth(old(balances), token1, from1, to1, amount1, token2, from2, to2, amount2);
              && ok == r.Some?
              && balances == r.GetOr(old(balances))
    {
      var before := balances;
      ok := Pay(token1, from1, to1, amount1);
      if ok {
        ok := Pay(token2, from2, to2, amount2);
        if !ok {
          Revert(before);
        }
      }
    }

    /** The host undoes every transfer of a call that panics. */
    method Revert(snapshot: Bank)
      modifies this
      ensures balances == snapshot
    {
      balances := snapshot;
    }
  }
}
