/**
 Exactly when a call of the sXLM token is accepted and whose balances and allowances it changes, and
 what an approval is good for over a run.
 */
module TokenCalls {
  import opened Wrappers
  import opened Sums
  import opened TokenLedger
  import opened SxlmToken

  /** One account's balance changed by an amount, and no other's. */
  ghost predicate BalanceChanged(t: Token, t': Token, user: Address, amount: int) {
    && Get(t'.balances, user) == Get(t.balances, user) + amount
    && forall u | u != user :: Get(t'.balances, u) == Get(t.balances, u)
  }

  /** An amount moved from one account to another; a transfer to oneself moves nothing. */
  ghost predicate BalanceMoved(t: Token, t': Token, from: Address, to: Address, amount: int) {
    if from == to then forall u :: Get(t'.balances, u) == Get(t.balances, u)
    else
      && Get(t'.balances, from) == Get(t.balances, from) - amount
      && Get(t'.balances, to) == Get(t.balances, to) + amount
      && forall u | u != from && u != to :: Get(t'.balances, u) == Get(t.balances, u)
  }

  /** Only the minter mints and burns, never a negative amount, and burns at most the balance. */
  lemma SupplyExactly(t: Token, caller: Address, user: Address, amount: int)
    ensures var r := Mint(t, caller, user, amount);
            && (r.Some? <==> caller == t.minter && amount >= 0)
            && (r.Some? ==> BalanceChanged(t, r.value, user, amount)
                            && r.value == t.(balances := r.value.balances, supply := t.supply + amount))
    ensures var r := Burn(t, caller, user, amount);
            && (r.Some? <==> caller == t.minter && 0 <= amount <= Get(t.balances, user))
            && (r.Some? ==> BalanceChanged(t, r.value, user, -amount)
                            && r.value == t.(balances := r.value.balances, supply := t.supply - amount))
  {
  }

  lemma SendExactly(t: Token, caller: Address, to: Address, amount: int)
    ensures var r := Send(t, caller, to, amount);
            && (r.Some? <==> 0 <= amount <= Get(t.balances, caller))
            && (r.Some? ==> BalanceMoved(t, r.value, caller, to, amount)
                            && r.value == t.(balances := r.value.balances))
  {
  }

  /** A delegated transfer needs, and uses up, the spender's allowance; no other allowance changes. */
  lemma SendFromExactly(t: Token, spender: Address, from: Address, to: Address, amount: int)
    ensures var r := SendFrom(t, spender, from, to, amount);
            && (r.Some? <==> 0 <= amount <= Get(t.allowances, (from, spender)) && amount <= Get(t.balances, from))
            && (r.Some? ==>
                  var t' := r.value;
                  && BalanceMoved(t, t', from, to, amount)
                  && Get(t'.allowances, (from, spender)) + amount == Get(t.allowances, (from, spender))
                  && (forall k | k != (from, spender) :: Get(t'.allowances, k) == Get(t.allowances, k))
                  && t' == t.(balances := t'.balances, allowances := t'.allowances))
  {
  }

  /** An approval replaces the caller's own allowance to one spender. */
  lemma ApproveExactly(t: Token, caller: Address, spender: Address, amount: int)
    ensures var r := Approve(t, caller, spender, amount);
            && (r.Some? <==> amount >= 0)
            && (r.Some? ==> Get(r.value.allowances, (caller, spender)) == amount
                            && (forall k | k != (caller, spender) :: Get(r.value.allowances, k) == Get(t.allowances, k))
                            && r.value == t.(allowances := r.value.allowances))
  {
  }

  // ---------- What an approval is good for ----------

  datatype Call =
    | ApproveCall(owner: Address, spender: Address, amount: int)
    | SendCall(from: Address, to: Address, amount: int)
    | SendFromCall(spender: Address, from: Address, to: Address, amount: int)
    | MintCall(caller: Address, to: Address, amount: int)
    | BurnCall(caller: Address, from: Address, amount: int)

  function Outcome(t: Token, c: Call): Option<Token> {
    match c
    case ApproveCall(owner, spender, amount) => Approve(t, owner, spender, amount)
    case SendCall(from, to, amount) => Send(t, from, to, amount)
    case SendFromCall(spender, from, to, amount) => SendFrom(t, spender, from, to, amount)
    case MintCall(caller, to, amount) => Mint(t, caller, to, amount)
    case BurnCall(caller, from, amount) => Burn(t, caller, from, amount)
  }

  function Calls(t: Token, calls: seq<Call>): Token {
    if calls == [] then t else
      var before := Calls(t, calls[..|calls| - 1]);
      Outcome(before, calls[|calls| - 1]).GetOr(before)
  }

  /** What a spender has taken of an owner since the owner's last approval, and what that approved. */
  function SpentSince(t: Token, calls: seq<Call>, owner: Address, spender: Address): (int, int) {
    if calls == [] then (0, Get(t.allowances, (owner, spender))) else
      var n := |calls| - 1;
      var before := Calls(t, calls[..n]);
      var (spent, approved) := SpentSince(t, calls[..n], owner, spender);
      if Outcome(before, calls[n]).None? then (spent, approved) else
        match calls[n]
        case ApproveCall(o, s, amount) => if o == owner && s == spender then (0, amount) else (spent, approved)
        case SendFromCall(s, o, _, amount) => if o == owner && s == spender then (spent + amount, approved) else (spent, approved)
        case _ => (spent, approved)
  }

  /**
   Over any calls by anyone, what a spender has taken since the last approval and the allowance left
   add up to what was approved: an approval is never spent twice nor lost.
   */
  lemma {:induction false} ApprovalsAddUp(t: Token, calls: seq<Call>, owner: Address, spender: Address)
    requires NonNegative(t.allowances)
    ensures var (spent, approved) := SpentSince(t, calls, owner, spender);
            spent + Get(Calls(t, calls).allowances, (owner, spender)) == approved
    ensures 0 <= SpentSince(t, calls, owner, spender).0 <= SpentSince(t, calls, owner, spender).1
    ensures NonNegative(Calls(t, calls).allowances)
  {
    if calls != [] {
      ApprovalsAddUp(t, calls[..|calls| - 1], owner, spender);
      hide Move;
    }
  }
}
