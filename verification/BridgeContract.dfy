/** The bridge contract, updated in place. */
module BridgeContract {
  import opened Wrappers
  import opened Sums
  import opened TokenLedger
  import opened SxlmToken
  import opened BridgeModel

  class BridgeAdapter {
    const self: Address
    const sxlm: SxlmContract
    var admin: Address
    var relayer: Address
    var paused: bool
    var minAmount: int
    var nonces: map<Address, int>
    var processed: set<Bytes>
    var totalLocked: int

    function State(): Bridge
      reads this, sxlm
    {
      Bridge(self, admin, relayer, paused, minAmount, nonces, processed, totalLocked, sxlm.State())
    }

    /** A deployment with a minimum that is not positive panics, so it is not constructed. */
    constructor (self: Address, admin: Address, relayer: Address, minAmount: int, sxlm: SxlmContract)
      requires minAmount > 0
      ensures State() == Bridge(self, admin, relayer, false, minAmount, map[], {}, 0, sxlm.State())
      ensures this.sxlm == sxlm
    {
      this.self, this.sxlm := self, sxlm;
      this.admin, this.relayer := admin, relayer;
      this.minAmount := minAmount;
      paused := false;
      nonces, processed, totalLocked := map[], {}, 0;
    }

    method IncrementNonce(user: Address) returns (nonce: int)
      modifies this`nonces
      ensures nonce == Get(old(nonces), user) + 1
      ensures nonces == old(nonces)[user := nonce]
    {
      nonce := Get(nonces, user) + 1;
      nonces := nonces[user := nonce];
    }

    method Send(sender: Address, recipient: Bytes, amount: int, chain: nat) returns (ok: bool, nonce: int)
      modifies this, sxlm
      ensures var r := BridgeToEvm(old(State()), sender, recipient, amount, chain);
              && ok == r.Some?
              && (ok ==> State() == r.value.0 && nonce == r.value.1)
              && (!ok ==> State() == old(State()))
    {
      nonce := 0;
      ok := !paused && amount >= minAmount && SupportedChain(chain) && |recipient| == EVM_ADDRESS_LENGTH;
      if ok {
        ok := sxlm.BurnFrom(self, sender, amount);
      }
      if ok {
        totalLocked := totalLocked + amount;
        nonce := IncrementNonce(sender);
      }
    }

    method Release(caller: Address, recipient: Address, amount: int, evmTxHash: Bytes, chain: nat) returns (ok: bool)
      modifies this, sxlm
      ensures ok == ReleaseFromEvm(old(State()), caller, recipient, amount, evmTxHash, chain).Some?
      ensures State() == ReleaseFromEvm(old(State()), caller, recipient, amount, evmTxHash, chain).GetOr(old(State()))
    {
      ok := caller == relayer && !paused && amount > 0 && SupportedChain(chain) && evmTxHash !in processed;
      if ok {
        ok := sxlm.MintTo(self, recipient, amount);
      }
      if ok {
        processed := processed + {evmTxHash};
        if totalLocked >= amount {
          totalLocked := totalLocked - amount;
        }
      }
    }

    method SetPause(caller: Address, value: bool) returns (ok: bool)
      modifies this`paused
      ensures ok == SetPaused(old(State()), caller, value).Some?
      ensures State() == SetPaused(old(State()), caller, value).GetOr(old(State()))
    {
      ok := caller == admin;
      if ok {
        paused := value;
      }
    }

    method ReplaceRelayer(caller: Address, newRelayer: Address) returns (ok: bool)
      modifies this`relayer
      ensures ok == SetRelayer(old(State()), caller, newRelayer).Some?
      ensures State() == SetRelayer(old(State()), caller, newRelayer).GetOr(old(State()))
    {
      ok := caller == admin;
      if ok {
        relayer := newRelayer;
      }
    }

    method TransferAdmin(caller: Address, newAdmin: Address) returns (ok: bool)
      modifies this`admin
      ensures ok == SetAdmin(old(State()), caller, newAdmin).Some?
      ensures State() == SetAdmin(old(State()), caller, newAdmin).GetOr(old(State()))
    {
      ok := caller == admin;
      if ok {
        admin := newAdmin;
      }
    }

    method SetMinimum(caller: Address, amount: int) returns (ok: bool)
      modifies this`minAmount
      ensures ok == SetMinAmount(old(State()), caller, amount).Some?
      ensures State() == SetMinAmount(old(State()), caller, amount).GetOr(old(State()))
    {
      ok := caller == admin && amount > 0;
      if ok {
        minAmount := amount;
      }
    }
  }
}
