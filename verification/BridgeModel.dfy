/** The Stellar side of the bridge: storage and the effect of each entry point. */
module BridgeModel {
  import opened Wrappers
  import opened Sums
  import opened TokenLedger
  import opened SxlmToken

  const CHAIN_ETHEREUM: nat := 1
  const CHAIN_ARBITRUM: nat := 42161
  const CHAIN_SEPOLIA: nat := 11155111
  const EVM_ADDRESS_LENGTH: nat := 20

  type Bytes = seq<bv8>

  /** What an accepted bridge_to_evm call announces; the host adds the transaction hash and ledger. */
  datatype OutEvent = OutEvent(sender: Address, recipient: Bytes, amount: int, nonce: int, chain: nat,
                               txHash: Bytes, ledger: nat)

  datatype Bridge = Bridge(
    self: Address,
    admin: Address,
    relayer: Address,
    paused: bool,
    minAmount: int,
    nonces: map<Address, int>,
    processed: set<Bytes>,
    totalLocked: int,
    token: Token)

  predicate SupportedChain(chain: nat) {
    chain == CHAIN_ETHEREUM || chain == CHAIN_ARBITRUM || chain == CHAIN_SEPOLIA
  }

  /** Burn on Stellar and announce; the result holds the nonce of the announcement. */
  function BridgeToEvm(s: Bridge, sender: Address, recipient: Bytes, amount: int, chain: nat): Option<(Bridge, int)> {
    if s.paused || amount < s.minAmount || !SupportedChain(chain) || |recipient| != EVM_ADDRESS_LENGTH then None else
      var token :- Burn(s.token, s.self, sender, amount);
      var nonce := Get(s.nonces, sender) + 1;
      Some((s.(token := token, totalLocked := s.totalLocked + amount, nonces := s.nonces[sender := nonce]), nonce))
  }

  /** Mint on Stellar for one EVM transaction hash, at most once per hash. */
  function ReleaseFromEvm(s: Bridge, caller: Address, recipient: Address, amount: int, evmTxHash: Bytes,
                          chain: nat): Option<Bridge>
  {
    if caller != s.relayer || s.paused || amount <= 0 || !SupportedChain(chain) || evmTxHash in s.processed then None
    else
      var token :- Mint(s.token, s.self, recipient, amount);
      Some(s.(processed := s.processed + {evmTxHash}, token := token,
              totalLocked := if s.totalLocked >= amount then s.totalLocked - amount else s.totalLocked))
  }

  function SetPaused(s: Bridge, caller: Address, value: bool): Option<Bridge> {
    if caller != s.admin then None else Some(s.(paused := value))
  }

  function SetRelayer(s: Bridge, caller: Address, relayer: Address): Option<Bridge> {
    if caller != s.admin then None else Some(s.(relayer := relayer))
  }

  function SetAdmin(s: Bridge, caller: Address, newAdmin: Address): Option<Bridge> {
    if caller != s.admin then None else Some(s.(admin := newAdmin))
  }

  function SetMinAmount(s: Bridge, caller: Address, amount: int): Option<Bridge> {
    if caller != s.admin || amount <= 0 then None else Some(s.(minAmount := amount))
  }
}
