/**
 The two ledgers of the bridge and the relayer between them, as steps that deliver an event any
 number of times, late, or never.
 */
module BridgeSafety {
  import opened Wrappers
  import opened Arithmetic
  import opened Sums
  import opened TokenLedger
  import opened SxlmToken
  import opened BridgeModel

  // 7 decimals on Stellar, 18 on the EVM side
  const SCALE: int := 100_000_000_000
  // The low half of the 128-bit argument is all the relayer fills in
  const MAX_RELEASE: int := 0x1_0000_0000_0000_0000

  // A chain and an account on it
  type Account = (nat, Bytes)

  datatype BackEvent = BackEvent(recipient: Address, amount: nat, txHash: Bytes, chain: nat)

  /**
   Both chains. Wrapped tokens are minted only for an announcement whose hash the chain has not
   seen, and a burn announces itself once. The last four fields record which announcements were
   honoured and what was burned.
   */
  datatype System = System(
    bridge: Bridge,
    out: seq<OutEvent>,
    back: seq<BackEvent>,
    minted: set<(nat, Bytes)>,
    wrapped: map<Account, int>,
    honoured: set<nat>,
    released: set<nat>,
    totalMinted: int,
    totalBurned: int,
    totalReleased: int)

  datatype Action =
    | Send(sender: Address, recipient: Bytes, amount: int, chain: nat, txHash: Bytes, ledger: nat)
    | DeliverOut(index: nat)
    | MoveWrapped(chain: nat, holder: Bytes, payee: Bytes, amount: int)
    | BurnWrapped(chain: nat, holder: Bytes, stellar: Address, amount: int, txHash: Bytes)
    | DeliverBack(index: nat)
    | TokenSend(from: Address, to: Address, amount: int)
    | Pause(caller: Address, on: bool)
    | Relayer(caller: Address, relayer: Address)
    | Admin(caller: Address, newAdmin: Address)
    | Minimum(caller: Address, minimum: int)

  function Start(bridge: Bridge): System {
    System(bridge, [], [], {}, map[], {}, {}, 0, 0, 0)
  }

  /** The relayer scales down by integer division. */
  function Scaled(amount: nat): int {
    amount / SCALE
  }

  function Step(sys: System, a: Action): System {
    var b := sys.bridge;
    match a
    case Send(sender, recipient, amount, chain, txHash, ledger) =>
      var r := BridgeToEvm(b, sender, recipient, amount, chain);
      if r.None? then sys else
        sys.(bridge := r.value.0,
             out := sys.out + [OutEvent(sender, recipient, amount, r.value.1, chain, txHash, ledger)])
    case DeliverOut(i) =>
      if i >= |sys.out| || (sys.out[i].chain, sys.out[i].txHash) in sys.minted then sys else
        var e := sys.out[i];
        var account := (e.chain, e.recipient);
        sys.(minted := sys.minted + {(e.chain, e.txHash)},
             wrapped := sys.wrapped[account := Get(sys.wrapped, account) + e.amount * SCALE],
             honoured := sys.honoured + {i},
             totalMinted := sys.totalMinted + e.amount * SCALE)
    case MoveWrapped(chain, holder, payee, amount) =>
      if amount < 0 || Get(sys.wrapped, (chain, holder)) < amount then sys else
        var debited := sys.wrapped[(chain, holder) := Get(sys.wrapped, (chain, holder)) - amount];
        sys.(wrapped := debited[(chain, payee) := Get(debited, (chain, payee)) + amount])
    case BurnWrapped(chain, holder, stellar, amount, txHash) =>
      if amount < 0 || Get(sys.wrapped, (chain, holder)) < amount then sys else
        sys.(wrapped := sys.wrapped[(chain, holder) := Get(sys.wrapped, (chain, holder)) - amount],
             back := sys.back + [BackEvent(stellar, amount, txHash, chain)],
             totalBurned := sys.totalBurned + amount)
    case DeliverBack(i) =>
      if i >= |sys.back| || Scaled(sys.back[i].amount) >= MAX_RELEASE then sys else
        var e := sys.back[i];
        var r := ReleaseFromEvm(b, b.relayer, e.recipient, Scaled(e.amount), e.txHash, e.chain);
        if r.None? then sys else
          sys.(bridge := r.value, released := sys.released + {i},
               totalReleased := sys.totalReleased + Scaled(e.amount))
    case TokenSend(from, to, amount) =>
      sys.(bridge := b.(token := SxlmToken.Send(b.token, from, to, amount).GetOr(b.token)))
    case Pause(caller, on) => sys.(bridge := SetPaused(b, caller, on).GetOr(b))
    case Relayer(caller, relayer) => sys.(bridge := SetRelayer(b, caller, relayer).GetOr(b))
    case Admin(caller, newAdmin) => sys.(bridge := SetAdmin(b, caller, newAdmin).GetOr(b))
    case Minimum(caller, minimum) => sys.(bridge := SetMinAmount(b, caller, minimum).GetOr(b))
  }

  function Run(sys: System, actions: seq<Action>): System
    decreases |actions|
  {
    if actions == [] then sys else Run(Step(sys, actions[0]), actions[1..])
  }

  // ---------- Sums over announcements ----------

  /** The amounts of the announcements in a set of positions. */
  function OutOver(out: seq<OutEvent>, some: set<nat>): int {
    if out == [] then 0 else
      var n := |out| - 1;
      OutOver(out[..n], some) + if n in some then out[n].amount else 0
  }

  function OutTotal(out: seq<OutEvent>): int {
    if out == [] then 0 else OutTotal(out[..|out| - 1]) + out[|out| - 1].amount
  }

  function BackOver(back: seq<BackEvent>, some: set<nat>): int {
    if back == [] then 0 else
      var n := |back| - 1;
      BackOver(back[..n], some) + if n in some then Scaled(back[n].amount) else 0
  }

  function BackTotal(back: seq<BackEvent>): int {
    if back == [] then 0 else BackTotal(back[..|back| - 1]) + back[|back| - 1].amount
  }

  lemma {:induction false} OutAddOne(out: seq<OutEvent>, some: set<nat>, i: nat)
    requires i !in some
    ensures OutOver(out, some + {i}) == OutOver(out, some) + if i < |out| then out[i].amount else 0
  {
    if out != [] {
      OutAddOne(out[..|out| - 1], some, i);
    }
  }

  lemma {:induction false} BackAddOne(back: seq<BackEvent>, some: set<nat>, i: nat)
    requires i !in some
    ensures BackOver(back, some + {i}) == BackOver(back, some) + if i < |back| then Scaled(back[i].amount) else 0
  {
    if back != [] {
      BackAddOne(back[..|back| - 1], some, i);
    }
  }

  lemma {:induction false} OutPart(out: seq<OutEvent>, some: set<nat>)
    requires forall e | e in out :: e.amount >= 0
    ensures 0 <= OutOver(out, some) <= OutTotal(out)
  {
    if out != [] {
      OutPart(out[..|out| - 1], some);
    }
  }

  /** Whatever part of the burns is released, its scaled-up worth is at most what was burned. */
  lemma {:induction false} BackPart(back: seq<BackEvent>, some: set<nat>)
    ensures 0 <= BackOver(back, some) * SCALE <= BackTotal(back)
  {
    if back != [] {
      BackPart(back[..|back| - 1], some);
      assert Scaled(back[|back| - 1].amount) * SCALE <= back[|back| - 1].amount;
    }
  }

  // ---------- The invariant ----------

  /** Each hash was honoured for one announcement, and records match what they record. */
  ghost predicate Honest(sys: System) {
    && (forall e | e in sys.out :: e.amount > 0)
    && (forall i | i in sys.honoured :: i < |sys.out| && (sys.out[i].chain, sys.out[i].txHash) in sys.minted)
    && (forall i | i in sys.released :: i < |sys.back| && sys.back[i].txHash in sys.bridge.processed)
    && (forall i, j | i in sys.honoured && j in sys.honoured && i != j ::
          (sys.out[i].chain, sys.out[i].txHash) != (sys.out[j].chain, sys.out[j].txHash))
    && (forall i, j | i in sys.released && j in sys.released && i != j :: sys.back[i].txHash != sys.back[j].txHash)
    && NonNegative(sys.wrapped)
    && sys.bridge.minAmount > 0
  }

  ghost predicate Totals(sys: System) {
    && sys.totalMinted == OutOver(sys.out, sys.honoured) * SCALE
    && sys.totalReleased == BackOver(sys.back, sys.released)
    && sys.totalBurned == BackTotal(sys.back)
    && Sum(sys.wrapped) == sys.totalMinted - sys.totalBurned
    && sys.bridge.totalLocked == OutTotal(sys.out) - sys.totalReleased
  }

  ghost predicate Inv(sys: System) {
    Honest(sys) && Totals(sys)
  }

  /** What was released was burned, what was burned was minted, what was minted was bridged out. */
  lemma Backed(sys: System)
    requires Inv(sys)
    ensures sys.totalReleased * SCALE <= sys.totalBurned <= sys.totalMinted <= OutTotal(sys.out) * SCALE
    ensures 0 <= sys.bridge.totalLocked
    ensures Sum(sys.wrapped) <= sys.bridge.totalLocked * SCALE
  {
    OutPart(sys.out, sys.honoured);
    BackPart(sys.back, sys.released);
    SumNonNegative(sys.wrapped);
  }

  /** The contract's check on the locked total never fails for a burn not yet released. */
  lemma GuardHolds(sys: System, i: nat)
    requires Inv(sys) && i < |sys.back| && i !in sys.released
    ensures sys.bridge.totalLocked >= Scaled(sys.back[i].amount)
  {
    OutPart(sys.out, sys.honoured);
    BackAddOne(sys.back, sys.released, i);
    BackPart(sys.back, sys.released + {i});
    SumNonNegative(sys.wrapped);
  }

  lemma SendKeeps(sys: System, a: Action)
    requires Inv(sys) && a.Send?
    ensures Inv(Step(sys, a))
  {
    var sys' := Step(sys, a);
    hide Burn;
    if sys'.out != sys.out {
      var n := |sys.out|;
      assert sys'.out[..n] == sys.out;
      assert n !in sys.honoured;
    }
  }

  lemma DeliverOutKeeps(sys: System, a: Action)
    requires Inv(sys) && a.DeliverOut?
    ensures Inv(Step(sys, a))
  {
    var i := a.index;
    if i < |sys.out| && (sys.out[i].chain, sys.out[i].txHash) !in sys.minted {
      OutAddOne(sys.out, sys.honoured, i);
      var account := (sys.out[i].chain, sys.out[i].recipient);
      SumUpdate(sys.wrapped, account, Get(sys.wrapped, account) + sys.out[i].amount * SCALE);
      assert sys.out[i] in sys.out;
    }
  }

  /** The holdings after an amount leaves one account: still not negative, and less by that amount. */
  lemma DebitKeeps(wrapped: map<Account, int>, from: Account, amount: nat)
    requires NonNegative(wrapped) && amount <= Get(wrapped, from)
    ensures var debited := wrapped[from := Get(wrapped, from) - amount];
            NonNegative(debited) && Sum(debited) == Sum(wrapped) - amount
  {
    SumUpdate(wrapped, from, Get(wrapped, from) - amount);
  }

  lemma MoveWrappedKeeps(sys: System, a: Action)
    requires Inv(sys) && a.MoveWrapped?
    ensures Inv(Step(sys, a))
  {
    var from, to := (a.chain, a.holder), (a.chain, a.payee);
    if 0 <= a.amount <= Get(sys.wrapped, from) {
      DebitKeeps(sys.wrapped, from, a.amount);
      var debited := sys.wrapped[from := Get(sys.wrapped, from) - a.amount];
      SumUpdate(debited, to, Get(debited, to) + a.amount);
      hide Sum, OutOver, BackOver, OutTotal, BackTotal, BridgeToEvm, ReleaseFromEvm;
    }
  }

  lemma BurnAnnounced(sys: System, e: BackEvent)
    requires forall i | i in sys.released :: i < |sys.back|
    ensures BackOver(sys.back + [e], sys.released) == BackOver(sys.back, sys.released)
    ensures BackTotal(sys.back + [e]) == BackTotal(sys.back) + e.amount
  {
    assert (sys.back + [e])[..|sys.back|] == sys.back;
    assert |sys.back| !in sys.released;
  }

  lemma BurnWrappedKeeps(sys: System, a: Action)
    requires Inv(sys) && a.BurnWrapped?
    ensures Inv(Step(sys, a))
  {
    var from := (a.chain, a.holder);
    if 0 <= a.amount <= Get(sys.wrapped, from) {
      DebitKeeps(sys.wrapped, from, a.amount);
      BurnAnnounced(sys, BackEvent(a.stellar, a.amount, a.txHash, a.chain));
      hide Sum, OutOver, BackOver, OutTotal, BackTotal, BridgeToEvm, ReleaseFromEvm;
    }
  }

  lemma DeliverBackKeeps(sys: System, a: Action)
    requires Inv(sys) && a.DeliverBack?
    ensures Inv(Step(sys, a))
  {
    var i := a.index;
    hide Mint;
    if Step(sys, a) != sys {
      assert i !in sys.released;
      GuardHolds(sys, i);
      BackAddOne(sys.back, sys.released, i);
    }
  }

  lemma StepKeeps(sys: System, a: Action)
    requires Inv(sys)
    ensures Inv(Step(sys, a))
  {
    match a
    case Send(_, _, _, _, _, _) => SendKeeps(sys, a);
    case DeliverOut(_) => DeliverOutKeeps(sys, a);
    case MoveWrapped(_, _, _, _) => MoveWrappedKeeps(sys, a);
    case BurnWrapped(_, _, _, _, _) => BurnWrappedKeeps(sys, a);
    case DeliverBack(_) => DeliverBackKeeps(sys, a);
    case _ => hide SxlmToken.Send;
  }

  lemma {:induction false} RunKeeps(sys: System, actions: seq<Action>)
    requires Inv(sys)
    ensures Inv(Run(sys, actions))
    decreases |actions|
  {
    if actions != [] {
      StepKeeps(sys, actions[0]);
      RunKeeps(Step(sys, actions[0]), actions[1..]);
    }
  }

  // ---------- Outbound nonces ----------

  /** How many announcements a sender made. */
  function CountBy(out: seq<OutEvent>, sender: Address): nat {
    if out == [] then 0 else
      CountBy(out[..|out| - 1], sender) + if out[|out| - 1].sender == sender then 1 else 0
  }

  /** A sender's announcements are numbered 1, 2, 3, ... in the order they were made. */
  ghost predicate Numbered(sys: System) {
    && (forall u :: Get(sys.bridge.nonces, u) == CountBy(sys.out, u))
    && (forall i | 0 <= i < |sys.out| :: NonceOk(sys.out, i))
  }

  lemma StepKeepsNumbers(sys: System, a: Action)
    requires Numbered(sys)
    ensures Numbered(Step(sys, a))
  {
    var sys' := Step(sys, a);
    hide Burn, Mint, SxlmToken.Send;
    if a.Send? {
      if sys'.out != sys.out {
        AppendKeepsNumbers(sys.out, sys'.out[|sys.out|], sys.bridge.nonces);
      }
    }
  }

  predicate NonceOk(out: seq<OutEvent>, i: nat)
    requires i < |out|
  {
    out[i].nonce == CountBy(out[..i], out[i].sender) + 1
  }

  lemma AppendKeepsNumbers(out: seq<OutEvent>, e: OutEvent, nonces: map<Address, int>)
    requires forall u :: Get(nonces, u) == CountBy(out, u)
    requires forall i | 0 <= i < |out| :: NonceOk(out, i)
    requires e.nonce == Get(nonces, e.sender) + 1
    ensures forall u :: Get(nonces[e.sender := e.nonce], u) == CountBy(out + [e], u)
    ensures forall i | 0 <= i < |out + [e]| :: NonceOk(out + [e], i)
  {
    var out' := out + [e];
    assert out'[..|out|] == out;
    forall i | 0 <= i < |out'|
      ensures NonceOk(out', i)
    {
      if i < |out| {
        assert out'[..i] == out[..i];
        assert NonceOk(out, i);
      }
    }
  }

  lemma {:induction false} RunKeepsNumbers(sys: System, actions: seq<Action>)
    requires Numbered(sys)
    ensures Numbered(Run(sys, actions))
    decreases |actions|
  {
    if actions != [] {
      StepKeepsNumbers(sys, actions[0]);
      RunKeepsNumbers(Step(sys, actions[0]), actions[1..]);
    }
  }

  /** In every run a sender's later announcement has a larger nonce, and none is skipped. */
  lemma NoncesAreConsecutive(bridge: Bridge, actions: seq<Action>, i: nat, j: nat)
    requires bridge.nonces == map[]
    requires var out := Run(Start(bridge), actions).out;
             i < j < |out| && out[i].sender == out[j].sender
             && forall k | i < k < j :: out[k].sender != out[i].sender
    ensures var out := Run(Start(bridge), actions).out;
            out[j].nonce == out[i].nonce + 1
  {
    RunKeepsNumbers(Start(bridge), actions);
    var out := Run(Start(bridge), actions).out;
    hide Run, Start;
    assert NonceOk(out, i) && NonceOk(out, j);
    assert out[..i + 1][..i] == out[..i];
    SilentStretch(out, i + 1, j, out[i].sender);
  }

  lemma {:induction false} SilentStretch(out: seq<OutEvent>, i: nat, j: nat, sender: Address)
    requires i <= j <= |out| && forall k | i <= k < j :: out[k].sender != sender
    ensures CountBy(out[..j], sender) == CountBy(out[..i], sender)
    decreases j
  {
    if i < j {
      SilentStretch(out, i, j - 1, sender);
      assert out[..j][..j - 1] == out[..j - 1];
    }
  }

  /**
   In every interleaving of calls and deliveries, however often, late or seldom: releases are
   covered by burns, burns by mints, and mints by what was bridged out; the locked total is what
   was bridged out less what was released; the wrapped supply is backed by it; and no two
   announcements with the same hash are both honoured.
   */
  lemma CrossChainSafety(bridge: Bridge, actions: seq<Action>)
    requires bridge.minAmount > 0 && bridge.totalLocked == 0
    ensures var sys := Run(Start(bridge), actions);
            && sys.totalReleased * SCALE <= sys.totalBurned <= sys.totalMinted <= OutTotal(sys.out) * SCALE
            && sys.bridge.totalLocked == OutTotal(sys.out) - sys.totalReleased
            && Sum(sys.wrapped) == sys.totalMinted - sys.totalBurned <= sys.bridge.totalLocked * SCALE
            && (forall i, j | i in sys.honoured && j in sys.honoured && i != j ::
                  i < |sys.out| && j < |sys.out|
                  && (sys.out[i].chain, sys.out[i].txHash) != (sys.out[j].chain, sys.out[j].txHash))
            && (forall i, j | i in sys.released && j in sys.released && i != j ::
                  i < |sys.back| && j < |sys.back| && sys.back[i].txHash != sys.back[j].txHash)
            && (forall i | 0 <= i < |sys.back| && i !in sys.released ::
                  sys.bridge.totalLocked >= Scaled(sys.back[i].amount))
  {
    RunKeeps(Start(bridge), actions);
    var sys := Run(Start(bridge), actions);
    Backed(sys);
    forall i: nat | i < |sys.back| && i !in sys.released
      ensures sys.bridge.totalLocked >= Scaled(sys.back[i].amount)
    {
      GuardHolds(sys, i);
    }
  }

  lemma StepIdle(sys: System, a: Action)
    requires sys.bridge.token.minter != sys.bridge.self
    ensures var sys' := Step(sys, a);
            && sys'.out == sys.out && sys'.released == sys.released
            && sys'.bridge.token.minter == sys.bridge.token.minter && sys'.bridge.self == sys.bridge.self
            && sys'.bridge.totalLocked == sys.bridge.totalLocked && sys'.bridge.processed == sys.bridge.processed
  {
    hide Move;
  }

  /** A bridge that is not the token's minter announces and releases nothing, in any run. */
  lemma {:induction false} IdleWithoutMinter(sys: System, actions: seq<Action>)
    requires sys.bridge.token.minter != sys.bridge.self
    ensures var sys' := Run(sys, actions);
            && sys'.out == sys.out && sys'.released == sys.released
            && sys'.bridge.totalLocked == sys.bridge.totalLocked && sys'.bridge.processed == sys.bridge.processed
    decreases |actions|
  {
    if actions != [] {
      StepIdle(sys, actions[0]);
      hide Step;
      IdleWithoutMinter(Step(sys, actions[0]), actions[1..]);
    }
  }

  // ---------- Exactly what each step does ----------

  /** A chain the bridge serves: Ethereum, Arbitrum or Sepolia. */
  predicate Served(chain: nat) {
    chain in {1, 42161, 11155111}
  }

  /** Bridging out: when it is accepted, and the burn, the nonce and the locked total it leaves. */
  lemma SendExactly(b: Bridge, sender: Address, recipient: Bytes, amount: int, chain: nat)
    requires b.minAmount > 0
    ensures var r := BridgeToEvm(b, sender, recipient, amount, chain);
            && (r.Some? <==> !b.paused && b.minAmount <= amount <= Get(b.token.balances, sender) && Served(chain)
                             && |recipient| == 20 && b.token.minter == b.self)
            && (r.Some? ==>
                  var (b', nonce) := r.value;
                  && nonce == Get(b.nonces, sender) + 1
                  && b'.totalLocked - b.totalLocked == amount
                  && Get(b'.token.balances, sender) == Get(b.token.balances, sender) - amount
                  && b'.token.supply == b.token.supply - amount
                  && (forall u | u != sender ::
                        Get(b'.token.balances, u) == Get(b.token.balances, u) && Get(b'.nonces, u) == Get(b.nonces, u))
                  && b' == b.(token := b'.token, totalLocked := b'.totalLocked, nonces := b.nonces[sender := nonce]))
  {
  }

  /** The settings are the admin's, the minimum stays positive, and nothing else changes. */
  lemma SettingsExactly(b: Bridge, caller: Address, other: Address, on: bool, minimum: int)
    ensures SetPaused(b, caller, on) == if caller == b.admin then Some(b.(paused := on)) else None
    ensures SetRelayer(b, caller, other) == if caller == b.admin then Some(b.(relayer := other)) else None
    ensures SetAdmin(b, caller, other) == if caller == b.admin then Some(b.(admin := other)) else None
    ensures SetMinAmount(b, caller, minimum)
            == if caller == b.admin && minimum > 0 then Some(b.(minAmount := minimum)) else None
  {
  }

  /** The parameter of a delivery's law: the stroops a burn is worth, as a floor. */
  predicate Stroops(amount: nat, r: int) {
    IsFloor(r, amount, 100_000_000_000)
  }

  lemma StroopsAreScaled(amount: nat, r: int)
    requires Stroops(amount, r)
    ensures r == Scaled(amount) && r >= 0
  {
    MulDistributes(SCALE, r, 1);
    assert amount / SCALE == r;
  }

  /**
   A delivered burn: when it is accepted, and then the recipient gets the floor of its worth, once,
   and the locked total falls by as much when it covers it.
   */
  lemma DeliverBackExactly(sys: System, i: nat, r: int)
    requires i < |sys.back| && Stroops(sys.back[i].amount, r)
    ensures var b, e, sys' := sys.bridge, sys.back[i], Step(sys, DeliverBack(i));
            var ok := 0 < r < 0x1_0000_0000_0000_0000 && !b.paused && Served(e.chain) && e.txHash !in b.processed
                      && b.token.minter == b.self;
            && (!ok ==> sys' == sys)
            && (ok ==>
                  && Get(sys'.bridge.token.balances, e.recipient) == Get(b.token.balances, e.recipient) + r
                  && (forall u | u != e.recipient :: Get(sys'.bridge.token.balances, u) == Get(b.token.balances, u))
                  && sys'.bridge.token.supply == b.token.supply + r
                  && sys'.bridge.totalLocked == (if b.totalLocked >= r then b.totalLocked - r else b.totalLocked)
                  && sys'.bridge.processed == b.processed + {e.txHash}
                  && sys'.released == sys.released + {i} && sys'.totalReleased == sys.totalReleased + r)
  {
    StroopsAreScaled(sys.back[i].amount, r);
    hide Stroops, Scaled;
  }

  /** A delivered announcement mints 10^11 wrapped units per stroop to its recipient, once per hash. */
  lemma DeliverOutExactly(sys: System, i: nat)
    requires i < |sys.out|
    ensures var e, sys' := sys.out[i], Step(sys, DeliverOut(i));
            var account := (e.chain, e.recipient);
            var unseen := (e.chain, e.txHash) !in sys.minted;
            && (!unseen ==> sys' == sys)
            && (unseen ==>
                  && Get(sys'.wrapped, account) == Get(sys.wrapped, account) + e.amount * 100_000_000_000
                  && (forall a | a != account :: Get(sys'.wrapped, a) == Get(sys.wrapped, a))
                  && sys'.totalMinted == sys.totalMinted + e.amount * 100_000_000_000
                  && sys'.minted == sys.minted + {(e.chain, e.txHash)} && sys'.honoured == sys.honoured + {i}
                  && sys'.bridge == sys.bridge)
  {
  }

  /** The burned amounts of a set of positions. */
  function BurnedOver(back: seq<BackEvent>, some: set<nat>): int {
    if back == [] then 0 else
      var n := |back| - 1;
      BurnedOver(back[..n], some) + if n in some then back[n].amount else 0
  }

  lemma {:induction false} BurnedBounds(back: seq<BackEvent>, some: set<nat>)
    requires forall i | i in some :: i < |back|
    ensures BackOver(back, some) * 100_000_000_000 <= BurnedOver(back, some)
    ensures BurnedOver(back, some) <= BackOver(back, some) * 100_000_000_000 + 99_999_999_999 * |some|
    decreases |back|
  {
    if back == [] {
      assert some == {};
    } else {
      var n := |back| - 1;
      var front := some - {n};
      BurnedBounds(back[..n], front);
      SamePrefix(back[..n], some, front);
      var amount := back[n].amount;
      assert amount == Scaled(amount) * SCALE + amount % SCALE;
      if n in some {
        assert some == front + {n};
      } else {
        assert some == front;
      }
    }
  }

  lemma {:induction false} SamePrefix(back: seq<BackEvent>, some: set<nat>, other: set<nat>)
    requires forall i | 0 <= i < |back| :: i in some <==> i in other
    ensures BackOver(back, some) == BackOver(back, other) && BurnedOver(back, some) == BurnedOver(back, other)
  {
    if back != [] {
      SamePrefix(back[..|back| - 1], some, other);
    }
  }

  /**
   In every run the releases are worth what was burned for them, short of one stroop each: neither
   more nor a whole stroop less per release.
   */
  lemma ReleasesAreWorthBurns(bridge: Bridge, actions: seq<Action>)
    requires bridge.minAmount > 0 && bridge.totalLocked == 0
    ensures var sys := Run(Start(bridge), actions);
            && sys.totalReleased * 100_000_000_000 <= BurnedOver(sys.back, sys.released)
            && BurnedOver(sys.back, sys.released)
               <= sys.totalReleased * 100_000_000_000 + 99_999_999_999 * |sys.released|
            && sys.totalMinted == OutOver(sys.out, sys.honoured) * 100_000_000_000
  {
    RunKeeps(Start(bridge), actions);
    var sys := Run(Start(bridge), actions);
    BurnedBounds(sys.back, sys.released);
  }
}
