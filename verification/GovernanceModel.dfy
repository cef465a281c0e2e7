/** Governance: storage and the effect of each entry point; None is a panicked call. */
module GovernanceModel {
  import opened Wrappers
  import opened Arithmetic
  import opened TokenLedger

  const BPS: int := 10_000
  const MIN_PROPOSAL_BALANCE: int := 100_0000000

  datatype Proposal = Proposal(id: nat, proposer: Address, key: string, value: string,
                               votesFor: int, votesAgainst: int, start: nat, end: nat, executed: bool)

  datatype Gov = Gov(
    admin: Address,
    votingPeriod: nat,
    quorumBps: nat,
    referenceSupply: int,
    count: nat,
    proposals: map<nat, Proposal>,
    voted: set<(nat, Address)>,
    params: map<string, string>)

  function Initial(admin: Address, votingPeriod: nat, quorumBps: nat): Gov {
    Gov(admin, votingPeriod, quorumBps, 0, 0, map[], {}, map[])
  }

  function SetReference(s: Gov, caller: Address, supply: int): Option<Gov> {
    if caller != s.admin || supply < 0 then None else Some(s.(referenceSupply := supply))
  }

  function CreateProposal(s: Gov, proposer: Address, key: string, value: string, balance: int, ledger: nat): Option<Gov> {
    if balance < MIN_PROPOSAL_BALANCE then None else
      Some(s.(count := s.count + 1,
              proposals := s.proposals[s.count := Proposal(s.count, proposer, key, value, 0, 0, ledger,
                                                           ledger + s.votingPeriod, false)]))
  }

  function Count(p: Proposal, support: bool, weight: int): Proposal {
    if support then p.(votesFor := p.votesFor + weight) else p.(votesAgainst := p.votesAgainst + weight)
  }

  function Vote(s: Gov, voter: Address, id: nat, support: bool, weight: int, ledger: nat): Option<Gov> {
    if id !in s.proposals || ledger > s.proposals[id].end || (id, voter) in s.voted || weight <= 0 then None else
      Some(s.(proposals := s.proposals[id := Count(s.proposals[id], support, weight)],
              voted := s.voted + {(id, voter)}))
  }

  /** The verdict on a tally at a given reference supply; a supply of zero waives the quorum. */
  predicate Passes(p: Proposal, referenceSupply: int, quorumBps: int) {
    var total := p.votesFor + p.votesAgainst;
    && total > 0
    && (referenceSupply > 0 ==> total >= Quot(referenceSupply * quorumBps, BPS))
    && p.votesFor > p.votesAgainst
  }

  function Execute(s: Gov, id: nat, ledger: nat): Option<Gov> {
    if id !in s.proposals then None else
      var p := s.proposals[id];
      if p.executed || ledger <= p.end || !Passes(p, s.referenceSupply, s.quorumBps) then None else
        Some(s.(params := s.params[p.key := p.value], proposals := s.proposals[id := p.(executed := true)]))
  }

  function Param(s: Gov, key: string): string {
    if key in s.params then s.params[key] else ""
  }
}
