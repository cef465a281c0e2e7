/** The governance contract updated in place, proved against the steps of its model. */
module GovernanceContract {
  import opened Wrappers
  import opened Arithmetic
  import opened TokenLedger
  import opened GovernanceModel

  class Governance {
    const admin: Address
    const votingPeriod: nat
    const quorumBps: nat
    var referenceSupply: int
    var proposalCount: nat
    var proposals: map<nat, Proposal>
    var voted: set<(nat, Address)>
    var params: map<string, string>

    function State(): Gov
      reads this
    {
      Gov(admin, votingPeriod, quorumBps, referenceSupply, proposalCount, proposals, voted, params)
    }

    constructor (admin: Address, votingPeriod: nat, quorumBps: nat)
      ensures State() == Initial(admin, votingPeriod, quorumBps)
    {
      this.admin, this.votingPeriod, this.quorumBps := admin, votingPeriod, quorumBps;
      referenceSupply, proposalCount := 0, 0;
      proposals, voted, params := map[], {}, map[];
    }

    method SetReferenceSupply(caller: Address, supply: int) returns (ok: bool)
      modifies this`referenceSupply
      ensures ok == SetReference(old(State()), caller, supply).Some?
      ensures State() == SetReference(old(State()), caller, supply).GetOr(old(State()))
    {
      ok := caller == admin && supply >= 0;
      if ok {
        referenceSupply := supply;
      }
    }

    method NextProposalId() returns (id: nat)
      modifies this`proposalCount
      ensures id == old(proposalCount) && proposalCount == id + 1
    {
      id := proposalCount;
      proposalCount := id + 1;
    }

    /** The proposer's sXLM balance and the ledger sequence come from the host. */
    method Create(proposer: Address, key: string, value: string, balance: int, ledger: nat) returns (ok: bool, id: nat)
      modifies this
      ensures ok == CreateProposal(old(State()), proposer, key, value, balance, ledger).Some?
      ensures State() == CreateProposal(old(State()), proposer, key, value, balance, ledger).GetOr(old(State()))
      ensures ok ==> id == old(proposalCount)
    {
      ok, id := balance >= MIN_PROPOSAL_BALANCE, 0;
      if ok {
        id := NextProposalId();
        proposals := proposals[id := Proposal(id, proposer, key, value, 0, 0, ledger, ledger + votingPeriod, false)];
      }
    }

    method CastVote(voter: Address, id: nat, support: bool, weight: int, ledger: nat) returns (ok: bool)
      modifies this
      ensures ok == Vote(old(State()), voter, id, support, weight, ledger).Some?
      ensures State() == Vote(old(State()), voter, id, support, weight, ledger).GetOr(old(State()))
    {
      if id !in proposals {
        return false;
      }
      var p := proposals[id];
      ok := ledger <= p.end && (id, voter) !in voted && weight > 0;
      if ok {
        if support {
          p := p.(votesFor := p.votesFor + weight);
        } else {
          p := p.(votesAgainst := p.votesAgainst + weight);
        }
        voted := voted + {(id, voter)};
        proposals := proposals[id := p];
      }
    }

    method ExecuteProposal(id: nat, ledger: nat) returns (ok: bool)
      modifies this
      ensures ok == Execute(old(State()), id, ledger).Some?
      ensures State() == Execute(old(State()), id, ledger).GetOr(old(State()))
    {
      if id !in proposals {
        return false;
      }
      var p := proposals[id];
      if p.executed || ledger <= p.end {
        return false;
      }
      var total := p.votesFor + p.votesAgainst;
      if total <= 0 {
        return false;
      }
      if referenceSupply > 0 {
        var required := Quot(referenceSupply * quorumBps, BPS);
        if total < required {
          return false;
        }
      }
      if p.votesFor <= p.votesAgainst {
        return false;
      }
      params := params[p.key := p.value];
      proposals := proposals[id := p.(executed := true)];
      ok := true;
    }
  }
}
