/** Runs of governance: tallies, their freezing, executions and the parameters they set. */
module GovernanceRuns {
  import opened Wrappers
  import opened Arithmetic
  import opened Sums
  import opened TokenLedger
  import opened GovernanceModel

  /** A recorded vote. */
  datatype Ballot = Ballot(id: nat, voter: Address, support: bool, weight: int, ledger: nat)

  /** A recorded execution and the reference supply it was judged at. */
  datatype Execution = Execution(id: nat, reference: int, ledger: nat)

  datatype Action =
    | Advance
    | Balances(balances: map<Address, int>)
    | Reference(caller: Address, supply: int)
    | Propose(proposer: Address, key: string, value: string)
    | Cast(voter: Address, id: nat, support: bool)
    | Enact(id: nat)

  datatype System = System(gov: Gov, ledger: nat, balances: map<Address, int>,
                           ballots: seq<Ballot>, executions: seq<Execution>)

  function Start(s: Gov): System {
    System(s, 0, map[], [], [])
  }

  function Step(sys: System, a: Action): System {
    var s := sys.gov;
    match a
    case Advance => sys.(ledger := sys.ledger + 1)
    case Balances(balances) => sys.(balances := balances)
    case Reference(caller, supply) => sys.(gov := SetReference(s, caller, supply).GetOr(s))
    case Propose(proposer, key, value) =>
      sys.(gov := CreateProposal(s, proposer, key, value, Get(sys.balances, proposer), sys.ledger).GetOr(s))
    case Cast(voter, id, support) =>
      var weight := Get(sys.balances, voter);
      var r := Vote(s, voter, id, support, weight, sys.ledger);
      if r.None? then sys else
        sys.(gov := r.value, ballots := sys.ballots + [Ballot(id, voter, support, weight, sys.ledger)])
    case Enact(id) =>
      var r := Execute(s, id, sys.ledger);
      if r.None? then sys else
        sys.(gov := r.value, executions := sys.executions + [Execution(id, s.referenceSupply, sys.ledger)])
  }

  function Run(sys: System, actions: seq<Action>): System
    decreases |actions|
  {
    if actions == [] then sys else Run(Step(sys, actions[0]), actions[1..])
  }

  // ---------- Tallies ----------

  /** The weight recorded on one side of one proposal. */
  function Tally(ballots: seq<Ballot>, id: nat, support: bool): int {
    if ballots == [] then 0 else
      var b := ballots[|ballots| - 1];
      Tally(ballots[..|ballots| - 1], id, support) + if b.id == id && b.support == support then b.weight else 0
  }

  lemma TallyAppend(ballots: seq<Ballot>, b: Ballot, id: nat, support: bool)
    ensures Tally(ballots + [b], id, support)
            == Tally(ballots, id, support) + if b.id == id && b.support == support then b.weight else 0
  {
    assert (ballots + [b])[..|ballots|] == ballots;
  }

  lemma {:induction false} TallyAbsent(ballots: seq<Ballot>, id: nat, support: bool)
    requires forall b | b in ballots :: b.id != id
    ensures Tally(ballots, id, support) == 0
  {
    if ballots != [] {
      TallyAbsent(ballots[..|ballots| - 1], id, support);
    }
  }

  /** Ids are 0 .. count - 1 and each side of a tally is the sum of the weights recorded for it. */
  ghost predicate TalliesAddUp(s: Gov, ballots: seq<Ballot>) {
    && (forall id: nat :: id in s.proposals <==> id < s.count)
    && (forall id | id in s.proposals ::
          s.proposals[id].id == id
          && s.proposals[id].votesFor == Tally(ballots, id, true)
          && s.proposals[id].votesAgainst == Tally(ballots, id, false))
  }

  /** Every recorded vote is positive, cast in time, by a voter not recorded before on that proposal. */
  ghost predicate BallotsValid(s: Gov, ballots: seq<Ballot>) {
    && (forall b | b in ballots ::
          (b.id, b.voter) in s.voted && b.id in s.proposals && b.weight > 0 && b.ledger <= s.proposals[b.id].end)
    && (forall v | v in s.voted :: exists b :: b in ballots && (b.id, b.voter) == v)
    && (forall i, j | 0 <= i < j < |ballots| :: (ballots[i].id, ballots[i].voter) != (ballots[j].id, ballots[j].voter))
  }

  ghost predicate TallyInv(sys: System) {
    TalliesAddUp(sys.gov, sys.ballots) && BallotsValid(sys.gov, sys.ballots)
  }

  lemma CastAddsUp(s: Gov, s': Gov, ballots: seq<Ballot>, b: Ballot)
    requires TalliesAddUp(s, ballots)
    requires Vote(s, b.voter, b.id, b.support, b.weight, b.ledger) == Some(s')
    ensures TalliesAddUp(s', ballots + [b])
  {
    forall id | id in s'.proposals
      ensures s'.proposals[id].votesFor == Tally(ballots + [b], id, true)
      ensures s'.proposals[id].votesAgainst == Tally(ballots + [b], id, false)
    {
      TallyAppend(ballots, b, id, true);
      TallyAppend(ballots, b, id, false);
    }
  }

  lemma CastIsValid(s: Gov, s': Gov, ballots: seq<Ballot>, b: Ballot)
    requires BallotsValid(s, ballots)
    requires Vote(s, b.voter, b.id, b.support, b.weight, b.ledger) == Some(s')
    ensures BallotsValid(s', ballots + [b])
  {
    forall v | v in s'.voted
      ensures exists c :: c in ballots + [b] && (c.id, c.voter) == v
    {
      if v in s.voted {
        var c :| c in ballots && (c.id, c.voter) == v;
        assert c in ballots + [b];
      } else {
        assert b in ballots + [b];
      }
    }
  }

  lemma CastKeepsTallies(sys: System, a: Action)
    requires TallyInv(sys) && a.Cast?
    ensures TallyInv(Step(sys, a))
  {
    var weight := Get(sys.balances, a.voter);
    var r := Vote(sys.gov, a.voter, a.id, a.support, weight, sys.ledger);
    if r.Some? {
      var b := Ballot(a.id, a.voter, a.support, weight, sys.ledger);
      CastAddsUp(sys.gov, r.value, sys.ballots, b);
      CastIsValid(sys.gov, r.value, sys.ballots, b);
      hide TalliesAddUp, BallotsValid, Vote;
    }
  }

  lemma ProposeKeepsTallies(sys: System, a: Action)
    requires TallyInv(sys) && a.Propose?
    ensures TallyInv(Step(sys, a))
  {
    var n := sys.gov.count;
    TallyAbsent(sys.ballots, n, true);
    TallyAbsent(sys.ballots, n, false);
  }

  lemma StepKeepsTallies(sys: System, a: Action)
    requires TallyInv(sys)
    ensures TallyInv(Step(sys, a))
  {
    if a.Cast? {
      CastKeepsTallies(sys, a);
    } else if a.Propose? {
      ProposeKeepsTallies(sys, a);
    } else {
      hide Passes;
    }
  }

  // ---------- Executions and parameters ----------

  /** The value the last execution for a key set, or nothing. */
  function LastValue(s: Gov, executions: seq<Execution>, key: string): string
    requires forall e | e in executions :: e.id in s.proposals
  {
    if executions == [] then "" else
      var p := s.proposals[executions[|executions| - 1].id];
      if p.key == key then p.value else LastValue(s, executions[..|executions| - 1], key)
  }

  /** The outcome recorded for an execution: after the end, with quorum, and for beating against. */
  predicate Justified(s: Gov, e: Execution) {
    && e.id in s.proposals && s.proposals[e.id].executed
    && e.ledger > s.proposals[e.id].end
    && Passes(s.proposals[e.id], e.reference, s.quorumBps)
  }

  /** Executed proposals are exactly the recorded ones, each recorded once and justified. */
  ghost predicate ExecutedOnce(s: Gov, executions: seq<Execution>, ledger: nat) {
    && (forall e | e in executions :: Justified(s, e) && e.ledger <= ledger)
    && (forall id | id in s.proposals && s.proposals[id].executed :: exists e :: e in executions && e.id == id)
    && (forall i, j | 0 <= i < j < |executions| :: executions[i].id != executions[j].id)
  }

  /** A parameter is the value the last execution for it set. */
  ghost predicate ParamsMatch(s: Gov, executions: seq<Execution>)
    requires forall e | e in executions :: e.id in s.proposals
  {
    forall key :: Param(s, key) == LastValue(s, executions, key)
  }

  ghost predicate ExecutionInv(sys: System) {
    && (forall id: nat :: id in sys.gov.proposals <==> id < sys.gov.count)
    && ExecutedOnce(sys.gov, sys.executions, sys.ledger)
    && ParamsMatch(sys.gov, sys.executions)
  }

  /** Key and value of a proposal never change; an ended tally and an execution are final. */
  predicate Continues(p: Proposal, p': Proposal, ledger: nat) {
    && p'.id == p.id && p'.key == p.key && p'.value == p.value && p'.start == p.start && p'.end == p.end
    && p'.proposer == p.proposer
    && (p.executed ==> p'.executed)
    && (ledger > p.end ==> p'.votesFor == p.votesFor && p'.votesAgainst == p.votesAgainst)
  }

  predicate GovContinues(sys: System, sys': System) {
    && sys.ledger <= sys'.ledger && sys'.gov.quorumBps == sys.gov.quorumBps
    && forall id | id in sys.gov.proposals ::
         id in sys'.gov.proposals && Continues(sys.gov.proposals[id], sys'.gov.proposals[id], sys.ledger)
  }

  lemma StepContinues(sys: System, a: Action)
    requires forall id: nat :: id in sys.gov.proposals <==> id < sys.gov.count
    ensures GovContinues(sys, Step(sys, a))
  {
    hide Passes;
  }

  lemma {:induction false} LastValueStable(s: Gov, s': Gov, executions: seq<Execution>, key: string)
    requires forall e | e in executions ::
               e.id in s.proposals && e.id in s'.proposals
               && s.proposals[e.id].key == s'.proposals[e.id].key && s.proposals[e.id].value == s'.proposals[e.id].value
    ensures LastValue(s, executions, key) == LastValue(s', executions, key)
  {
    if executions != [] {
      LastValueStable(s, s', executions[..|executions| - 1], key);
    }
  }

  lemma EnactOnce(s: Gov, s': Gov, executions: seq<Execution>, e: Execution)
    requires ExecutedOnce(s, executions, e.ledger) && e.reference == s.referenceSupply
    requires Execute(s, e.id, e.ledger) == Some(s')
    ensures ExecutedOnce(s', executions + [e], e.ledger)
  {
    assert Justified(s', e);
    forall d | d in executions
      ensures Justified(s', d) && d.id != e.id
    {
      assert Justified(s, d);
    }
    hide Passes;
    forall id | id in s'.proposals && s'.proposals[id].executed
      ensures exists d :: d in executions + [e] && d.id == id
    {
      if id == e.id {
        assert e in executions + [e];
      } else {
        var d :| d in executions && d.id == id;
        assert d in executions + [e];
      }
    }
  }

  lemma EnactSetsParam(s: Gov, s': Gov, executions: seq<Execution>, e: Execution)
    requires forall d | d in executions :: d.id in s.proposals
    requires ParamsMatch(s, executions)
    requires Execute(s, e.id, e.ledger) == Some(s')
    ensures ParamsMatch(s', executions + [e])
  {
    assert (executions + [e])[..|executions|] == executions;
    forall key
      ensures Param(s', key) == LastValue(s', executions + [e], key)
    {
      LastValueStable(s, s', executions, key);
    }
  }

  lemma EnactKeepsExecutions(sys: System, a: Action)
    requires ExecutionInv(sys) && a.Enact?
    ensures ExecutionInv(Step(sys, a))
  {
    var s := sys.gov;
    var r := Execute(s, a.id, sys.ledger);
    if r.Some? {
      var e := Execution(a.id, s.referenceSupply, sys.ledger);
      EnactOnce(s, r.value, sys.executions, e);
      EnactSetsParam(s, r.value, sys.executions, e);
      hide ExecutedOnce, ParamsMatch, Passes;
    }
  }

  lemma OthersKeepExecutions(sys: System, a: Action)
    requires ExecutionInv(sys) && !a.Enact?
    ensures ExecutionInv(Step(sys, a))
  {
    var sys' := Step(sys, a);
    var s, s' := sys.gov, sys'.gov;
    StepContinues(sys, a);
    hide Execute, Passes;
    forall e | e in sys.executions
      ensures Justified(s', e)
    {
      assert Justified(s, e);
      assert Continues(s.proposals[e.id], s'.proposals[e.id], sys.ledger);
    }
    forall key
      ensures Param(s', key) == LastValue(s', sys.executions, key)
    {
      LastValueStable(s, s', sys.executions, key);
    }
  }

  // ---------- Every run ----------

  lemma {:induction false} RunKeeps(sys: System, actions: seq<Action>)
    requires TallyInv(sys) && ExecutionInv(sys)
    ensures TallyInv(Run(sys, actions)) && ExecutionInv(Run(sys, actions))
    ensures GovContinues(sys, Run(sys, actions))
    decreases |actions|
  {
    if actions != [] {
      var a, next := actions[0], Step(sys, actions[0]);
      StepKeepsTallies(sys, a);
      StepContinues(sys, a);
      if a.Enact? {
        EnactKeepsExecutions(sys, a);
      } else {
        OthersKeepExecutions(sys, a);
      }
      hide Step, TallyInv, ExecutionInv;
      RunKeeps(next, actions[1..]);
      ContinuesChain(sys, next, Run(next, actions[1..]));
    }
  }

  lemma ContinuesChain(s0: System, s1: System, s2: System)
    requires GovContinues(s0, s1) && GovContinues(s1, s2)
    ensures GovContinues(s0, s2)
  {
    forall id | id in s0.gov.proposals
      ensures id in s2.gov.proposals && Continues(s0.gov.proposals[id], s2.gov.proposals[id], s0.ledger)
    {
      assert Continues(s0.gov.proposals[id], s1.gov.proposals[id], s0.ledger);
      assert Continues(s1.gov.proposals[id], s2.gov.proposals[id], s1.ledger);
    }
  }

  /**
   In every run: tallies are the recorded weights of distinct voters; a proposal executes at most
   once, after its end and only with quorum and a majority; and a parameter is what the last
   executed proposal for it said.
   */
  lemma GovernanceInvariant(admin: Address, votingPeriod: nat, quorumBps: nat, actions: seq<Action>)
    ensures var sys := Run(Start(Initial(admin, votingPeriod, quorumBps)), actions);
            TallyInv(sys) && ExecutionInv(sys)
  {
    RunKeeps(Start(Initial(admin, votingPeriod, quorumBps)), actions);
  }

  /** Once voting has ended the tally is final, so the verdict at a given supply is too. */
  lemma VerdictIsFinal(sys: System, actions: seq<Action>, id: nat, reference: int)
    requires TallyInv(sys) && ExecutionInv(sys)
    requires id in sys.gov.proposals && sys.ledger > sys.gov.proposals[id].end
    ensures var sys' := Run(sys, actions);
            && id in sys'.gov.proposals
            && sys'.gov.proposals[id].votesFor == sys.gov.proposals[id].votesFor
            && sys'.gov.proposals[id].votesAgainst == sys.gov.proposals[id].votesAgainst
            && (Passes(sys'.gov.proposals[id], reference, sys'.gov.quorumBps)
                <==> Passes(sys.gov.proposals[id], reference, sys.gov.quorumBps))
  {
    RunKeeps(sys, actions);
  }

  // ---------- The quorum ----------

  lemma {:induction false} TallyNonNegative(ballots: seq<Ballot>, id: nat, support: bool)
    requires forall b | b in ballots :: b.weight > 0
    ensures 0 <= Tally(ballots, id, support)
  {
    if ballots != [] {
      TallyNonNegative(ballots[..|ballots| - 1], id, support);
    }
  }

  /** In every state a verdict is a majority and, only at a positive reference supply, the quorum. */
  lemma VerdictExactly(sys: System, id: nat, reference: int)
    requires TallyInv(sys) && id in sys.gov.proposals
    ensures var p := sys.gov.proposals[id];
            && (reference > 0 ==>
                  (Passes(p, reference, sys.gov.quorumBps) <==>
                   p.votesFor > p.votesAgainst
                   && p.votesFor + p.votesAgainst >= Quot(reference * sys.gov.quorumBps, BPS)))
            && (reference <= 0 ==>
                  (Passes(p, reference, sys.gov.quorumBps) <==> p.votesFor > p.votesAgainst))
  {
    TallyNonNegative(sys.ballots, id, false);
  }

  function Ticks(n: nat): seq<Action> {
    seq(n, _ => Advance)
  }

  lemma {:induction false} RunTicks(sys: System, n: nat)
    ensures Run(sys, Ticks(n)) == sys.(ledger := sys.ledger + n)
    decreases n
  {
    if n > 0 {
      assert Ticks(n)[1..] == Ticks(n - 1);
      RunTicks(Step(sys, Advance), n - 1);
    }
  }

  lemma {:induction false} RunAppend(sys: System, first: seq<Action>, second: seq<Action>)
    ensures Run(sys, first + second) == Run(Run(sys, first), second)
    decreases |first|
  {
    if first == [] {
      assert first + second == second;
    } else {
      assert (first + second)[1..] == first[1..] + second;
      RunAppend(Step(sys, first[0]), first[1..], second);
    }
  }

  /** A proposal, and the smallest possible vote for it. */
  function OneVote(): seq<Action> {
    [Balances(map["proposer" := MIN_PROPOSAL_BALANCE, "voter" := 1]),
     Propose("proposer", "fee", "30"),
     Cast("voter", 0, true)]
  }

  /** With the reference supply never set, one ballot of one unit enacts a proposal at any quorum. */
  lemma OneBallotEnacts(admin: Address, votingPeriod: nat, quorumBps: nat)
    ensures var sys := Run(Start(Initial(admin, votingPeriod, quorumBps)),
                           OneVote() + Ticks(votingPeriod + 1) + [Enact(0)]);
            && sys.ballots == [Ballot(0, "voter", true, 1, 0)]
            && sys.executions == [Execution(0, 0, votingPeriod + 1)]
            && Param(sys.gov, "fee") == "30"
  {
    var s0 := Start(Initial(admin, votingPeriod, quorumBps));
    var s1 := Step(s0, OneVote()[0]);
    var s2 := Step(s1, OneVote()[1]);
    var s3 := Step(s2, OneVote()[2]);
    assert OneVote()[1..] == [OneVote()[1], OneVote()[2]] && OneVote()[1..][1..] == [OneVote()[2]];
    assert Run(s0, OneVote()) == s3;
    var s4 := s3.(ledger := votingPeriod + 1);
    RunTicks(s3, votingPeriod + 1);
    var s5 := Step(s4, Enact(0));
    assert [Enact(0)][1..] == [];
    assert Run(s4, [Enact(0)]) == s5;
    RunAppend(s0, OneVote() + Ticks(votingPeriod + 1), [Enact(0)]);
    RunAppend(s0, OneVote(), Ticks(votingPeriod + 1));
  }

  // ---------- Exactly what each call does ----------

  /** A proposal needs 100 tokens and opens under the next id with an empty tally and its own window. */
  lemma ProposeExactly(s: Gov, proposer: Address, key: string, value: string, balance: int, ledger: nat)
    ensures var r := CreateProposal(s, proposer, key, value, balance, ledger);
            && (r.Some? <==> balance >= 1_000_000_000)
            && (r.Some? ==>
                  var s' := r.value;
                  && s.count in s'.proposals && s'.count == s.count + 1
                  && var p := s'.proposals[s.count];
                  && p.id == s.count && p.proposer == proposer && p.key == key && p.value == value
                  && p.votesFor == 0 && p.votesAgainst == 0 && !p.executed
                  && p.start == ledger && p.end - p.start == s.votingPeriod
                  && s' == s.(count := s'.count, proposals := s.proposals[s.count := p]))
  {
  }

  /** The reference supply is the admin's, never negative, and changes nothing else. */
  lemma ReferenceExactly(s: Gov, caller: Address, supply: int)
    ensures SetReference(s, caller, supply)
            == if caller == s.admin && supply >= 0 then Some(s.(referenceSupply := supply)) else None
  {
  }

  /** A vote counts until and in the end ledger, once per voter, with the whole weight on one side. */
  lemma VoteExactly(s: Gov, voter: Address, id: nat, support: bool, weight: int, ledger: nat)
    ensures var r := Vote(s, voter, id, support, weight, ledger);
            && (r.Some? <==> id in s.proposals && ledger <= s.proposals[id].end && (id, voter) !in s.voted && weight > 0)
            && (r.Some? ==>
                  var s' := r.value;
                  && id in s'.proposals
                  && var p, p' := s.proposals[id], s'.proposals[id];
                  && p'.votesFor - p.votesFor == (if support then weight else 0)
                  && p'.votesAgainst - p.votesAgainst == (if support then 0 else weight)
                  && p' == p.(votesFor := p'.votesFor, votesAgainst := p'.votesAgainst)
                  && s' == s.(proposals := s.proposals[id := p'], voted := s.voted + {(id, voter)}))
  {
  }

  /**
   An execution needs an ended, unexecuted proposal with more votes for than against and, at a
   positive reference supply, at least its quorum's floor; it sets the one parameter.
   */
  lemma ExecuteExactly(sys: System, id: nat)
    requires TallyInv(sys)
    ensures var s := sys.gov;
            var r := Execute(s, id, sys.ledger);
            && (r.Some? <==>
                  && id in s.proposals
                  && var p := s.proposals[id];
                  && !p.executed && sys.ledger > p.end && p.votesFor > p.votesAgainst
                  && (s.referenceSupply > 0 ==>
                        (p.votesFor + p.votesAgainst + 1) * 10_000 > s.referenceSupply * s.quorumBps))
            && (r.Some? ==>
                  var p := s.proposals[id];
                  && (forall k :: Param(r.value, k) == if k == p.key then p.value else Param(s, k))
                  && r.value == s.(params := r.value.params, proposals := s.proposals[id := p.(executed := true)]))
  {
    var s := sys.gov;
    if id in s.proposals {
      var p := s.proposals[id];
      VerdictExactly(sys, id, s.referenceSupply);
      if s.referenceSupply > 0 {
        QuorumIsFloor(s.referenceSupply, s.quorumBps, p.votesFor + p.votesAgainst);
      }
    }
    hide Passes, Quot;
  }

  lemma QuorumIsFloor(reference: int, quorumBps: nat, total: int)
    requires reference > 0
    ensures total >= Quot(reference * quorumBps, BPS) <==> (total + 1) * 10_000 > reference * quorumBps
  {
    MulPositive(reference, quorumBps);
    QuotAtLeast(reference * quorumBps, BPS, total + 1);
  }

  /** The window of every proposal of a run: it starts when proposed and ends a voting period later. */
  ghost predicate WindowsOpen(sys: System) {
    forall id | id in sys.gov.proposals ::
      var p := sys.gov.proposals[id];
      p.start <= sys.ledger && p.end == p.start + sys.gov.votingPeriod
  }

  lemma {:induction false} RunKeepsWindows(sys: System, actions: seq<Action>)
    requires WindowsOpen(sys)
    ensures WindowsOpen(Run(sys, actions)) && Run(sys, actions).gov.votingPeriod == sys.gov.votingPeriod
    decreases |actions|
  {
    if actions != [] {
      assert WindowsOpen(Step(sys, actions[0])) by {
        hide Passes;
      }
      assert Step(sys, actions[0]).gov.votingPeriod == sys.gov.votingPeriod;
      hide Step;
      RunKeepsWindows(Step(sys, actions[0]), actions[1..]);
    }
  }

  /** In every run a proposal takes votes exactly through its period and is executed only after it. */
  lemma VotingWindow(admin: Address, votingPeriod: nat, quorumBps: nat, actions: seq<Action>, id: nat, voter: Address, support: bool)
    ensures var sys := Run(Start(Initial(admin, votingPeriod, quorumBps)), actions);
            id in sys.gov.proposals ==>
              var p := sys.gov.proposals[id];
              && p.start <= sys.ledger
              && (Vote(sys.gov, voter, id, support, Get(sys.balances, voter), sys.ledger).Some?
                  <==> sys.ledger <= p.start + votingPeriod && (id, voter) !in sys.gov.voted && Get(sys.balances, voter) > 0)
              && (Execute(sys.gov, id, sys.ledger).Some? ==> sys.ledger > p.start + votingPeriod)
  {
    RunKeepsWindows(Start(Initial(admin, votingPeriod, quorumBps)), actions);
    hide Run, Passes;
  }
}
