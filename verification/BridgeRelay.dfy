/**
 The relayer: the listener with its ledger cursor, which announcements it hands on, and what
 handing them on does to the two ledgers.
 */
module BridgeRelay {
  import opened Wrappers
  import opened TokenLedger
  import opened BridgeModel
  import opened BridgeSafety

  // ---------- What a poll hears ----------

  /** The encoding of an account address starts with G, that of a contract address with C. */
  predicate IsAccount(a: Address) {
    a != "" && a[0] == 'G'
  }

  /**
   The parser decodes the sender as an account; for a contract this throws, and the announcement is
   dropped. All other fields are always there.
   */
  predicate Parses(e: OutEvent) {
    IsAccount(e.sender)
  }

  function Parsed(events: seq<OutEvent>): seq<OutEvent> {
    if events == [] then [] else
      var n := |events| - 1;
      Parsed(events[..n]) + if Parses(events[n]) then [events[n]] else []
  }

  /** The announcements of the ledgers first .. last, in order. */
  function EventsBetween(log: seq<OutEvent>, first: nat, last: nat): seq<OutEvent> {
    if log == [] then [] else
      var n := |log| - 1;
      EventsBetween(log[..n], first, last) + if first <= log[n].ledger <= last then [log[n]] else []
  }

  function Page(events: seq<OutEvent>, size: nat): seq<OutEvent> {
    if |events| <= size then events else events[..size]
  }

  /**
   One poll as the environment decides it: the latest ledger the server names, then the ledger up
   to which it answers the query, with how many events at most, or that it does not answer.
   */
  datatype Poll = Poll(latest: nat, serverLedger: nat, page: nat, reachable: bool)

  /** The cursor after a poll: it never goes back, and moves even when the query fails. */
  function NextCursor(before: nat, p: Poll): nat {
    if before == 0 || p.latest > before then p.latest else before
  }

  /** Whether a poll gets an answer: not the first one, nor without progress, nor when it fails. */
  predicate Answered(before: nat, p: Poll) {
    before != 0 && p.latest > before && p.reachable
  }

  /** The query has no upper bound but the server's own ledger, and only its first page is read. */
  function Response(before: nat, p: Poll, log: seq<OutEvent>): seq<OutEvent> {
    Page(EventsBetween(log, before + 1, p.serverLedger), p.page)
  }

  function Heard(before: nat, p: Poll, log: seq<OutEvent>): seq<OutEvent> {
    if Answered(before, p) then Parsed(Response(before, p, log)) else []
  }

  /** The cursor after a sequence of polls, and all that was handed on. */
  function Cursor(start: nat, polls: seq<Poll>): nat {
    if polls == [] then start else NextCursor(Cursor(start, polls[..|polls| - 1]), polls[|polls| - 1])
  }

  function AllHeard(start: nat, polls: seq<Poll>, log: seq<OutEvent>): seq<OutEvent> {
    if polls == [] then [] else
      var n := |polls| - 1;
      AllHeard(start, polls[..n], log) + Heard(Cursor(start, polls[..n]), polls[n], log)
  }

  /** Polls the Soroban RPC for announcements made after the ledger seen last. */
  class SorobanListener {
    var lastLedger: nat

    constructor ()
      ensures lastLedger == 0
    {
      lastLedger := 0;
    }

    method PollBridgeEvents(p: Poll, log: seq<OutEvent>) returns (events: seq<OutEvent>)
      modifies this
      ensures lastLedger == NextCursor(old(lastLedger), p)
      ensures events == Heard(old(lastLedger), p, log)
    {
      events := [];
      if lastLedger == 0 {
        lastLedger := p.latest;
        return;
      }
      if p.latest <= lastLedger {
        return;
      }
      if p.reachable {
        var response := Response(lastLedger, p, log);
        for i := 0 to |response|
          invariant events == Parsed(response[..i])
        {
          assert response[..i + 1][..i] == response[..i];
          if Parses(response[i]) {
            events := events + [response[i]];
          }
        }
        assert response[..|response|] == response;
      }
      lastLedger := p.latest;
    }

    /** The relayer's loop over a stretch of polls: every event heard is handed on, in order. */
    method Relay(polls: seq<Poll>, log: seq<OutEvent>) returns (events: seq<OutEvent>)
      modifies this
      ensures lastLedger == Cursor(old(lastLedger), polls)
      ensures events == AllHeard(old(lastLedger), polls, log)
    {
      events := [];
      for i := 0 to |polls|
        invariant lastLedger == Cursor(old(lastLedger), polls[..i])
        invariant events == AllHeard(old(lastLedger), polls[..i], log)
      {
        assert polls[..i + 1][..i] == polls[..i];
        var heard := PollBridgeEvents(polls[i], log);
        events := events + heard;
      }
      assert polls[..|polls|] == polls;
    }
  }

  // ---------- Exactly what is handed on ----------

  lemma {:induction false} ParsedExactly(events: seq<OutEvent>, e: OutEvent)
    ensures e in Parsed(events) <==> e in events && Parses(e)
  {
    if events != [] {
      ParsedExactly(events[..|events| - 1], e);
      assert events == events[..|events| - 1] + [events[|events| - 1]];
    }
  }

  /** Entry j of the log is among the first `size` announcements of its ledgers. */
  predicate OnPage(log: seq<OutEvent>, j: nat, first: nat, last: nat, size: nat)
    requires j < |log|
  {
    first <= log[j].ledger <= last && |EventsBetween(log[..j], first, last)| < size
  }

  lemma {:induction false} PageExactly(log: seq<OutEvent>, first: nat, last: nat, size: nat, e: OutEvent)
    ensures e in Page(EventsBetween(log, first, last), size)
            <==> exists j: nat :: j < |log| && log[j] == e && OnPage(log, j, first, last, size)
  {
    if log != [] {
      var n := |log| - 1;
      var front := log[..n];
      var before := EventsBetween(front, first, last);
      PageExactly(front, first, last, size, e);
      if OnPage(log, n, first, last, size) {
        assert Page(EventsBetween(log, first, last), size) == before + [log[n]];
        assert Page(before, size) == before;
      } else {
        assert Page(EventsBetween(log, first, last), size) == Page(before, size);
      }
      forall j: nat | j < n
        ensures log[j] == front[j] && OnPage(log, j, first, last, size) == OnPage(front, j, first, last, size)
      {
        assert log[..j] == front[..j];
      }
    }
  }

  /** A poll at a cursor is answered with a page that holds the announcement. */
  ghost predicate Shown(before: nat, p: Poll, log: seq<OutEvent>, e: OutEvent) {
    && Answered(before, p)
    && exists j: nat :: j < |log| && log[j] == e && OnPage(log, j, before + 1, p.serverLedger, p.page)
  }

  lemma HeardExactly(before: nat, p: Poll, log: seq<OutEvent>, e: OutEvent)
    ensures e in Heard(before, p, log) <==> Parses(e) && Shown(before, p, log, e)
  {
    ParsedExactly(Response(before, p, log), e);
    PageExactly(log, before + 1, p.serverLedger, p.page, e);
  }

  /** Poll k of a sequence shows the announcement. */
  ghost predicate ShownAt(start: nat, polls: seq<Poll>, log: seq<OutEvent>, k: nat, e: OutEvent)
    requires k < |polls|
  {
    Shown(Cursor(start, polls[..k]), polls[k], log, e)
  }

  ghost predicate ShownBySome(start: nat, polls: seq<Poll>, log: seq<OutEvent>, e: OutEvent) {
    exists k: nat :: k < |polls| && ShownAt(start, polls, log, k, e)
  }

  lemma ShownByMore(start: nat, polls: seq<Poll>, log: seq<OutEvent>, e: OutEvent)
    requires polls != []
    ensures var n := |polls| - 1;
            ShownBySome(start, polls, log, e)
            <==> ShownBySome(start, polls[..n], log, e) || Shown(Cursor(start, polls[..n]), polls[n], log, e)
  {
    var n := |polls| - 1;
    var front := polls[..n];
    forall k: nat | k < n
      ensures ShownAt(start, polls, log, k, e) == ShownAt(start, front, log, k, e)
    {
      assert polls[..k] == front[..k];
    }
    assert ShownAt(start, polls, log, n, e) == Shown(Cursor(start, front), polls[n], log, e);
  }

  /**
   An announcement is handed on if and only if its sender is an account and some answered poll,
   whose cursor has not passed its ledger, has it on the page it reads.
   */
  lemma {:induction false} HandedOnExactly(start: nat, polls: seq<Poll>, log: seq<OutEvent>, e: OutEvent)
    ensures e in AllHeard(start, polls, log) <==> Parses(e) && ShownBySome(start, polls, log, e)
    decreases |polls|
  {
    if polls != [] {
      var n := |polls| - 1;
      var front := polls[..n];
      HandedOnExactly(start, front, log, e);
      HeardExactly(Cursor(start, front), polls[n], log, e);
      ShownByMore(start, polls, log, e);
      hide Parses, Shown, ShownBySome, Heard, Cursor;
    }
  }

  // ---------- What is lost ----------

  lemma {:induction false} CursorGrows(start: nat, polls: seq<Poll>, k: nat)
    requires k <= |polls| && start != 0
    ensures 0 != Cursor(start, polls[..k]) <= Cursor(start, polls)
    decreases |polls|
  {
    if k == |polls| {
      assert polls[..k] == polls;
      if k > 0 {
        CursorGrows(start, polls[..k - 1], k - 1);
        assert polls[..k - 1][..k - 1] == polls[..k - 1];
      }
    } else {
      CursorGrows(start, polls[..|polls| - 1], k);
      assert polls[..|polls| - 1][..k] == polls[..k];
    }
  }

  /** After the first poll the cursor is the latest ledger any poll has named. */
  lemma {:induction false} CursorIsLatest(start: nat, polls: seq<Poll>)
    requires start != 0
    ensures Cursor(start, polls) >= start && forall k | 0 <= k < |polls| :: Cursor(start, polls) >= polls[k].latest
    ensures Cursor(start, polls) == start || exists k | 0 <= k < |polls| :: Cursor(start, polls) == polls[k].latest
  {
    if polls != [] {
      CursorIsLatest(start, polls[..|polls| - 1]);
    }
  }

  /** Poll k is the one that moves the cursor over a ledger. */
  predicate Passes(start: nat, polls: seq<Poll>, k: nat, ledger: nat)
    requires k < |polls|
  {
    Cursor(start, polls[..k]) < ledger <= polls[k].latest
  }

  /** A ledger the cursor has passed was passed by some poll. */
  lemma {:induction false} PassedBySome(start: nat, polls: seq<Poll>, ledger: nat)
    requires start < ledger <= Cursor(start, polls)
    ensures exists k: nat :: k < |polls| && Passes(start, polls, k, ledger)
    decreases |polls|
  {
    var n := |polls| - 1;
    var front := polls[..n];
    if ledger <= Cursor(start, front) {
      PassedBySome(start, front, ledger);
      var k: nat :| k < n && Passes(start, front, k, ledger);
      assert front[..k] == polls[..k];
      assert Passes(start, polls, k, ledger);
    } else {
      assert Passes(start, polls, n, ledger);
    }
  }

  /**
   What is handed on is real and new. Of the announcements the cursor has passed, one is lost only
   when its sender is a contract, or when the poll that passed its ledger failed or cut its page
   before it.
   */
  lemma NothingElseLost(start: nat, polls: seq<Poll>, log: seq<OutEvent>, j: nat)
    requires start != 0 && j < |log|
    requires forall k | 0 <= k < |polls| :: polls[k].latest <= polls[k].serverLedger
    ensures log[j] in AllHeard(start, polls, log) ==> start < log[j].ledger
    ensures start < log[j].ledger <= Cursor(start, polls) && log[j] !in AllHeard(start, polls, log) ==>
              || !Parses(log[j])
              || exists k: nat :: k < |polls| && Passes(start, polls, k, log[j].ledger)
                   && (!polls[k].reachable || CutsOff(start, polls, log, k, j))
  {
    var e := log[j];
    HandedOnExactly(start, polls, log, e);
    if e in AllHeard(start, polls, log) {
      var k: nat :| k < |polls| && ShownAt(start, polls, log, k, e);
      CursorGrows(start, polls[..k], 0);
    } else if start < e.ledger <= Cursor(start, polls) && Parses(e) {
      PassedBySome(start, polls, e.ledger);
      var k: nat :| k < |polls| && Passes(start, polls, k, e.ledger);
      CursorGrows(start, polls, k);
      assert !ShownAt(start, polls, log, k, e);
      assert !polls[k].reachable || CutsOff(start, polls, log, k, j);
    }
  }

  /** The page poll k reads is full before entry j. */
  predicate CutsOff(start: nat, polls: seq<Poll>, log: seq<OutEvent>, k: nat, j: nat)
    requires k < |polls| && j < |log|
  {
    |EventsBetween(log[..j], Cursor(start, polls[..k]) + 1, polls[k].serverLedger)| >= polls[k].page
  }

  /** An announcement of a contract, or of anything but an account, is never handed on, though every poll may be answered in full. */
  lemma ContractSendersAreLost(start: nat, polls: seq<Poll>, log: seq<OutEvent>, e: OutEvent)
    requires e.sender == "" || e.sender[0] != 'G'
    ensures e !in AllHeard(start, polls, log)
  {
    HandedOnExactly(start, polls, log, e);
  }

  function Announced(sender: Address, nonce: int): OutEvent {
    OutEvent(sender, seq(EVM_ADDRESS_LENGTH, _ => 0), 1, nonce, CHAIN_ETHEREUM, [], 3)
  }

  /**
   One loss for each cause, from a cursor at ledger 1 and an announcement at ledger 3: a contract
   as its sender, a failed poll, and a page of one event. The next poll does not bring it back.
   */
  lemma AnnouncementsCanBeLost()
    ensures var polls := [Poll(5, 5, 100, true), Poll(9, 9, 100, true)];
            Cursor(1, polls) == 9 && AllHeard(1, polls, [Announced("CABC", 1)]) == []
    ensures var polls := [Poll(5, 5, 100, false), Poll(9, 9, 100, true)];
            Cursor(1, polls) == 9 && AllHeard(1, polls, [Announced("GABC", 1)]) == []
    ensures var polls := [Poll(5, 5, 1, true), Poll(9, 9, 1, true)];
            Cursor(1, polls) == 9
            && AllHeard(1, polls, [Announced("GABC", 1), Announced("GABC", 2)]) == [Announced("GABC", 1)]
  {
  }

  // ---------- The two ledgers under the relay ----------

  function IndexOf(out: seq<OutEvent>, e: OutEvent): (i: nat)
    requires e in out
    ensures i < |out| && out[i] == e
  {
    if out[|out| - 1] == e then |out| - 1 else IndexOf(out[..|out| - 1], e)
  }

  /** The mints the loop asks for: one delivery per event handed on. */
  function Mints(out: seq<OutEvent>, events: seq<OutEvent>): seq<Action>
    requires forall e | e in events :: e in out
  {
    if events == [] then [] else [DeliverOut(IndexOf(out, events[0]))] + Mints(out, events[1..])
  }

  predicate Minted(sys: System, e: OutEvent) {
    (e.chain, e.txHash) in sys.minted
  }

  /** Deliveries mint the hash of every event handed on, and keep the safety invariant. */
  lemma {:induction false} RelayMints(sys: System, events: seq<OutEvent>)
    requires Inv(sys) && forall e | e in events :: e in sys.out
    ensures var sys' := Run(sys, Mints(sys.out, events));
            && Inv(sys') && sys'.out == sys.out && sys.minted <= sys'.minted
            && forall e | e in events :: Minted(sys', e)
    decreases |events|
  {
    if events != [] {
      var a := DeliverOut(IndexOf(sys.out, events[0]));
      var next := Step(sys, a);
      StepKeeps(sys, a);
      assert next.out == sys.out && sys.minted <= next.minted && Minted(next, events[0]);
      hide Inv, Step;
      assert Mints(sys.out, events)[1..] == Mints(sys.out, events[1..]);
      RelayMints(next, events[1..]);
    }
  }

  /**
   From the Stellar log to the EVM side: after the deliveries of what the loop handed on, the
   invariant holds, and the hash of every announcement by an account shown by some answered poll is
   minted.
   */
  lemma ShownIsMinted(sys: System, start: nat, polls: seq<Poll>)
    requires Inv(sys)
    ensures forall e | e in AllHeard(start, polls, sys.out) :: e in sys.out
    ensures var sys' := Run(sys, Mints(sys.out, AllHeard(start, polls, sys.out)));
            && Inv(sys')
            && forall e | Parses(e) && ShownBySome(start, polls, sys.out, e) :: Minted(sys', e)
  {
    var events := AllHeard(start, polls, sys.out);
    forall e
      ensures e in events <==> Parses(e) && ShownBySome(start, polls, sys.out, e)
      ensures e in events ==> e in sys.out
    {
      HandedOnExactly(start, polls, sys.out, e);
    }
    RelayMints(sys, events);
  }
}
