/**
 Who gets a turn in a block. The checks both loops make are against the state frozen at its start
 and against votes, so the transactions handed to the state transition are known beforehand; what
 becomes of the block is what becomes of applying them in order.
 */
module Turns {
  import opened Types
  import opened Gas
  import opened Ledger
  import opened Ballots
  import opened Processor

  // ---------- The first loop ----------

  /** May the author's ack for this transaction be counted? */
  predicate Countable(n: NodeState, tx: Transaction)
  {
    ValidateAck(n.settings, n.detached, n.expected, tx, false).None?
  }

  /** The ballots after the first `k` transactions of a block. */
  ghost function VotesAfter(n: NodeState, b: Block, k: nat): Ballots
    requires k <= |b.txs|
  {
    if k == 0 then n.ballots else
    var tx, before := b.txs[k - 1], VotesAfter(n, b, k - 1);
    if tx.signer.Some? && Countable(n, tx) then Cast(before, SlotOf(tx), b.author, HashOf(tx)) else before
  }

  /** The `k`-th ack is counted and leaves its transaction confirmed. */
  ghost predicate AckConfirms(c: Chain, n: NodeState, b: Block, k: nat)
    requires k < |b.txs| && b.txs[k].signer.Some?
  {
    Countable(n, b.txs[k]) && Confirms(c, n.(ballots := VotesAfter(n, b, k)), b.txs[k], b.author)
  }

  /** What the first loop hands over: what is confirmed and applicable, and what carries no signature. */
  ghost predicate AckDue(c: Chain, n: NodeState, b: Block, k: nat)
    requires k < |b.txs|
  {
    b.txs[k].signer.Some? ==>
      AckConfirms(c, n, b, k) && ValidateTx(n.settings, n.detached, b.txs[k], false).None?
  }

  ghost function AckTurns(c: Chain, n: NodeState, b: Block, k: nat): seq<Transaction>
    requires k <= |b.txs|
  {
    if k == 0 then [] else AckTurns(c, n, b, k - 1) + if AckDue(c, n, b, k - 1) then [b.txs[k - 1]] else []
  }

  // ---------- The second loop ----------

  /** What the second loop hands over: what is applicable, and what carries no signature. */
  function Due(p: Settings, w: World, txs: seq<Transaction>): seq<Transaction>
  {
    if txs == [] then [] else
    var tx := txs[|txs| - 1];
    Due(p, w, txs[..|txs| - 1]) + if Admitted(p, w, tx) then [tx] else []
  }

  ghost function TurnsOf(c: Chain, n: NodeState, b: Block): seq<Transaction>
  {
    AckTurns(c, n, b, |b.txs|) + Due(n.settings, n.detached, n.confirmed)
  }

  ghost function LedgerOf(c: Chain, n: NodeState, b: Block, txs: seq<Transaction>): Ledger
  {
    ApplyAll(c.evm, c.rules, Opening(n.detached, b.gasLimit), txs)
  }

  /** Everything from the end of the old list on waits for money or for predecessors. */
  ghost predicate Queue(n: NodeState, confirmed: seq<Transaction>)
  {
    && n.confirmed <= confirmed
    && forall i :: |n.confirmed| <= i < |confirmed| ==> Retained(n.settings, n.detached, confirmed[i])
  }

  /** What both loops leave as it was at the start of the block. */
  ghost predicate Frozen(n: NodeState, r: BlockRun)
  {
    && r.node.settings == n.settings && r.node.expected == n.expected
    && r.node.current == n.detached && r.node.detached == n.detached
  }

  /** Where the first loop is after `k` transactions: its votes and its ledger. */
  ghost predicate TurnsTaken(c: Chain, n: NodeState, b: Block, k: nat, r: BlockRun)
    requires k <= |b.txs|
  {
    && Frozen(n, r)
    && r.ledger == LedgerOf(c, n, b, AckTurns(c, n, b, k))
    && (r.ledger.err.None? ==> r.node.ballots == VotesAfter(n, b, k))
  }

  /** Where the first loop has put what it confirmed. */
  ghost predicate AcksQueued(n: NodeState, r: BlockRun)
  {
    && Frozen(n, r)
    && Queue(n, r.node.confirmed)
    && (forall tx :: tx in r.acks ==>
          ValidateTx(n.settings, n.detached, tx, false).None? || tx in r.node.confirmed)
  }

  /** An ack that counts but cannot be applied waits for money or for predecessors. */
  lemma CountableWaits(n: NodeState, tx: Transaction)
    requires Countable(n, tx)
    ensures tx.signer.Some?
    ensures ValidateTx(n.settings, n.detached, tx, false).Some? ==> Retained(n.settings, n.detached, tx)
  {
    hide CheckIntrinsic, Fee;
    AckedIsAlmostApplicable(n.settings, n.detached, n.expected, tx, false, n.detached);
  }

  lemma LedgerStep(c: Chain, n: NodeState, b: Block, txs: seq<Transaction>, tx: Transaction)
    ensures LedgerOf(c, n, b, txs + [tx]) == Apply(c.evm, c.rules, LedgerOf(c, n, b, txs), tx)
    ensures LedgerOf(c, n, b, txs).err.Some? ==> LedgerOf(c, n, b, txs + [tx]) == LedgerOf(c, n, b, txs)
    ensures LedgerOf(c, n, b, txs + []) == LedgerOf(c, n, b, txs)
  {
    hide Transition;
    ApplyAllSnoc(c.evm, c.rules, Opening(n.detached, b.gasLimit), txs, tx);
    assert txs + [] == txs;
  }

  lemma AckTurn(c: Chain, n: NodeState, b: Block, k: nat, r: BlockRun)
    requires k < |b.txs| && TurnsTaken(c, n, b, k, r)
    ensures TurnsTaken(c, n, b, k + 1, AckStep(c, r, b.author, b.txs[k]))
  {
    hide ValidateAck, ValidateTx, Apply, LedgerOf, Cast, Retained, Weight, Voters;
    var tx := b.txs[k];
    LedgerStep(c, n, b, AckTurns(c, n, b, k), tx);
    if r.ledger.err.None? && tx.signer.Some? {
      assert Confirms(c, n.(ballots := VotesAfter(n, b, k)), tx, b.author) <==> Confirms(c, r.node, tx, b.author);
    }
  }

  lemma AckQueues(c: Chain, n: NodeState, r: BlockRun, author: Address, tx: Transaction)
    requires AcksQueued(n, r)
    ensures AcksQueued(n, AckStep(c, r, author, tx))
  {
    hide ValidateAck, ValidateTx, Apply, Cast, Retained, Confirms;
    if Countable(n, tx) { CountableWaits(n, tx); }
  }

  lemma {:induction false} AcksTaken(c: Chain, n: NodeState, b: Block, k: nat)
    requires k <= |b.txs|
    ensures var r := AckLoop(c, Open(n, b.gasLimit), b.author, b.txs[..k]);
      TurnsTaken(c, n, b, k, r) && AcksQueued(n, r)
    decreases k
  {
    hide TurnsTaken, AcksQueued, AckStep;
    if k == 0 {
      OpenIsStart(c, n, b);
    } else {
      assert b.txs[..k][..k - 1] == b.txs[..k - 1];
      AcksTaken(c, n, b, k - 1);
      var r := AckLoop(c, Open(n, b.gasLimit), b.author, b.txs[..k - 1]);
      AckTurn(c, n, b, k - 1, r);
      AckQueues(c, n, r, b.author, b.txs[k - 1]);
    }
  }

  lemma OpenIsStart(c: Chain, n: NodeState, b: Block)
    ensures TurnsTaken(c, n, b, 0, Open(n, b.gasLimit)) && AcksQueued(n, Open(n, b.gasLimit))
  {
  }

  lemma AllAcksTaken(c: Chain, n: NodeState, b: Block)
    ensures TurnsTaken(c, n, b, |b.txs|, AcksOf(c, n, b)) && AcksQueued(n, AcksOf(c, n, b))
  {
    hide TurnsTaken, AcksQueued;
    AcksTaken(c, n, b, |b.txs|);
    assert b.txs[..|b.txs|] == b.txs;
  }

  // ---------- Both loops ----------

  /** The second loop follows the list the first one left, whatever it has overwritten by then. */
  lemma {:induction false} RetriesTaken(c: Chain, n: NodeState, b: Block, i: nat)
    requires i <= |AcksOf(c, n, b).node.confirmed|
    ensures var r := AcksOf(c, n, b);
      RetryLoop(c, r, i).run.ledger ==
        LedgerOf(c, n, b, AckTurns(c, n, b, |b.txs|) + Due(n.settings, n.detached, r.node.confirmed[..i]))
    decreases i
  {
    var r := AcksOf(c, n, b);
    var turns := AckTurns(c, n, b, |b.txs|);
    hide AckLoop, LedgerOf, Queue;
    AllAcksTaken(c, n, b);
    if i == 0 {
      assert turns + Due(n.settings, n.detached, []) == turns;
    } else {
      RetriesTaken(c, n, b, i - 1);
      RetryTurn(c, n, b, r, turns, i);
    }
  }

  lemma RetryTurn(c: Chain, n: NodeState, b: Block, r: BlockRun, turns: seq<Transaction>, i: nat)
    requires 0 < i <= |r.node.confirmed| && Frozen(n, r)
    requires RetryLoop(c, r, i - 1).run.ledger ==
      LedgerOf(c, n, b, turns + Due(n.settings, n.detached, r.node.confirmed[..i - 1]))
    ensures RetryLoop(c, r, i).run.ledger ==
      LedgerOf(c, n, b, turns + Due(n.settings, n.detached, r.node.confirmed[..i]))
  {
    hide ValidateTx, Apply, LedgerOf, Kept, ApplyAll;
    var s, tx := RetryLoop(c, r, i - 1), r.node.confirmed[i - 1];
    var before := turns + Due(n.settings, n.detached, r.node.confirmed[..i - 1]);
    DueSnoc(n, turns, r.node.confirmed, i);
    LedgerStep(c, n, b, before, tx);
    hide Due;
    if s.run.ledger.err.None? {
      CompactionIsFilter(c, r, i - 1);
      assert s.run.node.confirmed[i - 1] == s.run.node.confirmed[s.kept..][i - 1 - s.kept] == tx;
      TurnOrNot(c, s, i - 1, n);
    }
  }

  lemma DueSnoc(n: NodeState, turns: seq<Transaction>, txs: seq<Transaction>, i: nat)
    requires 0 < i <= |txs|
    ensures turns + Due(n.settings, n.detached, txs[..i]) ==
      turns + Due(n.settings, n.detached, txs[..i - 1]) +
      if Admitted(n.settings, n.detached, txs[i - 1]) then [txs[i - 1]] else []
  {
    assert txs[..i][..i - 1] == txs[..i - 1];
  }

  lemma TurnOrNot(c: Chain, s: Retry, i: nat, n: NodeState)
    requires s.kept <= i < |s.run.node.confirmed| && s.run.ledger.err.None?
    requires s.run.node.settings == n.settings && s.run.node.current == n.detached
    ensures var tx := s.run.node.confirmed[i];
      RetryStep(c, s, i).run.ledger ==
        if Admitted(n.settings, n.detached, tx) then Apply(c.evm, c.rules, s.run.ledger, tx) else s.run.ledger
  {
    hide ValidateTx, Apply;
  }

  lemma {:induction false} NoneDue(p: Settings, w: World, txs: seq<Transaction>, k: nat)
    requires k <= |txs| && forall i :: k <= i < |txs| ==> Retained(p, w, txs[i])
    ensures Due(p, w, txs) == Due(p, w, txs[..k])
    decreases |txs|
  {
    if k == |txs| {
      assert txs[..k] == txs;
    } else {
      var front := txs[..|txs| - 1];
      RetainedIsSigned(p, w, txs[|txs| - 1]);
      hide ValidateTx;
      NoneDue(p, w, front, k);
      assert front[..k] == txs[..k];
    }
  }

  /** A block does what applying its turns in order does. */
  lemma TurnsDecide(c: Chain, n: NodeState, b: Block)
    ensures Process(c, n, b).ledger == LedgerOf(c, n, b, TurnsOf(c, n, b))
  {
    hide AckLoop, RetryLoop, LedgerOf, Due, ValidateTx;
    var r := AcksOf(c, n, b);
    var k := |r.node.confirmed|;
    AllAcksTaken(c, n, b);
    RetriesTaken(c, n, b, k);
    assert Process(c, n, b).ledger == RetryLoop(c, r, k).run.ledger;
    assert r.node.confirmed[..k] == r.node.confirmed;
    NoneDue(n.settings, n.detached, r.node.confirmed, |n.confirmed|);
    assert r.node.confirmed[..|n.confirmed|] == n.confirmed;
  }

  lemma {:induction false} DueMembers(p: Settings, w: World, txs: seq<Transaction>)
    ensures forall tx :: tx in Due(p, w, txs) <==> tx in txs && Admitted(p, w, tx)
  {
    hide Admitted;
    if txs != [] { DueMembers(p, w, txs[..|txs| - 1]); }
  }

  lemma {:induction false} AckTurnsAdmitted(c: Chain, n: NodeState, b: Block, k: nat)
    requires k <= |b.txs|
    ensures forall tx :: tx in AckTurns(c, n, b, k) ==> Admitted(n.settings, n.detached, tx)
    decreases k
  {
    if k > 0 {
      AckTurnsAdmitted(c, n, b, k - 1);
      hide ValidateTx, AckConfirms;
    }
  }

  /** Only what was admitted against the frozen state has a turn. */
  lemma TurnsAdmitted(c: Chain, n: NodeState, b: Block)
    ensures forall tx :: tx in TurnsOf(c, n, b) ==> Admitted(n.settings, n.detached, tx)
  {
    hide Admitted, Due, AckTurns;
    AckTurnsAdmitted(c, n, b, |b.txs|);
    DueMembers(n.settings, n.detached, n.confirmed);
  }

  // ---------- Acks that confirm ----------

  lemma {:induction false} AcksGrow(c: Chain, r: BlockRun, author: Address, txs: seq<Transaction>, k: nat)
    requires k <= |txs|
    ensures AckLoop(c, r, author, txs[..k]).acks <= AckLoop(c, r, author, txs).acks
    decreases |txs|
  {
    if k == |txs| {
      assert txs[..k] == txs;
    } else {
      var front := txs[..|txs| - 1];
      assert front[..k] == txs[..k];
      AcksGrow(c, r, author, front, k);
      hide ValidateAck, ValidateTx, Confirms, Cast, Apply;
    }
  }

  /** An ack that confirms while the first loop is still going is among the block's acks. */
  lemma AckedAt(c: Chain, n: NodeState, b: Block, k: nat)
    requires k < |b.txs| && b.txs[k].signer.Some? && AckConfirms(c, n, b, k)
    requires LedgerOf(c, n, b, AckTurns(c, n, b, k)).err.None?
    ensures b.txs[k] in Process(c, n, b).acks
  {
    hide AckStep, RetryLoop, LedgerOf, Confirms, Countable, ValidateTx;
    var r0, tx := Open(n, b.gasLimit), b.txs[k];
    AcksTaken(c, n, b, k);
    AcksGrow(c, r0, b.author, b.txs, k + 1);
    var r := AckLoop(c, r0, b.author, b.txs[..k]);
    assert b.txs[..k + 1][..k] == b.txs[..k];
    assert AckLoop(c, r0, b.author, b.txs[..k + 1]) == AckStep(c, r, b.author, tx);
    RetryKeepsAcks(c, AcksOf(c, n, b), |AcksOf(c, n, b).node.confirmed|);
    hide AckLoop;
    ConfirmingStep(c, n, r, b, k);
  }

  lemma ConfirmingStep(c: Chain, n: NodeState, r: BlockRun, b: Block, k: nat)
    requires k < |b.txs| && b.txs[k].signer.Some? && AckConfirms(c, n, b, k)
    requires Frozen(n, r) && r.ledger.err.None? && r.node.ballots == VotesAfter(n, b, k)
    ensures b.txs[k] in AckStep(c, r, b.author, b.txs[k]).acks
  {
    hide ValidateAck, ValidateTx, Apply, Cast, Weight, Voters;
  }

  // ---------- Blocks with a single ack ----------

  lemma {:induction false} RetryKeepsBallots(c: Chain, r: BlockRun, i: nat)
    requires i <= |r.node.confirmed|
    ensures RetryLoop(c, r, i).run.node.ballots == r.node.ballots
  {
    if i > 0 {
      hide ValidateTx, Apply;
      RetryKeepsBallots(c, r, i - 1);
    }
  }

  lemma {:induction false} KeptWhole(p: Settings, w: World, txs: seq<Transaction>)
    requires forall tx :: tx in txs ==> Retained(p, w, tx)
    ensures Kept(p, w, txs) == txs
  {
    hide Retained;
    if txs != [] {
      KeptWhole(p, w, txs[..|txs| - 1]);
      assert txs == txs[..|txs| - 1] + [txs[|txs| - 1]];
    }
  }

  /** The turns and the list when one ack confirms and everything listed waits. */
  lemma SingleAck(c: Chain, n: NodeState, b: Block)
    requires |b.txs| == 1 && b.txs[0].signer.Some? && AckConfirms(c, n, b, 0)
    requires forall tx :: tx in n.confirmed ==> Retained(n.settings, n.detached, tx)
    ensures var tx := b.txs[0]; var now := ValidateTx(n.settings, n.detached, tx, false).None?;
      && TurnsOf(c, n, b) == (if now then [tx] else [])
      && AcksOf(c, n, b).node.confirmed == n.confirmed + (if now then [] else [tx])
      && (!now ==> Retained(n.settings, n.detached, tx))
  {
    hide ValidateAck, ValidateTx, Retained, Cast, Weight, Voters, Apply;
    var tx, r0 := b.txs[0], Open(n, b.gasLimit);
    CountableWaits(n, tx);
    assert b.txs[..0] == [] && b.txs == [tx];
    assert AckLoop(c, r0, b.author, []) == r0;
    assert AcksOf(c, n, b) == AckStep(c, r0, b.author, tx);
    assert AckTurns(c, n, b, 0) == [];
    NoneDue(n.settings, n.detached, n.confirmed, 0);
    assert Due(n.settings, n.detached, []) == [];
    assert VotesAfter(n, b, 0) == n.ballots;
    assert Confirms(c, r0.node, tx, b.author) <==> Confirms(c, n.(ballots := n.ballots), tx, b.author);
  }

  /** What such a block does to a node. */
  lemma SingleAckImport(c: Chain, n: NodeState, b: Block)
    requires |b.txs| == 1 && b.txs[0].signer.Some? && AckConfirms(c, n, b, 0)
    requires forall tx :: tx in n.confirmed ==> Retained(n.settings, n.detached, tx)
    requires LedgerOf(c, n, b, TurnsOf(c, n, b)).err.None?
    ensures var tx := b.txs[0]; var now := ValidateTx(n.settings, n.detached, tx, false).None?;
      && Succeeds(c, n, b)
      && Import(c, n, b) == n.(
           current := n.detached,
           detached := LedgerOf(c, n, b, if now then [tx] else []).world,
           ballots := Cast(n.ballots, SlotOf(tx), b.author, HashOf(tx)),
           confirmed := n.confirmed + if now then [] else [tx])
  {
    hide ValidateTx, Retained, Cast, LedgerOf, Kept, Confirms, Countable, RetryLoop, AckLoop, TurnsOf;
    var r := AcksOf(c, n, b);
    SingleAck(c, n, b);
    TurnsDecide(c, n, b);
    ProcessCompaction(c, n, b);
    KeptWhole(n.settings, n.detached, r.node.confirmed);
    ProcessInv(c, n, b);
    AllAcksTaken(c, n, b);
    RetryKeepsBallots(c, r, |r.node.confirmed|);
    NoErrorBefore(c, n, b);
    SingleAckVotes(c, n, b, r);
    hide ApplyAll, Extends;
  }

  lemma NoErrorBefore(c: Chain, n: NodeState, b: Block)
    requires Succeeds(c, n, b)
    ensures AcksOf(c, n, b).ledger.err.None?
  {
    hide AckLoop;
    var r := AcksOf(c, n, b);
    if r.ledger.err.Some? { ErrorFreezes(c, r, 0, |r.node.confirmed|); }
  }

  lemma SingleAckVotes(c: Chain, n: NodeState, b: Block, r: BlockRun)
    requires |b.txs| == 1 && b.txs[0].signer.Some? && Countable(n, b.txs[0])
    requires TurnsTaken(c, n, b, 1, r) && r.ledger.err.None?
    ensures r.node.ballots == Cast(n.ballots, SlotOf(b.txs[0]), b.author, HashOf(b.txs[0]))
  {
    hide Cast, Countable, LedgerOf;
    assert VotesAfter(n, b, 0) == n.ballots;
  }
}
