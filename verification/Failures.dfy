/**
 Which confirmed transactions a block loses. A block without error drops those it would refuse for
 more than money or predecessors. When a block fails the state is rolled back, but not the list of
 confirmed transactions: the retry loop has already moved waiting entries to its front, and what
 the first loop applied was never put there. Either way it is known before the block is processed.
 */
module Failures {
  import opened Types
  import opened Ledger
  import opened Processor
  import opened Turns
  import opened Network
  import opened Retention

  // ---------- Where a block fails ----------

  /** The ledger once the acks of a block and the first `i` old entries of the list had their turns. */
  ghost function LedgerAt(c: Chain, n: NodeState, b: Block, i: nat): Ledger
    requires i <= |n.confirmed|
  {
    LedgerOf(c, n, b, AckTurns(c, n, b, |b.txs|) + Due(n.settings, n.detached, n.confirmed[..i]))
  }

  /** The first entry from `i` on whose turn the ledger does not survive. */
  ghost function StopsFrom(c: Chain, n: NodeState, b: Block, i: nat): (f: nat)
    requires i <= |n.confirmed|
    ensures i <= f <= |n.confirmed|
    decreases |n.confirmed| - i
  {
    if i == |n.confirmed| || LedgerAt(c, n, b, i + 1).err.Some? then i else StopsFrom(c, n, b, i + 1)
  }

  ghost function StopsAt(c: Chain, n: NodeState, b: Block): nat { StopsFrom(c, n, b, 0) }

  lemma {:induction false} StopsFromIsFirst(c: Chain, n: NodeState, b: Block, i: nat)
    requires i <= |n.confirmed|
    ensures var f := StopsFrom(c, n, b, i);
      && (f < |n.confirmed| ==> LedgerAt(c, n, b, f + 1).err.Some?)
      && (i < f ==> LedgerAt(c, n, b, f).err.None?)
    decreases |n.confirmed| - i
  {
    hide LedgerAt;
    if i < |n.confirmed| && LedgerAt(c, n, b, i + 1).err.None? {
      StopsFromIsFirst(c, n, b, i + 1);
    }
  }

  /** How many waiting entries lie before that one: as many places at the front have been overwritten. */
  ghost function Written(c: Chain, n: NodeState, b: Block): (k: nat)
    ensures k <= StopsAt(c, n, b) <= |n.confirmed|
  {
    KeptShorter(n.settings, n.detached, n.confirmed[..StopsAt(c, n, b)]);
    |Kept(n.settings, n.detached, n.confirmed[..StopsAt(c, n, b)])|
  }

  lemma {:induction false} KeptShorter(p: Settings, w: World, txs: seq<Transaction>)
    ensures |Kept(p, w, txs)| <= |txs|
  {
    hide Retained;
    if txs != [] { KeptShorter(p, w, txs[..|txs| - 1]); }
  }

  lemma LedgerFreezes(c: Chain, n: NodeState, b: Block, i: nat)
    requires i < |n.confirmed| && LedgerAt(c, n, b, i).err.Some?
    ensures LedgerAt(c, n, b, i + 1).err.Some?
  {
    hide LedgerOf, Admitted;
    var before := AckTurns(c, n, b, |b.txs|) + Due(n.settings, n.detached, n.confirmed[..i]);
    DueSnoc(n, AckTurns(c, n, b, |b.txs|), n.confirmed, i + 1);
    LedgerStep(c, n, b, before, n.confirmed[i]);
  }

  lemma {:induction false} FreezesOn(c: Chain, n: NodeState, b: Block, i: nat, k: nat)
    requires i <= k <= |n.confirmed| && LedgerAt(c, n, b, i).err.Some?
    ensures LedgerAt(c, n, b, k).err.Some?
    decreases k - i
  {
    hide LedgerAt;
    if i < k {
      LedgerFreezes(c, n, b, i);
      FreezesOn(c, n, b, i + 1, k);
    }
  }

  lemma StopsExactly(c: Chain, n: NodeState, b: Block, j: nat)
    requires j < |n.confirmed| && LedgerAt(c, n, b, j).err.None? && LedgerAt(c, n, b, j + 1).err.Some?
    ensures StopsAt(c, n, b) == j
  {
    hide LedgerAt;
    StopsFromIsFirst(c, n, b, 0);
    var f := StopsAt(c, n, b);
    if f < j { FreezesOn(c, n, b, f + 1, j); }
    if f > j { FreezesOn(c, n, b, j + 1, f); }
  }

  /** The second loop's ledger, as long as it goes through old entries. */
  lemma RetryLedger(c: Chain, n: NodeState, b: Block, i: nat)
    requires i <= |n.confirmed|
    ensures var r := AcksOf(c, n, b);
      && n.confirmed <= r.node.confirmed && r.node.confirmed[..i] == n.confirmed[..i]
      && RetryLoop(c, r, i).run.ledger == LedgerAt(c, n, b, i)
  {
    hide AckLoop, RetryLoop, LedgerOf, Due, Retained;
    AllAcksTaken(c, n, b);
    RetriesTaken(c, n, b, i);
  }

  /** A block fails exactly when some turn fails, be it in the first loop or for an old entry. */
  lemma FailsWithin(c: Chain, n: NodeState, b: Block)
    requires !Succeeds(c, n, b)
    ensures LedgerAt(c, n, b, 0).err.Some? || StopsAt(c, n, b) < |n.confirmed|
  {
    hide Process, LedgerOf, Due;
    TurnsDecide(c, n, b);
    StopsFromIsFirst(c, n, b, 0);
    assert n.confirmed[..|n.confirmed|] == n.confirmed;
    assert !LedgerAt(c, n, b, |n.confirmed|).err.None?;
  }

  // ---------- What it leaves ----------

  /**
   What a failing block leaves of the list: the waiting entries before the one that failed, and then
   the old list from their number on, with the new acks that wait at its end. Nothing else changes
   but votes.
   */
  lemma FailureLeaves(c: Chain, n: NodeState, b: Block)
    requires !Succeeds(c, n, b)
    ensures var queue, n' := AcksOf(c, n, b).node.confirmed, Import(c, n, b);
      && Queue(n, queue)
      && n'.confirmed == Kept(n.settings, n.detached, n.confirmed[..StopsAt(c, n, b)]) + queue[Written(c, n, b)..]
      && n'.detached == n.detached && n'.settings == n.settings && n'.expected == n.expected
  {
    hide Process, AcksOf, Import, Kept, LedgerAt, StopsFrom, Queue;
    FailureFreezes(c, n, b);
    AllAcksTaken(c, n, b);
    FailsWithin(c, n, b);
    if LedgerAt(c, n, b, 0).err.Some? {
      AckLoopFails(c, n, b);
    } else {
      StopsFromIsFirst(c, n, b, 0);
      RetryFails(c, n, b, StopsAt(c, n, b));
    }
  }

  lemma FailureFreezes(c: Chain, n: NodeState, b: Block)
    requires !Succeeds(c, n, b)
    ensures var n' := Import(c, n, b);
      n'.detached == n.detached && n'.settings == n.settings && n'.expected == n.expected
  {
    hide Process;
    ProcessInv(c, n, b);
  }

  /** A failure in the first loop leaves the list as that loop left it. */
  lemma AckLoopFails(c: Chain, n: NodeState, b: Block)
    requires LedgerAt(c, n, b, 0).err.Some?
    ensures Import(c, n, b).confirmed == AcksOf(c, n, b).node.confirmed
    ensures StopsAt(c, n, b) == 0 && Written(c, n, b) == 0 && Kept(n.settings, n.detached, n.confirmed[..0]) == []
  {
    hide AckLoop, LedgerAt, Kept;
    var r := AcksOf(c, n, b);
    RetryLedger(c, n, b, 0);
    StopsAtOnce(c, n, b);
    ErrorFreezes(c, r, 0, |r.node.confirmed|);
  }

  lemma StopsAtOnce(c: Chain, n: NodeState, b: Block)
    requires LedgerAt(c, n, b, 0).err.Some?
    ensures StopsAt(c, n, b) == 0 && Written(c, n, b) == 0 && Kept(n.settings, n.detached, n.confirmed[..0]) == []
  {
    hide LedgerAt;
    if |n.confirmed| > 0 { LedgerFreezes(c, n, b, 0); }
  }

  lemma RetryFails(c: Chain, n: NodeState, b: Block, f: nat)
    requires f < |n.confirmed| && LedgerAt(c, n, b, f).err.None? && LedgerAt(c, n, b, f + 1).err.Some?
    ensures var kept := Kept(n.settings, n.detached, n.confirmed[..f]);
      && |kept| <= f < |AcksOf(c, n, b).node.confirmed|
      && Import(c, n, b).confirmed == kept + AcksOf(c, n, b).node.confirmed[|kept|..]
  {
    hide AckLoop, LedgerAt, Kept, Queue, RetryLoop;
    AllAcksTaken(c, n, b);
    RetryLedger(c, n, b, f);
    RetryLedger(c, n, b, f + 1);
    RetryStops(c, AcksOf(c, n, b), f);
  }

  lemma RetryStops(c: Chain, r: BlockRun, f: nat)
    requires f < |r.node.confirmed|
    requires RetryLoop(c, r, f).run.ledger.err.None? && RetryLoop(c, r, f + 1).run.ledger.err.Some?
    ensures var s := RetryLoop(c, r, |r.node.confirmed|);
      var kept := Kept(r.node.settings, r.node.current, r.node.confirmed[..f]);
      && s.run.ledger.err.Some?
      && |kept| <= f && s.run.node.confirmed == kept + r.node.confirmed[|kept|..]
  {
    hide Kept, ValidateTx, Apply;
    CompactionIsFilter(c, r, f);
    ErrorFreezes(c, r, f + 1, |r.node.confirmed|);
    var s := RetryLoop(c, r, f);
    assert RetryLoop(c, r, f + 1) == RetryStep(c, s, f);
    hide RetryLoop;
    var queue := s.run.node.confirmed;
    assert queue == queue[..s.kept] + queue[s.kept..];
  }

  // ---------- Who is lost ----------

  lemma {:induction false} KeptAreRetained(p: Settings, w: World, txs: seq<Transaction>)
    ensures forall tx :: tx in Kept(p, w, txs) ==> Retained(p, w, tx) && tx in txs
  {
    hide Retained;
    if txs != [] { KeptAreRetained(p, w, txs[..|txs| - 1]); }
  }

  /** What waits is never lost: if it is moved, it is moved to the front. */
  lemma WaitingStays(p: Settings, w: World, queue: seq<Transaction>, f: nat, tx: Transaction)
    requires f <= |queue| && tx in queue && Retained(p, w, tx)
    ensures |Kept(p, w, queue[..f])| <= f
    ensures tx in Kept(p, w, queue[..f]) + queue[|Kept(p, w, queue[..f])|..]
  {
    hide Retained, Kept;
    KeptShorter(p, w, queue[..f]);
    KeptMembers(p, w, queue[..f]);
    var k := |Kept(p, w, queue[..f])|;
    var i :| 0 <= i < |queue| && queue[i] == tx;
    if i < f {
      assert queue[..f][i] == tx;
    } else {
      assert queue[k..][i - k] == tx;
    }
  }

  /** What does not wait stays only where it was not overwritten; the new acks at the end all wait. */
  lemma OthersStay(n: NodeState, queue: seq<Transaction>, f: nat, k: nat, tx: Transaction)
    requires Queue(n, queue) && k <= f <= |n.confirmed|
    requires !Retained(n.settings, n.detached, tx)
    ensures tx in Kept(n.settings, n.detached, n.confirmed[..f]) + queue[k..] <==> tx in n.confirmed[k..]
  {
    hide Kept;
    KeptAreRetained(n.settings, n.detached, n.confirmed[..f]);
    hide Retained;
    if tx in queue[k..] {
      var i :| 0 <= i < |queue[k..]| && queue[k..][i] == tx;
      assert queue[k + i] == tx;
      assert n.confirmed[k..][i] == tx;
    }
    if tx in n.confirmed[k..] {
      var i :| 0 <= i < |n.confirmed[k..]| && n.confirmed[k..][i] == tx;
      assert queue[k..][i] == tx;
    }
  }

  /**
   Of the transactions confirmed before or by a failing block, those are accounted for that wait,
   that are overtaken, or that the list still has beyond its overwritten front.
   */
  lemma FailureAccounts(c: Chain, n: NodeState, b: Block, tx: Transaction)
    requires !Succeeds(c, n, b)
    requires tx in n.confirmed || tx in Process(c, n, b).acks
    ensures Import(c, n, b).detached == n.detached
    ensures Accounted(Import(c, n, b).confirmed, [], n.detached, tx) <==>
      Retained(n.settings, n.detached, tx) || Past(n.detached, tx) || tx in n.confirmed[Written(c, n, b)..]
  {
    var queue, f, k := AcksOf(c, n, b).node.confirmed, StopsAt(c, n, b), Written(c, n, b);
    var p, w := n.settings, n.detached;
    hide Process, AcksOf, Import, Kept, StopsAt, Succeeds, ValidateTx;
    FailureLeaves(c, n, b);
    AckedWhere(c, n, b, tx);
    if Retained(p, w, tx) {
      assert queue[..f] == n.confirmed[..f];
      WaitingStays(p, w, queue, f, tx);
    } else {
      OthersStay(n, queue, f, k, tx);
    }
  }

  /** Whatever was confirmed before or in the block is in the list after the first loop, or was applicable. */
  lemma AckedWhere(c: Chain, n: NodeState, b: Block, tx: Transaction)
    requires tx in n.confirmed || tx in Process(c, n, b).acks
    ensures tx in AcksOf(c, n, b).node.confirmed || ValidateTx(n.settings, n.detached, tx, false).None?
  {
    hide AckLoop, ValidateTx, Retained;
    var r := AcksOf(c, n, b);
    AllAcksTaken(c, n, b);
    RetryKeepsAcks(c, r, |r.node.confirmed|);
    hide RetryLoop;
    assert Process(c, n, b).acks == r.acks;
  }

  /** Does one of the turns belong to the transaction's sender? */
  predicate Served(turns: seq<Transaction>, tx: Transaction)
  {
    exists t :: t in turns && t.signer == tx.signer
  }

  /** Is the transaction overtaken once the turns have been taken? */
  predicate PastAfter(w: World, turns: seq<Transaction>, tx: Transaction)
  {
    tx.signer.Some? && tx.nonce < NonceOf(w, External(tx.signer.value)) + if Served(turns, tx) then 1 else 0
  }

  /** A successful block moves the nonces of exactly those senders whose transactions have a turn. */
  lemma NoncesAfter(c: Chain, n: NodeState, b: Block, tx: Transaction)
    requires Succeeds(c, n, b)
    ensures Past(Process(c, n, b).ledger.world, tx) <==> PastAfter(n.detached, TurnsOf(c, n, b), tx)
    ensures tx in AppliedTxs(Process(c, n, b).ledger.receipts) ==>
      tx.signer.Some? && ValidateTx(n.settings, n.detached, tx, false).None?
  {
    var l, turns := Process(c, n, b).ledger, TurnsOf(c, n, b);
    ProcessOnePerSender(c, n, b);
    TurnsDecide(c, n, b);
    hide Process, TurnsOf, ApplyAll, ValidateTx;
    AppliedOnSuccess(c, Opening(n.detached, b.gasLimit), turns);
    ReceiptsFromAttempts(c, Opening(n.detached, b.gasLimit), turns);
    TurnsAdmitted(c, n, b);
    if tx.signer.Some? {
      var from := External(tx.signer.value);
      assert Some(from) in Senders(l.receipts) <==> Served(turns, tx) by { SendersAre(l.receipts, turns, tx); }
    }
  }

  lemma SendersAre(receipts: seq<Receipt>, turns: seq<Transaction>, tx: Transaction)
    requires tx.signer.Some?
    requires forall t :: t in turns ==> exists r :: r in receipts && r.tx == t
    requires forall r :: r in receipts ==> r.tx in turns
    ensures Sender(tx) in Senders(receipts) <==> Served(turns, tx)
  {
    if Sender(tx) in Senders(receipts) {
      var r :| r in receipts && Sender(r.tx) == Sender(tx);
      assert r.tx in turns && r.tx.signer == tx.signer;
    }
    if t :| t in turns && t.signer == tx.signer {
      var r :| r in receipts && r.tx == t;
      assert Sender(r.tx) == Sender(tx);
    }
  }

  /**
   Of the transactions confirmed before or by a successful block, those are accounted for that can
   be applied, that wait, or that are overtaken once the turns have been taken. The others are
   refused and dropped.
   */
  lemma SuccessAccounts(c: Chain, n: NodeState, b: Block, tx: Transaction)
    requires Succeeds(c, n, b)
    requires tx in n.confirmed || tx in Process(c, n, b).acks
    ensures var r := Process(c, n, b); var verdict := ValidateTx(n.settings, n.detached, tx, false);
      Accounted(r.node.confirmed, AppliedTxs(r.ledger.receipts), r.ledger.world, tx) <==>
        verdict.None? || Retained(n.settings, n.detached, tx) || PastAfter(n.detached, TurnsOf(c, n, b), tx)
  {
    hide AcksOf, RetryLoop, ValidateTx, AppliedTxs, TurnsOf, PastAfter, Past, Kept;
    NoncesAfter(c, n, b, tx);
    ProcessCompaction(c, n, b);
    hide Process;
    KeptAreRetained(n.settings, n.detached, AcksOf(c, n, b).node.confirmed);
    if ValidateTx(n.settings, n.detached, tx, false).None? || Retained(n.settings, n.detached, tx) {
      BlockServes(c, n, b, tx);
    }
  }

  /**
   When a block loses a confirmed transaction, read off the node and the block: if a turn fails,
   whatever neither waits nor is overtaken nor stands beyond the overwritten front; otherwise
   whatever is refused for more than money or predecessors and not overtaken afterwards.
   */
  ghost predicate Loses(c: Chain, n: NodeState, b: Block, tx: Transaction)
  {
    var p, w, turns := n.settings, n.detached, TurnsOf(c, n, b);
    && !Retained(p, w, tx)
    && if LedgerOf(c, n, b, turns).err.Some?
       then !Past(w, tx) && tx !in n.confirmed[Written(c, n, b)..]
       else ValidateTx(p, w, tx, false).Some? && !PastAfter(w, turns, tx)
  }

  /** Every block and every confirmed transaction. */
  lemma BlockLoses(c: Chain, n: NodeState, b: Block, tx: Transaction)
    requires tx in n.confirmed || tx in Process(c, n, b).acks
    ensures var n' := Import(c, n, b);
      !Accounted(n'.confirmed, Applied(c, n, b), n'.detached, tx) <==> Loses(c, n, b, tx)
  {
    TurnsDecide(c, n, b);
    hide Process, LedgerOf, ValidateTx, Written, Past, PastAfter, TurnsOf;
    if Succeeds(c, n, b) {
      SuccessAccounts(c, n, b, tx);
    } else {
      FailureAccounts(c, n, b, tx);
    }
  }

  // ---------- Over a whole run ----------

  ghost predicate AccountedAt(m: Member, tx: Transaction)
  {
    Accounted(m.node.confirmed, m.history, m.node.detached, tx)
  }

  /** The step imports a block at `a` that loses the transaction. */
  ghost predicate LosesAt(sys: System, net: Network, act: Action, a: Address, tx: Transaction)
    requires a in net
  {
    act.Receive? && act.at == a && tx !in net[a].history && Loses(sys.chain, net[a].node, act.block, tx)
  }

  lemma HistoryGrows(sys: System, m: Member, b: Block)
    ensures Imported(sys, m, b).history == m.history + Applied(sys.chain, m.node, b)
    ensures Imported(sys, m, b).node == Import(sys.chain, m.node, b)
    ensures forall tx :: Past(m.node.detached, tx) ==> Past(Imported(sys, m, b).node.detached, tx)
  {
    hide Process, AppliedTxs;
    ProcessInv(sys.chain, m.node, b);
    ProcessOnePerSender(sys.chain, m.node, b);
    forall tx: Transaction | Past(m.node.detached, tx) ensures Past(Imported(sys, m, b).node.detached, tx) {
      NeverBackwards(m.node.detached, Process(sys.chain, m.node, b).ledger, tx.signer.value);
    }
  }

  /** What a block does to a transaction that was accounted for, or is confirmed by it. */
  lemma ImportKeepsOrLoses(sys: System, m: Member, b: Block, tx: Transaction)
    requires (tx in m.confirmations && AccountedAt(m, tx)) || tx in Process(sys.chain, m.node, b).acks
    ensures !AccountedAt(Imported(sys, m, b), tx) <==> tx !in m.history && Loses(sys.chain, m.node, b, tx)
  {
    hide Process, Import, Imported, Applied, ValidateTx, Retained, Written, LedgerOf, TurnsOf;
    HistoryGrows(sys, m, b);
    if tx in m.node.confirmed || tx in Process(sys.chain, m.node, b).acks {
      BlockLoses(sys.chain, m.node, b, tx);
    }
  }

  /** Of all steps of a run only those blocks lose a transaction that was accounted for. */
  lemma StepLoses(sys: System, net: Network, act: Action, a: Address, tx: Transaction)
    requires Enabled(sys, net, act) && a in net
    requires tx in net[a].confirmations && AccountedAt(net[a], tx)
    ensures !AccountedAt(Next(sys, net, act)[a], tx) <==> LosesAt(sys, net, act, a, tx)
  {
    hide Process, Imported, Loses, ValidateAck, Commit, Confirms;
    if act.at == a && act.Receive? {
      ImportKeepsOrLoses(sys, net[a], act.block, tx);
    }
  }

  lemma NewlyConfirmed(sys: System, net: Network, act: Action, a: Address, tx: Transaction)
    requires Enabled(sys, net, act) && a in net
    requires tx !in net[a].confirmations && tx in Next(sys, net, act)[a].confirmations
    ensures !AccountedAt(Next(sys, net, act)[a], tx) <==> LosesAt(sys, net, act, a, tx)
  {
    hide Process, Loses, ValidateAck, Commit, Confirms;
    if act.Receive? {
      ImportKeepsOrLoses(sys, net[a], act.block, tx);
    }
  }

  /**
   Over every run, with failing blocks and changing settings: a confirmed transaction that is
   neither applied nor listed nor overtaken was lost by some block that the node imported.
   */
  lemma {:induction false} LostByABlock(sys: System, nets: seq<Network>, acts: seq<Action>, a: Address, tx: Transaction)
    returns (i: nat)
    requires Run(sys, nets, acts) && a in nets[|nets| - 1]
    requires tx in nets[|nets| - 1][a].confirmations && !AccountedAt(nets[|nets| - 1][a], tx)
    ensures i < |acts| && a in nets[i] && LosesAt(sys, nets[i], acts[i], a, tx)
    decreases |nets|
  {
    hide AccountedAt, LosesAt, Next, Enabled;
    if |acts| == 0 {
      assert false;
    } else {
      var k := |acts|;
      assert Run(sys, nets[..k], acts[..k - 1]);
      assert Step(sys, nets[k - 1], nets[k], acts[k - 1]);
      hide Init;
      StepKeys(sys, nets[k - 1], acts[k - 1]);
      var m := nets[k - 1][a];
      if tx in m.confirmations && !AccountedAt(m, tx) {
        i := LostByABlock(sys, nets[..k], acts[..k - 1], a, tx);
      } else {
        i := k - 1;
        if tx in m.confirmations {
          StepLoses(sys, nets[k - 1], acts[k - 1], a, tx);
        } else {
          NewlyConfirmed(sys, nets[k - 1], acts[k - 1], a, tx);
        }
      }
    }
  }
}
