/**
 Processing a block at one node: counting the acks it carries, applying what they confirm to
 the detached state, and retrying confirmed transactions that could not be applied earlier.
 */
module Processor {
  import opened Types
  import opened Gas
  import opened Ledger
  import opened Ballots

  /** What all blocks of one chain share. */
  datatype Chain = Chain(quorum: nat, stake: Stake, evm: Evm, rules: Rules)

  /** `current` is the pool's view of the state, `detached` the state confirmed transactions built. */
  datatype NodeState = NodeState(
    settings: Settings,
    current: World,
    detached: World,
    expected: map<Address, nat>,
    ballots: Ballots,
    confirmed: seq<Transaction>)

  datatype Block = Block(author: Address, txs: seq<Transaction>, gasLimit: nat)

  // ---------- Counting an ack ----------

  function CountAck(n: NodeState, tx: Transaction, origin: Address, local: bool): NodeState
    requires tx.signer.Some?
  {
    var s := SlotOf(tx);
    n.(ballots := Cast(n.ballots, s, origin, HashOf(tx)),
       expected := if local then n.expected[s.sender := tx.nonce + 1] else n.expected)
  }

  /** Does this ack confirm the transaction? Every new voter above the quorum does so again. */
  ghost predicate Confirms(c: Chain, n: NodeState, tx: Transaction, origin: Address)
    requires tx.signer.Some?
  {
    var s := SlotOf(tx);
    && origin !in Voters(n.ballots, s)
    && Weight(c.stake, Cast(n.ballots, s, origin, HashOf(tx)), s, HashOf(tx)) > c.quorum
  }

  /** The local ack path: the only way a node acks a transaction itself. */
  ghost function LocalAck(c: Chain, n: NodeState, tx: Transaction, self: Address): NodeState
    requires ValidateAck(n.settings, n.current, n.expected, tx, true).None?
  {
    var n' := CountAck(n, tx, self, true);
    if Confirms(c, n, tx, self) then n'.(confirmed := n'.confirmed + [tx]) else n'
  }

  // ---------- Mining ----------

  /** The block a node is building: the state its transactions have led to so far, and its gas pool. */
  datatype Work = Work(state: World, pool: nat, txs: seq<Transaction>)

  /** Work starts from the detached state. */
  function NewWork(n: NodeState, gasLimit: nat): Work { Work(n.detached, gasLimit, []) }

  /**
   What the ack of a transaction means for the block being built. Without a quorum it is included
   all the same; with one it is applied first, and left out if that fails.
   */
  ghost function Commit(c: Chain, n: NodeState, work: Work, tx: Transaction, self: Address): Work
    requires ValidateAck(n.settings, n.current, n.expected, tx, true).None?
  {
    if !Confirms(c, n, tx, self) then work.(txs := work.txs + [tx]) else
    match Transition(c.evm, c.rules, work.state, work.pool, tx)
    case Rejected(_) => work.(pool := PoolOnRefusal(work.state, work.pool, tx))
    case Executed(w, pool, _, _) => Work(w, pool, work.txs + [tx])
  }

  /** Writing a block with the state it was built on: the detached state follows imported blocks only. */
  function WriteBlock(n: NodeState, state: World, mining: bool): NodeState
  {
    if mining then n else n.(detached := state)
  }

  // ---------- The block loops ----------

  /**
   `attempts` are the transactions handed to the state transition so far, `acks` those that
   an ack in this block confirmed.
   */
  datatype BlockRun = BlockRun(
    node: NodeState, ledger: Ledger, attempts: seq<Transaction>, acks: seq<Transaction>)

  function Open(n: NodeState, gasLimit: nat): BlockRun
  {
    BlockRun(n.(current := n.detached), Opening(n.detached, gasLimit), [], [])
  }

  function Attempt(c: Chain, r: BlockRun, tx: Transaction): BlockRun
  {
    r.(ledger := Apply(c.evm, c.rules, r.ledger, tx), attempts := r.attempts + [tx])
  }

  ghost function AckStep(c: Chain, r: BlockRun, author: Address, tx: Transaction): BlockRun
  {
    var n := r.node;
    if r.ledger.err.Some? then r else
    if tx.signer.None? then Attempt(c, r, tx) else
    if ValidateAck(n.settings, n.current, n.expected, tx, false).Some? then r else
    var n' := CountAck(n, tx, author, false);
    if !Confirms(c, n, tx, author) then r.(node := n') else
    if ValidateTx(n.settings, n.current, tx, false).Some?
      then r.(node := n'.(confirmed := n'.confirmed + [tx]), acks := r.acks + [tx])
    else Attempt(c, r.(node := n', acks := r.acks + [tx]), tx)
  }

  ghost function AckLoop(c: Chain, r: BlockRun, author: Address, txs: seq<Transaction>): BlockRun
  {
    if txs == [] then r
    else AckStep(c, AckLoop(c, r, author, txs[..|txs| - 1]), author, txs[|txs| - 1])
  }

  /** A confirmed transaction is worth keeping as long as only money or predecessors are missing. */
  predicate Retained(p: Settings, current: World, tx: Transaction)
  {
    ValidateTx(p, current, tx, false) in {Some(ErrInsufficientFunds), Some(ErrNonceTooHigh)}
  }

  /** The retry loop compacts `confirmed` in place; `kept` is the write index. */
  datatype Retry = Retry(run: BlockRun, kept: nat)

  function RetryStep(c: Chain, s: Retry, i: nat): (s': Retry)
    requires s.kept <= i < |s.run.node.confirmed|
    ensures |s'.run.node.confirmed| == |s.run.node.confirmed|
    ensures s.kept <= s'.kept <= s.kept + 1
  {
    var r, n := s.run, s.run.node;
    var tx := n.confirmed[i];
    if r.ledger.err.Some? then s else
    if tx.signer.None? then s.(run := Attempt(c, r, tx)) else
    if Retained(n.settings, n.current, tx)
      then Retry(r.(node := n.(confirmed := n.confirmed[s.kept := tx])), s.kept + 1) else
    if ValidateTx(n.settings, n.current, tx, false).Some? then s
    else s.(run := Attempt(c, r, tx))
  }

  function RetryLoop(c: Chain, r: BlockRun, i: nat): (s: Retry)
    requires i <= |r.node.confirmed|
    ensures |s.run.node.confirmed| == |r.node.confirmed| && s.kept <= i
  {
    if i == 0 then Retry(r, 0) else RetryStep(c, RetryLoop(c, r, i - 1), i - 1)
  }

  ghost function AcksOf(c: Chain, n: NodeState, b: Block): BlockRun
  {
    AckLoop(c, Open(n, b.gasLimit), b.author, b.txs)
  }

  ghost function RetriesOf(c: Chain, n: NodeState, b: Block): Retry
  {
    var r := AcksOf(c, n, b);
    RetryLoop(c, r, |r.node.confirmed|)
  }

  /** Only a block processed without error has its leftovers of `confirmed` cut off. */
  ghost function Process(c: Chain, n: NodeState, b: Block): BlockRun
  {
    var s := RetriesOf(c, n, b);
    if s.run.ledger.err.Some? then s.run
    else s.run.(node := s.run.node.(confirmed := s.run.node.confirmed[..s.kept]))
  }

  ghost predicate Succeeds(c: Chain, n: NodeState, b: Block) { Process(c, n, b).ledger.err.None? }

  /** Importing a block commits the processed state only on success; the pool keeps all it learnt. */
  ghost function Import(c: Chain, n: NodeState, b: Block): NodeState
  {
    var r := Process(c, n, b);
    if r.ledger.err.Some? then r.node else WriteBlock(r.node, r.ledger.world, false)
  }

  // ---------- What the loops keep ----------

  /** Facts every step of both loops keeps. */
  ghost predicate RunInv(c: Chain, n: NodeState, gasLimit: nat, r: BlockRun)
  {
    && r.node.settings == n.settings
    && r.node.current == n.detached
    && r.node.detached == n.detached
    && r.node.expected == n.expected
    && Extends(n.ballots, r.node.ballots)
    && r.ledger == ApplyAll(c.evm, c.rules, Opening(n.detached, gasLimit), r.attempts)
    && (forall tx :: tx in r.attempts ==> Admitted(n.settings, n.detached, tx))
  }

  lemma AttemptInv(c: Chain, n: NodeState, gasLimit: nat, r: BlockRun, tx: Transaction)
    requires RunInv(c, n, gasLimit, r)
    requires Admitted(n.settings, n.detached, tx)
    ensures RunInv(c, n, gasLimit, Attempt(c, r, tx))
  {
    hide Apply, Admitted, Extends;
    ApplyAllSnoc(c.evm, c.rules, Opening(n.detached, gasLimit), r.attempts, tx);
  }

  lemma AckStepInv(c: Chain, n: NodeState, gasLimit: nat, r: BlockRun, author: Address, tx: Transaction)
    requires RunInv(c, n, gasLimit, r)
    ensures RunInv(c, n, gasLimit, AckStep(c, r, author, tx))
  {
    hide Apply, ApplyAll, Extends, ValidateAck, Cast;
    if r.ledger.err.None? && tx.signer.None? {
      AttemptInv(c, n, gasLimit, r, tx);
    } else if r.ledger.err.None? && ValidateAck(n.settings, n.detached, n.expected, tx, false).None? {
      var n' := CountAck(r.node, tx, author, false);
      CastExtends(r.node.ballots, SlotOf(tx), author, HashOf(tx));
      ExtendsTransitive(n.ballots, r.node.ballots, n'.ballots);
      assert RunInv(c, n, gasLimit, r.(node := n'));
      var r1 := r.(node := n', acks := r.acks + [tx]);
      if Confirms(c, r.node, tx, author) && ValidateTx(n.settings, n.detached, tx, false).None? {
        AttemptInv(c, n, gasLimit, r1, tx);
      }
    }
  }

  lemma {:induction false} AckLoopInv(c: Chain, n: NodeState, gasLimit: nat, r: BlockRun, author: Address,
                                      txs: seq<Transaction>)
    requires RunInv(c, n, gasLimit, r)
    ensures RunInv(c, n, gasLimit, AckLoop(c, r, author, txs))
  {
    hide RunInv, AckStep;
    if txs != [] {
      AckLoopInv(c, n, gasLimit, r, author, txs[..|txs| - 1]);
      AckStepInv(c, n, gasLimit, AckLoop(c, r, author, txs[..|txs| - 1]), author, txs[|txs| - 1]);
    }
  }

  lemma {:induction false} RetryLoopInv(c: Chain, n: NodeState, gasLimit: nat, r: BlockRun, i: nat)
    requires RunInv(c, n, gasLimit, r) && i <= |r.node.confirmed|
    ensures RunInv(c, n, gasLimit, RetryLoop(c, r, i).run)
  {
    if i > 0 {
      hide Apply, ApplyAll, Extends;
      RetryLoopInv(c, n, gasLimit, r, i - 1);
      var s := RetryLoop(c, r, i - 1);
      var tx := s.run.node.confirmed[i - 1];
      if Admitted(n.settings, n.detached, tx) {
        AttemptInv(c, n, gasLimit, s.run, tx);
      }
    }
  }

  lemma ProcessInv(c: Chain, n: NodeState, b: Block)
    ensures RunInv(c, n, b.gasLimit, AcksOf(c, n, b))
    ensures RunInv(c, n, b.gasLimit, Process(c, n, b))
  {
    assert RunInv(c, n, b.gasLimit, Open(n, b.gasLimit));
    AckLoopInv(c, n, b.gasLimit, Open(n, b.gasLimit), b.author, b.txs);
    var r := AcksOf(c, n, b);
    hide AckLoop, RetryLoop, ApplyAll, Extends;
    RetryLoopInv(c, n, b.gasLimit, r, |r.node.confirmed|);
  }

  /** After an error the retry loop does nothing more. */
  lemma {:induction false} ErrorFreezes(c: Chain, r: BlockRun, i: nat, k: nat)
    requires i <= k <= |r.node.confirmed|
    requires RetryLoop(c, r, i).run.ledger.err.Some?
    ensures RetryLoop(c, r, k) == RetryLoop(c, r, i)
    decreases k
  {
    if i < k {
      ErrorFreezes(c, r, i, k - 1);
    }
  }

  // ---------- What processing a block guarantees ----------

  /** A processed block applies at most one transaction per sender, at the sender's starting nonce. */
  lemma ProcessOnePerSender(c: Chain, n: NodeState, b: Block)
    ensures var l := Process(c, n, b).ledger;
      OnePerSender(n.detached, l.receipts) && NoncesMoved(n.detached, l)
  {
    hide Process, OnePerSender, NoncesMoved;
    ProcessInv(c, n, b);
    var r := Process(c, n, b);
    AdmittedNonces(n.settings, n.detached, r.attempts);
    AtMostOnePerSender(c.evm, c.rules, n.detached, b.gasLimit, r.attempts);
  }

  /** Gas used and gas left make up the block's limit, and exactly the fees are burned. */
  lemma ProcessBalances(c: Chain, n: NodeState, b: Block)
    requires Solvent(n.detached)
    ensures Balanced(n.detached, b.gasLimit, Process(c, n, b).ledger)
  {
    hide Process, Balanced, Solvent;
    ProcessInv(c, n, b);
    BooksBalance(c.evm, c.rules, n.detached, b.gasLimit, Process(c, n, b).attempts);
  }

  /** With plain transfers a block fails only for gas, a repeated nonce or a bad signature. */
  lemma ProcessFailsOnlyOnGasOrRepeat(c: Chain, n: NodeState, b: Block)
    requires TransfersOnly(c.evm)
    requires c.rules.homestead && c.rules.istanbul == n.settings.istanbul
    ensures Process(c, n, b).ledger.err in
      {None, Some(ErrGasLimitReached), Some(ErrNonceTooLow), Some(ErrInvalidSender)}
  {
    hide Process, TransfersOnly;
    ProcessInv(c, n, b);
    FailsOnlyOnGasOrRepeat(c.evm, c.rules, n.settings, n.detached, b.gasLimit, Process(c, n, b).attempts);
  }

  lemma PlainProcessFailsOnlyOnGasOrRepeat(c: Chain, n: NodeState, b: Block)
    requires c.evm == PlainTransfers()
    requires c.rules.homestead && c.rules.istanbul == n.settings.istanbul
    ensures Process(c, n, b).ledger.err in
      {None, Some(ErrGasLimitReached), Some(ErrNonceTooLow), Some(ErrInvalidSender)}
  {
    hide Process, TransfersOnly;
    PlainTransfersOnly();
    ProcessFailsOnlyOnGasOrRepeat(c, n, b);
  }

  // ---------- Compaction is a filter ----------

  function Kept(p: Settings, current: World, txs: seq<Transaction>): seq<Transaction>
  {
    if txs == [] then [] else
    var tx := txs[|txs| - 1];
    Kept(p, current, txs[..|txs| - 1]) + if Retained(p, current, tx) then [tx] else []
  }

  /** Up to `kept` the slice holds the filtered prefix; from there on it is untouched. */
  ghost predicate Compacted(r: BlockRun, s: Retry, i: nat)
  {
    && s.kept <= i <= |r.node.confirmed| == |s.run.node.confirmed|
    && s.run.node.settings == r.node.settings
    && s.run.node.current == r.node.current
    && s.run.node.confirmed[..s.kept] == Kept(r.node.settings, r.node.current, r.node.confirmed[..i])
    && s.run.node.confirmed[s.kept..] == r.node.confirmed[s.kept..]
  }

  lemma RetainedIsSigned(p: Settings, current: World, tx: Transaction)
    requires Retained(p, current, tx)
    ensures tx.signer.Some?
  {
  }

  lemma CompactStep(c: Chain, r: BlockRun, s: Retry, i: nat)
    requires Compacted(r, s, i) && i < |r.node.confirmed|
    requires RetryStep(c, s, i).run.ledger.err.None?
    ensures Compacted(r, RetryStep(c, s, i), i + 1)
  {
    hide Apply, ValidateTx;
    var before, after := s.run.node.confirmed, RetryStep(c, s, i).run.node.confirmed;
    var tx := before[i];
    assert tx == before[s.kept..][i - s.kept] == r.node.confirmed[i];
    assert r.node.confirmed[..i + 1][..i] == r.node.confirmed[..i];
    if Retained(r.node.settings, r.node.current, tx) {
      RetainedIsSigned(r.node.settings, r.node.current, tx);
      assert after[..s.kept + 1] == before[..s.kept] + [tx];
      assert after[s.kept + 1..] == before[s.kept..][1..] == r.node.confirmed[s.kept + 1..];
    }
  }

  lemma {:induction false} CompactionIsFilter(c: Chain, r: BlockRun, i: nat)
    requires i <= |r.node.confirmed|
    requires RetryLoop(c, r, i).run.ledger.err.None?
    ensures Compacted(r, RetryLoop(c, r, i), i)
  {
    if i > 0 {
      var s := RetryLoop(c, r, i - 1);
      assert s.run.ledger.err.None? by { hide Compacted; }
      CompactionIsFilter(c, r, i - 1);
      hide RetryStep, Compacted;
      CompactStep(c, r, s, i - 1);
    }
  }

  /**
   After a successful block `confirmed` is exactly what the acks left there, filtered to the
   transactions that still wait for money or for predecessors.
   */
  lemma ProcessCompaction(c: Chain, n: NodeState, b: Block)
    requires Succeeds(c, n, b)
    ensures Process(c, n, b).node.confirmed == Kept(n.settings, n.detached, AcksOf(c, n, b).node.confirmed)
  {
    var r := AcksOf(c, n, b);
    var k := |r.node.confirmed|;
    assert RunInv(c, n, b.gasLimit, r) by { ProcessInv(c, n, b); }
    assert Process(c, n, b).ledger == RetryLoop(c, r, k).run.ledger;
    hide AckLoop, RetryLoop, ApplyAll, Extends, Kept;
    CompactionIsFilter(c, r, k);
    assert r.node.confirmed[..k] == r.node.confirmed;
  }

  // ---------- Where ballots, confirmations and applications come from ----------

  /** Everything new in `r` goes back to the block's author, its acks or the old `confirmed` list. */
  ghost predicate RunSound(c: Chain, n: NodeState, b: Block, r: BlockRun)
  {
    && (forall s, v :: v in VotesIn(r.node.ballots, s) ==>
          || (v in VotesIn(n.ballots, s) && VotesIn(n.ballots, s)[v] == VotesIn(r.node.ballots, s)[v])
          || (v == b.author && Acks(b, s, VotesIn(r.node.ballots, s)[v])))
    && (forall tx :: tx in r.acks ==>
          tx.signer.Some? && Weight(c.stake, r.node.ballots, SlotOf(tx), HashOf(tx)) > c.quorum)
    && (forall tx :: tx in r.node.confirmed ==> tx in n.confirmed || tx in r.acks)
    && (forall tx :: tx in r.attempts ==> tx.signer.None? || tx in n.confirmed || tx in r.acks)
  }

  /** The block carries the hash's transaction, and it belongs to the slot. */
  predicate Acks(b: Block, s: Slot, h: Hash)
  {
    h.tx in b.txs && h.tx.signer.Some? && SlotOf(h.tx) == s
  }

  lemma CountSound(c: Chain, n: NodeState, b: Block, r: BlockRun, tx: Transaction)
    requires RunSound(c, n, b, r)
    requires tx in b.txs && tx.signer.Some?
    ensures RunSound(c, n, b, r.(node := CountAck(r.node, tx, b.author, false)))
  {
    hide Weight, Cast;
    var b' := Cast(r.node.ballots, SlotOf(tx), b.author, HashOf(tx));
    CastExtends(r.node.ballots, SlotOf(tx), b.author, HashOf(tx));
    forall t | t in r.acks ensures Weight(c.stake, b', SlotOf(t), HashOf(t)) > c.quorum {
      WeightMonotone(c.stake, r.node.ballots, b', SlotOf(t), HashOf(t));
    }
  }

  lemma AckStepSound(c: Chain, n: NodeState, b: Block, r: BlockRun, tx: Transaction)
    requires RunSound(c, n, b, r) && tx in b.txs
    ensures RunSound(c, n, b, AckStep(c, r, b.author, tx))
  {
    hide Weight, Cast, Apply, ValidateAck, ValidateTx;
    if tx.signer.Some? {
      CountSound(c, n, b, r, tx);
    }
  }

  lemma {:induction false} AckLoopSound(c: Chain, n: NodeState, b: Block, r: BlockRun, txs: seq<Transaction>)
    requires RunSound(c, n, b, r) && forall tx :: tx in txs ==> tx in b.txs
    ensures RunSound(c, n, b, AckLoop(c, r, b.author, txs))
  {
    hide RunSound, AckStep;
    if txs != [] {
      AckLoopSound(c, n, b, r, txs[..|txs| - 1]);
      AckStepSound(c, n, b, AckLoop(c, r, b.author, txs[..|txs| - 1]), txs[|txs| - 1]);
    }
  }

  lemma RetryStepSound(c: Chain, n: NodeState, b: Block, s: Retry, i: nat)
    requires RunSound(c, n, b, s.run) && s.kept <= i < |s.run.node.confirmed|
    ensures RunSound(c, n, b, RetryStep(c, s, i).run)
  {
    hide Weight, VotesIn, Apply, ValidateTx, Acks, Retained;
    var tx := s.run.node.confirmed[i];
    assert tx in s.run.node.confirmed;
    forall t | t in s.run.node.confirmed[s.kept := tx] ensures t in s.run.node.confirmed { }
  }

  lemma {:induction false} RetryLoopSound(c: Chain, n: NodeState, b: Block, r: BlockRun, i: nat)
    requires RunSound(c, n, b, r) && i <= |r.node.confirmed|
    ensures RunSound(c, n, b, RetryLoop(c, r, i).run)
  {
    hide RunSound, RetryStep;
    if i > 0 {
      RetryLoopSound(c, n, b, r, i - 1);
      RetryStepSound(c, n, b, RetryLoop(c, r, i - 1), i - 1);
    }
  }

  lemma {:induction false} RetryKeepsAcks(c: Chain, r: BlockRun, i: nat)
    requires i <= |r.node.confirmed|
    ensures RetryLoop(c, r, i).run.acks == r.acks
  {
    if i > 0 {
      hide ValidateTx, Apply;
      RetryKeepsAcks(c, r, i - 1);
    }
  }

  lemma CutSound(c: Chain, n: NodeState, b: Block, r: BlockRun, k: nat)
    requires RunSound(c, n, b, r) && k <= |r.node.confirmed|
    ensures RunSound(c, n, b, r.(node := r.node.(confirmed := r.node.confirmed[..k])))
  {
    hide Weight, VotesIn, Acks;
    assert forall tx :: tx in r.node.confirmed[..k] ==> tx in r.node.confirmed;
  }

  lemma ProcessSound(c: Chain, n: NodeState, b: Block)
    ensures RunSound(c, n, b, Process(c, n, b))
  {
    assert RunSound(c, n, b, Open(n, b.gasLimit));
    hide RunSound, AckLoop, RetryLoop;
    AckLoopSound(c, n, b, Open(n, b.gasLimit), b.txs);
    var r := AcksOf(c, n, b);
    RetryLoopSound(c, n, b, r, |r.node.confirmed|);
    var s := RetriesOf(c, n, b);
    CutSound(c, n, b, s.run, s.kept);
  }

  lemma {:induction false} ReceiptsFromAttempts(c: Chain, l: Ledger, txs: seq<Transaction>)
    ensures forall r :: r in ApplyAll(c.evm, c.rules, l, txs).receipts ==> r in l.receipts || r.tx in txs
  {
    if txs != [] {
      hide Transition;
      ReceiptsFromAttempts(c, l, txs[..|txs| - 1]);
    }
  }

  /** A transaction is only ever applied after an ack confirmed it, in this block or before. */
  lemma AppliedWasConfirmed(c: Chain, n: NodeState, b: Block, r: Receipt)
    requires r in Process(c, n, b).ledger.receipts
    ensures r.tx in n.confirmed || r.tx in Process(c, n, b).acks
  {
    hide Process, NoncesMoved, ApplyAll, Weight, VotesIn;
    ProcessInv(c, n, b);
    ProcessSound(c, n, b);
    ProcessOnePerSender(c, n, b);
    ReceiptsFromAttempts(c, Opening(n.detached, b.gasLimit), Process(c, n, b).attempts);
  }
}
