/**
 What becomes of a confirmed transaction over runs in which every block is processed without error
 and the pool's settings stay put: none is lost.
 */
module Retention {
  import opened Types
  import opened Gas
  import opened Ledger
  import opened Ballots
  import opened Processor
  import opened Network

  // ---------- Inside one block ----------

  /** Acceptable in everything but nonce and funds, which depend on the state. */
  predicate Acceptable(p: Settings, tx: Transaction)
  {
    CheckShape(p, tx, false).None? && CheckIntrinsic(p, tx).None?
  }

  lemma AckedIsAcceptable(p: Settings, current: World, expected: map<Address, nat>, tx: Transaction, local: bool)
    requires ValidateAck(p, current, expected, tx, local).None?
    requires local ==> tx.gasPrice >= p.gasPrice
    ensures Acceptable(p, tx)
  {
    hide CheckIntrinsic;
  }

  /** An acceptable transaction is applicable, waiting for money or predecessors, or out of date. */
  lemma AcceptableCases(p: Settings, w: World, tx: Transaction)
    requires Acceptable(p, tx)
    ensures tx.signer.Some?
    ensures
      || ValidateTx(p, w, tx, false).None?
      || Retained(p, w, tx)
      || tx.nonce < NonceOf(w, External(tx.signer.value))
  {
    hide CheckIntrinsic, Fee;
  }

  lemma {:induction false} AppliedOnSuccess(c: Chain, l: Ledger, txs: seq<Transaction>)
    requires ApplyAll(c.evm, c.rules, l, txs).err.None?
    ensures forall tx :: tx in txs ==> exists r :: r in ApplyAll(c.evm, c.rules, l, txs).receipts && r.tx == tx
  {
    if txs != [] {
      hide Transition;
      var before := txs[..|txs| - 1];
      var l0, l1 := ApplyAll(c.evm, c.rules, l, before), ApplyAll(c.evm, c.rules, l, txs);
      AppliedOnSuccess(c, l, before);
      forall tx | tx in txs ensures exists r :: r in l1.receipts && r.tx == tx {
        if tx in before {
          var r :| r in l0.receipts && r.tx == tx;
          assert r in l1.receipts;
        } else {
          assert l1.receipts[|l1.receipts| - 1].tx == tx;
        }
      }
    }
  }

  /** Acks that confirm are queued or attempted; nothing already queued is taken out. */
  ghost predicate AcksHandled(n: NodeState, r: BlockRun)
  {
    && (forall tx :: tx in n.confirmed ==> tx in r.node.confirmed)
    && (forall tx :: tx in r.acks ==> tx in r.node.confirmed || tx in r.attempts)
    && (forall tx :: tx in r.acks ==> Acceptable(n.settings, tx))
    && r.node.settings == n.settings
  }

  lemma AckStepHandled(c: Chain, n: NodeState, r: BlockRun, author: Address, tx: Transaction)
    requires AcksHandled(n, r)
    ensures AcksHandled(n, AckStep(c, r, author, tx))
  {
    hide Acceptable, ValidateTx, ValidateAck, Confirms, Cast, Apply;
    if ValidateAck(r.node.settings, r.node.current, r.node.expected, tx, false).None? {
      AckedIsAcceptable(r.node.settings, r.node.current, r.node.expected, tx, false);
    }
  }

  lemma {:induction false} AckLoopHandled(c: Chain, n: NodeState, r: BlockRun, author: Address, txs: seq<Transaction>)
    requires AcksHandled(n, r)
    ensures AcksHandled(n, AckLoop(c, r, author, txs))
  {
    hide AcksHandled, AckStep;
    if txs != [] {
      AckLoopHandled(c, n, r, author, txs[..|txs| - 1]);
      AckStepHandled(c, n, AckLoop(c, r, author, txs[..|txs| - 1]), author, txs[|txs| - 1]);
    }
  }

  lemma RetryStepAttempts(c: Chain, s: Retry, i: nat)
    requires s.kept <= i < |s.run.node.confirmed| && RetryStep(c, s, i).run.ledger.err.None?
    ensures var s' := RetryStep(c, s, i); var n := s.run.node;
      && s.run.ledger.err.None? && s'.run.acks == s.run.acks
      && (forall tx :: tx in s.run.attempts ==> tx in s'.run.attempts)
      && (ValidateTx(n.settings, n.current, n.confirmed[i], false).None? ==> n.confirmed[i] in s'.run.attempts)
  {
    hide Apply;
  }

  lemma SameAt(txs: seq<Transaction>, us: seq<Transaction>, k: nat, i: nat)
    requires k <= i < |txs| == |us| && txs[k..] == us[k..]
    ensures txs[i] == us[i]
  {
    assert txs[i] == txs[k..][i - k] && us[i] == us[k..][i - k];
  }

  /** Once the retry loop has passed them without error, all applicable entries were attempted. */
  lemma {:induction false} RetryAttempts(c: Chain, r: BlockRun, i: nat)
    requires i <= |r.node.confirmed|
    requires RetryLoop(c, r, i).run.ledger.err.None?
    ensures forall tx :: tx in r.attempts ==> tx in RetryLoop(c, r, i).run.attempts
    ensures forall tx :: tx in r.node.confirmed[..i] && ValidateTx(r.node.settings, r.node.current, tx, false).None? ==>
      tx in RetryLoop(c, r, i).run.attempts
    ensures RetryLoop(c, r, i).run.acks == r.acks
  {
    if i > 0 {
      hide ValidateTx, Kept, RetryStep;
      var s := RetryLoop(c, r, i - 1);
      RetryStepAttempts(c, s, i - 1);
      RetryAttempts(c, r, i - 1);
      CompactionIsFilter(c, r, i - 1);
      assert s.run.node.confirmed[s.kept..] == r.node.confirmed[s.kept..];
      SameAt(s.run.node.confirmed, r.node.confirmed, s.kept, i - 1);
      forall tx | tx in r.node.confirmed[..i] && ValidateTx(r.node.settings, r.node.current, tx, false).None?
        ensures tx in RetryLoop(c, r, i).run.attempts
      {
        if tx !in r.node.confirmed[..i - 1] {
          assert tx == r.node.confirmed[i - 1];
        }
      }
    }
  }

  lemma {:induction false} KeptMembers(p: Settings, w: World, txs: seq<Transaction>)
    ensures forall tx :: tx in txs && Retained(p, w, tx) ==> tx in Kept(p, w, txs)
  {
    hide Retained;
    if txs != [] {
      KeptMembers(p, w, txs[..|txs| - 1]);
    }
  }

  lemma NeverBackwards(start: World, l: Ledger, key: nat)
    requires NoncesMoved(start, l)
    ensures NonceOf(l.world, External(key)) >= NonceOf(start, External(key))
  {
    assert External(key).External?;
  }

  /** Its sender's nonce has gone past it. */
  predicate Past(w: World, tx: Transaction)
  {
    tx.signer.Some? && tx.nonce < NonceOf(w, External(tx.signer.value))
  }

  /** Applied, still queued, or overtaken. */
  ghost predicate Accounted(confirmed: seq<Transaction>, history: seq<Transaction>, w: World, tx: Transaction)
  {
    tx in history || tx in confirmed || Past(w, tx)
  }

  /** What is confirmed is in the list after the first loop or attempted, and so is whatever the list has to offer. */
  lemma BlockAttempts(c: Chain, n: NodeState, b: Block)
    requires Succeeds(c, n, b)
    ensures var r, queue := Process(c, n, b), AcksOf(c, n, b).node.confirmed;
      && (forall tx :: tx in n.confirmed || tx in r.acks ==> tx in queue || tx in r.attempts)
      && (forall tx :: tx in queue && ValidateTx(n.settings, n.detached, tx, false).None? ==> tx in r.attempts)
  {
    hide AckLoop, ValidateTx, Kept, Acceptable, Retained;
    var acks := AcksOf(c, n, b);
    var k := |acks.node.confirmed|;
    assert AcksHandled(n, Open(n, b.gasLimit));
    AckLoopHandled(c, n, Open(n, b.gasLimit), b.author, b.txs);
    AckLoopInv(c, n, b.gasLimit, Open(n, b.gasLimit), b.author, b.txs);
    RetryAttempts(c, acks, k);
    assert acks.node.confirmed[..k] == acks.node.confirmed;
    hide RetryLoop;
  }

  /** A successful block applies what can be applied and keeps what waits for money or predecessors. */
  lemma BlockServes(c: Chain, n: NodeState, b: Block, tx: Transaction)
    requires Succeeds(c, n, b)
    requires tx in n.confirmed || tx in Process(c, n, b).acks
    requires ValidateTx(n.settings, n.detached, tx, false).None? || Retained(n.settings, n.detached, tx)
    ensures var r := Process(c, n, b); tx in AppliedTxs(r.ledger.receipts) || tx in r.node.confirmed
  {
    hide Process, AcksOf, ValidateTx, Kept, Extends, ApplyAll;
    var r := Process(c, n, b);
    BlockAttempts(c, n, b);
    ProcessCompaction(c, n, b);
    ProcessInv(c, n, b);
    AppliedOnSuccess(c, Opening(n.detached, b.gasLimit), r.attempts);
    if tx in r.attempts {
      var q :| q in r.ledger.receipts && q.tx == tx;
      var i :| 0 <= i < |r.ledger.receipts| && r.ledger.receipts[i] == q;
      assert AppliedTxs(r.ledger.receipts)[i] == tx;
    } else {
      KeptMembers(n.settings, n.detached, AcksOf(c, n, b).node.confirmed);
    }
  }

  /** The transactions a block applies for good. */
  ghost function Applied(c: Chain, n: NodeState, b: Block): seq<Transaction>
  {
    if Succeeds(c, n, b) then AppliedTxs(Process(c, n, b).ledger.receipts) else []
  }

  lemma BlockAccounts(c: Chain, n: NodeState, b: Block, tx: Transaction)
    requires Succeeds(c, n, b)
    requires tx in n.confirmed || tx in Process(c, n, b).acks
    requires Acceptable(n.settings, tx)
    ensures var r := Process(c, n, b);
      Accounted(r.node.confirmed, AppliedTxs(r.ledger.receipts), r.ledger.world, tx)
  {
    hide Process, ValidateTx, Acceptable, AppliedTxs;
    AcceptableCases(n.settings, n.detached, tx);
    if ValidateTx(n.settings, n.detached, tx, false).None? || Retained(n.settings, n.detached, tx) {
      BlockServes(c, n, b, tx);
    } else {
      ProcessOnePerSender(c, n, b);
      NeverBackwards(n.detached, Process(c, n, b).ledger, tx.signer.value);
    }
  }

  // ---------- Over a whole run ----------

  /** The block imports without error and the pool keeps its settings. */
  ghost predicate Smooth(sys: System, net: Network, act: Action)
    requires act.at in net
  {
    match act
    case Receive(a, b) => Succeeds(sys.chain, net[a].node, b)
    case Reset(a, p) => p == net[a].node.settings
    case _ => true
  }

  /** Every confirmed transaction the pool would accept for its price is accounted for. */
  ghost predicate Retains(m: Member)
  {
    forall tx :: tx in m.confirmations && tx.gasPrice >= m.node.settings.gasPrice ==>
      && Acceptable(m.node.settings, tx)
      && Accounted(m.node.confirmed, m.history, m.node.detached, tx)
  }

  lemma MinedRetains(sys: System, m: Member, self: Address, tx: Transaction)
    requires Retains(m)
    requires ValidateAck(m.node.settings, m.node.current, m.node.expected, tx, true).None?
    ensures Retains(Mined(sys, m, self, tx))
  {
    if tx.gasPrice >= m.node.settings.gasPrice {
      AckedIsAcceptable(m.node.settings, m.node.current, m.node.expected, tx, true);
    }
    hide Acceptable, ValidateAck, Confirms, Cast;
  }

  lemma ImportedRetains(sys: System, m: Member, b: Block)
    requires Retains(m) && Succeeds(sys.chain, m.node, b)
    ensures Retains(Imported(sys, m, b))
  {
    var c, n := sys.chain, m.node;
    var r, m' := Process(c, n, b), Imported(sys, m, b);
    hide Process, Acceptable;
    ProcessInv(c, n, b);
    ProcessOnePerSender(c, n, b);
    forall tx | tx in m'.confirmations && tx.gasPrice >= m'.node.settings.gasPrice
      ensures Acceptable(m'.node.settings, tx) && Accounted(m'.node.confirmed, m'.history, m'.node.detached, tx)
    {
      hide NoncesMoved, OnePerSender, ApplyAll, Extends, AppliedTxs;
      if tx !in m.confirmations {
        AcksAcceptable(c, n, b, tx);
      }
      if tx in n.confirmed || tx !in m.confirmations {
        BlockAccounts(c, n, b, tx);
      } else if tx !in m.history {
        NeverBackwards(n.detached, r.ledger, tx.signer.value);
      }
    }
  }

  lemma AcksAcceptable(c: Chain, n: NodeState, b: Block, tx: Transaction)
    requires tx in Process(c, n, b).acks
    ensures Acceptable(n.settings, tx)
  {
    var acks := AcksOf(c, n, b);
    RetryKeepsAcks(c, acks, |acks.node.confirmed|);
    assert AcksHandled(n, Open(n, b.gasLimit));
    AckLoopHandled(c, n, Open(n, b.gasLimit), b.author, b.txs);
  }

  lemma MemberRetains(sys: System, net: Network, act: Action)
    requires Enabled(sys, net, act) && Smooth(sys, net, act) && Retains(net[act.at])
    ensures Retains(After(sys, net[act.at], act))
  {
    match act
    case Mine(a, tx) => MinedRetains(sys, net[a], a, tx);
    case Receive(a, b) => ImportedRetains(sys, net[a], b);
    case _ =>
  }

  lemma StartRetains(sys: System, net: Network, a: Address)
    requires Init(sys, net) && a in net
    ensures Retains(net[a])
  {
  }

  /**
   Over every run in which blocks import without error and settings stay fixed, each confirmed
   transaction priced at or above the pool's minimum is applied, queued or overtaken.
   */
  lemma {:induction false} RunRetains(sys: System, nets: seq<Network>, acts: seq<Action>, a: Address)
    requires Run(sys, nets, acts)
    requires forall i :: 0 <= i < |acts| ==> acts[i].at in nets[i] && Smooth(sys, nets[i], acts[i])
    requires a in nets[|nets| - 1]
    ensures Retains(nets[|nets| - 1][a])
    decreases |nets|
  {
    hide Retains, Smooth, After, Enabled, Init;
    if |acts| == 0 {
      StartRetains(sys, nets[0], a);
    } else {
      var k := |acts|;
      assert Run(sys, nets[..k], acts[..k - 1]);
      assert Step(sys, nets[k - 1], nets[k], acts[k - 1]);
      hide Run;
      RunRetains(sys, nets[..k], acts[..k - 1], a);
      if acts[k - 1].at == a {
        MemberRetains(sys, nets[k - 1], acts[k - 1]);
      }
    }
  }

  /** Whatever took this transaction's place in the history is this transaction. */
  lemma OvertakenByItself(sys: System, net: Network, a: Address, tx: Transaction)
    requires Inv(sys, net) && Agreement(net) && a in net && tx in net[a].confirmations
    requires tx.signer.Some?
    requires NonceOf(sys.genesis, External(tx.signer.value)) <= tx.nonce
      < NonceOf(net[a].node.detached, External(tx.signer.value))
    ensures tx in net[a].history
  {
    var m, key := net[a], tx.signer.value;
    assert MemberInv(sys, net, m);
    var i := tx.nonce - NonceOf(sys.genesis, External(key));
    assert i < |HistoryOf(m.history, key)|;
    hide Inv, MemberInv, HistoryOf;
    HistoryEntry(sys, net, m, key, i);
    HistoryMembers(m.history, key);
    assert HistoryOf(m.history, key)[i] in HistoryOf(m.history, key);
  }

  /** Under agreement none is even overtaken: it is committed or still queued. */
  lemma NoneLost(sys: System, nets: seq<Network>, acts: seq<Action>, a: Address, tx: Transaction)
    requires WellFormed(sys) && Run(sys, nets, acts) && Tolerable(sys, nets[|nets| - 1])
    requires forall i :: 0 <= i < |acts| ==> acts[i].at in nets[i] && Smooth(sys, nets[i], acts[i])
    requires a in nets[|nets| - 1] && tx in nets[|nets| - 1][a].confirmations
    requires tx.gasPrice >= nets[|nets| - 1][a].node.settings.gasPrice
    requires tx.signer.Some? && tx.nonce >= NonceOf(sys.genesis, External(tx.signer.value))
    ensures var m := nets[|nets| - 1][a]; tx in m.history || tx in m.node.confirmed
  {
    hide Inv, Agreement, Step, Init, Smooth, WellFormed, Tolerable, Acceptable;
    RunInvariant(sys, nets, acts);
    RunAgreement(sys, nets, acts);
    RunRetains(sys, nets, acts, a);
    var m := nets[|nets| - 1][a];
    if tx.nonce < NonceOf(m.node.detached, External(tx.signer.value)) {
      OvertakenByItself(sys, nets[|nets| - 1], a, tx);
    }
  }
}
