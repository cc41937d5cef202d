/**
 Honest nodes exchanging blocks with each other and with Byzantine validators. Blocks arrive
 in any order, any number of times; a Byzantine author may put anything in them.
 */
module Network {
  import opened Types
  import opened Gas
  import opened Ledger
  import opened Ballots
  import opened Processor

  /** The validators' stake is what the first state held, and never changes. */
  datatype System = System(chain: Chain, validators: set<Address>, total: nat, genesis: World)

  ghost predicate WellFormed(sys: System)
  {
    && sys.chain.quorum == Quorum(sys.total)
    && StakeOf(sys.chain.stake, sys.validators) <= sys.total
  }

  /**
   An honest node with the block it is building and its past: what it acked itself, what acks
   confirmed to it, and what was committed to its detached state, in order.
   */
  datatype Member = Member(
    node: NodeState,
    work: Work,
    acked: set<Transaction>,
    confirmations: set<Transaction>,
    history: seq<Transaction>)

  /** The honest nodes, each under the address it signs blocks with. */
  type Network = map<Address, Member>

  // ---------- Steps ----------

  /** A node before its first action, where the genesis state is empty. */
  function Newcomer(p: Settings): Member
  {
    Member(NodeState(p, map[], map[], map[], map[], []), Work(map[], 0, []), {}, {}, [])
  }

  ghost predicate Init(sys: System, net: Network)
  {
    forall a :: a in net ==>
      && net[a].node.current == net[a].node.detached == sys.genesis
      && net[a].node.expected == map[]
      && net[a].node.ballots == map[]
      && net[a].node.confirmed == []
      && net[a].work.txs == []
      && net[a].acked == {} && net[a].confirmations == {} && net[a].history == []
  }

  ghost function Mined(sys: System, m: Member, self: Address, tx: Transaction): Member
    requires ValidateAck(m.node.settings, m.node.current, m.node.expected, tx, true).None?
  {
    Member(LocalAck(sys.chain, m.node, tx, self),
           Commit(sys.chain, m.node, m.work, tx, self),
           m.acked + {tx},
           if Confirms(sys.chain, m.node, tx, self) then m.confirmations + {tx} else m.confirmations,
           m.history)
  }

  /** The block a node has built is written with the state that building it led to. */
  function Sealed(m: Member): Member { m.(node := WriteBlock(m.node, m.work.state, true)) }

  function AppliedTxs(receipts: seq<Receipt>): seq<Transaction>
  {
    seq(|receipts|, i requires 0 <= i < |receipts| => receipts[i].tx)
  }

  ghost function Imported(sys: System, m: Member, b: Block): Member
  {
    var r := Process(sys.chain, m.node, b);
    Member(Import(sys.chain, m.node, b),
           m.work,
           m.acked,
           m.confirmations + (set tx | tx in r.acks),
           if r.ledger.err.None? then m.history + AppliedTxs(r.ledger.receipts) else m.history)
  }

  /** Honest blocks carry only what passed the author's local ack path; other blocks anything. */
  ghost predicate Deliverable(sys: System, net: Network, b: Block)
  {
    && b.author in sys.validators
    && (b.author in net ==> forall tx :: tx in b.txs ==> tx in net[b.author].acked)
  }

  datatype Action =
    | Prepare(at: Address, gasLimit: nat)
    | Mine(at: Address, tx: Transaction)
    | Seal(at: Address)
    | Receive(at: Address, block: Block)
    | Reset(at: Address, settings: Settings)

  ghost predicate Enabled(sys: System, net: Network, act: Action)
  {
    && act.at in net
    && match act
       case Mine(a, tx) =>
         var n := net[a].node;
         a in sys.validators && ValidateAck(n.settings, n.current, n.expected, tx, true).None?
       case Receive(a, b) => Deliverable(sys, net, b)
       case _ => true
  }

  ghost function After(sys: System, m: Member, act: Action): Member
    requires act.Mine? ==> ValidateAck(m.node.settings, m.node.current, m.node.expected, act.tx, true).None?
  {
    match act
    case Prepare(a, gasLimit) => m.(work := NewWork(m.node, gasLimit))
    case Mine(a, tx) => Mined(sys, m, a, tx)
    case Seal(a) => Sealed(m)
    case Receive(a, b) => Imported(sys, m, b)
    case Reset(a, p) => m.(node := m.node.(current := m.node.detached, settings := p))
  }

  ghost function Next(sys: System, net: Network, act: Action): Network
    requires Enabled(sys, net, act)
  {
    net[act.at := After(sys, net[act.at], act)]
  }

  lemma StepKeys(sys: System, net: Network, act: Action)
    requires Enabled(sys, net, act)
    ensures Next(sys, net, act).Keys == net.Keys
  {
  }

  ghost predicate Step(sys: System, net: Network, net': Network, act: Action)
  {
    Enabled(sys, net, act) && net' == Next(sys, net, act)
  }

  /** A run from genesis: one action between each network and the next. */
  ghost predicate Run(sys: System, nets: seq<Network>, acts: seq<Action>)
  {
    && |nets| == |acts| + 1
    && Init(sys, nets[0])
    && forall i :: 0 <= i < |acts| ==> Step(sys, nets[i], nets[i + 1], acts[i])
  }

  /** Some run of the system ends in `net`. */
  ghost predicate Reachable(sys: System, net: Network)
  {
    exists nets, acts :: Run(sys, nets, acts) && nets[|nets| - 1] == net
  }

  lemma ReachNext(sys: System, net: Network, act: Action)
    requires Reachable(sys, net) && Enabled(sys, net, act)
    ensures Reachable(sys, Next(sys, net, act))
  {
    var nets, acts :| Run(sys, nets, acts) && nets[|nets| - 1] == net;
    var nets', acts' := nets + [Next(sys, net, act)], acts + [act];
    hide Next, Enabled, Init;
    assert nets'[0] == nets[0];
    forall i | 0 <= i < |acts'| ensures Step(sys, nets'[i], nets'[i + 1], acts'[i]) {
      if i < |acts| {
        assert Step(sys, nets[i], nets[i + 1], acts[i]);
      }
    }
    assert Run(sys, nets', acts');
  }

  // ---------- The invariant ----------

  /** A node acks one transaction per sender and nonce, because the next expected nonce only rises. */
  ghost predicate AckedOnce(m: Member)
  {
    && (forall tx :: tx in m.acked ==>
          tx.signer.Some? && tx.nonce < ExpectedNonce(m.node.expected, External(tx.signer.value)))
    && (forall tx, tx' :: tx in m.acked && tx' in m.acked && SlotOf(tx) == SlotOf(tx') ==> tx == tx')
  }

  /** What a node puts in its blocks passed its own ack path, as others rely on. */
  ghost predicate WorkAcked(m: Member) { forall tx :: tx in m.work.txs ==> tx in m.acked }

  /** An honest validator's ballot, at whatever node, is for something that validator acked. */
  ghost predicate Genuine(sys: System, net: Network, s: Slot, v: Address, h: Hash)
  {
    && v in sys.validators
    && (v in net ==> h.tx in net[v].acked && h.tx.signer.Some? && SlotOf(h.tx) == s)
  }

  ghost predicate BallotsGenuine(sys: System, net: Network, b: Ballots)
  {
    forall s, v :: v in VotesIn(b, s) ==> Genuine(sys, net, s, v, VotesIn(b, s)[v])
  }

  ghost predicate ConfirmedByQuorum(sys: System, m: Member)
  {
    && (forall tx :: tx in m.confirmations ==>
          tx.signer.Some? && Weight(sys.chain.stake, m.node.ballots, SlotOf(tx), HashOf(tx)) > sys.chain.quorum)
    && (forall tx :: tx in m.node.confirmed ==> tx in m.confirmations)
    && (forall tx :: tx in m.history ==> tx in m.confirmations)
  }

  function HistoryOf(txs: seq<Transaction>, key: nat): seq<Transaction>
  {
    if txs == [] then [] else
    var tx := txs[|txs| - 1];
    HistoryOf(txs[..|txs| - 1], key) + if tx.signer == Some(key) then [tx] else []
  }

  /** Each sender's committed transactions carry consecutive nonces from the genesis nonce on. */
  ghost predicate Consecutive(genesis: World, w: World, txs: seq<Transaction>)
  {
    forall key: nat ::
      var h := HistoryOf(txs, key);
      && NonceOf(w, External(key)) == NonceOf(genesis, External(key)) + |h|
      && forall i :: 0 <= i < |h| ==> h[i].nonce == NonceOf(genesis, External(key)) + i
  }

  ghost predicate MemberInv(sys: System, net: Network, m: Member)
  {
    && AckedOnce(m)
    && WorkAcked(m)
    && BallotsGenuine(sys, net, m.node.ballots)
    && ConfirmedByQuorum(sys, m)
    && Consecutive(sys.genesis, m.node.detached, m.history)
  }

  ghost predicate Inv(sys: System, net: Network)
  {
    forall a :: a in net ==> MemberInv(sys, net, net[a])
  }

  // ---------- Histories ----------

  lemma {:induction false} HistoryConcat(txs: seq<Transaction>, more: seq<Transaction>, key: nat)
    ensures HistoryOf(txs + more, key) == HistoryOf(txs, key) + HistoryOf(more, key)
  {
    if more == [] {
      assert txs + more == txs;
    } else {
      HistoryConcat(txs, more[..|more| - 1], key);
      assert (txs + more)[..|txs + more| - 1] == txs + more[..|more| - 1];
    }
  }

  lemma {:induction false} HistoryMembers(txs: seq<Transaction>, key: nat)
    ensures forall tx :: tx in HistoryOf(txs, key) ==> tx in txs && tx.signer == Some(key)
  {
    if txs != [] {
      HistoryMembers(txs[..|txs| - 1], key);
    }
  }

  lemma NoSenders()
    ensures Senders([]) == {}
  {
  }

  lemma LastOfBlock(start: World, rest: seq<Receipt>, last: Receipt, key: nat)
    requires OnePerSender(start, rest + [last])
    ensures OnePerSender(start, rest)
    ensures var sender := Some(External(key));
      && (sender in Senders(rest + [last]) <==> sender in Senders(rest) || last.tx.signer == Some(key))
      && (last.tx.signer == Some(key) ==> sender !in Senders(rest) && last.tx.nonce == NonceOf(start, External(key)))
  {
    SendersSnoc(rest, last);
    var receipts := rest + [last];
    assert forall i :: 0 <= i < |rest| ==> rest[i] == receipts[i];
    assert last == receipts[|rest|];
  }

  /** A block with one transaction per sender adds one entry to the histories it moves. */
  lemma {:induction false} HistoryOfBlock(start: World, receipts: seq<Receipt>, key: nat)
    requires OnePerSender(start, receipts)
    ensures var h := HistoryOf(AppliedTxs(receipts), key);
      && |h| == (if Some(External(key)) in Senders(receipts) then 1 else 0)
      && forall i :: 0 <= i < |h| ==> h[i].nonce == NonceOf(start, External(key))
  {
    hide OnePerSender, Senders, NonceOf;
    if receipts == [] {
      NoSenders();
    } else {
      var rest, last := receipts[..|receipts| - 1], receipts[|receipts| - 1];
      assert receipts == rest + [last];
      LastOfBlock(start, rest, last, key);
      HistoryOfBlock(start, rest, key);
      assert AppliedTxs(receipts)[..|receipts| - 1] == AppliedTxs(rest);
    }
  }

  lemma ConsecutiveAfterBlock(genesis: World, start: World, txs: seq<Transaction>, l: Ledger)
    requires Consecutive(genesis, start, txs)
    requires OnePerSender(start, l.receipts) && NoncesMoved(start, l)
    ensures Consecutive(genesis, l.world, txs + AppliedTxs(l.receipts))
  {
    forall key: nat
      ensures var h := HistoryOf(txs + AppliedTxs(l.receipts), key);
        && NonceOf(l.world, External(key)) == NonceOf(genesis, External(key)) + |h|
        && forall i :: 0 <= i < |h| ==> h[i].nonce == NonceOf(genesis, External(key)) + i
    {
      hide HistoryOf, Senders, AppliedTxs, OnePerSender;
      HistoryConcat(txs, AppliedTxs(l.receipts), key);
      HistoryOfBlock(start, l.receipts, key);
      assert External(key).External?;
    }
  }

  // ---------- Every step keeps the invariant ----------

  /** Acks are never withdrawn, so ballots that were genuine stay so. */
  lemma GenuineStays(sys: System, net: Network, net': Network, b: Ballots)
    requires net'.Keys == net.Keys
    requires forall a :: a in net ==> net[a].acked <= net'[a].acked
    requires BallotsGenuine(sys, net, b)
    ensures BallotsGenuine(sys, net', b)
  {
    forall s, v | v in VotesIn(b, s) ensures Genuine(sys, net', s, v, VotesIn(b, s)[v]) {
      assert Genuine(sys, net, s, v, VotesIn(b, s)[v]);
    }
  }

  lemma MinedAckedOnce(sys: System, m: Member, self: Address, tx: Transaction)
    requires AckedOnce(m)
    requires ValidateAck(m.node.settings, m.node.current, m.node.expected, tx, true).None?
    ensures AckedOnce(Mined(sys, m, self, tx))
  {
    hide Confirms, Cast, CheckIntrinsic, Fee;
  }

  lemma MinedWorkAcked(sys: System, m: Member, self: Address, tx: Transaction)
    requires WorkAcked(m)
    requires ValidateAck(m.node.settings, m.node.current, m.node.expected, tx, true).None?
    ensures WorkAcked(Mined(sys, m, self, tx))
  {
    hide Confirms, Cast, ValidateAck, Transition, PoolOnRefusal;
  }

  lemma MinedConfirmed(sys: System, m: Member, self: Address, tx: Transaction)
    requires ConfirmedByQuorum(sys, m)
    requires ValidateAck(m.node.settings, m.node.current, m.node.expected, tx, true).None?
    ensures ConfirmedByQuorum(sys, Mined(sys, m, self, tx))
  {
    assert tx.signer.Some?;
    hide Weight, Cast, ValidateAck, VotesIn;
    var b := m.node.ballots;
    var b' := Cast(b, SlotOf(tx), self, HashOf(tx));
    CastExtends(b, SlotOf(tx), self, HashOf(tx));
    forall t | t in m.confirmations ensures Weight(sys.chain.stake, b', SlotOf(t), HashOf(t)) > sys.chain.quorum {
      WeightMonotone(sys.chain.stake, b, b', SlotOf(t), HashOf(t));
    }
  }

  lemma MinedGenuine(sys: System, net: Network, self: Address, tx: Transaction)
    requires self in net && self in sys.validators
    requires BallotsGenuine(sys, net, net[self].node.ballots)
    requires ValidateAck(net[self].node.settings, net[self].node.current, net[self].node.expected, tx, true).None?
    ensures var m' := Mined(sys, net[self], self, tx);
      BallotsGenuine(sys, net[self := m'], m'.node.ballots)
  {
    assert tx.signer.Some?;
    hide ValidateAck, Confirms;
    var m' := Mined(sys, net[self], self, tx);
    var net' := net[self := m'];
    GenuineStays(sys, net, net', net[self].node.ballots);
    CastExtends(net[self].node.ballots, SlotOf(tx), self, HashOf(tx));
  }

  lemma ImportedGenuine(sys: System, net: Network, a: Address, b: Block)
    requires a in net && Deliverable(sys, net, b)
    requires BallotsGenuine(sys, net, net[a].node.ballots)
    ensures BallotsGenuine(sys, net, Imported(sys, net[a], b).node.ballots)
  {
    hide Process;
    ProcessSound(sys.chain, net[a].node, b);
    var n, r := net[a].node, Process(sys.chain, net[a].node, b);
    forall s, v | v in VotesIn(r.node.ballots, s) ensures Genuine(sys, net, s, v, VotesIn(r.node.ballots, s)[v]) {
      if v in VotesIn(n.ballots, s) {
        assert Genuine(sys, net, s, v, VotesIn(n.ballots, s)[v]);
      }
    }
  }

  lemma ImportedConfirmed(sys: System, m: Member, b: Block)
    requires ConfirmedByQuorum(sys, m)
    ensures ConfirmedByQuorum(sys, Imported(sys, m, b))
  {
    hide Process, Weight, VotesIn, ApplyAll;
    var c, n, r := sys.chain, m.node, Process(sys.chain, m.node, b);
    ProcessInv(c, n, b);
    ProcessSound(c, n, b);
    forall tx | tx in m.confirmations ensures Weight(c.stake, r.node.ballots, SlotOf(tx), HashOf(tx)) > c.quorum {
      WeightMonotone(c.stake, n.ballots, r.node.ballots, SlotOf(tx), HashOf(tx));
    }
    forall tx | tx in AppliedTxs(r.ledger.receipts)
      ensures tx in m.confirmations || tx in r.acks
    {
      var i :| 0 <= i < |r.ledger.receipts| && r.ledger.receipts[i].tx == tx;
      AppliedWasConfirmed(c, n, b, r.ledger.receipts[i]);
    }
  }

  lemma ImportedConsecutive(sys: System, m: Member, b: Block)
    requires Consecutive(sys.genesis, m.node.detached, m.history)
    ensures var m' := Imported(sys, m, b); Consecutive(sys.genesis, m'.node.detached, m'.history)
  {
    hide Process, Consecutive, NoncesMoved, OnePerSender;
    ProcessInv(sys.chain, m.node, b);
    ProcessOnePerSender(sys.chain, m.node, b);
    ConsecutiveAfterBlock(sys.genesis, m.node.detached, m.history, Process(sys.chain, m.node, b).ledger);
  }

  lemma MemberStep(sys: System, net: Network, act: Action)
    requires act.at in net && MemberInv(sys, net, net[act.at]) && Enabled(sys, net, act)
    ensures var m' := After(sys, net[act.at], act);
      && net[act.at].acked <= m'.acked
      && MemberInv(sys, net[act.at := m'], m')
  {
    var a := act.at;
    var m, m' := net[a], After(sys, net[a], act);
    hide AckedOnce, ConfirmedByQuorum, Consecutive, BallotsGenuine;
    match act
    case Mine(_, tx) =>
      MinedAckedOnce(sys, m, a, tx);
      MinedWorkAcked(sys, m, a, tx);
      MinedConfirmed(sys, m, a, tx);
      MinedGenuine(sys, net, a, tx);
    case Receive(_, b) =>
      assert AckedOnce(m') by { ImportKeepsExpected(sys, m, b); }
      ImportedConfirmed(sys, m, b);
      ImportedConsecutive(sys, m, b);
      ImportedGenuine(sys, net, a, b);
      GenuineStays(sys, net, net[a := m'], m'.node.ballots);
    case _ =>
      QuietKeeps(sys, m, act);
      GenuineStays(sys, net, net[a := m'], m'.node.ballots);
  }

  lemma ImportKeepsExpected(sys: System, m: Member, b: Block)
    requires AckedOnce(m)
    ensures AckedOnce(Imported(sys, m, b))
  {
    hide Process;
    ProcessInv(sys.chain, m.node, b);
  }

  /** Preparing and sealing a block and resetting the pool touch neither votes nor histories. */
  lemma QuietKeeps(sys: System, m: Member, act: Action)
    requires !act.Mine? && !act.Receive?
    ensures var m' := After(sys, m, act);
      && m'.node.ballots == m.node.ballots && m'.acked == m.acked
      && (AckedOnce(m) ==> AckedOnce(m'))
      && (WorkAcked(m) ==> WorkAcked(m'))
      && (ConfirmedByQuorum(sys, m) ==> ConfirmedByQuorum(sys, m'))
      && (Consecutive(sys.genesis, m.node.detached, m.history) ==>
            Consecutive(sys.genesis, m'.node.detached, m'.history))
  {
    hide Weight, HistoryOf;
  }

  lemma OthersKeepInv(sys: System, net: Network, net': Network, m: Member)
    requires net'.Keys == net.Keys
    requires forall a :: a in net ==> net[a].acked <= net'[a].acked
    requires MemberInv(sys, net, m)
    ensures MemberInv(sys, net', m)
  {
    hide AckedOnce, ConfirmedByQuorum, Consecutive, BallotsGenuine;
    GenuineStays(sys, net, net', m.node.ballots);
  }

  lemma UpdateInv(sys: System, net: Network, at: Address, m: Member)
    requires Inv(sys, net) && at in net
    requires net[at].acked <= m.acked && MemberInv(sys, net[at := m], m)
    ensures Inv(sys, net[at := m])
  {
    hide MemberInv;
    var net' := net[at := m];
    forall a | a in net' ensures MemberInv(sys, net', net'[a]) {
      if a != at {
        OthersKeepInv(sys, net, net', net[a]);
      }
    }
  }

  lemma StepInv(sys: System, net: Network, net': Network, act: Action)
    requires Inv(sys, net) && Step(sys, net, net', act)
    ensures Inv(sys, net')
  {
    assert act.at in net && MemberInv(sys, net, net[act.at]);
    hide MemberInv, After, Enabled, ValidateAck, Inv;
    MemberStep(sys, net, act);
    UpdateInv(sys, net, act.at, After(sys, net[act.at], act));
  }

  lemma InitInv(sys: System, net: Network)
    requires Init(sys, net)
    ensures Inv(sys, net)
  {
  }

  lemma {:induction false} RunInvariant(sys: System, nets: seq<Network>, acts: seq<Action>)
    requires Run(sys, nets, acts)
    ensures Inv(sys, nets[|nets| - 1])
    decreases |nets|
  {
    if |acts| == 0 {
      InitInv(sys, nets[0]);
    } else {
      hide Inv, Init, Step;
      var k := |acts|;
      assert Run(sys, nets[..k], acts[..k - 1]);
      RunInvariant(sys, nets[..k], acts[..k - 1]);
      assert Step(sys, nets[k - 1], nets[k], acts[k - 1]);
      StepInv(sys, nets[k - 1], nets[k], acts[k - 1]);
    }
  }

  // ---------- Agreement ----------

  ghost function Byzantine(sys: System, net: Network): set<Address> { sys.validators - net.Keys }

  /** The stake of dishonest validators is less than any two quorums share. */
  ghost predicate Tolerable(sys: System, net: Network)
  {
    StakeOf(sys.chain.stake, Byzantine(sys, net)) < SharedStake(sys.total)
  }

  ghost predicate Agreement(net: Network)
  {
    forall a, a', tx, tx' ::
      && a in net && a' in net
      && tx in net[a].confirmations && tx' in net[a'].confirmations
      && tx.signer.Some? && tx'.signer.Some?
      && SlotOf(tx) == SlotOf(tx')
      ==> tx == tx'
  }

  /** Two quorums share an honest validator, and that one acked a single transaction. */
  lemma QuorumAgreement(sys: System, net: Network, a: Address, a': Address, tx: Transaction, tx': Transaction)
    requires WellFormed(sys) && Tolerable(sys, net) && Inv(sys, net)
    requires a in net && a' in net
    requires tx in net[a].confirmations && tx' in net[a'].confirmations
    requires tx.signer.Some? && tx'.signer.Some? && SlotOf(tx) == SlotOf(tx')
    ensures tx == tx'
  {
    var s, stake := SlotOf(tx), sys.chain.stake;
    var b, b' := net[a].node.ballots, net[a'].node.ballots;
    assert MemberInv(sys, net, net[a]) && MemberInv(sys, net, net[a']);
    var vs, ws := Supporters(b, s, HashOf(tx)), Supporters(b', s, HashOf(tx'));
    assert StakeOf(stake, vs) > Quorum(sys.total) && StakeOf(stake, ws) > Quorum(sys.total);
    hide StakeOf, AckedOnce, Consecutive, ConfirmedByQuorum;
    assert forall v :: v in vs ==> Genuine(sys, net, s, v, HashOf(tx));
    assert forall v :: v in ws ==> Genuine(sys, net, s, v, HashOf(tx'));
    QuorumsIntersect(stake, sys.validators, sys.total, vs, ws);
    if vs * ws <= Byzantine(sys, net) {
      StakeMonotone(stake, vs * ws, Byzantine(sys, net));
      assert false;
    }
    var v :| v in vs * ws && v !in Byzantine(sys, net);
    assert Genuine(sys, net, s, v, HashOf(tx)) && Genuine(sys, net, s, v, HashOf(tx'));
    assert MemberInv(sys, net, net[v]);
    OneAckPerSlot(net[v], tx, tx');
  }

  lemma OneAckPerSlot(m: Member, tx: Transaction, tx': Transaction)
    requires AckedOnce(m) && tx in m.acked && tx' in m.acked
    requires tx.signer.Some? && tx'.signer.Some? && SlotOf(tx) == SlotOf(tx')
    ensures tx == tx'
  {
  }

  /** No two honest nodes ever see different transactions of one sender and nonce confirmed. */
  lemma RunAgreement(sys: System, nets: seq<Network>, acts: seq<Action>)
    requires WellFormed(sys) && Run(sys, nets, acts)
    requires Tolerable(sys, nets[|nets| - 1])
    ensures Agreement(nets[|nets| - 1])
  {
    RunInvariant(sys, nets, acts);
    var net := nets[|nets| - 1];
    hide Inv, Tolerable, Run;
    forall a, a', tx, tx' |
      && a in net && a' in net
      && tx in net[a].confirmations && tx' in net[a'].confirmations
      && tx.signer.Some? && tx'.signer.Some?
      && SlotOf(tx) == SlotOf(tx')
      ensures tx == tx'
    {
      QuorumAgreement(sys, net, a, a', tx, tx');
    }
  }

  /** Dishonest stake of up to three fifths is always tolerable. */
  lemma ThreeFifthsTolerable(sys: System, net: Network)
    requires 5 * StakeOf(sys.chain.stake, Byzantine(sys, net)) <= 3 * sys.total
    ensures Tolerable(sys, net)
  {
  }

  // ---------- One node by itself ----------

  /** In every reachable state, however much stake is dishonest, one hash per slot exceeds the quorum at most. */
  lemma RunOneHashPerNode(sys: System, net: Network, a: Address, s: Slot, h: Hash, h': Hash)
    requires WellFormed(sys) && Reachable(sys, net) && a in net
    requires Weight(sys.chain.stake, net[a].node.ballots, s, h) > sys.chain.quorum
    requires Weight(sys.chain.stake, net[a].node.ballots, s, h') > sys.chain.quorum
    ensures h == h'
  {
    var nets, acts :| Run(sys, nets, acts) && nets[|nets| - 1] == net;
    hide Run, Weight, StakeOf;
    RunInvariant(sys, nets, acts);
    var b := net[a].node.ballots;
    assert MemberInv(sys, net, net[a]);
    forall v | v in Voters(b, s) ensures v in sys.validators {
      assert Genuine(sys, net, s, v, VotesIn(b, s)[v]);
    }
    OneHashPerNode(sys.chain.stake, sys.validators, sys.total, b, s, h, h');
  }

  // ---------- Agreement on every sender's history ----------

  ghost predicate Prefix(h: seq<Transaction>, h': seq<Transaction>) { h <= h' || h' <= h }

  /** The i-th entry of a sender's history was confirmed, and its nonce is fixed by its place. */
  lemma HistoryEntry(sys: System, net: Network, m: Member, key: nat, i: nat)
    requires MemberInv(sys, net, m) && i < |HistoryOf(m.history, key)|
    ensures var tx := HistoryOf(m.history, key)[i];
      && tx in m.confirmations
      && tx.signer == Some(key)
      && tx.nonce == NonceOf(sys.genesis, External(key)) + i
  {
    HistoryMembers(m.history, key);
    hide AckedOnce, BallotsGenuine, Weight;
    assert HistoryOf(m.history, key)[i] in HistoryOf(m.history, key);
  }

  lemma HistoriesAgree(sys: System, net: Network, a: Address, a': Address, key: nat)
    requires Inv(sys, net) && Agreement(net) && a in net && a' in net
    ensures Prefix(HistoryOf(net[a].history, key), HistoryOf(net[a'].history, key))
  {
    hide HistoryOf, MemberInv;
    var h, h' := HistoryOf(net[a].history, key), HistoryOf(net[a'].history, key);
    forall i | 0 <= i < |h| && i < |h'| ensures h[i] == h'[i] {
      HistoryEntry(sys, net, net[a], key, i);
      HistoryEntry(sys, net, net[a'], key, i);
    }
  }

  /**
   At the end of every run, and for every sender, what one honest node committed is a prefix of
   what any other committed, or the other way round.
   */
  lemma RunHistoriesAgree(sys: System, nets: seq<Network>, acts: seq<Action>, a: Address, a': Address, key: nat)
    requires WellFormed(sys) && Run(sys, nets, acts)
    requires Tolerable(sys, nets[|nets| - 1])
    requires a in nets[|nets| - 1] && a' in nets[|nets| - 1]
    ensures var net := nets[|nets| - 1];
      && Prefix(HistoryOf(net[a].history, key), HistoryOf(net[a'].history, key))
      && Consecutive(sys.genesis, net[a].node.detached, net[a].history)
  {
    RunInvariant(sys, nets, acts);
    RunAgreement(sys, nets, acts);
    HistoriesAgree(sys, nets[|nets| - 1], a, a', key);
  }

  // ---------- What moves the detached state ----------

  /** The transactions of a block that were applied, with the gas it had for them. */
  datatype Entry = Entry(txs: seq<Transaction>, gasLimit: nat)

  /** The state that applying blocks one after the other leads to. */
  function Replay(c: Chain, w: World, entries: seq<Entry>): World
  {
    if entries == [] then w else
    var last := entries[|entries| - 1];
    ApplyAll(c.evm, c.rules, Opening(Replay(c, w, entries[..|entries| - 1]), last.gasLimit), last.txs).world
  }

  /** The blocks one node imported with success in a run, in order. */
  ghost function ImportsOf(sys: System, nets: seq<Network>, acts: seq<Action>, a: Address): seq<Entry>
    requires |nets| == |acts| + 1
  {
    if acts == [] then [] else
    var k := |acts| - 1;
    ImportsOf(sys, nets[..k + 1], acts[..k], a) +
      match acts[k] {
        case Receive(at, b) =>
          if at == a && a in nets[k] && Succeeds(sys.chain, nets[k][a].node, b)
            then [Entry(Process(sys.chain, nets[k][a].node, b).attempts, b.gasLimit)] else []
        case _ => []
      }
  }

  lemma ReplaySnoc(c: Chain, w: World, entries: seq<Entry>, e: Entry)
    ensures Replay(c, w, entries + [e]) ==
      ApplyAll(c.evm, c.rules, Opening(Replay(c, w, entries), e.gasLimit), e.txs).world
  {
    assert (entries + [e])[..|entries|] == entries;
  }

  /** A step moves a node's detached state exactly when it imports a block with success. */
  lemma StepMovesDetached(sys: System, net: Network, act: Action, a: Address)
    requires Enabled(sys, net, act) && a in net
    ensures var n, n' := net[a].node, Next(sys, net, act)[a].node;
      n'.detached ==
        if act.Receive? && act.at == a && Succeeds(sys.chain, n, act.block)
          then ApplyAll(sys.chain.evm, sys.chain.rules, Opening(n.detached, act.block.gasLimit),
                        Process(sys.chain, n, act.block).attempts).world
          else n.detached
  {
    hide Process, ApplyAll, Confirms, Cast, ValidateAck;
    if act.Receive? && act.at == a {
      ProcessInv(sys.chain, net[a].node, act.block);
    }
  }

  /**
   Over every run a node's detached state is genesis advanced by exactly the blocks it imported
   with success. Blocks it mined were written with a state of their own and have moved nothing.
   */
  lemma {:induction false} DetachedIsReplay(sys: System, nets: seq<Network>, acts: seq<Action>, a: Address)
    requires Run(sys, nets, acts) && a in nets[|nets| - 1]
    ensures nets[|nets| - 1][a].node.detached == Replay(sys.chain, sys.genesis, ImportsOf(sys, nets, acts, a))
    decreases |nets|
  {
    if |acts| > 0 {
      hide Init, Enabled, After, Succeeds, Process, ApplyAll;
      var k := |acts| - 1;
      assert Run(sys, nets[..k + 1], acts[..k]);
      assert Step(sys, nets[k], nets[k + 1], acts[k]);
      assert a in nets[k];
      DetachedIsReplay(sys, nets[..k + 1], acts[..k], a);
      StepMovesDetached(sys, nets[k], acts[k], a);
      var before := ImportsOf(sys, nets[..k + 1], acts[..k], a);
      if acts[k].Receive? && acts[k].at == a && Succeeds(sys.chain, nets[k][a].node, acts[k].block) {
        ReplaySnoc(sys.chain, sys.genesis, before,
                   Entry(Process(sys.chain, nets[k][a].node, acts[k].block).attempts, acts[k].block.gasLimit));
      } else {
        assert before + [] == before;
      }
    }
  }
}
