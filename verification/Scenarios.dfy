/**
 Runs from genesis, with honest validators only, that end in the situations the other results speak
 of: a confirmed transaction lost by a failing block, in either of its loops, or by a successful one;
 a node that no block gets past; a mined block whose state is not the detached one.
 */
module Scenarios {
  import opened Types
  import opened Gas
  import opened Ledger
  import opened Ballots
  import opened Processor
  import opened Turns
  import opened Network
  import opened Retention
  import opened Failures
  import opened Repeats

  // ---------- The cast ----------

  /** A pool that asks for a price. */
  const PRICED: Settings := Settings(1, 21000, true, true)
  const LAX_RULES: Rules := Rules(true, true)

  /** A transfer of nothing, for nothing, that uses all its gas. */
  function Ping(key: nat, nonce: nat): Transaction
  {
    Transaction(0, 100, Some(key), nonce, 0, 21000, Some(External(0)), 0, [], None)
  }

  const WATCHER := External(8)
  const MAJOR := External(9)
  const MINOR := External(10)

  /** One validator with all the stake. */
  function Alone(): System
  {
    System(Chain(0, map[MAJOR := 1], PlainTransfers(), LAX_RULES), {MAJOR}, 1, map[])
  }

  /** Two validators, one of them above the quorum. */
  function Pair(): System
  {
    System(Chain(4, map[MAJOR := 5, MINOR := 1], PlainTransfers(), LAX_RULES), {MAJOR, MINOR}, 6, map[])
  }

  lemma SystemsWellFormed()
    ensures WellFormed(Alone()) && WellFormed(Pair())
  {
    var stake := Pair().chain.stake;
    assert StakeOf(Alone().chain.stake, {}) == 0 && StakeOf(stake, {}) == 0;
    assert {} + {MAJOR} == {MAJOR} && {MAJOR} + {MINOR} == {MAJOR, MINOR};
    StakeAdd(Alone().chain.stake, {}, MAJOR);
    StakeAdd(stake, {}, MAJOR);
    StakeAdd(stake, {MAJOR}, MINOR);
  }

  // ---------- What a ping passes ----------

  lemma PingFacts(key: nat, nonce: nat)
    ensures IntrinsicGas(Ping(key, nonce), true, true) == Charge(21000)
    ensures CheckShape(LENIENT, Ping(key, nonce), true).None? && CheckShape(LENIENT, Ping(key, nonce), false).None?
    ensures CheckIntrinsic(LENIENT, Ping(key, nonce)).None? && Fee(21000, 0) == 0 && Cost(Ping(key, nonce)) == 0
    ensures Acceptable(LENIENT, Ping(key, nonce))
  {
    assert DataGas([], true) == 0;
    FeeIsProduct(21000, 0);
  }

  lemma PingValid(key: nat, nonce: nat, w: World)
    requires BalanceOf(w, External(key)) >= 0
    ensures ValidateTx(LENIENT, w, Ping(key, nonce), false) ==
      if NonceOf(w, External(key)) > nonce then Some(ErrNonceTooLow)
      else if NonceOf(w, External(key)) < nonce then Some(ErrNonceTooHigh) else None
  {
    hide CheckShape, CheckIntrinsic, Fee, Cost, Acceptable, IntrinsicGas;
    PingFacts(key, nonce);
  }

  lemma PingAck(key: nat, nonce: nat, w: World, expected: map<Address, nat>)
    requires BalanceOf(w, External(key)) >= 0
    ensures ValidateAck(LENIENT, w, expected, Ping(key, nonce), true) ==
      if ExpectedNonce(expected, External(key)) != nonce then Some(ErrUnexpectedNonce) else None
    ensures ValidateAck(LENIENT, w, expected, Ping(key, nonce), false) ==
      if NonceOf(w, External(key)) > nonce then Some(ErrNonceTooLow) else None
  {
    hide CheckShape, CheckIntrinsic, Fee, Cost, Acceptable, IntrinsicGas;
    PingFacts(key, nonce);
  }

  lemma PingChecks(w: World, pool: nat, key: nat, nonce: nat)
    requires NonceOf(w, External(key)) == nonce && BalanceOf(w, External(key)) >= 0
    ensures Checks(LAX_RULES, w, pool, Ping(key, nonce)) == if pool < 21000 then Some(ErrGasLimitReached) else None
  {
    hide Fee, IntrinsicGas, CheckShape, CheckIntrinsic, Acceptable;
    PingFacts(key, nonce);
  }

  lemma NothingLeft(call: CallResult, pool: nat, tx: Transaction, from: Address)
    requires call.gasLeft == 0 && call.refund == 0 && tx.gas <= pool
    ensures Settled(call, pool, tx, from).Executed? && Settled(call, pool, tx, from).pool == pool - tx.gas
  {
  }

  /** With room in the block it runs and uses the room up. */
  lemma PingRuns(w: World, pool: nat, key: nat, nonce: nat)
    requires NonceOf(w, External(key)) == nonce && BalanceOf(w, External(key)) >= 0
    ensures var r := Transition(PlainTransfers(), LAX_RULES, w, pool, Ping(key, nonce));
      if pool < 21000 then r.Rejected? else r.Executed? && r.pool == pool - 21000
  {
    hide Fee, IntrinsicGas, Checks, CheckShape, CheckIntrinsic, Acceptable, Transition, PlainTransfers, Cost;
    PingFacts(key, nonce);
    PingChecks(w, pool, key, nonce);
    if pool < 21000 {
      Refused(w, pool, Ping(key, nonce));
    } else {
      RunsUp(w, pool, Ping(key, nonce));
    }
  }

  lemma Refused(w: World, pool: nat, tx: Transaction)
    requires Checks(LAX_RULES, w, pool, tx).Some?
    ensures Transition(PlainTransfers(), LAX_RULES, w, pool, tx).Rejected?
  {
    hide Checks, IntrinsicGas, Fee;
  }

  /** Gas that only covers the intrinsic charge is used up. */
  lemma RunsUp(w: World, pool: nat, tx: Transaction)
    requires Checks(LAX_RULES, w, pool, tx).None? && tx.signer.Some? && tx.gas <= pool
    requires IntrinsicGas(tx, true, true) == Charge(tx.gas)
    ensures var r := Transition(PlainTransfers(), LAX_RULES, w, pool, tx); r.Executed? && r.pool == pool - tx.gas
  {
    hide Checks, IntrinsicGas, Fee, TransferCall, Settled, Started, PlainTransfers, Conserving, TotalBalance, Solvent;
    var from := External(tx.signer.value);
    var started := Started(w, tx, from);
    PlainTransfersCall(started, tx, 0);
    TransferCallMoves(started, tx, 0);
    NothingLeft(TransferCall(started, tx, 0), pool, tx, from);
  }

  /** Of two senders in a block with room for one the first runs and the second stops it. */
  lemma RoomForOne(c: Chain, n: NodeState, b: Block, key: nat, other: nat)
    requires c.evm == PlainTransfers() && c.rules == LAX_RULES && n.detached == map[] && b.gasLimit == 21000
    requires key != other
    ensures LedgerOf(c, n, b, []).err.None?
    ensures LedgerOf(c, n, b, [Ping(key, 0)]).err.None?
    ensures LedgerOf(c, n, b, [Ping(key, 0), Ping(other, 0)]).err.Some?
  {
    hide Transition, TransferCall;
    var x, y := Ping(key, 0), Ping(other, 0);
    LedgerStep(c, n, b, [], x);
    LedgerStep(c, n, b, [x], y);
    assert [] + [x] == [x] && [x] + [y] == [x, y];
    PingRuns(map[], 21000, key, 0);
    TransitionNonces(c.evm, c.rules, map[], 21000, x);
    TransitionConserves(c.evm, c.rules, map[], 21000, x);
    var l := LedgerOf(c, n, b, [x]);
    hide LedgerOf;
    PingRuns(l.world, 0, other, 0);
  }

  /** The first vote for a slot gives its hash the voter's stake. */
  lemma FirstVote(c: Chain, n: NodeState, tx: Transaction, v: Address)
    requires tx.signer.Some? && VotesIn(n.ballots, SlotOf(tx)) == map[]
    ensures Confirms(c, n, tx, v) <==> StakeAt(c.stake, v) > c.quorum
  {
    hide StakeOf;
    var s, h := SlotOf(tx), HashOf(tx);
    CastWeights(c.stake, n.ballots, s, v, h, s, h);
    assert Supporters(n.ballots, s, h) == {};
    assert StakeOf(c.stake, {}) == 0 by { NoStake(c.stake); }
  }

  lemma NoStake(stake: Stake)
    ensures StakeOf(stake, {}) == 0
  {
  }

  // ---------- Getting started ----------

  lemma ReachStart(sys: System, net: Network)
    requires sys.genesis == map[] && forall a :: a in net ==> net[a] == Newcomer(net[a].node.settings)
    ensures Reachable(sys, net)
  {
    assert Run(sys, [net], []);
    assert [net][|[net]| - 1] == net;
  }

  /** A validator without votes of its own for a slot acks a ping. */
  lemma ReachMined(sys: System, net: Network, a: Address, key: nat, nonce: nat)
    requires Reachable(sys, net) && a in net && a in sys.validators
    requires net[a].node.settings == LENIENT && BalanceOf(net[a].node.current, External(key)) >= 0
    requires ExpectedNonce(net[a].node.expected, External(key)) == nonce
    ensures ValidateAck(LENIENT, net[a].node.current, net[a].node.expected, Ping(key, nonce), true).None?
    ensures Reachable(sys, net[a := Mined(sys, net[a], a, Ping(key, nonce))])
  {
    hide ValidateAck, Mined, Reachable;
    PingAck(key, nonce, net[a].node.current, net[a].node.expected);
    ReachNext(sys, net, Mine(a, Ping(key, nonce)));
  }

  /** What such an ack does to a node that is above the quorum by itself. */
  lemma PingConfirmed(sys: System, m: Member, a: Address, key: nat, nonce: nat)
    requires StakeAt(sys.chain.stake, a) > sys.chain.quorum
    requires VotesIn(m.node.ballots, SlotOf(Ping(key, nonce))) == map[]
    requires ValidateAck(m.node.settings, m.node.current, m.node.expected, Ping(key, nonce), true).None?
    ensures var tx := Ping(key, nonce); var n, m' := m.node, Mined(sys, m, a, Ping(key, nonce));
      && m'.node == n.(ballots := Cast(n.ballots, SlotOf(tx), a, HashOf(tx)),
                       expected := n.expected[External(key) := nonce + 1],
                       confirmed := n.confirmed + [tx])
      && m'.acked == m.acked + {tx} && m'.confirmations == m.confirmations + {tx} && m'.history == m.history
  {
    hide Cast, ValidateAck, Confirms;
    FirstVote(sys.chain, m.node, Ping(key, nonce), a);
  }

  lemma MinedAcks(sys: System, m: Member, a: Address, tx: Transaction)
    requires ValidateAck(m.node.settings, m.node.current, m.node.expected, tx, true).None?
    ensures var m' := Mined(sys, m, a, tx);
      && tx.signer.Some? && m'.acked == m.acked + {tx}
      && m'.node.settings == m.node.settings && m'.node.current == m.node.current
      && m'.node.expected == m.node.expected[External(tx.signer.value) := tx.nonce + 1]
  {
    hide ValidateAck, Confirms, Cast, Commit;
    AckIsSigned(m.node.settings, m.node.current, m.node.expected, tx, true);
  }

  /** A validator acks two pings one after the other. */
  lemma ReachTwoMined(sys: System, net: Network, a: Address, k1: nat, n1: nat, k2: nat, n2: nat) returns (net': Network)
    requires Reachable(sys, net) && a in net && a in sys.validators && net[a] == Newcomer(LENIENT)
    requires n1 == 0 && (if k1 == k2 then n2 == 1 else n2 == 0)
    ensures Reachable(sys, net') && net'.Keys == net.Keys && forall x :: x in net && x != a ==> net'[x] == net[x]
    ensures net'[a].acked == {Ping(k1, n1), Ping(k2, n2)}
  {
    hide Reachable, ValidateAck, Mined;
    var m := Newcomer(LENIENT);
    ReachMined(sys, net, a, k1, n1);
    var m1 := Mined(sys, m, a, Ping(k1, n1));
    MinedAcks(sys, m, a, Ping(k1, n1));
    var net1 := net[a := m1];
    ReachMined(sys, net1, a, k2, n2);
    var m2 := Mined(sys, m1, a, Ping(k2, n2));
    MinedAcks(sys, m1, a, Ping(k2, n2));
    net' := net1[a := m2];
  }

  // ---------- Lost in the first loop ----------

  /** A transaction that was confirmed and is neither applied, nor listed, nor overtaken. */
  ghost predicate Lost(m: Member, tx: Transaction)
  {
    tx in m.confirmations && !Accounted(m.node.confirmed, m.history, m.node.detached, tx)
  }

  /** When importing a block loses a transaction. */
  lemma ImportLoses(sys: System, m: Member, b: Block, tx: Transaction)
    requires tx in m.node.confirmed || tx in Process(sys.chain, m.node, b).acks
    requires tx in m.confirmations || tx in Process(sys.chain, m.node, b).acks
    requires tx !in m.history && Loses(sys.chain, m.node, b, tx)
    ensures Lost(Imported(sys, m, b), tx)
  {
    hide Process, Loses, Past, AppliedTxs;
    BlockLoses(sys.chain, m.node, b, tx);
    ProcessInv(sys.chain, m.node, b);
  }

  /** Both acks confirm at once; the block has room for the first only. */
  lemma FullBlockTurns(n: NodeState, b: Block)
    requires n == Newcomer(LENIENT).node && b == Block(MAJOR, [Ping(1, 0), Ping(3, 0)], 21000)
    ensures var c := Alone().chain;
      && AckTurns(c, n, b, 1) == [Ping(1, 0)] && TurnsOf(c, n, b) == [Ping(1, 0), Ping(3, 0)]
      && AckConfirms(c, n, b, 0)
  {
    hide ValidateAck, ValidateTx, Confirms;
    var c := Alone().chain;
    PingAck(1, 0, map[], map[]);
    PingAck(3, 0, map[], map[]);
    PingValid(1, 0, map[]);
    PingValid(3, 0, map[]);
    FirstVote(c, n, Ping(1, 0), MAJOR);
    var votes := VotesAfter(n, b, 1);
    assert VotesIn(votes, SlotOf(Ping(3, 0))) == map[];
    FirstVote(c, n.(ballots := votes), Ping(3, 0), MAJOR);
    assert VotesAfter(n, b, 0) == n.ballots;
    assert AckTurns(c, n, b, 0) == [];
    assert AckDue(c, n, b, 0) && AckDue(c, n, b, 1);
    assert AckTurns(c, n, b, 1) == [] + [Ping(1, 0)];
    assert AckTurns(c, n, b, 2) == AckTurns(c, n, b, 1) + [Ping(3, 0)];
  }

  /** All validators are honest and a confirmed transaction is lost in the loop over the block's acks. */
  lemma AckLoopLoses() returns (net: Network)
    ensures WellFormed(Alone()) && Reachable(Alone(), net) && Byzantine(Alone(), net) == {}
    ensures WATCHER in net && Lost(net[WATCHER], Ping(1, 0))
  {
    hide Reachable, Process, LedgerOf, ValidateTx, Acceptable, Lost, WellFormed, Written, Imported, TurnsOf, AckTurns;
    var sys := Alone();
    SystemsWellFormed();
    var n0: Network := map[WATCHER := Newcomer(LENIENT), MAJOR := Newcomer(LENIENT)];
    ReachStart(sys, n0);
    var n1 := ReachTwoMined(sys, n0, MAJOR, 1, 0, 3, 0);
    var b := Block(MAJOR, [Ping(1, 0), Ping(3, 0)], 21000);
    ReachNext(sys, n1, Receive(WATCHER, b));
    net := Next(sys, n1, Receive(WATCHER, b));
    FullBlockLoses(sys, Newcomer(LENIENT), b);
  }

  lemma FullBlockLoses(sys: System, m: Member, b: Block)
    requires sys == Alone() && m == Newcomer(LENIENT) && b == Block(MAJOR, [Ping(1, 0), Ping(3, 0)], 21000)
    ensures Lost(Imported(sys, m, b), Ping(1, 0))
  {
    hide Process, LedgerOf, ValidateTx, Lost, Written, Imported, TurnsOf;
    var c, n := sys.chain, m.node;
    FullBlockTurns(n, b);
    RoomForOne(c, n, b, 1, 3);
    assert AckTurns(c, n, b, 0) == [];
    AckedAt(c, n, b, 0);
    PingValid(1, 0, map[]);
    PingFacts(1, 0);
    ImportLoses(sys, m, b, Ping(1, 0));
  }

  // ---------- Lost in the second loop ----------

  lemma OtherVotes(b: Ballots, s: Slot, v: Address, h: Hash, s': Slot)
    requires s' != s
    ensures VotesIn(Cast(b, s, v, h), s') == VotesIn(b, s')
  {
  }

  /** One validator acks three transactions, each of which its own stake confirms. */
  lemma ReachThreeMined(sys: System, net: Network) returns (net': Network)
    requires sys == Pair() && net == map[MAJOR := Newcomer(LENIENT), MINOR := Newcomer(LENIENT)] && Reachable(sys, net)
    ensures Reachable(sys, net') && net'.Keys == {MAJOR, MINOR}
    ensures var m := net'[MAJOR];
      && m.node.settings == LENIENT && m.node.current == m.node.detached == map[]
      && m.node.confirmed == [Ping(2, 0), Ping(2, 1), Ping(3, 0)]
      && m.confirmations == {Ping(2, 0), Ping(2, 1), Ping(3, 0)} && m.history == []
  {
    hide Reachable, ValidateAck, Mined, Cast;
    var m0 := Newcomer(LENIENT);
    ReachMined(sys, net, MAJOR, 2, 0);
    PingConfirmed(sys, m0, MAJOR, 2, 0);
    var m1 := Mined(sys, m0, MAJOR, Ping(2, 0));
    var net1 := net[MAJOR := m1];
    ReachMined(sys, net1, MAJOR, 2, 1);
    OtherVotes(map[], SlotOf(Ping(2, 0)), MAJOR, HashOf(Ping(2, 0)), SlotOf(Ping(2, 1)));
    PingConfirmed(sys, m1, MAJOR, 2, 1);
    var m2 := Mined(sys, m1, MAJOR, Ping(2, 1));
    var net2 := net1[MAJOR := m2];
    ReachMined(sys, net2, MAJOR, 3, 0);
    OtherVotes(map[], SlotOf(Ping(2, 0)), MAJOR, HashOf(Ping(2, 0)), SlotOf(Ping(3, 0)));
    OtherVotes(m1.node.ballots, SlotOf(Ping(2, 1)), MAJOR, HashOf(Ping(2, 1)), SlotOf(Ping(3, 0)));
    PingConfirmed(sys, m2, MAJOR, 3, 0);
    net' := net2[MAJOR := Mined(sys, m2, MAJOR, Ping(3, 0))];
  }

  /** The first is applied, the second waits and is moved over it, the third finds the block full. */
  lemma CompactionTurns(n: NodeState)
    requires n.settings == LENIENT && n.detached == map[]
    requires n.confirmed == [Ping(2, 0), Ping(2, 1), Ping(3, 0)]
    ensures var p, w, txs := n.settings, n.detached, n.confirmed;
      && Due(p, w, txs[..2]) == [Ping(2, 0)] && Due(p, w, txs) == [Ping(2, 0), Ping(3, 0)]
      && Kept(p, w, txs[..2]) == [Ping(2, 1)]
  {
    hide ValidateTx;
    var p, w, txs := n.settings, n.detached, n.confirmed;
    PingValid(2, 0, w);
    PingValid(2, 1, w);
    PingValid(3, 0, w);
    assert txs[..2][..1] == txs[..1] && txs[..1][..0] == [];
    assert Due(p, w, txs[..0]) == [] && Kept(p, w, txs[..0]) == [];
    assert Due(p, w, txs[..1]) == [] + [Ping(2, 0)] && Kept(p, w, txs[..1]) == [];
    assert Due(p, w, txs[..2]) == Due(p, w, txs[..1]) && Kept(p, w, txs[..2]) == [] + [Ping(2, 1)];
  }

  lemma CompactionOverwrites(n: NodeState, b: Block)
    requires n.settings == LENIENT && n.detached == map[] && b == Block(MINOR, [], 21000)
    requires n.confirmed == [Ping(2, 0), Ping(2, 1), Ping(3, 0)]
    ensures var c := Pair().chain;
      && LedgerOf(c, n, b, TurnsOf(c, n, b)).err.Some? && Written(c, n, b) == 1
  {
    hide LedgerOf, Due, Kept, StopsFrom;
    var c := Pair().chain;
    CompactionTurns(n);
    RoomForOne(c, n, b, 2, 3);
    var turns := AckTurns(c, n, b, 0);
    assert turns == [] && n.confirmed[..3] == n.confirmed;
    assert turns + [Ping(2, 0)] == [Ping(2, 0)] && turns + [Ping(2, 0), Ping(3, 0)] == [Ping(2, 0), Ping(3, 0)];
    StopsExactly(c, n, b, 2);
  }

  /** All validators are honest and a confirmed transaction is lost in the loop over the list. */
  lemma CompactionLoses() returns (net: Network)
    ensures WellFormed(Pair()) && Reachable(Pair(), net) && Byzantine(Pair(), net) == {}
    ensures MAJOR in net && Lost(net[MAJOR], Ping(2, 0))
  {
    hide Reachable, Process, LedgerOf, ValidateTx, Lost, WellFormed, Written, Imported, TurnsOf;
    var sys := Pair();
    SystemsWellFormed();
    var n0: Network := map[MAJOR := Newcomer(LENIENT), MINOR := Newcomer(LENIENT)];
    ReachStart(sys, n0);
    var n1 := ReachThreeMined(sys, n0);
    var b := Block(MINOR, [], 21000);
    ReachNext(sys, n1, Receive(MAJOR, b));
    net := Next(sys, n1, Receive(MAJOR, b));
    CompactionOverwrites(n1[MAJOR].node, b);
    PingValid(2, 0, map[]);
    ImportLoses(sys, n1[MAJOR], b, Ping(2, 0));
  }

  // ---------- Lost without any failure ----------

  /** The local ack path asks for no price, but the loop over the list does. */
  lemma PriceOnlyLater(w: World)
    requires w == map[]
    ensures ValidateAck(PRICED, w, map[], Ping(2, 0), true).None?
    ensures ValidateTx(PRICED, w, Ping(2, 0), false) == Some(ErrUnderpriced)
  {
    hide Fee, IntrinsicGas, CheckShape, CheckIntrinsic, Acceptable, Cost;
    PingFacts(2, 0);
    HigherPrice(LENIENT, PRICED, Ping(2, 0));
  }

  lemma HigherPrice(p: Settings, q: Settings, tx: Transaction)
    requires q == p.(gasPrice := q.gasPrice) && CheckShape(p, tx, true).None? && tx.gasPrice < q.gasPrice
    ensures CheckShape(q, tx, true).None? && CheckShape(q, tx, false) == Some(ErrUnderpriced)
    ensures CheckIntrinsic(q, tx) == CheckIntrinsic(p, tx)
  {
    hide IntrinsicGas;
  }

  lemma PriceLoses(n: NodeState, b: Block)
    requires n.settings == PRICED && n.detached == map[] && n.confirmed == [Ping(2, 0)]
    requires b == Block(MINOR, [], 30_000_000)
    ensures Loses(Pair().chain, n, b, Ping(2, 0)) && Succeeds(Pair().chain, n, b)
  {
    hide ValidateTx, Process, Written;
    var c := Pair().chain;
    PriceOnlyLater(map[]);
    assert Due(PRICED, map[], []) == [] && n.confirmed[..0] == [];
    assert AckTurns(c, n, b, 0) == [];
    assert TurnsOf(c, n, b) == [];
    TurnsDecide(c, n, b);
  }

  /** All validators are honest, every block is imported without error, and a confirmed transaction is lost. */
  lemma LowPriceLoses() returns (net: Network, net': Network, b: Block)
    ensures WellFormed(Pair()) && Reachable(Pair(), net) && Byzantine(Pair(), net) == {}
    ensures Enabled(Pair(), net, Receive(MAJOR, b)) && net' == Next(Pair(), net, Receive(MAJOR, b))
    ensures Reachable(Pair(), net') && Succeeds(Pair().chain, net[MAJOR].node, b)
    ensures Ping(2, 0) in net[MAJOR].node.confirmed && Lost(net'[MAJOR], Ping(2, 0))
  {
    hide Reachable, Process, ValidateAck, Lost, WellFormed, Imported, Mined, Loses, Succeeds;
    var sys, m := Pair(), Newcomer(PRICED);
    SystemsWellFormed();
    var start: Network := map[MAJOR := m, MINOR := m];
    ReachStart(sys, start);
    PriceOnlyLater(map[]);
    ReachNext(sys, start, Mine(MAJOR, Ping(2, 0)));
    net := Next(sys, start, Mine(MAJOR, Ping(2, 0)));
    PingConfirmed(sys, m, MAJOR, 2, 0);
    b := Block(MINOR, [], 30_000_000);
    ReachNext(sys, net, Receive(MAJOR, b));
    net' := Next(sys, net, Receive(MAJOR, b));
    PriceLoses(net[MAJOR].node, b);
    ImportLoses(sys, net[MAJOR], b, Ping(2, 0));
  }

  // ---------- Stuck ----------

  /** Nonce 1 is confirmed by two voters in two blocks before nonce 0 is applied. */
  lemma WatcherStuck(n: NodeState)
    requires n == Newcomer(LENIENT).node
    ensures var c := Pair().chain;
      var n1 := Import(c, n, Block(MAJOR, [Ping(1, 1)], 0));
      var n2 := Import(c, n1, Block(MINOR, [Ping(1, 1)], 0));
      Stuck(Import(c, n2, Block(MAJOR, [Ping(1, 0)], 21000)))
  {
    hide Import, Succeeds, ValidateTx, ValidateAck, Retained, Cast, LedgerOf, Stuck;
    var c, x := Pair().chain, Ping(1, 1);
    var n1 := Import(c, n, Block(MAJOR, [x], 0));
    var n2 := Import(c, n1, Block(MINOR, [x], 0));
    FirstQueued(n);
    SecondQueued(n1);
    PredecessorApplied(n2);
  }

  ghost predicate Waiting(n: NodeState, votes: Ballots, confirmed: seq<Transaction>)
  {
    n == NodeState(LENIENT, map[], map[], map[], votes, confirmed)
  }

  function Vote1(): Ballots { Cast(map[], Slot(External(1), 1), MAJOR, HashOf(Ping(1, 1))) }

  function Vote2(): Ballots { Cast(Vote1(), Slot(External(1), 1), MINOR, HashOf(Ping(1, 1))) }

  lemma NothingToApply(c: Chain, n: NodeState, b: Block)
    ensures LedgerOf(c, n, b, []).err.None? && LedgerOf(c, n, b, []).world == n.detached
  {
  }

  /** Nonce 1 cannot be applied while the account is at nonce 0, so its acks wait. */
  lemma PingWaits()
    ensures Retained(LENIENT, map[], Ping(1, 1)) && ValidateTx(LENIENT, map[], Ping(1, 1), false).Some?
    ensures ValidateAck(LENIENT, map[], map[], Ping(1, 1), false).None?
  {
    PingValid(1, 1, map[]);
    PingAck(1, 1, map[], map[]);
  }

  lemma FirstQueued(n: NodeState)
    requires Waiting(n, map[], [])
    ensures Waiting(Import(Pair().chain, n, Block(MAJOR, [Ping(1, 1)], 0)), Vote1(), [Ping(1, 1)])
  {
    hide Import, Succeeds, ValidateTx, ValidateAck, Retained, Cast, LedgerOf, TurnsOf, Confirms;
    var c, x, b := Pair().chain, Ping(1, 1), Block(MAJOR, [Ping(1, 1)], 0);
    PingWaits();
    FirstVote(c, n, x, MAJOR);
    assert VotesAfter(n, b, 0) == n.ballots && n.(ballots := n.ballots) == n;
    SingleAck(c, n, b);
    NothingToApply(c, n, b);
    SingleAckImport(c, n, b);
    assert [] + [x] == [x];
  }

  lemma SecondQueued(n: NodeState)
    requires Waiting(n, Vote1(), [Ping(1, 1)])
    ensures Waiting(Import(Pair().chain, n, Block(MINOR, [Ping(1, 1)], 0)), Vote2(), [Ping(1, 1), Ping(1, 1)])
  {
    var c, x, b := Pair().chain, Ping(1, 1), Block(MINOR, [Ping(1, 1)], 0);
    assert Confirms(c, n, x, MINOR) by { SecondVote(n); }
    hide Import, Succeeds, ValidateTx, ValidateAck, Retained, Cast, LedgerOf, TurnsOf, Confirms;
    PingWaits();
    assert VotesAfter(n, b, 0) == n.ballots && n.(ballots := n.ballots) == n;
    SingleAck(c, n, b);
    NothingToApply(c, n, b);
    SingleAckImport(c, n, b);
    assert [x] + [x] == [x, x];
  }

  lemma SecondVote(n: NodeState)
    requires n.ballots == Vote1()
    ensures Confirms(Pair().chain, n, Ping(1, 1), MINOR)
  {
    var c, x := Pair().chain, Ping(1, 1);
    var s, h := SlotOf(x), HashOf(x);
    assert Voters(Vote1(), s) == {MAJOR};
    var first := n.(ballots := map[]);
    assert VotesIn(first.ballots, s) == map[];
    FirstVote(c, first, x, MAJOR);
    hide Weight, Cast;
    CastExtends(Vote1(), s, MINOR, h);
    WeightMonotone(c.stake, Vote1(), Cast(Vote1(), s, MINOR, h), s, h);
  }

  lemma PredecessorApplied(n: NodeState)
    requires Waiting(n, Vote2(), [Ping(1, 1), Ping(1, 1)])
    ensures Stuck(Import(Pair().chain, n, Block(MAJOR, [Ping(1, 0)], 21000)))
  {
    var c, x, y, b := Pair().chain, Ping(1, 1), Ping(1, 0), Block(MAJOR, [Ping(1, 0)], 21000);
    assert VotesIn(Vote2(), SlotOf(y)) == map[];
    hide Import, Succeeds, ValidateTx, ValidateAck, Retained, Cast, LedgerOf, TurnsOf, Confirms;
    PingWaits();
    PingValid(1, 0, map[]);
    PingAck(1, 0, map[], map[]);
    FirstVote(c, n, y, MAJOR);
    assert VotesAfter(n, b, 0) == n.ballots && n.(ballots := n.ballots) == n;
    SingleAck(c, n, b);
    RoomForOne(c, n, b, 1, 3);
    SingleAckImport(c, n, b);
    AfterPing(c, n, b);
    var n' := Import(c, n, b);
    assert n'.confirmed == [x, x];
    PingValid(1, 1, n'.detached);
    assert StuckAt(n', 0, 1);
  }

  lemma AfterPing(c: Chain, n: NodeState, b: Block)
    requires c.evm == PlainTransfers() && c.rules == LAX_RULES && n.detached == map[] && b.gasLimit == 21000
    ensures var w := LedgerOf(c, n, b, [Ping(1, 0)]).world;
      NonceOf(w, External(1)) == 1 && BalanceOf(w, External(1)) >= 0
  {
    hide Transition, TransferCall;
    LedgerStep(c, n, b, [], Ping(1, 0));
    assert [] + [Ping(1, 0)] == [Ping(1, 0)];
    PingRuns(map[], 21000, 1, 0);
    TransitionNonces(c.evm, c.rules, map[], 21000, Ping(1, 0));
    TransitionConserves(c.evm, c.rules, map[], 21000, Ping(1, 0));
  }

  /** All validators are honest and a node ends up where no block gets past. */
  lemma RunToStuck() returns (net: Network)
    ensures WellFormed(Pair()) && Reachable(Pair(), net) && Byzantine(Pair(), net) == {}
    ensures WATCHER in net && Stuck(net[WATCHER].node)
  {
    hide Reachable, Import, Process, WellFormed, Stuck;
    var sys := Pair();
    SystemsWellFormed();
    var net0: Network := map[WATCHER := Newcomer(LENIENT), MAJOR := Newcomer(LENIENT), MINOR := Newcomer(LENIENT)];
    ReachStart(sys, net0);
    var net1 := ReachTwoMined(sys, net0, MAJOR, 1, 0, 1, 1);
    var net2 := ReachTwoMined(sys, net1, MINOR, 1, 0, 1, 1);
    WatcherStuck(net2[WATCHER].node);
    ReachNext(sys, net2, Receive(WATCHER, Block(MAJOR, [Ping(1, 1)], 0)));
    var net3 := Next(sys, net2, Receive(WATCHER, Block(MAJOR, [Ping(1, 1)], 0)));
    ReachNext(sys, net3, Receive(WATCHER, Block(MINOR, [Ping(1, 1)], 0)));
    var net4 := Next(sys, net3, Receive(WATCHER, Block(MINOR, [Ping(1, 1)], 0)));
    ReachNext(sys, net4, Receive(WATCHER, Block(MAJOR, [Ping(1, 0)], 21000)));
    net := Next(sys, net4, Receive(WATCHER, Block(MAJOR, [Ping(1, 0)], 21000)));
  }

  // ---------- Mining ----------

  /** A mined block is written with a state in which its transaction is applied; the detached state stays as it was. */
  lemma MinedStateDiffers() returns (net: Network)
    ensures Reachable(Alone(), net) && MAJOR in net
    ensures net[MAJOR].work.txs == [Ping(2, 0)] && NonceOf(net[MAJOR].work.state, External(2)) == 1
    ensures NonceOf(net[MAJOR].node.detached, External(2)) == 0
  {
    hide Reachable, ValidateAck, Confirms, Cast, Transition;
    var sys := Alone();
    var net0: Network := map[MAJOR := Newcomer(LENIENT)];
    ReachStart(sys, net0);
    ReachNext(sys, net0, Prepare(MAJOR, 21000));
    var net1 := Next(sys, net0, Prepare(MAJOR, 21000));
    ReachMined(sys, net1, MAJOR, 2, 0);
    var net2 := net1[MAJOR := Mined(sys, net1[MAJOR], MAJOR, Ping(2, 0))];
    FirstVote(sys.chain, net1[MAJOR].node, Ping(2, 0), MAJOR);
    PingRuns(map[], 21000, 2, 0);
    TransitionNonces(sys.chain.evm, LAX_RULES, map[], 21000, Ping(2, 0));
    ReachNext(sys, net2, Seal(MAJOR));
    net := Next(sys, net2, Seal(MAJOR));
  }
}
