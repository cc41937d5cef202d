/**
 The bound on dishonest stake is exact: at and above the stake that two quorums share, a run
 exists in which two honest nodes see different transactions confirmed.
 */
module Tightness {
  import opened Types
  import opened Gas
  import opened Ledger
  import opened Ballots
  import opened Processor
  import opened Network

  // ---------- The cast ----------

  const LEFT := External(1)
  const RIGHT := External(2)
  const CHEAT := External(3)

  /** Two honest validators hold equal stakes; the third has what two quorums share. */
  function SplitStake(total: nat): Stake
    requires total > 0
  {
    var honest := total - (Quorum(total) + 1);
    map[LEFT := honest, RIGHT := honest, CHEAT := SharedStake(total)]
  }

  function SplitSystem(total: nat): System
    requires total > 0
  {
    var chain := Chain(Quorum(total), SplitStake(total), PlainTransfers(), Rules(true, true));
    System(chain, {LEFT, RIGHT, CHEAT}, total, map[])
  }

  /** Two ways to spend nonce 0 of one account. */
  function Spend(to: Address): Transaction
  {
    Transaction(0, 100, Some(7), 0, 0, 21000, Some(to), 0, [], None)
  }

  const SEVEN := Slot(External(7), 0)

  lemma SpendIsSound(to: Address, w: World)
    requires w == map[]
    ensures ValidateAck(LENIENT, w, map[], Spend(to), true).None?
    ensures ValidateAck(LENIENT, w, map[], Spend(to), false).None?
  {
    var tx := Spend(to);
    assert DataGas(tx.data, true) == 0;
    assert IntrinsicGas(tx, true, true) == Charge(21000);
    FeeIsProduct(21000, 0);
  }

  // ---------- The two halves of the run ----------

  ghost function AfterMine(sys: System, self: Address, to: Address): Member
    requires ValidateAck(LENIENT, map[], map[], Spend(to), true).None?
  {
    Mined(sys, Newcomer(LENIENT), self, Spend(to))
  }

  lemma PairStake(stake: Stake, v: Address, w: Address)
    requires v != w
    ensures StakeOf(stake, {v, w}) == StakeAt(stake, v) + StakeAt(stake, w)
    ensures StakeOf(stake, {v}) == StakeAt(stake, v)
  {
    assert StakeOf(stake, {}) == 0;
    assert {} + {v} == {v};
    StakeAdd(stake, {}, v);
    assert {v} + {w} == {v, w};
    StakeAdd(stake, {v}, w);
  }

  /** Having acked a transaction itself, a node sees it confirmed by the cheat's ack. */
  lemma CheatConfirms(total: nat, self: Address, to: Address)
    requires total > 0 && self in {LEFT, RIGHT}
    requires ValidateAck(LENIENT, map[], map[], Spend(to), true).None?
    requires ValidateAck(LENIENT, map[], map[], Spend(to), false).None?
    ensures var sys := SplitSystem(total);
      var m := AfterMine(sys, self, to);
      && m.acked == {Spend(to)}
      && Spend(to) in Imported(sys, m, Block(CHEAT, [Spend(to)], 0)).confirmations
  {
    var sys, tx := SplitSystem(total), Spend(to);
    var m, b := AfterMine(sys, self, to), Block(CHEAT, [Spend(to)], 0);
    var stake := sys.chain.stake;
    PairStake(stake, self, CHEAT);
    var mine := map[SEVEN := map[self := HashOf(tx)]];
    assert Supporters(mine, SEVEN, HashOf(tx)) == {self};
    assert m.node.ballots == mine && m.node.confirmed == [];
    var both := map[SEVEN := map[self := HashOf(tx), CHEAT := HashOf(tx)]];
    assert Cast(mine, SEVEN, CHEAT, HashOf(tx)) == both;
    assert Supporters(both, SEVEN, HashOf(tx)) == {self, CHEAT};
    var r0 := Open(m.node, 0);
    assert Confirms(sys.chain, r0.node, tx, CHEAT);
    hide StakeOf, Weight, Supporters, ValidateAck, ValidateTx, Apply;
    CarriesAck(sys.chain, m.node, b, tx);
  }

  lemma CarriesAck(c: Chain, n: NodeState, b: Block, tx: Transaction)
    requires b.txs == [tx] && tx.signer.Some?
    requires ValidateAck(n.settings, n.detached, n.expected, tx, false).None?
    requires Confirms(c, Open(n, b.gasLimit).node, tx, b.author)
    ensures tx in Process(c, n, b).acks
  {
    var r0 := Open(n, b.gasLimit);
    assert b.txs[..0] == [];
    assert AckLoop(c, r0, b.author, []) == r0;
    hide ValidateAck, ValidateTx, Apply, Confirms;
    var r := AcksOf(c, n, b);
    assert r == AckStep(c, r0, b.author, tx);
    assert tx in r.acks;
    RetryKeepsAcks(c, r, |r.node.confirmed|);
  }

  // ---------- The run ----------

  lemma AllSound()
    ensures forall to :: ValidateAck(LENIENT, map[], map[], Spend(to), true).None?
    ensures forall to :: ValidateAck(LENIENT, map[], map[], Spend(to), false).None?
  {
    forall to
      ensures ValidateAck(LENIENT, map[], map[], Spend(to), true).None?
      ensures ValidateAck(LENIENT, map[], map[], Spend(to), false).None?
    {
      SpendIsSound(to, map[]);
    }
  }

  ghost function SplitEnd(sys: System): Network
    requires forall to :: ValidateAck(LENIENT, map[], map[], Spend(to), true).None?
  {
    map[LEFT := Imported(sys, AfterMine(sys, LEFT, LEFT), Block(CHEAT, [Spend(LEFT)], 0)),
        RIGHT := Imported(sys, AfterMine(sys, RIGHT, RIGHT), Block(CHEAT, [Spend(RIGHT)], 0))]
  }

  /** Each honest validator acks its own version; then the cheat acks both. */
  lemma SplitRuns(sys: System)
    requires sys.validators == {LEFT, RIGHT, CHEAT} && sys.genesis == map[]
    requires forall to :: ValidateAck(LENIENT, map[], map[], Spend(to), true).None?
    ensures Reachable(sys, SplitEnd(sys))
  {
    hide ValidateAck, Imported, Mined;
    var n0: Network := map[LEFT := Newcomer(LENIENT), RIGHT := Newcomer(LENIENT)];
    assert Reachable(sys, n0) by {
      assert Run(sys, [n0], []);
      assert [n0][|[n0]| - 1] == n0;
    }
    hide Reachable, Run;
    var l, r := AfterMine(sys, LEFT, LEFT), AfterMine(sys, RIGHT, RIGHT);
    ReachNext(sys, n0, Mine(LEFT, Spend(LEFT)));
    var n1: Network := map[LEFT := l, RIGHT := Newcomer(LENIENT)];
    assert Next(sys, n0, Mine(LEFT, Spend(LEFT))) == n1;
    ReachNext(sys, n1, Mine(RIGHT, Spend(RIGHT)));
    var n2: Network := map[LEFT := l, RIGHT := r];
    assert Next(sys, n1, Mine(RIGHT, Spend(RIGHT))) == n2;
    SplitRunsEnd(sys, n2);
  }

  lemma SplitRunsEnd(sys: System, n2: Network)
    requires sys.validators == {LEFT, RIGHT, CHEAT}
    requires forall to :: ValidateAck(LENIENT, map[], map[], Spend(to), true).None?
    requires n2 == map[LEFT := AfterMine(sys, LEFT, LEFT), RIGHT := AfterMine(sys, RIGHT, RIGHT)]
    requires Reachable(sys, n2)
    ensures Reachable(sys, SplitEnd(sys))
  {
    hide ValidateAck, Imported, AfterMine, Reachable;
    var toLeft, toRight := Block(CHEAT, [Spend(LEFT)], 0), Block(CHEAT, [Spend(RIGHT)], 0);
    ReachNext(sys, n2, Receive(LEFT, toLeft));
    var n3 := n2[LEFT := Imported(sys, n2[LEFT], toLeft)];
    assert Next(sys, n2, Receive(LEFT, toLeft)) == n3;
    ReachNext(sys, n3, Receive(RIGHT, toRight));
    assert Next(sys, n3, Receive(RIGHT, toRight)) == SplitEnd(sys);
  }

  lemma SplitWellFormed(total: nat)
    requires total > 0
    ensures var sys := SplitSystem(total);
      && WellFormed(sys)
      && StakeOf(sys.chain.stake, sys.validators - {LEFT, RIGHT}) == SharedStake(total)
  {
    var stake := SplitStake(total);
    PairStake(stake, LEFT, RIGHT);
    assert {LEFT, RIGHT} + {CHEAT} == {LEFT, RIGHT, CHEAT};
    StakeAdd(stake, {LEFT, RIGHT}, CHEAT);
    assert {LEFT, RIGHT, CHEAT} - {LEFT, RIGHT} == {CHEAT};
    PairStake(stake, CHEAT, LEFT);
  }

  /** With exactly the shared stake in dishonest hands, two honest nodes disagree. */
  lemma Disagreement(total: nat) returns (net: Network)
    requires total > 0
    ensures var sys := SplitSystem(total);
      && WellFormed(sys)
      && Reachable(sys, net)
      && StakeOf(sys.chain.stake, Byzantine(sys, net)) == SharedStake(total)
      && !Agreement(net)
  {
    AllSound();
    hide ValidateAck, Imported, Mined, Reachable, StakeOf, WellFormed;
    var sys := SplitSystem(total);
    SplitRuns(sys);
    SplitWellFormed(total);
    CheatConfirms(total, LEFT, LEFT);
    CheatConfirms(total, RIGHT, RIGHT);
    net := SplitEnd(sys);
    assert net.Keys == {LEFT, RIGHT};
    assert Spend(LEFT) in net[LEFT].confirmations && Spend(RIGHT) in net[RIGHT].confirmations;
  }

  /** Agreement in every reachable network whose dishonest stake is at most `byzantine`. */
  ghost predicate AlwaysAgree(total: nat, byzantine: nat)
  {
    forall sys: System, net: Network ::
      && sys.total == total && WellFormed(sys) && Reachable(sys, net)
      && StakeOf(sys.chain.stake, Byzantine(sys, net)) <= byzantine
      ==> Agreement(net)
  }

  /** The protocol agrees on every run exactly when dishonest stake stays below what two quorums share. */
  lemma AgreementIffTolerable(total: nat, byzantine: nat)
    requires total > 0
    ensures AlwaysAgree(total, byzantine) <==> byzantine < SharedStake(total)
  {
    hide Agreement, WellFormed, StakeOf, Init, Step;
    if byzantine < SharedStake(total) {
      forall sys: System, net: Network |
        && sys.total == total && WellFormed(sys) && Reachable(sys, net)
        && StakeOf(sys.chain.stake, Byzantine(sys, net)) <= byzantine
        ensures Agreement(net)
      {
        var nets, acts :| Run(sys, nets, acts) && nets[|nets| - 1] == net;
        RunAgreement(sys, nets, acts);
      }
    } else {
      var net := Disagreement(total);
    }
  }
}
