/** One node in place: the pool's nested ack maps, its queue of confirmed transactions and its state. */
module Node {
  import opened Types
  import opened Sums
  import opened Gas
  import opened Ledger
  import opened Ballots
  import opened Processor

  /** `potentialTx` is set on a copy only, so what is stored never has one. */
  datatype Unconfirmed = Unconfirmed(ackWeight: nat, potentialTx: Option<Transaction>)

  type AckWeights = map<Address, map<nat, map<Hash, Unconfirmed>>>
  type VotedFlags = map<Address, map<nat, map<Address, bool>>>
  type ReceivedStake = map<Address, map<nat, nat>>

  // ---------- Nested maps ----------

  function Inner<K, V>(m: map<Address, map<nat, map<K, V>>>, s: Slot): map<K, V>
  {
    if s.sender in m && s.nonce in m[s.sender] then m[s.sender][s.nonce] else map[]
  }

  function PutInner<K, V>(m: map<Address, map<nat, map<K, V>>>, s: Slot, inner: map<K, V>)
    : map<Address, map<nat, map<K, V>>>
  {
    var nonces := if s.sender in m then m[s.sender] else map[];
    m[s.sender := nonces[s.nonce := inner]]
  }

  lemma InnerAfterPut<K, V>(m: map<Address, map<nat, map<K, V>>>, s: Slot, inner: map<K, V>, s': Slot)
    ensures Inner(PutInner(m, s, inner), s') == if s' == s then inner else Inner(m, s')
  {
  }

  function EntryOf(u: AckWeights, s: Slot, h: Hash): Unconfirmed
  {
    if h in Inner(u, s) then Inner(u, s)[h] else Unconfirmed(0, None)
  }

  function HasVoted(v: VotedFlags, s: Slot, a: Address): bool
  {
    a in Inner(v, s) && Inner(v, s)[a]
  }

  function ReceivedAt(r: ReceivedStake, s: Slot): nat
  {
    if s.sender in r && s.nonce in r[s.sender] then r[s.sender][s.nonce] else 0
  }

  function PutReceived(r: ReceivedStake, s: Slot, x: nat): ReceivedStake
  {
    var nonces := if s.sender in r then r[s.sender] else map[];
    r[s.sender := nonces[s.nonce := x]]
  }

  // ---------- The maps count the ballots ----------

  ghost predicate CountsWeights(stake: Stake, b: Ballots, u: AckWeights)
  {
    forall s, h :: EntryOf(u, s, h) == Unconfirmed(Weight(stake, b, s, h), None)
  }

  ghost predicate CountsVoters(b: Ballots, v: VotedFlags)
  {
    forall s, a :: HasVoted(v, s, a) <==> a in Voters(b, s)
  }

  ghost predicate CountsStake(stake: Stake, b: Ballots, r: ReceivedStake)
  {
    forall s :: ReceivedAt(r, s) == Received(stake, b, s)
  }

  lemma EntryIsWeight(stake: Stake, b: Ballots, u: AckWeights, s: Slot, h: Hash)
    requires CountsWeights(stake, b, u)
    ensures EntryOf(u, s, h) == Unconfirmed(Weight(stake, b, s, h), None)
  {
  }

  lemma WeightsAfterVote(stake: Stake, b: Ballots, u: AckWeights, s: Slot, a: Address, h: Hash)
    requires CountsWeights(stake, b, u) && a !in Voters(b, s)
    ensures var e := Unconfirmed(EntryOf(u, s, h).ackWeight + StakeAt(stake, a), None);
      CountsWeights(stake, Cast(b, s, a, h), PutInner(u, s, Inner(u, s)[h := e]))
  {
    hide Weight, Cast, Inner, PutInner;
    var b' := Cast(b, s, a, h);
    var inner' := Inner(u, s)[h := Unconfirmed(EntryOf(u, s, h).ackWeight + StakeAt(stake, a), None)];
    forall s', h' ensures EntryOf(PutInner(u, s, inner'), s', h') == Unconfirmed(Weight(stake, b', s', h'), None) {
      InnerAfterPut(u, s, inner', s');
      CastWeights(stake, b, s, a, h, s', h');
      assert EntryOf(u, s', h') == Unconfirmed(Weight(stake, b, s', h'), None);
    }
  }

  /** Storing an entry as it reads, zero weight included, changes nothing. */
  lemma WeightsAfterTouch(stake: Stake, b: Ballots, u: AckWeights, s: Slot, h: Hash)
    requires CountsWeights(stake, b, u)
    ensures CountsWeights(stake, b, PutInner(u, s, Inner(u, s)[h := EntryOf(u, s, h)]))
  {
    hide Weight, Inner, PutInner;
    var inner' := Inner(u, s)[h := EntryOf(u, s, h)];
    forall s', h' ensures EntryOf(PutInner(u, s, inner'), s', h') == Unconfirmed(Weight(stake, b, s', h'), None) {
      InnerAfterPut(u, s, inner', s');
      assert EntryOf(u, s', h') == Unconfirmed(Weight(stake, b, s', h'), None);
    }
  }

  lemma VotersAfterVote(b: Ballots, v: VotedFlags, s: Slot, a: Address, h: Hash)
    requires CountsVoters(b, v)
    ensures CountsVoters(Cast(b, s, a, h), PutInner(v, s, Inner(v, s)[a := true]))
    ensures CountsVoters(b, PutInner(v, s, Inner(v, s)))
  {
    hide Inner, PutInner;
    forall s', a'
      ensures HasVoted(PutInner(v, s, Inner(v, s)[a := true]), s', a') <==> a' in Voters(Cast(b, s, a, h), s')
      ensures HasVoted(PutInner(v, s, Inner(v, s)), s', a') <==> a' in Voters(b, s')
    {
      InnerAfterPut(v, s, Inner(v, s)[a := true], s');
      InnerAfterPut(v, s, Inner(v, s), s');
      assert HasVoted(v, s', a') <==> a' in Voters(b, s');
    }
  }

  lemma StakeAfterVote(stake: Stake, b: Ballots, r: ReceivedStake, s: Slot, a: Address, h: Hash)
    requires CountsStake(stake, b, r) && a !in Voters(b, s)
    ensures CountsStake(stake, Cast(b, s, a, h), PutReceived(r, s, ReceivedAt(r, s) + StakeAt(stake, a)))
  {
    hide Weight, Received, Cast;
    forall s' ensures ReceivedAt(PutReceived(r, s, ReceivedAt(r, s) + StakeAt(stake, a)), s') ==
      Received(stake, Cast(b, s, a, h), s')
    {
      CastWeights(stake, b, s, a, h, s', h);
      assert ReceivedAt(r, s') == Received(stake, b, s');
    }
  }

  lemma StakeAfterTouch(stake: Stake, b: Ballots, r: ReceivedStake, s: Slot)
    requires CountsStake(stake, b, r)
    ensures CountsStake(stake, b, PutReceived(r, s, ReceivedAt(r, s)))
  {
    hide Received;
    forall s' ensures ReceivedAt(PutReceived(r, s, ReceivedAt(r, s)), s') == Received(stake, b, s') {
      assert ReceivedAt(r, s') == Received(stake, b, s');
    }
  }

  class Node {
    const chain: Chain
    var settings: Settings
    var currentState: World
    var stateRoot: World
    var expectedAckNonce: map<Address, nat>
    var unconfirmed: AckWeights
    var voted: VotedFlags
    var stakeReceived: ReceivedStake
    var confirmed: seq<Transaction>
    ghost var ballots: Ballots

    ghost predicate Valid()
      reads this
    {
      && CountsWeights(chain.stake, ballots, unconfirmed)
      && CountsVoters(ballots, voted)
      && CountsStake(chain.stake, ballots, stakeReceived)
    }

    ghost function View(): NodeState
      reads this
    {
      NodeState(settings, currentState, stateRoot, expectedAckNonce, ballots, confirmed)
    }

    constructor (chain: Chain, settings: Settings, genesis: World)
      ensures Valid() && this.chain == chain
      ensures View() == NodeState(settings, genesis, genesis, map[], map[], [])
    {
      this.chain, this.settings := chain, settings;
      currentState, stateRoot := genesis, genesis;
      expectedAckNonce, unconfirmed, voted, stakeReceived, confirmed := map[], map[], map[], map[], [];
      ballots := map[];
      new;
      forall s, h ensures EntryOf(unconfirmed, s, h) == Unconfirmed(Weight(chain.stake, ballots, s, h), None) {
        assert Supporters(ballots, s, h) == {};
      }
      forall s ensures ReceivedAt(stakeReceived, s) == Received(chain.stake, ballots, s) {
        assert Voters(ballots, s) == {};
      }
    }

    /** Reading an entry creates the nested maps on the way to it, and changes no value. */
    method Touch(s: Slot, hash: Hash)
      requires Valid()
      modifies this`unconfirmed, this`voted, this`stakeReceived
      ensures Valid()
    {
      hide CountsWeights, CountsVoters, CountsStake, Inner, PutInner, PutReceived, ReceivedAt, EntryOf;
      WeightsAfterTouch(chain.stake, ballots, unconfirmed, s, hash);
      VotersAfterVote(ballots, voted, s, s.sender, hash);
      StakeAfterTouch(chain.stake, ballots, stakeReceived, s);
      unconfirmed := PutInner(unconfirmed, s, Inner(unconfirmed, s)[hash := EntryOf(unconfirmed, s, hash)]);
      voted := PutInner(voted, s, Inner(voted, s));
      stakeReceived := PutReceived(stakeReceived, s, ReceivedAt(stakeReceived, s));
    }

    /** Adds the voter's stake to the hash's weight and to the stake received, and marks the vote. */
    method RecordVote(s: Slot, hash: Hash, ackOrigin: Address) returns (weight: nat)
      requires Valid() && ackOrigin !in Voters(ballots, s)
      modifies this`unconfirmed, this`voted, this`stakeReceived, this`ballots
      ensures Valid()
      ensures ballots == Cast(old(ballots), s, ackOrigin, hash)
      ensures weight == Weight(chain.stake, ballots, s, hash)
    {
      hide CountsWeights, CountsVoters, CountsStake, Weight, Cast, Inner, PutInner, PutReceived, ReceivedAt, EntryOf;
      var entry := EntryOf(unconfirmed, s, hash);
      EntryIsWeight(chain.stake, ballots, unconfirmed, s, hash);
      var ackValue := StakeAt(chain.stake, ackOrigin);
      WeightsAfterVote(chain.stake, ballots, unconfirmed, s, ackOrigin, hash);
      VotersAfterVote(ballots, voted, s, ackOrigin, hash);
      StakeAfterVote(chain.stake, ballots, stakeReceived, s, ackOrigin, hash);
      CastWeights(chain.stake, ballots, s, ackOrigin, hash, s, hash);
      weight := entry.ackWeight + ackValue;
      unconfirmed := PutInner(unconfirmed, s, Inner(unconfirmed, s)[hash := Unconfirmed(weight, None)]);
      stakeReceived := PutReceived(stakeReceived, s, ReceivedAt(stakeReceived, s) + ackValue);
      voted := PutInner(voted, s, Inner(voted, s)[ackOrigin := true]);
      ballots := Cast(ballots, s, ackOrigin, hash);
    }

    /**
     Counts one ack. The nested maps end up counting exactly the ballots with this one cast,
     and the answer is whether a new voter left the transaction above the quorum.
     */
    method AddAck(tx: Transaction, ackOrigin: Address, isLocal: bool) returns (confirms: bool, err: Option<Error>)
      requires Valid()
      modifies this`expectedAckNonce, this`unconfirmed, this`voted, this`stakeReceived, this`ballots
      ensures Valid()
      ensures tx.signer.None? ==> err == Some(ErrInvalidSender) && !confirms && View() == old(View())
      ensures tx.signer.Some? ==>
        && err.None?
        && View() == CountAck(old(View()), tx, ackOrigin, isLocal)
        && (confirms <==> Confirms(chain, old(View()), tx, ackOrigin))
    {
      if tx.signer.None? { return false, Some(ErrInvalidSender); }
      var s, hash := SlotOf(tx), HashOf(tx);
      if isLocal {
        expectedAckNonce := expectedAckNonce[s.sender := tx.nonce + 1];
      }
      Touch(s, hash);
      var hasVoted := HasVoted(voted, s, ackOrigin);
      assert hasVoted <==> ackOrigin in Voters(ballots, s);
      hide Weight, CountsWeights, CountsVoters, CountsStake;
      if hasVoted {
        CastTwice(ballots, s, ackOrigin, hash);
        return false, None;
      }
      var weight := RecordVote(s, hash, ackOrigin);
      return weight > chain.quorum, None;
    }

    // ---------- Applying ----------

    /** One transaction against the state, the gas pool and the receipts of the block. */
    method ApplyTransaction(tx: Transaction, from: Address, gp: GasPool, statedb: StateDB, receipts: seq<Receipt>,
                            usedGas: nat)
      returns (err: Option<Error>, receipts': seq<Receipt>, usedGas': nat)
      requires Sender(tx) == Some(from) && gp.gas <= MAX_UINT64
      modifies gp, statedb
      ensures gp.gas <= old(gp.gas)
      ensures
        var l := Apply(chain.evm, chain.rules, Ledger(old(statedb.world), old(gp.gas), usedGas, receipts, None), tx);
        && err == l.err
        && (err.None? ==> l == Ledger(statedb.world, gp.gas, usedGas', receipts', None))
        && receipts' == l.receipts && usedGas' == l.used
    {
      hide Transition;
      receipts', usedGas' := receipts, usedGas;
      var st := new StateTransition(gp, statedb, tx, from);
      var used, failed;
      err, used, failed := st.TransitionDb(chain.evm, chain.rules);
      if err.None? {
        receipts', usedGas' := receipts + [Receipt(tx, used)], usedGas + used;
      }
    }

    // ---------- Mining ----------

    /**
     Acks a transaction locally and, if that confirms it, applies it to the state of the block being
     built. The detached state is not involved.
     */
    method ApplyLocally(tx: Transaction, self: Address, gp: GasPool, statedb: StateDB) returns (err: Option<Error>)
      requires Valid() && gp.gas <= MAX_UINT64
      modifies this`expectedAckNonce, this`unconfirmed, this`voted, this`stakeReceived, this`ballots, this`confirmed
      modifies gp, statedb
      ensures Valid() && gp.gas <= old(gp.gas)
      ensures var refusal := ValidateAck(old(settings), old(currentState), old(expectedAckNonce), tx, true);
        && (refusal.Some? ==>
              err == refusal && View() == old(View()) && gp.gas == old(gp.gas) && statedb.world == old(statedb.world))
        && (refusal.None? ==> tx.signer.Some? && View() == LocalAck(chain, old(View()), tx, self))
        && (refusal.None? && !Confirms(chain, old(View()), tx, self) ==>
              err == Some(ErrInsufficientAcks) && gp.gas == old(gp.gas) && statedb.world == old(statedb.world))
        && (refusal.None? && Confirms(chain, old(View()), tx, self) ==>
              match Transition(chain.evm, chain.rules, old(statedb.world), old(gp.gas), tx)
              case Rejected(e) => err == Some(e) && gp.gas == PoolOnRefusal(old(statedb.world), old(gp.gas), tx)
              case Executed(w, pool, _, _) => err.None? && statedb.world == w && gp.gas == pool)
    {
      hide Confirms, Cast, CountsWeights, CountsVoters, CountsStake, Transition, PoolOnRefusal;
      err := ValidateAck(settings, currentState, expectedAckNonce, tx, true);
      if err.Some? { return; }
      assert tx.signer.Some? by { AckIsSigned(settings, currentState, expectedAckNonce, tx, true); }
      hide ValidateAck;
      var confirms, _ := AddAck(tx, self, true);
      if !confirms { return Some(ErrInsufficientAcks); }
      confirmed := confirmed + [tx];
      var st := new StateTransition(gp, statedb, tx, External(tx.signer.value));
      var used, failed;
      err, used, failed := st.TransitionDb(chain.evm, chain.rules);
    }

    /** One transaction of the block being built; a failed application is taken back. */
    method CommitTransaction(tx: Transaction, self: Address, gp: GasPool, statedb: StateDB, txs: seq<Transaction>)
      returns (txs': seq<Transaction>, err: Option<Error>)
      requires Valid() && gp.gas <= MAX_UINT64
      modifies this`expectedAckNonce, this`unconfirmed, this`voted, this`stakeReceived, this`ballots, this`confirmed
      modifies gp, statedb
      ensures Valid() && gp.gas <= old(gp.gas)
      ensures ValidateAck(old(settings), old(currentState), old(expectedAckNonce), tx, true).Some? ==>
        && txs' == txs && err.Some? && View() == old(View())
        && gp.gas == old(gp.gas) && statedb.world == old(statedb.world)
      ensures ValidateAck(old(settings), old(currentState), old(expectedAckNonce), tx, true).None? ==>
        && View() == LocalAck(chain, old(View()), tx, self)
        && Work(statedb.world, gp.gas, txs') ==
             Commit(chain, old(View()), Work(old(statedb.world), old(gp.gas), txs), tx, self)
    {
      hide Confirms, Cast, CountsWeights, CountsVoters, CountsStake, ValidateAck, PoolOnRefusal, LocalAck;
      var snapshot := statedb.world;
      ghost var refusal := ValidateAck(settings, currentState, expectedAckNonce, tx, true);
      NotForAcks(chain.evm, chain.rules, settings, currentState, expectedAckNonce, snapshot, gp.gas, tx);
      hide Transition;
      err := ApplyLocally(tx, self, gp, statedb);
      if err == Some(ErrInsufficientAcks) { return txs + [tx], None; }
      if err.Some? {
        statedb.world := snapshot;
        return txs, err;
      }
      return txs + [tx], None;
    }

    /** Only a block that was not mined here moves the detached state. */
    method WriteBlockWithState(statedb: StateDB, mining: seq<bool>)
      requires mining == [] || (|mining| == 1 && mining[0])
      requires Valid()
      modifies this`stateRoot
      ensures Valid() && View() == WriteBlock(old(View()), statedb.world, mining != [])
    {
      if |mining| == 0 {
        stateRoot := statedb.world;
      }
    }

    // ---------- Processing a block ----------

    /** `r` is what the loops of a block have reached, with the ledger held in `gp` and `statedb`. */
    ghost predicate Reached(r: BlockRun, gp: GasPool, statedb: StateDB, receipts: seq<Receipt>, usedGas: nat)
      reads this, gp, statedb
    {
      && r.node == View()
      && r.ledger == Ledger(statedb.world, gp.gas, usedGas, receipts, None)
    }

    /** The first loop of a block: one step for one of its transactions. */
    method ProcessAck(tx: Transaction, author: Address, gp: GasPool, statedb: StateDB,
                      receipts: seq<Receipt>, usedGas: nat, ghost r: BlockRun)
      returns (err: Option<Error>, receipts': seq<Receipt>, usedGas': nat)
      requires Valid() && gp.gas <= MAX_UINT64 && Reached(r, gp, statedb, receipts, usedGas)
      modifies this`expectedAckNonce, this`unconfirmed, this`voted, this`stakeReceived, this`ballots, this`confirmed
      modifies gp, statedb
      ensures Valid() && gp.gas <= old(gp.gas)
      ensures var r' := AckStep(chain, r, author, tx);
        && r'.node == View() && r'.ledger.err == err
        && (err.None? ==> Reached(r', gp, statedb, receipts', usedGas'))
    {
      hide Confirms, Cast, Apply, CountsWeights, CountsVoters, CountsStake, CheckIntrinsic, Fee;
      err, receipts', usedGas' := None, receipts, usedGas;
      if tx.signer.None? {
        NoSignature(chain, r.ledger, tx);
        err := Some(ErrInvalidSender);
        return;
      }
      if ValidateAck(settings, currentState, expectedAckNonce, tx, false).Some? { return; }
      var confirms, _ := AddAck(tx, author, false);
      if !confirms { return; }
      if ValidateTx(settings, currentState, tx, false).Some? {
        confirmed := confirmed + [tx];
        return;
      }
      err, receipts', usedGas' := ApplyTransaction(tx, External(tx.signer.value), gp, statedb, receipts, usedGas);
    }

    /** The whole first loop, stopping at the first transaction that cannot be applied. */
    method ProcessAcks(b: Block, gp: GasPool, statedb: StateDB, ghost r0: BlockRun)
      returns (err: Option<Error>, receipts: seq<Receipt>, usedGas: nat)
      requires Valid() && gp.gas <= MAX_UINT64 && Reached(r0, gp, statedb, [], 0)
      modifies this`expectedAckNonce, this`unconfirmed, this`voted, this`stakeReceived, this`ballots, this`confirmed
      modifies gp, statedb
      ensures Valid() && gp.gas <= MAX_UINT64
      ensures var r := AckLoop(chain, r0, b.author, b.txs);
        && r.node == View() && r.ledger.err == err
        && (err.None? ==> Reached(r, gp, statedb, receipts, usedGas))
    {
      hide AckStep, CountsWeights, CountsVoters, CountsStake;
      err, receipts, usedGas := None, [], 0;
      var i := 0;
      assert b.txs[..0] == [];
      while i < |b.txs|
        invariant 0 <= i <= |b.txs|
        invariant Valid() && gp.gas <= MAX_UINT64 && err.None?
        invariant Reached(AckLoop(chain, r0, b.author, b.txs[..i]), gp, statedb, receipts, usedGas)
      {
        ghost var r := AckLoop(chain, r0, b.author, b.txs[..i]);
        assert b.txs[..i + 1][..i] == b.txs[..i];
        err, receipts, usedGas := ProcessAck(b.txs[i], b.author, gp, statedb, receipts, usedGas, r);
        i := i + 1;
        assert AckLoop(chain, r0, b.author, b.txs[..i]) == AckStep(chain, r, b.author, b.txs[i - 1]);
        if err.Some? {
          ErrorEndsAcks(chain, r0, b.author, b.txs, i);
          return;
        }
      }
      assert b.txs[..i] == b.txs;
    }

    /** One entry of the queue of confirmed transactions; `n` is where the next kept one goes. */
    method ProcessRetry(i: nat, n: nat, gp: GasPool, statedb: StateDB,
                        receipts: seq<Receipt>, usedGas: nat, ghost r: BlockRun)
      returns (n': nat, err: Option<Error>, receipts': seq<Receipt>, usedGas': nat)
      requires Valid() && gp.gas <= MAX_UINT64 && Reached(r, gp, statedb, receipts, usedGas)
      requires n <= i < |confirmed|
      modifies this`confirmed, gp, statedb
      ensures Valid() && gp.gas <= old(gp.gas)
      ensures var s' := RetryStep(chain, Retry(r, n), i);
        && s'.run.node == View() && s'.run.ledger.err == err && s'.kept == n'
        && (err.None? ==> Reached(s'.run, gp, statedb, receipts', usedGas'))
    {
      hide Apply, ValidateTx, CountsWeights, CountsVoters, CountsStake;
      n', err, receipts', usedGas' := n, None, receipts, usedGas;
      var tx := confirmed[i];
      if tx.signer.None? {
        NoSignature(chain, r.ledger, tx);
        err := Some(ErrInvalidSender);
        return;
      }
      var verdict := ValidateTx(settings, currentState, tx, false);
      if verdict == Some(ErrInsufficientFunds) || verdict == Some(ErrNonceTooHigh) {
        confirmed := confirmed[n := tx];
        n' := n + 1;
        return;
      }
      if verdict.Some? { return; }
      err, receipts', usedGas' := ApplyTransaction(tx, External(tx.signer.value), gp, statedb, receipts, usedGas);
    }

    /** The whole second loop, compacting the queue in place as it goes. */
    method ProcessRetries(gp: GasPool, statedb: StateDB, receipts0: seq<Receipt>, usedGas0: nat, ghost r: BlockRun)
      returns (n: nat, err: Option<Error>, receipts: seq<Receipt>, usedGas: nat)
      requires Valid() && gp.gas <= MAX_UINT64 && Reached(r, gp, statedb, receipts0, usedGas0)
      modifies this`confirmed, gp, statedb
      ensures Valid() && |confirmed| == |r.node.confirmed|
      ensures var s := RetryLoop(chain, r, |r.node.confirmed|);
        && s.run.node == View() && s.run.ledger.err == err
        && (err.None? ==> s.kept == n && Reached(s.run, gp, statedb, receipts, usedGas))
    {
      hide RetryStep, CountsWeights, CountsVoters, CountsStake;
      n, err, receipts, usedGas := 0, None, receipts0, usedGas0;
      var i := 0;
      while i < |confirmed|
        invariant |confirmed| == |r.node.confirmed| && n <= i <= |confirmed|
        invariant Valid() && gp.gas <= MAX_UINT64 && err.None?
        invariant RetryLoop(chain, r, i).kept == n
        invariant Reached(RetryLoop(chain, r, i).run, gp, statedb, receipts, usedGas)
      {
        ghost var s := RetryLoop(chain, r, i);
        n, err, receipts, usedGas := ProcessRetry(i, n, gp, statedb, receipts, usedGas, s.run);
        i := i + 1;
        assert RetryLoop(chain, r, i) == RetryStep(chain, s, i - 1);
        if err.Some? {
          ErrorFreezes(chain, r, i, |r.node.confirmed|);
          return;
        }
      }
    }

    /** Processing a block in place is `Process`. */
    method ProcessBlock(b: Block, statedb: StateDB)
      returns (err: Option<Error>, receipts: seq<Receipt>, usedGas: nat)
      requires Valid() && statedb.world == stateRoot && b.gasLimit <= MAX_UINT64
      modifies this`currentState, this`expectedAckNonce, this`unconfirmed, this`voted, this`stakeReceived,
        this`ballots, this`confirmed
      modifies statedb
      ensures Valid()
      ensures var r := Process(chain, old(View()), b);
        && View() == r.node && err == r.ledger.err
        && (err.None? ==> statedb.world == r.ledger.world && receipts == r.ledger.receipts && usedGas == r.ledger.used)
    {
      hide AckLoop, RetryLoop, CountsWeights, CountsVoters, CountsStake;
      currentState := statedb.world;
      var gp := new GasPool(b.gasLimit);
      ghost var r0 := Open(old(View()), b.gasLimit);
      err, receipts, usedGas := ProcessAcks(b, gp, statedb, r0);
      ghost var r := AckLoop(chain, r0, b.author, b.txs);
      if err.Some? {
        ErrorSkipsRetries(chain, r);
        return;
      }
      var n;
      n, err, receipts, usedGas := ProcessRetries(gp, statedb, receipts, usedGas, r);
      if err.None? {
        confirmed := confirmed[..n];
      }
    }

    /** Importing a block: only success moves the detached state. */
    method InsertBlock(b: Block) returns (err: Option<Error>)
      requires Valid() && b.gasLimit <= MAX_UINT64
      modifies this`currentState, this`stateRoot, this`expectedAckNonce, this`unconfirmed, this`voted,
        this`stakeReceived, this`ballots, this`confirmed
      ensures Valid()
      ensures View() == Import(chain, old(View()), b)
      ensures err.None? <==> Succeeds(chain, old(View()), b)
    {
      hide Process, CountsWeights, CountsVoters, CountsStake;
      var statedb := new StateDB(stateRoot);
      var receipts, usedGas;
      err, receipts, usedGas := ProcessBlock(b, statedb);
      if err.None? {
        WriteBlockWithState(statedb, []);
      }
    }

    // ---------- What the maps add up to ----------

    /** The stake received for a sender and nonce is what all entries for them weigh together. */
    lemma StakeAddsUp(s: Slot)
      requires Valid()
      ensures ReceivedAt(stakeReceived, s) == Sum(Inner(unconfirmed, s).Keys, EntryWeight(unconfirmed, s))
    {
      hide Sum, Weight, Received, Inner;
      var voted := set v | v in VotesIn(ballots, s) :: VotesIn(ballots, s)[v];
      var keys := Inner(unconfirmed, s).Keys;
      var f := WeightFn(chain.stake, ballots, s);
      ReceivedIsSumOfWeights(chain.stake, ballots, s, keys + (voted - keys));
      SumDisjoint(keys, voted - keys, f);
      SumZero(voted - keys, f);
      SumCongruent(keys, f, EntryWeight(unconfirmed, s));
    }

    /** So at most one of them can be above the quorum. */
    lemma OneEntryAboveQuorum(s: Slot, h: Hash, h': Hash, validators: set<Address>, total: nat)
      requires Valid() && chain.quorum == Quorum(total) && StakeOf(chain.stake, validators) <= total
      requires forall a :: HasVoted(voted, s, a) ==> a in validators
      requires EntryOf(unconfirmed, s, h).ackWeight > chain.quorum
      requires EntryOf(unconfirmed, s, h').ackWeight > chain.quorum
      ensures h == h'
    {
      hide Weight, StakeOf, Inner, EntryOf;
      forall a | a in Voters(ballots, s) ensures a in validators { assert HasVoted(voted, s, a); }
      EntryIsWeight(chain.stake, ballots, unconfirmed, s, h);
      EntryIsWeight(chain.stake, ballots, unconfirmed, s, h');
      OneHashPerNode(chain.stake, validators, total, ballots, s, h, h');
    }
  }

  ghost function EntryWeight(u: AckWeights, s: Slot): Hash -> int { (h: Hash) => EntryOf(u, s, h).ackWeight }

  /** No check refuses a transaction for lack of acks. */
  lemma NotForAcks(evm: Evm, rules: Rules, p: Settings, current: World, expected: map<Address, nat>, w: World,
                   pool: nat, tx: Transaction)
    ensures ValidateAck(p, current, expected, tx, true) != Some(ErrInsufficientAcks)
    ensures Transition(evm, rules, w, pool, tx) != Rejected(ErrInsufficientAcks)
  {
    hide IntrinsicGas, Fee, Started, GasAfterRefund;
  }

  lemma {:induction false} ErrorEndsAcks(c: Chain, r: BlockRun, author: Address, txs: seq<Transaction>, i: nat)
    requires i <= |txs|
    requires AckLoop(c, r, author, txs[..i]).ledger.err.Some?
    ensures AckLoop(c, r, author, txs) == AckLoop(c, r, author, txs[..i])
    decreases |txs|
  {
    if i == |txs| {
      assert txs[..i] == txs;
    } else {
      var before := txs[..|txs| - 1];
      assert before[..i] == txs[..i];
      ErrorEndsAcks(c, r, author, before, i);
    }
  }

  lemma ErrorSkipsRetries(c: Chain, r: BlockRun)
    requires r.ledger.err.Some?
    ensures RetryLoop(c, r, |r.node.confirmed|) == Retry(r, 0)
  {
    ErrorFreezes(c, r, 0, |r.node.confirmed|);
  }

  lemma NoSignature(c: Chain, l: Ledger, tx: Transaction)
    requires tx.signer.None? && l.err.None?
    ensures Apply(c.evm, c.rules, l, tx) == l.(err := Some(ErrInvalidSender))
  {
  }

  lemma CastTwice(b: Ballots, s: Slot, a: Address, h: Hash)
    requires a in Voters(b, s)
    ensures Cast(b, s, a, h) == b
  {
  }
}
