/**
 Transactions confirmed more than once. Every new voter above the quorum confirms again, so the
 list of confirmed transactions can hold one twice; two entries that can both be applied make a
 block fail. When that passes and when it never does is decided by what lies between them.
 */
module Repeats {
  import opened Types
  import opened Gas
  import opened Ledger
  import opened Ballots
  import opened Processor
  import opened Turns
  import opened Network
  import opened Retention
  import opened Failures

  /** Two applicable entries of one sender in the list. */
  ghost predicate Repeated(n: NodeState, i: nat, j: nat)
  {
    && i < j < |n.confirmed|
    && n.confirmed[i].signer == n.confirmed[j].signer
    && ValidateTx(n.settings, n.detached, n.confirmed[i], false).None?
    && ValidateTx(n.settings, n.detached, n.confirmed[j], false).None?
  }

  /** Above the quorum every further voter confirms the transaction once more, so it is listed again. */
  lemma LateVoterRepeats(c: Chain, n: NodeState, b: Block, tx: Transaction)
    requires b.txs == [tx] && tx.signer.Some? && tx in n.confirmed
    requires Weight(c.stake, n.ballots, SlotOf(tx), HashOf(tx)) > c.quorum
    requires b.author !in Voters(n.ballots, SlotOf(tx))
    requires ValidateAck(n.settings, n.detached, n.expected, tx, false).None?
    requires Retained(n.settings, n.detached, tx)
    ensures AcksOf(c, n, b).node.confirmed == n.confirmed + [tx]
  {
    var s := SlotOf(tx);
    CastExtends(n.ballots, s, b.author, HashOf(tx));
    WeightMonotone(c.stake, n.ballots, Cast(n.ballots, s, b.author, HashOf(tx)), s, HashOf(tx));
    assert AckLoop(c, Open(n, b.gasLimit), b.author, b.txs[..0]) == Open(n, b.gasLimit);
    hide Weight, Cast, ValidateAck, ValidateTx;
  }

  // ---------- A repetition makes every block fail ----------

  /** The second of the two finds the nonce moved by the first, so the ledger does not survive its turn. */
  lemma RepeatStops(c: Chain, n: NodeState, b: Block, i: nat, j: nat)
    requires Repeated(n, i, j)
    ensures LedgerAt(c, n, b, j + 1).err.Some?
  {
    hide LedgerOf, ValidateTx, Due;
    var turns := AckTurns(c, n, b, |b.txs|);
    var before, tx := turns + Due(n.settings, n.detached, n.confirmed[..j]), n.confirmed[j];
    DueSnoc(n, turns, n.confirmed, j + 1);
    LedgerStep(c, n, b, before, tx);
    if LedgerOf(c, n, b, before).err.None? {
      assert n.confirmed[..j][i] == n.confirmed[i];
      DueMembers(n.settings, n.detached, n.confirmed[..j]);
      AckTurnsAdmitted(c, n, b, |b.txs|);
      assert n.confirmed[i] in before;
      SecondTurnFails(c, n, b, before, n.confirmed[i], tx);
    }
  }

  lemma SignersDiffer(start: World, receipts: seq<Receipt>, i: nat, j: nat)
    requires OnePerSender(start, receipts) && i < j < |receipts|
    ensures receipts[i].tx.signer != receipts[j].tx.signer
  {
  }

  lemma SecondTurnFails(c: Chain, n: NodeState, b: Block, txs: seq<Transaction>, first: Transaction, tx: Transaction)
    requires LedgerOf(c, n, b, txs).err.None? && first in txs && first.signer == tx.signer
    requires Admitted(n.settings, n.detached, tx)
    requires forall t :: t in txs ==> Admitted(n.settings, n.detached, t)
    ensures LedgerOf(c, n, b, txs + [tx]).err.Some?
  {
    hide ApplyAll, Transition, NoncesMoved, OnePerSender, ValidateTx;
    var l, l' := LedgerOf(c, n, b, txs), LedgerOf(c, n, b, txs + [tx]);
    LedgerStep(c, n, b, txs, tx);
    AppliedOnSuccess(c, Opening(n.detached, b.gasLimit), txs);
    var q :| q in l.receipts && q.tx == first;
    assert forall t :: t in txs + [tx] ==> Admitted(n.settings, n.detached, t);
    AdmittedNonces(n.settings, n.detached, txs + [tx]);
    AtMostOnePerSender(c.evm, c.rules, n.detached, b.gasLimit, txs + [tx]);
    var k :| 0 <= k < |l.receipts| && l.receipts[k] == q;
    if l'.err.None? {
      SignersDiffer(n.detached, l'.receipts, k, |l.receipts|);
    }
  }

  /** No block gets past the second entry. */
  lemma RepeatFails(c: Chain, n: NodeState, b: Block, i: nat, j: nat)
    requires Repeated(n, i, j)
    ensures !Succeeds(c, n, b) && StopsAt(c, n, b) <= j
  {
    hide Process, LedgerOf, Due, ValidateTx;
    RepeatStops(c, n, b, i, j);
    FreezesOn(c, n, b, j + 1, |n.confirmed|);
    TurnsDecide(c, n, b);
    assert n.confirmed[..|n.confirmed|] == n.confirmed;
    StopsFromIsFirst(c, n, b, 0);
    var f := StopsAt(c, n, b);
    if f > j { FreezesOn(c, n, b, j + 1, f); }
  }

  // ---------- Without one, an empty block with enough gas succeeds ----------

  function GasOf(txs: seq<Transaction>): nat
  {
    if txs == [] then 0 else GasOf(txs[..|txs| - 1]) + txs[|txs| - 1].gas
  }

  /** Admitted transactions of different senders all apply if there is gas for all of them. */
  lemma {:induction false} AllApply(evm: Evm, rules: Rules, p: Settings, start: World, gasLimit: nat,
                                    txs: seq<Transaction>)
    requires TransfersOnly(evm) && rules.homestead && rules.istanbul == p.istanbul
    requires forall tx :: tx in txs ==> Admitted(p, start, tx) && tx.signer.Some?
    requires DifferentSenders(txs) && gasLimit >= GasOf(txs)
    ensures var l := ApplyAll(evm, rules, Opening(start, gasLimit), txs); l.err.None? && l.pool >= gasLimit - GasOf(txs)
  {
    hide TransfersOnly, Admitted, Apply;
    if txs != [] {
      var front, tx := txs[..|txs| - 1], txs[|txs| - 1];
      AllApply(evm, rules, p, start, gasLimit, front);
      var l := ApplyAll(evm, rules, Opening(start, gasLimit), front);
      AdmittedNonces(p, start, front);
      AtMostOnePerSender(evm, rules, start, gasLimit, front);
      TransfersKeepFunds(evm, rules, start, gasLimit, front);
      ReceiptsFromAttempts(Chain(0, map[], evm, rules), Opening(start, gasLimit), front);
      forall r | r in l.receipts ensures r.tx.signer != tx.signer {
        var i :| 0 <= i < |front| && front[i] == r.tx;
        assert txs[i] == r.tx;
      }
      hide ApplyAll;
      OneMoreApplies(evm, rules, p, start, l, tx);
    }
  }

  lemma OneMoreApplies(evm: Evm, rules: Rules, p: Settings, start: World, l: Ledger, tx: Transaction)
    requires rules.homestead && rules.istanbul == p.istanbul && l.err.None?
    requires NoncesMoved(start, l) && FundsKept(start, l)
    requires Admitted(p, start, tx) && tx.signer.Some? && l.pool >= tx.gas
    requires forall r :: r in l.receipts ==> r.tx.signer != tx.signer
    ensures var l' := Apply(evm, rules, l, tx); l'.err.None? && l'.pool >= l.pool - tx.gas
  {
    var from := External(tx.signer.value);
    assert Some(from) !in Senders(l.receipts);
    assert NonceOf(l.world, from) == NonceOf(start, from);
    AdmittedPassesChecks(rules, p, start, l, tx);
    hide Wrap, DataGas, Fee, Senders;
    assert Checks(rules, l.world, l.pool, tx).None?;
  }

  lemma {:induction false} DueDistinct(n: NodeState, k: nat)
    requires k <= |n.confirmed| && forall i: nat, j: nat :: j < k ==> !Repeated(n, i, j)
    requires forall tx :: tx in n.confirmed ==> tx.signer.Some?
    ensures DifferentSenders(Due(n.settings, n.detached, n.confirmed[..k]))
    decreases k
  {
    if k > 0 {
      DueDistinct(n, k - 1);
      assert n.confirmed[..k][..k - 1] == n.confirmed[..k - 1];
      var before, tx := Due(n.settings, n.detached, n.confirmed[..k - 1]), n.confirmed[k - 1];
      DueMembers(n.settings, n.detached, n.confirmed[..k - 1]);
      hide ValidateTx;
      if Admitted(n.settings, n.detached, tx) {
        forall t | t in before ensures t.signer != tx.signer {
          var i :| 0 <= i < |n.confirmed[..k - 1]| && n.confirmed[..k - 1][i] == t;
          assert t in n.confirmed && tx in n.confirmed;
          assert !Repeated(n, i, k - 1);
        }
      }
    }
  }

  lemma {:induction false} DueGas(p: Settings, w: World, txs: seq<Transaction>, k: nat)
    requires k <= |txs|
    ensures GasOf(Due(p, w, txs[..k])) <= GasOf(Due(p, w, txs))
    decreases |txs|
  {
    if k < |txs| {
      var front := txs[..|txs| - 1];
      assert front[..k] == txs[..k];
      DueGas(p, w, front, k);
      hide Admitted;
      if Admitted(p, w, txs[|txs| - 1]) {
        assert Due(p, w, txs)[..|Due(p, w, front)|] == Due(p, w, front);
      } else {
        assert Due(p, w, txs) == Due(p, w, front);
      }
    } else {
      assert txs[..k] == txs;
    }
  }

  /** A block without transactions, with gas for everything on the list. */
  function Catchup(n: NodeState, author: Address): Block
  {
    Block(author, [], GasOf(Due(n.settings, n.detached, n.confirmed)))
  }

  /** What the results below ask of a node and its chain. */
  ghost predicate Sound(c: Chain, n: NodeState)
  {
    && TransfersOnly(c.evm) && c.rules.homestead && c.rules.istanbul == n.settings.istanbul
    && forall tx :: tx in n.confirmed ==> tx.signer.Some?
  }

  lemma CatchupReaches(c: Chain, n: NodeState, author: Address, k: nat)
    requires Sound(c, n) && k <= |n.confirmed| && forall i: nat, j: nat :: j < k ==> !Repeated(n, i, j)
    ensures LedgerAt(c, n, Catchup(n, author), k).err.None?
  {
    var b, p, w := Catchup(n, author), n.settings, n.detached;
    var due := Due(p, w, n.confirmed[..k]);
    assert AckTurns(c, n, b, 0) + due == due;
    DueDistinct(n, k);
    DueMembers(p, w, n.confirmed[..k]);
    DueGas(p, w, n.confirmed, k);
    hide TransfersOnly, Admitted, Due, ApplyAll, DifferentSenders, GasOf;
    AllApply(c.evm, c.rules, p, w, b.gasLimit, due);
  }

  lemma CatchupSucceeds(c: Chain, n: NodeState, author: Address)
    requires Sound(c, n) && forall i: nat, j: nat :: !Repeated(n, i, j)
    ensures Succeeds(c, n, Catchup(n, author))
  {
    hide Sound, Process, LedgerOf, Due, Repeated, Catchup;
    CatchupReaches(c, n, author, |n.confirmed|);
    TurnsDecide(c, n, Catchup(n, author));
    assert n.confirmed[..|n.confirmed|] == n.confirmed;
  }

  /** Some block gets through exactly when nothing applicable is listed twice for one sender. */
  lemma ProgressIff(c: Chain, n: NodeState)
    requires Sound(c, n)
    ensures (exists b :: Succeeds(c, n, b)) <==> !(exists i: nat, j: nat :: Repeated(n, i, j))
  {
    hide Sound, Process, Repeated, Succeeds;
    if i: nat, j: nat :| Repeated(n, i, j) {
      forall b ensures !Succeeds(c, n, b) { RepeatFails(c, n, b, i, j); }
    } else {
      CatchupSucceeds(c, n, External(0));
    }
  }

  // ---------- When it passes, and when it never does ----------

  /** Two applicable entries of one sender with nothing waiting between them. */
  ghost predicate Stuck(n: NodeState)
  {
    exists i: nat, j: nat :: StuckAt(n, i, j)
  }

  ghost predicate StuckAt(n: NodeState, i: nat, j: nat)
  {
    Repeated(n, i, j) && forall k :: i < k < j ==> !Retained(n.settings, n.detached, n.confirmed[k])
  }

  lemma {:induction false} KeptSame(p: Settings, w: World, txs: seq<Transaction>, i: nat, f: nat)
    requires i <= f <= |txs| && forall k :: i <= k < f ==> !Retained(p, w, txs[k])
    ensures Kept(p, w, txs[..f]) == Kept(p, w, txs[..i])
    decreases f
  {
    hide Retained;
    if i < f {
      assert txs[..f][..f - 1] == txs[..f - 1];
      KeptSame(p, w, txs, i, f - 1);
    }
  }

  /** What is written to the front never reaches the first of the two. */
  lemma StaysInFront(c: Chain, n: NodeState, b: Block, i: nat, j: nat)
    requires StuckAt(n, i, j) && StopsAt(c, n, b) <= j
    ensures Written(c, n, b) <= i
  {
    var p, w, f := n.settings, n.detached, StopsAt(c, n, b);
    assert !Retained(p, w, n.confirmed[i]);
    hide Retained, ValidateTx, StopsAt, Kept;
    if i < f {
      KeptSame(p, w, n.confirmed, i, f);
      KeptShorter(p, w, n.confirmed[..i]);
    }
  }

  /** From the overwritten front on the old list stays in place. */
  lemma InPlace(c: Chain, n: NodeState, b: Block, x: nat)
    requires !Succeeds(c, n, b) && Written(c, n, b) <= x < |n.confirmed|
    ensures var n' := Import(c, n, b); x < |n'.confirmed| && n'.confirmed[x] == n.confirmed[x]
  {
    hide Process, AcksOf, Import, Kept, StopsAt, Retained;
    FailureLeaves(c, n, b);
  }

  /**
   A stuck node rejects every block, whoever made it and whatever it carries, and is as stuck
   afterwards as before.
   */
  lemma StuckForever(c: Chain, n: NodeState, b: Block)
    requires Stuck(n)
    ensures !Succeeds(c, n, b)
    ensures Import(c, n, b).detached == n.detached
    ensures Stuck(Import(c, n, b))
  {
    hide Process, Import, ValidateTx, Retained, StopsAt, Succeeds;
    var i: nat, j: nat :| StuckAt(n, i, j);
    RepeatFails(c, n, b, i, j);
    StaysInFront(c, n, b, i, j);
    FailureLeaves(c, n, b);
    hide Kept, Queue;
    var n' := Import(c, n, b);
    forall x | i <= x <= j ensures x < |n'.confirmed| && n'.confirmed[x] == n.confirmed[x] {
      InPlace(c, n, b, x);
    }
    assert StuckAt(n', i, j);
  }

  /** A longer list leaves a node as stuck as it was. */
  lemma LongerStuck(n: NodeState, n': NodeState)
    requires Stuck(n) && n.confirmed <= n'.confirmed
    requires n'.detached == n.detached && n'.settings == n.settings
    ensures Stuck(n')
  {
    hide Retained, ValidateTx;
    var i: nat, j: nat :| StuckAt(n, i, j);
    assert forall k :: 0 <= k < |n.confirmed| ==> n'.confirmed[k] == n.confirmed[k];
    assert StuckAt(n', i, j);
  }

  /** The step leaves the settings of node `a` alone. */
  predicate KeepsSettings(net: Network, act: Action, a: Address)
  {
    act.Reset? && act.at == a && a in net ==> act.settings == net[a].node.settings
  }

  lemma StepStuck(sys: System, net: Network, act: Action, a: Address)
    requires Enabled(sys, net, act) && a in net && Stuck(net[a].node) && KeepsSettings(net, act, a)
    ensures var n' := Next(sys, net, act)[a].node; Stuck(n') && n'.detached == net[a].node.detached
  {
    hide Stuck, Import, Process, ValidateAck, Commit, Cast, Confirms;
    if act.at == a {
      var n := net[a].node;
      if act.Receive? {
        StuckForever(sys.chain, n, act.block);
      } else {
        LongerStuck(n, Next(sys, net, act)[a].node);
      }
    }
  }

  /** A node stuck at some point of a run has the same detached state ever after, unless its settings change. */
  lemma {:induction false} RunStuck(sys: System, nets: seq<Network>, acts: seq<Action>, k: nat, a: Address)
    requires Run(sys, nets, acts) && k < |nets| && a in nets[k] && Stuck(nets[k][a].node)
    requires forall i :: k <= i < |acts| ==> KeepsSettings(nets[i], acts[i], a)
    ensures var last := nets[|nets| - 1];
      a in last && Stuck(last[a].node) && last[a].node.detached == nets[k][a].node.detached
    decreases |nets|
  {
    hide Stuck, Next, Enabled, Init;
    if k < |acts| {
      var e := |acts|;
      assert Run(sys, nets[..e], acts[..e - 1]);
      RunStuck(sys, nets[..e], acts[..e - 1], k, a);
      assert Step(sys, nets[e - 1], nets[e], acts[e - 1]);
      StepStuck(sys, nets[e - 1], acts[e - 1], a);
      StepKeys(sys, nets[e - 1], acts[e - 1]);
    }
  }

  /** Blocks the last of which gets through, whatever became of those before. */
  ghost predicate Recovery(c: Chain, n: NodeState, bs: seq<Block>)
    decreases |bs|
  {
    bs != [] && (Succeeds(c, n, bs[0]) || Recovery(c, Import(c, n, bs[0]), bs[1..]))
  }

  lemma {:induction false} NoRecovery(c: Chain, n: NodeState, bs: seq<Block>)
    requires Stuck(n)
    ensures !Recovery(c, n, bs)
    decreases |bs|
  {
    hide Stuck, Succeeds, Import;
    if bs != [] {
      StuckForever(c, n, bs[0]);
      NoRecovery(c, Import(c, n, bs[0]), bs[1..]);
    }
  }

  /** How many entries do not wait. */
  ghost function Settledness(n: NodeState): int { |n.confirmed| - |Kept(n.settings, n.detached, n.confirmed)| }

  lemma {:induction false} KeptSplits(p: Settings, w: World, xs: seq<Transaction>, ys: seq<Transaction>)
    ensures Kept(p, w, xs + ys) == Kept(p, w, xs) + Kept(p, w, ys)
    decreases |ys|
  {
    hide Retained;
    if ys == [] {
      assert xs + ys == xs;
    } else {
      KeptSplits(p, w, xs, ys[..|ys| - 1]);
      assert (xs + ys)[..|xs + ys| - 1] == xs + ys[..|ys| - 1];
    }
  }

  lemma {:induction false} KeptAll(p: Settings, w: World, txs: seq<Transaction>)
    ensures |Kept(p, w, txs)| == |txs| <==> forall tx :: tx in txs ==> Retained(p, w, tx)
    ensures Kept(p, w, Kept(p, w, txs)) == Kept(p, w, txs)
  {
    hide Retained;
    if txs != [] {
      var front, tx := txs[..|txs| - 1], txs[|txs| - 1];
      KeptAll(p, w, front);
      KeptShorter(p, w, front);
      if Retained(p, w, tx) {
        var kept := Kept(p, w, front) + [tx];
        assert kept[..|kept| - 1] == Kept(p, w, front);
      } else {
        assert Kept(p, w, txs) == Kept(p, w, front);
      }
      assert forall t :: t in txs <==> t in front || t == tx;
    }
  }

  lemma {:induction false} FirstRepeat(n: NodeState, i: nat, j: nat) returns (i': nat, j': nat)
    requires Repeated(n, i, j)
    ensures Repeated(n, i', j') && forall x: nat, y: nat :: y < j' ==> !Repeated(n, x, y)
    decreases j
  {
    hide Repeated;
    if x: nat, y: nat :| y < j && Repeated(n, x, y) {
      i', j' := FirstRepeat(n, x, y);
    } else {
      i', j' := i, j;
    }
  }

  /** An empty block with enough gas fails at the first repetition and compacts all that waits before it. */
  lemma CatchupLeaves(c: Chain, n: NodeState, author: Address, i: nat, j: nat)
    requires Sound(c, n) && Repeated(n, i, j) && forall x: nat, y: nat :: y < j ==> !Repeated(n, x, y)
    ensures var b := Catchup(n, author); var n' := Import(c, n, b);
      var kept := Kept(n.settings, n.detached, n.confirmed[..j]);
      && !Succeeds(c, n, b)
      && n'.settings == n.settings && n'.detached == n.detached
      && |kept| <= j && n'.confirmed == kept + n.confirmed[|kept|..]
  {
    hide Sound, Process, Import, Kept, LedgerAt, StopsFrom, Queue, Succeeds, Due;
    var b := Catchup(n, author);
    RepeatFails(c, n, b, i, j);
    RepeatStops(c, n, b, i, j);
    CatchupReaches(c, n, author, j);
    StopsExactly(c, n, b, j);
    FailureLeaves(c, n, b);
    assert AcksOf(c, n, b).node.confirmed == n.confirmed;
  }

  lemma FrontWaits(p: Settings, w: World, kept: seq<Transaction>, txs: seq<Transaction>, a: nat)
    requires a < |kept| && kept <= txs && forall tx :: tx in kept ==> Retained(p, w, tx)
    ensures Retained(p, w, txs[a])
  {
    assert txs[a] == kept[a];
  }

  /** If all that waits lies at the front, nothing waits behind something that does not. */
  lemma FrontOnly(p: Settings, w: World, txs: seq<Transaction>, i: nat, x: nat)
    requires i < x < |txs| && !Retained(p, w, txs[i])
    requires |Kept(p, w, txs)| <= |txs| && |Kept(p, w, txs[..|Kept(p, w, txs)|])| == |Kept(p, w, txs)|
    ensures !Retained(p, w, txs[x])
  {
    hide Retained, Kept;
    var k := |Kept(p, w, txs)|;
    var front, back := txs[..k], txs[k..];
    KeptAll(p, w, front);
    KeptSplits(p, w, front, back);
    KeptMembers(p, w, back);
    assert txs == front + back;
    assert Kept(p, w, back) == [];
    assert x >= k ==> back[x - k] == txs[x];
    if i < k { FrontWaits(p, w, front, txs, i); }
  }

  lemma NotAllInFront(n: NodeState, i: nat, j: nat)
    requires Repeated(n, i, j) && !StuckAt(n, i, j)
    ensures var k := |Kept(n.settings, n.detached, n.confirmed[..j])|;
      k <= j && |Kept(n.settings, n.detached, n.confirmed[..k])| < k
  {
    var p, w, txs := n.settings, n.detached, n.confirmed[..j];
    assert !Retained(p, w, n.confirmed[i]);
    hide Retained, ValidateTx, Kept;
    var x: nat :| i < x < j && Retained(p, w, n.confirmed[x]);
    var k := |Kept(p, w, txs)|;
    KeptShorter(p, w, txs);
    assert txs[..k] == n.confirmed[..k];
    KeptShorter(p, w, txs[..k]);
    if |Kept(p, w, txs[..k])| == k { FrontOnly(p, w, txs, i, x); }
  }

  /** Such a block brings a node that is not stuck closer to recovery. */
  lemma CatchupHelps(c: Chain, n: NodeState, author: Address, i: nat, j: nat)
    requires Sound(c, n) && !Stuck(n)
    requires Repeated(n, i, j) && forall x: nat, y: nat :: y < j ==> !Repeated(n, x, y)
    ensures var n' := Import(c, n, Catchup(n, author));
      Sound(c, n') && !Stuck(n') && 0 <= Settledness(n') < Settledness(n)
  {
    var n', p, w := Import(c, n, Catchup(n, author)), n.settings, n.detached;
    var kept := Kept(p, w, n.confirmed[..j]);
    var k := |kept|;
    assert !StuckAt(n, i, j);
    CatchupLeaves(c, n, author, i, j);
    hide Import, Catchup, Succeeds, StuckAt, TransfersOnly;
    KeptAreRetained(p, w, n.confirmed[..j]);
    SoundAfter(c, n, n', kept);
    NotStuckAfter(n, n', kept);
    NotAllInFront(n, i, j);
    FewerSettled(n, n', j);
  }

  lemma SoundAfter(c: Chain, n: NodeState, n': NodeState, kept: seq<Transaction>)
    requires Sound(c, n) && n'.settings == n.settings && |kept| <= |n.confirmed|
    requires forall tx :: tx in kept ==> tx in n.confirmed
    requires n'.confirmed == kept + n.confirmed[|kept|..]
    ensures Sound(c, n')
  {
    hide TransfersOnly;
    forall tx | tx in n'.confirmed ensures tx in n.confirmed { }
  }

  /** What is stuck afterwards was stuck before. */
  lemma StuckBefore(n: NodeState, n': NodeState, kept: seq<Transaction>, a: nat, b: nat)
    requires n'.settings == n.settings && n'.detached == n.detached && |kept| <= |n.confirmed|
    requires forall tx :: tx in kept ==> Retained(n.settings, n.detached, tx)
    requires n'.confirmed == kept + n.confirmed[|kept|..] && StuckAt(n', a, b)
    ensures StuckAt(n, a, b)
  {
    assert a >= |kept| by {
      if a < |kept| { FrontWaits(n.settings, n.detached, kept, n'.confirmed, a); }
    }
    hide ValidateTx, Retained;
    assert |n'.confirmed| == |n.confirmed|;
    assert forall x :: |kept| <= x < |n.confirmed| ==> n'.confirmed[x] == n.confirmed[x];
  }

  lemma NotStuckAfter(n: NodeState, n': NodeState, kept: seq<Transaction>)
    requires !Stuck(n) && n'.settings == n.settings && n'.detached == n.detached && |kept| <= |n.confirmed|
    requires forall tx :: tx in kept ==> Retained(n.settings, n.detached, tx)
    requires n'.confirmed == kept + n.confirmed[|kept|..]
    ensures !Stuck(n')
  {
    hide ValidateTx, Retained, StuckAt;
    if a: nat, b: nat :| StuckAt(n', a, b) {
      StuckBefore(n, n', kept, a, b);
    }
  }

  lemma FewerSettled(n: NodeState, n': NodeState, j: nat)
    requires j <= |n.confirmed| && n'.settings == n.settings && n'.detached == n.detached
    requires var kept := Kept(n.settings, n.detached, n.confirmed[..j]);
      && |kept| <= j && n'.confirmed == kept + n.confirmed[|kept|..]
      && |Kept(n.settings, n.detached, n.confirmed[..|kept|])| < |kept|
    ensures 0 <= Settledness(n') < Settledness(n)
  {
    hide Retained, Kept;
    var p, w := n.settings, n.detached;
    var kept := Kept(p, w, n.confirmed[..j]);
    var front, back := n.confirmed[..|kept|], n.confirmed[|kept|..];
    KeptAll(p, w, n.confirmed[..j]);
    KeptSplits(p, w, kept, back);
    KeptSplits(p, w, front, back);
    assert front + back == n.confirmed;
    KeptShorter(p, w, n'.confirmed);
  }

  /** A node that is not stuck gets going again, at the latest after as many failures as entries do not wait. */
  lemma {:induction false} Recovers(c: Chain, n: NodeState) returns (bs: seq<Block>)
    requires Sound(c, n) && !Stuck(n)
    ensures Recovery(c, n, bs)
    decreases Settledness(n)
  {
    hide Sound, Stuck, Succeeds, Import, Catchup, Repeated, Settledness;
    var b := Catchup(n, External(0));
    if i: nat, j: nat :| Repeated(n, i, j) {
      var i', j' := FirstRepeat(n, i, j);
      CatchupHelps(c, n, External(0), i', j');
      var rest := Recovers(c, Import(c, n, b));
      bs := [b] + rest;
      assert bs[1..] == rest;
    } else {
      CatchupSucceeds(c, n, External(0));
      bs := [b];
    }
  }

  /** Blocks can get through again exactly when the node is not stuck. */
  lemma RecoveryIff(c: Chain, n: NodeState)
    requires Sound(c, n)
    ensures (exists bs :: Recovery(c, n, bs)) <==> !Stuck(n)
  {
    hide Sound, Stuck, Recovery;
    if Stuck(n) {
      forall bs ensures !Recovery(c, n, bs) { NoRecovery(c, n, bs); }
    } else {
      var bs := Recovers(c, n);
    }
  }
}
