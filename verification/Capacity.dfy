/**
 When a block of plain transfers gets through. Such a transfer uses exactly its intrinsic gas, so
 whether the turns of a block all succeed, and where the first one fails, is a matter of
 signatures, senders and sums of gas.
 */
module Capacity {
  import opened Types
  import opened Gas
  import opened Ledger
  import opened Processor
  import opened Turns
  import opened Retention
  import opened Failures

  function Intrinsic(istanbul: bool, tx: Transaction): nat
  {
    match IntrinsicGas(tx, true, istanbul)
    case Overflow => 0
    case Charge(gas) => gas
  }

  function Spent(istanbul: bool, txs: seq<Transaction>): nat
  {
    if txs == [] then 0 else Spent(istanbul, txs[..|txs| - 1]) + Intrinsic(istanbul, txs[|txs| - 1])
  }

  /** For each there is its gas after the intrinsic gas of those before. */
  ghost predicate Roomy(istanbul: bool, gasLimit: nat, txs: seq<Transaction>)
  {
    forall k :: 0 <= k < |txs| ==> Spent(istanbul, txs[..k]) + txs[k].gas <= gasLimit
  }

  /** Signed, of different senders, and with room for all of them. */
  ghost predicate Fits(istanbul: bool, gasLimit: nat, txs: seq<Transaction>)
  {
    (forall tx :: tx in txs ==> tx.signer.Some?) && DifferentSenders(txs) && Roomy(istanbul, gasLimit, txs)
  }

  lemma RoomySnoc(istanbul: bool, gasLimit: nat, txs: seq<Transaction>, tx: Transaction)
    ensures Roomy(istanbul, gasLimit, txs + [tx]) <==>
      Roomy(istanbul, gasLimit, txs) && Spent(istanbul, txs) + tx.gas <= gasLimit
  {
    hide Spent;
    var all := txs + [tx];
    assert all[..|txs|] == txs && all[|txs|] == tx;
    assert forall k :: 0 <= k < |txs| ==> all[k] == txs[k] && all[..k] == txs[..k];
    if Roomy(istanbul, gasLimit, all) {
      forall k | 0 <= k < |txs| ensures Spent(istanbul, txs[..k]) + txs[k].gas <= gasLimit {
        assert Spent(istanbul, all[..k]) + all[k].gas <= gasLimit;
      }
      assert Spent(istanbul, all[..|txs|]) + all[|txs|].gas <= gasLimit;
    }
  }

  lemma DifferentSnoc(txs: seq<Transaction>, tx: Transaction)
    ensures DifferentSenders(txs + [tx]) <==>
      DifferentSenders(txs) && forall t :: t in txs ==> t.signer != tx.signer
  {
    var all := txs + [tx];
    assert forall k :: 0 <= k < |txs| ==> all[k] == txs[k];
    if DifferentSenders(all) {
      forall t | t in txs ensures t.signer != tx.signer {
        var i :| 0 <= i < |txs| && txs[i] == t;
        assert all[i].signer != all[|txs|].signer;
      }
      forall i, j | 0 <= i < j < |txs| ensures txs[i].signer != txs[j].signer {
        assert all[i].signer != all[j].signer;
      }
    }
  }

  lemma FitsSnoc(istanbul: bool, gasLimit: nat, txs: seq<Transaction>, tx: Transaction)
    ensures Fits(istanbul, gasLimit, txs + [tx]) <==>
      && Fits(istanbul, gasLimit, txs)
      && tx.signer.Some? && (forall t :: t in txs ==> t.signer != tx.signer)
      && Spent(istanbul, txs) + tx.gas <= gasLimit
  {
    hide Spent, Roomy, DifferentSenders;
    assert forall t :: t in txs + [tx] <==> t in txs || t == tx;
    RoomySnoc(istanbul, gasLimit, txs, tx);
    DifferentSnoc(txs, tx);
  }

  // ---------- One transaction ----------

  lemma GasReturned(call: CallResult, pool: nat, tx: Transaction, from: Address, intrinsic: nat)
    requires intrinsic <= tx.gas <= pool && call.gasLeft == tx.gas - intrinsic && call.refund == 0
    ensures Settled(call, pool, tx, from).Executed? && Settled(call, pool, tx, from).pool == pool - intrinsic
  {
  }

  /** A plain transfer that passes the checks uses its intrinsic gas and no more. */
  lemma PlainUses(rules: Rules, w: World, pool: nat, tx: Transaction)
    requires rules.homestead
    ensures var r := Transition(PlainTransfers(), rules, w, pool, tx);
      && (r.Executed? <==> Checks(rules, w, pool, tx).None?)
      && (r.Executed? ==> r.pool == pool - Intrinsic(rules.istanbul, tx))
  {
    hide IntrinsicGas, Fee, TransferCall, Settled, Started, PlainTransfers, Conserving, TotalBalance, Solvent;
    if Checks(rules, w, pool, tx).None? {
      var from := External(tx.signer.value);
      var gas := Intrinsic(rules.istanbul, tx);
      var started := Started(w, tx, from);
      PlainTransfersCall(started, tx, tx.gas - gas);
      TransferCallMoves(started, tx, tx.gas - gas);
      GasReturned(TransferCall(started, tx, tx.gas - gas), pool, tx, from, gas);
    }
  }

  /** The checks of an admitted transaction come down to signature, sender and gas. */
  lemma ChecksExactly(rules: Rules, p: Settings, start: World, l: Ledger, tx: Transaction)
    requires rules.homestead && rules.istanbul == p.istanbul
    requires OnePerSender(start, l.receipts) && NoncesMoved(start, l) && FundsKept(start, l) && Admitted(p, start, tx)
    ensures Checks(rules, l.world, l.pool, tx).None? <==>
      tx.signer.Some? && tx.gas <= l.pool && forall r :: r in l.receipts ==> r.tx.signer != tx.signer
  {
    AdmittedPassesChecks(rules, p, start, l, tx);
    if tx.signer.Some? {
      var from := External(tx.signer.value);
      SendersHave(l.receipts, tx);
      assert NonceOf(l.world, from) == NonceOf(start, from) + if Some(from) in Senders(l.receipts) then 1 else 0;
      assert NonceOf(start, from) == tx.nonce;
      hide Wrap, DataGas, Fee, Senders, OnePerSender, FundsKept, NoncesMoved;
    }
  }

  lemma SendersHave(receipts: seq<Receipt>, tx: Transaction)
    requires tx.signer.Some?
    ensures Some(External(tx.signer.value)) in Senders(receipts) <==>
      exists r :: r in receipts && r.tx.signer == tx.signer
  {
    if r :| r in receipts && r.tx.signer == tx.signer {
      assert Sender(r.tx) in Senders(receipts);
    }
  }

  // ---------- A sequence of them ----------

  /** Admitted transfers all apply exactly when they fit. */
  lemma {:induction false} PlainFits(rules: Rules, p: Settings, start: World, gasLimit: nat, txs: seq<Transaction>)
    requires rules.homestead && rules.istanbul == p.istanbul
    requires forall tx :: tx in txs ==> Admitted(p, start, tx)
    ensures var l := ApplyAll(PlainTransfers(), rules, Opening(start, gasLimit), txs);
      && (l.err.None? <==> Fits(rules.istanbul, gasLimit, txs))
      && (l.err.None? ==> l.pool == gasLimit - Spent(rules.istanbul, txs))
  {
    hide Admitted, Transition, OnePerSender, NoncesMoved, FundsKept, Fits, TransfersOnly, Checks;
    if txs == [] {
      NothingFits(rules.istanbul, gasLimit);
    } else {
      var front, tx := txs[..|txs| - 1], txs[|txs| - 1];
      assert txs == front + [tx];
      PlainFits(rules, p, start, gasLimit, front);
      FitsSnoc(rules.istanbul, gasLimit, front, tx);
      var l := ApplyAll(PlainTransfers(), rules, Opening(start, gasLimit), front);
      if l.err.None? {
        AdmittedNonces(p, start, front);
        AtMostOnePerSender(PlainTransfers(), rules, start, gasLimit, front);
        PlainTransfersOnly();
        TransfersKeepFunds(PlainTransfers(), rules, start, gasLimit, front);
        PlainUses(rules, l.world, l.pool, tx);
        ChecksExactly(rules, p, start, l, tx);
        SameSigners(Chain(0, map[], PlainTransfers(), rules), Opening(start, gasLimit), front, tx);
      }
    }
  }

  lemma NothingFits(istanbul: bool, gasLimit: nat)
    ensures Fits(istanbul, gasLimit, []) && Spent(istanbul, []) == 0
  {
  }

  lemma SameSigners(c: Chain, l: Ledger, txs: seq<Transaction>, tx: Transaction)
    requires l.receipts == [] && ApplyAll(c.evm, c.rules, l, txs).err.None?
    ensures (forall r :: r in ApplyAll(c.evm, c.rules, l, txs).receipts ==> r.tx.signer != tx.signer) <==>
      forall t :: t in txs ==> t.signer != tx.signer
  {
    AppliedOnSuccess(c, l, txs);
    ReceiptsFromAttempts(c, l, txs);
  }

  // ---------- Whole blocks ----------

  /** A chain of plain transfers whose fork flags are those of the node's pool. */
  ghost predicate Plain(c: Chain, n: NodeState)
  {
    c.evm == PlainTransfers() && c.rules.homestead && c.rules.istanbul == n.settings.istanbul
  }

  /** The turns up to and including those of the first `i` entries of the list. */
  ghost function TurnsUpto(c: Chain, n: NodeState, b: Block, i: nat): seq<Transaction>
    requires i <= |n.confirmed|
  {
    AckTurns(c, n, b, |b.txs|) + Due(n.settings, n.detached, n.confirmed[..i])
  }

  lemma UptoFits(c: Chain, n: NodeState, b: Block, i: nat)
    requires Plain(c, n) && i <= |n.confirmed|
    ensures LedgerAt(c, n, b, i).err.None? <==> Fits(n.settings.istanbul, b.gasLimit, TurnsUpto(c, n, b, i))
  {
    hide Due, Admitted, ApplyAll, Fits, PlainTransfers;
    AckTurnsAdmitted(c, n, b, |b.txs|);
    DueMembers(n.settings, n.detached, n.confirmed[..i]);
    PlainFits(c.rules, n.settings, n.detached, b.gasLimit, TurnsUpto(c, n, b, i));
  }

  lemma AllUpto(c: Chain, n: NodeState, b: Block)
    ensures TurnsUpto(c, n, b, |n.confirmed|) == TurnsOf(c, n, b)
  {
    assert n.confirmed[..|n.confirmed|] == n.confirmed;
  }

  /** A block of plain transfers gets through exactly when its turns fit. */
  lemma PlainSucceeds(c: Chain, n: NodeState, b: Block)
    requires Plain(c, n)
    ensures Succeeds(c, n, b) <==> Fits(n.settings.istanbul, b.gasLimit, TurnsOf(c, n, b))
  {
    hide Process, Fits, LedgerOf, Due, Plain, AckTurns;
    TurnsDecide(c, n, b);
    UptoFits(c, n, b, |n.confirmed|);
    AllUpto(c, n, b);
  }

  /** The second loop stops at the first entry with which the turns do not fit. */
  lemma PlainStopsAt(c: Chain, n: NodeState, b: Block, j: nat)
    requires Plain(c, n) && j < |n.confirmed|
    ensures StopsAt(c, n, b) <= j <==> !Fits(n.settings.istanbul, b.gasLimit, TurnsUpto(c, n, b, j + 1))
  {
    hide LedgerAt, Plain, Fits, TurnsUpto;
    UptoFits(c, n, b, j + 1);
    StopsFromIsFirst(c, n, b, 0);
    var f := StopsAt(c, n, b);
    if f <= j {
      FreezesOn(c, n, b, f + 1, j + 1);
    } else if LedgerAt(c, n, b, j + 1).err.Some? {
      FreezesOn(c, n, b, j + 1, f);
    }
  }

  /** What a block of plain transfers loses, in terms of what fits. */
  lemma PlainLoses(c: Chain, n: NodeState, b: Block, tx: Transaction)
    requires Plain(c, n) && (tx in n.confirmed || tx in Process(c, n, b).acks)
    ensures var n' := Import(c, n, b); var p, w, turns := n.settings, n.detached, TurnsOf(c, n, b);
      var fits := Fits(p.istanbul, b.gasLimit, turns);
      !Accounted(n'.confirmed, Applied(c, n, b), n'.detached, tx) <==>
        && !Retained(p, w, tx)
        && (fits ==> ValidateTx(p, w, tx, false).Some? && !PastAfter(w, turns, tx))
        && (!fits ==> !Past(w, tx) && tx !in n.confirmed[Written(c, n, b)..])
  {
    hide Fits, Process, Import, LedgerOf, TurnsOf, ValidateTx, Past, PastAfter, Written, Plain, Retained;
    PlainSucceeds(c, n, b);
    TurnsDecide(c, n, b);
    BlockLoses(c, n, b, tx);
  }
}
