/**
 Admission of transactions and acks against a state frozen at the start of a block, and the
 ledger of transactions applied within that block.
 */
module Ledger {
  import opened Types
  import opened Gas

  const TX_MAX_SIZE := 4 * 32 * 1024

  /** The pool settings that a validation depends on. */
  datatype Settings = Settings(gasPrice: nat, maxGas: nat, istanbul: bool, eip2718: bool)

  /** Settings of a pool that takes any price. */
  const LENIENT: Settings := Settings(0, 21000, true, true)

  // ---------- Validation ----------

  /** Type, size, value, gas cap, signature and price: the part that needs no state. */
  function CheckShape(p: Settings, tx: Transaction, local: bool): (err: Option<Error>)
  {
    if !p.eip2718 && tx.kind != 0 then Some(ErrTxTypeNotSupported) else
    if tx.size > TX_MAX_SIZE then Some(ErrOversizedData) else
    if tx.value < 0 then Some(ErrNegativeValue) else
    if p.maxGas < tx.gas then Some(ErrGasLimit) else
    if tx.signer.None? then Some(ErrInvalidSender) else
    if !local && tx.gasPrice < p.gasPrice then Some(ErrUnderpriced) else
    None
  }

  function CheckIntrinsic(p: Settings, tx: Transaction): (err: Option<Error>)
  {
    match IntrinsicGas(tx, true, p.istanbul)
    case Overflow => Some(ErrGasUintOverflow)
    case Charge(gas) => if tx.gas < gas then Some(ErrIntrinsicGas) else None
  }

  /** May the transaction be applied right now? */
  function ValidateTx(p: Settings, current: World, tx: Transaction, local: bool): (err: Option<Error>)
  {
    var shape := CheckShape(p, tx, local);
    if shape.Some? then shape else
    var from := External(tx.signer.value);
    if NonceOf(current, from) > tx.nonce then Some(ErrNonceTooLow) else
    if NonceOf(current, from) < tx.nonce then Some(ErrNonceTooHigh) else
    if BalanceOf(current, from) < Cost(tx) then Some(ErrInsufficientFunds) else
    CheckIntrinsic(p, tx)
  }

  function ExpectedNonce(expected: map<Address, nat>, a: Address): nat
  {
    if a in expected then expected[a] else 0
  }

  /** May the transaction be acked (locally), or may somebody else's ack for it be counted? */
  function ValidateAck(p: Settings, current: World, expected: map<Address, nat>, tx: Transaction, local: bool)
    : (err: Option<Error>)
  {
    var shape := CheckShape(p, tx, local);
    if shape.Some? then shape else
    var from := External(tx.signer.value);
    if local && ExpectedNonce(expected, from) != tx.nonce then Some(ErrUnexpectedNonce) else
    if !local && NonceOf(current, from) > tx.nonce then Some(ErrNonceTooLow) else
    if local && BalanceOf(current, from) < Cost(tx) then Some(ErrInsufficientFunds) else
    CheckIntrinsic(p, tx)
  }

  lemma AckIsSigned(p: Settings, w: World, expected: map<Address, nat>, tx: Transaction, local: bool)
    requires ValidateAck(p, w, expected, tx, local).None?
    ensures tx.signer.Some?
  {
  }

  /** A countable ack can be refused application only for its nonce or for lack of funds. */
  lemma AckedIsAlmostApplicable(
      p: Settings, current: World, expected: map<Address, nat>, tx: Transaction, local: bool, later: World)
    requires ValidateAck(p, current, expected, tx, local).None?
    requires local ==> tx.gasPrice >= p.gasPrice
    ensures ValidateTx(p, later, tx, false) in
      {None, Some(ErrNonceTooLow), Some(ErrNonceTooHigh), Some(ErrInsufficientFunds)}
  {
    hide Wrap, DataGas, Fee;
  }

  // ---------- The ledger of one block ----------

  datatype Receipt = Receipt(tx: Transaction, gasUsed: nat)

  datatype Ledger = Ledger(world: World, pool: nat, used: nat, receipts: seq<Receipt>, err: Option<Error>)

  function Opening(w: World, gasLimit: nat): Ledger { Ledger(w, gasLimit, 0, [], None) }

  function Apply(evm: Evm, rules: Rules, l: Ledger, tx: Transaction): Ledger
  {
    if l.err.Some? then l else
    match Transition(evm, rules, l.world, l.pool, tx)
    case Rejected(e) => l.(err := Some(e))
    case Executed(w, pool, used, _) =>
      Ledger(w, pool, l.used + used, l.receipts + [Receipt(tx, used)], None)
  }

  function ApplyAll(evm: Evm, rules: Rules, l: Ledger, txs: seq<Transaction>): Ledger
  {
    if txs == [] then l
    else Apply(evm, rules, ApplyAll(evm, rules, l, txs[..|txs| - 1]), txs[|txs| - 1])
  }

  lemma ApplyAllSnoc(evm: Evm, rules: Rules, l: Ledger, txs: seq<Transaction>, tx: Transaction)
    ensures ApplyAll(evm, rules, l, txs + [tx]) == Apply(evm, rules, ApplyAll(evm, rules, l, txs), tx)
  {
    assert (txs + [tx])[..|txs|] == txs;
  }

  // ---------- Gas and money ----------

  function Burned(receipts: seq<Receipt>): nat
  {
    if receipts == [] then 0 else
    var last := receipts[|receipts| - 1];
    Burned(receipts[..|receipts| - 1]) + Fee(last.gasUsed, last.tx.gasPrice)
  }

  function GasUsed(receipts: seq<Receipt>): nat
  {
    if receipts == [] then 0 else GasUsed(receipts[..|receipts| - 1]) + receipts[|receipts| - 1].gasUsed
  }

  /** The books balance: gas between pool and use, money between accounts and what was burned. */
  ghost predicate Balanced(start: World, gasLimit: nat, l: Ledger)
  {
    && l.used + l.pool == gasLimit
    && l.used == GasUsed(l.receipts)
    && Solvent(l.world)
    && TotalBalance(l.world) + Burned(l.receipts) == TotalBalance(start)
  }

  lemma ReceiptsSnoc(receipts: seq<Receipt>, r: Receipt)
    ensures GasUsed(receipts + [r]) == GasUsed(receipts) + r.gasUsed
    ensures Burned(receipts + [r]) == Burned(receipts) + Fee(r.gasUsed, r.tx.gasPrice)
  {
    assert (receipts + [r])[..|receipts|] == receipts;
  }

  lemma {:induction false} BooksBalance(evm: Evm, rules: Rules, start: World, gasLimit: nat, txs: seq<Transaction>)
    requires Solvent(start)
    ensures Balanced(start, gasLimit, ApplyAll(evm, rules, Opening(start, gasLimit), txs))
  {
    if txs != [] {
      hide Transition, TotalBalance, Solvent, GasUsed, Burned;
      var tx := txs[|txs| - 1];
      BooksBalance(evm, rules, start, gasLimit, txs[..|txs| - 1]);
      var l := ApplyAll(evm, rules, Opening(start, gasLimit), txs[..|txs| - 1]);
      if l.err.None? && Transition(evm, rules, l.world, l.pool, tx).Executed? {
        TransitionConserves(evm, rules, l.world, l.pool, tx);
        ReceiptsSnoc(l.receipts, Receipt(tx, Transition(evm, rules, l.world, l.pool, tx).used));
      }
    } else {
      assert Burned([]) == 0;
    }
  }

  // ---------- Nonces: one transaction per sender ----------

  function Senders(receipts: seq<Receipt>): set<Option<Address>>
  {
    set r | r in receipts :: Sender(r.tx)
  }

  /** Every receipt is for a different sender, at that sender's nonce in `start`. */
  ghost predicate OnePerSender(start: World, receipts: seq<Receipt>)
  {
    && (forall i :: 0 <= i < |receipts| ==>
          receipts[i].tx.signer.Some? &&
          receipts[i].tx.nonce == NonceOf(start, External(receipts[i].tx.signer.value)))
    && (forall i, j :: 0 <= i < j < |receipts| ==> receipts[i].tx.signer != receipts[j].tx.signer)
  }

  ghost predicate DifferentSenders(txs: seq<Transaction>)
  {
    forall i, j :: 0 <= i < j < |txs| ==> txs[i].signer != txs[j].signer
  }

  /** Only the senders served so far have moved, and they have moved by one. */
  ghost predicate NoncesMoved(start: World, l: Ledger)
  {
    forall a: Address :: a.External? ==>
      NonceOf(l.world, a) == NonceOf(start, a) + if Some(a) in Senders(l.receipts) then 1 else 0
  }

  /** The transaction passed the frozen nonce check, or carries no signature at all. */
  predicate AtFrozenNonce(start: World, tx: Transaction)
  {
    tx.signer.Some? ==> NonceOf(start, External(tx.signer.value)) == tx.nonce
  }

  lemma SendersSnoc(receipts: seq<Receipt>, r: Receipt)
    ensures Senders(receipts + [r]) == Senders(receipts) + {Sender(r.tx)}
  {
    forall s | s in Senders(receipts) + {Sender(r.tx)} ensures s in Senders(receipts + [r]) {
      if s in Senders(receipts) {
        var q :| q in receipts && Sender(q.tx) == s;
        assert q in receipts + [r];
      } else {
        assert r in receipts + [r];
      }
    }
  }

  lemma ServedSender(start: World, l: Ledger, a: Address)
    requires OnePerSender(start, l.receipts) && NoncesMoved(start, l)
    requires a.External? && NonceOf(l.world, a) == NonceOf(start, a)
    ensures forall r :: r in l.receipts ==> r.tx.signer != Some(a.key)
  {
    forall r | r in l.receipts ensures r.tx.signer != Some(a.key) {
      assert Sender(r.tx) in Senders(l.receipts);
    }
  }

  /**
   Every transaction admitted against the frozen nonces gets at most one turn per sender: a
   second one for the same sender finds the nonce already moved and stops the block.
   */
  lemma {:induction false} AtMostOnePerSender(evm: Evm, rules: Rules, start: World, gasLimit: nat,
                                              txs: seq<Transaction>)
    requires forall tx :: tx in txs ==> AtFrozenNonce(start, tx)
    ensures var l := ApplyAll(evm, rules, Opening(start, gasLimit), txs);
      OnePerSender(start, l.receipts) && NoncesMoved(start, l)
  {
    if txs != [] {
      var tx := txs[|txs| - 1];
      AtMostOnePerSender(evm, rules, start, gasLimit, txs[..|txs| - 1]);
      var l := ApplyAll(evm, rules, Opening(start, gasLimit), txs[..|txs| - 1]);
      if l.err.None? && Transition(evm, rules, l.world, l.pool, tx).Executed? {
        OneMore(evm, rules, start, l, tx);
      }
    }
  }

  lemma OneMore(evm: Evm, rules: Rules, start: World, l: Ledger, tx: Transaction)
    requires OnePerSender(start, l.receipts) && NoncesMoved(start, l)
    requires AtFrozenNonce(start, tx)
    requires l.err.None? && Transition(evm, rules, l.world, l.pool, tx).Executed?
    ensures var l' := Apply(evm, rules, l, tx);
      OnePerSender(start, l'.receipts) && NoncesMoved(start, l')
  {
    hide Transition;
    TransitionNonces(evm, rules, l.world, l.pool, tx);
    ServedSender(start, l, External(tx.signer.value));
    var r := Receipt(tx, Transition(evm, rules, l.world, l.pool, tx).used);
    SendersSnoc(l.receipts, r);
  }

  // ---------- Why a block can fail ----------

  /** Senders not served yet have at least the money they had when the block began. */
  ghost predicate FundsKept(start: World, l: Ledger)
  {
    forall a: Address :: a.External? && Some(a) !in Senders(l.receipts) ==> BalanceOf(l.world, a) >= BalanceOf(start, a)
  }

  lemma {:induction false} TransfersKeepFunds(evm: Evm, rules: Rules, start: World, gasLimit: nat,
                                              txs: seq<Transaction>)
    requires TransfersOnly(evm)
    ensures FundsKept(start, ApplyAll(evm, rules, Opening(start, gasLimit), txs))
  {
    if txs != [] {
      hide Transition;
      var tx := txs[|txs| - 1];
      TransfersKeepFunds(evm, rules, start, gasLimit, txs[..|txs| - 1]);
      var l := ApplyAll(evm, rules, Opening(start, gasLimit), txs[..|txs| - 1]);
      if l.err.None? && Transition(evm, rules, l.world, l.pool, tx).Executed? {
        var r := Transition(evm, rules, l.world, l.pool, tx);
        SendersSnoc(l.receipts, Receipt(tx, r.used));
        forall a: Address | a.External? && Sender(tx) != Some(a)
          ensures BalanceOf(r.world, a) >= BalanceOf(l.world, a)
        {
          TransferTakesFromSenderOnly(evm, rules, l.world, l.pool, tx, a);
        }
      }
    }
  }

  /** The transaction passed validation against the frozen state, or carries no signature at all. */
  predicate Admitted(p: Settings, start: World, tx: Transaction)
  {
    tx.signer.None? || ValidateTx(p, start, tx, false).None?
  }

  lemma AdmittedNonces(p: Settings, start: World, txs: seq<Transaction>)
    requires forall tx :: tx in txs ==> Admitted(p, start, tx)
    ensures forall tx :: tx in txs ==> AtFrozenNonce(start, tx)
  {
  }

  /**
   With transfers only and matching fork flags an admitted transaction is never refused for
   lack of funds or intrinsic gas: a full block, a repeated nonce or a bad signature remain.
   */
  lemma {:induction false} FailsOnlyOnGasOrRepeat(
      evm: Evm, rules: Rules, p: Settings, start: World, gasLimit: nat, txs: seq<Transaction>)
    requires TransfersOnly(evm)
    requires rules.homestead && rules.istanbul == p.istanbul
    requires forall tx :: tx in txs ==> Admitted(p, start, tx)
    ensures ApplyAll(evm, rules, Opening(start, gasLimit), txs).err in
      {None, Some(ErrGasLimitReached), Some(ErrNonceTooLow), Some(ErrInvalidSender)}
  {
    if txs != [] {
      var before := txs[..|txs| - 1];
      var tx := txs[|txs| - 1];
      FailsOnlyOnGasOrRepeat(evm, rules, p, start, gasLimit, before);
      AdmittedNonces(p, start, before);
      AtMostOnePerSender(evm, rules, start, gasLimit, before);
      TransfersKeepFunds(evm, rules, start, gasLimit, before);
      var l := ApplyAll(evm, rules, Opening(start, gasLimit), before);
      if l.err.None? {
        AdmittedPassesChecks(rules, p, start, l, tx);
      }
    }
  }

  /** The same for the machine that moves money between accounts and does nothing else. */
  lemma PlainFailsOnlyOnGasOrRepeat(rules: Rules, p: Settings, start: World, gasLimit: nat, txs: seq<Transaction>)
    requires rules.homestead && rules.istanbul == p.istanbul
    requires forall tx :: tx in txs ==> Admitted(p, start, tx)
    ensures ApplyAll(PlainTransfers(), rules, Opening(start, gasLimit), txs).err in
      {None, Some(ErrGasLimitReached), Some(ErrNonceTooLow), Some(ErrInvalidSender)}
  {
    hide Admitted, TransfersOnly, ApplyAll;
    PlainTransfersOnly();
    FailsOnlyOnGasOrRepeat(PlainTransfers(), rules, p, start, gasLimit, txs);
  }

  lemma AdmittedPassesChecks(rules: Rules, p: Settings, start: World, l: Ledger, tx: Transaction)
    requires rules.homestead && rules.istanbul == p.istanbul
    requires NoncesMoved(start, l) && FundsKept(start, l)
    requires Admitted(p, start, tx)
    ensures Checks(rules, l.world, l.pool, tx) in
      {None, Some(ErrGasLimitReached), Some(ErrNonceTooLow), Some(ErrInvalidSender)}
  {
    hide Wrap, DataGas, Fee, Senders;
    if tx.signer.Some? {
      var from := External(tx.signer.value);
      assert NonceOf(l.world, from) == NonceOf(start, from) + if Some(from) in Senders(l.receipts) then 1 else 0;
    }
  }
}
