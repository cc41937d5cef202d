/**
 Buying, spending and refunding gas (section 6.2 of the Ethereum Yellow Paper), with the
 fork's rule that fees are burned rather than paid to the block's author.
 */
module Gas {
  import opened Types
  import opened Sums

  const TX_GAS := 21000
  const TX_GAS_CONTRACT_CREATION := 53000
  const TX_DATA_ZERO_GAS := 4
  const TX_DATA_NON_ZERO_GAS_FRONTIER := 68
  const TX_DATA_NON_ZERO_GAS_EIP2028 := 16
  const TX_ACCESS_LIST_ADDRESS_GAS := 2400
  const TX_ACCESS_LIST_STORAGE_KEY_GAS := 1900

  // ---------- Intrinsic gas ----------

  datatype Charge = Charge(gas: nat) | Overflow

  function BaseGas(creation: bool, homestead: bool): nat
  {
    if creation && homestead then TX_GAS_CONTRACT_CREATION else TX_GAS
  }

  function NonZeroPrice(eip2028: bool): nat
  {
    if eip2028 then TX_DATA_NON_ZERO_GAS_EIP2028 else TX_DATA_NON_ZERO_GAS_FRONTIER
  }

  /** The charge for the data, byte by byte and without any bound. */
  function DataGas(data: seq<bv8>, eip2028: bool): nat
  {
    if data == [] then 0 else
      DataGas(data[..|data| - 1], eip2028)
      + if data[|data| - 1] != 0 then NonZeroPrice(eip2028) else TX_DATA_ZERO_GAS
  }

  /** The access list is charged in wrapping 64-bit arithmetic, unlike the data. */
  function AccessGas(accessList: Option<AccessList>): nat
  {
    match accessList
    case None => 0
    case Some(list) =>
      list.addresses * TX_ACCESS_LIST_ADDRESS_GAS + list.storageKeys * TX_ACCESS_LIST_STORAGE_KEY_GAS
  }

  function IntrinsicGas(tx: Transaction, homestead: bool, eip2028: bool): Charge
  {
    var cost := BaseGas(tx.to.None?, homestead) + DataGas(tx.data, eip2028);
    if cost > MAX_UINT64 then Overflow
    else Charge(Wrap(cost + AccessGas(tx.accessList)))
  }

  lemma DivisionGuard(gas: nat, price: nat, count: nat)
    requires gas <= MAX_UINT64 && price > 0
    ensures (MAX_UINT64 - gas) / price < count <==> gas + count * price > MAX_UINT64
  {
    var room := MAX_UINT64 - gas;
    var q := room / price;
    assert q * price <= room < (q + 1) * price;
    if q < count {
      assert (q + 1) * price <= count * price;
    } else {
      assert count * price <= q * price;
    }
  }

  method CountNonZero(data: seq<bv8>, eip2028: bool) returns (nz: nat)
    ensures nz <= |data|
    ensures DataGas(data, eip2028) == nz * NonZeroPrice(eip2028) + (|data| - nz) * TX_DATA_ZERO_GAS
  {
    nz := 0;
    for i := 0 to |data|
      invariant nz <= i
      invariant DataGas(data[..i], eip2028) == nz * NonZeroPrice(eip2028) + (i - nz) * TX_DATA_ZERO_GAS
    {
      assert data[..i + 1][..i] == data[..i];
      if data[i] != 0 { nz := nz + 1; }
    }
    assert data[..|data|] == data;
  }

  /** The division guards report overflow exactly when the unbounded sum leaves 64 bits. */
  method ChargeData(data: seq<bv8>, base: nat, eip2028: bool) returns (r: Charge)
    requires base <= MAX_UINT64
    ensures r == if base + DataGas(data, eip2028) > MAX_UINT64 then Overflow
                 else Charge(base + DataGas(data, eip2028))
  {
    var nz := CountNonZero(data, eip2028);
    var nonZeroGas := NonZeroPrice(eip2028);
    DivisionGuard(base, nonZeroGas, nz);
    if (MAX_UINT64 - base) / nonZeroGas < nz { return Overflow; }
    var gas := base + nz * nonZeroGas;
    var z := |data| - nz;
    DivisionGuard(gas, TX_DATA_ZERO_GAS, z);
    if (MAX_UINT64 - gas) / TX_DATA_ZERO_GAS < z { return Overflow; }
    return Charge(gas + z * TX_DATA_ZERO_GAS);
  }

  lemma WrapTwice(gas: nat, a: nat, b: nat)
    ensures Wrap(Wrap(gas + a) + b) == Wrap(gas + a + b)
    ensures gas <= MAX_UINT64 ==> Wrap(gas) == gas
  {
  }

  method ChargeAccess(gas: nat, accessList: Option<AccessList>) returns (r: nat)
    requires gas <= MAX_UINT64
    ensures r == Wrap(gas + AccessGas(accessList))
  {
    r := gas;
    WrapTwice(gas, 0, 0);
    if accessList.Some? {
      var a := accessList.value.addresses * TX_ACCESS_LIST_ADDRESS_GAS;
      var b := accessList.value.storageKeys * TX_ACCESS_LIST_STORAGE_KEY_GAS;
      WrapTwice(gas, a, b);
      r := Wrap(Wrap(r + a) + b);
    }
  }

  method ComputeIntrinsicGas(tx: Transaction, homestead: bool, eip2028: bool) returns (r: Charge)
    ensures r == IntrinsicGas(tx, homestead, eip2028)
  {
    var base := BaseGas(tx.to.None?, homestead);
    r := Charge(base);
    if |tx.data| > 0 {
      r := ChargeData(tx.data, base, eip2028);
      if r.Overflow? { return; }
    }
    assert r == Charge(base + DataGas(tx.data, eip2028));
    var gas := ChargeAccess(r.gas, tx.accessList);
    r := Charge(gas);
  }

  // ---------- Balances ----------

  ghost function Balances(w: World): Address -> int { a => BalanceOf(w, a) }

  ghost function TotalBalance(w: World): int { Sum(w.Keys, Balances(w)) }

  ghost predicate Solvent(w: World) { forall a :: BalanceOf(w, a) >= 0 }

  /** Crediting (or debiting) one account moves the total by exactly that amount. */
  lemma TotalAfterAdd(w: World, a: Address, amount: int)
    ensures TotalBalance(AddBalance(w, a, amount)) == TotalBalance(w) + amount
  {
    var w' := AddBalance(w, a, amount);
    if a in w {
      assert w'.Keys == w.Keys;
      SumUpdate(w.Keys, Balances(w), Balances(w'), a);
    } else {
      assert w'.Keys == w.Keys + {a};
      SumAdd(w.Keys, Balances(w'), a);
      SumCongruent(w.Keys, Balances(w), Balances(w'));
    }
  }

  lemma TotalAfterNonce(w: World, a: Address, nonce: nat)
    requires a in w
    ensures TotalBalance(SetNonce(w, a, nonce)) == TotalBalance(w)
  {
    var w' := SetNonce(w, a, nonce);
    assert w'.Keys == w.Keys;
    SumCongruent(w.Keys, Balances(w), Balances(w'));
  }

  // ---------- The message call ----------

  /** What running a message in the virtual machine leaves behind. */
  datatype CallResult = CallResult(world: World, gasLeft: nat, refund: nat, failed: bool)

  /** The one thing assumed of the virtual machine: it moves money and never makes or burns it. */
  ghost predicate Conserving(run: (World, Transaction, nat) -> CallResult)
  {
    forall w, tx, gas ::
      var r := run(w, tx, gas);
      && r.gasLeft <= gas
      && TotalBalance(r.world) == TotalBalance(w)
      && (Solvent(w) ==> Solvent(r.world))
      && (forall a: Address :: a.External? ==> NonceOf(r.world, a) == NonceOf(w, a))
  }

  type Evm = run: (World, Transaction, nat) -> CallResult | Conserving(run)
    witness (w: World, tx: Transaction, gas: nat) => CallResult(w, gas, 0, false)

  /** A call that runs no code takes from nobody but its sender. */
  ghost predicate TransfersOnly(evm: Evm)
  {
    forall w, tx, gas, a :: Sender(tx) != Some(a) ==>
      BalanceOf(evm(w, tx, gas).world, a) >= BalanceOf(w, a)
  }

  // ---------- A machine that only transfers ----------

  predicate CanTransfer(w: World, a: Address, amount: int) { BalanceOf(w, a) >= amount }

  function Transfer(w: World, sender: Address, recipient: Address, amount: int): World
  {
    AddBalance(SubBalance(w, sender, amount), recipient, amount)
  }

  /** A transfer moves the amount from one account to the other, be they the same, and nothing else. */
  lemma TransferMoves(w: World, sender: Address, recipient: Address, amount: int)
    ensures var w' := Transfer(w, sender, recipient, amount);
      && TotalBalance(w') == TotalBalance(w)
      && (forall a :: BalanceOf(w', a) ==
            BalanceOf(w, a) - (if a == sender then amount else 0) + (if a == recipient then amount else 0))
      && (forall a :: NonceOf(w', a) == NonceOf(w, a))
  {
    hide TotalBalance;
    assert SubBalance(w, sender, amount) == AddBalance(w, sender, 0 - amount);
    TotalAfterAdd(w, sender, 0 - amount);
    TotalAfterAdd(SubBalance(w, sender, amount), recipient, amount);
  }

  /**
   A message call between accounts without code. An account that does not exist is not touched by
   a transfer of nothing. Creating a contract runs code, which this machine does not have; amounts
   below zero have no encoding.
   */
  function TransferCall(w: World, tx: Transaction, gas: nat): CallResult
  {
    if tx.signer.None? || tx.to.None? || tx.value < 0 then CallResult(w, gas, 0, true) else
    var from, to := External(tx.signer.value), tx.to.value;
    if tx.value != 0 && !CanTransfer(w, from, tx.value) then CallResult(w, gas, 0, true) else
    if tx.value == 0 && to !in w then CallResult(w, gas, 0, false) else
    CallResult(Transfer(w, from, to, tx.value), gas, 0, false)
  }

  lemma TransferCallMoves(w: World, tx: Transaction, gas: nat)
    ensures var r := TransferCall(w, tx, gas);
      && r.gasLeft == gas && r.refund == 0
      && TotalBalance(r.world) == TotalBalance(w)
      && (Solvent(w) ==> Solvent(r.world))
      && (forall a :: NonceOf(r.world, a) == NonceOf(w, a))
      && (forall a :: Sender(tx) != Some(a) ==> BalanceOf(r.world, a) >= BalanceOf(w, a))
  {
    hide TotalBalance, Transfer;
    if tx.signer.Some? && tx.to.Some? && tx.value >= 0 {
      TransferMoves(w, External(tx.signer.value), tx.to.value, tx.value);
    }
  }

  lemma TransferCallConserves()
    ensures Conserving(TransferCall)
  {
    hide TotalBalance, Solvent, TransferCall, NonceOf;
    forall w, tx, gas
      ensures var r := TransferCall(w, tx, gas);
        && r.gasLeft <= gas
        && TotalBalance(r.world) == TotalBalance(w)
        && (Solvent(w) ==> Solvent(r.world))
        && (forall a: Address :: a.External? ==> NonceOf(r.world, a) == NonceOf(w, a))
    {
      TransferCallMoves(w, tx, gas);
    }
  }

  function PlainTransfers(): Evm
  {
    TransferCallConserves();
    TransferCall
  }

  lemma PlainTransfersCall(w: World, tx: Transaction, gas: nat)
    ensures PlainTransfers()(w, tx, gas) == TransferCall(w, tx, gas)
  {
  }

  lemma PlainTransfersOnly()
    ensures TransfersOnly(PlainTransfers())
  {
    hide TransferCall, BalanceOf;
    forall w, tx, gas, a | Sender(tx) != Some(a)
      ensures BalanceOf(PlainTransfers()(w, tx, gas).world, a) >= BalanceOf(w, a)
    {
      TransferCallMoves(w, tx, gas);
    }
  }

  datatype Rules = Rules(homestead: bool, istanbul: bool)

  datatype Outcome =
    | Rejected(err: Error)
    | Executed(world: World, pool: nat, used: nat, failed: bool)

  /** Gas in hand after the call, once the refund capped to half of what was used is added. */
  function GasAfterRefund(initial: nat, left: nat, refund: nat): nat
    requires left <= initial
  {
    left + Min(refund, (initial - left) / 2)
  }

  /** The consensus checks made before a message may run. */
  function Checks(rules: Rules, w: World, pool: nat, tx: Transaction): (err: Option<Error>)
  {
    if tx.signer.None? then Some(ErrInvalidSender) else
    var from := External(tx.signer.value);
    if NonceOf(w, from) < tx.nonce then Some(ErrNonceTooHigh) else
    if NonceOf(w, from) > tx.nonce then Some(ErrNonceTooLow) else
    if BalanceOf(w, from) < Fee(tx.gas, tx.gasPrice) then Some(ErrInsufficientFunds) else
    if pool < tx.gas then Some(ErrGasLimitReached) else
    match IntrinsicGas(tx, rules.homestead, rules.istanbul)
    case Overflow => Some(ErrGasUintOverflow)
    case Charge(intrinsic) =>
      if tx.gas < intrinsic then Some(ErrIntrinsicGas) else
      if tx.value > 0 && BalanceOf(w, from) - Fee(tx.gas, tx.gasPrice) < tx.value
        then Some(ErrInsufficientFundsForTransfer)
      else None
  }

  /** Gas is bought before the last checks, and a transaction refused by those does not give it back. */
  function PoolOnRefusal(w: World, pool: nat, tx: Transaction): nat
    requires tx.signer.Some?
  {
    var from := External(tx.signer.value);
    if NonceOf(w, from) == tx.nonce && BalanceOf(w, from) >= Fee(tx.gas, tx.gasPrice) && pool >= tx.gas
      then pool - tx.gas else pool
  }

  function BumpNonce(w: World, a: Address): World { SetNonce(w, a, NonceOf(w, a) + 1) }

  /** The state handed to the virtual machine: all gas paid for, nonce moved on. */
  function Started(w: World, tx: Transaction, from: Address): World
  {
    BumpNonce(SubBalance(w, from, Fee(tx.gas, tx.gasPrice)), from)
  }

  function Settled(call: CallResult, pool: nat, tx: Transaction, from: Address): Outcome
    requires call.gasLeft <= tx.gas <= pool
  {
    var left := GasAfterRefund(tx.gas, call.gasLeft, call.refund);
    Executed(AddBalance(call.world, from, Fee(left, tx.gasPrice)), pool - tx.gas + left, tx.gas - left, call.failed)
  }

  /** The effect of one transaction on the state and on the block's gas pool. */
  function Transition(evm: Evm, rules: Rules, w: World, pool: nat, tx: Transaction): Outcome
  {
    var err := Checks(rules, w, pool, tx);
    if err.Some? then Rejected(err.value) else
    var from := External(tx.signer.value);
    var intrinsic := IntrinsicGas(tx, rules.homestead, rules.istanbul).gas;
    Settled(evm(Started(w, tx, from), tx, tx.gas - intrinsic), pool, tx, from)
  }

  // ---------- What a transaction does to gas and money ----------

  lemma StartedFacts(w: World, tx: Transaction, from: Address)
    requires Solvent(w) && BalanceOf(w, from) >= Fee(tx.gas, tx.gasPrice)
    ensures var s := Started(w, tx, from);
      Solvent(s) && TotalBalance(s) == TotalBalance(w) - Fee(tx.gas, tx.gasPrice)
  {
    hide Fee, TotalBalance;
    var fee: int := Fee(tx.gas, tx.gasPrice);
    var paid := SubBalance(w, from, fee);
    assert paid == AddBalance(w, from, 0 - fee);
    TotalAfterAdd(w, from, 0 - fee);
    TotalAfterNonce(paid, from, NonceOf(w, from) + 1);
    var s := Started(w, tx, from);
    forall a ensures BalanceOf(s, a) >= 0 {
      assert BalanceOf(w, a) >= 0;
    }
  }

  lemma SettledFacts(call: CallResult, pool: nat, tx: Transaction, from: Address)
    requires call.gasLeft <= tx.gas <= pool
    requires Solvent(call.world)
    ensures var r := Settled(call, pool, tx, from);
      && r.used <= tx.gas
      && r.pool + r.used == pool
      && Solvent(r.world)
      && TotalBalance(r.world) == TotalBalance(call.world) + Fee(tx.gas, tx.gasPrice) - Fee(r.used, tx.gasPrice)
  {
    var left := GasAfterRefund(tx.gas, call.gasLeft, call.refund);
    TotalAfterAdd(call.world, from, Fee(left, tx.gasPrice));
    FeeSplits(tx.gas - left, left, tx.gasPrice);
    forall a ensures BalanceOf(Settled(call, pool, tx, from).world, a) >= 0 {
      assert BalanceOf(call.world, a) >= 0;
    }
  }

  /**
   An executed transaction takes its used gas from the pool, burns exactly the fee for it
   and leaves no balance negative.
   */
  lemma TransitionConserves(evm: Evm, rules: Rules, w: World, pool: nat, tx: Transaction)
    requires Solvent(w)
    requires Transition(evm, rules, w, pool, tx).Executed?
    ensures var r := Transition(evm, rules, w, pool, tx);
      && r.used <= tx.gas <= pool
      && r.pool + r.used == pool
      && TotalBalance(r.world) == TotalBalance(w) - Fee(r.used, tx.gasPrice)
      && Solvent(r.world)
  {
    hide TotalBalance, Solvent, Started, Wrap, DataGas;
    var from := External(tx.signer.value);
    StartedFacts(w, tx, from);
    var intrinsic := IntrinsicGas(tx, rules.homestead, rules.istanbul).gas;
    var call := evm(Started(w, tx, from), tx, tx.gas - intrinsic);
    assert Solvent(call.world);
    SettledFacts(call, pool, tx, from);
  }

  /** It runs at exactly the sender's nonce and moves no key holder's nonce but the sender's. */
  lemma TransitionNonces(evm: Evm, rules: Rules, w: World, pool: nat, tx: Transaction)
    requires Transition(evm, rules, w, pool, tx).Executed?
    ensures tx.signer.Some?
    ensures var w' := Transition(evm, rules, w, pool, tx).world;
      var from := External(tx.signer.value);
      && NonceOf(w, from) == tx.nonce
      && NonceOf(w', from) == tx.nonce + 1
      && forall a: Address :: a.External? && a != from ==> NonceOf(w', a) == NonceOf(w, a)
  {
    var from := External(tx.signer.value);
    hide Wrap, DataGas, Fee, TotalBalance, Solvent;
    var s := Started(w, tx, from);
    assert forall a: Address :: a != from ==> NonceOf(s, a) == NonceOf(w, a);
    var intrinsic := IntrinsicGas(tx, rules.homestead, rules.istanbul).gas;
    var call := evm(s, tx, tx.gas - intrinsic);
    assert forall a: Address :: a.External? ==> NonceOf(call.world, a) == NonceOf(s, a);
    assert forall a: Address :: NonceOf(Settled(call, pool, tx, from).world, a) == NonceOf(call.world, a);
  }

  /** A transfer lowers no balance but its sender's. */
  lemma TransferTakesFromSenderOnly(evm: Evm, rules: Rules, w: World, pool: nat, tx: Transaction, a: Address)
    requires TransfersOnly(evm)
    requires Transition(evm, rules, w, pool, tx).Executed?
    requires Sender(tx) != Some(a)
    ensures BalanceOf(Transition(evm, rules, w, pool, tx).world, a) >= BalanceOf(w, a)
  {
    var from := External(tx.signer.value);
    var started := Started(w, tx, from);
    var intrinsic := IntrinsicGas(tx, rules.homestead, rules.istanbul).gas;
    assert BalanceOf(evm(started, tx, tx.gas - intrinsic).world, a) >= BalanceOf(started, a);
  }

  // ---------- The same in place ----------

  class GasPool {
    var gas: nat

    constructor (limit: nat)
      ensures gas == limit
    {
      gas := limit;
    }

    /** Going above the 64-bit range panics, so callers must show that it cannot happen. */
    method AddGas(amount: nat)
      requires gas + amount <= MAX_UINT64
      modifies this
      ensures gas == old(gas) + amount
    {
      gas := gas + amount;
    }

    method SubGas(amount: nat) returns (ok: bool)
      modifies this
      ensures ok <==> amount <= old(gas)
      ensures gas == if ok then old(gas) - amount else old(gas)
    {
      if gas < amount { return false; }
      gas := gas - amount;
      return true;
    }
  }

  class StateDB {
    var world: World

    constructor (w: World)
      ensures world == w
    {
      world := w;
    }
  }

  class StateTransition {
    const gp: GasPool
    const state: StateDB
    const tx: Transaction
    const from: Address
    var gas: nat
    var initialGas: nat

    constructor (gp: GasPool, state: StateDB, tx: Transaction, from: Address)
      ensures this.gp == gp && this.state == state && this.tx == tx && this.from == from && gas == 0
    {
      this.gp, this.state, this.tx, this.from := gp, state, tx, from;
      gas, initialGas := 0, 0;
    }

    method BuyGas() returns (err: Option<Error>)
      requires gas == 0
      modifies this, gp, state
      ensures err == (
        if old(BalanceOf(state.world, from)) < Fee(tx.gas, tx.gasPrice) then Some(ErrInsufficientFunds)
        else if old(gp.gas) < tx.gas then Some(ErrGasLimitReached)
        else None)
      ensures err.Some? ==> gp.gas == old(gp.gas) && state.world == old(state.world)
      ensures err.None? ==>
        && gas == initialGas == tx.gas
        && gp.gas == old(gp.gas) - tx.gas
        && state.world == SubBalance(old(state.world), from, Fee(tx.gas, tx.gasPrice))
    {
      var mgval := Fee(tx.gas, tx.gasPrice);
      if BalanceOf(state.world, from) < mgval { return Some(ErrInsufficientFunds); }
      var ok := gp.SubGas(tx.gas);
      if !ok { return Some(ErrGasLimitReached); }
      gas := gas + tx.gas;
      initialGas := tx.gas;
      state.world := SubBalance(state.world, from, mgval);
      return None;
    }

    method PreCheck() returns (err: Option<Error>)
      requires gas == 0
      modifies this, gp, state
      ensures err == (
        if old(NonceOf(state.world, from)) < tx.nonce then Some(ErrNonceTooHigh)
        else if old(NonceOf(state.world, from)) > tx.nonce then Some(ErrNonceTooLow)
        else if old(BalanceOf(state.world, from)) < Fee(tx.gas, tx.gasPrice) then Some(ErrInsufficientFunds)
        else if old(gp.gas) < tx.gas then Some(ErrGasLimitReached)
        else None)
      ensures err.Some? ==> gp.gas == old(gp.gas) && state.world == old(state.world)
      ensures err.None? ==>
        && gas == initialGas == tx.gas
        && gp.gas == old(gp.gas) - tx.gas
        && state.world == SubBalance(old(state.world), from, Fee(tx.gas, tx.gasPrice))
    {
      var stNonce := NonceOf(state.world, from);
      if stNonce < tx.nonce { return Some(ErrNonceTooHigh); }
      if stNonce > tx.nonce { return Some(ErrNonceTooLow); }
      err := BuyGas();
    }

    /** Returns the unused gas; `refund` never exceeds half of the gas used by the call. */
    method RefundGas(counter: nat) returns (refund: nat)
      requires gas <= initialGas
      requires gp.gas + initialGas <= MAX_UINT64
      modifies this, gp, state
      ensures initialGas == old(initialGas)
      ensures 2 * refund <= initialGas - old(gas) && refund <= counter
      ensures gas == old(gas) + refund == GasAfterRefund(initialGas, old(gas), counter)
      ensures gp.gas == old(gp.gas) + gas
      ensures state.world == AddBalance(old(state.world), from, Fee(gas, tx.gasPrice))
    {
      refund := (initialGas - gas) / 2;
      if refund > counter { refund := counter; }
      gas := gas + refund;
      state.world := AddBalance(state.world, from, Fee(gas, tx.gasPrice));
      gp.AddGas(gas);
    }

    /** Runs the message and settles the gas; adding back never leaves the 64-bit range. */
    method Run(evm: Evm, intrinsic: nat, ghost pool: nat) returns (used: nat, failed: bool)
      requires initialGas == tx.gas && gas == tx.gas - intrinsic && intrinsic <= tx.gas
      requires gp.gas == pool - tx.gas && pool <= MAX_UINT64
      modifies this, gp, state
      ensures gp.gas <= pool
      ensures Executed(state.world, gp.gas, used, failed) ==
        Settled(evm(BumpNonce(old(state.world), from), tx, tx.gas - intrinsic),
                pool, tx, from)
    {
      hide TotalBalance, Solvent, BumpNonce, NonceOf, BalanceOf, Fee;
      var call := evm(BumpNonce(state.world, from), tx, gas);
      state.world, gas, failed := call.world, call.gasLeft, call.failed;
      var _ := RefundGas(call.refund);
      used := initialGas - gas;
    }

    /** Everything that can still reject the message, with all its gas already bought. */
    method Admit(rules: Rules) returns (err: Option<Error>, intrinsic: nat)
      requires Sender(tx) == Some(from) && gas == 0
      modifies this, gp, state
      ensures err == Checks(rules, old(state.world), old(gp.gas), tx)
      ensures gp.gas == PoolOnRefusal(old(state.world), old(gp.gas), tx)
      ensures err.None? ==>
        && IntrinsicGas(tx, rules.homestead, rules.istanbul) == Charge(intrinsic)
        && intrinsic <= tx.gas <= old(gp.gas)
        && initialGas == tx.gas && gas == tx.gas - intrinsic
        && gp.gas == old(gp.gas) - tx.gas
        && state.world == SubBalance(old(state.world), from, Fee(tx.gas, tx.gasPrice))
    {
      hide Wrap, DataGas, Fee;
      intrinsic := 0;
      err := PreCheck();
      if err.Some? { return; }
      var charge := ComputeIntrinsicGas(tx, rules.homestead, rules.istanbul);
      if charge.Overflow? { err := Some(ErrGasUintOverflow); return; }
      intrinsic := charge.gas;
      if gas < intrinsic { err := Some(ErrIntrinsicGas); return; }
      gas := gas - intrinsic;
      if tx.value > 0 && BalanceOf(state.world, from) < tx.value {
        err := Some(ErrInsufficientFundsForTransfer);
      }
    }

    /** In place this is `Transition`. */
    method TransitionDb(evm: Evm, rules: Rules) returns (err: Option<Error>, used: nat, failed: bool)
      requires Sender(tx) == Some(from) && gas == 0
      requires gp.gas <= MAX_UINT64
      modifies this, gp, state
      ensures Transition(evm, rules, old(state.world), old(gp.gas), tx) ==
        if err.Some? then Rejected(err.value) else Executed(state.world, gp.gas, used, failed)
      ensures gp.gas <= old(gp.gas)
      ensures err.Some? ==> gp.gas == PoolOnRefusal(old(state.world), old(gp.gas), tx)
    {
      hide TotalBalance, Solvent, BumpNonce, Settled, Wrap, Fee;
      used, failed := 0, false;
      ghost var pool := gp.gas;
      var intrinsic;
      err, intrinsic := Admit(rules);
      if err.Some? { return; }
      used, failed := Run(evm, intrinsic, pool);
    }
  }
}
