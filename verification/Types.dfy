/** Entities shared by the transaction pool, the block processor and the network. */
module Types {

  datatype Option<+T> = None | Some(value: T)

  /** An address belongs either to a key holder or to a contract. */
  datatype Address = External(key: nat) | Contract(id: nat)

  const TWO_TO_THE_64: nat := 0x1_0000_0000_0000_0000
  const MAX_UINT64: nat := TWO_TO_THE_64 - 1

  function Min(x: int, y: int): int { if x < y then x else y }

  function Max(x: int, y: int): int { if x > y then x else y }

  /** What unsigned 64-bit arithmetic leaves of a result. */
  function Wrap(x: int): nat { x % TWO_TO_THE_64 }

  datatype Error =
    | ErrTxTypeNotSupported
    | ErrOversizedData
    | ErrNegativeValue
    | ErrGasLimit
    | ErrInvalidSender
    | ErrUnderpriced
    | ErrUnexpectedNonce
    | ErrNonceTooLow
    | ErrNonceTooHigh
    | ErrInsufficientFunds
    | ErrInsufficientFundsForTransfer
    | ErrGasUintOverflow
    | ErrIntrinsicGas
    | ErrGasLimitReached
    | ErrInsufficientAcks
    | ErrAlreadyKnown
    | ErrReplaceUnderpriced
    | ErrTxPoolOverflow

  datatype AccessList = AccessList(addresses: nat, storageKeys: nat)

  type pos = x: int | x > 0 witness 1

  /** `signer` is the key recovered from the signature, if it is a valid one. */
  datatype Transaction = Transaction(
    kind: nat,
    size: pos,
    signer: Option<nat>,
    nonce: nat,
    gasPrice: nat,
    gas: nat,
    to: Option<Address>,
    value: int,
    data: seq<bv8>,
    accessList: Option<AccessList>)

  /** Collision freedom: a hash carries the transaction it was taken from. */
  datatype Hash = TxHash(tx: Transaction)

  function HashOf(tx: Transaction): Hash { TxHash(tx) }

  function Sender(tx: Transaction): Option<Address>
  {
    if tx.signer.Some? then Some(External(tx.signer.value)) else None
  }

  /** The price of an amount of gas, one unit at a time. */
  function Fee(gas: nat, price: nat): nat
  {
    if gas == 0 then 0 else Fee(gas - 1, price) + price
  }

  lemma {:induction false} FeeIsProduct(gas: nat, price: nat)
    ensures Fee(gas, price) == gas * price
  {
    if gas > 0 {
      FeeIsProduct(gas - 1, price);
      assert gas * price == (gas - 1) * price + price;
    }
  }

  lemma {:induction false} FeeSplits(used: nat, left: nat, price: nat)
    ensures Fee(used + left, price) == Fee(used, price) + Fee(left, price)
  {
    if used > 0 {
      FeeSplits(used - 1, left, price);
    }
  }

  function Cost(tx: Transaction): int { tx.value + Fee(tx.gas, tx.gasPrice) }

  /** The one place in a sender's history that competing transactions fight for. */
  datatype Slot = Slot(sender: Address, nonce: nat)

  function SlotOf(tx: Transaction): Slot
    requires tx.signer.Some?
  {
    Slot(External(tx.signer.value), tx.nonce)
  }

  datatype Account = Account(nonce: nat, balance: int)

  /** Absent accounts read as empty ones. */
  type World = map<Address, Account>

  function AccountOf(w: World, a: Address): Account
  {
    if a in w then w[a] else Account(0, 0)
  }

  function NonceOf(w: World, a: Address): nat { AccountOf(w, a).nonce }

  function BalanceOf(w: World, a: Address): int { AccountOf(w, a).balance }

  function AddBalance(w: World, a: Address, amount: int): World
  {
    w[a := AccountOf(w, a).(balance := BalanceOf(w, a) + amount)]
  }

  function SubBalance(w: World, a: Address, amount: int): World
  {
    w[a := AccountOf(w, a).(balance := BalanceOf(w, a) - amount)]
  }

  function SetNonce(w: World, a: Address, nonce: nat): World
  {
    w[a := AccountOf(w, a).(nonce := nonce)]
  }
}
