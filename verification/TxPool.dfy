/**
 The transaction pool's indices: pending and queued lists, the hash lookup and the price heap,
 changed together by every operation.
 */
module TxPool {
  import opened Types
  import opened Sums
  import opened Ledger
  import opened NonceMap
  import opened PoolIndex
  import opened Lookup
  import opened PricedList
  import opened Fairness
  import TxList
  import ListOps

  /** Limits and prices; `accountSlots` is at least one after sanitizing. */
  datatype Config = Config(
    priceBump: nat, accountSlots: pos, globalSlots: nat, accountQueue: nat, globalQueue: nat)

  /** What the pool learns from a new head of the chain. */
  datatype Head = Head(state: World, maxGas: nat, istanbul: bool, eip2718: bool, reinject: seq<Transaction>)

  /** What the rest of the program asks of the pool. */
  datatype Operation =
    | AddTx(tx: Transaction, local: bool)
    | DropTx(hash: Hash)
    | Acked(account: Address, nonce: nat)
    | Processing(state: World)
    | Reprice(price: nat)
    | Reorganise(reset: Option<Head>, dirty: seq<Address>, beats: map<Address, nat>)

  lemma KeptKeyed(ls: Accounts, a: Address)
    requires WellKept(ls)
    ensures Keyed(ListOf(ls, a))
    ensures forall n :: n in ListOf(ls, a) ==> Filed(ListOf(ls, a)[n], Slot(a, n))
  {
    forall n | n in ListOf(ls, a) ensures Filed(ListOf(ls, a)[n], Slot(a, n)) {
      assert Occupied(ls, Slot(a, n));
    }
  }

  /**
   What becomes of a new transaction: for a pending nonce it has to outbid what is there, else it
   goes to the queue, where again it has to outbid what it would replace.
   */
  ghost predicate Placed(p: Accounts, q: Accounts, p': Accounts, q': Accounts, bump: nat, tx: Transaction,
                         replaced: bool, err: Option<Error>)
    requires tx.signer.Some?
  {
    var a := SlotOf(tx).sender;
    var items := ListOf(if Occupied(p, SlotOf(tx)) then p else q, a);
    && (err.None? <==> TxList.Admits(items, tx, bump))
    && (replaced <==> err.None? && tx.nonce in items)
    && p' == (if err.None? && Occupied(p, SlotOf(tx)) then SetList(p, a, items[tx.nonce := tx]) else p)
    && q' == (if err.None? && !Occupied(p, SlotOf(tx)) then SetList(q, a, items[tx.nonce := tx]) else q)
  }

  /** The nonce tracked for an account, or else the state's. */
  function NonceIn(nonces: map<Address, nat>, w: World, a: Address): nat
  {
    if a in nonces then nonces[a] else NonceOf(w, a)
  }

  /** No tracked nonce is beyond one that was cut. */
  ghost predicate Below(start: Accounts, ls: Accounts, nonces: map<Address, nat>, w: World)
  {
    forall a, n :: n in ListOf(start, a) && n !in ListOf(ls, a) ==> NonceIn(nonces, w, a) <= n
  }

  lemma BelowStep(start: Accounts, ls: Accounts, a: Address, caps: seq<Transaction>, out: Items, rest: Items,
                  nonces: map<Address, nat>, nonces': map<Address, nat>, w: World)
    requires Below(start, ls, nonces, w) && Splits(ListOf(ls, a), out, rest) && Enumerates(caps, out)
    requires forall b :: b != a ==> NonceIn(nonces', w, b) == NonceIn(nonces, w, b)
    requires NonceIn(nonces', w, a) <= NonceIn(nonces, w, a)
    requires forall t :: t in caps ==> NonceIn(nonces', w, a) <= t.nonce
    ensures Below(start, SetList(ls, a, rest), nonces', w)
  {
    var ls' := SetList(ls, a, rest);
    SetTwice(ls, a, rest, rest);
    hide SetList, ListOf, NonceIn;
    forall b, n | n in ListOf(start, b) && n !in ListOf(ls', b) ensures NonceIn(nonces', w, b) <= n {
      if b == a && n in ListOf(ls, a) {
        assert out[n] in caps && out[n].nonce == n;
      } else {
        assert n !in ListOf(ls, b);
      }
    }
  }

  /** What is looked up is in the list that occupies its slot. */
  lemma FoundWhere(p: Accounts, q: Accounts, hs: set<Hash>, tx: Transaction)
    requires Consistent(p, q, hs, {}) && HashOf(tx) in hs
    ensures tx.signer.Some?
    ensures Occupied(p, SlotOf(tx)) <==> Holds(p, tx)
    ensures Occupied(q, SlotOf(tx)) <==> Holds(q, tx)
    ensures Holds(p, tx) <==> !Holds(q, tx)
  {
    assert HashOf(tx).tx == tx;
  }

  lemma RoomGained(hs: set<Hash>, hs': set<Hash>, drop: seq<Transaction>)
    requires forall t :: t in drop ==> HashOf(t) in hs
    requires forall h :: h in hs' <==> h in hs && h.tx !in drop
    ensures Sum(hs, SlotsOf()) == Sum(hs', SlotsOf()) + Sum(HashesOf(drop), SlotsOf()) && hs' == hs - HashesOf(drop)
  {
    assert forall h: Hash :: h == HashOf(h.tx);
    assert hs == hs' + HashesOf(drop);
    SumDisjoint(hs', HashesOf(drop), SlotsOf());
  }

  lemma SlotsGrow(hs: set<Hash>, hs': set<Hash>, tx: Transaction)
    requires hs' <= hs + {HashOf(tx)}
    ensures Sum(hs', SlotsOf()) <= Sum(hs, SlotsOf()) + NumSlots(tx)
  {
    SumSubset(hs', hs + {HashOf(tx)}, SlotsOf());
    if HashOf(tx) in hs {
      assert hs + {HashOf(tx)} == hs;
    } else {
      SumAdd(hs, SlotsOf(), HashOf(tx));
    }
  }

  ghost predicate Different(accounts: seq<Address>)
  {
    forall i, j :: 0 <= i < j < |accounts| ==> accounts[i] != accounts[j]
  }

  lemma NextDiffers(accounts: seq<Address>, i: nat)
    requires i < |accounts|
    ensures Different(accounts) ==> accounts[i] !in accounts[..i]
    ensures forall a :: a in accounts[..i + 1] <==> a in accounts[..i] || a == accounts[i]
    ensures forall k :: 0 <= k < i ==> accounts[k] in accounts[..i]
  {
    assert accounts[..i + 1] == accounts[..i] + [accounts[i]];
  }

  predicate SameSlot(t: Transaction, u: Transaction)
  {
    t.signer.Some? && u.signer.Some? && SlotOf(t) == SlotOf(u)
  }

  /** Why a full pool refuses a valid transaction. */
  ghost predicate RefusedFull(e: Error, remotes: map<Hash, Transaction>, need: int, hs: set<Hash>, tx: Transaction)
  {
    match e
    case ErrUnderpriced => remotes != map[] && forall h :: h in remotes ==> h.tx.gasPrice >= tx.gasPrice
    case ErrTxPoolOverflow => Sum(remotes.Keys, SlotsOf()) < need
    case _ => e == ErrReplaceUnderpriced && exists h :: h in hs && SameSlot(h.tx, tx)
  }

  lemma ReplaceRefused(remotes: map<Hash, Transaction>, need: int, hs: set<Hash>, hs': set<Hash>, tx: Transaction)
    requires hs' <= hs && exists h :: h in hs' && SameSlot(h.tx, tx)
    ensures RefusedFull(ErrReplaceUnderpriced, remotes, need, hs, tx)
  {
  }

  lemma NothingDropped()
    ensures HashesOf([]) == {}
  {
  }

  lemma FreeAdmits(items: Items, tx: Transaction, bump: nat)
    ensures tx.nonce !in items ==> TxList.Admits(items, tx, bump)
  {
  }

  /** A transaction has entered the lookup and, if remote, the price heap with one entry. */
  ghost predicate Entered(heap: seq<Transaction>, heap': seq<Transaction>, remotes: map<Hash, Transaction>,
                          remotes': map<Hash, Transaction>, tx: Transaction, local: bool)
  {
    && multiset(heap') == multiset(heap) + (if local then multiset{} else multiset{tx})
    && remotes' == if local then remotes else remotes[HashOf(tx) := tx]
  }

  /** Stale entries that were dropped before do not matter to a discard. */
  lemma DiscardedFrom(entries: seq<Transaction>, fewer: seq<Transaction>, there: set<Hash>, slots: int,
                      drop: seq<Transaction>, left: seq<Transaction>)
    requires Shared(entries, there, [], fewer) && Discarded(fewer, there, slots, drop, left)
    ensures Discarded(entries, there, slots, drop, left)
  {
    hide SlotSum;
  }

  class TxPool {
    const config: Config
    const all: TxLookup
    const priced: TxPricedList
    var settings: Settings
    var currentState: World
    var expectedAckNonce: map<Address, nat>
    var pendingNonces: map<Address, nat>
    var locals: set<Address>
    var pending: Accounts
    var queue: Accounts

    /**
     All indices agree. While an operation is under way, the transactions in `limbo` are in the
     lookup but in no list, and those in `uncovered` have lost their entry in the price heap.
     */
    ghost predicate Inv(limbo: set<Transaction>, uncovered: set<Transaction>)
      reads this, all, priced
    {
      && priced.all == all
      && all.Valid()
      && priced.Ordered() && priced.Covers(uncovered)
      && Consistent(pending, queue, all.Hashes(), limbo)
    }

    ghost predicate Valid()
      reads this, all, priced
    {
      Inv({}, {})
    }

    constructor (config: Config, settings: Settings, state: World, locals: set<Address>)
      ensures Valid() && fresh(all) && fresh(priced) && pending == queue == map[]
      ensures this.config == config && this.settings == settings && currentState == state && this.locals == locals
      ensures expectedAckNonce == pendingNonces == map[] && all.locals == all.remotes == map[]
      ensures priced.remotes == [] && priced.stales == 0
    {
      this.config, this.settings, currentState, this.locals := config, settings, state, locals;
      expectedAckNonce, pendingNonces, pending, queue := map[], map[], map[], map[];
      var lookup := new TxLookup();
      all := lookup;
      priced := new TxPricedList(lookup);
    }

    /** The next nonce the pool expects of an account, falling back to the state's. */
    function PendingNonce(a: Address): nat
      reads this`pendingNonces, this`currentState
    {
      NonceIn(pendingNonces, currentState, a)
    }

    method LowerPendingNonce(a: Address, nonce: nat)
      modifies this`pendingNonces
      ensures pendingNonces ==
        old(pendingNonces)[a := if old(PendingNonce(a)) <= nonce then old(PendingNonce(a)) else nonce]
    {
      var known := PendingNonce(a);
      pendingNonces := pendingNonces[a := known];
      if known <= nonce { return; }
      pendingNonces := pendingNonces[a := nonce];
    }

    // ---------- Leaving the pool ----------

    /** Takes a transaction that no list holds any more out of the lookup. */
    method ForgetTx(tx: Transaction, ghost limbo: set<Transaction>, ghost uncovered: set<Transaction>)
      requires Inv(limbo, uncovered) && tx in limbo
      modifies all
      ensures Inv(limbo - {tx}, uncovered)
      ensures all.Hashes() == old(all.Hashes()) - {HashOf(tx)}
      ensures all.remotes == old(all.remotes) - {HashOf(tx)} && all.locals == old(all.locals) - {HashOf(tx)}
    {
      hide Sum, Consistent;
      ghost var hs := all.Hashes();
      all.Remove(HashOf(tx));
      Forget(pending, queue, hs, limbo, tx);
    }

    method ForgetAll(txs: seq<Transaction>, ghost limbo: set<Transaction>, ghost uncovered: set<Transaction>)
      requires Inv(limbo, uncovered)
      requires forall t :: t in txs ==> t in limbo
      requires forall i, j :: 0 <= i < j < |txs| ==> txs[i] != txs[j]
      modifies all
      ensures Inv(limbo - (set t | t in txs), uncovered)
      ensures forall h :: h in all.Hashes() <==> h in old(all.Hashes()) && h.tx !in txs
    {
      hide Inv;
      ghost var left := limbo;
      for i := 0 to |txs|
        invariant forall t :: t in left <==> t in limbo && t !in txs[..i]
        invariant Inv(left, uncovered)
        invariant forall h :: h in all.Hashes() <==> h in old(all.Hashes()) && h.tx !in txs[..i]
      {
        ForgetTx(txs[i], left, uncovered);
        left := left - {txs[i]};
      }
      assert left == limbo - (set t | t in txs);
    }

    // ---------- Entering the queue ----------

    /** Files a transaction whose slot is known to be free in the queue. */
    method Requeue(tx: Transaction, ghost limbo: set<Transaction>, ghost uncovered: set<Transaction>)
      requires Inv(limbo, uncovered) && tx in limbo && tx.signer.Some?
      modifies this`queue
      ensures Inv(limbo - {tx}, uncovered)
      ensures var a := SlotOf(tx).sender; queue == SetList(old(queue), a, ListOf(old(queue), a)[tx.nonce := tx])
    {
      hide Sum, Consistent, SetList;
      Symmetric(pending, queue, all.Hashes(), limbo);
      Settle(queue, pending, all.Hashes(), limbo, tx);
      var a := SlotOf(tx).sender;
      queue := SetList(queue, a, ListOf(queue, a)[tx.nonce := tx]);
      Symmetric(queue, pending, all.Hashes(), limbo - {tx});
    }

    method RequeueAll(txs: seq<Transaction>, ghost limbo: set<Transaction>, ghost uncovered: set<Transaction>)
      requires Inv(limbo, uncovered)
      requires forall t :: t in txs ==> t in limbo && t.signer.Some?
      requires forall i, j :: 0 <= i < j < |txs| ==> txs[i] != txs[j]
      modifies this`queue
      ensures Inv(limbo - (set t | t in txs), uncovered)
    {
      hide Inv;
      ghost var left := limbo;
      for i := 0 to |txs|
        invariant forall t :: t in left <==> t in limbo && t !in txs[..i]
        invariant Inv(left, uncovered)
      {
        Requeue(txs[i], left, uncovered);
        left := left - {txs[i]};
      }
      assert left == limbo - (set t | t in txs);
    }

    /** Takes part of an account's queued list out; the caller settles where it goes. */
    method TakeFromQueue(a: Address, rest: Items, ghost out: Items, ghost limbo: set<Transaction>,
                         ghost uncovered: set<Transaction>)
      requires Inv(limbo, uncovered) && Splits(ListOf(queue, a), out, rest)
      modifies this`queue
      ensures Inv(limbo + out.Values, uncovered)
      ensures queue == SetList(old(queue), a, rest)
    {
      hide Sum, Consistent, SetList, Splits;
      Symmetric(pending, queue, all.Hashes(), limbo);
      TakeOut(queue, pending, all.Hashes(), limbo, a, out, rest);
      queue := SetList(queue, a, rest);
      Symmetric(queue, pending, all.Hashes(), limbo + out.Values);
    }

    method TakeFromPending(a: Address, rest: Items, ghost out: Items, ghost limbo: set<Transaction>,
                           ghost uncovered: set<Transaction>)
      requires Inv(limbo, uncovered) && Splits(ListOf(pending, a), out, rest)
      modifies this`pending
      ensures Inv(limbo + out.Values, uncovered)
      ensures pending == SetList(old(pending), a, rest)
    {
      hide Sum, Consistent, SetList, Splits;
      TakeOut(pending, queue, all.Hashes(), limbo, a, out, rest);
      pending := SetList(pending, a, rest);
    }

    /** Tells the price heap that entries went stale. */
    method NoteRemoved(count: nat, ghost limbo: set<Transaction>)
      requires Inv(limbo, {})
      modifies priced
      ensures Inv(limbo, {})
      ensures old(priced.stales) + count <= |old(priced.remotes)| / 4 ==> priced.remotes == old(priced.remotes)
    {
      hide Consistent, Sum;
      priced.Removed(count);
    }

    lemma KeyedLists(a: Address, limbo: set<Transaction>, uncovered: set<Transaction>)
      requires Inv(limbo, uncovered)
      ensures Keyed(ListOf(pending, a)) && Keyed(ListOf(queue, a))
      ensures forall n :: n in ListOf(pending, a) ==> Filed(ListOf(pending, a)[n], Slot(a, n))
      ensures forall n :: n in ListOf(queue, a) ==> Filed(ListOf(queue, a)[n], Slot(a, n))
    {
      KeptKeyed(pending, a);
      KeptKeyed(queue, a);
    }

    // ---------- Removing one transaction ----------

    /** Takes a pending transaction out; everything behind it goes back to the queue. */
    method RemovePending(tx: Transaction, outofbound: bool, ghost uncovered: set<Transaction>)
      requires Inv({}, uncovered) && (outofbound ==> uncovered == {})
      requires Holds(pending, tx)
      modifies this`pending, this`queue, this`pendingNonces, all, priced
      ensures Inv({}, uncovered)
      ensures all.Hashes() == old(all.Hashes()) - {HashOf(tx)}
      ensures all.remotes == old(all.remotes) - {HashOf(tx)} && all.locals == old(all.locals) - {HashOf(tx)}
      ensures pending == SetList(old(pending), SlotOf(tx).sender, Upto(old(pending)[SlotOf(tx).sender], tx.nonce))
      ensures PendingNonce(SlotOf(tx).sender) <= tx.nonce
      ensures (outofbound ==> old(priced.stales) + 1 <= |old(priced.remotes)| / 4) ==>
        priced.remotes == old(priced.remotes)
    {
      hide Inv, SetList, Upto, From, Splits, Enumerates;
      var a := SlotOf(tx).sender;
      var items := pending[a];
      KeyedLists(a, {}, uncovered);
      var invalids, rest := ListOps.Remove(items, true, tx.nonce);
      ghost var out := From(items, tx.nonce);
      ghost var limbo := out.Values;
      BehindTx(items, tx, a, invalids);
      TakeFromPending(a, rest, out, {}, uncovered);
      assert {} + limbo == limbo;
      ForgetTx(tx, limbo, uncovered);
      if outofbound {
        NoteRemoved(1, limbo - {tx});
      }
      RequeueAll(invalids, limbo - {tx}, uncovered);
      FinishNonce(a, tx.nonce, uncovered);
    }

    method FinishNonce(a: Address, nonce: nat, ghost uncovered: set<Transaction>)
      requires Inv({}, uncovered)
      modifies this`pendingNonces
      ensures Inv({}, uncovered) && PendingNonce(a) <= nonce
    {
      LowerPendingNonce(a, nonce);
    }

    /** Takes a queued transaction out. */
    method RemoveQueued(tx: Transaction, outofbound: bool, ghost uncovered: set<Transaction>)
      requires Inv({}, uncovered) && (outofbound ==> uncovered == {})
      requires Holds(queue, tx)
      modifies this`queue, all, priced
      ensures Inv({}, uncovered)
      ensures all.Hashes() == old(all.Hashes()) - {HashOf(tx)}
      ensures all.remotes == old(all.remotes) - {HashOf(tx)} && all.locals == old(all.locals) - {HashOf(tx)}
      ensures queue == SetList(old(queue), SlotOf(tx).sender, old(queue)[SlotOf(tx).sender] - {tx.nonce})
      ensures (outofbound ==> old(priced.stales) + 1 <= |old(priced.remotes)| / 4) ==>
        priced.remotes == old(priced.remotes)
    {
      hide Inv, SetList, Enumerates;
      var a := SlotOf(tx).sender;
      var items := queue[a];
      KeyedLists(a, {}, uncovered);
      var _, rest := ListOps.Remove(items, false, tx.nonce);
      ghost var out: Items := map[tx.nonce := tx];
      assert Splits(items, out, rest);
      assert {} + out.Values == {tx} && {tx} - {tx} == {};
      TakeFromQueue(a, rest, out, {}, uncovered);
      ForgetTx(tx, {tx}, uncovered);
      if outofbound {
        NoteRemoved(1, {});
      }
    }

    lemma NotHeld(hash: Hash, uncovered: set<Transaction>)
      requires Inv({}, uncovered) && hash !in all.Hashes()
      ensures !Holds(queue, hash.tx) && !Holds(pending, hash.tx)
    {
    }

    method RemoveTx(hash: Hash, outofbound: bool, ghost uncovered: set<Transaction>)
      requires Inv({}, uncovered) && (outofbound ==> uncovered == {})
      modifies this`pending, this`queue, this`pendingNonces, all, priced
      ensures Inv({}, uncovered)
      ensures all.Hashes() == old(all.Hashes()) - {hash}
      ensures all.remotes == old(all.remotes) - {hash}
      ensures Holds(old(queue), hash.tx) ==>
        var a := SlotOf(hash.tx).sender;
        pending == old(pending) && queue == SetList(old(queue), a, old(queue)[a] - {hash.tx.nonce})
      ensures Holds(old(pending), hash.tx) ==>
        var a := SlotOf(hash.tx).sender;
        && pending == SetList(old(pending), a, Upto(old(pending)[a], hash.tx.nonce))
        && PendingNonce(a) <= hash.tx.nonce
      ensures all.locals == old(all.locals) - {hash}
      ensures (outofbound ==> old(priced.stales) + 1 <= |old(priced.remotes)| / 4) ==>
        priced.remotes == old(priced.remotes)
    {
      hide Sum, Consistent, SetList, Upto;
      var found := all.Get(hash);
      if found.None? {
        assert all.Hashes() - {hash} == all.Hashes();
        assert all.remotes - {hash} == all.remotes && all.locals - {hash} == all.locals;
        NotHeld(hash, uncovered);
        return;
      }
      var tx := found.value;
      assert HashOf(tx) == hash;
      FoundWhere(pending, queue, all.Hashes(), tx);
      if Occupied(pending, SlotOf(tx)) {
        RemovePending(tx, outofbound, uncovered);
      } else {
        RemoveQueued(tx, outofbound, uncovered);
      }
    }

    // ---------- Entering the pool ----------

    /** Enters a transaction for a free slot in the lookup and, if remote, in the price heap. */
    method EnterTx(tx: Transaction, local: bool, ghost limbo: set<Transaction>)
      requires Inv(limbo, {}) && HashOf(tx) !in all.Hashes()
      requires tx.signer.Some? && !Occupied(pending, SlotOf(tx)) && !Occupied(queue, SlotOf(tx))
      requires forall t :: t in limbo ==> t.signer.Some? && SlotOf(t) != SlotOf(tx)
      modifies all, priced
      ensures Inv(limbo + {tx}, {})
      ensures all.Hashes() == old(all.Hashes()) + {HashOf(tx)}
      ensures Entered(old(priced.remotes), priced.remotes, old(all.remotes), all.remotes, tx, local)
      ensures priced.stales == old(priced.stales)
    {
      hide Consistent, Sum;
      Enter(pending, queue, all.Hashes(), limbo, tx);
      all.Add(tx, local);
      priced.Put(tx, local);
    }

    /** Files a transaction whose slot is known to be free as pending. */
    method SettlePending(tx: Transaction, ghost limbo: set<Transaction>)
      requires Inv(limbo, {}) && tx in limbo && tx.signer.Some?
      modifies this`pending
      ensures Inv(limbo - {tx}, {})
      ensures var a := SlotOf(tx).sender; pending == SetList(old(pending), a, ListOf(old(pending), a)[tx.nonce := tx])
    {
      hide Sum, Consistent, SetList;
      Settle(pending, queue, all.Hashes(), limbo, tx);
      var a := SlotOf(tx).sender;
      pending := SetList(pending, a, ListOf(pending, a)[tx.nonce := tx]);
    }

    /** Takes the queued transaction at a slot out of the pool. */
    method EvictQueued(a: Address, nonce: nat)
      requires Valid() && a in queue && nonce in queue[a]
      modifies this`queue, all, priced
      ensures Valid()
      ensures queue == SetList(old(queue), a, old(queue)[a] - {nonce})
      ensures all.Hashes() == old(all.Hashes()) - {HashOf(old(queue)[a][nonce])}
    {
      hide Inv, SetList;
      KeyedLists(a, {}, {});
      var tx := queue[a][nonce];
      assert Filed(tx, Slot(a, nonce));
      RemoveQueued(tx, true, {});
    }

    /**
     Inserts a new transaction into the queue. It gets in exactly when its nonce is free there or
     it outbids the one it then replaces.
     */
    method EnqueueTx(tx: Transaction, local: bool) returns (replaced: bool, err: Option<Error>)
      requires Valid() && tx.signer.Some? && HashOf(tx) !in all.Hashes() && !Occupied(pending, SlotOf(tx))
      modifies this`queue, all, priced
      ensures Valid()
      ensures var a := SlotOf(tx).sender; var items := ListOf(old(queue), a);
        && (err.None? <==> TxList.Admits(items, tx, config.priceBump))
        && (err.Some? ==>
              && err == Some(ErrReplaceUnderpriced) && !replaced && tx.nonce in items
              && queue == old(queue) && all.Hashes() == old(all.Hashes()))
        && (err.None? ==>
              && queue == SetList(old(queue), a, items[tx.nonce := tx])
              && (replaced <==> tx.nonce in items)
              && all.Hashes() == old(all.Hashes()) -
                   (if replaced then {HashOf(items[tx.nonce])} else {}) + {HashOf(tx)})
      ensures err.None? && !replaced ==>
        && Entered(old(priced.remotes), priced.remotes, old(all.remotes), all.remotes, tx, local)
        && priced.stales == old(priced.stales)
    {
      hide Inv, SetList, TxList.Admits, Entered;
      var a := SlotOf(tx).sender;
      var items := ListOf(queue, a);
      FreeAdmits(items, tx, config.priceBump);
      ghost var hs := all.Hashes();
      if !TxList.Admits(items, tx, config.priceBump) { return false, Some(ErrReplaceUnderpriced); }
      replaced := tx.nonce in items;
      NotQueued(tx);
      if replaced {
        EvictQueued(a, tx.nonce);
      }
      AfterEvict(items, a, tx, old(queue), queue);
      EnterTx(tx, local, {});
      Requeue(tx, {} + {tx}, {});
      assert {} + {tx} - {tx} == {};
      return replaced, None;
    }

    /** A transaction the lookup does not know is in no list. */
    lemma NotQueued(tx: Transaction)
      requires Valid() && tx.signer.Some? && HashOf(tx) !in all.Hashes()
      ensures !Holds(queue, tx) && !Holds(pending, tx)
    {
      assert HashOf(tx).tx == tx;
    }

    /** A new transaction for a slot that is pending: it has to outbid what is there. */
    method ReplacePending(tx: Transaction, local: bool) returns (err: Option<Error>)
      requires Valid() && tx.signer.Some? && HashOf(tx) !in all.Hashes() && Occupied(pending, SlotOf(tx))
      modifies this`pending, all, priced
      ensures Valid()
      ensures var a := SlotOf(tx).sender; var items := old(pending)[a];
        && (err.None? <==> TxList.Admits(items, tx, config.priceBump))
        && (err.Some? ==>
              err == Some(ErrReplaceUnderpriced) && pending == old(pending) && all.Hashes() == old(all.Hashes()))
        && (err.None? ==>
              && pending == SetList(old(pending), a, items[tx.nonce := tx])
              && all.Hashes() == old(all.Hashes()) - {HashOf(items[tx.nonce])} + {HashOf(tx)})
    {
      hide Inv, SetList, TxList.Admits;
      var a := SlotOf(tx).sender;
      var items := pending[a];
      if !TxList.Admits(items, tx, config.priceBump) { return Some(ErrReplaceUnderpriced); }
      KeyedLists(a, {}, {});
      var there := items[tx.nonce];
      NotQueuedSlot(tx);
      ghost var out: Items := map[tx.nonce := there];
      assert Splits(items, out, items - {tx.nonce});
      assert {} + out.Values == {there} && {there} - {there} == {};
      TakeFromPending(a, items - {tx.nonce}, out, {}, {});
      ForgetTx(there, {there}, {});
      NoteRemoved(1, {});
      AfterEvict(items, a, tx, old(pending), pending);
      assert HashOf(tx) !in all.Hashes();
      EnterTx(tx, local, {});
      SettlePending(tx, {} + {tx});
      assert {} + {tx} - {tx} == {};
      return None;
    }

    lemma NotQueuedSlot(tx: Transaction)
      requires Valid() && tx.signer.Some? && Occupied(pending, SlotOf(tx))
      ensures !Occupied(queue, SlotOf(tx))
    {
    }

    /** Kicks out transactions whose entries the price heap has already given up. */
    method KickOut(drop: seq<Transaction>)
      requires Inv({}, set t | t in drop)
      modifies this`pending, this`queue, this`pendingNonces, all, priced
      ensures Valid()
      ensures forall h :: h in all.Hashes() <==> h in old(all.Hashes()) && h.tx !in drop
      ensures forall h :: h in all.remotes <==> h in old(all.remotes) && h.tx !in drop
      ensures priced.remotes == old(priced.remotes)
    {
      hide Inv, TxLookup.Hashes, SetList, Holds;
      ghost var dropped := set t | t in drop;
      for i := 0 to |drop|
        invariant Inv({}, dropped)
        invariant forall h :: h in all.Hashes() <==> h in old(all.Hashes()) && h.tx !in drop[..i]
        invariant forall h :: h in all.remotes <==> h in old(all.remotes) && h.tx !in drop[..i]
        invariant priced.remotes == old(priced.remotes)
      {
        RemoveTx(HashOf(drop[i]), false, dropped);
      }
      NoneLeft(dropped);
    }

    lemma NoneLeft(dropped: set<Transaction>)
      requires Inv({}, dropped) && forall h :: h in all.Hashes() ==> h.tx !in dropped
      ensures Valid()
    {
      hide Consistent, Sum;
      forall h | h in all.remotes ensures h.tx !in dropped {
        assert h in all.Hashes();
      }
    }

    method Underpriced(tx: Transaction) returns (r: bool)
      requires Valid()
      modifies priced
      ensures Valid()
      ensures r <==> all.remotes != map[] && forall h :: h in all.remotes ==> h.tx.gasPrice >= tx.gasPrice
      ensures Shared(old(priced.remotes), all.remotes.Keys, [], priced.remotes)
    {
      hide Consistent, Sum;
      r := priced.Underpriced(tx);
    }

    method Discard(slots: nat, force: bool) returns (drop: seq<Transaction>, success: bool)
      requires Valid()
      modifies priced
      ensures Inv({}, set t | t in drop)
      ensures forall t :: t in drop ==> HashOf(t) in all.remotes
      ensures forall d, h :: d in drop && h in all.remotes && h.tx !in drop ==> h.tx.gasPrice >= d.gasPrice
      ensures force ==> success
      ensures success ==> Discarded(old(priced.remotes), all.remotes.Keys, slots, drop, priced.remotes)
      ensures !success ==> Valid() && Sum(all.remotes.Keys, SlotsOf()) < slots
      ensures success && OnceEach(old(priced.remotes), all.remotes.Keys) ==>
        || Sum(HashesOf(drop), SlotsOf()) >= slots
        || (force && forall h :: h in all.remotes ==> h.tx in drop)
    {
      hide Consistent, Sum, SlotSum, Shared, OnceEach, LiveEntries, HashesOf;
      drop, success := priced.Discard(slots, force);
    }

    /** The pool counts as full by its number of transactions, whatever their size. */
    predicate Full(tx: Transaction)
      reads all
    {
      |all.locals| + |all.remotes| + NumSlots(tx) > config.globalSlots + config.globalQueue
    }

    /** A remote transaction for a free slot that the pool has room for. */
    ghost predicate IsNewRemote(tx: Transaction)
      reads this`locals, this`pending, this`queue, all
    {
      && tx.signer.Some? && !SentBy(locals, tx) && !Full(tx)
      && !Occupied(pending, SlotOf(tx)) && !Occupied(queue, SlotOf(tx))
    }

    /** How many slots have to be freed for a transaction. */
    function Need(tx: Transaction): int
      reads all
    {
      all.slots - (config.globalSlots + config.globalQueue) + NumSlots(tx)
    }

    /** Room for a transaction within the limits of the pool, counted in slots. */
    ghost predicate RoomFor(tx: Transaction)
      reads all
    {
      all.slots + NumSlots(tx) <= config.globalSlots + config.globalQueue
    }

    /**
     Makes room in a full pool by giving up the cheapest remote transactions. If no remote
     transaction has two entries in the price heap the room gained suffices, a local transaction
     aside that comes in over the limit once no remote one is left.
     */
    method MakeRoom(tx: Transaction, isLocal: bool) returns (err: Option<Error>, ghost drop: seq<Transaction>)
      requires Valid()
      requires Full(tx)
      modifies this`pending, this`queue, this`pendingNonces, all, priced
      ensures Valid()
      ensures all.Hashes() <= old(all.Hashes())
      ensures isLocal ==> err.None?
      ensures err.Some? ==> all.Hashes() == old(all.Hashes())
      ensures err == Some(ErrUnderpriced) <==>
        !isLocal && old(all.remotes) != map[] && forall h :: h in old(all.remotes) ==> h.tx.gasPrice >= tx.gasPrice
      ensures err.Some? && err != Some(ErrUnderpriced) ==>
        && err == Some(ErrTxPoolOverflow)
        && old(Need(tx) - Sum(all.remotes.Keys, SlotsOf())) > 0
      ensures forall h :: h in old(all.Hashes()) && h !in all.Hashes() ==>
        h in old(all.remotes) && forall k :: k in all.remotes ==> k.tx.gasPrice >= h.tx.gasPrice
      ensures err.None? && OnceEach(old(priced.remotes), old(all.remotes).Keys) ==>
        RoomFor(tx) || (isLocal && all.remotes == map[])
      ensures err.None? ==>
        && Discarded(old(priced.remotes), old(all.remotes).Keys, old(Need(tx)), drop, priced.remotes)
        && all.Hashes() == old(all.Hashes()) - HashesOf(drop)
      ensures err.Some? ==> drop == []
      ensures err.Some? ==> RefusedFull(err.value, old(all.remotes), old(Need(tx)), old(all.Hashes()), tx)
    {
      hide Inv, TxLookup.Hashes, Sum, OnceEach, HashesOf, Shared, Discarded;
      drop := [];
      AllLeft(priced.remotes, all.remotes.Keys);
      if !isLocal {
        var under := Underpriced(tx);
        if under { return Some(ErrUnderpriced), []; }
        if OnceEach(old(priced.remotes), all.remotes.Keys) {
          OnceStays(old(priced.remotes), all.remotes.Keys, priced.remotes);
        }
      }
      RoomNeeded(tx);
      ghost var entries := priced.remotes;
      var given, success := Discard(Need(tx), isLocal);
      if !isLocal && !success {
        return Some(ErrTxPoolOverflow), [];
      }
      DiscardedFrom(old(priced.remotes), entries, all.remotes.Keys, Need(tx), given, priced.remotes);
      ghost var before := all.Hashes();
      SlotsKept({}, set t | t in given);
      KickOut(given);
      SlotsKept({}, {});
      RoomGained(before, all.Hashes(), given);
      return None, given;
    }

    /** The slot counter is exact at all times. */
    lemma SlotsKept(limbo: set<Transaction>, uncovered: set<Transaction>)
      requires Inv(limbo, uncovered)
      ensures all.slots == Sum(all.Hashes(), SlotsOf())
      ensures all.remotes.Keys <= all.Hashes()
    {
      hide Consistent, Sum;
    }

    /** A full pool uses at least as many slots as it has transactions, so the need is positive. */
    lemma RoomNeeded(tx: Transaction)
      requires Valid() && Full(tx)
      ensures Need(tx) > 0
    {
      SlotsCover(all.Hashes());
      assert |all.Hashes()| == |all.locals.Keys| + |all.remotes.Keys|;
    }

    /** From now on the account is local: its remote transactions change sides. */
    method MarkLocal(a: Address)
      requires Valid()
      modifies this`locals, all, priced
      ensures Valid() && locals == old(locals) + {a} && all.Hashes() == old(all.Hashes())
    {
      hide Consistent, Sum;
      locals := locals + {a};
      var migrated := all.RemoteToLocals(locals);
      NoteRemoved(migrated, {});
    }

    lemma SlotTaken(tx: Transaction)
      requires Valid() && tx.signer.Some?
      ensures Occupied(pending, SlotOf(tx)) || Occupied(queue, SlotOf(tx)) <==>
        exists h :: h in all.Hashes() && SameSlot(h.tx, tx)
    {
      var s := SlotOf(tx);
      assert Occupied(pending, s) ==> Holds(pending, HashOf(pending[s.sender][s.nonce]).tx);
      assert Occupied(queue, s) ==> Holds(queue, HashOf(queue[s.sender][s.nonce]).tx);
      if Occupied(pending, s) {
        assert SameSlot(HashOf(pending[s.sender][s.nonce]).tx, tx);
      } else if Occupied(queue, s) {
        assert SameSlot(HashOf(queue[s.sender][s.nonce]).tx, tx);
      }
    }

    /** Puts a valid new transaction in the place of a pending one or else in the queue. */
    method Place(tx: Transaction, local: bool, isLocal: bool) returns (replaced: bool, err: Option<Error>)
      requires Valid() && tx.signer.Some? && HashOf(tx) !in all.Hashes()
      modifies this`locals, this`pending, this`queue, all, priced
      ensures Valid()
      ensures Placed(old(pending), old(queue), pending, queue, config.priceBump, tx, replaced, err)
      ensures HashOf(tx) in all.Hashes() <==> err.None?
      ensures err.Some? ==> all.Hashes() == old(all.Hashes())
      ensures all.Hashes() <= old(all.Hashes()) + {HashOf(tx)}
      ensures locals == old(locals) +
        if err.None? && local && !Occupied(old(pending), SlotOf(tx)) then {SlotOf(tx).sender} else {}
      ensures err.None? && !local && !Occupied(old(pending), SlotOf(tx)) && !Occupied(old(queue), SlotOf(tx)) ==>
        && all.Hashes() == old(all.Hashes()) + {HashOf(tx)}
        && Entered(old(priced.remotes), priced.remotes, old(all.remotes), all.remotes, tx, isLocal)
        && priced.stales == old(priced.stales)
      ensures forall h :: h in old(all.Hashes()) && h !in all.Hashes() ==> SameSlot(h.tx, tx)
      ensures err.Some? ==>
        err == Some(ErrReplaceUnderpriced) && exists h :: h in old(all.Hashes()) && SameSlot(h.tx, tx)
    {
      hide Inv, TxList.Admits, SetList, Entered;
      KeyedLists(SlotOf(tx).sender, {}, {});
      SlotTaken(tx);
      if Occupied(pending, SlotOf(tx)) {
        err := ReplacePending(tx, isLocal);
        replaced := err.None?;
        return;
      }
      replaced, err := EnqueueTx(tx, isLocal);
      if err.Some? { return false, err; }
      var from := SlotOf(tx).sender;
      if local && from !in locals {
        MarkLocal(from);
      }
    }

    /** Takes a valid new transaction into a full pool, giving up others for it. */
    method SqueezeIn(tx: Transaction, local: bool, isLocal: bool)
      returns (replaced: bool, err: Option<Error>, ghost drop: seq<Transaction>)
      requires Valid() && tx.signer.Some? && HashOf(tx) !in all.Hashes() && Full(tx)
      modifies this`locals, this`pending, this`queue, this`pendingNonces, all, priced
      ensures Valid()
      ensures HashOf(tx) in all.Hashes() <==> err.None?
      ensures all.Hashes() <= old(all.Hashes()) - HashesOf(drop) + {HashOf(tx)}
      ensures err.None? && !isLocal && OnceEach(old(priced.remotes), old(all.remotes).Keys) ==>
        all.slots <= config.globalSlots + config.globalQueue
      ensures old(locals) <= locals <= old(locals) + if err.None? && local then {SlotOf(tx).sender} else {}
      ensures err.None? ==>
        && (exists left :: Discarded(old(priced.remotes), old(all.remotes).Keys, old(Need(tx)), drop, left))
        && (forall h :: h in old(all.Hashes()) - HashesOf(drop) && h !in all.Hashes() ==> SameSlot(h.tx, tx))
      ensures err.Some? ==> RefusedFull(err.value, old(all.remotes), old(Need(tx)), old(all.Hashes()), tx)
    {
      hide Inv, Placed, Sum, OnceEach, TxLookup.Hashes, NumSlots, Occupied, Entered, Discarded, HashesOf, SameSlot;
      hide RefusedFull, Need, Full;
      NothingDropped();
      ghost var remotes, need, all0 := all.remotes, Need(tx), all.Hashes();
      err, drop := MakeRoom(tx, isLocal);
      if err.Some? { return false, err, []; }
      ghost var hs := all.Hashes();
      SlotsKept({}, {});
      replaced, err := Place(tx, local, isLocal);
      if err.Some? {
        ReplaceRefused(remotes, need, all0, hs, tx);
        return;
      }
      SlotsKept({}, {});
      SlotsGrow(hs, all.Hashes(), tx);
    }

    /** Takes a valid new transaction in. */
    method TakeIn(tx: Transaction, local: bool, isLocal: bool)
      returns (replaced: bool, err: Option<Error>, ghost drop: seq<Transaction>)
      requires Valid() && tx.signer.Some? && HashOf(tx) !in all.Hashes()
      modifies this`locals, this`pending, this`queue, this`pendingNonces, all, priced
      ensures Valid()
      ensures HashOf(tx) in all.Hashes() <==> err.None?
      ensures old(!Full(tx)) ==> Placed(old(pending), old(queue), pending, queue, config.priceBump, tx, replaced, err)
      ensures all.Hashes() <= old(all.Hashes()) - HashesOf(drop) + {HashOf(tx)}
      ensures err.None? && !isLocal && old(Full(tx)) && OnceEach(old(priced.remotes), old(all.remotes).Keys) ==>
        all.slots <= config.globalSlots + config.globalQueue
      ensures old(locals) <= locals <= old(locals) + if err.None? && local then {SlotOf(tx).sender} else {}
      ensures err.None? && old(Full(tx)) ==>
        && (exists left :: Discarded(old(priced.remotes), old(all.remotes).Keys, old(Need(tx)), drop, left))
        && (forall h :: h in old(all.Hashes()) - HashesOf(drop) && h !in all.Hashes() ==> SameSlot(h.tx, tx))
      ensures err.None? && !local && !isLocal && old(IsNewRemote(tx)) ==>
        && all.Hashes() == old(all.Hashes()) + {HashOf(tx)}
        && Entered(old(priced.remotes), priced.remotes, old(all.remotes), all.remotes, tx, false)
        && priced.stales == old(priced.stales)
      ensures old(Full(tx)) && err.Some? ==>
        RefusedFull(err.value, old(all.remotes), old(Need(tx)), old(all.Hashes()), tx)
    {
      hide Inv, Placed, OnceEach, TxLookup.Hashes, Occupied, Entered, Discarded, HashesOf, SameSlot, RefusedFull, Need;
      NothingDropped();
      if Full(tx) {
        replaced, err, drop := SqueezeIn(tx, local, isLocal);
      } else {
        replaced, err := Place(tx, local, isLocal);
        drop := [];
      }
    }

    /**
     Validates a transaction and takes it into the pool. A full pool that takes a remote one is
     within its limits afterwards, unless a remote transaction had two entries in the price heap.
     */
    method Add(tx: Transaction, local: bool)
      returns (replaced: bool, err: Option<Error>, ghost drop: seq<Transaction>)
      requires Valid()
      modifies this`locals, this`pending, this`queue, this`pendingNonces, all, priced
      ensures Valid()
      ensures HashOf(tx) in old(all.Hashes()) ==> err == Some(ErrAlreadyKnown) && all.Hashes() == old(all.Hashes())
      ensures HashOf(tx) !in old(all.Hashes()) ==> (HashOf(tx) in all.Hashes() <==> err.None?)
      ensures HashOf(tx) !in old(all.Hashes()) ==>
        var refusal := ValidateAck(settings, currentState, expectedAckNonce, tx, local || SentBy(old(locals), tx));
        && (refusal.Some? ==> err == refusal && all.Hashes() == old(all.Hashes()))
        && (refusal.None? ==> tx.signer.Some?)
        && (refusal.None? && old(!Full(tx)) ==>
              Placed(old(pending), old(queue), pending, queue, config.priceBump, tx, replaced, err))
        && (refusal.None? && old(Full(tx)) && err.Some? ==>
              RefusedFull(err.value, old(all.remotes), old(Need(tx)), old(all.Hashes()), tx))
      ensures all.Hashes() <= old(all.Hashes()) - HashesOf(drop) + {HashOf(tx)}
      ensures err.None? && !local && !SentBy(old(locals), tx) && old(Full(tx)) ==>
        OnceEach(old(priced.remotes), old(all.remotes).Keys) ==> all.slots <= config.globalSlots + config.globalQueue
      ensures old(locals) <= locals && (err.Some? ==> locals == old(locals))
      ensures err.None? ==> tx.signer.Some? && locals <= old(locals) + if local then {SlotOf(tx).sender} else {}
      ensures err.None? && old(Full(tx)) ==>
        && (exists left :: Discarded(old(priced.remotes), old(all.remotes).Keys, old(Need(tx)), drop, left))
        && (forall h :: h in old(all.Hashes()) - HashesOf(drop) && h !in all.Hashes() ==> SameSlot(h.tx, tx))
      ensures err.None? && !local && old(IsNewRemote(tx)) ==>
        && all.Hashes() == old(all.Hashes()) + {HashOf(tx)}
        && Entered(old(priced.remotes), priced.remotes, old(all.remotes), all.remotes, tx, false)
        && priced.stales == old(priced.stales)
    {
      hide Inv, ValidateAck, Placed, OnceEach, TxLookup.Hashes, SentBy, Full, Entered, Discarded, Need, Occupied;
      hide RefusedFull, HashesOf;
      NothingDropped();
      replaced, drop := false, [];
      var known := Known(HashOf(tx));
      if known { return false, Some(ErrAlreadyKnown), []; }
      var isLocal := local || SentBy(locals, tx);
      err := ValidateAck(settings, currentState, expectedAckNonce, tx, isLocal);
      if err.Some? { return; }
      assert tx.signer.Some? by { AckIsSigned(settings, currentState, expectedAckNonce, tx, isLocal); }
      replaced, err, drop := TakeIn(tx, local, isLocal);
    }

    method Known(h: Hash) returns (known: bool)
      requires Valid()
      ensures known <==> h in all.Hashes()
    {
      hide Consistent;
      var found := all.Get(h);
      return found.Some?;
    }

    // ---------- Promotion ----------

    /** Drops part of an account's queued list from the pool. */
    method DropFromQueue(a: Address, out: seq<Transaction>, rest: Items, ghost outItems: Items)
      requires Valid() && Splits(ListOf(queue, a), outItems, rest) && Enumerates(out, outItems)
      modifies this`queue, all
      ensures Valid()
      ensures queue == SetList(old(queue), a, rest)
      ensures all.Hashes() <= old(all.Hashes())
    {
      hide Inv, SetList, Splits;
      ListOps.EnumeratedValues(out, outItems);
      hide Enumerates;
      TakeFromQueue(a, rest, outItems, {}, {});
      assert {} + outItems.Values == outItems.Values;
      ForgetAll(out, outItems.Values, {});
      assert outItems.Values - (set t | t in out) == {};
    }

    /** Moves a transaction out of limbo into the pending list; its slot there is always free. */
    method PromoteTx(tx: Transaction, ghost limbo: set<Transaction>)
      requires Inv(limbo, {}) && tx in limbo && tx.signer.Some?
      modifies this`pending, this`pendingNonces
      ensures Inv(limbo - {tx}, {})
      ensures var a := SlotOf(tx).sender; pending == SetList(old(pending), a, ListOf(old(pending), a)[tx.nonce := tx])
      ensures pendingNonces == old(pendingNonces)[SlotOf(tx).sender := tx.nonce + 1]
    {
      hide Consistent, SetList, Sum;
      SettlePending(tx, limbo);
      pendingNonces := pendingNonces[SlotOf(tx).sender := tx.nonce + 1];
    }

    method PromoteAll(a: Address, txs: seq<Transaction>, ghost limbo: set<Transaction>)
      requires Inv(limbo, {})
      requires forall t :: t in txs ==> t in limbo && t.signer.Some? && SlotOf(t).sender == a
      requires forall i, j :: 0 <= i < j < |txs| ==> txs[i] != txs[j]
      modifies this`pending, this`pendingNonces
      ensures Inv(limbo - (set t | t in txs), {})
      ensures forall t :: Holds(pending, t) <==> Holds(old(pending), t) || t in txs
      ensures pendingNonces ==
        if txs == [] then old(pendingNonces) else old(pendingNonces)[a := txs[|txs| - 1].nonce + 1]
    {
      hide Inv, SetList, Holds;
      ghost var left := limbo;
      for i := 0 to |txs|
        invariant forall t :: t in left <==> t in limbo && t !in txs[..i]
        invariant Inv(left, {})
        invariant forall t :: Holds(pending, t) <==> Holds(old(pending), t) || t in txs[..i]
        invariant pendingNonces == if i == 0 then old(pendingNonces) else old(pendingNonces)[a := txs[i - 1].nonce + 1]
      {
        LimboSlots(txs[i], left);
        ghost var before := pending;
        PromoteTx(txs[i], left);
        AfterPut(before, a, txs[i]);
        left := left - {txs[i]};
      }
      assert left == limbo - (set t | t in txs);
    }

    lemma LimboSlots(tx: Transaction, limbo: set<Transaction>)
      requires Inv(limbo, {}) && tx in limbo
      ensures tx.signer.Some? && !Occupied(pending, SlotOf(tx))
    {
    }

    /** What of an account's list is neither acked already nor beyond its means. */
    ghost function Live(items: Items, a: Address, strict: bool): Items
      reads this`expectedAckNonce, this`currentState, this`settings
    {
      var current := From(items, ExpectedNonce(expectedAckNonce, a));
      TxList.Payable(current, strict, BalanceOf(currentState, a), settings.maxGas)
    }

    /** The limit on queued transactions does not apply to local accounts. */
    ghost function Limited(a: Address, items: Items): Items
      reads this`locals
    {
      if a in locals || |items| <= config.accountQueue then items else Lowest(items, config.accountQueue)
    }

    /** Moves the executable run at the head of an account's queue to the pending list. */
    method PromoteReady(a: Address) returns (promoted: seq<Transaction>)
      requires Valid()
      modifies this`pending, this`queue, this`pendingNonces
      ensures Valid()
      ensures var items := ListOf(old(queue), a); var end := ReadyEnd(items, old(PendingNonce(a)));
        promoted == Listing(Upto(items, end)) && queue == SetList(old(queue), a, From(items, end))
      ensures forall t :: Holds(pending, t) <==> Holds(old(pending), t) || t in promoted
      ensures pendingNonces ==
        if promoted == [] then old(pendingNonces) else old(pendingNonces)[a := promoted[|promoted| - 1].nonce + 1]
    {
      hide Inv, SetList, Splits, Upto, From, Listing, ReadyEnd;
      var items := ListOf(queue, a);
      KeyedLists(a, {}, {});
      var rest; ghost var end;
      promoted, rest, end := ListOps.Ready(items, PendingNonce(a));
      ghost var out := Upto(items, end);
      ReadyFiled(items, a, promoted, end);
      hide Enumerates;
      TakeFromQueue(a, rest, out, {}, {});
      assert {} + out.Values == out.Values;
      PromoteAll(a, promoted, out.Values);
      assert out.Values - (set t | t in promoted) == {};
    }

    /** Cuts an account's queue to the allowed length. */
    method CapQueued(a: Address) returns (dropped: nat)
      requires Valid()
      modifies this`queue, all
      ensures Valid() && all.Hashes() <= old(all.Hashes())
      ensures var items := ListOf(old(queue), a);
        queue == SetList(
          old(queue), a, if |items| <= config.accountQueue then items else Lowest(items, config.accountQueue))
    {
      hide Inv, SetList, Splits, Enumerates, Lowest;
      var items := ListOf(queue, a);
      KeyedLists(a, {}, {});
      var caps, rest; ghost var out;
      caps, rest, out := ListOps.Cap(items, config.accountQueue);
      DropFromQueue(a, caps, rest, out);
      dropped := |caps|;
    }

    /** Local accounts may queue as much as they like. */
    method LimitQueued(a: Address) returns (dropped: nat)
      requires Valid()
      modifies this`queue, all
      ensures Valid() && all.Hashes() <= old(all.Hashes())
      ensures queue == SetList(old(queue), a, Limited(a, ListOf(old(queue), a)))
    {
      hide Inv, Lowest;
      dropped := 0;
      if a !in locals {
        dropped := CapQueued(a);
      } else {
        QueueSame(a);
      }
    }

    /** Drops what is acked already and what the account cannot pay for. */
    method DropDead(a: Address) returns (dropped: nat)
      requires Valid()
      modifies this`queue, all
      ensures Valid() && all.Hashes() <= old(all.Hashes())
      ensures queue == SetList(old(queue), a, Live(ListOf(old(queue), a), a, false))
    {
      hide Inv, SetList, Splits, Enumerates, Upto, From, TxList.Payable, TxList.Unpayable;
      var items, nonce := ListOf(queue, a), ExpectedNonce(expectedAckNonce, a);
      KeyedLists(a, {}, {});
      var forwards, list := ListOps.Forward(items, nonce);
      DropFromQueue(a, forwards, list, Upto(items, nonce));
      var costly, none, payable := ListOps.Filter(list, false, BalanceOf(currentState, a), settings.maxGas);
      PlainFilterSplits(list, BalanceOf(currentState, a), settings.maxGas);
      SetTwice(old(queue), a, list, payable);
      DropFromQueue(a, costly, payable, TxList.Unpayable(list, BalanceOf(currentState, a), settings.maxGas));
      dropped := |forwards| + |costly|;
    }

    /**
     Promotes an account: of what is left after dropping dead transactions, exactly the maximal
     executable run becomes pending, and the rest stays queued within the limit.
     */
    method PromoteAccount(a: Address) returns (promoted: seq<Transaction>)
      requires Valid()
      modifies this`pending, this`queue, this`pendingNonces, all, priced
      ensures Valid() && all.Hashes() <= old(all.Hashes())
      ensures var live := Live(ListOf(old(queue), a), a, false); var end := ReadyEnd(live, old(PendingNonce(a)));
        && promoted == Listing(Upto(live, end))
        && queue == SetList(old(queue), a, Limited(a, From(live, end)))
      ensures forall t :: Holds(pending, t) <==> Holds(old(pending), t) || t in promoted
      ensures pendingNonces ==
        if promoted == [] then old(pendingNonces) else old(pendingNonces)[a := promoted[|promoted| - 1].nonce + 1]
    {
      hide Inv, SetList, Live, Upto, From, Listing, ReadyEnd, Limited, Holds, ListOf, TxLookup.Hashes;
      ghost var live := Live(ListOf(old(queue), a), a, false);
      var dropped := DropDead(a);
      SetTwice(old(queue), a, live, live);
      promoted := PromoteReady(a);
      ghost var rest := From(live, ReadyEnd(live, old(PendingNonce(a))));
      SetTwice(old(queue), a, live, rest);
      var capped := LimitQueued(a);
      SetTwice(old(queue), a, rest, Limited(a, rest));
      NoteRemoved(dropped + capped, {});
    }

    /** What an account's queued list gives up to the pending one. */
    ghost function Readies(q: Accounts, nonces: map<Address, nat>, a: Address): Items
      reads this`expectedAckNonce, this`currentState, this`settings
    {
      var live := Live(ListOf(q, a), a, false);
      Upto(live, ReadyEnd(live, NonceIn(nonces, currentState, a)))
    }

    /** What stays of an account's queued list. */
    ghost function Remainder(q: Accounts, nonces: map<Address, nat>, a: Address): Items
      reads this`expectedAckNonce, this`currentState, this`settings, this`locals
    {
      var live := Live(ListOf(q, a), a, false);
      Limited(a, From(live, ReadyEnd(live, NonceIn(nonces, currentState, a))))
    }

    ghost function AllReadies(q: Accounts, nonces: map<Address, nat>, accounts: seq<Address>): seq<Transaction>
      reads this`expectedAckNonce, this`currentState, this`settings
    {
      if accounts == [] then [] else
        var k := |accounts| - 1;
        AllReadies(q, nonces, accounts[..k]) + Listing(Readies(q, nonces, accounts[k]))
    }

    lemma NothingReady(q: Accounts, nonces: map<Address, nat>, a: Address)
      requires a !in q
      ensures Listing(Readies(q, nonces, a)) == [] && Remainder(q, nonces, a) == map[]
    {
    }

    lemma SameReadies(q: Accounts, q': Accounts, nonces: map<Address, nat>, nonces': map<Address, nat>, a: Address)
      requires ListOf(q', a) == ListOf(q, a)
      requires NonceIn(nonces', currentState, a) == NonceIn(nonces, currentState, a)
      ensures Readies(q', nonces', a) == Readies(q, nonces, a)
      ensures Remainder(q', nonces', a) == Remainder(q, nonces, a)
    {
    }

    lemma ReadiesStart(q: Accounts, nonces: map<Address, nat>)
      ensures AllReadies(q, nonces, []) == []
    {
    }

    lemma ReadiesNext(q: Accounts, nonces: map<Address, nat>, accounts: seq<Address>, i: nat)
      requires i < |accounts|
      ensures AllReadies(q, nonces, accounts[..i + 1]) ==
        AllReadies(q, nonces, accounts[..i]) + Listing(Readies(q, nonces, accounts[i]))
    {
      assert accounts[..i + 1][..i] == accounts[..i];
    }

    method PromoteNext(a: Address) returns (promoted: seq<Transaction>)
      requires Valid()
      modifies this`pending, this`queue, this`pendingNonces, all, priced
      ensures Valid() && all.Hashes() <= old(all.Hashes())
      ensures promoted == Listing(Readies(old(queue), old(pendingNonces), a))
      ensures ListOf(queue, a) == Remainder(old(queue), old(pendingNonces), a)
      ensures forall t :: Holds(pending, t) <==> Holds(old(pending), t) || t in promoted
      ensures forall b :: b != a ==>
        ListOf(queue, b) == ListOf(old(queue), b) && PendingNonce(b) == old(PendingNonce(b))
    {
      hide Inv, SetList, Live, ReadyEnd, Listing, Upto, From, Limited, Holds, TxLookup.Hashes;
      if a !in queue {
        NothingReady(queue, pendingNonces, a);
        return [];
      }
      promoted := PromoteAccount(a);
      SetTwice(old(queue), a, Remainder(old(queue), old(pendingNonces), a), map[]);
    }

    /** The same for different accounts, each by its own list and nonce; no other account is touched. */
    method PromoteExecutables(accounts: seq<Address>) returns (promoted: seq<Transaction>)
      requires Valid()
      modifies this`pending, this`queue, this`pendingNonces, all, priced
      ensures Valid() && all.Hashes() <= old(all.Hashes())
      ensures forall t :: Holds(pending, t) <==> Holds(old(pending), t) || t in promoted
      ensures forall a :: a !in accounts ==>
        ListOf(queue, a) == ListOf(old(queue), a) && PendingNonce(a) == old(PendingNonce(a))
      ensures Different(accounts) ==>
        && promoted == AllReadies(old(queue), old(pendingNonces), accounts)
        && forall i :: 0 <= i < |accounts| ==>
             ListOf(queue, accounts[i]) == Remainder(old(queue), old(pendingNonces), accounts[i])
    {
      hide Inv, Listing, Readies, Remainder, AllReadies, ListOf, NonceIn, Holds, TxLookup.Hashes, Different;
      ReadiesStart(queue, pendingNonces);
      ghost var q, nonces := queue, pendingNonces;
      promoted := [];
      for i := 0 to |accounts|
        invariant Valid() && all.Hashes() <= old(all.Hashes())
        invariant forall t :: Holds(pending, t) <==> Holds(old(pending), t) || t in promoted
        invariant forall a :: a !in accounts[..i] ==>
          ListOf(queue, a) == ListOf(q, a) && PendingNonce(a) == NonceIn(nonces, currentState, a)
        invariant Different(accounts) ==>
          && promoted == AllReadies(q, nonces, accounts[..i])
          && forall k :: 0 <= k < i ==> ListOf(queue, accounts[k]) == Remainder(q, nonces, accounts[k])
      {
        var a := accounts[i];
        NextDiffers(accounts, i);
        ReadiesNext(q, nonces, accounts, i);
        if a !in accounts[..i] {
          SameReadies(q, queue, nonces, pendingNonces, a);
        }
        var more := PromoteNext(a);
        promoted := promoted + more;
      }
      assert accounts[..|accounts|] == accounts;
    }

    // ---------- Demotion ----------

    /** Drops part of an account's pending list from the pool. */
    method DropFromPending(a: Address, out: seq<Transaction>, rest: Items, ghost outItems: Items)
      requires Valid() && Splits(ListOf(pending, a), outItems, rest) && Enumerates(out, outItems)
      modifies this`pending, all
      ensures Valid()
      ensures pending == SetList(old(pending), a, rest)
      ensures forall h :: h in all.Hashes() <==> h in old(all.Hashes()) && h.tx !in out
    {
      hide Inv, SetList, Splits;
      ListOps.EnumeratedValues(out, outItems);
      hide Enumerates;
      TakeFromPending(a, rest, outItems, {}, {});
      assert {} + outItems.Values == outItems.Values;
      ForgetAll(out, outItems.Values, {});
      assert outItems.Values - (set t | t in out) == {};
    }

    /** Drops part of an account's pending list from the pool and sends another part back to the queue. */
    method ShrinkPending(a: Address, out: seq<Transaction>, back: seq<Transaction>, rest: Items,
                         ghost outItems: Items, ghost backItems: Items, removed: nat)
      requires Valid() && TxList.Partition(ListOf(pending, a), outItems, backItems, rest)
      requires Enumerates(out, outItems) && Enumerates(back, backItems)
      modifies this`pending, this`queue, all, priced
      ensures Valid()
      ensures pending == SetList(old(pending), a, rest)
      ensures forall h :: h in all.Hashes() <==> h in old(all.Hashes()) && h.tx !in out
    {
      hide Inv, SetList, Splits, Enumerates, TxList.Partition;
      KeyedLists(a, {}, {});
      ghost var gone := outItems + backItems;
      var items := ListOf(pending, a);
      PartsOut(items, a, out, back, outItems, backItems, rest);
      TakeFromPending(a, rest, gone, {}, {});
      assert {} + gone.Values == gone.Values;
      ForgetAll(out, gone.Values, {});
      ghost var left := gone.Values - (set t | t in out);
      NoteRemoved(removed, left);
      RequeueAll(back, left, {});
      assert left - (set t | t in back) == {};
    }

    /** Pending transactions that are acked already or beyond the sender's means. */
    ghost predicate Dead(a: Address, tx: Transaction)
      reads this`expectedAckNonce, this`currentState, this`settings
    {
      tx.nonce < ExpectedNonce(expectedAckNonce, a) || TxList.Costly(tx, BalanceOf(currentState, a), settings.maxGas)
    }

    /** What stays pending: the live part of the list, unless its first transaction is missing. */
    ghost function Executable(a: Address, items: Items): Items
      reads this`expectedAckNonce, this`currentState, this`settings
    {
      var live := Live(items, a, true);
      if ExpectedNonce(expectedAckNonce, a) in live then live else map[]
    }

    /** Sends an account's whole pending list back to the queue. */
    method Postpone(a: Address)
      requires Valid()
      modifies this`pending, this`queue, all, priced
      ensures Valid() && pending == SetList(old(pending), a, map[]) && all.Hashes() == old(all.Hashes())
    {
      hide Inv, SetList, Enumerates, Splits, TxList.Partition, Lowest;
      KeyedLists(a, {}, {});
      var items := ListOf(pending, a);
      var gapped, rest; ghost var out;
      gapped, rest, out := ListOps.Cap(items, 0);
      AllOut(items, rest, out);
      TxList.EnumerateEmpty();
      ShrinkPending(a, [], gapped, rest, map[], out, 0);
    }

    /**
     Demotes an account: of its pending list exactly the executable part stays, the dead
     transactions leave the pool and the others go back to the queue.
     */
    method DemoteAccount(a: Address)
      requires Valid()
      modifies this`pending, this`queue, all, priced
      ensures Valid()
      ensures pending == SetList(old(pending), a, Executable(a, ListOf(old(pending), a)))
      ensures forall h :: h in all.Hashes() <==>
        h in old(all.Hashes()) && !(h.tx in ListOf(old(pending), a).Values && Dead(a, h.tx))
    {
      hide Inv, SetList, Splits, Enumerates, Upto, From;
      hide TxList.Payable, TxList.Unpayable, TxList.Invalidated, TxList.Partition, TxList.Costly;
      var items, nonce := ListOf(pending, a), ExpectedNonce(expectedAckNonce, a);
      var balance, maxGas := BalanceOf(currentState, a), settings.maxGas;
      KeyedLists(a, {}, {});
      var olds, list := ListOps.Forward(items, nonce);
      DropFromPending(a, olds, list, Upto(items, nonce));
      SetTwice(old(pending), a, list, list);
      var drops, invalids, rest := ListOps.Filter(list, true, balance, maxGas);
      DeadAreDropped(items, nonce, olds, drops, balance, maxGas);
      ShrinkPending(a, drops, invalids, rest, TxList.Unpayable(list, balance, maxGas),
                    TxList.Invalidated(list, true, balance, maxGas), |olds| + |drops|);
      SetTwice(old(pending), a, list, rest);
      SetTwice(old(pending), a, rest, map[]);
      if rest != map[] && nonce !in rest {
        Postpone(a);
      }
    }

    method DemoteUnexecutables()
      requires Valid()
      modifies this`pending, this`queue, all, priced
      ensures Valid()
      ensures forall a :: ListOf(pending, a) == Executable(a, ListOf(old(pending), a))
      ensures forall h :: h in all.Hashes() <==>
        h in old(all.Hashes()) && !Doomed(old(pending), {}, h.tx)
    {
      hide Inv, SetList, Executable, Dead, WellKept, Doomed, ListOf, TxLookup.Hashes;
      ghost var before := pending;
      var todo := pending.Keys;
      assert forall a :: ListOf(before, a) == if a in todo then ListOf(before, a) else map[] by { NoList(before); }
      PendingWellKept();
      NoneExecutable();
      NoneDoomed(before);
      while todo != {}
        invariant Valid()
        invariant forall a ::
          ListOf(pending, a) == if a in todo then ListOf(before, a) else Executable(a, ListOf(before, a))
        invariant forall h :: h in all.Hashes() <==>
          h in old(all.Hashes()) && !Doomed(before, todo, h.tx)
        decreases |todo|
      {
        var a :| a in todo;
        ghost var ls := pending;
        DoomedStep(before, todo, a);
        DemoteAccount(a);
        SetTwice(ls, a, Executable(a, ListOf(ls, a)), map[]);
        todo := todo - {a};
      }
    }

    lemma PendingWellKept()
      requires Valid()
      ensures WellKept(pending)
    {
    }

    lemma NoneExecutable()
      ensures forall a :: Executable(a, map[]) == map[]
    {
      hide TxList.Unpayable;
      forall a ensures Executable(a, map[]) == map[] {
        assert From(map[], ExpectedNonce(expectedAckNonce, a)) == map[];
        TxList.FilterPartitions(map[], true, BalanceOf(currentState, a), settings.maxGas);
      }
    }

    /** The dead transactions of the accounts outside `todo`. */
    ghost predicate Doomed(ls: Accounts, todo: set<Address>, tx: Transaction)
      reads this`expectedAckNonce, this`currentState, this`settings
    {
      Holds(ls, tx) && SlotOf(tx).sender !in todo && Dead(SlotOf(tx).sender, tx)
    }

    lemma NoneDoomed(before: Accounts)
      ensures forall t :: !Doomed(before, before.Keys, t)
    {
    }

    lemma DoomedStep(before: Accounts, todo: set<Address>, a: Address)
      requires WellKept(before) && a in todo
      ensures forall t :: Doomed(before, todo - {a}, t) <==>
        Doomed(before, todo, t) || (t in ListOf(before, a).Values && Dead(a, t))
    {
      KeptKeyed(before, a);
      hide Dead, WellKept;
      forall t: Transaction | Holds(before, t) && SlotOf(t).sender == a ensures t in ListOf(before, a).Values {
        assert ListOf(before, a)[t.nonce] == t;
      }
    }

    // ---------- Truncation ----------

    lemma PendingKeyed()
      requires Valid()
      ensures AllKeyed(pending) && AllKeyed(queue)
    {
      forall a ensures Keyed(ListOf(pending, a)) && Keyed(ListOf(queue, a)) {
        KeptKeyed(pending, a);
        KeptKeyed(queue, a);
      }
    }

    /** No tracked nonce is beyond one cut since `start`. */
    ghost predicate Lowered(start: Accounts)
      reads this`pending, this`pendingNonces, this`currentState
    {
      Below(start, pending, pendingNonces, currentState)
    }

    /** Cuts the highest nonce off an account's pending list and off the pool. */
    method CutLast(a: Address, ghost start: Accounts)
      requires Valid() && Len(pending, a) > 1 && Lowered(start)
      modifies this`pending, this`pendingNonces, all, priced
      ensures Valid() && all.Hashes() <= old(all.Hashes()) && Lowered(start)
      ensures OneShorter(old(pending), pending, {a}) && Total(pending) == old(Total(pending)) - 1
    {
      hide Inv, SetList, Splits, Enumerates, Lowest, Total, ListOf, TxLookup.Hashes, NonceIn, Below;
      KeyedLists(a, {}, {});
      var items := ListOf(pending, a);
      var caps, rest; ghost var out;
      caps, rest, out := ListOps.Cap(items, |items| - 1);
      LowestLength(items, |items| - 1);
      DropFromPending(a, caps, rest, out);
      CutIsOneShorter(old(pending), a);
      LowerNonces(a, caps);
      BelowStep(start, old(pending), a, caps, out, rest, old(pendingNonces), pendingNonces, currentState);
      NoteRemoved(|caps|, {});
    }

    method LowerNonces(a: Address, caps: seq<Transaction>)
      requires Valid()
      modifies this`pendingNonces
      ensures Valid()
      ensures forall b :: b != a ==>
        NonceIn(pendingNonces, currentState, b) == NonceIn(old(pendingNonces), currentState, b)
      ensures PendingNonce(a) <= old(PendingNonce(a)) && forall t :: t in caps ==> PendingNonce(a) <= t.nonce
    {
      for i := 0 to |caps|
        invariant Valid()
        invariant forall b :: b != a ==>
          NonceIn(pendingNonces, currentState, b) == NonceIn(old(pendingNonces), currentState, b)
        invariant PendingNonce(a) <= old(PendingNonce(a)) && forall t :: t in caps[..i] ==> PendingNonce(a) <= t.nonce
      {
        LowerPendingNonce(a, caps[i].nonce);
      }
    }

    /** Cuts the highest nonce off each of several accounts. */
    method CutRound(offenders: seq<Address>, count: nat, ghost start: Accounts) returns (left: nat)
      requires Valid() && count == Total(pending) && Lowered(start)
      requires forall i, j :: 0 <= i < j < |offenders| ==> offenders[i] != offenders[j]
      requires forall i :: 0 <= i < |offenders| ==> Len(pending, offenders[i]) > 1
      modifies this`pending, this`pendingNonces, all, priced
      ensures Valid() && all.Hashes() <= old(all.Hashes()) && Lowered(start)
      ensures OneShorter(old(pending), pending, Members(offenders))
      ensures left == Total(pending) && left + |offenders| == count
    {
      hide Inv, SetList, Lowest, Total, OneShorter, ListOf, TxLookup.Hashes, Len, Lowered;
      left := count;
      ghost var before := pending;
      assert Members(offenders[..0]) == {};
      NoneShorter(pending);
      for i := 0 to |offenders|
        invariant Valid() && all.Hashes() <= old(all.Hashes()) && Lowered(start)
        invariant OneShorter(before, pending, Members(offenders[..i]))
        invariant left == Total(pending) && left + i == count
      {
        ghost var mid := pending;
        var a := offenders[i];
        assert Members(offenders[..i + 1]) == Members(offenders[..i]) + {a};
        assert a !in Members(offenders[..i]);
        SameLength(before, mid, Members(offenders[..i]), a);
        CutLast(a, start);
        OneShorterStep(before, mid, pending, Members(offenders[..i]), a);
        TotalIsNatural(pending);
        left := left - 1;
      }
      assert offenders[..|offenders|] == offenders;
    }

    /** Brings the earlier offenders down to the length of the last, or until the pool fits. */
    method Equalize(ghost before: Accounts, offenders: seq<Address>, ghost spammers: set<Address>, ghost level: nat,
                    threshold: nat, count: nat)
      returns (left: nat, ghost level': nat)
      requires Valid() && count == Total(pending) && AllKeyed(before) && |offenders| > 1
      requires Levelled(before, pending, locals, config.accountSlots, offenders, spammers, level, threshold)
      requires Needed(before, pending, config.globalSlots) && Lowered(before)
      modifies this`pending, this`pendingNonces, all, priced
      ensures Valid() && all.Hashes() <= old(all.Hashes())
      ensures Levelled(before, pending, locals, config.accountSlots, offenders, spammers, level', threshold)
      ensures left == Total(pending) && (left > config.globalSlots ==> level' == threshold)
      ensures Needed(before, pending, config.globalSlots) && Lowered(before)
    {
      hide Inv, Total, Needed, OneShorter, Lowest, AllKeyed, TxLookup.Hashes, Lowered;
      left, level' := count, level;
      while left > config.globalSlots && |ListOf(pending, offenders[|offenders| - 2])| > threshold
        invariant Valid() && all.Hashes() <= old(all.Hashes()) && left == Total(pending)
        invariant Levelled(before, pending, locals, config.accountSlots, offenders, spammers, level', threshold)
        invariant Needed(before, pending, config.globalSlots) && Lowered(before)
        decreases left
      {
        ghost var ls := pending;
        var earlier := offenders[..|offenders| - 1];
        assert forall i :: 0 <= i < |earlier| ==> earlier[i] == offenders[i];
        left := CutRound(earlier, left, before);
        RoundNeeded(before, ls, pending, earlier, config.globalSlots);
        RoundKeepsLevel(before, ls, pending, locals, config.accountSlots, offenders, spammers, level', threshold);
        level' := level' - 1;
      }
    }

    /** Brings all offenders down together, until the pool fits or they are at their guaranteed slots. */
    method CutAll(ghost before: Accounts, offenders: seq<Address>, ghost level: nat, count: nat)
      returns (left: nat, ghost level': nat)
      requires Valid() && count == Total(pending) && AllKeyed(before) && |offenders| > 0
      requires Levelled(before, pending, locals, config.accountSlots, offenders, {}, level, level)
      requires Needed(before, pending, config.globalSlots) && Lowered(before)
      modifies this`pending, this`pendingNonces, all, priced
      ensures Valid() && all.Hashes() <= old(all.Hashes())
      ensures Levelled(before, pending, locals, config.accountSlots, offenders, {}, level', level')
      ensures left == Total(pending) && (left > config.globalSlots ==> level' == config.accountSlots)
      ensures Needed(before, pending, config.globalSlots) && Lowered(before)
    {
      hide Inv, Total, Needed, OneShorter, Lowest, AllKeyed, TxLookup.Hashes, Lowered;
      left, level' := count, level;
      while left > config.globalSlots && |ListOf(pending, offenders[|offenders| - 1])| > config.accountSlots
        invariant Valid() && all.Hashes() <= old(all.Hashes()) && left == Total(pending)
        invariant Levelled(before, pending, locals, config.accountSlots, offenders, {}, level', level')
        invariant Needed(before, pending, config.globalSlots) && Lowered(before)
        decreases left
      {
        ghost var ls := pending;
        left := CutRound(offenders, left, before);
        RoundNeeded(before, ls, pending, offenders, config.globalSlots);
        RoundKeepsEven(before, ls, pending, locals, config.accountSlots, offenders, level');
        level' := level' - 1;
      }
    }

    /**
     Takes the spammers one by one, the longest first, and brings those taken so far down to the
     length of the last, until the pool fits or no spammer is left.
     */
    method LevelSpammers(ghost before: Accounts, everyone: set<Address>, priority: map<Address, nat>,
                         ghost start: nat, total: nat)
      returns (offenders: seq<Address>, count: nat, ghost spammers: set<Address>, ghost level: nat, ghost last: nat)
      requires Valid() && total == Total(pending) && AllKeyed(before)
      requires everyone == priority.Keys && forall a :: a in priority ==> priority[a] == Len(before, a)
      requires Levelled(before, pending, locals, config.accountSlots, [], everyone, start, start)
      requires Needed(before, pending, config.globalSlots) && Lowered(before)
      modifies this`pending, this`pendingNonces, all, priced
      ensures Valid() && all.Hashes() <= old(all.Hashes())
      ensures Levelled(before, pending, locals, config.accountSlots, offenders, spammers, level, last)
      ensures count == Total(pending) && (count > config.globalSlots ==> level == last && spammers == {})
      ensures Needed(before, pending, config.globalSlots) && Lowered(before)
    {
      hide Inv, Total, Needed, AllKeyed, TxLookup.Hashes, Lowered, Levelled, Len;
      var waiting := everyone;
      offenders, count, level, last := [], total, start, start;
      while count > config.globalSlots && waiting != {}
        invariant Valid() && all.Hashes() <= old(all.Hashes()) && count == Total(pending)
        invariant waiting <= priority.Keys
        invariant Levelled(before, pending, locals, config.accountSlots, offenders, waiting, level, last)
        invariant count > config.globalSlots ==> level == last
        invariant Needed(before, pending, config.globalSlots) && Lowered(before)
        decreases |waiting|
      {
        ghost var longest := LongestExists(before, waiting);
        var a :| a in waiting && forall b :: b in waiting ==> priority[b] <= priority[a];
        NextOffender(before, pending, locals, config.accountSlots, offenders, waiting, level, a);
        level := if |offenders| > 0 then level else Len(before, a);
        last := Len(before, a);
        offenders, waiting := offenders + [a], waiting - {a};
        if |offenders| > 1 {
          var threshold := LengthOf(a);
          count, level := Equalize(before, offenders, waiting, level, threshold, count);
        }
      }
      spammers := waiting;
    }

    method LengthOf(a: Address) returns (k: nat)
      ensures k == Len(pending, a)
    {
      k := |ListOf(pending, a)|;
    }

    /**
     Cuts the pending lists back when the pool holds too many: fairly, no more than needed, and
     until the pool fits or nobody but local accounts exceeds the guaranteed slots.
     */
    method TruncatePending()
      requires Valid()
      modifies this`pending, this`pendingNonces, all, priced
      ensures Valid() && all.Hashes() <= old(all.Hashes())
      ensures Fair(old(pending), pending, locals, config.accountSlots)
      ensures
        || Total(pending) <= config.globalSlots
        || forall a :: a !in locals ==> Len(pending, a) <= config.accountSlots
      ensures Total(old(pending)) <= config.globalSlots ==> pending == old(pending)
      ensures Needed(old(pending), pending, config.globalSlots) && Lowered(old(pending))
    {
      hide Inv, Total, AllKeyed, TxLookup.Hashes, Levelled, Fair;
      ghost var before := pending;
      PendingKeyed();
      var count := CountAll(pending);
      var slots := config.accountSlots;
      var spammers := set a | a in pending && a !in locals && |pending[a]| > slots;
      NothingCut(before, locals, slots, spammers);
      if count <= config.globalSlots {
        LevelledIsFair(before, pending, locals, slots, [], spammers, slots, slots);
        return;
      }
      var priority := map a | a in spammers :: |pending[a]|;
      var offenders; ghost var waiting, level, last;
      offenders, count, waiting, level, last := LevelSpammers(before, spammers, priority, slots, count);
      hide Needed, Len;
      if count > config.globalSlots && |offenders| > 0 {
        count, level := CutAll(before, offenders, level, count);
        last := level;
      }
      LevelledIsFair(before, pending, locals, slots, offenders, waiting, level, last);
      if count > config.globalSlots {
        AllWithinSlots(before, pending, locals, slots, offenders, level);
      }
    }

    /** Removes all queued transactions of an account, lowest nonce first. */
    method DropQueued(a: Address)
      requires Valid()
      modifies this`pending, this`queue, this`pendingNonces, all, priced
      ensures Valid() && all.Hashes() <= old(all.Hashes()) && pending == old(pending)
      ensures queue == SetList(old(queue), a, map[])
    {
      hide Inv, SetList, TxLookup.Hashes, Lists, Listing;
      KeyedLists(a, {}, {});
      var items := ListOf(queue, a);
      var txs := ListOps.Flatten(items);
      ListingLists(items);
      QueueSame(a);
      ghost var left := items;
      for i := 0 to |txs|
        invariant Valid() && all.Hashes() <= old(all.Hashes()) && pending == old(pending)
        invariant queue == SetList(old(queue), a, left) && Lists(txs[i..], left)
        invariant forall n :: n in left ==> Filed(left[n], Slot(a, n))
      {
        SetTwice(old(queue), a, left, left - {txs[i].nonce});
        ShortenFront(txs[i..], left);
        HeldThere(queue, a, txs[i]);
        RemoveTx(HashOf(txs[i]), true, {});
        assert txs[i..][1..] == txs[i + 1..];
        left := left - {txs[i].nonce};
      }
      ListsEmpty([], left);
    }

    /** Removes the `excess` highest nonces of an account's queue, highest first. */
    method DropHighest(a: Address, excess: nat)
      requires Valid() && excess < Len(queue, a)
      modifies this`pending, this`queue, this`pendingNonces, all, priced
      ensures Valid() && all.Hashes() <= old(all.Hashes()) && pending == old(pending)
      ensures queue == SetList(old(queue), a, Lowest(ListOf(old(queue), a), Len(old(queue), a) - excess))
    {
      hide Inv, SetList, TxLookup.Hashes, Lists, Listing, Lowest;
      KeyedLists(a, {}, {});
      var items := ListOf(queue, a);
      var txs := ListOps.Flatten(items);
      QueueSame(a);
      LowestAll(items);
      IsListingLength(items);
      for i := 0 to excess
        invariant Valid() && all.Hashes() <= old(all.Hashes()) && pending == old(pending)
        invariant queue == SetList(old(queue), a, Lowest(items, |items| - i))
      {
        var k := |items| - i;
        SetTwice(old(queue), a, Lowest(items, k), Lowest(items, k - 1));
        LowestStep(items, k);
        LowestFiled(items, a, k);
        HeldThere(queue, a, txs[k - 1]);
        RemoveTx(HashOf(txs[k - 1]), true, {});
      }
    }

    lemma QueueSame(a: Address)
      requires Valid()
      ensures SetList(queue, a, ListOf(queue, a)) == queue
    {
    }

    /**
     Drops queued transactions beyond the limit. Of the accounts that are not local those active
     last come first; local accounts keep everything.
     */
    method TruncateQueue(beats: map<Address, nat>) returns (ghost order: seq<Address>)
      requires Valid()
      modifies this`pending, this`queue, this`pendingNonces, all, priced
      ensures Valid() && all.Hashes() <= old(all.Hashes()) && pending == old(pending)
      ensures Arranges(order, old(queue).Keys - locals, beats)
      ensures queue == Trim(old(queue), order, Excess(old(queue), config.globalQueue))
    {
      hide Inv, SetList, TxLookup.Hashes, Lowest, Total, Trim, Arranges;
      var queued := CountAll(queue);
      var addresses := ByHeartbeat(queue.Keys - locals, beats);
      order := addresses;
      ghost var target := Trim(queue, order, Excess(queue, config.globalQueue));
      TrimUnfold(queue, order, 0);
      if queued <= config.globalQueue { return; }
      var drop: nat := queued - config.globalQueue;
      while drop > 0 && |addresses| > 0
        invariant Valid() && all.Hashes() <= old(all.Hashes()) && pending == old(pending)
        invariant target == Trim(queue, addresses, drop)
        decreases |addresses|
      {
        TrimUnfold(queue, addresses, drop);
        var a := addresses[|addresses| - 1];
        addresses := addresses[..|addresses| - 1];
        var size := |ListOf(queue, a)|;
        if size <= drop {
          DropQueued(a);
          drop := drop - size;
        } else {
          DropHighest(a, drop);
          drop := 0;
          TrimUnfold(queue, addresses, 0);
        }
      }
      TrimUnfold(queue, addresses, drop);
    }

    /** The queue is within its limit or holds local accounts only. */
    ghost predicate QueueFits()
      reads this`queue, this`locals
    {
      Total(queue) <= config.globalQueue || forall a :: Len(queue, a) > 0 ==> a in locals
    }

    /** The pending lists are within their limit or nobody but local accounts exceeds the guaranteed slots. */
    ghost predicate PendingFits()
      reads this`pending, this`locals
    {
      Total(pending) <= config.globalSlots || forall a :: a !in locals ==> Len(pending, a) <= config.accountSlots
    }

    // ---------- Price and nonces ----------

    /** Raises or lowers the minimum price and drops the remote transactions below it. */
    method SetGasPrice(price: nat)
      requires Valid()
      modifies this`settings, this`pending, this`queue, this`pendingNonces, all, priced
      ensures Valid() && settings == old(settings).(gasPrice := price)
      ensures forall h :: h in all.Hashes() <==>
        h in old(all.Hashes()) && !(h in old(all.remotes) && h.tx.gasPrice < price)
    {
      settings := settings.(gasPrice := price);
      var drop := CapPrices(price);
      hide Inv;
      KickOut(drop);
    }

    method CapPrices(price: nat) returns (drop: seq<Transaction>)
      requires Valid()
      modifies priced
      ensures Inv({}, set t | t in drop)
      ensures forall h: Hash :: h.tx in drop <==> h in all.remotes && h.tx.gasPrice < price
    {
      hide Consistent, Sum;
      drop := priced.Cap(price);
      assert forall h: Hash :: HashOf(h.tx) == h;
    }

    /** The next nonce is the one behind the highest pending one. */
    ghost predicate Continues(a: Address)
      reads this`pending, this`pendingNonces, this`currentState
    {
      a in pending ==>
        && PendingNonce(a) > 0 && PendingNonce(a) - 1 in pending[a]
        && forall n :: n in pending[a] ==> n < PendingNonce(a)
    }

    /** After a reorganisation every account with pending transactions continues behind the highest. */
    method UpdateNonces()
      requires Valid()
      modifies this`pendingNonces
      ensures Valid()
      ensures forall a :: Continues(a)
      ensures forall a :: a !in pending ==> PendingNonce(a) == old(PendingNonce(a))
    {
      hide Inv, Continues, PendingNonce;
      var todo := pending.Keys;
      NoneContinues();
      while todo != {}
        invariant Valid() && todo <= pending.Keys
        invariant forall a :: a !in todo ==> Continues(a)
        invariant forall a :: a !in pending ==> PendingNonce(a) == old(PendingNonce(a))
        decreases |todo|
      {
        var a :| a in todo;
        UpdateNonce(a);
        todo := todo - {a};
      }
    }

    lemma NoneContinues()
      ensures forall a :: a !in pending ==> Continues(a)
    {
    }

    method UpdateNonce(a: Address)
      requires Valid() && a in pending
      modifies this`pendingNonces
      ensures Valid() && Continues(a)
      ensures forall b :: b != a ==> PendingNonce(b) == old(PendingNonce(b)) && (old(Continues(b)) ==> Continues(b))
    {
      hide Consistent, Sum;
      var highest := LastPending(a);
      pendingNonces := pendingNonces[a := highest.nonce + 1];
    }

    // ---------- A whole reorganisation ----------

    /** Adopts the state and gas limit of a new head and forgets the nonces tracked so far. */
    method AdoptState(state: World, maxGas: nat)
      requires Valid()
      modifies this`currentState, this`pendingNonces, this`settings
      ensures Valid() && currentState == state && pendingNonces == map[]
      ensures settings == old(settings).(maxGas := maxGas)
    {
      hide Consistent, Sum;
      currentState, pendingNonces, settings := state, map[], settings.(maxGas := maxGas);
    }

    method AdoptForks(istanbul: bool, eip2718: bool)
      requires Valid()
      modifies this`settings
      ensures Valid() && settings == old(settings).(istanbul := istanbul, eip2718 := eip2718)
    {
      hide Consistent, Sum;
      settings := settings.(istanbul := istanbul, eip2718 := eip2718);
    }

    /** Adopts the state behind a new head and takes back what the old chain had included. */
    method Reset(head: Head)
      requires Valid()
      modifies this, all, priced
      ensures Valid() && currentState == head.state && expectedAckNonce == old(expectedAckNonce)
      ensures settings ==
        old(settings).(maxGas := head.maxGas, istanbul := head.istanbul, eip2718 := head.eip2718)
      ensures locals == old(locals) && forall h :: h in all.Hashes() ==> h in old(all.Hashes()) || h.tx in head.reinject
      ensures head.reinject == [] ==> pending == old(pending) && queue == old(queue) && pendingNonces == map[]
    {
      hide Inv, Placed, ValidateAck, SentBy, OnceEach, Sum, TxLookup.Hashes;
      AdoptState(head.state, head.maxGas);
      for i := 0 to |head.reinject|
        invariant Valid() && currentState == head.state && expectedAckNonce == old(expectedAckNonce)
        invariant settings == old(settings).(maxGas := head.maxGas)
        invariant locals == old(locals)
        invariant forall h :: h in all.Hashes() ==> h in old(all.Hashes()) || h.tx in head.reinject[..i]
        invariant i == 0 ==> pending == old(pending) && queue == old(queue) && pendingNonces == map[]
      {
        var replaced, err;
        ghost var drop;
        replaced, err, drop := Add(head.reinject[i], false);
      }
      AdoptForks(head.istanbul, head.eip2718);
    }

    /** Every pending list can be executed from its start. */
    ghost predicate AllRunning()
      reads this`pending, this`expectedAckNonce, this`currentState, this`settings
    {
      forall a :: Executing(a, ListOf(pending, a))
    }

    method Demote()
      requires Valid()
      modifies this`pending, this`queue, all, priced
      ensures Valid() && AllRunning()
      ensures forall a :: ListOf(pending, a) == Executable(a, ListOf(old(pending), a))
    {
      hide Inv, Executable, Doomed, Executing, ListOf;
      PendingKeyed();
      AllExecuting();
      DemoteUnexecutables();
    }

    /** Brings pending and queued lists within their limits. */
    method Truncate(beats: map<Address, nat>)
      requires Valid()
      modifies this`pending, this`queue, this`pendingNonces, all, priced
      ensures Valid() && PendingFits() && QueueFits()
      ensures old(AllRunning()) ==> AllRunning()
      ensures Fair(old(pending), pending, locals, config.accountSlots)
    {
      hide Inv, Fair, Needed, Trim, Total, Excess, QueueFits, Executing, ListOf, Arranges, TxLookup.Hashes, Trimmed;
      PendingKeyed();
      ghost var full := pending;
      TruncatePending();
      StillExecuting(full);
      PendingKeyed();
      ghost var before := queue;
      ghost var order := TruncateQueue(beats);
      QueueTruncated(before, order, beats);
    }

    // ---------- The transaction to be acked next ----------

    /** Is this the transaction that the node would ack next for its sender? */
    predicate NextToAck(tx: Transaction)
      reads this`expectedAckNonce
    {
      tx.signer.Some? && tx.nonce == ExpectedNonce(expectedAckNonce, SlotOf(tx).sender)
    }

    /** After a reset it is pending if it was, or if it was queued and the state's nonce has come up to it. */
    ghost predicate NextDue(p: Accounts, q: Accounts, tx: Transaction)
      requires NextToAck(tx)
      reads this`expectedAckNonce, this`currentState, this`settings
    {
      var a := SlotOf(tx).sender;
      !Dead(a, tx) && (Holds(p, tx) || (Holds(q, tx) && tx.nonce <= NonceOf(currentState, a)))
    }

    /** Of a queued list it is live unless it is dead, and then it is the first. */
    lemma NextIsFirst(items: Items, tx: Transaction)
      requires Keyed(items) && NextToAck(tx) && tx.nonce in items && items[tx.nonce] == tx
      ensures var live := Live(items, SlotOf(tx).sender, false);
        && (forall n :: n in live ==> tx.nonce <= n)
        && (tx.nonce in live <==> !Dead(SlotOf(tx).sender, tx))
        && (tx.nonce in live ==> live[tx.nonce] == tx)
    {
      hide TxList.Costly;
    }

    lemma FirstIsReady(live: Items, n: nat, start: nat)
      requires n in live && forall m :: m in live ==> n <= m
      ensures n in Upto(live, ReadyEnd(live, start)) <==> n <= start
    {
      assert MinKey(live.Keys) == n;
    }

    /** It is promoted exactly when it is not dead and the tracked nonce has come up to it. */
    lemma NextReady(q: Accounts, nonces: map<Address, nat>, tx: Transaction)
      requires WellKept(q) && NextToAck(tx)
      ensures var a := SlotOf(tx).sender; var readies := Readies(q, nonces, a);
        tx.nonce in readies && readies[tx.nonce] == tx <==>
          Holds(q, tx) && !Dead(a, tx) && tx.nonce <= NonceIn(nonces, currentState, a)
    {
      var a := SlotOf(tx).sender;
      var items := ListOf(q, a);
      KeptKeyed(q, a);
      var live := Live(items, a, false);
      assert forall n :: n in live ==> n in items && live[n] == items[n];
      if Holds(q, tx) {
        NextIsFirst(items, tx);
        hide Live, Dead, ReadyEnd;
        if tx.nonce in live {
          FirstIsReady(live, tx.nonce, NonceIn(nonces, currentState, a));
        }
      }
    }

    lemma {:induction false} ReadiesOfAll(q: Accounts, nonces: map<Address, nat>, accounts: seq<Address>,
                                          tx: Transaction)
      ensures tx in AllReadies(q, nonces, accounts) <==>
        exists a :: a in accounts && tx in Listing(Readies(q, nonces, a))
    {
      hide Readies, Listing;
      if accounts != [] {
        var k := |accounts| - 1;
        ReadiesOfAll(q, nonces, accounts[..k], tx);
        assert accounts == accounts[..k] + [accounts[k]];
      }
    }

    lemma ReadyUnder(q: Accounts, nonces: map<Address, nat>, a: Address, tx: Transaction)
      requires WellKept(q)
      ensures tx in Listing(Readies(q, nonces, a)) <==>
        tx.nonce in Readies(q, nonces, a) && Readies(q, nonces, a)[tx.nonce] == tx
      ensures tx in Listing(Readies(q, nonces, a)) ==> tx.signer.Some? && SlotOf(tx).sender == a
    {
      KeptKeyed(q, a);
      var readies := Readies(q, nonces, a);
      assert forall n :: n in readies ==> n in ListOf(q, a) && readies[n] == ListOf(q, a)[n];
      hide Readies, Listing;
      ListingLists(readies);
    }

    /** Promotion of all queued accounts. */
    lemma NextPromoted(q: Accounts, nonces: map<Address, nat>, accounts: seq<Address>, tx: Transaction)
      requires WellKept(q) && NextToAck(tx) && forall a :: a in accounts <==> a in q
      ensures tx in AllReadies(q, nonces, accounts) <==>
        && Holds(q, tx) && !Dead(SlotOf(tx).sender, tx)
        && tx.nonce <= NonceIn(nonces, currentState, SlotOf(tx).sender)
    {
      hide Readies, Listing, AllReadies, Dead, NextToAck;
      var a := NextSender(tx);
      ReadiesOfAll(q, nonces, accounts, tx);
      NextReady(q, nonces, tx);
      forall b ensures tx in Listing(Readies(q, nonces, b)) ==> b == a && a in q {
        ReadyUnder(q, nonces, b, tx);
        if a !in q { NothingReady(q, nonces, a); }
      }
      ReadyUnder(q, nonces, a, tx);
    }

    /** It stays pending through a demotion exactly when it is not dead. */
    lemma NextStays(items: Items, tx: Transaction)
      requires Keyed(items) && NextToAck(tx)
      ensures var a := SlotOf(tx).sender; var rest := Executable(a, items);
        tx.nonce in rest && rest[tx.nonce] == tx <==>
          tx.nonce in items && items[tx.nonce] == tx && !Dead(a, tx)
    {
      hide TxList.Costly;
      var a := SlotOf(tx).sender;
      var current := From(items, tx.nonce);
      PayableNotCostly(current, BalanceOf(currentState, a), settings.maxGas);
    }

    /** No truncation takes the first of a list. */
    lemma NextKept(before: Accounts, after: Accounts, tx: Transaction)
      requires AllKeyed(before) && Fair(before, after, locals, config.accountSlots) && NextToAck(tx)
      requires Executing(SlotOf(tx).sender, ListOf(before, SlotOf(tx).sender))
      ensures Holds(after, tx) <==> Holds(before, tx)
    {
      var a := SlotOf(tx).sender;
      var items, k := ListOf(before, a), Len(after, a);
      assert Keyed(items) by { KeyedIn(before, a); }
      hide Dead, Lowest;
      if WasCut(before, after, a) {
        LowestSub(items, k);
        if tx.nonce in items { LowestKeepsFirst(items, k, tx.nonce); }
      } else {
        LowestAll(items);
      }
    }

    ghost function NextSender(tx: Transaction): (a: Address)
      requires NextToAck(tx)
      reads this`expectedAckNonce
      ensures tx.signer.Some? && a == SlotOf(tx).sender
    {
      SlotOf(tx).sender
    }

    lemma BothWellKept()
      requires Valid()
      ensures WellKept(pending) && WellKept(queue) && AllKeyed(pending)
    {
      PendingKeyed();
    }

    /** A promotion, a demotion and a truncation together. */
    lemma NextFollows(p: Accounts, q: Accounts, p1: Accounts, p2: Accounts, accounts: seq<Address>, tx: Transaction)
      requires NextToAck(tx) && WellKept(q) && AllKeyed(p1) && AllKeyed(p2) && forall a :: a in accounts <==> a in q
      requires Holds(p1, tx) <==> Holds(p, tx) || tx in AllReadies(q, map[], accounts)
      requires forall a :: ListOf(p2, a) == Executable(a, ListOf(p1, a)) && Executing(a, ListOf(p2, a))
      requires Fair(p2, pending, locals, config.accountSlots)
      ensures Holds(pending, tx) <==> NextDue(p, q, tx)
    {
      hide AllReadies, Fair, Executing, Executable, Dead, NextToAck, WellKept, AllKeyed;
      var a := NextSender(tx);
      NextPromoted(q, map[], accounts, tx);
      assert Keyed(ListOf(p1, a)) by { KeyedIn(p1, a); }
      NextStays(ListOf(p1, a), tx);
      HoldsIn(p1, tx);
      HoldsIn(p2, tx);
      assert Executing(a, ListOf(p2, a));
      NextKept(p2, pending, tx);
    }

    lemma AllFollow(p: Accounts, q: Accounts, p1: Accounts, p2: Accounts, accounts: seq<Address>)
      requires WellKept(q) && AllKeyed(p1) && AllKeyed(p2) && forall a :: a in accounts <==> a in q
      requires forall tx :: Holds(p1, tx) <==> Holds(p, tx) || tx in AllReadies(q, map[], accounts)
      requires forall a :: ListOf(p2, a) == Executable(a, ListOf(p1, a)) && Executing(a, ListOf(p2, a))
      requires Fair(p2, pending, locals, config.accountSlots)
      ensures forall tx :: NextToAck(tx) ==> (Holds(pending, tx) <==> NextDue(p, q, tx))
    {
      hide AllReadies, Fair, Executing, Executable, NextToAck, WellKept, AllKeyed, Holds, ListOf, NextDue;
      forall tx | NextToAck(tx) ensures Holds(pending, tx) <==> NextDue(p, q, tx) {
        NextFollows(p, q, p1, p2, accounts, tx);
      }
    }

    lemma AllRun()
      requires AllRunning()
      ensures forall a :: Executing(a, ListOf(pending, a))
    {
    }

    /** Promotes, demotes and truncates until the pool is in order again. */
    method RunReorg(reset: Option<Head>, dirty: seq<Address>, beats: map<Address, nat>)
      returns (promoted: seq<Transaction>)
      requires Valid()
      modifies this, all, priced
      ensures Valid() && PendingFits() && QueueFits() && forall a :: Continues(a)
      ensures reset.Some? ==> AllRunning()
      ensures reset.Some? && reset.value.reinject == [] ==>
        && expectedAckNonce == old(expectedAckNonce) && currentState == reset.value.state
        && forall tx :: NextToAck(tx) ==> (Holds(pending, tx) <==> NextDue(old(pending), old(queue), tx))
    {
      hide Inv, Continues, PendingNonce, PendingFits, QueueFits, AllRunning, TxLookup.Hashes, Fair, Executable;
      hide NextToAck, NextDue, Holds, AllReadies, Remainder, Arranges, ListOf, Different, Executing, WellKept, AllKeyed;
      ghost var p, q := pending, queue;
      var accounts := dirty;
      if reset.Some? {
        Reset(reset.value);
        accounts := ByHeartbeat(queue.Keys, map[]);
        AllDifferent(accounts, queue.Keys);
      }
      BothWellKept();
      promoted := PromoteExecutables(accounts);
      ghost var p1 := pending;
      BothWellKept();
      if reset.Some? {
        Demote();
        AllRun();
      }
      ghost var p2 := pending;
      BothWellKept();
      Truncate(beats);
      UpdateNonces();
      if reset.Some? && reset.value.reinject == [] {
        AllFollow(p, q, p1, p2, accounts);
      }
    }

    /** A local ack moves the nonce that is expected next. */
    method SetExpected(a: Address, nonce: nat)
      requires Valid()
      modifies this`expectedAckNonce
      ensures Valid() && expectedAckNonce == old(expectedAckNonce)[a := nonce + 1]
    {
      hide Consistent, Sum;
      expectedAckNonce := expectedAckNonce[a := nonce + 1];
    }

    /** A block about to be processed brings its state along. */
    method SetState(state: World)
      requires Valid()
      modifies this`currentState
      ensures Valid() && currentState == state
    {
      hide Consistent, Sum;
      currentState := state;
    }

    /** After any sequence of operations all indices agree. */
    method Operate(ops: seq<Operation>)
      requires Valid()
      modifies this, all, priced
      ensures Valid()
    {
      for i := 0 to |ops|
        invariant Valid()
      {
        hide Inv, Placed, ValidateAck, Holds, SetList, PendingFits, QueueFits, Continues, AllRunning;
        match ops[i] {
          case AddTx(tx, local) => {
            var replaced, err;
            ghost var drop;
            replaced, err, drop := Add(tx, local);
          }
          case DropTx(hash) => RemoveTx(hash, true, {});
          case Acked(account, nonce) => SetExpected(account, nonce);
          case Processing(state) => SetState(state);
          case Reprice(price) => SetGasPrice(price);
          case Reorganise(reset, dirty, beats) => { var promoted := RunReorg(reset, dirty, beats); }
        }
      }
    }

    /** A pending list starts at the next nonce to ack and holds nothing dead. */
    ghost predicate Executing(a: Address, items: Items)
      reads this`expectedAckNonce, this`currentState, this`settings
    {
      items != map[] ==>
        && ExpectedNonce(expectedAckNonce, a) in items
        && forall n :: n in items ==> n >= ExpectedNonce(expectedAckNonce, a) && !Dead(a, items[n])
    }

    lemma AllExecuting()
      requires AllKeyed(pending)
      ensures forall a :: Executing(a, Executable(a, ListOf(pending, a)))
    {
      hide Executable, Executing, AllKeyed;
      forall a ensures Executing(a, Executable(a, ListOf(pending, a))) {
        assert Keyed(ListOf(pending, a)) by { KeyedIn(pending, a); }
        ExecutableExecuting(a, ListOf(pending, a));
      }
    }

    lemma ExecutableExecuting(a: Address, items: Items)
      requires Keyed(items)
      ensures Executing(a, Executable(a, items))
    {
      hide TxList.Costly, TxList.Payable, TxList.Unpayable;
      var list := From(items, ExpectedNonce(expectedAckNonce, a));
      PayableNotCostly(list, BalanceOf(currentState, a), settings.maxGas);
    }

    lemma StillExecuting(full: Accounts)
      requires AllKeyed(full) && Fair(full, pending, locals, config.accountSlots)
      ensures forall a :: Executing(a, ListOf(full, a)) ==> Executing(a, ListOf(pending, a))
    {
      hide Executing, Lowest;
      forall a | Executing(a, ListOf(full, a)) ensures Executing(a, ListOf(pending, a)) {
        if WasCut(full, pending, a) {
          CutExecuting(a, ListOf(full, a), Len(pending, a));
        } else {
          LowestAll(ListOf(full, a));
        }
      }
    }

    lemma CutExecuting(a: Address, items: Items, k: nat)
      requires Keyed(items) && Executing(a, items) && 0 < k < |items|
      ensures Executing(a, Lowest(items, k))
    {
      hide Dead, Lists;
      LowestKeepsFirst(items, k, ExpectedNonce(expectedAckNonce, a));
      hide Listing;
    }

    lemma QueueTruncated(before: Accounts, order: seq<Address>, beats: map<Address, nat>)
      requires AllKeyed(before) && Arranges(order, before.Keys - locals, beats)
      requires queue == Trim(before, order, Excess(before, config.globalQueue))
      ensures QueueFits()
      ensures Total(queue) >= Total(before) - Excess(before, config.globalQueue)
      ensures Trimmed(before, queue, order) && forall a :: a in locals ==> ListOf(queue, a) == ListOf(before, a)
    {
      hide Total, Lowest, Trim;
      TrimSound(before, order, Excess(before, config.globalQueue));
      forall a | Len(queue, a) > 0 && a !in order ensures a in locals {
        assert ListOf(before, a) == ListOf(queue, a);
      }
    }

    /** Safe because no list that is kept is empty. */
    method LastPending(a: Address) returns (tx: Transaction)
      requires Valid() && a in pending
      ensures tx.nonce in pending[a] && pending[a][tx.nonce] == tx && forall n :: n in pending[a] ==> n <= tx.nonce
    {
      KeyedLists(a, {}, {});
      NoListEmpty(a);
      hide Inv;
      tx := ListOps.LastElement(pending[a]);
    }

    lemma NoListEmpty(a: Address)
      requires Valid() && a in pending
      ensures pending[a] != map[]
    {
    }
  }

  /** Taking the first off a listing takes its nonce off the map. */
  lemma ShortenFront(txs: seq<Transaction>, items: Items)
    requires Lists(txs, items) && |txs| > 0
    ensures txs[0].nonce in items && items[txs[0].nonce] == txs[0]
    ensures Lists(txs[1..], items - {txs[0].nonce})
  {
    assert txs[0] in txs;
    forall t | t in txs[1..] ensures t in txs && t.nonce > txs[0].nonce {
      var i :| 0 <= i < |txs[1..]| && txs[1..][i] == t;
      assert txs[i + 1] == t;
    }
    forall t | t in txs ensures t == txs[0] || t in txs[1..] {
      var i :| 0 <= i < |txs| && txs[i] == t;
      if i > 0 { assert txs[1..][i - 1] == t; }
    }
  }

  lemma HeldThere(ls: Accounts, a: Address, tx: Transaction)
    requires tx.nonce in ListOf(ls, a) && ListOf(ls, a)[tx.nonce] == tx && Filed(tx, Slot(a, tx.nonce))
    ensures Holds(ls, tx) && HashOf(tx).tx == tx
  {
  }

  lemma LowestFiled(items: Items, a: Address, k: nat)
    requires k <= |items| && forall n :: n in items ==> Filed(items[n], Slot(a, n))
    ensures forall n :: n in Lowest(items, k) ==> Filed(Lowest(items, k)[n], Slot(a, n))
  {
  }

  lemma IsListingLength(items: Items)
    requires Keyed(items)
    ensures |Listing(items)| == |items|
  {
    ListingLists(items);
    ListsLength(Listing(items), items);
  }

  lemma KeyedIn(ls: Accounts, a: Address)
    requires AllKeyed(ls)
    ensures Keyed(ListOf(ls, a))
  {
  }

  /** A strict filter leaves nothing costly. */
  lemma PayableNotCostly(items: Items, costLimit: int, gasLimit: nat)
    ensures var rest := TxList.Payable(items, true, costLimit, gasLimit);
      forall n :: n in rest ==> n in items && rest[n] == items[n] && !TxList.Costly(rest[n], costLimit, gasLimit)
  {
    hide TxList.Costly;
    var out := TxList.Unpayable(items, costLimit, gasLimit);
    assert forall n :: n in items ==> (n in out <==> TxList.CostlyFn(costLimit, gasLimit)(items[n]));
  }

  lemma HoldsIn(ls: Accounts, tx: Transaction)
    requires tx.signer.Some?
    ensures var items := ListOf(ls, SlotOf(tx).sender);
      Holds(ls, tx) <==> tx.nonce in items && items[tx.nonce] == tx
  {
  }

  lemma AllDifferent(accounts: seq<Address>, all: set<Address>)
    requires Arranges(accounts, all, map[])
    ensures Different(accounts) && forall a :: a in accounts <==> a in all
  {
  }

  lemma LowestSub(items: Items, k: nat)
    requires k <= |items|
    ensures forall n :: n in Lowest(items, k) ==> n in items && Lowest(items, k)[n] == items[n]
  {
  }

  /** The lowest nonce is the last to be cut. */
  lemma LowestKeepsFirst(items: Items, k: nat, first: nat)
    requires Keyed(items) && 0 < k <= |items| && first in items && forall n :: n in items ==> n >= first
    ensures first in Lowest(items, k)
  {
    hide Listing;
    ListingLists(items);
    var txs := Listing(items);
    LowestLists(items, k);
    var i :| 0 <= i < |txs| && txs[i] == items[first];
    assert txs[0] in txs;
    assert txs[..k][0] == txs[0];
  }

  lemma CutIsOneShorter(ls: Accounts, a: Address)
    requires Keyed(ListOf(ls, a)) && Len(ls, a) > 1
    ensures var rest := Lowest(ListOf(ls, a), Len(ls, a) - 1); var ls' := SetList(ls, a, rest);
      OneShorter(ls, ls', {a}) && Total(ls') == Total(ls) - 1
  {
    hide Lowest, Total;
    var rest := Lowest(ListOf(ls, a), Len(ls, a) - 1);
    LowestLength(ListOf(ls, a), Len(ls, a) - 1);
    SetTwice(ls, a, rest, rest);
    TotalAfterSet(ls, a, rest);
  }

  /** Two of the three parts taken out together. */
  lemma PartsOut(items: Items, a: Address, out: seq<Transaction>, back: seq<Transaction>,
                 outItems: Items, backItems: Items, rest: Items)
    requires Keyed(items) && forall n :: n in items ==> Filed(items[n], Slot(a, n))
    requires TxList.Partition(items, outItems, backItems, rest)
    requires Enumerates(out, outItems) && Enumerates(back, backItems)
    ensures var gone := outItems + backItems;
      && Splits(items, gone, rest)
      && (forall t :: t in out ==> t in gone.Values && t !in back)
      && (forall t :: t in back ==> t in gone.Values && t !in out && t.signer.Some?)
      && (forall t :: t in gone.Values ==> t in out || t in back)
    ensures forall i, j :: 0 <= i < j < |out| ==> out[i] != out[j]
    ensures forall i, j :: 0 <= i < j < |back| ==> back[i] != back[j]
  {
    var gone := outItems + backItems;
    forall t | t in out ensures t in gone.Values && t !in back {
      assert gone[t.nonce] == t;
    }
    forall t | t in back ensures t in gone.Values && t !in out && t.signer.Some? {
      assert gone[t.nonce] == t;
    }
  }

  lemma AllOut(items: Items, rest: Items, out: Items)
    requires Keyed(items) && Splits(items, out, rest)
    requires rest == if |items| <= 0 then items else Lowest(items, 0)
    ensures rest == map[] && TxList.Partition(items, map[], out, rest)
  {
  }

  /** What `Forward` and `Filter` drop together are the dead transactions of the list. */
  lemma DeadAreDropped(items: Items, nonce: nat, olds: seq<Transaction>, drops: seq<Transaction>, balance: int,
                       maxGas: nat)
    requires Keyed(items) && Enumerates(olds, Upto(items, nonce))
    requires Enumerates(drops, TxList.Unpayable(From(items, nonce), balance, maxGas))
    ensures forall t :: t in olds || t in drops <==>
      t in items.Values && (t.nonce < nonce || TxList.Costly(t, balance, maxGas))
  {
    hide TxList.Costly;
    var list := From(items, nonce);
    var out := TxList.Unpayable(list, balance, maxGas);
    assert forall n :: n in out <==> n in list && TxList.CostlyFn(balance, maxGas)(list[n]);
    forall t | t in items.Values && (t.nonce < nonce || TxList.Costly(t, balance, maxGas))
      ensures t in olds || t in drops
    {
      var n :| n in items && items[n] == t;
      assert n < nonce ==> Upto(items, nonce)[n] == t;
      assert n >= nonce ==> out[n] == t;
    }
    forall t | t in olds || t in drops
      ensures t in items.Values && (t.nonce < nonce || TxList.Costly(t, balance, maxGas))
    {
      assert items[t.nonce] == t;
    }
  }

  lemma NoList(ls: Accounts)
    ensures forall a :: a !in ls ==> ListOf(ls, a) == map[]
  {
  }

  lemma PlainFilterSplits(items: Items, costLimit: int, gasLimit: nat)
    ensures Splits(
      items, TxList.Unpayable(items, costLimit, gasLimit), TxList.Payable(items, false, costLimit, gasLimit))
  {
    TxList.FilterPartitions(items, false, costLimit, gasLimit);
  }

  lemma ReadyFiled(items: Items, a: Address, ready: seq<Transaction>, end: nat)
    requires forall n :: n in items ==> Filed(items[n], Slot(a, n))
    requires Enumerates(ready, Upto(items, end))
    ensures forall t :: t in ready ==> t in Upto(items, end).Values && t.signer.Some? && SlotOf(t).sender == a
    ensures forall i, j :: 0 <= i < j < |ready| ==> ready[i] != ready[j]
    ensures (set t | t in ready) == Upto(items, end).Values
  {
    ListOps.EnumeratedValues(ready, Upto(items, end));
    forall t | t in ready ensures t.signer.Some? && SlotOf(t).sender == a {
      assert t.nonce in items && items[t.nonce] == t;
    }
  }

  /** After a slot was emptied, filling it is the same as overwriting it. */
  lemma AfterEvict(items: Items, a: Address, tx: Transaction, before: Accounts, after: Accounts)
    requires items == ListOf(before, a)
    requires after == if tx.nonce in items then SetList(before, a, items - {tx.nonce}) else before
    ensures !Occupied(after, Slot(a, tx.nonce))
    ensures SetList(after, a, ListOf(after, a)[tx.nonce := tx]) == SetList(before, a, items[tx.nonce := tx])
  {
    if tx.nonce in items {
      assert ListOf(after, a) == items - {tx.nonce};
      assert (items - {tx.nonce})[tx.nonce := tx] == items[tx.nonce := tx];
    }
  }

  /** What is taken out with a pending transaction is that transaction and what lies behind it. */
  lemma BehindTx(items: Items, tx: Transaction, a: Address, invalids: seq<Transaction>)
    requires Keyed(items) && tx.nonce in items && items[tx.nonce] == tx
    requires forall n :: n in items ==> Filed(items[n], Slot(a, n))
    requires Enumerates(invalids, From(items, tx.nonce + 1))
    ensures var out := From(items, tx.nonce);
      && Splits(items, out, Upto(items, tx.nonce))
      && tx in out.Values
      && out.Values - {tx} - (set t | t in invalids) == {}
      && (forall t :: t in invalids ==> t in out.Values && t != tx && t.signer.Some?)
      && (forall i, j :: 0 <= i < j < |invalids| ==> invalids[i] != invalids[j])
  {
    var out := From(items, tx.nonce);
    assert out[tx.nonce] == tx;
    forall t | t in invalids ensures t in out.Values && t != tx && t.signer.Some? {
      assert out[t.nonce] == t;
    }
    forall t | t in out.Values && t != tx ensures t in invalids {
      var n :| n in out && out[n] == t;
      assert n in From(items, tx.nonce + 1) && From(items, tx.nonce + 1)[n] == t;
    }
  }
}
