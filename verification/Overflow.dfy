/**
 A pool above its limits: a transaction that left and came back has two entries in the price heap,
 and making room counts its slots twice.
 */
module Overflow {
  import opened Types
  import opened Sums
  import opened Gas
  import opened Ledger
  import opened PoolIndex
  import opened Lookup
  import opened PricedList
  import opened TxPool
  import opened NonceMap
  import Heap

  /** A pool of four slots that takes any price and holds remote transactions only. */
  ghost predicate Small(pool: TxPool)
    reads pool, pool.all, pool.priced
  {
    && pool.Valid() && pool.all.locals == map[]
    && pool.config.globalSlots + pool.config.globalQueue == 4
    && pool.settings == LENIENT && pool.currentState == map[]
    && pool.locals == {} && pool.expectedAckNonce == map[]
  }

  /** A transaction that takes two slots. */
  function Large(): Transaction { Remote(4, 9).(size := TX_SLOT_SIZE + 1) }

  lemma PassesChecks(tx: Transaction)
    requires tx.gas == 21000 && tx.to == Some(External(0)) && tx.data == [] && tx.accessList.None? && tx.value == 0
    requires tx.signer.Some? && tx.kind == 0 && tx.nonce == 0 && tx.size <= TX_MAX_SIZE
    ensures ValidateAck(LENIENT, map[], map[], tx, false).None?
  {
    assert DataGas([], true) == 0;
  }

  lemma Sizes(key: nat, price: nat)
    ensures NumSlots(Remote(key, price)) == 1 && NumSlots(Large()) == 2
  {
  }

  /** What a pool makes of a small transaction of a new sender. */
  lemma IsNew(pool: TxPool, tx: Transaction)
    requires Small(pool) && |pool.all.remotes| < 4 && tx.signer.Some? && tx == Remote(tx.signer.value, tx.gasPrice)
    requires forall h :: h in pool.all.remotes ==> h.tx.signer != tx.signer
    ensures pool.Valid() && pool.IsNewRemote(tx) && !pool.Full(tx)
    ensures !Occupied(pool.pending, SlotOf(tx)) && !Occupied(pool.queue, SlotOf(tx))
    ensures HashOf(tx) !in pool.all.Hashes() && pool.all.Hashes() == pool.all.remotes.Keys
    ensures ValidateAck(
      pool.settings, pool.currentState, pool.expectedAckNonce, tx, false || SentBy(pool.locals, tx)).None?
  {
    hide Sum, NumSlots, Consistent, Occupied, Heap.IsHeap, ValidateAck;
    PassesChecks(tx);
    Sizes(tx.signer.value, tx.gasPrice);
    pool.SlotTaken(tx);
    assert HashOf(tx).tx == tx;
  }

  /** Adds a transaction to a pool that has room for it. */
  method AddRemote(pool: TxPool, tx: Transaction)
    requires Small(pool) && |pool.all.remotes| < 4 && tx.signer.Some? && tx == Remote(tx.signer.value, tx.gasPrice)
    requires forall h :: h in pool.all.remotes ==> h.tx.signer != tx.signer
    modifies pool, pool.all, pool.priced
    ensures Small(pool)
    ensures pool.all.remotes == old(pool.all.remotes)[HashOf(tx) := tx] && pool.priced.stales == old(pool.priced.stales)
    ensures |pool.priced.remotes| == |old(pool.priced.remotes)| + 1
    ensures multiset(pool.priced.remotes)[tx] == multiset(old(pool.priced.remotes))[tx] + 1
  {
    hide ValidateAck, Placed, Discarded, Sum, NumSlots, Occupied, SentBy, HashesOf, SameSlot, RefusedFull, OnceEach;
    hide TxPool.Need, TxPool.Full, TxPool.Inv, TxPool.IsNewRemote, TxLookup.Hashes, Entered, Remote;
    IsNew(pool, tx);
    var replaced, err;
    ghost var drop, p, q, heap, remotes := [], pool.pending, pool.queue, pool.priced.remotes, pool.all.remotes;
    replaced, err, drop := pool.Add(tx, false);
    PlacedFree(p, q, pool.pending, pool.queue, pool.config.priceBump, tx, replaced, err);
    EnteredOnce(heap, pool.priced.remotes, remotes, pool.all.remotes, tx);
    NoLocals(pool);
  }

  lemma EnteredOnce(heap: seq<Transaction>, heap': seq<Transaction>, remotes: map<Hash, Transaction>,
                    remotes': map<Hash, Transaction>, tx: Transaction)
    requires Entered(heap, heap', remotes, remotes', tx, false)
    ensures |heap'| == |heap| + 1 && multiset(heap')[tx] == multiset(heap)[tx] + 1
    ensures remotes' == remotes[HashOf(tx) := tx] && remotes'.Keys == remotes.Keys + {HashOf(tx)}
  {
    assert |multiset(heap')| == |heap'|;
  }

  lemma PlacedFree(p: Accounts, q: Accounts, p': Accounts, q': Accounts, bump: nat, tx: Transaction,
                   replaced: bool, err: Option<Error>)
    requires tx.signer.Some? && Placed(p, q, p', q', bump, tx, replaced, err)
    requires !Occupied(p, SlotOf(tx)) && !Occupied(q, SlotOf(tx))
    ensures err.None?
  {
  }

  lemma NoLocals(pool: TxPool)
    requires pool.Valid() && pool.all.Hashes() == pool.all.remotes.Keys
    ensures pool.all.locals == map[]
  {
    hide Sum, Consistent, Heap.IsHeap;
    assert forall h :: h in pool.all.locals ==> h in pool.all.Hashes();
  }

  /** Four remote transactions fill the pool. */
  method FillUp() returns (pool: TxPool, cheap: Transaction)
    ensures fresh(pool) && fresh(pool.all) && fresh(pool.priced) && Small(pool) && cheap == Remote(0, 1)
    ensures pool.all.remotes.Keys == Others() + {HashOf(cheap)}
    ensures multiset(pool.priced.remotes)[cheap] >= 1 && |pool.priced.remotes| == 4 && pool.priced.stales == 0
  {
    hide Small, TxPool.Inv, TxPool.Valid;
    pool := new TxPool(Config(10, 1, 2, 2, 2), LENIENT, map[], {});
    StartsSmall(pool);
    AddRemote(pool, Remote(1, 5));
    AddRemote(pool, Remote(2, 5));
    AddRemote(pool, Remote(3, 5));
    cheap := Remote(0, 1);
    AddRemote(pool, cheap);
  }

  lemma StartsSmall(pool: TxPool)
    requires pool.Valid() && pool.all.locals == map[] && pool.config == Config(10, 1, 2, 2, 2)
    requires pool.settings == LENIENT && pool.currentState == map[]
    requires pool.locals == {} && pool.expectedAckNonce == map[]
    ensures Small(pool)
  {
    hide TxPool.Inv;
  }

  /** With few stale entries the entry of a transaction that leaves stays in the heap. */
  method DropRemote(pool: TxPool, tx: Transaction)
    requires Small(pool) && pool.priced.stales + 1 <= |pool.priced.remotes| / 4
    modifies pool, pool.all, pool.priced
    ensures Small(pool) && pool.all.remotes == old(pool.all.remotes) - {HashOf(tx)}
    ensures pool.priced.remotes == old(pool.priced.remotes)
  {
    hide Consistent, Sum, Holds, SetList, Upto, Heap.IsHeap;
    pool.RemoveTx(HashOf(tx), true, {});
  }

  /** The cheapest leaves and comes back. */
  method ComeBackToPool() returns (pool: TxPool, cheap: Transaction)
    ensures Small(pool) && cheap == Remote(0, 1) && multiset(pool.priced.remotes)[cheap] >= 2
    ensures pool.all.remotes.Keys == Others() + {HashOf(cheap)}
    ensures fresh(pool) && fresh(pool.all) && fresh(pool.priced)
  {
    hide Small;
    pool, cheap := FillUp();
    DropRemote(pool, cheap);
    AddRemote(pool, cheap);
  }

  function Others(): set<Hash> { {HashOf(Remote(1, 5)), HashOf(Remote(2, 5)), HashOf(Remote(3, 5))} }

  lemma SlotsUsed(cheap: Transaction)
    requires cheap == Remote(0, 1)
    ensures Sum(Others() + {HashOf(cheap)}, SlotsOf()) == 4 && Sum(Others() + {HashOf(Large())}, SlotsOf()) == 5
    ensures HashOf(cheap) !in Others() && |Others() + {HashOf(cheap)}| == 4
  {
    hide Sum, NumSlots;
    Sizes(0, 1);
    Sizes(1, 5);
    Sizes(2, 5);
    Sizes(3, 5);
    var x, y, z := HashOf(Remote(1, 5)), HashOf(Remote(2, 5)), HashOf(Remote(3, 5));
    SumEmpty(SlotsOf());
    assert {} + {x} == {x} && {x} + {y} == {x, y} && {x, y} + {z} == Others();
    SumAdd({}, SlotsOf(), x);
    SumAdd({x}, SlotsOf(), y);
    SumAdd({x, y}, SlotsOf(), z);
    SumAdd(Others(), SlotsOf(), HashOf(cheap));
    SumAdd(Others(), SlotsOf(), HashOf(Large()));
    assert |{x, y, z}| == 3;
  }

  /** None of them stands in the way of the large one or is as dear. */
  lemma NoReason(cheap: Transaction, remotes: map<Hash, Transaction>)
    requires cheap == Remote(0, 1) && remotes.Keys == Others() + {HashOf(cheap)}
    ensures HashOf(Large()) !in remotes && forall h :: h in remotes ==> !SameSlot(h.tx, Large())
    ensures forall e :: !RefusedFull(e, remotes, 2, remotes.Keys, Large())
  {
    hide Sum, SameSlot, Others;
    SlotsUsed(cheap);
    OtherSenders(cheap);
    assert HashOf(cheap) in remotes && HashOf(cheap).tx.gasPrice < Large().gasPrice;
  }

  lemma OtherSenders(cheap: Transaction)
    requires cheap == Remote(0, 1)
    ensures forall h :: h in Others() + {HashOf(cheap)} ==> h != HashOf(Large()) && !SameSlot(h.tx, Large())
  {
  }

  /** The pool is full, needs two slots, and has no reason to refuse. */
  lemma Crowded(pool: TxPool, cheap: Transaction)
    requires Small(pool) && cheap == Remote(0, 1) && pool.all.remotes.Keys == Others() + {HashOf(cheap)}
    ensures pool.Valid() && pool.Full(Large()) && pool.Need(Large()) == 2
    ensures pool.all.Hashes() == pool.all.remotes.Keys && HashOf(Large()) !in pool.all.Hashes()
    ensures forall h :: h in pool.all.Hashes() ==> !SameSlot(h.tx, Large())
    ensures forall e :: !RefusedFull(e, pool.all.remotes, 2, pool.all.Hashes(), Large())
    ensures ValidateAck(
      pool.settings, pool.currentState, pool.expectedAckNonce, Large(), false || SentBy(pool.locals, Large())).None?
  {
    hide Sum, NumSlots, Consistent, Heap.IsHeap, ValidateAck, RefusedFull, Others;
    SlotsUsed(cheap);
    NoReason(cheap, pool.all.remotes);
    Sizes(0, 1);
    PassesChecks(Large());
    assert pool.all.Hashes() == pool.all.remotes.Keys;
    assert |pool.all.remotes| == |pool.all.remotes.Keys|;
  }

  lemma CountsTwice(entries: seq<Transaction>, there: set<Hash>, cheap: Transaction, drop: seq<Transaction>,
                    left: seq<Transaction>)
    requires cheap == Remote(0, 1) && there == Others() + {HashOf(cheap)} && multiset(entries)[cheap] >= 2
    requires Discarded(entries, there, 2, drop, left)
    ensures HashesOf(drop) == {HashOf(cheap)}
  {
    hide SlotSum, NumSlots, LiveEntries;
    Sizes(0, 1);
    EntriesSuffice(entries, there, cheap);
    if SlotSum(drop) < 2 {
      TakenAll(entries, there, drop, left);
    }
    TakesBoth(entries, there, cheap, drop, left);
  }

  /**
   Room for one that takes two slots is then made by dropping the cheapest, which has two entries,
   and the pool ends up above its limits.
   */
  method OverTheLimit() returns (pool: TxPool, err: Option<Error>)
    ensures pool.Valid() && err.None? && pool.all.slots > pool.config.globalSlots + pool.config.globalQueue
  {
    hide ValidateAck, Placed, Discarded, Sum, NumSlots, Occupied, SentBy, HashesOf, SameSlot, RefusedFull, OnceEach;
    hide TxPool.Need, TxPool.Full, TxPool.Inv, TxPool.IsNewRemote, TxLookup.Hashes, Entered, Remote, Large;
    var cheap;
    pool, cheap := ComeBackToPool();
    Crowded(pool, cheap);
    var replaced;
    ghost var drop, entries, there := [], pool.priced.remotes, pool.all.remotes.Keys;
    replaced, err, drop := pool.Add(Large(), false);
    ghost var left :| Discarded(entries, there, 2, drop, left);
    CountsTwice(entries, there, cheap, drop, left);
    SlotsUsed(cheap);
    assert there - {HashOf(cheap)} == Others();
    assert pool.all.Hashes() == Others() + {HashOf(Large())};
    pool.SlotsKept({}, {});
  }
}
