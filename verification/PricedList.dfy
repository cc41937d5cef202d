/**
 A heap of remote transactions by price that is allowed to lag behind the lookup: entries of
 transactions that left are dropped only when they come up.
 */
module PricedList {
  import opened Types
  import opened Sums
  import opened Lookup
  import Heap

  /** Cheaper first; at equal price the higher nonce goes first. */
  function PriceLess(t: Transaction, u: Transaction): bool
  {
    t.gasPrice < u.gasPrice || (t.gasPrice == u.gasPrice && t.nonce > u.nonce)
  }

  lemma PopKeeps(h: seq<Transaction>, x: Transaction, rest: seq<Transaction>)
    requires multiset(rest) == multiset(h) - multiset{x}
    ensures forall t :: t in h && t != x ==> t in rest
    ensures forall t :: t in rest ==> t in h
  {
    assert forall t :: t in h <==> t in multiset(h);
    assert forall t :: t in rest <==> t in multiset(rest);
  }

  function SlotSum(txs: seq<Transaction>): nat
  {
    if txs == [] then 0 else SlotSum(txs[..|txs| - 1]) + NumSlots(txs[|txs| - 1])
  }

  lemma SlotSumSnoc(txs: seq<Transaction>, tx: Transaction)
    ensures SlotSum(txs + [tx]) == SlotSum(txs) + NumSlots(tx)
  {
    assert (txs + [tx])[..|txs|] == txs;
  }

  /** A sequence that contains every transaction of a set takes up at least as many slots. */
  lemma {:induction false} SlotsCovered(txs: seq<Transaction>, hs: set<Hash>)
    requires forall h :: h in hs ==> h.tx in txs
    ensures Sum(hs, SlotsOf()) <= SlotSum(txs)
    decreases |txs|
  {
    if txs == [] {
      assert hs == {};
    } else {
      hide Sum;
      var last, front := txs[|txs| - 1], txs[..|txs| - 1];
      var h := HashOf(last);
      forall g | g in hs && g != h ensures g.tx in front {
        assert g.tx in txs && g.tx != last;
      }
      SlotsCovered(front, hs - {h});
      if h in hs {
        SumRemove(hs, SlotsOf(), h);
      } else {
        assert hs - {h} == hs;
      }
    }
  }

  lemma {:induction false} SlotSumRemove(txs: seq<Transaction>, i: nat)
    requires i < |txs|
    ensures SlotSum(txs) == SlotSum(txs[..i] + txs[i + 1..]) + NumSlots(txs[i])
    decreases |txs|
  {
    var k := |txs| - 1;
    if i == k {
      assert txs[..i] + txs[i + 1..] == txs[..k];
    } else {
      SlotSumRemove(txs[..k], i);
      assert txs[..k][..i] + txs[..k][i + 1..] == (txs[..i] + txs[i + 1..])[..k - 1];
    }
  }

  lemma OneLess(txs: seq<Transaction>, i: nat)
    requires i < |txs|
    ensures multiset(txs) == multiset(txs[..i] + txs[i + 1..]) + multiset{txs[i]}
  {
    assert txs == txs[..i] + [txs[i]] + txs[i + 1..];
  }

  lemma CancelOne<T>(m: multiset<T>, n: multiset<T>, x: T)
    requires m + multiset{x} <= n + multiset{x}
    ensures m <= n
  {
    forall y | y in m ensures m[y] <= n[y] {
      assert (m + multiset{x})[y] <= (n + multiset{x})[y];
    }
  }

  /** A part of the entries takes up no more than all of them. */
  lemma {:induction false} PartFits(part: seq<Transaction>, txs: seq<Transaction>)
    requires multiset(part) <= multiset(txs)
    ensures SlotSum(part) <= SlotSum(txs)
    decreases |part|
  {
    if part != [] {
      var k, last := |part| - 1, part[|part| - 1];
      assert last in multiset(part);
      assert last in multiset(txs);
      var i :| 0 <= i < |txs| && txs[i] == last;
      SlotSumRemove(txs, i);
      OneLess(txs, i);
      OneLess(part, k);
      assert part[..k] + part[k + 1..] == part[..k];
      CancelOne(multiset(part[..k]), multiset(txs[..i] + txs[i + 1..]), last);
      PartFits(part[..k], txs[..i] + txs[i + 1..]);
    }
  }

  // ---------- Room ----------

  ghost function HashesOf(txs: seq<Transaction>): set<Hash> { set t | t in txs :: HashOf(t) }

  /** The entries of transactions that are still there. */
  ghost function LiveEntries(entries: seq<Transaction>, there: set<Hash>): seq<Transaction>
  {
    if entries == [] then [] else
      var rest, last := LiveEntries(entries[..|entries| - 1], there), entries[|entries| - 1];
      if HashOf(last) in there then rest + [last] else rest
  }

  /** No transaction that is still there has two entries. */
  ghost predicate OnceEach(entries: seq<Transaction>, there: set<Hash>)
  {
    forall t :: HashOf(t) in there ==> multiset(entries)[t] <= 1
  }

  /** The live entries are shared out between two sequences. */
  ghost predicate Shared(entries: seq<Transaction>, there: set<Hash>, drop: seq<Transaction>, left: seq<Transaction>)
  {
    forall t :: HashOf(t) in there ==> multiset(entries)[t] == multiset(drop)[t] + multiset(left)[t]
  }

  /**
   What a discard for `slots` slots takes out: the cheapest live entries, no more of them than
   it takes, and all of them if they do not suffice.
   */
  ghost predicate Discarded(entries: seq<Transaction>, there: set<Hash>, slots: int,
                            drop: seq<Transaction>, left: seq<Transaction>)
  {
    && Shared(entries, there, drop, left)
    && (forall t :: t in drop ==> HashOf(t) in there)
    && (forall d, t :: d in drop && t in left ==> !PriceLess(t, d))
    && (drop != [] ==> SlotSum(drop[..|drop| - 1]) < slots)
    && (SlotSum(drop) >= slots || forall t :: t in left ==> HashOf(t) !in there)
  }

  lemma AllLeft(entries: seq<Transaction>, there: set<Hash>)
    ensures Shared(entries, there, [], entries)
  {
  }

  lemma OnceStays(entries: seq<Transaction>, there: set<Hash>, left: seq<Transaction>)
    requires Shared(entries, there, [], left) && OnceEach(entries, there)
    ensures OnceEach(left, there)
  {
  }

  lemma ShareStep(entries: seq<Transaction>, there: set<Hash>, drop: seq<Transaction>,
                  before: seq<Transaction>, left: seq<Transaction>, tx: Transaction)
    requires Shared(entries, there, drop, before)
    requires tx in before && multiset(left) == multiset(before) - multiset{tx}
    ensures Shared(entries, there, if HashOf(tx) in there then drop + [tx] else drop, left)
  {
    assert tx in multiset(before);
  }

  lemma BackAgain(entries: seq<Transaction>, there: set<Hash>, drop: seq<Transaction>,
                  left: seq<Transaction>, after: seq<Transaction>)
    requires Shared(entries, there, drop, left) && multiset(after) == multiset(left) + multiset(drop)
    ensures Shared(entries, there, [], after)
  {
  }

  lemma {:induction false} LiveCounts(entries: seq<Transaction>, there: set<Hash>, t: Transaction)
    ensures multiset(LiveEntries(entries, there))[t] == if HashOf(t) in there then multiset(entries)[t] else 0
  {
    if entries != [] {
      LiveCounts(entries[..|entries| - 1], there, t);
      assert entries == entries[..|entries| - 1] + [entries[|entries| - 1]];
    }
  }

  /** If the live entries do not suffice, all of them were taken. */
  lemma TakenAll(entries: seq<Transaction>, there: set<Hash>, drop: seq<Transaction>, left: seq<Transaction>)
    requires Shared(entries, there, drop, left)
    requires forall t :: t in drop ==> HashOf(t) in there
    requires forall t :: t in left ==> HashOf(t) !in there
    ensures SlotSum(drop) == SlotSum(LiveEntries(entries, there))
  {
    forall t: Transaction ensures multiset(drop)[t] == multiset(LiveEntries(entries, there))[t] {
      LiveCounts(entries, there, t);
      assert t in drop <==> t in multiset(drop);
      assert t in left <==> t in multiset(left);
    }
    assert multiset(drop) == multiset(LiveEntries(entries, there));
    PartFits(drop, LiveEntries(entries, there));
    PartFits(LiveEntries(entries, there), drop);
  }

  lemma DropFits(entries: seq<Transaction>, there: set<Hash>, drop: seq<Transaction>, left: seq<Transaction>)
    requires Shared(entries, there, drop, left)
    requires forall t :: t in drop ==> HashOf(t) in there
    ensures SlotSum(drop) <= SlotSum(LiveEntries(entries, there))
  {
    forall t: Transaction ensures multiset(drop)[t] <= multiset(LiveEntries(entries, there))[t] {
      LiveCounts(entries, there, t);
      assert t in drop <==> t in multiset(drop);
    }
    PartFits(drop, LiveEntries(entries, there));
  }

  ghost predicate NoRepeats(txs: seq<Transaction>) { forall t :: multiset(txs)[t] <= 1 }

  lemma NoRepeatsSnoc(txs: seq<Transaction>, tx: Transaction)
    ensures NoRepeats(txs + [tx]) <==> NoRepeats(txs) && tx !in txs
    ensures HashesOf(txs + [tx]) == HashesOf(txs) + {HashOf(tx)}
    ensures HashOf(tx) in HashesOf(txs) <==> tx in txs
  {
    assert forall t :: multiset(txs + [tx])[t] == multiset(txs)[t] + if t == tx then 1 else 0;
    assert forall t :: t in txs ==> HashOf(t).tx == t;
    assert tx in txs <==> tx in multiset(txs);
    if NoRepeats(txs + [tx]) {
      assert multiset(txs + [tx])[tx] <= 1;
    }
  }

  /** Slots counted entry by entry are the slots of the transactions exactly when none is repeated. */
  lemma {:induction false} RepeatsCountTwice(txs: seq<Transaction>)
    ensures Sum(HashesOf(txs), SlotsOf()) <= SlotSum(txs)
    ensures Sum(HashesOf(txs), SlotsOf()) == SlotSum(txs) <==> NoRepeats(txs)
  {
    if txs == [] {
      assert HashesOf(txs) == {};
    } else {
      hide Sum, NoRepeats, HashesOf;
      var front, last := txs[..|txs| - 1], txs[|txs| - 1];
      RepeatsCountTwice(front);
      NoRepeatsSnoc(front, last);
      assert txs == front + [last];
      if last in front {
        assert HashesOf(front) + {HashOf(last)} == HashesOf(front);
      } else {
        SumAdd(HashesOf(front), SlotsOf(), HashOf(last));
      }
    }
  }

  lemma DropOnce(entries: seq<Transaction>, there: set<Hash>, drop: seq<Transaction>, left: seq<Transaction>)
    requires Shared(entries, there, drop, left) && OnceEach(entries, there)
    requires forall t :: t in drop ==> HashOf(t) in there
    ensures Sum(HashesOf(drop), SlotsOf()) == SlotSum(drop)
  {
    hide Sum, SlotSum;
    forall t: Transaction ensures multiset(drop)[t] <= 1 {
      assert t in drop <==> t in multiset(drop);
    }
    RepeatsCountTwice(drop);
  }

  ghost predicate FreesEnough(entries: seq<Transaction>, there: set<Hash>)
  {
    forall slots: nat, drop, left ::
      Discarded(entries, there, slots, drop, left) && SlotSum(drop) >= slots ==>
        Sum(HashesOf(drop), SlotsOf()) >= slots
  }

  /** Dropping enough entries frees enough slots, whatever is asked for, exactly when no live one is repeated. */
  lemma FreesEnoughIffOnce(entries: seq<Transaction>, there: set<Hash>)
    ensures FreesEnough(entries, there) <==> OnceEach(entries, there)
  {
    hide Sum, SlotSum;
    if OnceEach(entries, there) {
      forall slots: nat, drop, left | Discarded(entries, there, slots, drop, left) && SlotSum(drop) >= slots
        ensures Sum(HashesOf(drop), SlotsOf()) >= slots
      {
        DropOnce(entries, there, drop, left);
      }
    }
    if FreesEnough(entries, there) {
      var drop := LiveEntries(entries, there);
      TakeAllLive(entries, there);
      RepeatsCountTwice(drop);
      forall t: Transaction | HashOf(t) in there ensures multiset(entries)[t] <= 1 {
        LiveCounts(entries, there, t);
      }
    }
  }

  lemma TakeAllLive(entries: seq<Transaction>, there: set<Hash>)
    ensures var drop := LiveEntries(entries, there); Discarded(entries, there, SlotSum(drop), drop, [])
  {
    hide LiveEntries;
    var drop := LiveEntries(entries, there);
    forall t: Transaction
      ensures t in drop ==> HashOf(t) in there
      ensures HashOf(t) in there ==> multiset(entries)[t] == multiset(drop)[t]
    {
      LiveCounts(entries, there, t);
      assert t in drop <==> t in multiset(drop);
    }
    assert Shared(entries, there, drop, []);
  }

  lemma SameMembers(txs: seq<Transaction>, us: seq<Transaction>, vs: seq<Transaction>)
    requires multiset(txs) == multiset(us) + multiset(vs)
    ensures forall t :: t in txs <==> t in us || t in vs
  {
    forall t: Transaction ensures t in txs <==> t in us || t in vs {
      assert t in txs <==> t in multiset(txs);
      assert t in us <==> t in multiset(us);
      assert t in vs <==> t in multiset(vs);
    }
  }

  class TxPricedList {
    const all: TxLookup
    var remotes: seq<Transaction>
    var stales: int

    /** Every remote transaction has an entry, `out` aside; there may be more entries than that. */
    ghost predicate Covers(out: set<Transaction>)
      reads this, all
    {
      forall h :: h in all.remotes && h.tx !in out ==> h.tx in remotes
    }

    ghost predicate Ordered()
      reads this
    {
      Heap.IsHeap(remotes, PriceLess)
    }

    ghost predicate Valid()
      reads this, all
    {
      ByHash(all.remotes) && Ordered() && Covers({})
    }

    constructor (all: TxLookup)
      requires all.remotes == map[]
      ensures Valid() && this.all == all && remotes == [] && stales == 0
    {
      this.all := all;
      remotes, stales := [], 0;
    }

    /** Called right after the transaction entered the lookup. */
    method Put(tx: Transaction, local: bool)
      requires ByHash(all.remotes) && Ordered() && Covers({tx})
      requires local ==> Covers({})
      modifies this`remotes
      ensures Valid()
      ensures multiset(remotes) == multiset(old(remotes)) + if local then multiset{} else multiset{tx}
    {
      if local { return; }
      ghost var before := remotes;
      remotes := Heap.Push(remotes, tx, PriceLess);
      assert forall t :: t in remotes <==> t in multiset(remotes);
      assert forall t :: t in before <==> t in multiset(before);
    }

    method Reheap()
      requires ByHash(all.remotes)
      modifies this
      ensures Valid() && stales == 0
      ensures forall t :: t in remotes ==> HashOf(t) in all.remotes
      ensures OnceEach(remotes, all.remotes.Keys)
    {
      var entries: seq<Transaction> := [];
      var rest := all.remotes.Keys;
      while rest != {}
        invariant rest <= all.remotes.Keys
        invariant forall t :: multiset(entries)[t] == (if HashOf(t) in all.remotes.Keys - rest then 1 else 0)
        decreases rest
      {
        var h :| h in rest;
        rest := rest - {h};
        assert h == HashOf(h.tx);
        entries := entries + [all.remotes[h]];
      }
      stales := 0;
      remotes := Heap.Init(entries, PriceLess);
      assert forall t :: t in remotes <==> t in multiset(remotes);
      assert forall t :: t in entries <==> t in multiset(entries);
    }

    method Removed(count: nat)
      requires ByHash(all.remotes) && Ordered() && Covers({})
      modifies this
      ensures Valid()
      ensures old(stales) + count <= |old(remotes)| / 4 ==> remotes == old(remotes) && stales == old(stales) + count
      ensures old(stales) + count > |old(remotes)| / 4 ==>
        && stales == 0 && OnceEach(remotes, all.remotes.Keys)
        && forall t :: t in remotes ==> HashOf(t) in all.remotes
    {
      stales := stales + count;
      if stales <= |remotes| / 4 { return; }
      Reheap();
    }

    /** Pops the cheapest entry. */
    method PopCheapest() returns (tx: Transaction)
      requires Ordered() && |remotes| > 0
      modifies this`remotes
      ensures Ordered() && |remotes| == |old(remotes)| - 1
      ensures tx == old(remotes)[0] && multiset(remotes) == multiset(old(remotes)) - multiset{tx}
      ensures forall t :: t in old(remotes) ==> t == tx || t in remotes
      ensures forall t :: t in remotes ==> t in old(remotes)
      ensures forall t :: t in old(remotes) ==> !PriceLess(t, tx)
    {
      ghost var before := remotes;
      tx, remotes := Heap.Pop(remotes, PriceLess);
      PopKeeps(before, tx, remotes);
    }

    /** True exactly when there are remote transactions and none is cheaper. */
    method Underpriced(tx: Transaction) returns (r: bool)
      requires Valid()
      modifies this
      ensures Valid()
      ensures r <==> all.remotes != map[] && forall h :: h in all.remotes ==> h.tx.gasPrice >= tx.gasPrice
      ensures Shared(old(remotes), all.remotes.Keys, [], remotes)
    {
      while |remotes| > 0 && HashOf(remotes[0]) !in all.remotes
        invariant Valid()
        invariant Shared(old(remotes), all.remotes.Keys, [], remotes)
        decreases |remotes|
      {
        stales := stales - 1;
        var _ := PopCheapest();
      }
      if |remotes| == 0 {
        assert forall h :: h in all.remotes ==> h.tx in remotes;
        return false;
      }
      var cheapest := remotes[0];
      forall h | h in all.remotes ensures h.tx.gasPrice >= cheapest.gasPrice {
        var i :| 0 <= i < |remotes| && remotes[i] == h.tx;
        Heap.RootIsLeast(remotes, PriceLess, i);
      }
      return cheapest.gasPrice >= tx.gasPrice;
    }

    /** Returns exactly the remote transactions below the threshold; all others keep their entries. */
    method Cap(threshold: nat) returns (drop: seq<Transaction>)
      requires Valid()
      modifies this
      ensures ByHash(all.remotes) && Ordered()
      ensures forall t :: t in drop <==> HashOf(t) in all.remotes && t.gasPrice < threshold
      ensures Covers(set t | t in drop)
    {
      drop := [];
      while |remotes| > 0
        invariant ByHash(all.remotes) && Ordered()
        invariant forall t :: t in drop ==> HashOf(t) in all.remotes && t.gasPrice < threshold
        invariant forall h :: h in all.remotes && h.tx !in drop ==> h.tx in remotes
        decreases |remotes|
      {
        var cheapest := remotes[0];
        if HashOf(cheapest) !in all.remotes {
          var _ := PopCheapest();
          stales := stales - 1;
          continue;
        }
        if cheapest.gasPrice >= threshold {
          forall h | h in all.remotes && h.tx.gasPrice < threshold ensures h.tx in drop {
            if h.tx in remotes {
              var i :| 0 <= i < |remotes| && remotes[i] == h.tx;
              Heap.RootIsLeast(remotes, PriceLess, i);
            }
          }
          break;
        }
        var _ := PopCheapest();
        drop := drop + [cheapest];
      }
      assert forall t :: HashOf(t) in all.remotes ==> HashOf(t).tx == t;
    }

    /** Puts transactions back that were popped for nothing. */
    method PushBack(txs: seq<Transaction>)
      requires ByHash(all.remotes) && Ordered()
      requires forall h :: h in all.remotes ==> h.tx in remotes || h.tx in txs
      modifies this`remotes
      ensures Valid() && multiset(remotes) == multiset(old(remotes)) + multiset(txs)
    {
      hide Heap.IsHeap;
      ghost var before := remotes;
      for i := 0 to |txs|
        invariant Ordered()
        invariant multiset(remotes) == multiset(before) + multiset(txs[..i])
      {
        remotes := Heap.Push(remotes, txs[i], PriceLess);
        assert txs[..i + 1] == txs[..i] + [txs[i]];
      }
      assert txs[..|txs|] == txs;
      SameMembers(remotes, before, txs);
    }

    /**
     Takes out the cheapest remote transactions until enough slots are free. It fails only when
     all of them together would not do, and then they all keep their entries. What it counts are
     entries: the transactions it drops free that many slots if none of them has two.
     */
    method Discard(slots: nat, force: bool) returns (drop: seq<Transaction>, success: bool)
      requires Valid()
      modifies this
      ensures ByHash(all.remotes) && Ordered() && Covers(set t | t in drop)
      ensures success <==> force || SlotSum(LiveEntries(old(remotes), all.remotes.Keys)) >= slots
      ensures success && !force ==> SlotSum(drop) >= slots
      ensures success ==> Discarded(old(remotes), all.remotes.Keys, slots, drop, remotes)
      ensures !success ==>
        && drop == [] && Valid() && Shared(old(remotes), all.remotes.Keys, [], remotes)
        && Sum(all.remotes.Keys, SlotsOf()) < slots
      ensures forall d, h :: d in drop && h in all.remotes && h.tx !in drop ==> h.tx.gasPrice >= d.gasPrice
      ensures success && OnceEach(old(remotes), all.remotes.Keys) ==>
        Sum(HashesOf(drop), SlotsOf()) >= slots || forall h :: h in all.remotes ==> h.tx in drop
      ensures success && !force && OnceEach(old(remotes), all.remotes.Keys) ==>
        Sum(HashesOf(drop), SlotsOf()) >= slots
    {
      hide Sum, SlotSum, LiveEntries, OnceEach, HashesOf, Heap.IsHeap, Shared;
      ghost var there := all.remotes.Keys;
      var need: int;
      drop, need := PopLive(slots);
      DropFits(old(remotes), there, drop, remotes);
      if need > 0 {
        TakenAll(old(remotes), there, drop, remotes);
        SlotsCovered(drop, all.remotes.Keys);
        if !force {
          ghost var left := remotes;
          PushBack(drop);
          BackAgain(old(remotes), there, drop, left, remotes);
          return [], false;
        }
      }
      if OnceEach(old(remotes), there) {
        DropOnce(old(remotes), there, drop, remotes);
      }
      return drop, true;
    }

    /** Pops live entries, and stale ones on the way, until they make up the slots or none is left. */
    method PopLive(slots: nat) returns (drop: seq<Transaction>, need: int)
      requires Valid()
      modifies this
      ensures ByHash(all.remotes) && Ordered() && Discarded(old(remotes), all.remotes.Keys, slots, drop, remotes)
      ensures forall h :: h in all.remotes && h.tx !in drop ==> h.tx in remotes
      ensures need == slots - SlotSum(drop)
      ensures need > 0 ==> remotes == []
    {
      hide SlotSum, Shared, Heap.IsHeap;
      ghost var there := all.remotes.Keys;
      drop, need := [], slots;
      NoSlots();
      AllLeft(remotes, there);
      while |remotes| > 0 && need > 0
        invariant ByHash(all.remotes) && Ordered()
        invariant Shared(old(remotes), there, drop, remotes)
        invariant forall t :: t in drop ==> HashOf(t) in there
        invariant forall d, t :: d in drop && t in remotes ==> !PriceLess(t, d)
        invariant forall h :: h in all.remotes && h.tx !in drop ==> h.tx in remotes
        invariant need == slots - SlotSum(drop)
        invariant drop != [] ==> SlotSum(drop[..|drop| - 1]) < slots
        decreases |remotes|
      {
        ghost var before := remotes;
        var tx := PopCheapest();
        ShareStep(old(remotes), there, drop, before, remotes, tx);
        if HashOf(tx) !in all.remotes {
          stales := stales - 1;
          continue;
        }
        SlotSumSnoc(drop, tx);
        assert (drop + [tx])[..|drop|] == drop;
        drop := drop + [tx];
        need := need - NumSlots(tx);
      }
    }
  }

  lemma NoSlots()
    ensures SlotSum([]) == 0
  {
  }

  // ---------- A transaction that comes back ----------

  lemma {:induction false} SlotPerEntry(txs: seq<Transaction>)
    ensures SlotSum(txs) >= |txs|
  {
    if txs != [] {
      SlotPerEntry(txs[..|txs| - 1]);
    }
  }

  /** A cheapest transaction with two entries is all that a discard for two slots finds. */
  lemma TakesBoth(entries: seq<Transaction>, there: set<Hash>, x: Transaction,
                  drop: seq<Transaction>, left: seq<Transaction>)
    requires Discarded(entries, there, 2, drop, left) && SlotSum(drop) >= 2
    requires HashOf(x) in there && multiset(entries)[x] >= 2 && NumSlots(x) == 1
    requires forall h :: h in there && h.tx != x ==> PriceLess(x, h.tx)
    ensures drop == [x, x]
  {
    hide SlotSum;
    NoSlots();
    SlotPerEntry(drop[..|drop| - 1]);
    assert |drop| <= 2;
    assert x in left <==> x in multiset(left);
    if x in left {
      forall i | 0 <= i < |drop| ensures drop[i] == x {
        assert drop[i] in drop && HashOf(drop[i]).tx == drop[i];
      }
      AllSame(drop, x);
      assert drop[0] in drop && drop[1] in drop;
    } else {
      BothAre(drop, x);
    }
  }

  lemma {:induction false} AllSame(drop: seq<Transaction>, x: Transaction)
    requires forall i :: 0 <= i < |drop| ==> drop[i] == x
    ensures SlotSum(drop) == |drop| * NumSlots(x)
  {
    if drop != [] {
      AllSame(drop[..|drop| - 1], x);
    }
  }

  lemma BothAre(drop: seq<Transaction>, x: Transaction)
    requires |drop| <= 2 && multiset(drop)[x] >= 2
    ensures drop == [x, x]
  {
    assert multiset(drop) == multiset{x, x} by {
      assert multiset{x, x} <= multiset(drop);
      assert |multiset(drop)| == |multiset{x, x}| + |multiset(drop) - multiset{x, x}|;
    }
    assert forall d :: d in drop ==> d in multiset(drop);
    assert |multiset(drop)| == 2;
    assert drop[0] in drop && drop[1] in drop;
  }

  function Remote(key: nat, price: nat): Transaction
  {
    Transaction(0, 1, Some(key), 0, price, 21000, Some(External(0)), 0, [], None)
  }

  method EnterRemote(all: TxLookup, priced: TxPricedList, tx: Transaction)
    requires all.Valid() && priced.Valid() && priced.all == all
    requires HashOf(tx) !in all.locals && HashOf(tx) !in all.remotes
    modifies all, priced`remotes
    ensures all.Valid() && priced.Valid()
    ensures all.locals == old(all.locals) && all.remotes == old(all.remotes)[HashOf(tx) := tx]
    ensures |priced.remotes| == |old(priced.remotes)| + 1
    ensures multiset(priced.remotes)[tx] == multiset(old(priced.remotes))[tx] + 1
    ensures forall t :: t != tx ==> multiset(priced.remotes)[t] == multiset(old(priced.remotes))[t]
  {
    hide Sum, Heap.IsHeap;
    all.Add(tx, false);
    priced.Put(tx, false);
    assert |multiset(priced.remotes)| == |priced.remotes|;
  }

  /** A remote transaction leaves; with few stale entries its own stays in the heap. */
  method LeaveRemote(all: TxLookup, priced: TxPricedList, tx: Transaction)
    requires all.Valid() && priced.Valid() && priced.all == all
    requires priced.stales + 1 <= |priced.remotes| / 4
    modifies all, priced
    ensures all.Valid() && priced.Valid()
    ensures all.locals == old(all.locals) - {HashOf(tx)} && all.remotes == old(all.remotes) - {HashOf(tx)}
    ensures priced.remotes == old(priced.remotes)
  {
    hide Sum, Heap.IsHeap;
    all.Remove(HashOf(tx));
    priced.Removed(1);
  }

  /** A cheap transaction leaves, its entry stays in the heap, and it comes back. */
  method ComeBack() returns (all: TxLookup, priced: TxPricedList, cheap: Transaction)
    ensures all.Valid() && priced.Valid() && priced.all == all && fresh(all) && fresh(priced)
    ensures all.remotes.Keys == {HashOf(cheap), HashOf(Remote(1, 5)), HashOf(Remote(2, 5)), HashOf(Remote(3, 5))}
    ensures cheap == Remote(0, 1) && multiset(priced.remotes)[cheap] == 2
  {
    hide Sum, OnceEach, Heap.IsHeap, TxPricedList.Valid, TxLookup.Valid, TxLookup.Hashes;
    all := new TxLookup();
    priced := new TxPricedList(all);
    cheap := Remote(0, 1);
    EnterRemote(all, priced, cheap);
    EnterRemote(all, priced, Remote(1, 5));
    EnterRemote(all, priced, Remote(2, 5));
    EnterRemote(all, priced, Remote(3, 5));
    LeaveRemote(all, priced, cheap);
    EnterRemote(all, priced, cheap);
  }

  lemma OthersDearer(cheap: Transaction, there: set<Hash>)
    requires cheap == Remote(0, 1)
    requires there == {HashOf(cheap), HashOf(Remote(1, 5)), HashOf(Remote(2, 5)), HashOf(Remote(3, 5))}
    ensures NumSlots(cheap) == 1 && forall h :: h in there && h.tx != cheap ==> PriceLess(cheap, h.tx)
  {
  }

  /** Then a discard for two slots counts it twice and frees one. */
  method DiscardShort() returns (need: nat, freed: int)
    ensures need == 2 && freed == 1
  {
    hide Sum, SlotSum, LiveEntries, Discarded, OnceEach, HashesOf, Shared, Heap.IsHeap, Remote, NumSlots, PriceLess;
    var all, priced, cheap := ComeBack();
    OthersDearer(cheap, all.remotes.Keys);
    var before := all.slots;
    ghost var entries, there, hs := priced.remotes, all.remotes.Keys, all.Hashes();
    EntriesSuffice(entries, there, cheap);
    need := 2;
    var drop, _ := priced.Discard(need, false);
    TakesBoth(entries, there, cheap, drop, priced.remotes);
    for i := 0 to |drop|
      invariant all.Valid() && all.Hashes() == (if i == 0 then hs else hs - {HashOf(cheap)})
    {
      all.Remove(HashOf(drop[i]));
    }
    SumRemove(hs, SlotsOf(), HashOf(cheap));
    freed := before - all.slots;
  }

  lemma EntriesSuffice(entries: seq<Transaction>, there: set<Hash>, x: Transaction)
    requires HashOf(x) in there && multiset(entries)[x] >= 2
    ensures SlotSum(LiveEntries(entries, there)) >= 2
  {
    LiveCounts(entries, there, x);
    SlotPerEntry([x, x]);
    PartFits([x, x], LiveEntries(entries, there));
  }
}
