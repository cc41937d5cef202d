/**
 An account's list of transactions: replacement by price, and the cost and gas caps that let
 `Filter` skip its scan.
 */
module TxList {
  import opened Types
  import opened NonceMap
  import opened SortedMap

  // ---------- Reference: the same on plain maps ----------

  /** The price a replacement has to reach: the old price raised by `bump` percent, rounded down. */
  function BumpedPrice(price: nat, bump: nat): nat { (100 + bump) * price / 100 }

  predicate Replaces(there: Transaction, tx: Transaction, bump: nat)
  {
    there.gasPrice < tx.gasPrice && BumpedPrice(there.gasPrice, bump) <= tx.gasPrice
  }

  /** May the transaction enter: either its nonce is free or it outbids what is there. */
  predicate Admits(items: Items, tx: Transaction, bump: nat)
  {
    tx.nonce in items ==> Replaces(items[tx.nonce], tx, bump)
  }

  predicate Costly(tx: Transaction, costLimit: int, gasLimit: nat)
  {
    tx.gas > gasLimit || Cost(tx) > costLimit
  }

  function CostlyFn(costLimit: int, gasLimit: nat): Transaction -> bool
  {
    tx => Costly(tx, costLimit, gasLimit)
  }

  function AboveFn(nonce: nat): Transaction -> bool { (tx: Transaction) => tx.nonce > nonce }

  /** What a full scan takes out for its cost. */
  function Unpayable(items: Items, costLimit: int, gasLimit: nat): Items
  {
    Accepting(items, CostlyFn(costLimit, gasLimit))
  }

  /** What a strict list loses besides: everything behind the lowest unpayable nonce. */
  ghost function Invalidated(items: Items, strict: bool, costLimit: int, gasLimit: nat): Items
  {
    var out := Unpayable(items, costLimit, gasLimit);
    if !strict || out == map[] then map[]
    else From(Rejecting(items, CostlyFn(costLimit, gasLimit)), MinKey(out.Keys) + 1)
  }

  ghost function Payable(items: Items, strict: bool, costLimit: int, gasLimit: nat): Items
  {
    var out := Unpayable(items, costLimit, gasLimit);
    if strict && out != map[] then Upto(items, MinKey(out.Keys))
    else Rejecting(items, CostlyFn(costLimit, gasLimit))
  }

  /** Three maps with no nonce in common that together make up a fourth. */
  ghost predicate Partition(all: Items, a: Items, b: Items, c: Items)
  {
    && (forall n :: n in all <==> n in a || n in b || n in c)
    && (forall n :: n in a ==> n in all && all[n] == a[n] && n !in b && n !in c)
    && (forall n :: n in b ==> n in all && all[n] == b[n] && n !in c)
    && (forall n :: n in c ==> n in all && all[n] == c[n])
  }

  /** Unpayable, invalidated and remaining transactions partition the list. */
  lemma FilterPartitions(items: Items, strict: bool, costLimit: int, gasLimit: nat)
    ensures Partition(items, Unpayable(items, costLimit, gasLimit),
                      Invalidated(items, strict, costLimit, gasLimit), Payable(items, strict, costLimit, gasLimit))
  {
    hide Costly, MinKey;
    var out := Unpayable(items, costLimit, gasLimit);
    if strict && out != map[] {
      CutPartitions(items, CostlyFn(costLimit, gasLimit), MinKey(out.Keys));
    }
  }

  /** Taking out what is accepted, then what of the rest lies behind the lowest of it. */
  lemma CutPartitions(items: Items, p: Transaction -> bool, low: nat)
    requires low in Accepting(items, p) && forall n :: n in Accepting(items, p) ==> low <= n
    ensures Partition(items, Accepting(items, p), From(Rejecting(items, p), low + 1), Upto(items, low))
  {
    assert forall n :: n in items ==> (n in Accepting(items, p) <==> p(items[n]));
  }

  // ---------- Gaps ----------

  /** A contiguous strict list stays contiguous under every way of shrinking it. */
  lemma StaysContiguous(items: Items, threshold: nat)
    requires Contiguous(items)
    ensures Contiguous(Upto(items, threshold)) && Contiguous(From(items, threshold))
  {
  }

  lemma FilterKeepsContiguous(items: Items, costLimit: int, gasLimit: nat)
    requires Contiguous(items)
    ensures Contiguous(Payable(items, true, costLimit, gasLimit))
  {
    var out := Unpayable(items, costLimit, gasLimit);
    if out == map[] {
      assert Payable(items, true, costLimit, gasLimit) == items by {
        forall n | n in items ensures !Costly(items[n], costLimit, gasLimit) {
          assert n !in out;
        }
      }
    } else {
      StaysContiguous(items, MinKey(out.Keys));
    }
  }

  /** The lowest `k` of a list are what lies below the nonce listed next. */
  lemma LowestIsUpto(items: Items, k: nat)
    requires Keyed(items) && k < |items|
    ensures Lowest(items, k) == Upto(items, Listing(items)[k].nonce)
  {
    hide Listing;
    ListingLists(items);
    var txs := Listing(items);
    forall n | n in items ensures items[n] in txs[..k] <==> n < txs[k].nonce {
      var i :| 0 <= i < |txs| && txs[i] == items[n];
      if i < k {
        assert txs[..k][i] == items[n];
      }
    }
  }

  lemma CapKeepsContiguous(items: Items, k: nat)
    requires Keyed(items) && Contiguous(items) && k <= |items|
    ensures Contiguous(Lowest(items, k))
  {
    if k < |items| {
      LowestIsUpto(items, k);
      StaysContiguous(items, Listing(items)[k].nonce);
    } else {
      LowestAll(items);
    }
  }

  // ---------- In place ----------

  class TxList {
    const strict: bool
    const txs: TxSortedMap
    var costcap: int
    var gascap: nat

    /** The caps bound every listed transaction. */
    ghost predicate Capped()
      reads this, txs
    {
      forall n :: n in txs.items ==> Cost(txs.items[n]) <= costcap && txs.items[n].gas <= gascap
    }

    ghost predicate Valid()
      reads this, txs
    {
      txs.Valid() && Capped()
    }

    constructor (strict: bool)
      ensures Valid() && fresh(txs) && txs.items == map[] && this.strict == strict
    {
      this.strict := strict;
      txs := new TxSortedMap();
      costcap, gascap := 0, 0;
    }

    /** A list with the given contents, and caps that just bound them. */
    constructor Load(strict: bool, items: Items)
      requires Keyed(items)
      ensures Valid() && fresh(txs) && txs.items == items && this.strict == strict
    {
      this.strict := strict;
      txs := new TxSortedMap.Load(items);
      costcap, gascap := 0, 0;
      new;
      hide Indexes, Lists, Fee;
      var rest := items.Keys;
      while rest != {}
        invariant txs.Valid() && txs.items == items && fresh(txs)
        invariant forall n :: n in items && n !in rest ==> Cost(items[n]) <= costcap && items[n].gas <= gascap
        decreases rest
      {
        var n :| n in rest;
        rest := rest - {n};
        if costcap < Cost(items[n]) { costcap := Cost(items[n]); }
        if gascap < items[n].gas { gascap := items[n].gas; }
      }
    }

    /** Inserts exactly when the nonce is free or the price bump is met, and says what it replaced. */
    method Add(tx: Transaction, bump: nat) returns (inserted: bool, replaced: Option<Transaction>)
      requires Valid()
      modifies this, txs
      ensures Valid()
      ensures inserted <==> Admits(old(txs.items), tx, bump)
      ensures txs.items == if inserted then old(txs.items)[tx.nonce := tx] else old(txs.items)
      ensures replaced == if inserted && tx.nonce in old(txs.items) then Some(old(txs.items)[tx.nonce]) else None
    {
      hide Fee, BumpedPrice;
      replaced := if tx.nonce in txs.items then Some(txs.items[tx.nonce]) else None;
      if replaced.Some? {
        var threshold := BumpedPrice(replaced.value.gasPrice, bump);
        if replaced.value.gasPrice >= tx.gasPrice || tx.gasPrice < threshold { return false, None; }
      }
      txs.Put(tx);
      if costcap < Cost(tx) { costcap := Cost(tx); }
      if gascap < tx.gas { gascap := tx.gas; }
      inserted := true;
    }

    method Forward(threshold: nat) returns (removed: seq<Transaction>)
      requires Valid()
      modifies txs
      ensures Valid()
      ensures txs.items == From(old(txs.items), threshold)
      ensures removed == Listing(Upto(old(txs.items), threshold))
    {
      removed := txs.Forward(threshold);
    }

    /** Whether or not the caps allow skipping it, the outcome is that of the full scan. */
    method Filter(costLimit: int, gasLimit: nat) returns (removed: seq<Transaction>, invalids: seq<Transaction>)
      requires Valid()
      modifies this, txs
      ensures Valid()
      ensures Enumerates(removed, Unpayable(old(txs.items), costLimit, gasLimit))
      ensures Enumerates(invalids, Invalidated(old(txs.items), strict, costLimit, gasLimit))
      ensures txs.items == Payable(old(txs.items), strict, costLimit, gasLimit)
    {
      if costcap <= costLimit && gascap <= gasLimit {
        WithinCaps(txs.items, strict, costcap, gascap, costLimit, gasLimit);
        return [], [];
      }
      removed, invalids := Scan(costLimit, gasLimit);
    }

    method Scan(costLimit: int, gasLimit: nat) returns (removed: seq<Transaction>, invalids: seq<Transaction>)
      requires Valid()
      modifies this, txs
      ensures Valid()
      ensures Enumerates(removed, Unpayable(old(txs.items), costLimit, gasLimit))
      ensures Enumerates(invalids, Invalidated(old(txs.items), strict, costLimit, gasLimit))
      ensures txs.items == Payable(old(txs.items), strict, costLimit, gasLimit)
    {
      hide Accepting, Rejecting, Unpayable, Invalidated, Payable, Enumerates, MinKey, Costly, Indexes, Lists;
      ghost var all := txs.items;
      costcap, gascap := costLimit, gasLimit;
      removed := txs.Filter(CostlyFn(costLimit, gasLimit));
      invalids := [];
      Scanned(all, strict, costLimit, gasLimit);
      EnumeratesNothing(removed, Unpayable(all, costLimit, gasLimit));
      EnumerateEmpty();
      if |removed| == 0 { return; }
      if strict {
        var lowest := LowestNonce(removed, Unpayable(all, costLimit, gasLimit));
        StrictSplit(all, costLimit, gasLimit);
        invalids := txs.FilterOut(AboveFn(lowest));
      }
      txs.Reheap();
    }

    method Cap(threshold: nat) returns (drops: seq<Transaction>)
      requires Valid()
      modifies txs
      ensures Valid()
      ensures |old(txs.items)| <= threshold ==> txs.items == old(txs.items) && drops == []
      ensures |old(txs.items)| > threshold ==>
        && txs.items == Lowest(old(txs.items), threshold)
        && drops == Reversed(Listing(old(txs.items))[threshold..])
    {
      drops := txs.Cap(threshold);
    }

    /** Removing from a strict list also takes out everything behind, and returns that. */
    method Remove(nonce: nat) returns (found: bool, invalids: seq<Transaction>)
      requires Valid()
      modifies txs
      ensures Valid()
      ensures found <==> nonce in old(txs.items)
      ensures txs.items == if strict && found then Upto(old(txs.items), nonce) else old(txs.items) - {nonce}
      ensures Enumerates(invalids, if strict && found then From(old(txs.items), nonce + 1) else map[])
    {
      hide Accepting, Rejecting, Enumerates, Indexes, Lists, Upto, From;
      ghost var all := txs.items;
      invalids := [];
      EnumerateEmpty();
      found := txs.Remove(nonce);
      if found && strict {
        invalids := txs.Filter(AboveFn(nonce));
        RemovedBehind(all, nonce);
      }
    }

    method Ready(start: nat) returns (ready: seq<Transaction>)
      requires Valid()
      modifies txs
      ensures Valid()
      ensures var end := ReadyEnd(old(txs.items), start);
        && txs.items == From(old(txs.items), end)
        && ready == Listing(Upto(old(txs.items), end))
    {
      ready := txs.Ready(start);
    }
  }

  lemma EnumerateEmpty()
    ensures Enumerates([], map[])
  {
  }

  lemma EnumeratesNothing(txs: seq<Transaction>, items: Items)
    requires Enumerates(txs, items)
    ensures txs == [] <==> items == map[]
  {
    if txs != [] { assert txs[0] in txs; }
  }

  lemma WithinCaps(items: Items, strict: bool, costcap: int, gascap: nat, costLimit: int, gasLimit: nat)
    requires Keyed(items) && costcap <= costLimit && gascap <= gasLimit
    requires forall n :: n in items ==> Cost(items[n]) <= costcap && items[n].gas <= gascap
    ensures Enumerates([], Unpayable(items, costLimit, gasLimit))
    ensures Enumerates([], Invalidated(items, strict, costLimit, gasLimit))
    ensures Payable(items, strict, costLimit, gasLimit) == items
  {
    assert Unpayable(items, costLimit, gasLimit) == map[];
  }

  /** The loop that looks for the lowest removed nonce. */
  method LowestNonce(removed: seq<Transaction>, ghost out: Items) returns (lowest: nat)
    requires Enumerates(removed, out) && |removed| > 0
    ensures out != map[] && lowest == MinKey(out.Keys)
  {
    lowest := removed[0].nonce;
    for i := 1 to |removed|
      invariant forall j :: 0 <= j < i ==> lowest <= removed[j].nonce
      invariant exists j :: 0 <= j < i && removed[j].nonce == lowest
    {
      if lowest > removed[i].nonce { lowest := removed[i].nonce; }
    }
    var k :| 0 <= k < |removed| && removed[k].nonce == lowest;
    assert removed[k] in removed;
    forall n | n in out ensures lowest <= n {
      assert out[n] in removed;
    }
  }

  lemma RemovedBehind(all: Items, nonce: nat)
    requires Keyed(all)
    ensures Rejecting(all - {nonce}, AboveFn(nonce)) == Upto(all, nonce)
    ensures Accepting(all - {nonce}, AboveFn(nonce)) == From(all, nonce + 1)
    ensures forall n :: n in Upto(all, nonce) ==> n in all && Upto(all, nonce)[n] == all[n]
  {
  }

  /** What the scan by cost leaves is within the limits, and is the outcome unless the list is strict. */
  lemma Scanned(all: Items, strict: bool, costLimit: int, gasLimit: nat)
    requires Keyed(all)
    ensures Unpayable(all, costLimit, gasLimit) == Accepting(all, CostlyFn(costLimit, gasLimit))
    ensures var rest := Rejecting(all, CostlyFn(costLimit, gasLimit));
      && Keyed(rest)
      && (forall n :: n in rest ==> Cost(rest[n]) <= costLimit && rest[n].gas <= gasLimit)
      && (!strict || Unpayable(all, costLimit, gasLimit) == map[] ==>
            && Payable(all, strict, costLimit, gasLimit) == rest
            && Invalidated(all, strict, costLimit, gasLimit) == map[])
  {
    hide Fee;
  }

  /** Behind the lowest unpayable nonce everything goes, in front of it everything stays. */
  lemma StrictSplit(all: Items, costLimit: int, gasLimit: nat)
    requires Keyed(all) && Unpayable(all, costLimit, gasLimit) != map[]
    ensures var rest := Rejecting(all, CostlyFn(costLimit, gasLimit));
      var above := AboveFn(MinKey(Unpayable(all, costLimit, gasLimit).Keys));
      && Rejecting(rest, above) == Payable(all, true, costLimit, gasLimit)
      && Accepting(rest, above) == Invalidated(all, true, costLimit, gasLimit)
      && Keyed(Rejecting(rest, above))
      && forall n :: n in Rejecting(rest, above) ==> n in rest && Rejecting(rest, above)[n] == rest[n]
  {
    var out := Unpayable(all, costLimit, gasLimit);
    var low := MinKey(out.Keys);
    hide MinKey, Costly;
    assert low in out;
    forall n | n in all && n < low ensures !CostlyFn(costLimit, gasLimit)(all[n]) {
      assert n !in out;
    }
  }
}
