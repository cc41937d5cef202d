/**
 The list operations as the pool uses them: on the contents of a list, by way of a list object.
 Each says which part it takes out and which it leaves.
 */
module ListOps {
  import opened Types
  import opened NonceMap
  import opened PoolIndex
  import opened TxList

  lemma ListedIsEnumerated(txs: seq<Transaction>, items: Items)
    requires Lists(txs, items)
    ensures Enumerates(txs, items)
  {
  }

  lemma EnumeratedValues(txs: seq<Transaction>, items: Items)
    requires Enumerates(txs, items)
    ensures (set t | t in txs) == items.Values
    ensures forall i, j :: 0 <= i < j < |txs| ==> txs[i] != txs[j]
  {
    forall t | t in items.Values ensures t in txs {
      var n :| n in items && items[n] == t;
    }
    forall t | t in txs ensures t in items.Values {
      assert items[t.nonce] == t;
    }
  }

  lemma PartsSplit(items: Items, threshold: nat)
    ensures Splits(items, Upto(items, threshold), From(items, threshold))
  {
  }

  /** Drops what is below a nonce. */
  method Forward(items: Items, threshold: nat) returns (out: seq<Transaction>, rest: Items)
    requires Keyed(items)
    ensures rest == From(items, threshold) && Keyed(rest)
    ensures Enumerates(out, Upto(items, threshold)) && Splits(items, Upto(items, threshold), rest)
  {
    hide Enumerates, Lists, Upto, From, Splits;
    var l := new TxList.Load(false, items);
    out := l.Forward(threshold);
    rest := l.txs.items;
    KeyedParts(items, threshold);
    PartsSplit(items, threshold);
    ListingLists(Upto(items, threshold));
    ListedIsEnumerated(out, Upto(items, threshold));
  }

  /** Takes out what is executable from `start` on. */
  method Ready(items: Items, start: nat) returns (out: seq<Transaction>, rest: Items, ghost end: nat)
    requires Keyed(items)
    ensures end == ReadyEnd(items, start)
    ensures rest == From(items, end) && Keyed(rest)
    ensures out == Listing(Upto(items, end))
    ensures Enumerates(out, Upto(items, end)) && Splits(items, Upto(items, end), rest)
  {
    hide Enumerates, Lists, Upto, From, Splits;
    var l := new TxList.Load(false, items);
    out := l.Ready(start);
    rest := l.txs.items;
    end := ReadyEnd(items, start);
    KeyedParts(items, end);
    PartsSplit(items, end);
    ListingLists(Upto(items, end));
    ListedIsEnumerated(out, Upto(items, end));
  }

  /** Drops what is too costly; a strict list also loses what is behind. */
  method Filter(items: Items, strict: bool, costLimit: int, gasLimit: nat)
    returns (out: seq<Transaction>, invalids: seq<Transaction>, rest: Items)
    requires Keyed(items)
    ensures rest == Payable(items, strict, costLimit, gasLimit) && Keyed(rest)
    ensures Enumerates(out, Unpayable(items, costLimit, gasLimit))
    ensures Enumerates(invalids, Invalidated(items, strict, costLimit, gasLimit))
    ensures Partition(
      items, Unpayable(items, costLimit, gasLimit), Invalidated(items, strict, costLimit, gasLimit), rest)
  {
    hide Enumerates, Partition, Payable, Unpayable, Invalidated;
    var l := new TxList.Load(strict, items);
    out, invalids := l.Filter(costLimit, gasLimit);
    rest := l.txs.items;
    FilterPartitions(items, strict, costLimit, gasLimit);
  }

  lemma {:induction false} ReversedMembers(txs: seq<Transaction>)
    ensures forall t :: t in Reversed(txs) <==> t in txs
    ensures (forall i, j :: 0 <= i < j < |txs| ==> txs[i].nonce != txs[j].nonce) ==>
      forall i, j :: 0 <= i < j < |Reversed(txs)| ==> Reversed(txs)[i].nonce != Reversed(txs)[j].nonce
  {
    if txs != [] {
      ReversedMembers(txs[1..]);
      var r := Reversed(txs[1..]);
      assert txs == [txs[0]] + txs[1..];
      if forall i, j :: 0 <= i < j < |txs| ==> txs[i].nonce != txs[j].nonce {
        forall i | 0 <= i < |r| ensures r[i].nonce != txs[0].nonce {
          assert r[i] in txs[1..];
          var j :| 0 <= j < |txs[1..]| && txs[1..][j] == r[i];
          assert txs[j + 1] == r[i];
        }
      }
    }
  }

  lemma ReversedEnumerates(txs: seq<Transaction>, items: Items)
    requires Lists(txs, items)
    ensures Enumerates(Reversed(txs), items)
  {
    hide Reversed;
    ReversedMembers(txs);
  }

  lemma CutsAt(items: Items, threshold: nat)
    ensures Cut(items, Upto(items, threshold), From(items, threshold))
  {
  }

  /** A cap cuts the list at the nonce listed in place `k`. */
  lemma CapSplits(items: Items, k: nat)
    requires Keyed(items) && k < |items|
    ensures var cut := Listing(items)[k].nonce;
      && Enumerates(Reversed(Listing(items)[k..]), From(items, cut))
      && Lowest(items, k) == Upto(items, cut)
      && Splits(items, From(items, cut), Upto(items, cut))
  {
    hide Listing, Reversed, Lists, Lowest, Enumerates, Cut;
    var txs := Listing(items);
    var cut := txs[k].nonce;
    ListingLists(items);
    LowestIsUpto(items, k);
    LowestLists(items, k);
    CutsAt(items, cut);
    KeyedParts(items, cut);
    PartsSplit(items, cut);
    ListSuffix(txs, items, txs[..k], Upto(items, cut), From(items, cut));
    ReversedEnumerates(txs[k..], From(items, cut));
  }

  /** Keeps the `threshold` lowest nonces. */
  method Cap(items: Items, threshold: nat) returns (out: seq<Transaction>, rest: Items, ghost outItems: Items)
    requires Keyed(items)
    ensures rest == (if |items| <= threshold then items else Lowest(items, threshold)) && Keyed(rest)
    ensures Enumerates(out, outItems) && Splits(items, outItems, rest)
    ensures |items| <= threshold ==> out == []
  {
    hide Enumerates, Splits, Lowest, Reversed, Listing, Upto, From;
    var l := new TxList.Load(true, items);
    out := l.Cap(threshold);
    rest := l.txs.items;
    if |items| <= threshold {
      outItems := map[];
      EnumerateEmpty();
      NothingSplit(items);
    } else {
      outItems := From(items, Listing(items)[threshold].nonce);
      CapSplits(items, threshold);
    }
  }

  lemma NothingSplit(items: Items)
    ensures Splits(items, map[], items)
  {
  }

  /** Removes one nonce; a strict list also loses what is behind. */
  method Remove(items: Items, strict: bool, nonce: nat) returns (invalids: seq<Transaction>, rest: Items)
    requires Keyed(items) && nonce in items
    ensures rest == (if strict then Upto(items, nonce) else items - {nonce}) && Keyed(rest)
    ensures Enumerates(invalids, if strict then From(items, nonce + 1) else map[])
  {
    hide Enumerates;
    var l := new TxList.Load(strict, items);
    var found;
    found, invalids := l.Remove(nonce);
    rest := l.txs.items;
  }

  method Flatten(items: Items) returns (txs: seq<Transaction>)
    requires Keyed(items)
    ensures txs == Listing(items)
  {
    var l := new TxList.Load(true, items);
    txs := l.txs.Flatten();
  }

  method LastElement(items: Items) returns (tx: Transaction)
    requires Keyed(items) && items != map[]
    ensures tx.nonce in items && items[tx.nonce] == tx && forall n :: n in items ==> n <= tx.nonce
  {
    var l := new TxList.Load(true, items);
    tx := l.txs.LastElement();
  }
}
