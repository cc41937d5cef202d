/**
 The reference for nonce-sorted transaction maps: a plain map from nonce to transaction, and
 its listing in increasing nonce order.
 */
module NonceMap {
  import opened Types

  type Items = map<nat, Transaction>

  predicate Keyed(items: Items) { forall n :: n in items ==> items[n].nonce == n }

  predicate Ascending(txs: seq<Transaction>)
  {
    forall i, j :: 0 <= i < j < |txs| ==> txs[i].nonce < txs[j].nonce
  }

  /** `txs` are exactly the items, by increasing nonce. */
  ghost predicate Lists(txs: seq<Transaction>, items: Items)
  {
    && Ascending(txs)
    && (forall tx :: tx in txs ==> tx.nonce in items && items[tx.nonce] == tx)
    && (forall n :: n in items ==> items[n].nonce == n && items[n] in txs)
  }

  ghost function MaxKey(s: set<nat>): (m: nat)
    requires s != {}
    ensures m in s && forall n :: n in s ==> n <= m
  {
    var n :| n in s;
    if s == {n} then n else
      assert s - {n} != {};
      var rest := MaxKey(s - {n});
      assert forall k :: k in s ==> k == n || k in s - {n};
      if rest < n then n else rest
  }

  ghost function MinKey(s: set<nat>): (m: nat)
    requires s != {}
    ensures m in s && forall n :: n in s ==> m <= n
  {
    var n :| n in s;
    if s == {n} then n else
      assert s - {n} != {};
      var rest := MinKey(s - {n});
      assert forall k :: k in s ==> k == n || k in s - {n};
      if rest > n then n else rest
  }

  /** Removing one key of a map shrinks it by one. */
  lemma RemoveKey(items: Items, n: nat)
    requires n in items
    ensures |items - {n}| == |items| - 1
    ensures (items - {n})[n := items[n]] == items
  {
    assert (items - {n}).Keys == items.Keys - {n};
  }

  ghost function Listing(items: Items): (txs: seq<Transaction>)
    ensures |txs| == |items|
    decreases |items|
  {
    if items == map[] then [] else
      var m := MaxKey(items.Keys);
      RemoveKey(items, m);
      Listing(items - {m}) + [items[m]]
  }

  lemma ListingUnfold(items: Items)
    ensures items == map[] ==> Listing(items) == []
    ensures items != map[] ==>
      var m := MaxKey(items.Keys);
      Listing(items) == Listing(items - {m}) + [items[m]] && |items - {m}| < |items|
  {
    if items != map[] {
      RemoveKey(items, MaxKey(items.Keys));
    }
  }

  lemma {:induction false} ListingLists(items: Items)
    requires Keyed(items)
    ensures Lists(Listing(items), items)
    decreases |items|
  {
    hide Listing, MaxKey;
    ListingUnfold(items);
    if items != map[] {
      hide Lists;
      var m := MaxKey(items.Keys);
      ListingLists(items - {m});
      Extend(Listing(items - {m}), items[m], items - {m});
      assert (items - {m})[m := items[m]] == items;
    }
  }

  /** Appending a transaction with a higher nonce lists the map with that transaction added. */
  lemma Extend(txs: seq<Transaction>, tx: Transaction, items: Items)
    requires Lists(txs, items)
    requires forall n :: n in items ==> n < tx.nonce
    ensures Lists(txs + [tx], items[tx.nonce := tx])
  {
    var all := txs + [tx];
    forall i, j | 0 <= i < j < |all| ensures all[i].nonce < all[j].nonce {
      assert all[i] in txs;
    }
    assert tx in all;
    assert forall t :: t in txs ==> t in all;
  }

  /** Taking the last off a listing takes the highest nonce off the map. */
  lemma Shorten(txs: seq<Transaction>, items: Items)
    requires Lists(txs, items) && |txs| > 0
    ensures var last := txs[|txs| - 1];
      && last.nonce in items && items[last.nonce] == last
      && (forall n :: n in items ==> n <= last.nonce)
      && Lists(txs[..|txs| - 1], items - {last.nonce})
  {
    var last, front := txs[|txs| - 1], txs[..|txs| - 1];
    assert last in txs;
    forall t | t in front ensures t in txs && t.nonce < last.nonce {
      var i :| 0 <= i < |front| && front[i] == t;
      assert txs[i] == t;
    }
    forall t | t in txs ensures t == last || t in front {
      var i :| 0 <= i < |txs| && txs[i] == t;
      if i < |front| { assert front[i] == t; }
    }
    assert Ascending(front);
  }

  lemma {:induction false} ListsUnique(a: seq<Transaction>, b: seq<Transaction>, items: Items)
    requires Lists(a, items) && Lists(b, items)
    ensures a == b
    decreases |a|
  {
    hide Lists;
    if a == [] || b == [] {
      ListsEmpty(a, items);
      ListsEmpty(b, items);
    } else {
      Shorten(a, items);
      Shorten(b, items);
      ListsUnique(a[..|a| - 1], b[..|b| - 1], items - {a[|a| - 1].nonce});
      assert a == a[..|a| - 1] + [a[|a| - 1]] && b == b[..|b| - 1] + [b[|b| - 1]];
    }
  }

  lemma ListsEmpty(txs: seq<Transaction>, items: Items)
    requires Lists(txs, items)
    ensures txs == [] <==> items == map[]
  {
    if txs != [] {
      assert txs[0] in txs;
      assert txs[0].nonce in items;
    }
  }

  lemma {:induction false} ListsLength(txs: seq<Transaction>, items: Items)
    requires Lists(txs, items)
    ensures |txs| == |items|
    decreases |txs|
  {
    hide Lists;
    ListsEmpty(txs, items);
    if txs != [] {
      Shorten(txs, items);
      var n := txs[|txs| - 1].nonce;
      ListsLength(txs[..|txs| - 1], items - {n});
      assert (items - {n}).Keys == items.Keys - {n};
    }
  }

  /** A listing is the only one. */
  lemma IsListing(txs: seq<Transaction>, items: Items)
    requires Keyed(items) && Lists(txs, items)
    ensures txs == Listing(items) && |txs| == |items|
  {
    ListingLists(items);
    ListsUnique(txs, Listing(items), items);
    ListsLength(txs, items);
  }

  /** `txs` are exactly the items, each once, in any order. */
  ghost predicate Enumerates(txs: seq<Transaction>, items: Items)
  {
    && (forall i, j :: 0 <= i < j < |txs| ==> txs[i].nonce != txs[j].nonce)
    && (forall tx :: tx in txs ==> tx.nonce in items && items[tx.nonce] == tx)
    && (forall n :: n in items ==> items[n].nonce == n && items[n] in txs)
  }

  lemma EnumerateOne(txs: seq<Transaction>, tx: Transaction, items: Items)
    requires Enumerates(txs, items) && tx.nonce !in items
    ensures Enumerates(txs + [tx], items[tx.nonce := tx])
  {
    var all := txs + [tx];
    forall i, j | 0 <= i < j < |all| ensures all[i].nonce != all[j].nonce {
      assert all[i] in txs;
    }
    assert forall t :: t in all <==> t in txs || t == tx;
  }

  // ---------- Pieces of a map ----------

  function Upto(items: Items, threshold: nat): Items { map n | n in items && n < threshold :: items[n] }

  function From(items: Items, threshold: nat): Items { map n | n in items && n >= threshold :: items[n] }

  /** The part of the map listed in the first `k` places. */
  ghost function Lowest(items: Items, k: nat): (low: Items)
    requires k <= |items|
  {
    map n | n in items && items[n] in Listing(items)[..k] :: items[n]
  }

  function Accepting(items: Items, p: Transaction -> bool): Items
  {
    map n | n in items && p(items[n]) :: items[n]
  }

  function Rejecting(items: Items, p: Transaction -> bool): Items
  {
    map n | n in items && !p(items[n]) :: items[n]
  }

  /** The first nonce from `n` on that the map does not have. */
  ghost function RunEnd(items: Items, n: nat): (end: nat)
    ensures n <= end && end !in items && forall k :: n <= k < end ==> k in items
    decreases |From(items, n)|
  {
    if n !in items then n else
      assert From(items, n) - {n} == From(items, n + 1);
      RemoveKey(From(items, n), n);
      RunEnd(items, n + 1)
  }

  /** What is ready at `start`: nothing, or the maximal consecutive run from the lowest nonce. */
  ghost function ReadyEnd(items: Items, start: nat): nat
  {
    if items == map[] || MinKey(items.Keys) > start then 0 else RunEnd(items, MinKey(items.Keys))
  }

  /** A list with no gap between its lowest and its highest nonce. */
  ghost predicate Contiguous(items: Items)
  {
    forall a, b, c :: a in items && c in items && a <= b <= c ==> b in items
  }

  /** A map cut in two, every nonce of the first part below every nonce of the second. */
  ghost predicate Cut(all: Items, low: Items, high: Items)
  {
    && (forall n :: n in all <==> n in low || n in high)
    && (forall n :: n in low ==> n in all && all[n] == low[n])
    && (forall n :: n in high ==> n in all && all[n] == high[n])
    && (forall m, n :: m in low && n in high ==> m < n)
  }

  lemma CutNext(all: Items, low: Items, high: Items, n: nat)
    requires Cut(all, low, high) && n in high && forall m :: m in high ==> n <= m
    ensures Cut(all, low[n := high[n]], high - {n})
    ensures forall m :: m in low ==> m < n
  {
  }

  lemma CutAt(all: Items, low: Items, high: Items, threshold: nat)
    requires Cut(all, low, high)
    requires forall n :: n in low ==> n < threshold
    requires forall n :: n in high ==> n >= threshold
    ensures low == Upto(all, threshold) && high == From(all, threshold)
  {
  }

  /** Lists of two pieces, one above the other, make the list of the whole. */
  lemma Concat(a: seq<Transaction>, low: Items, b: seq<Transaction>, high: Items, all: Items)
    requires Lists(a, low) && Lists(b, high) && Cut(all, low, high)
    ensures Lists(a + b, all)
  {
    var txs := a + b;
    forall i, j | 0 <= i < j < |txs| ensures txs[i].nonce < txs[j].nonce {
      if i < |a| <= j {
        assert txs[i] in a && txs[j] in b;
      }
    }
    assert forall t :: t in txs <==> t in a || t in b;
  }

  /** Cutting the low part off a sorted list leaves the list of the high part. */
  lemma ListSuffix(cached: seq<Transaction>, all: Items, a: seq<Transaction>, low: Items, high: Items)
    requires Lists(cached, all) && Lists(a, low) && Keyed(high) && Cut(all, low, high)
    ensures |a| <= |cached| && cached == a + Listing(high)
    ensures Lists(cached[|a|..], high)
  {
    hide Lists, Cut;
    ListingLists(high);
    Concat(a, low, Listing(high), high, all);
    ListsUnique(cached, a + Listing(high), all);
  }

  // ---------- The lowest part ----------

  lemma LowestLists(items: Items, k: nat)
    requires Keyed(items) && k <= |items|
    ensures k <= |Listing(items)| == |items|
    ensures Lists(Listing(items)[..k], Lowest(items, k))
  {
    hide Listing;
    ListingLists(items);
    var txs := Listing(items);
    assert forall t :: t in txs[..k] ==> t in txs;
  }

  /** One place less takes off exactly the transaction listed there. */
  lemma LowestStep(items: Items, k: nat)
    requires Keyed(items) && 0 < k <= |items|
    ensures k <= |Listing(items)|
    ensures var tx := Listing(items)[k - 1];
      && tx.nonce in Lowest(items, k) && Lowest(items, k)[tx.nonce] == tx
      && Lowest(items, k) - {tx.nonce} == Lowest(items, k - 1)
  {
    hide Lowest, Lists, Listing;
    LowestLists(items, k);
    LowestLists(items, k - 1);
    var txs := Listing(items)[..k];
    assert txs[..k - 1] == Listing(items)[..k - 1];
    Shorten(txs, Lowest(items, k));
    SameItems(txs[..k - 1], Lowest(items, k) - {txs[k - 1].nonce}, Lowest(items, k - 1));
  }

  lemma SameItems(txs: seq<Transaction>, a: Items, b: Items)
    requires Lists(txs, a) && Lists(txs, b)
    ensures a == b
  {
  }

  lemma LowestAll(items: Items)
    requires Keyed(items)
    ensures Lowest(items, |items|) == items
  {
    hide Lowest, Lists, Listing;
    LowestLists(items, |items|);
    ListingLists(items);
    assert Listing(items)[..|items|] == Listing(items);
    SameItems(Listing(items), Lowest(items, |items|), items);
  }

  function Reversed(txs: seq<Transaction>): (r: seq<Transaction>)
  {
    if txs == [] then [] else Reversed(txs[1..]) + [txs[0]]
  }

  lemma ReversedSnoc(txs: seq<Transaction>, k: nat)
    requires 0 < k <= |txs|
    ensures Reversed(txs[k - 1..]) == Reversed(txs[k..]) + [txs[k - 1]]
  {
    assert txs[k - 1..][1..] == txs[k..];
  }

  lemma KeyedParts(items: Items, threshold: nat)
    requires Keyed(items)
    ensures Keyed(Upto(items, threshold)) && Keyed(From(items, threshold))
  {
  }
}
