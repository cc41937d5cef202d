/** A nonce-indexed transaction map with a heap over its nonces and a cached sorted list. */
module SortedMap {
  import opened Types
  import opened NonceMap
  import Heap

  function NonceLess(a: nat, b: nat): bool { a < b }

  function ByNonce(t: Transaction, u: Transaction): bool { t.nonce < u.nonce }

  /** The heap holds each nonce of the map once, and nothing else. */
  ghost predicate Indexes(index: seq<nat>, items: Items)
  {
    Heap.IsHeap(index, NonceLess) && multiset(index) == multiset(items.Keys)
  }

  lemma KeysWithout(items: Items, n: nat)
    requires n in items
    ensures multiset((items - {n}).Keys) == multiset(items.Keys) - multiset{n}
  {
    assert (items - {n}).Keys == items.Keys - {n};
  }

  lemma KeysWith(items: Items, n: nat, tx: Transaction)
    requires n !in items
    ensures multiset(items[n := tx].Keys) == multiset(items.Keys) + multiset{n}
  {
    assert items[n := tx].Keys == items.Keys + {n};
  }

  /** What is in the index is in the map, the other way round, and the root is the lowest nonce. */
  lemma IndexFacts(index: seq<nat>, items: Items)
    requires Indexes(index, items)
    ensures |index| == |items|
    ensures forall n :: n in index <==> n in items
    ensures |index| > 0 ==> forall n :: n in items ==> index[0] <= n
  {
    assert |multiset(index)| == |multiset(items.Keys)|;
    assert forall n :: n in index <==> n in multiset(index);
    forall n | n in index ensures index[0] <= n {
      var i :| 0 <= i < |index| && index[i] == n;
      Heap.RootIsLeast(index, NonceLess, i);
    }
  }

  method PopLowest(index: seq<nat>, ghost items: Items) returns (n: nat, rest: seq<nat>)
    requires Indexes(index, items) && |index| > 0
    ensures n == index[0] && n in items && (forall m :: m in items ==> n <= m)
    ensures Indexes(rest, items - {n})
  {
    IndexFacts(index, items);
    n, rest := Heap.Pop(index, NonceLess);
    KeysWithout(items, n);
  }

  lemma CountedTwice<T>(s: seq<T>, i: nat, j: nat)
    requires i < j < |s| && s[i] == s[j]
    ensures multiset(s)[s[i]] >= 2
  {
    assert s == s[..j] + [s[j]] + s[j + 1..];
    assert s[..j][i] == s[i];
    assert s[i] in multiset(s[..j]);
  }

  /** Sorting a heap of distinct nonces gives them in strictly increasing order. */
  lemma {:induction false} DistinctOrdered(s: seq<nat>, items: Items)
    requires Heap.Ordered(s, NonceLess) && multiset(s) == multiset(items.Keys)
    ensures forall i, j :: 0 <= i < j < |s| ==> s[i] < s[j]
    ensures forall n :: n in s <==> n in items
    ensures |s| == |items|
  {
    assert |multiset(s)| == |multiset(items.Keys)|;
    assert forall n :: n in s <==> n in multiset(s);
    forall i, j | 0 <= i < j < |s| ensures s[i] < s[j] {
      if s[i] == s[j] {
        CountedTwice(s, i, j);
      }
    }
  }

  lemma NothingCut(items: Items)
    ensures Cut(items, map[], items) && Lists([], map[])
  {
  }

  lemma KeyedWithout(items: Items, n: nat)
    requires Keyed(items) && n in items
    ensures items[n].nonce == n && Keyed(items - {n})
  {
  }

  class TxSortedMap {
    var items: Items
    var index: seq<nat>
    var cache: Option<seq<Transaction>>

    ghost predicate Valid()
      reads this
    {
      && Keyed(items)
      && Indexes(index, items)
      && (cache.Some? ==> Lists(cache.value, items))
    }

    constructor ()
      ensures Valid() && items == map[]
    {
      items, index, cache := map[], [], None;
      new;
      assert multiset(items.Keys) == multiset{};
    }

    /** A map with the given contents. */
    constructor Load(items: Items)
      requires Keyed(items)
      ensures Valid() && this.items == items
    {
      this.items, index, cache := items, [], None;
      new;
      Reheap();
    }

    /** Inserts or overwrites, whatever the nonce. */
    method Put(tx: Transaction)
      requires Valid()
      modifies this
      ensures Valid()
      ensures items == old(items)[tx.nonce := tx]
    {
      if tx.nonce !in items {
        KeysWith(items, tx.nonce, tx);
        index := Heap.Push(index, tx.nonce, NonceLess);
      } else {
        assert items[tx.nonce := tx].Keys == items.Keys;
      }
      items, cache := items[tx.nonce := tx], None;
    }

    /** Removes everything below the threshold and returns it in nonce order. */
    method Forward(threshold: nat) returns (removed: seq<Transaction>)
      requires Valid()
      modifies this
      ensures Valid()
      ensures items == From(old(items), threshold)
      ensures removed == Listing(Upto(old(items), threshold))
    {
      hide Lists, Indexes, Cut, Keyed, Upto, From, Listing;
      removed := [];
      ghost var low: Items := map[];
      NothingCut(items);
      while |index| > 0 && index[0] < threshold
        invariant Keyed(items) && Indexes(index, items)
        invariant Lists(removed, low) && Cut(old(items), low, items)
        invariant forall m :: m in low ==> m < threshold
        invariant cache == old(cache)
        decreases |items|
      {
        var nonce;
        nonce, index := PopLowest(index, items);
        CutNext(old(items), low, items, nonce);
        KeyedWithout(items, nonce);
        Extend(removed, items[nonce], low);
        RemoveKey(items, nonce);
        removed := removed + [items[nonce]];
        low := low[nonce := items[nonce]];
        items := items - {nonce};
      }
      IndexFacts(index, items);
      CutAt(old(items), low, items, threshold);
      KeyedParts(old(items), threshold);
      IsListing(removed, low);
      if cache.Some? {
        ListSuffix(cache.value, old(items), removed, low, items);
        cache := Some(cache.value[|removed|..]);
      }
    }

    /** Rebuilds the heap from the map's nonces, visited in any order. */
    method Reheap()
      requires Keyed(items)
      modifies this`index, this`cache
      ensures Valid() && cache.None?
    {
      var nonces: seq<nat> := [];
      var rest := items.Keys;
      while rest != {}
        invariant multiset(nonces) + multiset(rest) == multiset(items.Keys)
        decreases rest
      {
        var n :| n in rest;
        nonces, rest := nonces + [n], rest - {n};
      }
      index := Heap.Init(nonces, NonceLess);
      cache := None;
    }

    /** Takes out what the predicate accepts; the heap is left to the caller. */
    method FilterOut(p: Transaction -> bool) returns (removed: seq<Transaction>)
      requires Keyed(items) && (cache.Some? ==> Lists(cache.value, items))
      modifies this`items, this`cache
      ensures items == Rejecting(old(items), p)
      ensures Enumerates(removed, Accepting(old(items), p))
      ensures removed == [] ==> items == old(items)
      ensures cache.Some? ==> Lists(cache.value, items)
    {
      hide Lists, Enumerates, Filtering, Accepting, Rejecting;
      removed := [];
      ghost var all, out: Items := items, map[];
      var rest := items.Keys;
      FilteringNothing(all, p);
      while rest != {}
        invariant Filtering(all, items, out, rest, p) && cache == old(cache)
        invariant Enumerates(removed, out)
        decreases rest
      {
        var n :| n in rest;
        FilteringStep(all, items, out, rest, p, n);
        rest := rest - {n};
        if p(items[n]) {
          EnumerateOne(removed, items[n], out);
          removed, out := removed + [items[n]], out[n := items[n]];
          items := items - {n};
        }
      }
      FilteringDone(all, items, out, p, removed);
      if |removed| > 0 {
        cache := None;
      }
    }

    method Filter(p: Transaction -> bool) returns (removed: seq<Transaction>)
      requires Valid()
      modifies this
      ensures Valid()
      ensures items == Rejecting(old(items), p)
      ensures Enumerates(removed, Accepting(old(items), p))
    {
      hide Enumerates, Lists;
      removed := FilterOut(p);
      if |removed| > 0 {
        Reheap();
      }
    }

    method Remove(nonce: nat) returns (found: bool)
      requires Valid()
      modifies this
      ensures Valid()
      ensures found <==> nonce in old(items)
      ensures items == old(items) - {nonce}
    {
      if nonce !in items { return false; }
      IndexFacts(index, items);
      var i := 0;
      while index[i] != nonce
        invariant 0 <= i < |index| && nonce !in index[..i]
        decreases |index| - i
      {
        assert nonce in index;
        i := i + 1;
      }
      KeysWithout(items, nonce);
      index := Heap.Remove(index, i, NonceLess);
      items, cache := items - {nonce}, None;
      return true;
    }

    /** Pops consecutive nonces, starting with the lowest, for as long as there is no gap. */
    method TakeRun() returns (ready: seq<Transaction>)
      requires Keyed(items) && Indexes(index, items) && items != map[]
      modifies this`items, this`index
      ensures Keyed(items) && Indexes(index, items)
      ensures var end := RunEnd(old(items), MinKey(old(items).Keys));
        && items == From(old(items), end)
        && ready == Listing(Upto(old(items), end))
    {
      hide Lists, Indexes, Cut, Keyed, Upto, From, Listing, Running;
      ghost var all := items;
      RootIsLowest(index, items);
      ready := [];
      ghost var low: Items := map[];
      var next := index[0];
      ghost var first := next;
      StartRun(items, first);
      while |index| > 0 && index[0] == next
        invariant Indexes(index, items) && Running(all, low, items, ready, first, next)
        decreases |items|
      {
        var nonce;
        nonce, index := PopLowest(index, items);
        RunStep(all, low, items, ready, first, next);
        RemoveKey(items, nonce);
        ready := ready + [items[nonce]];
        low := low[nonce := items[nonce]];
        items := items - {nonce};
        next := next + 1;
      }
      RunIsOver(all, low, items, ready, first, next, index);
    }

    /** Takes out the maximal consecutive run from the lowest nonce, if that is low enough. */
    method Ready(start: nat) returns (ready: seq<Transaction>)
      requires Valid()
      modifies this
      ensures Valid()
      ensures var end := ReadyEnd(old(items), start);
        && items == From(old(items), end)
        && ready == Listing(Upto(old(items), end))
    {
      hide Indexes, Keyed, Lists;
      EmptyIndex(index, items);
      if |index| > 0 { RootIsLowest(index, items); }
      if |index| == 0 || index[0] > start {
        assert items == From(items, 0) && Upto(items, 0) == map[];
        return [];
      }
      ready := TakeRun();
      cache := None;
    }

    /** Drops the highest nonces from the top down until `threshold` are left. */
    method DropAbove(threshold: nat) returns (drops: seq<Transaction>)
      requires Keyed(items) && Indexes(index, items) && threshold < |items|
      modifies this`items, this`index
      ensures items == Lowest(old(items), threshold)
      ensures Indexes(index, items)
      ensures drops == Reversed(Listing(old(items))[threshold..])
    {
      hide Lists, Keyed, Lowest, Listing, Reversed, Heap.Ordered, Heap.IsHeap;
      ghost var all, txs := items, Listing(items);
      var sorted := Heap.Sort(index, NonceLess);
      SortedIndexIsListing(sorted, items);
      LowestAll(items);
      EmptyReversed(txs, |items|);
      drops := [];
      var size := |items|;
      while size > threshold
        invariant threshold <= size <= |all|
        invariant items == Lowest(all, size)
        invariant drops == Reversed(txs[size..])
      {
        LowestStep(all, size);
        ReversedSnoc(txs, size);
        drops := drops + [items[sorted[size - 1]]];
        items := items - {sorted[size - 1]};
        size := size - 1;
      }
      PrefixKeys(sorted, all, threshold);
      index := Heap.Init(sorted[..threshold], NonceLess);
    }

    /** Keeps the `threshold` lowest nonces and returns the others, highest first. */
    method Cap(threshold: nat) returns (drops: seq<Transaction>)
      requires Valid()
      modifies this
      ensures Valid()
      ensures |old(items)| <= threshold ==> items == old(items) && drops == []
      ensures |old(items)| > threshold ==>
        && items == Lowest(old(items), threshold)
        && drops == Reversed(Listing(old(items))[threshold..])
    {
      hide Lists, Keyed, Lowest, Listing, Indexes, Reversed;
      if |items| <= threshold { return []; }
      ghost var all := items;
      drops := DropAbove(threshold);
      LowestKeyed(all, threshold);
      CapCache(all, threshold);
      if cache.Some? {
        IsListing(cache.value, all);
        cache := Some(cache.value[..|cache.value| - |drops|]);
      }
    }

    /** Collects the transactions in any order and sorts them, unless that was done before. */
    method FlattenCache() returns (txs: seq<Transaction>)
      requires Valid()
      modifies this`cache
      ensures Valid() && txs == Listing(items) && cache == Some(txs)
    {
      if cache.None? {
        var collected: seq<Transaction> := [];
        ghost var out: Items := map[];
        var rest := items.Keys;
        while rest != {}
          invariant rest <= items.Keys
          invariant forall n :: n in out <==> n in items && n !in rest
          invariant forall n :: n in out ==> out[n] == items[n]
          invariant Enumerates(collected, out)
          decreases rest
        {
          hide Enumerates;
          var n :| n in rest;
          EnumerateOne(collected, items[n], out);
          collected, out := collected + [items[n]], out[n := items[n]];
          rest := rest - {n};
        }
        assert out == items;
        var sorted := Heap.Sort(collected, ByNonce);
        SortedEnumeration(collected, sorted, items);
        cache := Some(sorted);
      }
      txs := cache.value;
      IsListing(txs, items);
    }

    method Flatten() returns (txs: seq<Transaction>)
      requires Valid()
      modifies this`cache
      ensures Valid() && txs == Listing(items)
    {
      txs := FlattenCache();
    }

    /** The transaction with the highest nonce; the list must not be empty. */
    method LastElement() returns (tx: Transaction)
      requires Valid() && items != map[]
      modifies this`cache
      ensures Valid()
      ensures tx.nonce in items && items[tx.nonce] == tx && forall n :: n in items ==> n <= tx.nonce
    {
      var txs := FlattenCache();
      ListingLists(items);
      ListsEmpty(txs, items);
      Shorten(txs, items);
      tx := txs[|txs| - 1];
    }
  }

  /** A filter under way: `rest` are the nonces it has not looked at. */
  ghost predicate Filtering(all: Items, items: Items, out: Items, rest: set<nat>, p: Transaction -> bool)
  {
    && rest <= all.Keys
    && (forall n :: n in items <==> n in all && (n in rest || !p(all[n])))
    && (forall n :: n in out <==> n in all && n !in rest && p(all[n]))
    && (forall n :: n in items ==> items[n] == all[n])
    && (forall n :: n in out ==> out[n] == all[n])
  }

  lemma FilteringNothing(all: Items, p: Transaction -> bool)
    ensures Filtering(all, all, map[], all.Keys, p)
    ensures Enumerates([], map[])
  {
  }

  lemma FilteringStep(all: Items, items: Items, out: Items, rest: set<nat>, p: Transaction -> bool, n: nat)
    requires Filtering(all, items, out, rest, p) && n in rest && Keyed(all)
    ensures n in items && items[n].nonce == n && n !in out
    ensures if p(items[n]) then Filtering(all, items - {n}, out[n := items[n]], rest - {n}, p)
      else Filtering(all, items, out, rest - {n}, p)
  {
  }

  lemma FilteringDone(all: Items, items: Items, out: Items, p: Transaction -> bool, removed: seq<Transaction>)
    requires Filtering(all, items, out, {}, p) && Enumerates(removed, out)
    ensures out == Accepting(all, p) && items == Rejecting(all, p)
    ensures removed == [] ==> items == all
  {
    if removed == [] {
      assert forall n :: n in all ==> n in items;
    }
  }

  lemma EmptyReversed(txs: seq<Transaction>, k: nat)
    requires k == |txs|
    ensures Reversed(txs[k..]) == []
  {
  }

  /** The sorted nonces and the listed transactions go together place by place. */
  lemma SortedIndexIsListing(index: seq<nat>, items: Items)
    requires Keyed(items) && Heap.Ordered(index, NonceLess) && multiset(index) == multiset(items.Keys)
    ensures |index| == |Listing(items)| == |items|
    ensures forall i :: 0 <= i < |index| ==>
      index[i] in items && Listing(items)[i] == items[index[i]] && Listing(items)[i].nonce == index[i]
  {
    hide Lists, Listing, Heap.Ordered;
    DistinctOrdered(index, items);
    assert forall i :: 0 <= i < |index| ==> index[i] in index;
    var txs := seq(|index|, i requires 0 <= i < |index| => items[index[i]]);
    ListsByIndex(index, items, txs);
    IsListing(txs, items);
  }

  lemma ListsByIndex(index: seq<nat>, items: Items, txs: seq<Transaction>)
    requires Keyed(items) && |txs| == |index|
    requires forall i, j :: 0 <= i < j < |index| ==> index[i] < index[j]
    requires forall n :: n in index <==> n in items
    requires forall i :: 0 <= i < |index| ==> index[i] in items && txs[i] == items[index[i]]
    ensures Lists(txs, items)
  {
    forall n | n in items ensures items[n] in txs {
      var i :| 0 <= i < |index| && index[i] == n;
      assert txs[i] == items[n];
    }
  }

  lemma {:induction false} SetOfDistinct(s: seq<nat>, keys: set<nat>)
    requires forall i, j :: 0 <= i < j < |s| ==> s[i] < s[j]
    requires forall n :: n in s <==> n in keys
    ensures multiset(s) == multiset(keys)
    decreases |s|
  {
    if s == [] {
      assert keys == {};
    } else {
      var last, front := s[|s| - 1], s[..|s| - 1];
      assert last in s;
      forall n ensures n in front <==> n in keys - {last} {
        if n in keys - {last} {
          var i :| 0 <= i < |s| && s[i] == n;
          assert front[i] == n;
        }
      }
      SetOfDistinct(front, keys - {last});
      assert s == front + [last];
    }
  }

  lemma PrefixKeys(index: seq<nat>, items: Items, k: nat)
    requires Keyed(items) && Heap.Ordered(index, NonceLess) && multiset(index) == multiset(items.Keys) && k <= |items|
    ensures k <= |index| && multiset(index[..k]) == multiset(Lowest(items, k).Keys)
  {
    hide Lowest, Listing, Lists, Heap.Ordered;
    DistinctOrdered(index, items);
    SortedIndexIsListing(index, items);
    LowestLists(items, k);
    SameNonces(index[..k], Listing(items)[..k], Lowest(items, k));
    SetOfDistinct(index[..k], Lowest(items, k).Keys);
  }

  lemma SameNonces(index: seq<nat>, txs: seq<Transaction>, items: Items)
    requires Lists(txs, items) && |txs| == |index| && forall i :: 0 <= i < |index| ==> txs[i].nonce == index[i]
    ensures forall n :: n in index <==> n in items.Keys
  {
    forall n ensures n in index <==> n in items.Keys {
      if n in index {
        var i :| 0 <= i < |index| && index[i] == n;
        assert txs[i] in txs;
      }
      if n in items {
        var i :| 0 <= i < |txs| && txs[i] == items[n];
        assert index[i] == n;
      }
    }
  }

  lemma LowestKeyed(items: Items, k: nat)
    requires Keyed(items) && k <= |items|
    ensures Keyed(Lowest(items, k))
  {
  }

  lemma CapCache(items: Items, k: nat)
    requires Keyed(items) && k <= |items|
    ensures |Listing(items)| == |items| && |Reversed(Listing(items)[k..])| == |items| - k
    ensures Lists(Listing(items)[..k], Lowest(items, k))
  {
    LowestLists(items, k);
    ReversedLength(Listing(items)[k..]);
  }

  lemma {:induction false} ReversedLength(txs: seq<Transaction>)
    ensures |Reversed(txs)| == |txs|
  {
    if txs != [] {
      ReversedLength(txs[1..]);
    }
  }

  /** Sorting an enumeration by nonce gives the listing. */
  lemma SortedEnumeration(txs: seq<Transaction>, sorted: seq<Transaction>, items: Items)
    requires Enumerates(txs, items)
    requires Heap.Ordered(sorted, ByNonce) && multiset(sorted) == multiset(txs)
    ensures Lists(sorted, items)
  {
    assert forall t :: t in sorted <==> t in multiset(sorted);
    assert forall t :: t in txs <==> t in multiset(txs);
    forall i, j | 0 <= i < j < |sorted| ensures sorted[i].nonce < sorted[j].nonce {
      if sorted[i].nonce == sorted[j].nonce {
        assert sorted[i] in sorted && sorted[j] in sorted;
        CountedTwice(sorted, i, j);
        CountedOnce(txs, sorted[i]);
      }
    }
  }

  lemma {:induction false} CountedOnce(txs: seq<Transaction>, t: Transaction)
    requires forall i, j :: 0 <= i < j < |txs| ==> txs[i].nonce != txs[j].nonce
    ensures multiset(txs)[t] <= 1
    decreases |txs|
  {
    if txs != [] {
      var last, front := txs[|txs| - 1], txs[..|txs| - 1];
      assert txs == front + [last];
      CountedOnce(front, t);
      assert forall i :: 0 <= i < |front| ==> front[i] != last;
    }
  }

  lemma EmptyIndex(index: seq<nat>, items: Items)
    requires Indexes(index, items)
    ensures |index| == 0 <==> items == map[]
  {
    IndexFacts(index, items);
  }

  lemma RootIsLowest(index: seq<nat>, items: Items)
    requires Indexes(index, items) && items != map[]
    ensures |index| > 0 && index[0] == MinKey(items.Keys)
  {
    IndexFacts(index, items);
    assert index[0] in index;
  }

  /** The run ends where the lowest remaining nonce is not the next one. */
  lemma GapAt(index: seq<nat>, items: Items, next: nat)
    requires Indexes(index, items) && forall m :: m in items ==> next <= m
    requires |index| == 0 || index[0] != next
    ensures next !in items
  {
    IndexFacts(index, items);
    if |index| > 0 {
      assert index[0] in index;
    }
  }

  /** A run under way: from `first` up to but excluding `next` all nonces have been taken out. */
  ghost predicate Running(all: Items, low: Items, items: Items, ready: seq<Transaction>, first: nat, next: nat)
  {
    && Keyed(items) && Lists(ready, low) && Cut(all, low, items)
    && first <= next
    && (forall m :: m in low ==> m < next)
    && (forall m :: first <= m < next ==> m in all)
    && (forall m :: m in items ==> next <= m)
  }

  lemma StartRun(items: Items, first: nat)
    requires Keyed(items) && forall m :: m in items ==> first <= m
    ensures Running(items, map[], items, [], first, first)
  {
    hide Lists, Cut;
    NothingCut(items);
  }

  lemma RunStep(all: Items, low: Items, items: Items, ready: seq<Transaction>, first: nat, next: nat)
    requires Running(all, low, items, ready, first, next) && next in items
    ensures Running(all, low[next := items[next]], items - {next}, ready + [items[next]], first, next + 1)
  {
    hide Lists, Cut;
    CutNext(all, low, items, next);
    CutMember(all, low, items, next);
    KeyedWithout(items, next);
    Extend(ready, items[next], low);
  }

  lemma RunIsOver(all: Items, low: Items, items: Items, ready: seq<Transaction>, first: nat, next: nat, index: seq<nat>)
    requires Keyed(all) && Running(all, low, items, ready, first, next) && Indexes(index, items)
    requires |index| == 0 || index[0] != next
    ensures Keyed(items) && items == From(all, RunEnd(all, first)) && ready == Listing(Upto(all, RunEnd(all, first)))
  {
    hide Lists, Cut, Indexes, Keyed, Upto, From, Listing;
    GapAt(index, items, next);
    CutMember(all, low, items, next);
    RunEndIs(all, first, next);
    CutAt(all, low, items, next);
    KeyedParts(all, next);
    IsListing(ready, low);
  }

  lemma CutMember(all: Items, low: Items, high: Items, n: nat)
    requires Cut(all, low, high)
    ensures n in all <==> n in low || n in high
  {
  }

  lemma {:induction false} RunEndIs(items: Items, n: nat, end: nat)
    requires n <= end && end !in items && forall k :: n <= k < end ==> k in items
    ensures RunEnd(items, n) == end
  {
  }
}
