/** Two shortcuts to the ancestors of a block, compared with walking parents one by one. */
module Ancestors {
  import opened HeaderChain
  import Types

  lemma WrapDifference(x: int)
    requires 0 <= x + Types.TWO_TO_THE_64 && x < Types.TWO_TO_THE_64
    ensures Types.Wrap(x) == if x < 0 then x + Types.TWO_TO_THE_64 else x
  {
  }

  /** The `k`-th parent, one step at a time; nothing is above a root. */
  ghost function Parent(hash: Hash, k: nat): Hash
  {
    if k == 0 || hash.Zero? then hash else Parent(hash.header.parent, k - 1)
  }

  lemma {:induction false} ParentOfParent(hash: Hash, j: nat, k: nat)
    ensures Parent(Parent(hash, j), k) == Parent(hash, j + k)
    decreases j
  {
    if j > 0 && hash.HashOf? {
      ParentOfParent(hash.header.parent, j - 1, k);
    }
  }

  /** The `k`-th parent of a stored header is its ancestor `k` heights below. */
  lemma {:induction false} ParentIsUp(headers: set<Header>, g: Header, h: Header, k: nat)
    requires Closed(headers, g) && h in headers && k <= h.number
    ensures Parent(HashOf(h), k) == HashOf(Up(h, h.number - k))
    decreases k
  {
    if k > 0 {
      assert h != g;
      ParentIsUp(headers, g, h.parent.header, k - 1);
    }
  }

  /** Every canonical hash is that of a header at its height, on top of the canonical parent. */
  ghost predicate ParentLinked(canonical: map<nat, Hash>)
  {
    forall n: nat :: At(canonical, n).HashOf? ==>
      && At(canonical, n).header.number == n
      && (n > 0 ==> At(canonical, n - 1).HashOf? && At(canonical, n).header.parent == At(canonical, n - 1))
  }

  /** The path to a stored header is parent-linked. */
  lemma PathIsLinked(headers: set<Header>, g: Header, canonical: map<nat, Hash>, h: Header)
    requires Closed(headers, g) && h in headers && IsPath(canonical, h)
    ensures ParentLinked(canonical)
  {
    hide Closed, Up;
    GenesisHeight(headers, g);
    forall n: nat | n <= h.number
      ensures Up(h, n).number == n && (n > 0 ==> Up(h, n).parent == HashOf(Up(h, n - 1)))
    {
      UpStored(headers, g, h, n);
      if n > 0 { UpParent(headers, g, h, n); }
    }
  }

  lemma GenesisHeight(headers: set<Header>, g: Header)
    requires Closed(headers, g)
    ensures g.number == 0 && g.parent.Zero?
  {
  }

  lemma {:induction false} CanonicalParents(canonical: map<nat, Hash>, n: nat, k: nat)
    requires ParentLinked(canonical) && At(canonical, n).HashOf? && k <= n
    ensures Parent(At(canonical, n), k) == At(canonical, n - k)
    decreases k
  {
    if k > 0 {
      CanonicalParents(canonical, n - 1, k - 1);
    }
  }

  // ---------- The n-th ancestor ----------

  /** Does the walk get there: over stored headers, with the budget, or onto the canonical chain? */
  ghost predicate Reaches(headers: set<Header>, canonical: map<nat, Hash>, hash: Hash, number: nat, ancestor: nat,
                          budget: nat)
    decreases ancestor
  {
    || ancestor == 0
    || At(canonical, number) == hash
    || (budget > 0 && hash.HashOf? && hash.header in headers && hash.header.number == number > 0
        && Reaches(headers, canonical, hash.header.parent, number - 1, ancestor - 1, budget - 1))
  }

  /**
   The hash and height of the ancestor-th parent. What is found is right, and it is found exactly
   when the walk gets there; a direct parent needs no budget.
   */
  method GetAncestor(hc: HeaderChain, hash: Hash, number: nat, ancestor: nat, budget: nat)
    returns (r: Hash, height: nat, left: nat)
    requires Closed(hc.headers, hc.genesis) && ParentLinked(hc.canonical)
    ensures hash.HashOf? && r.HashOf? ==>
      ancestor <= number && r == Parent(hash, ancestor) && height == number - ancestor
    ensures hash.HashOf? && ancestor <= number && ancestor != 1 ==>
      (r.HashOf? <==> Reaches(hc.headers, hc.canonical, hash, number, ancestor, budget))
    ensures hash.HashOf? && ancestor == 1 <= number ==>
      (r.HashOf? <==> hash.header in hc.headers && hash.header.number == number)
    ensures r.Zero? ==> height == 0 || hash.Zero?
    ensures left <= budget
  {
    hide Closed, Parent, ParentLinked, Reaches, At;
    left := budget;
    AtOnce(hc.headers, hc.canonical, hash, number, budget);
    if ancestor > number { return Zero, 0, left; }
    if ancestor == 1 {
      var header := hc.GetHeader(hash, number);
      if header.Some? {
        StoredParent(hc.headers, hc.genesis, header.value);
        return header.value.parent, number - 1, left;
      }
      return Zero, 0, left;
    }
    r, height := hash, number;
    var steps := ancestor;
    while steps != 0
      invariant 0 <= steps <= ancestor && steps <= height && height - steps == number - ancestor
      invariant left <= budget
      invariant hash.HashOf? ==> r.HashOf? && Parent(r, steps) == Parent(hash, ancestor)
      invariant hash.HashOf? ==>
        (Reaches(hc.headers, hc.canonical, hash, number, ancestor, budget) <==>
          Reaches(hc.headers, hc.canonical, r, height, steps, left))
      decreases steps
    {
      ReachStep(hc.headers, hc.canonical, r, height, steps, left);
      if At(hc.canonical, height) == r {
        if hash.HashOf? { CanonicalParents(hc.canonical, height, steps); LinkedDown(hc.canonical, height, steps); }
        return At(hc.canonical, height - steps), height - steps, left;
      }
      if left == 0 { return Zero, 0, left; }
      left, steps := left - 1, steps - 1;
      var header := hc.GetHeader(r, height);
      if header.None? { return Zero, 0, left; }
      StoredParent(hc.headers, hc.genesis, header.value);
      r, height := header.value.parent, height - 1;
    }
    AtOnce(hc.headers, hc.canonical, r, height, left);
  }

  lemma StoredParent(headers: set<Header>, g: Header, h: Header)
    requires Closed(headers, g) && h in headers && h.number > 0
    ensures h.parent.HashOf?
  {
  }

  lemma AtOnce(headers: set<Header>, canonical: map<nat, Hash>, hash: Hash, number: nat, budget: nat)
    ensures Parent(hash, 0) == hash && (hash.HashOf? ==> Parent(hash, 1) == hash.header.parent)
    ensures Reaches(headers, canonical, hash, number, 0, budget)
  {
  }

  /** One step of the walk. */
  lemma ReachStep(headers: set<Header>, canonical: map<nat, Hash>, hash: Hash, number: nat, ancestor: nat, budget: nat)
    requires 0 < ancestor <= number
    ensures Reaches(headers, canonical, hash, number, ancestor, budget) <==>
      || At(canonical, number) == hash
      || (budget > 0 && hash.HashOf? && hash.header in headers && hash.header.number == number
          && Reaches(headers, canonical, hash.header.parent, number - 1, ancestor - 1, budget - 1))
    ensures hash.HashOf? ==> Parent(hash, ancestor) == Parent(hash.header.parent, ancestor - 1)
  {
  }

  lemma LinkedDown(canonical: map<nat, Hash>, n: nat, k: nat)
    requires ParentLinked(canonical) && At(canonical, n).HashOf? && k <= n
    ensures At(canonical, n - k).HashOf?
    decreases k
  {
    if k > 0 { LinkedDown(canonical, n - 1, k - 1); }
  }

  // ---------- Hashes by height, seen from one block ----------

  class HashFn {
    const ref: Header
    const chain: HeaderChain
    var cache: seq<Hash>

    /** The cache holds the parents of the reference block in order. */
    ghost predicate Valid()
      reads this, chain
    {
      && Closed(chain.headers, chain.genesis)
      && ref.number < Types.TWO_TO_THE_64
      && (ref.parent.HashOf? ==> ref.parent.header in chain.headers && ref.number == ref.parent.header.number + 1)
      && (ref.parent.Zero? ==> ref.number == 0)
      && |cache| <= ref.number + 1
      && forall i :: 0 <= i < |cache| ==> cache[i] == Parent(ref.parent, i)
    }

    constructor (ref: Header, chain: HeaderChain)
      requires Closed(chain.headers, chain.genesis) && ref.number < Types.TWO_TO_THE_64
      requires ref.parent.HashOf? ==> ref.parent.header in chain.headers && ref.number == ref.parent.header.number + 1
      requires ref.parent.Zero? ==> ref.number == 0
      ensures Valid() && this.ref == ref && this.chain == chain
    {
      this.ref, this.chain, cache := ref, chain, [];
    }

    /** Remembers the parent of the last hash in the cache. */
    method Append(parent: Hash)
      requires Valid() && 0 < |cache| <= ref.number
      requires cache[|cache| - 1].HashOf? && parent == cache[|cache| - 1].header.parent
      modifies this`cache
      ensures Valid() && cache == old(cache) + [parent]
    {
      hide Closed, Up, Parent;
      ParentStep(ref.parent, |cache| - 1);
      cache := cache + [parent];
    }

    /** The hash of the ancestor at height `n`, whatever was asked before; zero at and above the reference block. */
    method GetHash(n: nat) returns (r: Hash)
      requires Valid() && n < Types.TWO_TO_THE_64
      modifies this`cache
      ensures Valid() && old(cache) <= cache
      ensures r == if n < ref.number then HashOf(Up(ref.parent.header, n)) else Zero
    {
      hide Closed, Up, Parent, Types.Wrap;
      WalkedTo(0);
      WrapDifference(ref.number - n - 1);
      if |cache| == 0 { cache := [ref.parent]; }
      var idx := Types.Wrap(ref.number - n - 1);
      if idx < |cache| {
        RightHash(n, idx);
        return cache[idx];
      }
      var lastKnownHash := cache[|cache| - 1];
      var lastKnownNumber := Types.Wrap(ref.number - |cache|);
      while true
        invariant Valid() && old(cache) <= cache && |cache| > 0 && lastKnownHash == cache[|cache| - 1]
        invariant lastKnownNumber == Types.Wrap(ref.number - |cache|)
        invariant n < ref.number ==> |cache| < ref.number - n
        decreases lastKnownHash
      {
        WalkedTo(|cache| - 1);
        var header := chain.GetHeader(lastKnownHash, lastKnownNumber);
        WrapDifference(ref.number - |cache|);
        if header.None? { break; }
        WrapDifference(header.value.number - 1);
        Append(header.value.parent);
        lastKnownHash := header.value.parent;
        lastKnownNumber := Types.Wrap(header.value.number - 1);
        if n == lastKnownNumber {
          RightHash(n, |cache| - 1);
          return lastKnownHash;
        }
      }
      return Zero;
    }

    /** Where the walk stands after `i` steps: at a stored header until it runs out above the root. */
    lemma WalkedTo(i: nat)
      requires Valid() && i <= ref.number
      ensures i < ref.number ==>
        && ref.parent.HashOf? && Parent(ref.parent, i).HashOf? && Parent(ref.parent, i).header in chain.headers
        && Parent(ref.parent, i).header.number == ref.number - 1 - i
        && Parent(ref.parent, i).header == Up(ref.parent.header, ref.number - 1 - i)
      ensures i == ref.number ==> Parent(ref.parent, i).Zero?
      ensures Parent(ref.parent, 0) == ref.parent
    {
      assert Parent(ref.parent, 0) == ref.parent;
      hide Closed, Up, Parent;
      GenesisHeight(chain.headers, chain.genesis);
      if i < ref.number {
        ParentIsUp(chain.headers, chain.genesis, ref.parent.header, i);
        UpStored(chain.headers, chain.genesis, ref.parent.header, ref.number - 1 - i);
      } else if ref.number > 0 {
        WalkedTo(i - 1);
        ParentStep(ref.parent, i - 1);
        UpStored(chain.headers, chain.genesis, ref.parent.header, 0);
      }
    }

    lemma RightHash(n: nat, idx: nat)
      requires Valid() && n < Types.TWO_TO_THE_64 && idx < |cache| && idx == Types.Wrap(ref.number - n - 1)
      ensures cache[idx] == if n < ref.number then HashOf(Up(ref.parent.header, n)) else Zero
      ensures n < ref.number ==> ref.parent.HashOf?
    {
      hide Closed, Up, Parent, Types.Wrap;
      WrapDifference(ref.number - n - 1);
      WalkedTo(idx);
    }
  }

  lemma ParentStep(hash: Hash, k: nat)
    ensures Parent(hash, k + 1) == if Parent(hash, k).HashOf? then Parent(hash, k).header.parent else Zero
  {
    ParentOfParent(hash, k, 1);
  }
}
