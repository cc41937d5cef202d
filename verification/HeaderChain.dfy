/**
 The header chain: a tree of headers linked by parent hash, and the canonical chain through it.
 Hashes are injective, so a hash is modelled by the header it stands for.
 */
module HeaderChain {
  import Types

  datatype Hash = Zero | HashOf(header: Header)

  datatype Header = Header(parent: Hash, number: nat, difficulty: nat, seal: nat)

  // ---------- Reference: paths in the tree ----------

  /** The sum of difficulties on the path from the root. */
  ghost function TotalDifficulty(h: Header): nat
  {
    h.difficulty + match h.parent { case Zero => 0 case HashOf(p) => TotalDifficulty(p) }
  }

  /** The ancestor at height `n`, found by walking parents one by one. */
  ghost function Up(h: Header, n: nat): Header
  {
    if h.number <= n || h.parent.Zero? then h else Up(h.parent.header, n)
  }

  ghost predicate IsGenesis(g: Header) { g.parent.Zero? && g.number == 0 }

  /** Genesis is stored, and every other stored header follows its stored parent. */
  ghost predicate Closed(headers: set<Header>, g: Header)
  {
    && IsGenesis(g) && g in headers
    && forall h :: h in headers && h != g ==>
         h.parent.HashOf? && h.parent.header in headers && h.number == h.parent.header.number + 1
  }

  /** The hash stored for a height, or zero. */
  function At(canonical: map<nat, Hash>, n: nat): Hash { if n in canonical then canonical[n] else Zero }

  /** Each height up to that of `h` has the hash of its ancestor there; heights above have none. */
  ghost predicate IsPath(canonical: map<nat, Hash>, h: Header)
  {
    forall n: nat :: At(canonical, n) == if n <= h.number then HashOf(Up(h, n)) else Zero
  }

  /** Headers in order, each the parent of the next. */
  ghost predicate Linked(batch: seq<Header>)
  {
    forall i :: 0 <= i < |batch| - 1 ==>
      batch[i + 1].parent == HashOf(batch[i]) && batch[i + 1].number == batch[i].number + 1
  }

  ghost predicate Positive(batch: seq<Header>) { forall h :: h in batch ==> h.difficulty > 0 }

  lemma {:induction false} UpStored(headers: set<Header>, g: Header, h: Header, n: nat)
    requires Closed(headers, g) && h in headers && n <= h.number
    ensures Up(h, n) in headers && Up(h, n).number == n && (n == 0 ==> Up(h, n) == g)
    decreases h
  {
    if n < h.number {
      UpStored(headers, g, h.parent.header, n);
    } else if h != g {
      assert h.parent.header.number + 1 == n;
    }
  }

  lemma {:induction false} UpUp(headers: set<Header>, g: Header, h: Header, n: nat, m: nat)
    requires Closed(headers, g) && h in headers && m <= n <= h.number
    ensures Up(Up(h, n), m) == Up(h, m)
    decreases h
  {
    if n < h.number {
      UpUp(headers, g, h.parent.header, n, m);
    }
  }

  /** Ancestors have no more total difficulty, and the same only if they are the header itself or difficulty is free. */
  lemma {:induction false} UpLighter(headers: set<Header>, g: Header, h: Header, n: nat)
    requires Closed(headers, g) && h in headers && n <= h.number
    ensures TotalDifficulty(Up(h, n)) <= TotalDifficulty(h)
    ensures n < h.number && h.difficulty > 0 ==> TotalDifficulty(Up(h, n)) < TotalDifficulty(h)
    decreases h
  {
    if n < h.number {
      UpLighter(headers, g, h.parent.header, n);
    }
  }

  // ---------- A batch of headers ----------

  /** The batch hangs on a stored header. */
  ghost predicate Attached(headers: set<Header>, batch: seq<Header>)
  {
    batch != [] && batch[0].parent.HashOf? && batch[0].parent.header in headers
    && batch[0].number == batch[0].parent.header.number + 1
  }

  function Members(batch: seq<Header>): set<Header> { set h | h in batch }

  lemma LinkedAt(batch: seq<Header>, i: nat)
    requires Linked(batch) && i < |batch|
    ensures batch[i].number == batch[0].number + i
    decreases i
  {
    if i > 0 { LinkedAt(batch, i - 1); }
  }

  lemma ClosedWith(headers: set<Header>, g: Header, batch: seq<Header>)
    requires Closed(headers, g) && Linked(batch) && Attached(headers, batch)
    ensures Closed(headers + Members(batch), g)
  {
    var all := headers + Members(batch);
    forall h | h in all && h != g
      ensures h.parent.HashOf? && h.parent.header in all && h.number == h.parent.header.number + 1
    {
      if h in batch {
        var i :| 0 <= i < |batch| && batch[i] == h;
        if i > 0 {
          assert batch[i - 1] in batch;
          assert batch[i - 1 + 1] == h;
        }
      }
    }
  }

  /** The path of a header of the batch runs through the batch and on from what it hangs on. */
  lemma {:induction false} BatchPath(headers: set<Header>, g: Header, batch: seq<Header>, k: nat, n: nat)
    requires Closed(headers, g) && Linked(batch) && Attached(headers, batch) && k < |batch| && n <= batch[k].number
    ensures n >= batch[0].number ==> 0 <= n - batch[0].number <= k && Up(batch[k], n) == batch[n - batch[0].number]
    ensures n < batch[0].number ==> Up(batch[k], n) == Up(batch[0].parent.header, n)
    decreases k
  {
    LinkedAt(batch, k);
    if n < batch[k].number && k > 0 {
      assert batch[k - 1 + 1].parent == HashOf(batch[k - 1]);
      BatchPath(headers, g, batch, k - 1, n);
    }
  }

  /** In a batch the known headers come first: what follows an unknown header is unknown. */
  lemma KnownFirst(headers: set<Header>, g: Header, batch: seq<Header>, i: nat)
    requires Closed(headers, g) && Linked(batch) && 0 < i < |batch| && batch[i] in headers
    requires batch[0].number > 0
    ensures batch[i - 1] in headers
  {
    LinkedAt(batch, i);
    assert batch[i - 1 + 1].parent == HashOf(batch[i - 1]);
  }

  // ---------- The chain ----------

  datatype Status = NonStat | CanonStat | SideStat

  datatype WriteResult = WriteResult(status: Status, ignored: nat, imported: nat, last: Types.Option<Header>)

  /** Does the canonical chain move to a header of this difficulty and height? `coin` settles a tie at equal height. */
  predicate Reorgs(newTd: nat, localTd: nat, number: nat, head: nat, coin: bool)
  {
    newTd > localTd || (newTd == localTd && (number < head || (number == head && coin)))
  }

  class HeaderChain {
    ghost const genesis: Header
    var headers: set<Header>
    var td: map<Header, nat>
    var canonical: map<nat, Hash>
    var current: Header

    /** The stored tree: closed under parents, with the right difficulties, the current header at the top. */
    ghost predicate TreeValid()
      reads this
    {
      && Closed(headers, genesis)
      && Weighed(headers, td)
      && current in headers && (forall h :: h in headers ==> td[h] <= td[current])
      && (forall h :: h in headers && h != genesis ==> h.difficulty > 0)
    }

    ghost predicate Valid()
      reads this
    {
      TreeValid() && IsPath(canonical, current)
    }

    constructor (g: Header)
      requires IsGenesis(g)
      ensures Valid() && genesis == g == current && headers == {g}
    {
      genesis, current := g, g;
      headers, td, canonical := {g}, map[g := g.difficulty], map[0 := HashOf(g)];
    }

    function GetHeader(hash: Hash, number: int): (h: Types.Option<Header>)
      reads this
      ensures h.Some? <==> hash.HashOf? && hash.header in headers && hash.header.number == number
    {
      if hash.HashOf? && hash.header in headers && hash.header.number == number
      then Types.Some(hash.header) else Types.None
    }

    method Keep(hash: Hash, header: Header, newTd: nat) returns (isNew: bool)
      requires Closed(headers, genesis) && Weighed(headers, td) && newTd == TotalDifficulty(header)
      requires header.parent.HashOf? && header.parent.header in headers
      requires header.number == header.parent.header.number + 1
      requires hash == HashOf(header)
      modifies this`headers, this`td
      ensures headers == old(headers) + {header} && Closed(headers, genesis) && Weighed(headers, td)
      ensures isNew <==> header !in old(headers)
    {
      hide Closed, Weighed, TotalDifficulty;
      isNew := GetHeader(hash, header.number).None?;
      if isNew {
        StoreOne(headers, td, genesis, header, newTd);
        td, headers := td[header := newTd], headers + {header};
      }
    }

    /** Stores the headers that are not known yet; they are the tail of the batch. */
    method StoreAll(batch: seq<Header>) returns (newTd: nat, inserted: seq<Header>, firstInserted: int)
      requires TreeValid() && Linked(batch) && Attached(headers, batch)
      modifies this`headers, this`td
      ensures headers == old(headers) + Members(batch) && Closed(headers, genesis) && Weighed(headers, td)
      ensures newTd == TotalDifficulty(batch[|batch| - 1])
      ensures Split(old(headers), batch, inserted, firstInserted, |batch|)
    {
      hide Closed, Weighed, Split, TotalDifficulty, Members, Linked;
      var parent := Base(batch);
      WeighedAt(headers, td, parent);
      newTd := td[parent];
      inserted, firstInserted := [], -1;
      NothingSplit(headers, batch);
      for i := 0 to |batch|
        invariant headers == old(headers) + Members(batch[..i]) && Closed(headers, genesis) && Weighed(headers, td)
        invariant newTd == TotalDifficulty(Before(batch, i)) && Before(batch, i) in headers
        invariant Split(old(headers), batch, inserted, firstInserted, i)
      {
        var header := batch[i];
        var hash := if i < |batch| - 1 then batch[i + 1].parent else HashOf(header);
        newTd := newTd + header.difficulty;
        StepInBatch(old(headers), genesis, batch, i);
        SplitStep(old(headers), genesis, batch, inserted, firstInserted, i);
        var isNew := Keep(hash, header, newTd);
        if isNew {
          inserted := inserted + [header];
          if firstInserted < 0 { firstInserted := i; }
        }
      }
      assert batch[..|batch|] == batch;
    }

    /** Drops the canonical heights above `last`; they form a run, so the first gap is the end. */
    method DeleteAbove(last: nat) returns (marker: map<nat, Hash>)
      requires IsPath(canonical, current)
      ensures forall n: nat :: At(marker, n) == if n <= last then At(canonical, n) else Zero
    {
      hide Up;
      marker := canonical;
      var i := last + 1;
      while At(canonical, i) != Zero
        invariant i > last && (i > last + 1 ==> i <= current.number + 1)
        invariant forall n: nat :: At(marker, n) == if last < n < i then Zero else At(canonical, n)
        decreases current.number - i
      {
        AtWithout(marker, i);
        marker := marker - {i};
        i := i + 1;
      }
    }

    /** Going back from `base`, overwrites canonical hashes until one is right already. */
    method Rewind(marker: map<nat, Hash>, base: Header) returns (r: map<nat, Hash>)
      requires Closed(headers, genesis) && current in headers && base in headers && IsPath(canonical, current)
      requires forall n: nat :: n <= base.number ==> At(marker, n) == At(canonical, n)
      ensures forall n: nat :: At(r, n) == if n <= base.number then HashOf(Up(base, n)) else At(marker, n)
    {
      hide Closed, Up, IsPath;
      r := marker;
      var headHash, headNumber: nat := HashOf(base), base.number;
      UpSelf(base);
      while At(canonical, headNumber) != headHash
        invariant headNumber <= base.number && headHash == HashOf(Up(base, headNumber))
        invariant forall n: nat ::
          At(r, n) == if headNumber < n <= base.number then HashOf(Up(base, n)) else At(marker, n)
        decreases headNumber
      {
        AtWith(r, headNumber, headHash);
        r := r[headNumber := headHash];
        UpStored(headers, genesis, base, headNumber);
        GenesisIsCanonical(headers, genesis, canonical, current);
        UpParent(headers, genesis, base, headNumber);
        var headHeader := GetHeader(headHash, headNumber).value;
        headHash, headNumber := headHeader.parent, headHeader.number - 1;
      }
      Meets(headers, genesis, canonical, current, base, headNumber);
    }

    /** Makes linked headers canonical. */
    method Mark(marker: map<nat, Hash>, hs: seq<Header>) returns (r: map<nat, Hash>)
      requires Linked(hs)
      ensures forall n: nat :: At(r, n) == if Covers(hs, n) then HashOf(hs[n - hs[0].number]) else At(marker, n)
    {
      r := marker;
      for i := 0 to |hs|
        invariant forall n: nat ::
          At(r, n) == if Covers(hs[..i], n) then HashOf(hs[n - hs[0].number]) else At(marker, n)
      {
        LinkedAt(hs, i);
        ghost var before := r;
        AtWith(r, hs[i].number, HashOf(hs[i]));
        r := r[hs[i].number := HashOf(hs[i])];
        forall n: nat
          ensures At(r, n) == if Covers(hs[..i + 1], n) then HashOf(hs[n - hs[0].number]) else At(marker, n)
        {
          assert At(r, n) == if n == hs[i].number then HashOf(hs[i]) else At(before, n);
        }
      }
    }

    /** The new canonical map when the chain moves to the end of the batch. */
    method Remark(batch: seq<Header>, inserted: seq<Header>, firstInserted: int) returns (marker: map<nat, Hash>)
      requires Closed(headers, genesis) && current in headers && IsPath(canonical, current)
      requires Linked(batch) && Attached(headers, batch)
      requires |inserted| <= |batch| && inserted == batch[|batch| - |inserted|..]
      requires firstInserted == if inserted == [] then -1 else |batch| - |inserted|
      requires Base(batch) == current ==> |inserted| == |batch|
      ensures Moved(canonical, marker, batch, inserted != [])
    {
      hide Closed, Up, IsPath, Linked;
      LinkedAt(batch, |batch| - 1);
      LinkedParts(batch, |batch| - |inserted|);
      marker := canonical;
      if HashOf(current) != batch[0].parent {
        marker := DeleteAbove(batch[|batch| - 1].number);
        marker := Rewind(marker, Base(batch));
        if firstInserted > 0 {
          marker := Mark(marker, batch[..firstInserted]);
        }
      } else {
        PathEntries(canonical, current);
      }
      marker := Mark(marker, inserted);
    }

    /**
     Imports linked headers of positive difficulty. The tree stays right, the current header keeps
     the highest total difficulty, and the canonical map is the path to it exactly unless the chain
     moves to another header through a batch that holds nothing new.
     */
    method WriteHeaders(batch: seq<Header>, coin: bool) returns (result: WriteResult, unknownAncestor: bool)
      requires Valid() && Linked(batch) && Positive(batch)
      modifies this`headers, this`td, this`canonical, this`current
      ensures TreeValid()
      ensures unknownAncestor <==> batch != [] && !Attached(old(headers), batch)
      ensures unknownAncestor || batch == [] ==>
        && Valid() && headers == old(headers) && canonical == old(canonical) && current == old(current)
        && result.status == NonStat
      ensures !unknownAncestor && batch != [] ==>
        var last := batch[|batch| - 1]; var reorg := Moves(last, old(current), coin);
        && headers == old(headers) + Members(batch) && result.last == Types.Some(last)
        && current == (if reorg then last else old(current))
        && (!reorg ==> canonical == old(canonical))
        && (reorg ==> Moved(old(canonical), canonical, batch, result.imported > 0))
        && result.imported + result.ignored == |batch|
        && (forall i :: 0 <= i < |batch| ==> (batch[i] in old(headers) <==> i < result.ignored))
        && result.status == (if result.imported == 0 then NonStat else if reorg then CanonStat else SideStat)
        && (Valid() <==> result.imported > 0 || !reorg || last == old(current))
    {
      hide Closed, Weighed, IsPath, Up, TotalDifficulty, Members, Linked, Moved, Split;
      unknownAncestor := false;
      if batch == [] { return WriteResult(NonStat, 0, 0, Types.None), false; }
      if GetHeader(batch[0].parent, batch[0].number - 1).None? { return WriteResult(NonStat, 0, 0, Types.None), true; }
      ghost var known := headers;
      Heaviest(headers, td, current);
      var newTd, inserted, firstInserted := StoreAll(batch);
      SplitAll(known, batch, inserted, firstInserted);
      var last := batch[|batch| - 1];
      WeighedAt(headers, td, current);
      var reorg := Reorgs(newTd, td[current], last.number, current.number, coin);
      StillTree(known, headers, td, genesis, batch, current, reorg);
      if reorg {
        ExtendsCurrent(known, genesis, batch, current, inserted);
        ghost var was := canonical;
        var marker := Remark(batch, inserted, firstInserted);
        MovedPath(known, genesis, was, marker, batch, current, inserted != []);
        canonical, current := marker, last;
      }
      var status := if inserted == [] then NonStat else if reorg then CanonStat else SideStat;
      result := WriteResult(status, |batch| - |inserted|, |inserted|, Types.Some(last));
    }

    /** Any sequence of batches, each with something new if it attaches, keeps the whole invariant. */
    method ImportAll(batches: seq<seq<Header>>, coins: nat -> bool)
      requires Valid() && AllFresh(headers, batches)
      requires forall i :: 0 <= i < |batches| ==> Linked(batches[i]) && Positive(batches[i])
      modifies this`headers, this`td, this`canonical, this`current
      ensures Valid()
    {
      hide HeaderChain.TreeValid, IsPath, Moved, Moves, Linked, Positive;
      for i := 0 to |batches|
        invariant Valid() && AllFresh(headers, batches[i..])
      {
        assert batches[i..][0] == batches[i] && batches[i..][1..] == batches[i + 1..];
        var result, unknownAncestor := WriteHeaders(batches[i], coins(i));
      }
    }
  }

  ghost predicate Weighed(headers: set<Header>, td: map<Header, nat>)
  {
    td.Keys == headers && forall h :: h in headers ==> td[h] == TotalDifficulty(h)
  }

  lemma WeighedAt(headers: set<Header>, td: map<Header, nat>, h: Header)
    requires Weighed(headers, td) && h in headers
    ensures h in td && td[h] == TotalDifficulty(h)
  {
  }

  lemma StoreOne(headers: set<Header>, td: map<Header, nat>, g: Header, h: Header, newTd: nat)
    requires Closed(headers, g) && Weighed(headers, td) && newTd == TotalDifficulty(h)
    requires h.parent.HashOf? && h.parent.header in headers && h.number == h.parent.header.number + 1
    ensures Closed(headers + {h}, g) && Weighed(headers + {h}, td[h := newTd])
  {
    hide TotalDifficulty;
  }

  function Base(batch: seq<Header>): Header
    requires batch != [] && batch[0].parent.HashOf?
  {
    batch[0].parent.header
  }

  /** The header in front of place `i`. */
  function Before(batch: seq<Header>, i: nat): Header
    requires batch != [] && batch[0].parent.HashOf? && i <= |batch|
  {
    if i == 0 then Base(batch) else batch[i - 1]
  }

  /** Of the first `i` headers of a batch the unknown ones are the last, and they are `inserted`. */
  ghost predicate Split(known: set<Header>, batch: seq<Header>, inserted: seq<Header>, firstInserted: int, i: nat)
    requires i <= |batch|
  {
    && |inserted| <= i && inserted == batch[i - |inserted|..i]
    && firstInserted == (if inserted == [] then -1 else i - |inserted|)
    && forall j :: 0 <= j < i ==> (batch[j] in known <==> j < i - |inserted|)
  }

  lemma NothingSplit(known: set<Header>, batch: seq<Header>)
    ensures Split(known, batch, [], -1, 0) && Members(batch[..0]) == {}
  {
  }

  lemma SplitStep(known: set<Header>, g: Header, batch: seq<Header>, inserted: seq<Header>, firstInserted: int, i: nat)
    requires Closed(known, g) && Linked(batch) && Attached(known, batch) && i < |batch|
    requires Split(known, batch, inserted, firstInserted, i)
    ensures batch[i] in known ==> Split(known, batch, inserted, firstInserted, i + 1)
    ensures batch[i] !in known ==>
      Split(known, batch, inserted + [batch[i]], if firstInserted < 0 then i else firstInserted, i + 1)
  {
    if batch[i] in known {
      if i > 0 { KnownFirst(known, g, batch, i); }
    } else {
      var more := inserted + [batch[i]];
      assert batch[i + 1 - |more|..i + 1] == batch[i - |inserted|..i] + [batch[i]];
    }
  }

  /** What one more header of the batch means. */
  lemma StepInBatch(known: set<Header>, g: Header, batch: seq<Header>, i: nat)
    requires Closed(known, g) && Linked(batch) && Attached(known, batch) && i < |batch|
    ensures batch[i].parent == HashOf(Before(batch, i)) && batch[i].number == Before(batch, i).number + 1
    ensures i < |batch| - 1 ==> batch[i + 1].parent == HashOf(batch[i])
    ensures batch[i] !in Members(batch[..i])
    ensures Members(batch[..i + 1]) == Members(batch[..i]) + {batch[i]}
    ensures TotalDifficulty(batch[i]) == batch[i].difficulty + TotalDifficulty(Before(batch, i))
  {
    LinkedAt(batch, i);
    if i > 0 { assert batch[i - 1 + 1].parent == HashOf(batch[i - 1]); }
    forall j | 0 <= j < i ensures batch[j] != batch[i] { LinkedAt(batch, j); }
  }

  /**
   The path of what the batch hangs on, then the batch itself, or what was there before if
   nothing in the batch is new.
   */
  ghost predicate Moved(canonical: map<nat, Hash>, marker: map<nat, Hash>, batch: seq<Header>, isNew: bool)
    requires batch != [] && batch[0].parent.HashOf?
  {
    forall n: nat :: At(marker, n) ==
      if n <= Base(batch).number then HashOf(Up(Base(batch), n)) else
      if !Covers(batch, n) then Zero else
      if isNew then HashOf(batch[n - batch[0].number]) else At(canonical, n)
  }

  /** Is `n` the height of one of these linked headers? */
  ghost predicate Covers(hs: seq<Header>, n: nat) { hs != [] && hs[0].number <= n < hs[0].number + |hs| }

  lemma LinkedParts(batch: seq<Header>, k: nat)
    requires Linked(batch) && k <= |batch|
    ensures Linked(batch[..k]) && Linked(batch[k..])
    ensures k < |batch| ==> batch[k..][0].number == batch[0].number + k
  {
    if k < |batch| { LinkedAt(batch, k); }
  }

  lemma AtWith(m: map<nat, Hash>, k: nat, hash: Hash)
    ensures forall n: nat :: At(m[k := hash], n) == if n == k then hash else At(m, n)
  {
    var m' := m[k := hash];
    forall n: nat ensures At(m', n) == if n == k then hash else At(m, n) {
      assert n in m' <==> n == k || n in m;
    }
  }

  lemma AtWithout(m: map<nat, Hash>, k: nat)
    ensures forall n: nat :: At(m - {k}, n) == if n == k then Zero else At(m, n)
  {
  }

  lemma UpSelf(h: Header)
    ensures Up(h, h.number) == h
  {
  }

  lemma PathEntries(canonical: map<nat, Hash>, h: Header)
    requires IsPath(canonical, h)
    ensures forall n: nat :: At(canonical, n) == if n <= h.number then HashOf(Up(h, n)) else Zero
  {
  }

  lemma GenesisIsCanonical(headers: set<Header>, g: Header, canonical: map<nat, Hash>, h: Header)
    requires Closed(headers, g) && h in headers && IsPath(canonical, h)
    ensures At(canonical, 0) == HashOf(g) && g.number == 0
  {
    UpStored(headers, g, h, 0);
  }

  lemma UpParent(headers: set<Header>, g: Header, h: Header, n: nat)
    requires Closed(headers, g) && h in headers && n <= h.number && Up(h, n) != g
    ensures n > 0 && Up(h, n).parent == HashOf(Up(h, n - 1))
  {
    UpStored(headers, g, h, n);
    UpUp(headers, g, h, n, n - 1);
    var x := Up(h, n);
    assert Up(x, n - 1) == Up(x.parent.header, n - 1);
  }

  /** Two paths that agree at one height agree below. */
  lemma Meets(headers: set<Header>, g: Header, canonical: map<nat, Hash>, h: Header, base: Header, n: nat)
    requires Closed(headers, g) && h in headers && base in headers && n <= base.number
    requires IsPath(canonical, h) && At(canonical, n) == HashOf(Up(base, n))
    ensures forall m: nat :: m <= n ==> At(canonical, m) == HashOf(Up(base, m))
  {
    hide Closed, Up;
    forall m: nat | m <= n ensures At(canonical, m) == HashOf(Up(base, m)) {
      UpUp(headers, g, h, n, m);
      UpUp(headers, g, base, n, m);
    }
  }

  // ---------- What a batch does to the chain ----------

  /** Does the batch hold a header that is not stored? */
  ghost predicate Fresh(headers: set<Header>, batch: seq<Header>)
  {
    exists k :: 0 <= k < |batch| && batch[k] !in headers
  }

  /** Every batch that attaches when its turn comes holds a header that is not stored by then. */
  ghost predicate AllFresh(headers: set<Header>, batches: seq<seq<Header>>)
    decreases |batches|
  {
    batches == [] ||
    if batches[0] != [] && Attached(headers, batches[0])
    then Fresh(headers, batches[0]) && AllFresh(headers + Members(batches[0]), batches[1..])
    else AllFresh(headers, batches[1..])
  }

  /** Does the canonical chain move from `current` to `last`? */
  ghost predicate Moves(last: Header, current: Header, coin: bool)
  {
    Reorgs(TotalDifficulty(last), TotalDifficulty(current), last.number, current.number, coin)
  }

  lemma SplitAll(known: set<Header>, batch: seq<Header>, inserted: seq<Header>, firstInserted: int)
    requires Split(known, batch, inserted, firstInserted, |batch|)
    ensures |inserted| <= |batch| && inserted == batch[|batch| - |inserted|..]
    ensures firstInserted == if inserted == [] then -1 else |batch| - |inserted|
    ensures forall i :: 0 <= i < |batch| ==> (batch[i] in known <==> i < |batch| - |inserted|)
  {
  }

  lemma Heaviest(headers: set<Header>, td: map<Header, nat>, current: Header)
    requires Weighed(headers, td) && current in headers && forall h :: h in headers ==> td[h] <= td[current]
    ensures forall h :: h in headers ==> TotalDifficulty(h) <= TotalDifficulty(current)
  {
    hide TotalDifficulty;
    forall h | h in headers ensures TotalDifficulty(h) <= TotalDifficulty(current) {
      assert td[h] <= td[current];
    }
  }

  /** The tops of the tree before and of the batch decide the top of the tree afterwards. */
  lemma StillTree(known: set<Header>, headers: set<Header>, td: map<Header, nat>, g: Header, batch: seq<Header>,
                  current: Header, reorg: bool)
    requires Closed(known, g) && Linked(batch) && Attached(known, batch) && Positive(batch) && current in known
    requires headers == known + Members(batch) && Weighed(headers, td)
    requires forall h :: h in known ==> TotalDifficulty(h) <= TotalDifficulty(current)
    requires forall h :: h in known && h != g ==> h.difficulty > 0
    requires TotalDifficulty(batch[|batch| - 1]) > TotalDifficulty(current) ==> reorg
    requires reorg ==> TotalDifficulty(batch[|batch| - 1]) >= TotalDifficulty(current)
    ensures var top := if reorg then batch[|batch| - 1] else current;
      top in headers && forall h :: h in headers ==> td[h] <= td[top]
    ensures forall h :: h in headers && h != g ==> h.difficulty > 0
  {
    hide Closed, TotalDifficulty, Up, Linked;
    var last := batch[|batch| - 1];
    forall h | h in batch ensures TotalDifficulty(h) <= TotalDifficulty(last) {
      var i :| 0 <= i < |batch| && batch[i] == h;
      BatchLighter(known, g, batch, i);
    }
  }

  lemma BatchLighter(known: set<Header>, g: Header, batch: seq<Header>, i: nat)
    requires Closed(known, g) && Linked(batch) && Attached(known, batch) && i < |batch|
    ensures TotalDifficulty(batch[i]) <= TotalDifficulty(batch[|batch| - 1])
  {
    hide Closed, TotalDifficulty, Up, Linked;
    var all := known + Members(batch);
    var last := batch[|batch| - 1];
    ClosedWith(known, g, batch);
    LinkedAt(batch, i);
    LinkedAt(batch, |batch| - 1);
    BatchPath(known, g, batch, |batch| - 1, batch[i].number);
    assert last in all;
    UpLighter(all, g, last, batch[i].number);
  }

  /** A batch on top of the current header is new from the start: a known child would be heavier. */
  lemma ExtendsCurrent(known: set<Header>, g: Header, batch: seq<Header>, current: Header, inserted: seq<Header>)
    requires Attached(known, batch) && Positive(batch)
    requires forall h :: h in known ==> TotalDifficulty(h) <= TotalDifficulty(current)
    requires |inserted| <= |batch| && forall i :: 0 <= i < |batch| ==> (batch[i] in known <==> i < |batch| - |inserted|)
    ensures Base(batch) == current ==> |inserted| == |batch|
  {
    if Base(batch) == current {
      assert TotalDifficulty(batch[0]) > TotalDifficulty(current);
      assert batch[0] !in known;
    }
  }

  /** When the new map is the path to the new head. */
  lemma MovedPath(known: set<Header>, g: Header, canonical: map<nat, Hash>, marker: map<nat, Hash>,
                  batch: seq<Header>, current: Header, isNew: bool)
    requires Closed(known, g) && Linked(batch) && Attached(known, batch)
    requires current in known && IsPath(canonical, current)
    requires forall h :: h in known && h != g ==> h.difficulty > 0
    requires Moved(canonical, marker, batch, isNew)
    requires !isNew ==> batch[|batch| - 1] in known
    requires TotalDifficulty(batch[|batch| - 1]) >= TotalDifficulty(current)
    ensures IsPath(marker, batch[|batch| - 1]) <==> isNew || batch[|batch| - 1] == current
  {
    hide Closed, TotalDifficulty, Up, Linked;
    var last := batch[|batch| - 1];
    LinkedAt(batch, |batch| - 1);
    if isNew || last == current {
      forall n: nat ensures At(marker, n) == if n <= last.number then HashOf(Up(last, n)) else Zero {
        if n <= last.number { BatchPath(known, g, batch, |batch| - 1, n); }
      }
    } else if IsPath(marker, last) {
      UpSelf(last);
      assert At(marker, last.number) == At(canonical, last.number);
      Lightest(known, g, current, last.number);
    }
  }

  lemma Lightest(known: set<Header>, g: Header, current: Header, n: nat)
    requires Closed(known, g) && current in known && n <= current.number
    requires forall h :: h in known && h != g ==> h.difficulty > 0
    requires TotalDifficulty(Up(current, n)) >= TotalDifficulty(current)
    ensures Up(current, n) == current
  {
    UpLighter(known, g, current, n);
  }

  // ---------- A batch without news ----------

  /** A batch of one header that hangs on a stored one. */
  method WriteOne(hc: HeaderChain, h: Header, coin: bool) returns (ghost reorg: bool)
    requires hc.Valid() && h.difficulty > 0 && Attached(hc.headers, [h])
    modifies hc
    ensures hc.TreeValid() && hc.headers == old(hc.headers) + {h}
    ensures reorg == Moves(h, old(hc.current), coin) && hc.current == (if reorg then h else old(hc.current))
    ensures hc.Valid() <==> h !in old(hc.headers) || !reorg || h == old(hc.current)
    ensures !reorg ==> hc.canonical == old(hc.canonical)
    ensures h in old(hc.headers) ==> At(hc.canonical, h.number) == old(At(hc.canonical, h.number))
  {
    hide HeaderChain.TreeValid, IsPath, TotalDifficulty, Up;
    reorg := Moves(h, hc.current, coin);
    var r, e := hc.WriteHeaders([h], coin);
    assert [h][0] == h && Members([h]) == {h};
    assert Covers([h], h.number);
  }

  /**
   Two headers at height one, equally heavy: writing the second again when it is known already
   and winning the coin toss makes it current, but the canonical map keeps the first.
   */
  method KnownTieBreaks() returns (hc: HeaderChain, a: Header, b: Header)
    ensures !hc.Valid() && hc.TreeValid() && hc.current == b != a && At(hc.canonical, 1) == HashOf(a)
  {
    var g := Header(Zero, 0, 1, 0);
    a, b := Header(HashOf(g), 1, 1, 0), Header(HashOf(g), 1, 1, 1);
    assert TotalDifficulty(g) == 1 && TotalDifficulty(a) == TotalDifficulty(b) == 2 && Up(a, 1) == a;
    hide HeaderChain.TreeValid, TotalDifficulty, Up;
    hc := new HeaderChain(g);
    ghost var moved := WriteOne(hc, a, false);
    moved := WriteOne(hc, b, false);
    assert At(hc.canonical, 1) == HashOf(a);
    moved := WriteOne(hc, b, true);
  }
}
