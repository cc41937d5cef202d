/**
 The section indexer: it stores the head of every finished section of the canonical chain while
 the chain may change between any two of its reads.
 */
module Indexer {
  import opened HeaderChain
  import opened Ancestors
  import Types

  /** The chain as one read of the indexer sees it. */
  datatype Chain = Chain(headers: set<Header>, canonical: map<nat, Hash>)

  /** The height at which a section starts. */
  function Start(section: nat, size: Types.pos): nat
  {
    if section == 0 then 0 else Start(section - 1, size) + size
  }

  lemma {:induction false} StartIsProduct(section: nat, size: Types.pos)
    ensures Start(section, size) == section * size
    decreases section
  {
    if section > 0 {
      StartIsProduct(section - 1, size);
      assert (section - 1) * size + size == section * size;
    }
  }

  /** How many whole sections fit below a height. */
  function Whole(height: nat, size: Types.pos): nat
    decreases height
  {
    if height < size then 0 else 1 + Whole(height - size, size)
  }

  lemma {:induction false} WholeIsQuotient(height: nat, size: Types.pos)
    ensures Start(Whole(height, size), size) <= height < Start(Whole(height, size), size) + size
    decreases height
  {
    if height >= size {
      WholeIsQuotient(height - size, size);
    }
  }

  /** `head` ends a section whose blocks follow one another from `oldHead` on. */
  ghost predicate Follows(head: Hash, oldHead: Hash, section: nat, size: Types.pos)
  {
    && head.HashOf? && head.header.number == Start(section, size) + size - 1
    && Parent(head, size) == oldHead
  }

  ghost function HeadOf(heads: map<nat, Hash>, section: int): Hash
  {
    if section >= 0 && section in heads then heads[section] else Zero
  }

  /** The head of section `i` follows that of the section before. */
  ghost predicate Link(heads: map<nat, Hash>, i: nat, size: Types.pos)
  {
    Follows(HeadOf(heads, i), HeadOf(heads, i - 1), i, size)
  }

  /** There are heads for exactly the sections below `stored`, each a section's length behind the next. */
  ghost predicate Chained(heads: map<nat, Hash>, stored: nat, size: Types.pos)
  {
    && (forall i: nat :: i in heads <==> i < stored)
    && (forall i: nat :: i < stored ==> Link(heads, i, size))
  }

  /** The first `count` heads are the same. */
  ghost predicate Kept(heads: map<nat, Hash>, heads': map<nat, Hash>, count: nat)
  {
    forall i: nat :: i < count ==> HeadOf(heads', i) == HeadOf(heads, i)
  }

  /**
   Only the last head is ever compared with the chain. Where the canonical map is parent-linked,
   that settles all heads.
   */
  lemma {:induction false} AllHeadsCanonical(heads: map<nat, Hash>, stored: nat, size: Types.pos,
                                             canonical: map<nat, Hash>, i: nat)
    requires Chained(heads, stored, size) && ParentLinked(canonical) && i < stored
    requires HeadOf(heads, stored - 1) == At(canonical, Start(stored, size) - 1)
    ensures HeadOf(heads, i) == At(canonical, Start(i + 1, size) - 1)
    decreases stored - i
  {
    hide HeadOf, At, Parent, ParentLinked;
    if i < stored - 1 {
      AllHeadsCanonical(heads, stored, size, canonical, i + 1);
      assert Link(heads, i + 1, size);
      assert Start(i + 2, size) == Start(i + 1, size) + size;
      CanonicalParents(canonical, Start(i + 2, size) - 1, size);
    }
  }

  /** The heads without those of the sections from `low` up to but excluding `high`. */
  ghost function Forget(heads: map<nat, Hash>, low: nat, high: nat): map<nat, Hash>
  {
    map i | i in heads && !(low <= i < high) :: heads[i]
  }

  lemma ForgetNone(heads: map<nat, Hash>, low: nat, high: nat)
    ensures low >= high ==> Forget(heads, low, high) == heads
  {
  }

  lemma ForgetOne(heads: map<nat, Hash>, low: nat, high: nat)
    requires 0 < low <= high
    ensures Forget(heads, low, high) - {low - 1} == Forget(heads, low - 1, high)
  {
  }

  lemma KeptFront(heads: map<nat, Hash>, count: nat, stored: nat)
    ensures Kept(heads, Forget(heads, count, stored), count)
  {
  }

  lemma ForgetChained(heads: map<nat, Hash>, stored: nat, size: Types.pos, count: nat)
    requires Chained(heads, stored, size)
    ensures Chained(Forget(heads, count, stored), count, size) <==> count <= stored
  {
    hide Follows;
    var fewer := Forget(heads, count, stored);
    if count <= stored {
      forall i: nat | i < count ensures Link(fewer, i, size) {
        assert Link(heads, i, size);
      }
    } else {
      assert stored !in fewer;
    }
  }

  lemma ChainedLonger(heads: map<nat, Hash>, stored: nat, size: Types.pos, head: Hash)
    requires Chained(heads, stored, size) && Follows(head, HeadOf(heads, stored - 1), stored, size)
    ensures Chained(heads[stored := head], stored + 1, size) && Kept(heads, heads[stored := head], stored)
  {
    hide Follows;
    var more := heads[stored := head];
    forall i: nat | i < stored + 1 ensures Link(more, i, size) {
      assert i < stored ==> Link(heads, i, size);
    }
  }

  lemma KeptFewer(a: map<nat, Hash>, b: map<nat, Hash>, c: map<nat, Hash>, count: nat, fewer: nat)
    requires Kept(a, b, count) && Kept(b, c, fewer) && fewer <= count
    ensures Kept(a, c, fewer)
  {
    hide HeadOf;
  }

  lemma NotThere(heads: map<nat, Hash>, stored: nat, size: Types.pos, section: nat)
    requires Chained(heads, stored, size)
    ensures 0 < section == stored ==> HeadOf(heads, section - 1).HashOf?
    ensures section > stored ==> HeadOf(heads, section - 1).Zero?
  {
    if 0 < section == stored { assert Link(heads, section - 1, size); }
  }

  /** What others do to the indexer while it works on a section. */
  datatype Event = NewHead(head: nat) | Reorg(head: nat) | Query(views: nat -> Chain)

  /** The outcome of the backend: which of its calls fail. */
  datatype Backend = Backend(reset: bool, process: nat -> bool, commit: bool)

  /** One round of the update loop and what happens around it. */
  datatype Round = Round(before: seq<Event>, views: nat -> nat -> Chain, backend: Backend, early: seq<Event>,
                         late: seq<Event>)

  class ChainIndexer {
    const sectionSize: Types.pos
    const confirmsReq: nat
    var storedSections: nat
    var knownSections: nat
    var cascadedHead: int
    var heads: map<nat, Hash>

    ghost predicate Valid()
      reads this`heads, this`storedSections
    {
      Chained(heads, storedSections, sectionSize)
    }

    constructor (sectionSize: Types.pos, confirmsReq: nat)
      ensures Valid() && storedSections == 0 && this.sectionSize == sectionSize
    {
      this.sectionSize, this.confirmsReq := sectionSize, confirmsReq;
      storedSections, knownSections, cascadedHead, heads := 0, 0, 0, map[];
    }

    function SectionHead(section: int): (h: Hash)
      reads this`heads
      ensures h == HeadOf(heads, section)
    {
      if section >= 0 && section in heads then heads[section] else Zero
    }

    /** A section being worked on: its predecessor's head is still there unless sections were rolled back. */
    ghost predicate Working(section: nat, oldHead: Hash)
      reads this`heads, this`storedSections
    {
      storedSections <= section && (storedSections == section ==> HeadOf(heads, section - 1) == oldHead)
    }

    /**
     Sets the number of sections and removes the heads beyond it. The heads still belong to the
     sections exactly if none was added that has no head.
     */
    method SetValidSections(sections: nat)
      modifies this`storedSections, this`heads
      ensures storedSections == sections
      ensures heads == Forget(old(heads), sections, old(storedSections))
      ensures old(Valid()) ==> (Valid() <==> sections <= old(storedSections))
      ensures sections <= old(storedSections) ==> Kept(old(heads), heads, sections)
    {
      ghost var before, stored := heads, storedSections;
      if old(Valid()) {
        ForgetChained(heads, stored, sectionSize, sections);
      }
      KeptFront(heads, sections, stored);
      ForgetNone(heads, stored, stored);
      ForgetNone(heads, sections, stored);
      hide Chained, Kept, HeadOf, Forget;
      while storedSections > sections
        invariant stored <= sections ==> storedSections == stored
        invariant stored > sections ==> sections <= storedSections <= stored
        invariant heads == Forget(before, storedSections, stored)
        decreases storedSections
      {
        ForgetOne(before, storedSections, stored);
        storedSections := storedSections - 1;
        heads := heads - {storedSections};
      }
      storedSections := sections;
    }

    /** Forgets sections until the last head is canonical; returns what the last comparison saw. */
    method VerifyLastHead(views: nat -> Chain) returns (ghost seen: Chain)
      requires Valid()
      modifies this`storedSections, this`heads
      ensures Valid() && storedSections <= old(storedSections) && Kept(old(heads), heads, storedSections)
      ensures storedSections > 0 ==>
        HeadOf(heads, storedSections - 1) == At(seen.canonical, Start(storedSections, sectionSize) - 1)
    {
      hide Chained, Kept, HeadOf;
      var k := 0;
      seen := views(0);
      KeptAll(heads, storedSections);
      while storedSections > 0
        invariant Valid() && storedSections <= old(storedSections) && Kept(old(heads), heads, storedSections)
        decreases storedSections
      {
        seen := views(k);
        if SectionHead(storedSections - 1) == At(views(k).canonical, Start(storedSections, sectionSize) - 1) { return; }
        ghost var before := heads;
        SetValidSections(storedSections - 1);
        KeptFewer(old(heads), before, heads, storedSections + 1, storedSections);
        k := k + 1;
      }
    }

    /** A new head of the chain, or a reorganisation down to a common ancestor. */
    method OnHead(head: nat, reorg: bool)
      requires Valid()
      modifies this`storedSections, this`knownSections, this`cascadedHead, this`heads
      ensures Valid() && storedSections <= old(storedSections) && Kept(old(heads), heads, storedSections)
      ensures !reorg ==>
        && storedSections == old(storedSections) && cascadedHead == old(cascadedHead)
        && knownSections == (
          if head < confirmsReq then old(knownSections)
          else Types.Max(Whole(head + 1 - confirmsReq, sectionSize), old(knownSections)))
      ensures reorg ==>
        var whole := Whole(head + 1, sectionSize);
        && storedSections == Types.Min(whole, old(storedSections))
        && knownSections == Types.Min(whole, old(knownSections))
        && cascadedHead == Types.Min(Start(whole, sectionSize), old(cascadedHead))
    {
      hide Chained, Kept;
      KeptAll(heads, storedSections);
      if reorg {
        var known := Whole(head + 1, sectionSize);
        if known < knownSections { knownSections := known; }
        if known < storedSections { SetValidSections(known); }
        var end := Start(known, sectionSize);
        if end < cascadedHead { cascadedHead := end; }
        return;
      }
      if head >= confirmsReq {
        var sections := Whole(head + 1 - confirmsReq, sectionSize);
        if sections > knownSections { knownSections := sections; }
      }
    }

    /** How many sections are indexed, the last block of the last one, and its hash. */
    method Sections(views: nat -> Chain) returns (count: nat, last: int, head: Hash, ghost seen: Chain)
      requires Valid()
      modifies this`storedSections, this`heads
      ensures Valid() && storedSections <= old(storedSections) && Kept(old(heads), heads, storedSections)
      ensures count == storedSections && last == Start(count, sectionSize) - 1 && head == HeadOf(heads, count - 1)
      ensures ParentLinked(seen.canonical) ==>
        forall i: nat :: i < count ==> HeadOf(heads, i) == At(seen.canonical, Start(i + 1, sectionSize) - 1)
    {
      seen := VerifyLastHead(views);
      count, last, head := storedSections, Start(storedSections, sectionSize) - 1, SectionHead(storedSections - 1);
      hide Chained, Kept, HeadOf, ParentLinked, At;
      if ParentLinked(seen.canonical) {
        forall i: nat | i < count ensures HeadOf(heads, i) == At(seen.canonical, Start(i + 1, sectionSize) - 1) {
          AllHeadsCanonical(heads, count, sectionSize, seen.canonical, i);
        }
      }
    }

    /** Starts on the next section, remembering the head it has to follow. */
    method BeginUpdate(views: nat -> Chain) returns (section: nat, oldHead: Hash)
      requires Valid()
      modifies this`storedSections, this`heads
      ensures Valid() && Working(section, oldHead) && section == storedSections && oldHead == HeadOf(heads, section - 1)
    {
      hide Chained;
      ghost var seen := VerifyLastHead(views);
      section := storedSections;
      oldHead := Zero;
      if section > 0 { oldHead := SectionHead(section - 1); }
    }

    /** Reads a section block by block; every block must follow the one before. */
    method ProcessSection(section: nat, oldHead: Hash, views: nat -> Chain, backend: Backend)
      returns (head: Hash, err: bool)
      requires Valid() && Working(section, oldHead)
      modifies this`storedSections, this`heads
      ensures Valid() && Working(section, oldHead)
      ensures !err ==> Follows(head, oldHead, section, sectionSize)
      ensures storedSections == if backend.reset then 0 else old(storedSections)
    {
      hide Chained, Kept;
      if backend.reset {
        ForgetAll(section, oldHead);
        return Zero, true;
      }
      head := oldHead;
      for k := 0 to sectionSize
        invariant Parent(head, k) == oldHead
        invariant k > 0 ==> head.HashOf? && head.header.number == Start(section, sectionSize) + k - 1
      {
        var number := Start(section, sectionSize) + k;
        var hash := At(views(2 * k).canonical, number);
        if hash == Zero { return Zero, true; }
        if hash.header !in views(2 * k + 1).headers || hash.header.number != number { return Zero, true; }
        var header := hash.header;
        if header.parent != head { return Zero, true; }
        if backend.process(k) { return Zero, true; }
        head := HashOf(header);
      }
      if backend.commit { return Zero, true; }
      return head, false;
    }

    method ForgetAll(ghost section: nat, ghost oldHead: Hash)
      requires Valid() && Working(section, oldHead)
      modifies this`storedSections, this`heads
      ensures Valid() && Working(section, oldHead) && storedSections == 0
    {
      hide Chained;
      SetValidSections(0);
    }

    /** Stores the head of the section unless something went wrong or sections were rolled back meanwhile. */
    method FinishUpdate(section: nat, oldHead: Hash, head: Hash, err: bool, views: nat -> Chain)
      requires Valid() && Working(section, oldHead)
      requires !err ==> Follows(head, oldHead, section, sectionSize)
      requires section > 0 ==> oldHead.HashOf?
      modifies this`storedSections, this`knownSections, this`cascadedHead, this`heads
      ensures Valid()
      ensures !err && old(storedSections) == section ==>
        && storedSections == section + 1 && HeadOf(heads, section) == head && Kept(old(heads), heads, section)
        && cascadedHead == Start(storedSections, sectionSize) - 1 && knownSections == old(knownSections)
      ensures err || old(storedSections) < section ==>
        && storedSections <= old(storedSections) && knownSections == storedSections
        && Kept(old(heads), heads, storedSections)
    {
      hide Chained, Kept, Follows, Start;
      NotThere(heads, storedSections, sectionSize, section);
      if !err && (section == 0 || oldHead == SectionHead(section - 1)) {
        ChainedLonger(heads, storedSections, sectionSize, head);
        heads := heads[section := head];
        ForgetNone(heads, section + 1, storedSections);
        SetValidSections(section + 1);
        cascadedHead := Start(storedSections, sectionSize) - 1;
      } else {
        ghost var seen := VerifyLastHead(views);
        knownSections := storedSections;
      }
    }

    /** What another part of the program does in between. */
    method Handle(event: Event, ghost section: nat, ghost oldHead: Hash)
      requires Valid() && Working(section, oldHead)
      modifies this`storedSections, this`knownSections, this`cascadedHead, this`heads
      ensures Valid() && Working(section, oldHead)
    {
      hide Chained, Start, Whole, ParentLinked, At;
      match event {
        case NewHead(head) => OnHead(head, false);
        case Reorg(head) => OnHead(head, true);
        case Query(views) => { ghost var seen; var count, last, h; count, last, h, seen := Sections(views); }
      }
    }

    method HandleAll(events: seq<Event>, ghost section: nat, ghost oldHead: Hash)
      requires Valid() && Working(section, oldHead)
      modifies this`storedSections, this`knownSections, this`cascadedHead, this`heads
      ensures Valid() && Working(section, oldHead)
    {
      hide Chained, Working;
      for i := 0 to |events|
        invariant Valid() && Working(section, oldHead)
      {
        Handle(events[i], section, oldHead);
      }
    }

    /** One round of the update loop, with anything happening before and after the backend is reset. */
    method Update(views: nat -> nat -> Chain, backend: Backend, early: seq<Event>, late: seq<Event>)
      requires Valid()
      modifies this`storedSections, this`knownSections, this`cascadedHead, this`heads
      ensures Valid()
    {
      hide Chained, Working, Follows;
      if knownSections > storedSections {
        var section, oldHead := BeginUpdate(views(0));
        NotThere(heads, storedSections, sectionSize, section);
        HandleAll(early, section, oldHead);
        var head, err := ProcessSection(section, oldHead, views(1), backend);
        HandleAll(late, section, oldHead);
        FinishUpdate(section, oldHead, head, err, views(2));
      }
    }

    /** Any number of rounds, with anything happening before each. */
    method RunAll(rounds: seq<Round>)
      requires Valid()
      modifies this`storedSections, this`knownSections, this`cascadedHead, this`heads
      ensures Valid()
    {
      hide Chained;
      for i := 0 to |rounds|
        invariant Valid()
      {
        HandleAll(rounds[i].before, storedSections, HeadOf(heads, storedSections - 1));
        Update(rounds[i].views, rounds[i].backend, rounds[i].early, rounds[i].late);
      }
    }
  }

  lemma KeptAll(heads: map<nat, Hash>, count: nat)
    ensures Kept(heads, heads, count)
  {
  }
}
