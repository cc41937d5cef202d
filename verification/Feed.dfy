/**
 One-to-many event delivery. The select cases of a feed lie in one array; while a value is being
 sent, those still to be served form a prefix of it that shrinks in place.
 */
module Feed {

  /** Case 0 listens for unsubscriptions; all others belong to subscribers. */
  datatype Channel = RemoveSub | Subscriber(id: nat)

  function Without<T>(s: seq<T>, i: nat): seq<T>
    requires i < |s|
  {
    s[..i] + s[i + 1..]
  }

  lemma WithoutCounts<T>(s: seq<T>, i: nat)
    requires i < |s|
    ensures multiset(s) == multiset(Without(s, i)) + multiset{s[i]}
  {
    assert s == s[..i] + [s[i]] + s[i + 1..];
  }

  function Swapped<T>(s: seq<T>, i: nat, j: nat): seq<T>
    requires i < |s| && j < |s|
  {
    s[i := s[j]][j := s[i]]
  }

  lemma SwapCounts<T>(s: seq<T>, i: nat, j: nat)
    requires i < |s| && j < |s|
    ensures multiset(Swapped(s, i, j)) == multiset(s)
  {
  }

  // ---------- Counting cases ----------

  /** The subscribers still to be served. */
  ghost function Active(cases: seq<Channel>, k: nat): multiset<Channel>
    requires 1 <= k <= |cases|
  {
    multiset(cases[1..k])
  }

  ghost function Behind(cases: seq<Channel>, k: nat): multiset<Channel>
    requires k <= |cases|
  {
    multiset(cases[k..])
  }

  /** All subscribers among the cases. */
  ghost function Subs(cases: seq<Channel>): multiset<Channel>
    requires |cases| > 0
  {
    multiset(cases[1..])
  }

  /** A select case moved behind the active ones: one served more, one active less. */
  lemma Served(cases: seq<Channel>, i: nat, k: nat)
    requires 0 < i < k <= |cases|
    ensures var t := Swapped(cases, i, k - 1);
      && Active(t, k - 1) + multiset{cases[i]} == Active(cases, k)
      && Behind(t, k - 1) == Behind(cases, k) + multiset{cases[i]}
  {
    var t := Swapped(cases, i, k - 1);
    ServedLast(cases, i, k, t);
    assert Behind(t, k - 1) == Behind(cases, k) + multiset{cases[i]} by {
      hide Active;
      assert t[k - 1..] == [cases[i]] + cases[k..];
    }
  }

  lemma ServedLast(cases: seq<Channel>, i: nat, k: nat, t: seq<Channel>)
    requires 0 < i < k <= |cases| && t == Swapped(cases, i, k - 1)
    ensures Active(t, k - 1) + multiset{cases[i]} == Active(cases, k)
  {
    var front := cases[1..k];
    var swapped := Swapped(front, i - 1, k - 2);
    assert t[1..k - 1] + [cases[i]] == swapped;
    SwapCounts(front, i - 1, k - 2);
    hide Swapped;
    assert multiset(t[1..k - 1] + [cases[i]]) == multiset(t[1..k - 1]) + multiset{cases[i]};
  }

  lemma SameSubs(cases: seq<Channel>, i: nat, j: nat)
    requires 0 < i < |cases| && 0 < j < |cases|
    ensures Subs(Swapped(cases, i, j)) == Subs(cases)
  {
    assert Swapped(cases, i, j)[1..] == Swapped(cases[1..], i - 1, j - 1);
    SwapCounts(cases[1..], i - 1, j - 1);
  }

  /** A case taken out from among the active ones. */
  lemma ActiveOut(cases: seq<Channel>, i: nat, k: nat)
    requires 0 < i < k <= |cases|
    ensures var t := Without(cases, i);
      Active(cases, k) == Active(t, k - 1) + multiset{cases[i]} && Behind(t, k - 1) == Behind(cases, k)
  {
    var t := Without(cases, i);
    assert t[1..k - 1] == Without(cases[1..k], i - 1);
    WithoutCounts(cases[1..k], i - 1);
    assert t[k - 1..] == cases[k..];
  }

  /** A case taken out from behind. */
  lemma ServedOut(cases: seq<Channel>, i: nat, k: nat)
    requires 0 < k <= i < |cases|
    ensures var t := Without(cases, i);
      Active(t, k) == Active(cases, k) && Behind(cases, k) == Behind(t, k) + multiset{cases[i]}
  {
    var t := Without(cases, i);
    assert t[1..k] == cases[1..k];
    assert t[k..] == Without(cases[k..], i - k);
    WithoutCounts(cases[k..], i - k);
  }

  lemma Gone(cases: seq<Channel>, i: nat)
    requires 0 < i < |cases|
    ensures Subs(cases) == Subs(Without(cases, i)) + multiset{cases[i]}
  {
    ServedOut(cases, i, 1);
  }

  lemma InSubs(cases: seq<Channel>, ch: Channel)
    requires |cases| > 0
    ensures ch in Subs(cases) <==> exists i :: 0 < i < |cases| && cases[i] == ch
  {
    if ch in Subs(cases) {
      var i :| 0 <= i < |cases[1..]| && cases[1..][i] == ch;
      assert cases[i + 1] == ch;
    }
    if i :| 0 < i < |cases| && cases[i] == ch {
      assert cases[1..][i - 1] == ch;
    }
  }

  // ---------- The books of one delivery ----------

  /**
   Of those subscribed at the start, each is still to be served, was served, or left before; behind
   the active cases lie those that were served and have not left since.
   */
  ghost predicate Books(cases: seq<Channel>, active: nat, start: multiset<Channel>,
                        served: seq<Channel>, early: multiset<Channel>, late: multiset<Channel>)
  {
    && 1 <= active <= |cases| && cases[0] == RemoveSub
    && Active(cases, active) + multiset(served) + early == start
    && Behind(cases, active) + late == multiset(served)
  }

  lemma BooksServe(cases: seq<Channel>, i: nat, active: nat, start: multiset<Channel>,
                   served: seq<Channel>, early: multiset<Channel>, late: multiset<Channel>)
    requires Books(cases, active, start, served, early, late) && 0 < i < active
    ensures Books(Swapped(cases, i, active - 1), active - 1, start, served + [cases[i]], early, late)
    ensures Subs(Swapped(cases, i, active - 1)) == Subs(cases)
  {
    Served(cases, i, active);
    SameSubs(cases, i, active - 1);
    hide Active, Behind, Subs;
  }

  lemma BooksLeave(cases: seq<Channel>, i: nat, active: nat, start: multiset<Channel>,
                   served: seq<Channel>, early: multiset<Channel>, late: multiset<Channel>)
    requires Books(cases, active, start, served, early, late) && 0 < i < |cases|
    ensures i < active ==> Books(Without(cases, i), active - 1, start, served, early + multiset{cases[i]}, late)
    ensures i >= active ==> Books(Without(cases, i), active, start, served, early, late + multiset{cases[i]})
    ensures Subs(cases) == Subs(Without(cases, i)) + multiset{cases[i]}
  {
    hide Active, Behind, Subs;
    if i < active { ActiveOut(cases, i, active); } else { ServedOut(cases, i, active); }
    Gone(cases, i);
  }

  lemma BooksOpen(cases: seq<Channel>)
    requires |cases| > 0 && cases[0] == RemoveSub
    ensures Books(cases, |cases|, Subs(cases), [], multiset{}, multiset{})
  {
    assert cases[1..|cases|] == cases[1..];
  }

  lemma BooksRange(cases: seq<Channel>, active: nat, start: multiset<Channel>,
                   served: seq<Channel>, early: multiset<Channel>, late: multiset<Channel>)
    requires Books(cases, active, start, served, early, late)
    ensures 1 <= active <= |cases|
  {
  }

  lemma BooksClosed(cases: seq<Channel>, start: multiset<Channel>,
                    served: seq<Channel>, early: multiset<Channel>, late: multiset<Channel>)
    requires Books(cases, 1, start, served, early, late)
    ensures multiset(served) + early == start && Subs(cases) + early + late == start
    ensures late <= multiset(served)
  {
    assert Active(cases, 1) == multiset{};
    assert Behind(cases, 1) == Subs(cases);
  }

  class Feed {
    var mem: array<Channel>
    var len: nat
    var inbox: seq<Channel>
    /** All current subscriptions. */
    ghost var live: multiset<Channel>

    ghost predicate Shape()
      reads this, mem
    {
      1 <= len <= mem.Length && mem[0] == RemoveSub
    }

    /** Every subscription has one case, in the inbox or among the cases behind the first. */
    ghost predicate Valid()
      reads this, mem
    {
      Shape() && Subs(Cases()) + multiset(inbox) == live && RemoveSub !in live
    }

    ghost function Cases(): (cases: seq<Channel>)
      reads this, mem
      requires Shape()
      ensures |cases| == len && cases[0] == RemoveSub
    {
      mem[..len]
    }

    constructor ()
      ensures Valid() && fresh(mem) && live == multiset{}
    {
      mem := new Channel[1](_ => RemoveSub);
      len, inbox, live := 1, [], multiset{};
    }

    method Subscribe(ch: Channel)
      requires Valid() && ch.Subscriber?
      modifies this`inbox, this`live
      ensures Valid() && live == old(live) + multiset{ch} && inbox == old(inbox) + [ch]
    {
      inbox, live := inbox + [ch], live + multiset{ch};
    }

    /** The first case with this channel. */
    method Find(ch: Channel) returns (index: int)
      requires Shape()
      ensures -1 <= index < len
      ensures index >= 0 ==> Cases()[index] == ch && ch !in Cases()[..index]
      ensures index < 0 ==> ch !in Cases()
    {
      for i := 0 to len
        invariant ch !in Cases()[..i]
      {
        if mem[i] == ch { return i; }
      }
      return -1;
    }

    /** Closes the gap at `index` by shifting what is behind it. */
    method Delete(index: nat)
      requires 0 < index < len && Shape()
      modifies this`len, mem
      ensures Shape() && Cases() == Without(old(Cases()), index)
    {
      var i := index;
      while i + 1 < len
        invariant index <= i < len && len == old(len)
        invariant forall k :: 0 <= k < index ==> mem[k] == old(mem[k])
        invariant forall k :: index <= k < i ==> mem[k] == old(mem[k + 1])
        invariant forall k :: i < k < len ==> mem[k] == old(mem[k])
      {
        mem[i] := mem[i + 1];
        i := i + 1;
      }
      len := len - 1;
    }

    method FindInbox(ch: Channel) returns (index: int)
      ensures -1 <= index < |inbox|
      ensures index >= 0 ==> inbox[index] == ch
      ensures index < 0 ==> ch !in inbox
    {
      for i := 0 to |inbox|
        invariant ch !in inbox[..i]
      {
        if inbox[i] == ch { return i; }
      }
      return -1;
    }

    /** Takes a subscription out of the inbox if it is still there. */
    method RemoveFromInbox(ch: Channel) returns (found: bool)
      requires Valid()
      modifies this`inbox, this`live
      ensures Valid() && (found <==> ch in old(inbox))
      ensures live == if found then old(live) - multiset{ch} else old(live)
    {
      var index := FindInbox(ch);
      if index < 0 { return false; }
      WithoutCounts(inbox, index);
      inbox, live := Without(inbox, index), live - multiset{ch};
      return true;
    }

    /** Ends a subscription while nothing is being sent. */
    method Unsubscribe(ch: Channel)
      requires Valid() && ch in live
      modifies this, mem
      ensures Valid() && live == old(live) - multiset{ch}
    {
      var found := RemoveFromInbox(ch);
      if found { return; }
      hide Subs, Without;
      InSubs(Cases(), ch);
      var index := Find(ch);
      Drop(index);
    }

    /** Ends the subscription a case belongs to. */
    method Drop(index: nat)
      requires Valid() && 0 < index < len
      modifies this`len, this`live, mem
      ensures Valid() && len == old(len) - 1
      ensures Cases() == Without(old(Cases()), index) && live == old(live) - multiset{old(Cases())[index]}
    {
      Gone(Cases(), index);
      hide Subs;
      live := live - multiset{Cases()[index]};
      Delete(index);
    }

    // ---------- Sending ----------

    /** Moves new subscriptions from the inbox behind the other cases. */
    method Drain()
      requires Valid()
      modifies this`mem, this`len, this`inbox
      ensures Valid() && fresh(mem) && inbox == [] && Cases() == old(Cases()) + old(inbox)
    {
      var cases := mem[..len] + inbox;
      assert cases[1..] == Cases()[1..] + inbox;
      mem := new Channel[|cases|](i requires 0 <= i < |cases| => cases[i]);
      len, inbox := |cases|, [];
      assert mem[..len] == cases;
    }

    /** Others subscribe, or unsubscribe what is still in the inbox. */
    method Others()
      requires Valid()
      modifies this`inbox, this`live
      ensures Valid()
    {
      var n: int := *;
      while n > 0
        invariant Valid()
      {
        n := n - 1;
        var ch: Channel := *;
        if * {
          if ch.Subscriber? { Subscribe(ch); }
        } else {
          var found := RemoveFromInbox(ch);
        }
      }
    }

    /** Swaps a served case behind the active ones. */
    method Deactivate(i: nat, active: nat)
      requires Shape() && 0 < i < active <= len
      modifies mem
      ensures Shape() && Cases() == Swapped(old(Cases()), i, active - 1)
    {
      mem[i], mem[active - 1] := mem[active - 1], mem[i];
    }

    /** Tries every active case once without waiting; a channel with room takes the value. */
    method TryAll(active: nat, ghost start: multiset<Channel>, ghost served: seq<Channel>,
                  ghost early: multiset<Channel>, ghost late: multiset<Channel>)
      returns (left: nat, ghost served': seq<Channel>)
      requires Valid() && Books(Cases(), active, start, served, early, late)
      modifies mem
      ensures Valid() && Books(Cases(), left, start, served', early, late) && 1 <= left <= active
      ensures |served'| == |served| + active - left
    {
      hide Books, Subs, Swapped;
      left, served' := active, served;
      BooksRange(Cases(), active, start, served, early, late);
      var i := 1;
      while i < left
        invariant 1 <= i && 1 <= left <= active <= len
        invariant Valid() && Books(Cases(), left, start, served', early, late)
        invariant |served'| == |served| + active - left
        decreases left - i
      {
        var room: bool := *;
        if room {
          BooksServe(Cases(), i, left, start, served', early, late);
          served' := served' + [Cases()[i]];
          Deactivate(i, left);
          left := left - 1;
        } else {
          i := i + 1;
        }
      }
    }

    /**
     Delivers a value. Every subscription present at the start gets it exactly once unless it ends
     before; `early` are those, `late` the ones that end after they got it. Meanwhile others may
     subscribe and unsubscribe.
     */
    method Send()
      returns (nsent: nat, ghost served: seq<Channel>, ghost early: multiset<Channel>, ghost late: multiset<Channel>)
      requires Valid()
      modifies this, mem
      ensures Valid() && Cases()[0] == RemoveSub
      ensures nsent == |served| && multiset(served) + early == old(live)
      ensures late <= multiset(served) && Subs(Cases()) + early + late == old(live)
    {
      hide Books, Subs, Swapped, Without;
      ghost var start := live;
      served, early, late := [], multiset{}, multiset{};
      nsent := 0;
      Drain();
      var active := len;
      BooksOpen(Cases());
      assert start == Subs(Cases());
      while true
        invariant Valid() && fresh(mem) && 1 <= active <= len
        invariant Books(Cases(), active, start, served, early, late) && nsent == |served|
        decreases len + active
      {
        Others();
        var left;
        left, served := TryAll(active, start, served, early, late);
        nsent, active := nsent + active - left, left;
        if active == 1 { break; }
        var leave: bool := *;
        if leave {
          active, early, late := Leave(active, start, served, early, late);
        } else {
          var chosen :| 1 <= chosen < active;
          BooksServe(Cases(), chosen, active, start, served, early, late);
          served := served + [Cases()[chosen]];
          Deactivate(chosen, active);
          nsent, active := nsent + 1, active - 1;
        }
      }
      BooksClosed(Cases(), start, served, early, late);
    }

    /** Some subscription ends during the delivery: the first case with its channel goes. */
    method Leave(active: nat, ghost start: multiset<Channel>, ghost served: seq<Channel>,
                 ghost early: multiset<Channel>, ghost late: multiset<Channel>)
      returns (left: nat, ghost early': multiset<Channel>, ghost late': multiset<Channel>)
      requires Valid() && 1 < active <= len && Books(Cases(), active, start, served, early, late)
      modifies this`len, this`live, mem
      ensures Valid() && len == old(len) - 1 && 1 <= left <= len && left <= active
      ensures Books(Cases(), left, start, served, early', late')
    {
      hide Books, Subs, Without;
      early', late' := early, late;
      var who :| 1 <= who < len;
      var ch := mem[who];
      var index := Find(ch);
      InSubs(Cases(), ch);
      BooksLeave(Cases(), index, active, start, served, early, late);
      Drop(index);
      left := active;
      if index < active {
        left, early' := active - 1, early + multiset{ch};
      } else {
        late' := late + multiset{ch};
      }
    }
  }
}
