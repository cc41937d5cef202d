/** Cutting long pending lists back evenly: what the result of a truncation must look like. */
module Fairness {
  import opened Types
  import opened Sums
  import opened NonceMap
  import opened PoolIndex

  function Len(ls: Accounts, a: Address): nat { |ListOf(ls, a)| }

  ghost function Lengths(ls: Accounts): Address -> int { a => Len(ls, a) }

  /** How many transactions the lists hold together. */
  ghost function Total(ls: Accounts): int { Sum(ls.Keys, Lengths(ls)) }

  /** Every list was kept or lost some of its highest nonces. */
  ghost predicate Cutback(before: Accounts, after: Accounts)
  {
    && after.Keys == before.Keys
    && forall a :: Len(after, a) <= Len(before, a) && ListOf(after, a) == Lowest(ListOf(before, a), Len(after, a))
  }

  ghost predicate WasCut(before: Accounts, after: Accounts, a: Address) { Len(after, a) < Len(before, a) }

  /**
   A fair truncation: local accounts are left alone, nobody is cut below the guaranteed slots,
   all accounts that were cut end up equally long, and no other account that may be cut is longer.
   */
  ghost predicate Fair(before: Accounts, after: Accounts, locals: set<Address>, slots: nat)
  {
    && Cutback(before, after)
    && (forall a :: WasCut(before, after, a) ==> a !in locals && Len(after, a) >= slots)
    && (forall a, b :: WasCut(before, after, a) && WasCut(before, after, b) ==> Len(after, a) == Len(after, b))
    && (forall a, b :: WasCut(before, after, a) && b !in locals ==> Len(after, b) <= Len(after, a))
  }

  /** Who may be cut: accounts that are not local and hold more than the guaranteed slots. */
  predicate Spammer(before: Accounts, locals: set<Address>, slots: nat, a: Address)
  {
    a !in locals && Len(before, a) > slots
  }

  /** The spammers are those popped already, in order, and those still waiting. */
  ghost predicate Roster(before: Accounts, locals: set<Address>, slots: nat, offenders: seq<Address>,
                         spammers: set<Address>)
  {
    && (forall i, j :: 0 <= i < j < |offenders| ==> offenders[i] != offenders[j])
    && (forall a :: a in offenders ==> a !in spammers)
    && (forall a :: Spammer(before, locals, slots, a) <==> a in offenders || a in spammers)
  }

  /** All offenders but the last are at `level`, the last at `last`, and nobody else was touched. */
  ghost predicate Levels(before: Accounts, after: Accounts, offenders: seq<Address>, spammers: set<Address>,
                         level: nat, last: nat)
  {
    && (forall a :: a !in offenders ==> ListOf(after, a) == ListOf(before, a))
    && (forall i :: 0 <= i < |offenders| - 1 ==> Len(after, offenders[i]) == level)
    && (|offenders| > 0 ==> Len(after, offenders[|offenders| - 1]) == last)
    && (|offenders| > 0 && last < level ==> Len(before, offenders[|offenders| - 1]) == last)
    && (|offenders| > 0 ==> forall a :: a in spammers ==> Len(before, a) <= last)
  }

  /**
   The state between two rounds. The offenders so far are at the same level except for the last,
   which may still be lower and is then untouched; the spammers yet to come are not longer than it.
   */
  ghost predicate Levelled(before: Accounts, after: Accounts, locals: set<Address>, slots: nat,
                           offenders: seq<Address>, spammers: set<Address>, level: nat, last: nat)
  {
    && Cutback(before, after)
    && Roster(before, locals, slots, offenders, spammers)
    && Levels(before, after, offenders, spammers, level, last)
    && slots <= last <= level
  }

  lemma LevelledIsFair(before: Accounts, after: Accounts, locals: set<Address>, slots: nat,
                       offenders: seq<Address>, spammers: set<Address>, level: nat, last: nat)
    requires Levelled(before, after, locals, slots, offenders, spammers, level, last)
    ensures Fair(before, after, locals, slots)
  {
    hide Cutback, Len;
    forall a | WasCut(before, after, a) ensures a !in locals && Len(after, a) == level && |offenders| > 0 {
      assert a in offenders by { Untouched(before, after, offenders, spammers, level, last, a); }
      assert Spammer(before, locals, slots, a);
      var i :| 0 <= i < |offenders| && offenders[i] == a;
    }
    forall b | b !in locals && |offenders| > 0 ensures Len(after, b) <= level {
      Untouched(before, after, offenders, spammers, level, last, b);
      if b in offenders {
        var i :| 0 <= i < |offenders| && offenders[i] == b;
      } else if b !in spammers {
        assert !Spammer(before, locals, slots, b);
      }
    }
  }

  lemma Untouched(before: Accounts, after: Accounts, offenders: seq<Address>, spammers: set<Address>, level: nat,
                  last: nat, a: Address)
    requires Levels(before, after, offenders, spammers, level, last)
    ensures a !in offenders ==> Len(after, a) == Len(before, a)
  {
  }

  /** The next offender is the longest of the spammers left. */
  lemma NextOffender(before: Accounts, after: Accounts, locals: set<Address>, slots: nat,
                     offenders: seq<Address>, spammers: set<Address>, level: nat, a: Address)
    requires Levelled(before, after, locals, slots, offenders, spammers, level, level)
    requires a in spammers && forall b :: b in spammers ==> Len(before, b) <= Len(before, a)
    ensures Len(before, a) > slots && Len(after, a) == Len(before, a)
    ensures var level' := if |offenders| > 0 then level else Len(before, a);
      Levelled(before, after, locals, slots, offenders + [a], spammers - {a}, level', Len(before, a))
  {
    hide Cutback;
    var more := offenders + [a];
    assert Spammer(before, locals, slots, a);
    assert a !in offenders;
    assert forall b :: b in more <==> b in offenders || b == a;
    forall i | 0 <= i < |more| - 1 ensures Len(after, more[i]) == level {
      assert more[i] == offenders[i];
    }
    assert Roster(before, locals, slots, more, spammers - {a});
  }

  function Members(s: seq<Address>): set<Address> { set a | a in s }

  /** After a round, the given accounts are one shorter and nobody else has changed. */
  ghost predicate OneShorter(ls: Accounts, ls': Accounts, cut: set<Address>)
  {
    && ls'.Keys == ls.Keys
    && (forall a :: a !in cut ==> ListOf(ls', a) == ListOf(ls, a))
    && (forall a :: a in cut ==>
          Len(ls, a) > 0 && ListOf(ls', a) == Lowest(ListOf(ls, a), Len(ls, a) - 1) && Len(ls', a) == Len(ls, a) - 1)
  }

  lemma LowestLength(items: Items, k: nat)
    requires Keyed(items) && k <= |items|
    ensures |Lowest(items, k)| == k && Keyed(Lowest(items, k))
  {
    hide Listing, Lowest;
    LowestLists(items, k);
    ListsLength(Listing(items)[..k], Lowest(items, k));
    ListsKeyed(Listing(items)[..k], Lowest(items, k));
  }

  lemma ListsKeyed(txs: seq<Transaction>, items: Items)
    requires Lists(txs, items)
    ensures Keyed(items)
  {
  }

  /** The lowest of the lowest are the lowest. */
  lemma LowestTwice(items: Items, k: nat, j: nat)
    requires Keyed(items) && j <= k <= |items|
    ensures |Lowest(items, k)| == k && Lowest(Lowest(items, k), j) == Lowest(items, j)
  {
    hide Listing, Lowest, Lists;
    LowestLength(items, k);
    var low := Lowest(items, k);
    LowestLists(items, k);
    IsListing(Listing(items)[..k], low);
    LowestLists(low, j);
    LowestLists(items, j);
    assert Listing(items)[..k][..j] == Listing(items)[..j];
    SameItems(Listing(items)[..j], Lowest(low, j), Lowest(items, j));
  }

  ghost predicate AllKeyed(ls: Accounts) { forall a :: Keyed(ListOf(ls, a)) }

  lemma NoneShorter(ls: Accounts)
    ensures OneShorter(ls, ls, {})
  {
  }

  /** Before anything is cut, all spammers are waiting. */
  lemma NothingCut(ls: Accounts, locals: set<Address>, slots: nat, spammers: set<Address>)
    requires AllKeyed(ls) && forall a :: a in spammers <==> Spammer(ls, locals, slots, a)
    ensures Levelled(ls, ls, locals, slots, [], spammers, slots, slots)
  {
    hide Lowest;
    forall a ensures Lowest(ListOf(ls, a), Len(ls, a)) == ListOf(ls, a) { LowestAll(ListOf(ls, a)); }
  }

  lemma SameLength(ls: Accounts, ls': Accounts, cut: set<Address>, a: Address)
    requires OneShorter(ls, ls', cut) && a !in cut
    ensures Len(ls', a) == Len(ls, a)
  {
  }

  lemma CutbackRound(before: Accounts, ls: Accounts, ls': Accounts, cut: set<Address>)
    requires Cutback(before, ls) && OneShorter(ls, ls', cut) && AllKeyed(before)
    ensures Cutback(before, ls')
  {
    hide Lowest, ListOf;
    forall a ensures Len(ls', a) <= Len(before, a) && ListOf(ls', a) == Lowest(ListOf(before, a), Len(ls', a)) {
      if a in cut {
        LowestTwice(ListOf(before, a), Len(ls, a), Len(ls, a) - 1);
      }
    }
  }

  /** Cutting all offenders but a lower last one brings them one step closer to it. */
  lemma RoundKeepsLevel(before: Accounts, ls: Accounts, ls': Accounts, locals: set<Address>, slots: nat,
                        offenders: seq<Address>, spammers: set<Address>, level: nat, last: nat)
    requires Levelled(before, ls, locals, slots, offenders, spammers, level, last)
    requires |offenders| > 1 && last < level && AllKeyed(before)
    requires OneShorter(ls, ls', Members(offenders[..|offenders| - 1]))
    ensures Levelled(before, ls', locals, slots, offenders, spammers, level - 1, last)
  {
    hide Lowest, Cutback, ListOf, Len, AllKeyed;
    var n := |offenders| - 1;
    var cut := Members(offenders[..n]);
    CutbackRound(before, ls, ls', cut);
    forall i | 0 <= i < n ensures offenders[i] in cut && Len(ls', offenders[i]) == level - 1 {
      assert offenders[..n][i] == offenders[i];
    }
    SameLength(ls, ls', cut, offenders[n]);
    assert forall a :: a !in offenders ==> a !in cut;
  }

  /** Cutting all offenders when they are level keeps them level. */
  lemma RoundKeepsEven(before: Accounts, ls: Accounts, ls': Accounts, locals: set<Address>, slots: nat,
                       offenders: seq<Address>, level: nat)
    requires Levelled(before, ls, locals, slots, offenders, {}, level, level)
    requires |offenders| > 0 && level > slots && AllKeyed(before)
    requires OneShorter(ls, ls', Members(offenders))
    ensures Levelled(before, ls', locals, slots, offenders, {}, level - 1, level - 1)
  {
    hide Lowest, Cutback, ListOf, Roster, Len, AllKeyed;
    var cut := Members(offenders);
    CutbackRound(before, ls, ls', cut);
    forall i | 0 <= i < |offenders| ensures Len(ls', offenders[i]) == level - 1 {
      assert offenders[i] in cut;
    }
    assert forall a :: a !in offenders ==> a !in cut;
    assert Levels(before, ls', offenders, {}, level - 1, level - 1);
  }

  /** When nobody is waiting and the offenders are down to the guaranteed slots, nobody exceeds them. */
  lemma AllWithinSlots(before: Accounts, after: Accounts, locals: set<Address>, slots: nat, offenders: seq<Address>,
                       level: nat)
    requires Levelled(before, after, locals, slots, offenders, {}, level, level)
    requires |offenders| > 0 ==> level == slots
    ensures forall a :: a !in locals ==> Len(after, a) <= slots
  {
    hide Cutback, Len;
    forall a | a !in locals ensures Len(after, a) <= slots {
      Untouched(before, after, offenders, {}, level, level, a);
      if a in offenders {
        var i :| 0 <= i < |offenders| && offenders[i] == a;
      } else {
        assert !Spammer(before, locals, slots, a);
      }
    }
  }

  /** The longest list among several accounts. */
  lemma {:induction false} LongestExists(ls: Accounts, accounts: set<Address>) returns (a: Address)
    requires accounts != {}
    ensures a in accounts && forall b :: b in accounts ==> Len(ls, b) <= Len(ls, a)
    decreases |accounts|
  {
    a :| a in accounts;
    if accounts != {a} {
      var rest := accounts - {a};
      assert rest != {};
      var b := LongestExists(ls, rest);
      if Len(ls, a) < Len(ls, b) { a := b; }
    }
  }

  // ---------- Totals ----------

  /** Replacing one list changes the total by the difference in length. */
  lemma TotalAfterSet(ls: Accounts, a: Address, items: Items)
    ensures Total(SetList(ls, a, items)) == Total(ls) - Len(ls, a) + |items|
  {
    hide Sum;
    var ls' := SetList(ls, a, items);
    var rest := ls.Keys - {a};
    assert ls'.Keys - {a} == rest;
    if a in ls { SumRemove(ls.Keys, Lengths(ls), a); } else { assert rest == ls.Keys; }
    if a in ls' { SumRemove(ls'.Keys, Lengths(ls'), a); } else { assert rest == ls'.Keys; }
    SumCongruent(rest, Lengths(ls), Lengths(ls'));
  }

  lemma TotalIsNatural(ls: Accounts)
    ensures Total(ls) >= 0
  {
    SumNonNegative(ls.Keys, Lengths(ls));
  }

  method CountAll(ls: Accounts) returns (count: nat)
    ensures count == Total(ls)
  {
    hide Sum;
    count := 0;
    var todo, f := ls.Keys, Lengths(ls);
    assert ls.Keys - todo == {} && Sum({}, f) == 0 by { SumEmpty(f); }
    while todo != {}
      invariant todo <= ls.Keys && count == Sum(ls.Keys - todo, f)
      decreases |todo|
    {
      var a :| a in todo;
      SumAdd(ls.Keys - todo, f, a);
      assert ls.Keys - todo + {a} == ls.Keys - (todo - {a});
      count := count + |ls[a]|;
      todo := todo - {a};
    }
    assert ls.Keys - {} == ls.Keys;
  }

  lemma OneShorterStep(ls: Accounts, mid: Accounts, ls': Accounts, cut: set<Address>, a: Address)
    requires OneShorter(ls, mid, cut) && OneShorter(mid, ls', {a}) && a !in cut
    ensures OneShorter(ls, ls', cut + {a})
  {
    hide Lowest, ListOf;
    assert Len(mid, a) == Len(ls, a);
    forall b | b in cut ensures ListOf(ls', b) == ListOf(mid, b) && Len(ls', b) == Len(mid, b) {
    }
  }

  ghost function CutSet(before: Accounts, after: Accounts): set<Address>
  {
    set a | a in before && WasCut(before, after, a)
  }

  /** Nothing was cut without need: one transaction back for each account that was cut exceeds the limit. */
  ghost predicate Needed(before: Accounts, after: Accounts, limit: nat)
  {
    after == before || Total(after) + |CutSet(before, after)| > limit
  }

  lemma {:induction false} DistinctMembers(s: seq<Address>)
    requires forall i, j :: 0 <= i < j < |s| ==> s[i] != s[j]
    ensures |Members(s)| == |s|
  {
    if s != [] {
      var front, last := s[..|s| - 1], s[|s| - 1];
      DistinctMembers(front);
      assert Members(s) == Members(front) + {last};
      assert last !in Members(front);
    }
  }

  lemma {:induction false} SmallerSet(a: set<Address>, b: set<Address>)
    requires a <= b
    ensures |a| <= |b|
    decreases |a|
  {
    if a != {} {
      var x :| x in a;
      SmallerSet(a - {x}, b - {x});
    }
  }

  lemma RoundNeeded(before: Accounts, ls: Accounts, ls': Accounts, offenders: seq<Address>, limit: nat)
    requires Cutback(before, ls) && OneShorter(ls, ls', Members(offenders))
    requires forall i, j :: 0 <= i < j < |offenders| ==> offenders[i] != offenders[j]
    requires Total(ls) > limit && Total(ls') == Total(ls) - |offenders|
    ensures Needed(before, ls', limit)
  {
    hide Total, Lowest;
    DistinctMembers(offenders);
    forall a | a in Members(offenders) ensures a in CutSet(before, ls') {
      assert Len(ls', a) < Len(ls, a);
    }
    SmallerSet(Members(offenders), CutSet(before, ls'));
  }

  // ---------- Dropping whole lists from the end of an order ----------

  /** Drops `excess` transactions, whole accounts from the end of `order` first and then the highest nonces of one. */
  ghost function Trim(ls: Accounts, order: seq<Address>, excess: nat): Accounts
    decreases |order|
  {
    if order == [] || excess == 0 then ls else
      var a, front := order[|order| - 1], order[..|order| - 1];
      if Len(ls, a) <= excess then Trim(SetList(ls, a, map[]), front, excess - Len(ls, a))
      else SetList(ls, a, Lowest(ListOf(ls, a), Len(ls, a) - excess))
  }

  lemma TrimUnfold(ls: Accounts, order: seq<Address>, excess: nat)
    ensures order == [] || excess == 0 ==> Trim(ls, order, excess) == ls
    ensures order != [] && excess > 0 ==>
      var a, front := order[|order| - 1], order[..|order| - 1];
      Trim(ls, order, excess) ==
        if Len(ls, a) <= excess then Trim(SetList(ls, a, map[]), front, excess - Len(ls, a))
        else SetList(ls, a, Lowest(ListOf(ls, a), Len(ls, a) - excess))
  {
  }

  /** How many transactions are beyond a limit. */
  ghost function Excess(ls: Accounts, limit: nat): nat { if Total(ls) <= limit then 0 else Total(ls) - limit }

  function BeatOf(beats: map<Address, nat>, a: Address): nat { if a in beats then beats[a] else 0 }

  /** Exactly the given accounts, each once, by their last activity. */
  ghost predicate Arranges(order: seq<Address>, accounts: set<Address>, beats: map<Address, nat>)
  {
    && (forall i, j :: 0 <= i < j < |order| ==>
          order[i] != order[j] && BeatOf(beats, order[i]) <= BeatOf(beats, order[j]))
    && (forall a :: a in order <==> a in accounts)
  }

  method ByHeartbeat(accounts: set<Address>, beats: map<Address, nat>) returns (order: seq<Address>)
    ensures Arranges(order, accounts, beats)
  {
    order := [];
    var todo := accounts;
    while todo != {}
      invariant todo <= accounts && Arranges(order, accounts - todo, beats)
      invariant forall a, b :: a in order && b in todo ==> BeatOf(beats, a) <= BeatOf(beats, b)
      decreases |todo|
    {
      ghost var idlest := IdlestExists(todo, beats);
      var a :| a in todo && forall b :: b in todo ==> BeatOf(beats, a) <= BeatOf(beats, b);
      Arranged(order, accounts - todo, beats, a);
      assert accounts - todo + {a} == accounts - (todo - {a});
      order, todo := order + [a], todo - {a};
    }
    assert accounts - {} == accounts;
  }

  lemma Arranged(order: seq<Address>, accounts: set<Address>, beats: map<Address, nat>, a: Address)
    requires Arranges(order, accounts, beats) && a !in accounts
    requires forall b :: b in order ==> BeatOf(beats, b) <= BeatOf(beats, a)
    ensures Arranges(order + [a], accounts + {a}, beats)
  {
    var more := order + [a];
    forall i, j | 0 <= i < j < |more| ensures more[i] != more[j] && BeatOf(beats, more[i]) <= BeatOf(beats, more[j]) {
      assert more[i] in order;
    }
  }

  lemma {:induction false} IdlestExists(accounts: set<Address>, beats: map<Address, nat>) returns (a: Address)
    requires accounts != {}
    ensures a in accounts && forall b :: b in accounts ==> BeatOf(beats, a) <= BeatOf(beats, b)
    decreases |accounts|
  {
    a :| a in accounts;
    if accounts != {a} {
      var rest := accounts - {a};
      assert rest != {};
      var b := IdlestExists(rest, beats);
      if BeatOf(beats, b) < BeatOf(beats, a) { a := b; }
    }
  }

  /** Some lists lost some of their highest nonces, none of them outside `order`. */
  ghost predicate Trimmed(ls: Accounts, ls': Accounts, order: seq<Address>)
  {
    && (forall a :: a !in order ==> ListOf(ls', a) == ListOf(ls, a))
    && (forall a :: Len(ls', a) <= Len(ls, a) && ListOf(ls', a) == Lowest(ListOf(ls, a), Len(ls', a)))
  }

  /** A trim takes off exactly the excess unless all accounts in the order are emptied. */
  lemma {:induction false} TrimSound(ls: Accounts, order: seq<Address>, excess: nat)
    requires AllKeyed(ls)
    ensures var ls' := Trim(ls, order, excess);
      && Trimmed(ls, ls', order)
      && (Total(ls') == Total(ls) - excess || (forall a :: a in order ==> Len(ls', a) == 0))
      && Total(ls) - excess <= Total(ls') <= Total(ls)
    decreases |order|
  {
    hide Total, Lowest, SetList, Trimmed, AllKeyed;
    if order == [] || excess == 0 {
      TrimmedSame(ls, order);
    } else {
      var a, front := order[|order| - 1], order[..|order| - 1];
      if Len(ls, a) <= excess {
        var mid := SetList(ls, a, map[]);
        TrimmedOne(ls, a, 0);
        TrimSound(mid, front, excess - Len(ls, a));
        TrimmedFurther(ls, mid, Trim(ls, order, excess), order);
      } else {
        TrimmedOne(ls, a, Len(ls, a) - excess);
        TrimmedMore(ls, Trim(ls, order, excess), a, order);
      }
    }
  }

  lemma TrimmedSame(ls: Accounts, order: seq<Address>)
    requires AllKeyed(ls)
    ensures Trimmed(ls, ls, order)
  {
    hide Lowest;
    forall a ensures Lowest(ListOf(ls, a), Len(ls, a)) == ListOf(ls, a) { LowestAll(ListOf(ls, a)); }
  }

  lemma TrimmedMore(ls: Accounts, ls': Accounts, a: Address, order: seq<Address>)
    requires Trimmed(ls, ls', [a]) && a in order
    ensures Trimmed(ls, ls', order)
  {
    hide Lowest;
  }

  lemma TrimmedFurther(ls: Accounts, mid: Accounts, ls': Accounts, order: seq<Address>)
    requires AllKeyed(ls) && order != []
    requires Trimmed(ls, mid, [order[|order| - 1]]) && Trimmed(mid, ls', order[..|order| - 1])
    requires Len(mid, order[|order| - 1]) == 0
    ensures Trimmed(ls, ls', order)
    ensures Len(ls', order[|order| - 1]) == 0
    ensures forall a :: a in order ==> a in order[..|order| - 1] || a == order[|order| - 1]
  {
    hide Lowest, ListOf;
    forall a ensures Len(ls', a) <= Len(ls, a) && ListOf(ls', a) == Lowest(ListOf(ls, a), Len(ls', a)) {
      LowestTwice(ListOf(ls, a), Len(mid, a), Len(ls', a));
    }
  }

  /** Cutting one list to its `k` lowest nonces. */
  lemma TrimmedOne(ls: Accounts, a: Address, k: nat)
    requires AllKeyed(ls) && k <= Len(ls, a)
    ensures var rest := Lowest(ListOf(ls, a), k); var ls' := SetList(ls, a, rest);
      && (k == 0 ==> rest == map[])
      && AllKeyed(ls') && Len(ls', a) == k && Total(ls') == Total(ls) - Len(ls, a) + k && Trimmed(ls, ls', [a])
  {
    hide Lowest, Total, SetList, ListOf;
    var rest := Lowest(ListOf(ls, a), k);
    LowestLength(ListOf(ls, a), k);
    SetTwice(ls, a, rest, rest);
    TotalAfterSet(ls, a, rest);
    forall b ensures Lowest(ListOf(ls, b), Len(ls, b)) == ListOf(ls, b) { LowestAll(ListOf(ls, b)); }
  }
}
