/**
 When pending lists, queued lists and the hash lookup agree, and what each elementary change
 does to that agreement. Transactions on their way between the lists are in `limbo`.
 */
module PoolIndex {
  import opened Types
  import opened NonceMap

  /** One list of transactions per account. */
  type Accounts = map<Address, Items>

  predicate Occupied(ls: Accounts, s: Slot)
  {
    s.sender in ls && s.nonce in ls[s.sender]
  }

  predicate Holds(ls: Accounts, tx: Transaction)
  {
    tx.signer.Some? && Occupied(ls, SlotOf(tx)) && ls[SlotOf(tx).sender][tx.nonce] == tx
  }

  /** No list is empty, and every transaction is filed under its own sender and nonce. */
  ghost predicate WellKept(ls: Accounts)
  {
    && (forall a :: a in ls ==> ls[a] != map[])
    && (forall s :: Occupied(ls, s) ==> Filed(ls[s.sender][s.nonce], s))
  }

  predicate Filed(tx: Transaction, s: Slot) { tx.signer.Some? && SlotOf(tx) == s }

  /** Limbo holds at most one transaction per slot, and only for slots that no list occupies. */
  ghost predicate LimboFree(p: Accounts, q: Accounts, limbo: set<Transaction>)
  {
    && (forall t :: t in limbo ==> t.signer.Some? && !Occupied(p, SlotOf(t)) && !Occupied(q, SlotOf(t)))
    && (forall t, u :: t in limbo && u in limbo && SlotOf(t) == SlotOf(u) ==> t == u)
  }

  /** The lookup has exactly what is in one of the lists or in limbo, and no slot is used twice. */
  ghost predicate Consistent(p: Accounts, q: Accounts, hs: set<Hash>, limbo: set<Transaction>)
  {
    && WellKept(p) && WellKept(q)
    && (forall s :: Occupied(p, s) ==> !Occupied(q, s))
    && LimboFree(p, q, limbo)
    && (forall h :: h in hs <==> Holds(p, h.tx) || Holds(q, h.tx) || h.tx in limbo)
  }

  lemma Symmetric(p: Accounts, q: Accounts, hs: set<Hash>, limbo: set<Transaction>)
    requires Consistent(p, q, hs, limbo)
    ensures Consistent(q, p, hs, limbo)
  {
  }

  /** An account's list; accounts without one have the empty list. */
  function ListOf(ls: Accounts, a: Address): Items { if a in ls then ls[a] else map[] }

  /** A list that became empty is dropped together with its account. */
  function SetList(ls: Accounts, a: Address, items: Items): Accounts
  {
    if items == map[] then ls - {a} else ls[a := items]
  }

  lemma AfterSetList(ls: Accounts, a: Address, items: Items, s: Slot)
    ensures Occupied(SetList(ls, a, items), s) <==> if s.sender == a then s.nonce in items else Occupied(ls, s)
    ensures Occupied(SetList(ls, a, items), s) ==>
      SetList(ls, a, items)[s.sender][s.nonce] == if s.sender == a then items[s.nonce] else ls[s.sender][s.nonce]
  {
  }

  lemma WellKeptAfter(ls: Accounts, a: Address, items: Items)
    requires WellKept(ls)
    requires forall n :: n in items ==> Filed(items[n], Slot(a, n))
    ensures WellKept(SetList(ls, a, items))
  {
    var ls' := SetList(ls, a, items);
    hide Filed, SetList;
    forall s | Occupied(ls', s) ensures Filed(ls'[s.sender][s.nonce], s) {
      AfterSetList(ls, a, items, s);
    }
    assert forall b :: b in ls' ==> ls'[b] != map[] by { NoneEmpty(ls, a, items); }
  }

  lemma NoneEmpty(ls: Accounts, a: Address, items: Items)
    requires forall b :: b in ls ==> ls[b] != map[]
    ensures forall b :: b in SetList(ls, a, items) ==> SetList(ls, a, items)[b] != map[]
  {
  }

  /** Two parts of a list. */
  ghost predicate Splits(items: Items, out: Items, rest: Items)
  {
    && (forall n :: n in items <==> n in out || n in rest)
    && (forall n :: n in out ==> n in items && items[n] == out[n] && n !in rest)
    && (forall n :: n in rest ==> n in items && items[n] == rest[n])
  }

  /** Taking part of a list out moves that part to limbo. */
  lemma TakeOut(p: Accounts, q: Accounts, hs: set<Hash>, limbo: set<Transaction>, a: Address, out: Items, rest: Items)
    requires Consistent(p, q, hs, limbo) && Splits(ListOf(p, a), out, rest)
    ensures Consistent(SetList(p, a, rest), q, hs, limbo + out.Values)
  {
    if a in p {
      TakeOutPart(p, q, hs, limbo, a, out, rest);
    } else {
      assert out == map[] && rest == map[];
      assert SetList(p, a, rest) == p && limbo + out.Values == limbo;
    }
  }

  lemma TakeOutPart(p: Accounts, q: Accounts, hs: set<Hash>, limbo: set<Transaction>, a: Address, out: Items,
                    rest: Items)
    requires Consistent(p, q, hs, limbo) && a in p && Splits(p[a], out, rest)
    ensures Consistent(SetList(p, a, rest), q, hs, limbo + out.Values)
  {
    var p' := SetList(p, a, rest);
    hide SetList;
    forall n | n in p[a] ensures Filed(p[a][n], Slot(a, n)) {
      assert Occupied(p, Slot(a, n));
    }
    WellKeptAfter(p, a, rest);
    hide WellKept;
    forall t | t in out.Values ensures t.nonce in out && out[t.nonce] == t && Filed(t, Slot(a, t.nonce)) {
      var n :| n in out && out[n] == t;
    }
    forall s ensures Occupied(p', s) <==> if s.sender == a then s.nonce in rest else Occupied(p, s) {
      AfterSetList(p, a, rest, s);
    }
    TakeOutFree(p, q, limbo, a, out, rest);
    TakeOutHashes(p, q, hs, limbo, a, out, rest);
  }

  lemma TakeOutFree(p: Accounts, q: Accounts, limbo: set<Transaction>, a: Address, out: Items, rest: Items)
    requires LimboFree(p, q, limbo) && a in p && Splits(p[a], out, rest)
    requires forall s :: Occupied(p, s) ==> !Occupied(q, s)
    requires forall t :: t in out.Values ==> t.nonce in out && out[t.nonce] == t && Filed(t, Slot(a, t.nonce))
    ensures LimboFree(SetList(p, a, rest), q, limbo + out.Values)
  {
    hide SetList;
    var p' := SetList(p, a, rest);
    forall t | t in limbo + out.Values ensures t.signer.Some? && !Occupied(p', SlotOf(t)) && !Occupied(q, SlotOf(t)) {
      if t in out.Values {
        assert Occupied(p, SlotOf(t));
      }
      AfterSetList(p, a, rest, SlotOf(t));
    }
    forall t, u | t in limbo + out.Values && u in limbo + out.Values && SlotOf(t) == SlotOf(u) ensures t == u {
      if t in out.Values { assert Occupied(p, SlotOf(t)); }
      if u in out.Values { assert Occupied(p, SlotOf(u)); }
    }
  }

  lemma TakeOutHashes(p: Accounts, q: Accounts, hs: set<Hash>, limbo: set<Transaction>, a: Address, out: Items,
                      rest: Items)
    requires forall h :: h in hs <==> Holds(p, h.tx) || Holds(q, h.tx) || h.tx in limbo
    requires a in p && Splits(p[a], out, rest)
    requires forall t :: t in out.Values ==> t.nonce in out && out[t.nonce] == t && Filed(t, Slot(a, t.nonce))
    ensures forall h :: h in hs <==> Holds(SetList(p, a, rest), h.tx) || Holds(q, h.tx) || h.tx in limbo + out.Values
  {
    hide SetList;
    var p' := SetList(p, a, rest);
    forall h: Hash ensures Holds(p, h.tx) <==> Holds(p', h.tx) || h.tx in out.Values {
      if h.tx.signer.Some? {
        AfterSetList(p, a, rest, SlotOf(h.tx));
        if h.tx.nonce in out && out[h.tx.nonce] == h.tx { assert h.tx in out.Values; }
      }
    }
  }

  /** Removing a transaction in limbo from the lookup is the end of it. */
  lemma Forget(p: Accounts, q: Accounts, hs: set<Hash>, limbo: set<Transaction>, tx: Transaction)
    requires Consistent(p, q, hs, limbo) && tx in limbo
    ensures Consistent(p, q, hs - {HashOf(tx)}, limbo - {tx})
  {
    hide WellKept;
    assert !Holds(p, tx) && !Holds(q, tx);
  }

  /** Entering a transaction for a free slot in the lookup puts it in limbo. */
  lemma Enter(p: Accounts, q: Accounts, hs: set<Hash>, limbo: set<Transaction>, tx: Transaction)
    requires Consistent(p, q, hs, limbo)
    requires tx.signer.Some? && !Occupied(p, SlotOf(tx)) && !Occupied(q, SlotOf(tx))
    requires forall t :: t in limbo ==> SlotOf(t) != SlotOf(tx)
    ensures Consistent(p, q, hs + {HashOf(tx)}, limbo + {tx})
  {
    hide WellKept;
  }

  /** A transaction in limbo can always go to either list: its slot is free. */
  lemma Settle(p: Accounts, q: Accounts, hs: set<Hash>, limbo: set<Transaction>, tx: Transaction)
    requires Consistent(p, q, hs, limbo) && tx in limbo
    ensures var a := SlotOf(tx).sender;
      && tx.nonce !in ListOf(p, a)
      && Consistent(SetList(p, a, ListOf(p, a)[tx.nonce := tx]), q, hs, limbo - {tx})
  {
    var a := SlotOf(tx).sender;
    var items := ListOf(p, a)[tx.nonce := tx];
    var p' := SetList(p, a, items);
    hide SetList;
    forall n | n in items ensures Filed(items[n], Slot(a, n)) {
      if n != tx.nonce { assert Occupied(p, Slot(a, n)); }
    }
    WellKeptAfter(p, a, items);
    hide WellKept;
    forall s ensures Occupied(p', s) <==> Occupied(p, s) || s == SlotOf(tx) {
      AfterSetList(p, a, items, s);
    }
    forall h: Hash ensures Holds(p', h.tx) <==> Holds(p, h.tx) || h.tx == tx {
      if h.tx.signer.Some? { AfterSetList(p, a, items, SlotOf(h.tx)); }
    }
  }

  lemma SetTwice(ls: Accounts, a: Address, x: Items, y: Items)
    ensures SetList(SetList(ls, a, x), a, y) == SetList(ls, a, y)
    ensures ListOf(SetList(ls, a, x), a) == x
    ensures forall b :: b != a ==> ListOf(SetList(ls, a, x), b) == ListOf(ls, b)
  {
  }

  /** Filing a transaction at a free slot adds it and disturbs nothing else. */
  lemma AfterPut(ls: Accounts, a: Address, tx: Transaction)
    requires tx.signer.Some? && SlotOf(tx).sender == a && !Occupied(ls, SlotOf(tx))
    ensures var ls' := SetList(ls, a, ListOf(ls, a)[tx.nonce := tx]);
      && (forall t :: Holds(ls', t) <==> Holds(ls, t) || t == tx)
      && (forall b :: b != a ==> ListOf(ls', b) == ListOf(ls, b))
  {
    var items := ListOf(ls, a)[tx.nonce := tx];
    var ls' := SetList(ls, a, items);
    SetTwice(ls, a, items, items);
    hide SetList;
    forall t ensures Holds(ls', t) <==> Holds(ls, t) || t == tx {
      if t.signer.Some? { AfterSetList(ls, a, items, SlotOf(t)); }
    }
  }
}
