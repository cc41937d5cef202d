/** The hash lookup of all pooled transactions, split into local and remote ones. */
module Lookup {
  import opened Types
  import opened Sums

  const TX_SLOT_SIZE := 32 * 1024

  function NumSlots(tx: Transaction): nat { (tx.size + TX_SLOT_SIZE - 1) / TX_SLOT_SIZE }

  ghost function SlotsOf(): Hash -> int { (h: Hash) => NumSlots(h.tx) }

  predicate ByHash(m: map<Hash, Transaction>) { forall h :: h in m ==> m[h] == h.tx }

  predicate SentBy(accounts: set<Address>, tx: Transaction)
  {
    Sender(tx).Some? && Sender(tx).value in accounts
  }

  class TxLookup {
    var slots: int
    var locals: map<Hash, Transaction>
    var remotes: map<Hash, Transaction>

    ghost function Hashes(): set<Hash>
      reads this
    {
      locals.Keys + remotes.Keys
    }

    ghost predicate Valid()
      reads this
    {
      && ByHash(locals) && ByHash(remotes)
      && locals.Keys !! remotes.Keys
      && slots == Sum(Hashes(), SlotsOf())
    }

    constructor ()
      ensures Valid() && locals == map[] && remotes == map[]
    {
      slots, locals, remotes := 0, map[], map[];
    }

    method Get(h: Hash) returns (tx: Option<Transaction>)
      requires Valid()
      ensures tx == if h in Hashes() then Some(h.tx) else None
    {
      if h in locals { return Some(locals[h]); }
      if h in remotes { return Some(remotes[h]); }
      return None;
    }

    /** A transaction that is there already has its slots counted twice, which breaks the sum. */
    method Add(tx: Transaction, local: bool)
      requires Valid()
      modifies this
      ensures slots == old(slots) + NumSlots(tx)
      ensures locals == if local then old(locals)[HashOf(tx) := tx] else old(locals)
      ensures remotes == if local then old(remotes) else old(remotes)[HashOf(tx) := tx]
      ensures Hashes() == old(Hashes()) + {HashOf(tx)}
      ensures Valid() <==> HashOf(tx) !in old(Hashes())
    {
      if HashOf(tx) !in Hashes() {
        SumAdd(Hashes(), SlotsOf(), HashOf(tx));
      }
      ghost var before := Hashes();
      hide Sum;
      slots := slots + NumSlots(tx);
      if local {
        locals := locals[HashOf(tx) := tx];
      } else {
        remotes := remotes[HashOf(tx) := tx];
      }
      assert Hashes() == before + {HashOf(tx)};
      assert HashOf(tx) in before ==> Hashes() == before;
    }

    method Remove(h: Hash)
      requires Valid()
      modifies this
      ensures Valid()
      ensures locals == old(locals) - {h} && remotes == old(remotes) - {h}
      ensures Hashes() == old(Hashes()) - {h}
    {
      ghost var before := Hashes();
      if h !in locals && h !in remotes {
        assert locals - {h} == locals && remotes - {h} == remotes;
        return;
      }
      SumRemove(before, SlotsOf(), h);
      hide Sum;
      slots := slots - NumSlots(h.tx);
      locals, remotes := locals - {h}, remotes - {h};
      assert Hashes() == before - {h};
    }

    method MoveToLocals(h: Hash)
      requires Valid() && h in remotes
      modifies this`locals, this`remotes
      ensures Valid() && Hashes() == old(Hashes())
      ensures remotes == old(remotes) - {h} && |remotes| == |old(remotes)| - 1
    {
      hide Sum;
      ghost var before := Hashes();
      assert (remotes - {h}).Keys == remotes.Keys - {h};
      locals := locals[h := remotes[h]];
      remotes := remotes - {h};
      assert Hashes() == before;
    }

    /** Moves the remote transactions of the given accounts to the local side. */
    method RemoteToLocals(accounts: set<Address>) returns (migrated: nat)
      requires Valid()
      modifies this
      ensures Valid() && Hashes() == old(Hashes())
      ensures forall h :: h in remotes <==> h in old(remotes) && !SentBy(accounts, h.tx)
      ensures |remotes| + migrated == |old(remotes)|
    {
      hide Sum;
      migrated := 0;
      var rest := remotes.Keys;
      while rest != {}
        invariant rest <= old(remotes).Keys
        invariant Valid() && Hashes() == old(Hashes())
        invariant forall h :: h in remotes <==> h in old(remotes) && (h in rest || !SentBy(accounts, h.tx))
        invariant |remotes| + migrated == |old(remotes)|
        decreases rest
      {
        var h :| h in rest;
        rest := rest - {h};
        if SentBy(accounts, remotes[h]) {
          MoveToLocals(h);
          migrated := migrated + 1;
        }
      }
    }
  }

  /** Every transaction takes at least one slot. */
  lemma {:induction false} SlotsCover(hs: set<Hash>)
    ensures Sum(hs, SlotsOf()) >= |hs|
    decreases |hs|
  {
    if hs != {} {
      var h :| h in hs;
      SumRemove(hs, SlotsOf(), h);
      SlotsCover(hs - {h});
    }
  }
}
