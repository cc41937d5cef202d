/**
 The acks one node has counted, seen as ballots: for every sender and nonce, each validator's
 first ack and the transaction it went to. Weight, stake received and the quorum are all
 functions of the ballots.
 */
module Ballots {
  import opened Types
  import opened Sums

  type Stake = map<Address, nat>

  type Ballots = map<Slot, map<Address, Hash>>

  function StakeAt(stake: Stake, v: Address): nat
  {
    if v in stake then stake[v] else 0
  }

  ghost function Holding(stake: Stake): Address -> int { v => StakeAt(stake, v) }

  ghost function StakeOf(stake: Stake, vs: set<Address>): (total: nat)
  {
    SumNonNegative(vs, Holding(stake));
    Sum(vs, Holding(stake))
  }

  function VotesIn(b: Ballots, s: Slot): map<Address, Hash>
  {
    if s in b then b[s] else map[]
  }

  function Voters(b: Ballots, s: Slot): set<Address> { VotesIn(b, s).Keys }

  function Supporters(b: Ballots, s: Slot, h: Hash): set<Address>
  {
    set v | v in VotesIn(b, s) && VotesIn(b, s)[v] == h
  }

  /** Only a validator's first ack for a sender and nonce is recorded. */
  function Cast(b: Ballots, s: Slot, v: Address, h: Hash): Ballots
  {
    if v in VotesIn(b, s) then b else b[s := VotesIn(b, s)[v := h]]
  }

  ghost function Weight(stake: Stake, b: Ballots, s: Slot, h: Hash): nat
  {
    StakeOf(stake, Supporters(b, s, h))
  }

  ghost function Received(stake: Stake, b: Ballots, s: Slot): nat
  {
    StakeOf(stake, Voters(b, s))
  }

  /** Every ballot in `b` is still there, unchanged, in `b'`. */
  ghost predicate Extends(b: Ballots, b': Ballots)
  {
    forall s, v :: v in VotesIn(b, s) ==> v in VotesIn(b', s) && VotesIn(b', s)[v] == VotesIn(b, s)[v]
  }

  lemma CastExtends(b: Ballots, s: Slot, v: Address, h: Hash)
    ensures Extends(b, Cast(b, s, v, h))
    ensures forall s', v' :: v' in VotesIn(Cast(b, s, v, h), s') ==>
      || (v' in VotesIn(b, s') && VotesIn(Cast(b, s, v, h), s')[v'] == VotesIn(b, s')[v'])
      || (s' == s && v' == v && VotesIn(Cast(b, s, v, h), s')[v'] == h)
  {
  }

  lemma ExtendsTransitive(a: Ballots, b: Ballots, c: Ballots)
    requires Extends(a, b) && Extends(b, c)
    ensures Extends(a, c)
  {
  }

  lemma StakeMonotone(stake: Stake, vs: set<Address>, ws: set<Address>)
    requires vs <= ws
    ensures StakeOf(stake, vs) <= StakeOf(stake, ws)
  {
    SumSubset(vs, ws, Holding(stake));
  }

  lemma StakeAdd(stake: Stake, vs: set<Address>, v: Address)
    requires v !in vs
    ensures StakeOf(stake, vs + {v}) == StakeOf(stake, vs) + StakeAt(stake, v)
  {
    SumAdd(vs, Holding(stake), v);
  }

  /** Ballots are never taken back, so no weight ever falls. */
  lemma WeightMonotone(stake: Stake, b: Ballots, b': Ballots, s: Slot, h: Hash)
    requires Extends(b, b')
    ensures Weight(stake, b, s, h) <= Weight(stake, b', s, h)
  {
    StakeMonotone(stake, Supporters(b, s, h), Supporters(b', s, h));
  }

  /** A fresh ballot adds its stake to one weight and one total and leaves all others alone. */
  lemma CastWeights(stake: Stake, b: Ballots, s: Slot, v: Address, h: Hash, s': Slot, h': Hash)
    requires v !in VotesIn(b, s)
    ensures var b' := Cast(b, s, v, h);
      && Weight(stake, b', s', h') == Weight(stake, b, s', h') + (if s' == s && h' == h then StakeAt(stake, v) else 0)
      && Received(stake, b', s') == Received(stake, b, s') + (if s' == s then StakeAt(stake, v) else 0)
  {
    var b' := Cast(b, s, v, h);
    if s' == s {
      assert Voters(b', s) == Voters(b, s) + {v};
      StakeAdd(stake, Voters(b, s), v);
      if h' == h {
        assert Supporters(b', s, h) == Supporters(b, s, h) + {v};
        StakeAdd(stake, Supporters(b, s, h), v);
      } else {
        assert Supporters(b', s, h') == Supporters(b, s, h');
      }
    } else {
      assert VotesIn(b', s') == VotesIn(b, s');
    }
  }

  // ---------- One node's totals ----------

  ghost function WeightFn(stake: Stake, b: Ballots, s: Slot): Hash -> int
  {
    h => Weight(stake, b, s, h)
  }

  /** The voters whose ballot went to one of the hashes in `hs`. */
  function VotersFor(b: Ballots, s: Slot, hs: set<Hash>): set<Address>
  {
    set v | v in VotesIn(b, s) && VotesIn(b, s)[v] in hs
  }

  lemma VotersForSplit(b: Ballots, s: Slot, hs: set<Hash>, h: Hash)
    requires h in hs
    ensures VotersFor(b, s, hs) == VotersFor(b, s, hs - {h}) + Supporters(b, s, h)
    ensures VotersFor(b, s, hs - {h}) !! Supporters(b, s, h)
  {
  }

  lemma {:induction false} WeightsOf(stake: Stake, b: Ballots, s: Slot, hs: set<Hash>)
    ensures Sum(hs, WeightFn(stake, b, s)) == StakeOf(stake, VotersFor(b, s, hs))
    decreases |hs|
  {
    if hs == {} {
      assert VotersFor(b, s, hs) == {};
    } else {
      hide Sum, VotersFor, Supporters;
      var h :| h in hs;
      SumRemove(hs, WeightFn(stake, b, s), h);
      WeightsOf(stake, b, s, hs - {h});
      VotersForSplit(b, s, hs, h);
      SumDisjoint(VotersFor(b, s, hs - {h}), Supporters(b, s, h), Holding(stake));
    }
  }

  /** The stake received for a sender and nonce is the sum of the weights of all its hashes. */
  lemma ReceivedIsSumOfWeights(stake: Stake, b: Ballots, s: Slot, hs: set<Hash>)
    requires forall v :: v in VotesIn(b, s) ==> VotesIn(b, s)[v] in hs
    ensures Received(stake, b, s) == Sum(hs, WeightFn(stake, b, s))
  {
    WeightsOf(stake, b, s, hs);
    assert VotersFor(b, s, hs) == Voters(b, s);
  }

  // ---------- Quorums ----------

  /** eth/backend.go sets the quorum to four fifths of the total stake, rounded down. */
  function Quorum(total: nat): nat { total * 4 / 5 }

  /** How much stake any two quorums must share, however the ballots fall. */
  function SharedStake(total: nat): nat
    ensures 5 * SharedStake(total) > 3 * total
  {
    2 * (Quorum(total) + 1) - total
  }

  /** Two groups of validators above the quorum share at least `SharedStake`. */
  lemma QuorumsIntersect(stake: Stake, validators: set<Address>, total: nat, vs: set<Address>, ws: set<Address>)
    requires StakeOf(stake, validators) <= total
    requires vs <= validators && ws <= validators
    requires StakeOf(stake, vs) > Quorum(total) && StakeOf(stake, ws) > Quorum(total)
    ensures StakeOf(stake, vs * ws) >= SharedStake(total)
  {
    SumOverlap(vs, ws, Holding(stake));
    StakeMonotone(stake, vs + ws, validators);
  }

  /** At one node no two transactions of the same sender and nonce can both pass the quorum. */
  lemma OneHashPerNode(stake: Stake, validators: set<Address>, total: nat, b: Ballots, s: Slot, h: Hash, h': Hash)
    requires StakeOf(stake, validators) <= total
    requires Voters(b, s) <= validators
    requires Weight(stake, b, s, h) > Quorum(total) && Weight(stake, b, s, h') > Quorum(total)
    ensures h == h'
  {
    if h != h' {
      var vs, ws := Supporters(b, s, h), Supporters(b, s, h');
      assert vs * ws == {};
      QuorumsIntersect(stake, validators, total, vs, ws);
    }
  }
}
