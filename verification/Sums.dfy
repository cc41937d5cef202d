/** Finite sums over sets, used for stake, balances, slots and list lengths. */
module Sums {

  ghost function Sum<T>(s: set<T>, f: T -> int): int
  {
    if s == {} then 0 else
      var x :| x in s;
      f(x) + Sum(s - {x}, f)
  }

  /** The element taken out first does not matter. */
  lemma {:induction false} SumRemove<T>(s: set<T>, f: T -> int, x: T)
    requires x in s
    ensures Sum(s, f) == f(x) + Sum(s - {x}, f)
    decreases |s|
  {
    var y :| y in s && Sum(s, f) == f(y) + Sum(s - {y}, f);
    if y != x {
      SumRemove(s - {y}, f, x);
      SumRemove(s - {x}, f, y);
      assert s - {y} - {x} == s - {x} - {y};
    }
  }

  lemma SumEmpty<T>(f: T -> int)
    ensures Sum({}, f) == 0
  {
  }

  lemma {:induction false} SumZero<T>(s: set<T>, f: T -> int)
    requires forall x :: x in s ==> f(x) == 0
    ensures Sum(s, f) == 0
    decreases |s|
  {
    if s != {} {
      var x :| x in s;
      SumRemove(s, f, x);
      SumZero(s - {x}, f);
    }
  }

  lemma SumAdd<T>(s: set<T>, f: T -> int, x: T)
    requires x !in s
    ensures Sum(s + {x}, f) == Sum(s, f) + f(x)
  {
    SumRemove(s + {x}, f, x);
    assert s + {x} - {x} == s;
  }

  lemma {:induction false} SumCongruent<T>(s: set<T>, f: T -> int, g: T -> int)
    requires forall x :: x in s ==> f(x) == g(x)
    ensures Sum(s, f) == Sum(s, g)
    decreases |s|
  {
    if s != {} {
      var x :| x in s;
      SumRemove(s, f, x);
      SumRemove(s, g, x);
      SumCongruent(s - {x}, f, g);
    }
  }

  lemma {:induction false} SumDisjoint<T>(s: set<T>, t: set<T>, f: T -> int)
    requires s !! t
    ensures Sum(s + t, f) == Sum(s, f) + Sum(t, f)
    decreases |t|
  {
    if t == {} {
      assert s + t == s;
    } else {
      var x :| x in t;
      SumRemove(t, f, x);
      SumDisjoint(s, t - {x}, f);
      SumRemove(s + t, f, x);
      assert (s + t) - {x} == s + (t - {x});
    }
  }

  lemma {:induction false} SumNonNegative<T>(s: set<T>, f: T -> int)
    requires forall x :: x in s ==> f(x) >= 0
    ensures Sum(s, f) >= 0
    decreases |s|
  {
    if s != {} {
      var x :| x in s;
      SumRemove(s, f, x);
      SumNonNegative(s - {x}, f);
    }
  }

  lemma SumSubset<T>(s: set<T>, t: set<T>, f: T -> int)
    requires s <= t
    requires forall x :: x in t ==> f(x) >= 0
    ensures Sum(s, f) <= Sum(t, f)
  {
    SumDisjoint(s, t - s, f);
    SumNonNegative(t - s, f);
    assert s + (t - s) == t;
  }

  /** Inclusion and exclusion: what two sets share is what they count twice. */
  lemma SumOverlap<T>(s: set<T>, t: set<T>, f: T -> int)
    ensures Sum(s, f) + Sum(t, f) == Sum(s + t, f) + Sum(s * t, f)
  {
    SumDisjoint(s, t - s, f);
    SumDisjoint(s * t, t - s, f);
    assert s + (t - s) == s + t;
    assert s * t + (t - s) == t;
  }

  /** Changing the summand at one element changes the sum by the difference there. */
  lemma SumUpdate<T>(s: set<T>, f: T -> int, g: T -> int, x: T)
    requires x in s
    requires forall y :: y in s && y != x ==> f(y) == g(y)
    ensures Sum(s, g) == Sum(s, f) - f(x) + g(x)
  {
    SumRemove(s, f, x);
    SumRemove(s, g, x);
    SumCongruent(s - {x}, f, g);
  }
}
