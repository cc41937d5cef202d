/** Binary heaps in a slice, with sift-up and sift-down as Go's container/heap does them. */
module Heap {

  /** A strict weak order: what a heap's Less must be. */
  ghost predicate Order<T(!new)>(less: (T, T) -> bool)
  {
    && (forall x :: !less(x, x))
    && (forall x, y, z :: less(x, y) && less(y, z) ==> less(x, z))
    && (forall x, y, z :: !less(x, y) && !less(y, z) ==> !less(x, z))
  }

  function Parent(i: nat): nat
    requires i > 0
  {
    (i - 1) / 2
  }

  /** No element at or below `lo`'s children is less than its parent, `skip` aside. */
  ghost predicate HeapBut<T>(h: seq<T>, less: (T, T) -> bool, lo: nat, skip: int)
  {
    forall k :: 0 < k < |h| && Parent(k) >= lo && k != skip ==> !less(h[k], h[Parent(k)])
  }

  ghost predicate IsHeap<T>(h: seq<T>, less: (T, T) -> bool) { HeapBut(h, less, 0, -1) }

  lemma {:induction false} RootIsLeast<T(!new)>(h: seq<T>, less: (T, T) -> bool, i: nat)
    requires Order(less) && IsHeap(h, less) && i < |h|
    ensures !less(h[i], h[0])
  {
    if i > 0 {
      RootIsLeast(h, less, Parent(i));
    }
  }

  function Swap<T>(h: seq<T>, i: nat, j: nat): (h': seq<T>)
    requires i < |h| && j < |h|
    ensures |h'| == |h|
    ensures multiset(h') == multiset(h)
  {
    h[i := h[j]][j := h[i]]
  }

  /** `j` may be less than its parent; everything else is in order, also across `j`. */
  ghost predicate Rising<T>(h: seq<T>, less: (T, T) -> bool, j: nat)
  {
    && HeapBut(h, less, 0, j)
    && (forall k :: 0 < k < |h| && Parent(k) == j && j > 0 ==> !less(h[k], h[Parent(j)]))
  }

  lemma RiseStep<T(!new)>(h: seq<T>, less: (T, T) -> bool, j: nat)
    requires Order(less) && 0 < j < |h| && Rising(h, less, j) && less(h[j], h[Parent(j)])
    ensures Rising(Swap(h, Parent(j), j), less, Parent(j))
  {
    var i := Parent(j);
    var h' := Swap(h, i, j);
    forall k | 0 < k < |h'| && k != i ensures !less(h'[k], h'[Parent(k)]) {
      if Parent(k) == i && k != j {
        assert !less(h[k], h[i]);
      } else if Parent(k) == j {
        assert !less(h[k], h[Parent(j)]);
      }
    }
    forall k | 0 < k < |h'| && Parent(k) == i && i > 0 ensures !less(h'[k], h'[Parent(i)]) {
      assert !less(h[i], h[Parent(i)]);
      assert k != j ==> !less(h[k], h[i]);
    }
  }

  /** Moves the element at `j0` towards the root until its parent is not greater. */
  method Up<T(!new)>(h0: seq<T>, j0: nat, less: (T, T) -> bool) returns (h: seq<T>)
    requires Order(less) && j0 < |h0| && Rising(h0, less, j0)
    ensures |h| == |h0| && IsHeap(h, less) && multiset(h) == multiset(h0)
  {
    h := h0;
    var j := j0;
    while j > 0 && less(h[j], h[Parent(j)])
      invariant 0 <= j < |h| == |h0| && multiset(h) == multiset(h0)
      invariant Rising(h, less, j)
    {
      var i := Parent(j);
      RiseStep(h, less, j);
      h := Swap(h, i, j);
      j := i;
    }
  }

  /** The smaller child of `i`. */
  function Child<T>(h: seq<T>, i: nat, less: (T, T) -> bool): nat
    requires 2 * i + 1 < |h|
  {
    if 2 * i + 2 < |h| && less(h[2 * i + 2], h[2 * i + 1]) then 2 * i + 2 else 2 * i + 1
  }

  /** `i` may exceed its children; everything else from `lo` on is in order, also across `i`. */
  ghost predicate Sinking<T>(h: seq<T>, less: (T, T) -> bool, lo: nat, i: nat)
  {
    && (forall k :: 0 < k < |h| && Parent(k) >= lo && Parent(k) != i ==> !less(h[k], h[Parent(k)]))
    && (forall k :: 0 < k < |h| && Parent(k) == i && i > 0 && Parent(i) >= lo ==> !less(h[k], h[Parent(i)]))
  }

  lemma SinkStep<T(!new)>(h: seq<T>, less: (T, T) -> bool, lo: nat, i: nat)
    requires Order(less) && lo <= i && 2 * i + 1 < |h| && Sinking(h, less, lo, i)
    requires less(h[Child(h, i, less)], h[i])
    ensures Sinking(Swap(h, i, Child(h, i, less)), less, lo, Child(h, i, less))
  {
    var j := Child(h, i, less);
    var h' := Swap(h, i, j);
    forall k | 0 < k < |h'| && Parent(k) >= lo && Parent(k) != j ensures !less(h'[k], h'[Parent(k)]) {
      if Parent(k) == i {
        assert k == 2 * i + 1 || k == 2 * i + 2;
      }
    }
  }

  /** Moves the element at `i0` towards the leaves until no child is less. */
  method Down<T(!new)>(h0: seq<T>, i0: nat, lo: nat, less: (T, T) -> bool) returns (h: seq<T>)
    requires Order(less) && lo <= i0 && Sinking(h0, less, lo, i0)
    ensures |h| == |h0| && HeapBut(h, less, lo, -1) && multiset(h) == multiset(h0)
  {
    h := h0;
    var i := i0;
    while 2 * i + 1 < |h| && less(h[Child(h, i, less)], h[i])
      invariant lo <= i && |h| == |h0| && multiset(h) == multiset(h0)
      invariant Sinking(h, less, lo, i)
      decreases |h| - i
    {
      var j := Child(h, i, less);
      SinkStep(h, less, lo, i);
      h := Swap(h, i, j);
      i := j;
    }
    forall k | 0 < k < |h| && Parent(k) >= lo ensures !less(h[k], h[Parent(k)]) {
      if Parent(k) == i {
        assert k == 2 * i + 1 || k == 2 * i + 2;
      }
    }
  }

  method Init<T(!new)>(h0: seq<T>, less: (T, T) -> bool) returns (h: seq<T>)
    requires Order(less)
    ensures IsHeap(h, less) && multiset(h) == multiset(h0)
  {
    h := h0;
    var i := |h| / 2;
    while i > 0
      invariant 0 <= i && |h| == |h0| && multiset(h) == multiset(h0)
      invariant HeapBut(h, less, i, -1)
    {
      i := i - 1;
      h := Down(h, i, i, less);
    }
  }

  method Push<T(!new)>(h0: seq<T>, x: T, less: (T, T) -> bool) returns (h: seq<T>)
    requires Order(less) && IsHeap(h0, less)
    ensures IsHeap(h, less) && multiset(h) == multiset(h0) + multiset{x}
  {
    h := Up(h0 + [x], |h0|, less);
  }

  /** With the last element put in place of another, it may have to rise or to sink, not both. */
  lemma Replaced<T(!new)>(h0: seq<T>, h: seq<T>, i: nat, less: (T, T) -> bool)
    requires Order(less) && IsHeap(h0, less)
    requires |h| == |h0| - 1 && i < |h|
    requires h == h0[..|h|][i := h0[|h|]]
    ensures i > 0 && less(h[i], h[Parent(i)]) ==> Rising(h, less, i)
    ensures i > 0 && !less(h[i], h[Parent(i)]) ==> Sinking(h, less, 0, i)
    ensures i == 0 ==> Sinking(h, less, 0, i)
  {
    assert forall k :: 0 < k < |h| && k != i && Parent(k) != i ==> !less(h0[k], h0[Parent(k)]);
    forall k | 0 < k < |h| && Parent(k) == i && i > 0 ensures !less(h[k], h[Parent(i)]) {
      assert !less(h0[k], h0[i]) && !less(h0[i], h0[Parent(i)]);
    }
  }

  lemma DropLast<T>(h0: seq<T>, h: seq<T>, i: nat)
    requires |h| == |h0| - 1 && i < |h0|
    requires h == if i < |h| then h0[..|h|][i := h0[|h|]] else h0[..|h|]
    ensures multiset(h) == multiset(h0) - multiset{h0[i]}
  {
    assert h0 == h0[..|h|] + [h0[|h|]];
  }

  method Remove<T(!new)>(h0: seq<T>, i: nat, less: (T, T) -> bool) returns (h: seq<T>)
    requires Order(less) && IsHeap(h0, less) && i < |h0|
    ensures IsHeap(h, less) && multiset(h) == multiset(h0) - multiset{h0[i]} && |h| == |h0| - 1
  {
    var n := |h0| - 1;
    h := h0[..n];
    if i < n {
      h := h[i := h0[n]];
      DropLast(h0, h, i);
      Replaced(h0, h, i, less);
      hide Rising, Sinking, HeapBut;
      if i > 0 && less(h[i], h[Parent(i)]) {
        h := Up(h, i, less);
      } else {
        h := Down(h, i, 0, less);
      }
    } else {
      DropLast(h0, h, i);
    }
  }

  method Pop<T(!new)>(h0: seq<T>, less: (T, T) -> bool) returns (x: T, h: seq<T>)
    requires Order(less) && IsHeap(h0, less) && |h0| > 0
    ensures x == h0[0]
    ensures IsHeap(h, less) && multiset(h) == multiset(h0) - multiset{x} && |h| == |h0| - 1
    ensures forall i :: 0 <= i < |h0| ==> !less(h0[i], x)
  {
    x := h0[0];
    h := Remove(h0, 0, less);
    forall i | 0 <= i < |h0| ensures !less(h0[i], x) {
      RootIsLeast(h0, less, i);
    }
  }

  // ---------- Sorting ----------

  ghost predicate Ordered<T>(s: seq<T>, less: (T, T) -> bool)
  {
    forall i, j :: 0 <= i < j < |s| ==> !less(s[j], s[i])
  }

  /** Stands in for the library sort: an ordered permutation of its input. */
  method Sort<T(!new)>(s: seq<T>, less: (T, T) -> bool) returns (r: seq<T>)
    requires Order(less)
    ensures Ordered(r, less) && multiset(r) == multiset(s) && |r| == |s|
  {
    var h := Init(s, less);
    r := [];
    while |h| > 0
      invariant IsHeap(h, less) && Ordered(r, less)
      invariant multiset(r) + multiset(h) == multiset(s)
      invariant forall i, j :: 0 <= i < |r| && 0 <= j < |h| ==> !less(h[j], r[i])
    {
      ghost var before := h;
      var x;
      x, h := Pop(h, less);
      forall j | 0 <= j < |h| ensures h[j] in before {
        assert h[j] in multiset(h);
      }
      r := r + [x];
    }
    assert multiset(h) == multiset{};
    assert |multiset(r)| == |multiset(s)|;
  }
}
