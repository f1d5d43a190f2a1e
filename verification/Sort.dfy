/** table.sort (ltablib.c): a quicksort in place with median of three, which recurses into the
    smaller half only. Indices are Lua's, so slot 0 of the array is not used. */
module Sort {
  import opened Basics

  // A comparison function such as table.sort asks for.
  ghost predicate StrictWeakOrder<T(!new)>(lt: (T, T) -> bool) {
    && (forall x :: !lt(x, x))
    && (forall x, y :: lt(x, y) ==> !lt(y, x))
    && (forall x, y, z :: lt(x, z) ==> lt(x, y) || lt(y, z))
  }

  // s1 is s with the elements l..u rearranged.
  ghost predicate Shuffled<T>(s: seq<T>, s1: seq<T>, l: int, u: int) {
    && 0 <= l <= u + 1 <= |s| == |s1|
    && (forall k :: 0 <= k < |s| && (k < l || u < k) ==> s1[k] == s[k])
    && multiset(s1[l..u + 1]) == multiset(s[l..u + 1])
  }

  // Element p is not above element q.
  predicate InOrder<T>(s: seq<T>, p: int, q: int, lt: (T, T) -> bool)
    requires 0 <= p < |s| && 0 <= q < |s|
  {
    !lt(s[q], s[p])
  }

  ghost predicate Sorted<T>(s: seq<T>, l: int, u: int, lt: (T, T) -> bool) {
    0 <= l && u < |s| && forall p, q :: l <= p < q <= u ==> InOrder(s, p, q, lt)
  }

  // Between lo and hi, only pairs with both ends in l..u may still be out of order.
  ghost predicate AllBut<T>(s: seq<T>, lo: int, hi: int, l: int, u: int, lt: (T, T) -> bool) {
    0 <= lo && hi < |s| && forall p, q :: lo <= p < q <= hi && (p < l || u < q) ==> InOrder(s, p, q, lt)
  }

  // Everything in l..u is below (above) pivot x or equal to it.
  ghost predicate Below<T(!new)>(s: seq<T>, l: int, u: int, x: T, lt: (T, T) -> bool) {
    0 <= l && u < |s| && forall k :: l <= k <= u ==> !lt(x, s[k])
  }

  ghost predicate Above<T(!new)>(s: seq<T>, l: int, u: int, x: T, lt: (T, T) -> bool) {
    0 <= l && u < |s| && forall k :: l <= k <= u ==> !lt(s[k], x)
  }

  // ---------- rearranging ----------

  lemma SwapShuffled<T>(s: seq<T>, i: int, j: int, l: int, u: int)
    requires 0 <= l <= i <= u < |s| && l <= j <= u
    ensures Shuffled(s, s[i := s[j]][j := s[i]], l, u)
  {
    var s1 := s[i := s[j]][j := s[i]];
    var t := s[l..u + 1];
    assert s1[l..u + 1] == t[i - l := t[j - l]][j - l := t[i - l]];
  }

  lemma ShuffledRefl<T>(s: seq<T>, l: int, u: int)
    requires 0 <= l <= u + 1 <= |s|
    ensures Shuffled(s, s, l, u)
  {
  }

  lemma ShuffledTrans<T>(s: seq<T>, s1: seq<T>, s2: seq<T>, l: int, u: int)
    requires Shuffled(s, s1, l, u) && Shuffled(s1, s2, l, u)
    ensures Shuffled(s, s2, l, u)
  {
  }

  lemma ShuffledWiden<T>(s: seq<T>, s1: seq<T>, l: int, u: int, l1: int, u1: int)
    requires Shuffled(s, s1, l, u) && 0 <= l1 <= l && u <= u1 < |s|
    ensures Shuffled(s, s1, l1, u1)
  {
    assert s[l1..u1 + 1] == s[l1..l] + s[l..u + 1] + s[u + 1..u1 + 1];
    assert s1[l1..u1 + 1] == s1[l1..l] + s1[l..u + 1] + s1[u + 1..u1 + 1];
    assert s1[l1..l] == s[l1..l] && s1[u + 1..u1 + 1] == s[u + 1..u1 + 1];
  }

  // Where an element of the rearranged part comes from.
  lemma Origin<T>(s: seq<T>, s1: seq<T>, l: int, u: int, k: int) returns (j: int)
    requires Shuffled(s, s1, l, u) && l <= k <= u
    ensures l <= j <= u && s[j] == s1[k]
  {
    var t, t1 := s[l..u + 1], s1[l..u + 1];
    assert t1[k - l] in multiset(t1);
    assert t1[k - l] in multiset(t);
    assert t1[k - l] in t;
    var i :| 0 <= i < |t| && t[i] == t1[k - l];
    j := i + l;
  }

  lemma ShuffledBelow<T(!new)>(s: seq<T>, s1: seq<T>, l: int, u: int, l1: int, u1: int, x: T, lt: (T, T) -> bool)
    requires Shuffled(s, s1, l, u) && l1 <= l && u <= u1 && Below(s, l1, u1, x, lt)
    ensures Below(s1, l1, u1, x, lt)
  {
    forall k | l1 <= k <= u1 ensures !lt(x, s1[k]) {
      if l <= k <= u {
        var j := Origin(s, s1, l, u, k);
      }
    }
  }

  lemma ShuffledAbove<T(!new)>(s: seq<T>, s1: seq<T>, l: int, u: int, l1: int, u1: int, x: T, lt: (T, T) -> bool)
    requires Shuffled(s, s1, l, u) && l1 <= l && u <= u1 && Above(s, l1, u1, x, lt)
    ensures Above(s1, l1, u1, x, lt)
  {
    forall k | l1 <= k <= u1 ensures !lt(s1[k], x) {
      if l <= k <= u {
        var j := Origin(s, s1, l, u, k);
      }
    }
  }

  // Rearranging l..u does not disturb the order of the rest.
  lemma ShuffledAllBut<T>(s: seq<T>, s1: seq<T>, lo: int, hi: int, l: int, u: int, lt: (T, T) -> bool)
    requires Shuffled(s, s1, l, u) && AllBut(s, lo, hi, l, u, lt) && lo <= l && u <= hi
    ensures AllBut(s1, lo, hi, l, u, lt)
  {
    forall p, q | lo <= p < q <= hi && (p < l || u < q) ensures InOrder(s1, p, q, lt) {
      var p0, q0 := p, q;
      if l <= p <= u {
        p0 := Origin(s, s1, l, u, p);
      }
      if l <= q <= u {
        q0 := Origin(s, s1, l, u, q);
      }
      assert InOrder(s, p0, q0, lt);
    }
  }

  // ---------- the order after partitioning ----------

  // The pivot is in its final place i.
  ghost predicate Parted<T(!new)>(s: seq<T>, l: int, i: int, u: int, lt: (T, T) -> bool) {
    0 <= l <= i <= u < |s| && Below(s, l, i - 1, s[i], lt) && Above(s, i + 1, u, s[i], lt)
  }

  lemma PartedAllBut<T(!new)>(s: seq<T>, lo: int, hi: int, l: int, i: int, u: int, left: bool,
                          lt: (T, T) -> bool)
    requires StrictWeakOrder(lt) && AllBut(s, lo, hi, l, u, lt) && Parted(s, l, i, u, lt) && lo <= l && u <= hi
    requires if left then Sorted(s, l, i - 1, lt) else Sorted(s, i + 1, u, lt)
    ensures if left then AllBut(s, lo, hi, i + 1, u, lt) else AllBut(s, lo, hi, l, i - 1, lt)
  {
    var l1, u1 := if left then i + 1 else l, if left then u else i - 1;
    forall p, q | lo <= p < q <= hi && (p < l1 || u1 < q) ensures InOrder(s, p, q, lt) {
      if l <= p && q <= u {
        assert p < i ==> !lt(s[i], s[p]);
        assert q > i ==> !lt(s[q], s[i]);
      }
    }
  }

  lemma PartedShuffled<T(!new)>(s: seq<T>, s1: seq<T>, l: int, i: int, u: int, left: bool,
                          lt: (T, T) -> bool)
    requires Parted(s, l, i, u, lt)
    requires if left then Shuffled(s, s1, l, i - 1) else Shuffled(s, s1, i + 1, u)
    ensures Parted(s1, l, i, u, lt)
  {
    if left {
      ShuffledBelow(s, s1, l, i - 1, l, i - 1, s[i], lt);
    } else {
      ShuffledAbove(s, s1, i + 1, u, i + 1, u, s[i], lt);
    }
  }

  // ---------- the algorithm ----------

  method Set2<T>(a: array<T>, i: int, j: int)
    requires 0 <= i < a.Length && 0 <= j < a.Length
    modifies a
    ensures a[..] == old(a[..])[i := old(a[j])][j := old(a[i])]
  {
    a[i], a[j] := a[j], a[i];
  }

  /** Swaps the ends if they are out of order. */
  method OrderEnds<T(!new)>(a: array<T>, l: int, u: int, lt: (T, T) -> bool)
    requires StrictWeakOrder(lt) && 0 <= l < u < a.Length
    modifies a
    ensures Shuffled(old(a[..]), a[..], l, u) && !lt(a[u], a[l])
  {
    ShuffledRefl(a[..], l, u);
    if lt(a[u], a[l]) {
      SwapShuffled(a[..], l, u, l, u);
      Set2(a, l, u);
    }
  }

  /** Puts the middle element in order with the two ends. */
  method OrderMiddle<T(!new)>(a: array<T>, l: int, u: int, lt: (T, T) -> bool) returns (i: int)
    requires StrictWeakOrder(lt) && 0 <= l && l + 2 <= u < a.Length && !lt(a[u], a[l])
    modifies a
    ensures l < i < u && i == (l + u) / 2 && Shuffled(old(a[..]), a[..], l, u)
    ensures !lt(a[i], a[l]) && !lt(a[u], a[i]) && !lt(a[u], a[l])
  {
    ShuffledRefl(a[..], l, u);
    i := (l + u) / 2;
    if lt(a[i], a[l]) {
      SwapShuffled(a[..], i, l, l, u);
      Set2(a, i, l);
    } else if lt(a[u], a[i]) {
      SwapShuffled(a[..], i, u, l, u);
      Set2(a, i, u);
    }
  }

  // What the partition loop keeps: nothing up to i is above the pivot, which waits at u-1, and nothing
  // from j on is below it.
  ghost predicate Splitting<T(!new)>(s: seq<T>, l: int, i: int, j: int, u: int, lt: (T, T) -> bool) {
    && 0 <= l <= i && j <= u && 1 <= u - 1 && u < |s| && l + 2 < u
    && Below(s, l, i, s[u - 1], lt) && Above(s, j, u, s[u - 1], lt)
  }

  /** Goes up past everything below the pivot, which stops the scan in the end. */
  method ScanUp<T(!new)>(a: array<T>, l: int, i0: int, j: int, u: int, lt: (T, T) -> bool) returns (i: int)
    requires StrictWeakOrder(lt) && Splitting(a[..], l, i0, j, u, lt) && i0 <= j && i0 < u - 1
    ensures i0 < i <= u - 1 && Below(a[..], l, i - 1, a[u - 1], lt) && !lt(a[i], a[u - 1])
  {
    i := i0 + 1;
    while lt(a[i], a[u - 1])
      invariant i0 < i <= u - 1 && Below(a[..], l, i - 1, a[u - 1], lt)
      decreases u - i
    {
      i := i + 1;
    }
  }

  /** Goes down past everything above the pivot; the first element is not above it. */
  method ScanDown<T(!new)>(a: array<T>, l: int, j0: int, u: int, lt: (T, T) -> bool) returns (j: int)
    requires StrictWeakOrder(lt) && 0 <= l < j0 <= u - 1 && u < a.Length
    requires !lt(a[u - 1], a[l]) && Above(a[..], j0, u, a[u - 1], lt)
    ensures l <= j < j0 && Above(a[..], j + 1, u, a[u - 1], lt) && !lt(a[u - 1], a[j])
  {
    j := j0 - 1;
    while lt(a[u - 1], a[j])
      invariant l <= j < j0 && Above(a[..], j + 1, u, a[u - 1], lt)
      decreases j
    {
      j := j - 1;
    }
  }

  /** The scans never leave l..u, so an invalid order function is never reported. */
  method Partition<T(!new)>(a: array<T>, l: int, u: int, lt: (T, T) -> bool) returns (i: int)
    requires StrictWeakOrder(lt) && 0 <= l && l + 2 < u < a.Length
    requires !lt(a[u - 1], a[l]) && !lt(a[u], a[u - 1])
    modifies a
    ensures l < i < u && Parted(a[..], l, i, u, lt) && Shuffled(old(a[..]), a[..], l, u)
  {
    hide Shuffled, Splitting, Below, Above, StrictWeakOrder, Parted;
    ghost var s := a[..];
    ShuffledRefl(s, l, u);
    var j;
    i, j := l, u - 1;
    SplitStart(s, l, u, lt);
    while true
      invariant Splitting(a[..], l, i, j, u, lt) && l <= i <= j && l < j && i < u - 1 && Shuffled(s, a[..], l, u)
      invariant j <= u - 1 && !lt(a[u - 1], a[l])
      decreases j - i
    {
      SplitParts(a[..], l, i, j, u, lt);
      i := ScanUp(a, l, i, j, u, lt);
      j := ScanDown(a, l, j, u, lt);
      if j < i {
        break;
      }
      ghost var s1 := a[..];
      SwapShuffled(s1, i, j, l, u);
      SplitSwap(s1, l, i, j, u, lt);
      Set2(a, i, j);
      ShuffledTrans(s, s1, a[..], l, u);
    }
    ghost var s2 := a[..];
    SwapShuffled(s2, u - 1, i, l, u);
    PivotSwap(s2, l, i, j, u, lt);
    Set2(a, u - 1, i);  // the pivot gets its final place
    ShuffledTrans(s, s2, a[..], l, u);
  }

  lemma SplitStart<T(!new)>(s: seq<T>, l: int, u: int, lt: (T, T) -> bool)
    requires StrictWeakOrder(lt) && 0 <= l && l + 2 < u < |s| && !lt(s[u - 1], s[l]) && !lt(s[u], s[u - 1])
    ensures Splitting(s, l, l, u - 1, u, lt)
  {
  }

  lemma SplitParts<T(!new)>(s: seq<T>, l: int, i: int, j: int, u: int, lt: (T, T) -> bool)
    requires Splitting(s, l, i, j, u, lt)
    ensures 0 <= l && u < |s| && Above(s, j, u, s[u - 1], lt)
  {
  }

  lemma SplitSwap<T(!new)>(s: seq<T>, l: int, i: int, j: int, u: int, lt: (T, T) -> bool)
    requires 0 <= l < i <= j < u - 1 && u < |s| && l + 2 < u
    requires Below(s, l, i - 1, s[u - 1], lt) && Above(s, j + 1, u, s[u - 1], lt)
    requires !lt(s[i], s[u - 1]) && !lt(s[u - 1], s[j])
    ensures Splitting(s[i := s[j]][j := s[i]], l, i, j, u, lt)
  {
  }

  lemma PivotSwap<T(!new)>(s: seq<T>, l: int, i: int, j: int, u: int, lt: (T, T) -> bool)
    requires StrictWeakOrder(lt) && 0 <= l < i <= u - 1 && u < |s| && j < i
    requires Below(s, l, i - 1, s[u - 1], lt) && Above(s, j + 1, u, s[u - 1], lt)
    ensures Parted(s[u - 1 := s[i]][i := s[u - 1]], l, i, u, lt)
  {
  }

  // One round: sorts two or three elements, or else puts a pivot in its final place.
  method PlacePivot<T(!new)>(a: array<T>, l: int, u: int, lt: (T, T) -> bool) returns (done: bool, i: int)
    requires StrictWeakOrder(lt) && 0 <= l < u < a.Length
    modifies a
    ensures Shuffled(old(a[..]), a[..], l, u)
    ensures if done then SmallSorted(a[..], l, u, lt) else u - l >= 3 && l < i < u && Parted(a[..], l, i, u, lt)
  {
    hide Shuffled, Parted, StrictWeakOrder;
    ghost var s0 := a[..];
    i := l;
    OrderEnds(a, l, u, lt);
    if u - l == 1 {  // two elements
      return true, i;
    }
    ghost var s1 := a[..];
    i := OrderMiddle(a, l, u, lt);
    ghost var s2 := a[..];
    ShuffledTrans(s0, s1, s2, l, u);
    if u - l == 2 {  // three elements
      return true, i;
    }
    i := PivotRound(a, l, u, i, lt);
    ShuffledTrans(s0, s2, a[..], l, u);
    return false, i;
  }

  method PivotRound<T(!new)>(a: array<T>, l: int, u: int, mid: int, lt: (T, T) -> bool) returns (i: int)
    requires StrictWeakOrder(lt) && 0 <= l < mid < u < a.Length && u - l >= 3
    requires !lt(a[mid], a[l]) && !lt(a[u], a[mid])
    modifies a
    ensures l < i < u && Parted(a[..], l, i, u, lt) && Shuffled(old(a[..]), a[..], l, u)
  {
    hide Shuffled, Parted, StrictWeakOrder;
    ghost var s := a[..];
    SwapShuffled(s, mid, u - 1, l, u);
    Set2(a, mid, u - 1);  // Pivot
    ghost var s1 := a[..];
    i := Partition(a, l, u, lt);
    ShuffledTrans(s, s1, a[..], l, u);
  }

  ghost predicate SmallSorted<T>(s: seq<T>, l: int, u: int, lt: (T, T) -> bool) {
    && 0 <= l && u < |s| && (u == l + 1 || (u == l + 2 && !lt(s[l + 1], s[l]) && !lt(s[u], s[l + 1])))
    && !lt(s[u], s[l])
  }

  /** auxsort: sorts lo..hi and touches nothing else; the depth of its recursion is at most
      one more than the logarithm of the number of elements. */
  method AuxSort<T(!new)>(a: array<T>, lo: int, hi: int, lt: (T, T) -> bool) returns (ghost depth: nat)
    requires StrictWeakOrder(lt) && 0 <= lo <= hi + 1 <= a.Length
    modifies a
    ensures Shuffled(old(a[..]), a[..], lo, hi) && Sorted(a[..], lo, hi, lt)
    ensures depth >= 1 && Pow2(depth - 1) <= if hi < lo then 1 else hi - lo + 1
    decreases hi - lo + 1, 1
  {
    hide Shuffled, AllBut, Sorted, Parted, StrictWeakOrder, SmallSorted, Pow2;
    var l, u := lo, hi;
    ghost var s := a[..];
    depth := 1;
    assert Pow2(0) == 1 by {
      PowZero();
    }
    ShuffledRefl(s, lo, hi);
    NothingLeft(s, lo, hi, l, u, lt);
    while l < u  // the larger part is left to the loop
      invariant lo <= l && u <= hi && l <= u + 1 && Shuffled(s, a[..], lo, hi) && AllBut(a[..], lo, hi, l, u, lt)
      invariant depth >= 1 && Pow2(depth - 1) <= if hi < lo then 1 else hi - lo + 1
      decreases u - l
    {
      ghost var s0, l0, u0 := a[..], l, u;
      var done, i := PlacePivot(a, l, u, lt);
      ghost var s4 := a[..];
      if done {
        SmallDone(s0, s4, lo, hi, l, u, lt);
        ShuffledWiden(s0, s4, l, u, lo, hi);
        ShuffledTrans(s, s0, s4, lo, hi);
        break;
      }
      ShuffledAllBut(s0, s4, lo, hi, l, u, lt);
      ghost var d;
      l, u, d := SortSmaller(a, lo, hi, l, i, u, lt);  // and go on with the larger one
      depth := if d + 1 > depth then d + 1 else depth;
      ShuffledTrans(s0, s4, a[..], l0, u0);
      ShuffledWiden(s0, a[..], l0, u0, lo, hi);
      ShuffledTrans(s, s0, a[..], lo, hi);
    }
    if l >= u {
      NothingLeft(a[..], lo, hi, l, u, lt);
    }
  }

  lemma PowZero()
    ensures Pow2(0) == 1
  {
  }

  // The recursive call for the smaller half around the pivot; what is left is the larger one.
  method SortSmaller<T(!new)>(a: array<T>, ghost lo: int, ghost hi: int, l: int, i: int, u: int, lt: (T, T) -> bool)
    returns (l1: int, u1: int, ghost depth: nat)
    requires StrictWeakOrder(lt) && AllBut(a[..], lo, hi, l, u, lt) && Parted(a[..], l, i, u, lt)
    requires 0 <= lo <= l < i < u <= hi < a.Length && u - l >= 3
    modifies a
    ensures Shuffled(old(a[..]), a[..], l, u) && AllBut(a[..], lo, hi, l1, u1, lt)
    ensures lo <= l1 <= u1 + 1 && u1 <= hi && u1 - l1 < u - l && l <= l1 && u1 <= u
    ensures depth >= 1 && Pow2(depth) <= hi - lo + 1
    decreases u - l, 2
  {
    hide Shuffled, AllBut, Sorted, Parted, StrictWeakOrder, Pow2;
    ghost var s := a[..];
    if i - l < u - i {
      depth := AuxSort(a, l, i - 1, lt);
      HalfDone(s, a[..], lo, hi, l, i, u, true, lt);
      ShuffledWiden(s, a[..], l, i - 1, l, u);
      Deeper(depth, i - l, u - i, hi - lo + 1);
      return i + 1, u, depth;
    } else {
      depth := AuxSort(a, i + 1, u, lt);
      HalfDone(s, a[..], lo, hi, l, i, u, false, lt);
      ShuffledWiden(s, a[..], i + 1, u, l, u);
      Deeper(depth, u - i, i - l, hi - lo + 1);
      return l, i - 1, depth;
    }
  }

  lemma NothingLeft<T>(s: seq<T>, lo: int, hi: int, l: int, u: int, lt: (T, T) -> bool)
    requires 0 <= lo && hi < |s|
    ensures AllBut(s, lo, hi, lo, hi, lt)
    ensures l >= u && AllBut(s, lo, hi, l, u, lt) ==> Sorted(s, lo, hi, lt)
  {
  }

  // Two or three elements are sorted when the ends and the middle are in order.
  lemma SmallDone<T(!new)>(s: seq<T>, s1: seq<T>, lo: int, hi: int, l: int, u: int, lt: (T, T) -> bool)
    requires AllBut(s, lo, hi, l, u, lt) && Shuffled(s, s1, l, u) && lo <= l && u <= hi
    requires SmallSorted(s1, l, u, lt)
    ensures Sorted(s1, lo, hi, lt)
  {
    ShuffledAllBut(s, s1, lo, hi, l, u, lt);
  }

  lemma HalfDone<T(!new)>(s: seq<T>, s1: seq<T>, lo: int, hi: int, l: int, i: int, u: int, left: bool,
                          lt: (T, T) -> bool)
    requires StrictWeakOrder(lt) && AllBut(s, lo, hi, l, u, lt) && Parted(s, l, i, u, lt) && lo <= l && u <= hi
    requires if left then Shuffled(s, s1, l, i - 1) && Sorted(s1, l, i - 1, lt)
             else Shuffled(s, s1, i + 1, u) && Sorted(s1, i + 1, u, lt)
    ensures if left then AllBut(s1, lo, hi, i + 1, u, lt) else AllBut(s1, lo, hi, l, i - 1, lt)
  {
    PartedShuffled(s, s1, l, i, u, left, lt);
    if left {
      ShuffledWiden(s, s1, l, i - 1, l, u);
    } else {
      ShuffledWiden(s, s1, i + 1, u, l, u);
    }
    ShuffledAllBut(s, s1, lo, hi, l, u, lt);
    PartedAllBut(s1, lo, hi, l, i, u, left, lt);
  }

  // The smaller of two halves, which with the pivot are at most n elements and at least four.
  lemma Deeper(d: nat, small: int, large: int, n: int)
    requires d >= 1 && 0 <= small <= large && 3 <= small + large <= n - 1
    requires Pow2(d - 1) <= if small < 1 then 1 else small
    ensures Pow2(d) <= n
  {
  }

  /** table.sort: the result is sorted and has the same elements. */
  method SortTable<T(!new)>(a: array<T>, n: nat, lt: (T, T) -> bool) returns (ghost depth: nat)
    requires StrictWeakOrder(lt) && n < a.Length
    modifies a
    ensures Sorted(a[..], 1, n, lt) && multiset(a[1..n + 1]) == multiset(old(a[1..n + 1]))
    ensures depth >= 1 && Pow2(depth - 1) <= if n < 1 then 1 else n
  {
    depth := AuxSort(a, 1, n, lt);
    assert a[..][1..n + 1] == a[1..n + 1];
    assert old(a[..])[1..n + 1] == old(a[1..n + 1]);
  }
}
