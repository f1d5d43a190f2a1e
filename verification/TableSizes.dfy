/** How ltable.c chooses the size of the array part: the largest n, a power of two, such that
    more than half of the slots 1..n would be in use. */
module TableSizes {
  import opened Basics

  const MAXBITS: nat := 26

  const MAXASIZE: nat := Pow2(MAXBITS)

  /** The least i with k <= 2^i. */
  function CeilLog2(k: nat): (i: nat)
    requires 0 < k
    ensures k <= Pow2(i) && (i > 0 ==> Pow2(i - 1) < k)
  {
    if k == 1 then 0 else CeilLog2((k + 1) / 2) + 1
  }

  lemma CeilLog2Unique(k: nat, i: nat)
    requires 0 < k
    ensures CeilLog2(k) <= i <==> k <= Pow2(i)
  {
    var c := CeilLog2(k);
    if c <= i {
      Pow2Mono(c, i);
    } else {
      Pow2Mono(i, c - 1);
    }
  }

  // ---------- counting keys by slices ----------

  // The keys between 2^(i-1) and 2^i.
  function Slice(ks: set<nat>, i: nat): set<nat>
    requires 0 !in ks
  {
    set k | k in ks && CeilLog2(k) == i
  }

  // The keys up to 2^i.
  function UpTo(ks: set<nat>, n: nat): set<nat> { set k | k in ks && k <= n }

  ghost predicate Counts(nums: seq<nat>, ks: set<nat>) {
    && |nums| == MAXBITS + 1 && (forall k :: k in ks ==> 0 < k <= MAXASIZE)
    && forall i :: 0 <= i < |nums| ==> nums[i] == |Slice(ks, i)|
  }

  function Prefix(nums: seq<nat>, i: nat): nat
    requires i <= |nums|
  {
    if i == 0 then 0 else Prefix(nums, i - 1) + nums[i - 1]
  }

  lemma {:induction false} PrefixIsUpTo(nums: seq<nat>, ks: set<nat>, i: nat)
    requires Counts(nums, ks) && i < |nums|
    ensures Prefix(nums, i + 1) == |UpTo(ks, Pow2(i))|
  {
    hide Pow2, CeilLog2;
    UpToSlices(ks, i);
    if i == 0 {
      assert UpTo(ks, Pow2(0)) == Slice(ks, 0);
      assert Prefix(nums, 0) == 0;
    } else {
      PrefixIsUpTo(nums, ks, i - 1);
      UpToSlices(ks, i - 1);
    }
  }

  lemma UpToSlices(ks: set<nat>, i: nat)
    requires 0 !in ks
    ensures UpTo(ks, Pow2(0)) == Slice(ks, 0)
    ensures i > 0 ==> UpTo(ks, Pow2(i)) == UpTo(ks, Pow2(i - 1)) + Slice(ks, i) && UpTo(ks, Pow2(i - 1)) !! Slice(ks, i)
  {
    hide Pow2, CeilLog2;
    forall k | k in ks ensures (k <= Pow2(i) <==> CeilLog2(k) <= i) && (k <= Pow2(0) <==> CeilLog2(k) <= 0)
                               && (i > 0 ==> (k <= Pow2(i - 1) <==> CeilLog2(k) <= i - 1))
    {
      CeilLog2Unique(k, i);
      CeilLog2Unique(k, 0);
      if i > 0 {
        CeilLog2Unique(k, i - 1);
      }
    }
  }

  lemma AllCounted(nums: seq<nat>, ks: set<nat>)
    requires Counts(nums, ks)
    ensures Prefix(nums, |nums|) == |ks|
  {
    PrefixIsUpTo(nums, ks, MAXBITS);
    assert UpTo(ks, Pow2(MAXBITS)) == ks;
  }

  lemma {:induction false} PrefixMono(nums: seq<nat>, i: nat, j: nat)
    requires i <= j <= |nums|
    ensures Prefix(nums, i) <= Prefix(nums, j)
  {
    if i < j {
      PrefixMono(nums, i, j - 1);
    }
  }

  lemma {:induction false} UpToBound(ks: set<nat>, n: nat)
    requires 0 !in ks
    ensures |UpTo(ks, n)| <= n
  {
    if n == 0 {
      assert UpTo(ks, 0) == {};
    } else {
      UpToBound(ks, n - 1);
      assert UpTo(ks, n) <= UpTo(ks, n - 1) + {n};
      CardMono(UpTo(ks, n), UpTo(ks, n - 1) + {n});
    }
  }

  lemma {:induction false} CardMono<T>(a: set<T>, b: set<T>)
    requires a <= b
    ensures |a| <= |b|
    decreases |a|
  {
    if a != {} {
      var x :| x in a;
      CardMono(a - {x}, b - {x});
    }
  }

  lemma NoneCounted(nums: seq<nat>)
    requires |nums| == MAXBITS + 1 && forall i :: 0 <= i < |nums| ==> nums[i] == 0
    ensures Counts(nums, {})
  {
    forall i | 0 <= i < |nums| ensures nums[i] == |Slice({}, i)| {
      assert Slice({}, i) == {};
    }
  }

  lemma CountOne(nums: seq<nat>, ks: set<nat>, k: nat)
    requires Counts(nums, ks) && k !in ks && 0 < k <= MAXASIZE
    ensures var c := CeilLog2(k); c < |nums| && Counts(nums[c := nums[c] + 1], ks + {k})
  {
    hide Pow2, CeilLog2;
    CeilLog2Unique(k, MAXBITS);
    var c := CeilLog2(k);
    forall i | 0 <= i < |nums| ensures nums[c := nums[c] + 1][i] == |Slice(ks + {k}, i)| {
      if i == c {
        assert Slice(ks + {k}, c) == Slice(ks, c) + {k};
      } else {
        assert Slice(ks + {k}, i) == Slice(ks, i);
      }
    }
  }

  // ---------- the size of the array part ----------

  // More than half of the slots 1..2^i would be in use.
  ghost predicate Dense(ks: set<nat>, i: nat) { |UpTo(ks, Pow2(i))| > Pow2(i) / 2 }

  ghost predicate OptimalSize(ks: set<nat>, n: nat, na: nat) {
    && na == |UpTo(ks, n)|
    && (n == 0 || exists i :: 0 <= i <= MAXBITS && n == Pow2(i) && Dense(ks, i))
    && forall i :: 0 <= i <= MAXBITS && Dense(ks, i) ==> Pow2(i) <= n
  }

  /** computesizes: given the counts of each slice, the best size of the array part and the
      number of keys that go there. */
  method ComputeSizes(nums: seq<nat>, narray: nat, ghost ks: set<nat>) returns (na: nat, n: nat)
    requires Counts(nums, ks) && narray == |ks|
    ensures OptimalSize(ks, n, na)
  {
    hide Counts, UpTo, Dense, CeilLog2, Pow2, Prefix;
    CountsLength(nums, ks);
    NextPow2(0);
    NextPrefix(nums, 0);
    var i, twotoi := 0, 1;
    var a := 0;
    na, n := 0, 0;
    AllCounted(nums, ks);
    NoneUpTo(ks);
    while twotoi / 2 < narray
      invariant 0 <= i <= |nums| && twotoi == Pow2(i) && a == Prefix(nums, i)
      invariant i == |nums| ==> a < narray
      invariant na == |UpTo(ks, n)|
      invariant n == 0 || exists j :: 0 <= j < i && n == Pow2(j) && Dense(ks, j)
      invariant forall j :: 0 <= j < i && Dense(ks, j) ==> Pow2(j) <= n
      decreases |nums| - i
    {
      PrefixIsUpTo(nums, ks, i);
      PrefixMono(nums, i + 1, |nums|);
      IsDense(ks, i);
      NextPow2(i);
      NextPrefix(nums, i);
      if nums[i] > 0 {
        a := a + nums[i];
        if a > twotoi / 2 {  // a better size
          LessDense(i);
          n := twotoi;
          na := a;
        }
      } else {
        SparseSlice(nums, ks, i);
      }
      if a == narray {  // no key is left
        NoMoreDense(ks, i, n);
        break;
      }
      i := i + 1;
      twotoi := twotoi * 2;
    }
    if twotoi / 2 >= narray {
      TooFewDense(ks, i);
    }
  }

  lemma NextPow2(i: nat)
    ensures Pow2(i + 1) == 2 * Pow2(i) && Pow2(0) == 1
  {
  }

  lemma NextPrefix(nums: seq<nat>, i: nat)
    requires i < |nums|
    ensures Prefix(nums, i + 1) == Prefix(nums, i) + nums[i] && Prefix(nums, 0) == 0
  {
  }

  lemma CountsLength(nums: seq<nat>, ks: set<nat>)
    requires Counts(nums, ks)
    ensures |nums| == MAXBITS + 1 && 0 !in ks
  {
  }

  lemma NoneUpTo(ks: set<nat>)
    requires 0 !in ks
    ensures |UpTo(ks, 0)| == 0
  {
    assert UpTo(ks, 0) == {};
  }

  lemma IsDense(ks: set<nat>, i: nat)
    ensures Dense(ks, i) <==> |UpTo(ks, Pow2(i))| > Pow2(i) / 2
  {
  }

  lemma LessDense(i: nat)
    ensures forall j :: 0 <= j <= i ==> Pow2(j) <= Pow2(i)
  {
    forall j | 0 <= j <= i ensures Pow2(j) <= Pow2(i) {
      Pow2Mono(j, i);
    }
  }

  // A slice without keys cannot make a size better than the half of it.
  lemma SparseSlice(nums: seq<nat>, ks: set<nat>, i: nat)
    requires Counts(nums, ks) && i < |nums| && nums[i] == 0
    ensures !Dense(ks, i)
  {
    PrefixIsUpTo(nums, ks, i);
    if i > 0 {
      PrefixIsUpTo(nums, ks, i - 1);
      UpToBound(ks, Pow2(i - 1));
    }
  }

  lemma NoMoreDense(ks: set<nat>, i: nat, n: nat)
    requires 0 !in ks && |UpTo(ks, Pow2(i))| == |ks|
    ensures forall j :: j > i ==> !Dense(ks, j)
  {
    UpToBound(ks, Pow2(i));
    forall j | j > i ensures !Dense(ks, j) {
      Pow2Mono(i, j);
      CardMono(UpTo(ks, Pow2(j)), ks);
    }
  }

  lemma TooFewDense(ks: set<nat>, i: nat)
    requires Pow2(i) / 2 >= |ks|
    ensures forall j :: j >= i ==> !Dense(ks, j)
  {
    forall j | j >= i ensures !Dense(ks, j) {
      Pow2Mono(i, j);
      CardMono(UpTo(ks, Pow2(j)), ks);
    }
  }
}
