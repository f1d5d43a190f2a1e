/** Counting for the rehash of a Lua table (ltable.c), and what moves where when a table is
    resized. */
module TableRehash {
  import opened Basics
  import opened TableChains
  import opened TableSizes
  import opened TableMap

  // ---------- counting ----------

  // The keys below n that the array part has values for.
  function ArrKeys(arr: seq<Value>, n: nat): set<nat> { set i | 1 <= i < n && HasValue(arr, i) }

  predicate HasValue(arr: seq<Value>, i: nat) { 1 <= i <= |arr| && arr[i - 1] != Nil }

  lemma ArrKeysNext(arr: seq<Value>, i: nat)
    requires 1 <= i <= |arr|
    ensures ArrKeys(arr, i + 1) == if arr[i - 1] != Nil then ArrKeys(arr, i) + {i} else ArrKeys(arr, i)
    ensures i !in ArrKeys(arr, i)
  {
  }

  predicate Countable(k: Key) { k.Num? && 0 < k.i <= MAXASIZE }

  // The array indices among the keys.
  function Ints(ks: set<Key>): set<nat> { set k | k in ks && Countable(k) :: k.i }

  function Nums(s: set<nat>): set<Key> { set i | i in s :: Num(i) }

  lemma {:induction false} NumsCard(s: set<nat>)
    ensures |Nums(s)| == |s|
    decreases |s|
  {
    if s == {} {
      assert Nums(s) == {};
    } else {
      var i :| i in s;
      NumsCard(s - {i});
      assert Nums(s) == Nums(s - {i}) + {Num(i)};
      assert Num(i) !in Nums(s - {i});
    }
  }

  // The keys with values in the last nodes.
  ghost function HashPart(node: seq<Node>, n: nat): set<Key> {
    set i | n <= i < |node| && node[i].val != Nil :: node[i].key
  }

  lemma HashPartNext(arr: seq<Value>, node: seq<Node>, m: map<Key, Value>, n: nat)
    requires Contains(arr, node, m) && Distinct(node) && n < |node|
    ensures HashPart(node, n) ==
            if node[n].val != Nil then HashPart(node, n + 1) + {node[n].key} else HashPart(node, n + 1)
    ensures node[n].val != Nil ==>
              IsKey(node[n].key) && node[n].key !in HashPart(node, n + 1) && !InArr(|arr|, node[n].key)
  {
    assert NodeOK(|arr|, m, node[n]);
  }

  /** Array part and hash part together have one entry for each key. */
  lemma TotalUse(arr: seq<Value>, node: seq<Node>, m: map<Key, Value>)
    requires Contains(arr, node, m) && |arr| <= MAXASIZE
    ensures m.Keys == Nums(ArrKeys(arr, |arr| + 1)) + HashPart(node, 0)
    ensures |m| == |ArrKeys(arr, |arr| + 1)| + |HashPart(node, 0)|
    ensures Ints(m.Keys) == ArrKeys(arr, |arr| + 1) + Ints(HashPart(node, 0))
  {
    var a, h := Nums(ArrKeys(arr, |arr| + 1)), HashPart(node, 0);
    hide Contains, HashPart, Nums, Pow2, Countable;
    forall k ensures k in m <==> k in a + h {
      KeyPlace(arr, node, m, k);
    }
    assert m.Keys == a + h;
    PartsApart(arr, node, m);
    NumsCard(ArrKeys(arr, |arr| + 1));
    assert |m| == |m.Keys|;
    IntsOf(m.Keys, ArrKeys(arr, |arr| + 1), h);
  }

  lemma KeyPlace(arr: seq<Value>, node: seq<Node>, m: map<Key, Value>, k: Key)
    requires Contains(arr, node, m)
    ensures k in m <==> k in Nums(ArrKeys(arr, |arr| + 1)) || k in HashPart(node, 0)
  {
    if k in m {
      assert Stored(arr, node, k, m[k]);
      if InArr(|arr|, k) {
        assert HasValue(arr, k.i) && k.i in ArrKeys(arr, |arr| + 1);
        assert Num(k.i) == k;
      }
    }
    if k in Nums(ArrKeys(arr, |arr| + 1)) {
      assert SlotOK(m, arr[k.i - 1], k.i - 1);
    }
    if k in HashPart(node, 0) {
      var i :| 0 <= i < |node| && node[i].val != Nil && node[i].key == k;
      assert NodeOK(|arr|, m, node[i]);
    }
  }

  lemma PartsApart(arr: seq<Value>, node: seq<Node>, m: map<Key, Value>)
    requires Contains(arr, node, m)
    ensures Nums(ArrKeys(arr, |arr| + 1)) !! HashPart(node, 0)
  {
    forall k | k in HashPart(node, 0) ensures k !in Nums(ArrKeys(arr, |arr| + 1)) {
      var i :| 0 <= i < |node| && node[i].val != Nil && node[i].key == k;
      assert NodeOK(|arr|, m, node[i]);
    }
  }

  lemma IntsOf(ks: set<Key>, a: set<nat>, h: set<Key>)
    requires ks == Nums(a) + h && forall i :: i in a ==> 0 < i <= MAXASIZE
    ensures Ints(ks) == a + Ints(h)
  {
    forall i ensures i in Ints(ks) <==> i in a + Ints(h) {
      if i in a {
        assert Num(i) in ks && Countable(Num(i));
      }
    }
  }

  lemma IntsAdd(ks: set<Key>, k: Key)
    ensures Ints(ks + {k}) == if Countable(k) then Ints(ks) + {k.i} else Ints(ks)
    ensures Countable(k) && k !in ks ==> k.i !in Ints(ks)
  {
    forall i ensures i in Ints(ks + {k}) <==> i in Ints(ks) || (Countable(k) && i == k.i) {
      if i in Ints(ks) {
        var q :| q in ks && Countable(q) && q.i == i;
        assert q in ks + {k};
      }
      if Countable(k) && i == k.i {
        assert k in ks + {k};
      }
    }
  }

  /** The keys that do not fit in an array part of size n are as many as the rehash makes room
      for in the hash part. */
  lemma HashRoom(ks: set<Key>, n: nat)
    requires n <= MAXASIZE
    ensures |UpTo(Ints(ks), n)| <= |ks|
    ensures |set k | k in ks && !InArr(n, k)| == |ks| - |UpTo(Ints(ks), n)|
  {
    var a, h := UpTo(Ints(ks), n), set k | k in ks && !InArr(n, k);
    forall k ensures k in ks <==> k in Nums(a) + h {
      if k in ks && InArr(n, k) {
        assert Countable(k) && k.i in a && Num(k.i) == k;
      }
      if k in Nums(a) {
        var q :| q in ks && Countable(q) && q.i == k.i;
        assert q == k;
      }
    }
    assert ks == Nums(a) + h;
    assert Nums(a) !! h;
    NumsCard(a);
  }

  lemma OptimalBound(ks: set<nat>, n: nat, na: nat)
    requires OptimalSize(ks, n, na)
    ensures n <= MAXASIZE && na == |UpTo(ks, n)|
  {
    if n != 0 {
      var i :| 0 <= i <= MAXBITS && n == Pow2(i) && Dense(ks, i);
      Pow2Mono(i, MAXBITS);
    }
  }

  // ---------- moving ----------

  // The keys that have been moved: array slots before i and nodes from j on.
  ghost predicate Done(oldarr: seq<Value>, oldnode: seq<Node>, i: nat, j: nat, k: Key) {
    if InArr(|oldarr|, k) then k.i - 1 < i
    else exists q :: j <= q < |oldnode| && oldnode[q].key == k
  }

  ghost predicate Moving(m0: map<Key, Value>, m: map<Key, Value>, oldarr: seq<Value>, oldnode: seq<Node>,
                         i: nat, j: nat) {
    && (forall k :: k in m ==> k in m0 && m[k] == m0[k])
    && (forall k :: k in m0 ==> (k in m <==> Done(oldarr, oldnode, i, j, k)))
  }

  ghost function ArrayOnly(m: map<Key, Value>, nasize: nat, oldsize: nat): map<Key, Value> {
    map k | k in m && InArr(oldsize, k) && k.i <= nasize :: m[k]
  }

  function Resized(arr: seq<Value>, nasize: nat): seq<Value> {
    if nasize > |arr| then arr + seq(nasize - |arr|, _ => Nil) else arr[..nasize]
  }

  lemma FreshTable(hash: Hash, arr: seq<Value>, node: seq<Node>, m: map<Key, Value>, nasize: nat, n: nat)
    requires Contains(arr, node, m) && 0 < n
    ensures var m1, node1 := ArrayOnly(m, nasize, |arr|), seq(n, _ => EMPTY);
      && Contains(Resized(arr, nasize), node1, m1) && Distinct(node1) && Chained(hash, node1, []) && AllLive(node1)
      && Moving(m, m1, arr, node, nasize, |node|)
  {
    var m1, arr1 := ArrayOnly(m, nasize, |arr|), Resized(arr, nasize);
    EmptyHash(hash, n);
    forall k | k in m1 ensures Stored(arr1, seq(n, _ => EMPTY), k, m1[k]) {
      assert Stored(arr, node, k, m[k]);
    }
    forall i | 0 <= i < |arr1| ensures SlotOK(m1, arr1[i], i) {
      if i < |arr| {
        assert SlotOK(m, arr[i], i);
      }
    }
    forall k | k in m ensures k in m1 <==> Done(arr, node, nasize, |node|, k) {
    }
  }

  lemma MoveSlot(m0: map<Key, Value>, m: map<Key, Value>, arr: seq<Value>, node: seq<Node>, i: nat)
    requires Contains(arr, node, m0) && i < |arr| && Moving(m0, m, arr, node, i, |node|)
    ensures arr[i] != Nil ==> Num(i + 1) in m0 && m0[Num(i + 1)] == arr[i] && Num(i + 1) !in m
    ensures Moving(m0, if arr[i] != Nil then m[Num(i + 1) := arr[i]] else m, arr, node, i + 1, |node|)
  {
    var k0 := Num(i + 1);
    assert SlotOK(m0, arr[i], i);
    assert k0 in m0 ==> Stored(arr, node, k0, m0[k0]) && !Done(arr, node, i, |node|, k0);
    var m1 := if arr[i] != Nil then m[k0 := arr[i]] else m;
    forall k | k in m0 ensures k in m1 <==> Done(arr, node, i + 1, |node|, k) {
      assert k in m <==> Done(arr, node, i, |node|, k);
    }
  }

  lemma MoveNode(m0: map<Key, Value>, m: map<Key, Value>, arr: seq<Value>, node: seq<Node>, i: nat, j: nat)
    requires Contains(arr, node, m0) && Distinct(node) && |arr| <= i && 0 < j <= |node|
    requires Moving(m0, m, arr, node, i, j)
    ensures var n := node[j - 1];
      && (n.val != Nil ==> n.key in m0 && m0[n.key] == n.val && IsKey(n.key) && n.key !in m)
      && Moving(m0, if n.val != Nil then m[n.key := n.val] else m, arr, node, i, j - 1)
  {
    var n := node[j - 1];
    assert NodeOK(|arr|, m0, n);
    var m1 := if n.val != Nil then m[n.key := n.val] else m;
    if n.val != Nil {
      assert !Done(arr, node, i, j, n.key);
    }
    forall k | k in m0 ensures k in m1 <==> Done(arr, node, i, j - 1, k) {
      assert k in m <==> Done(arr, node, i, j, k);
      assert Stored(arr, node, k, m0[k]);
      if !InArr(|arr|, k) && Done(arr, node, i, j - 1, k) {
        var q :| j - 1 <= q < |node| && node[q].key == k;
      }
    }
  }

  lemma AllMoved(m0: map<Key, Value>, m: map<Key, Value>, arr: seq<Value>, node: seq<Node>, i: nat)
    requires Contains(arr, node, m0) && |arr| <= i && Moving(m0, m, arr, node, i, 0)
    ensures m == m0
  {
    forall k | k in m0 ensures k in m {
      assert Stored(arr, node, k, m0[k]);
      assert Done(arr, node, i, 0, k);
    }
  }

  lemma MoreToMove(m0: map<Key, Value>, m: map<Key, Value>, k: Key, size: nat)
    requires k in m0 && k !in m && !InArr(size, k) && forall q :: q in m ==> q in m0
    ensures |HashKeys(m, size)| < |HashKeys(m0, size)|
  {
    assert HashKeys(m, size) <= HashKeys(m0, size) - {k};
    CardMono(HashKeys(m, size), HashKeys(m0, size) - {k});
  }

  // ---------- overflow ----------

  /** The array part grows before the hash part turns out to be too large; nothing is lost if no
      key of the map is among the new slots. */
  lemma GrownContains(arr: seq<Value>, node: seq<Node>, m: map<Key, Value>, n: nat)
    requires Contains(arr, node, m) && |arr| <= n && forall k :: k in m && InArr(n, k) ==> InArr(|arr|, k)
    ensures Contains(Resized(arr, n), node, m)
  {
    var arr1 := Resized(arr, n);
    forall k | k in m ensures Stored(arr1, node, k, m[k]) {
      assert Stored(arr, node, k, m[k]);
    }
    forall i | 0 <= i < |arr1| ensures SlotOK(m, arr1[i], i) {
      if i < |arr| {
        assert SlotOK(m, arr[i], i);
      }
    }
    forall i | 0 <= i < |node| ensures NodeOK(n, m, node[i]) {
      assert NodeOK(|arr|, m, node[i]);
    }
  }

  /** If keys that were in the hash part move to the array part, the hash part that is left is
      not larger than the old one. */
  lemma OverflowMovesNothing(m: map<Key, Value>, size: nat, n: nat, room: nat)
    requires size <= n && |HashKeys(m, size)| <= room && room <= |HashKeys(m, n)|
    ensures forall k :: k in m && InArr(n, k) ==> InArr(size, k)
  {
    forall k | k in m && InArr(n, k) ensures InArr(size, k) {
      if !InArr(size, k) {
        assert HashKeys(m, n) <= HashKeys(m, size) - {k};
        CardMono(HashKeys(m, n), HashKeys(m, size) - {k});
      }
    }
  }
}
