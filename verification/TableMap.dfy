/** The array part and the hash part of a Lua table (ltable.c) as one finite map. */
module TableMap {
  import opened Basics
  import opened TableChains
  import opened TableSizes

  predicate InArr(size: nat, k: Key) { k.Num? && 1 <= k.i <= size }

  // The keys that the hash part has to hold when the array part has the given size.
  function HashKeys(m: map<Key, Value>, size: nat): set<Key> { set k | k in m && !InArr(size, k) }

  ghost predicate Stored(arr: seq<Value>, node: seq<Node>, k: Key, v: Value) {
    if InArr(|arr|, k) then arr[k.i - 1] == v
    else exists i :: 0 <= i < |node| && node[i].key == k && node[i].val == v
  }

  ghost predicate SlotOK(m: map<Key, Value>, v: Value, i: nat) {
    v != Nil ==> Num(i + 1) in m && m[Num(i + 1)] == v
  }

  ghost predicate NodeOK(size: nat, m: map<Key, Value>, n: Node) {
    n.val != Nil ==> IsKey(n.key) && !InArr(size, n.key) && n.key in m && m[n.key] == n.val
  }

  /** The table holds exactly the entries of m. */
  ghost predicate Contains(arr: seq<Value>, node: seq<Node>, m: map<Key, Value>) {
    && (forall k :: k in m ==> IsKey(k) && m[k] != Nil && Stored(arr, node, k, m[k]))
    && (forall i :: 0 <= i < |arr| ==> SlotOK(m, arr[i], i))
    && (forall i :: 0 <= i < |node| ==> NodeOK(|arr|, m, node[i]))
  }

  // ---------- inserting a key without a value ----------

  // Node by node: what the old node had is at some new node, unless it had no value.
  ghost predicate Rearranged(node: seq<Node>, node1: seq<Node>, k: Key) {
    && (forall i :: 0 <= i < |node| && node[i].val != Nil ==> Kept(node, node1, i))
    && (forall j :: 0 <= j < |node1| ==> Comes(node, node1, k, j))
  }

  ghost predicate Kept(node: seq<Node>, node1: seq<Node>, i: nat)
    requires i < |node|
  {
    exists j :: 0 <= j < |node1| && node1[j].key == node[i].key && node1[j].val == node[i].val
  }

  ghost predicate Comes(node: seq<Node>, node1: seq<Node>, k: Key, j: nat)
    requires j < |node1|
  {
    || (node1[j].key == k && node1[j].val == Nil)
    || exists i :: 0 <= i < |node| && node1[j].key == node[i].key && node1[j].val == node[i].val
  }

  lemma RearrangedContains(arr: seq<Value>, node: seq<Node>, node1: seq<Node>, m: map<Key, Value>, k: Key)
    requires Contains(arr, node, m) && Rearranged(node, node1, k) && IsKey(k) && !InArr(|arr|, k)
    ensures Contains(arr, node1, m)
  {
    forall q | q in m ensures Stored(arr, node1, q, m[q]) {
      assert Stored(arr, node, q, m[q]);
      if !InArr(|arr|, q) {
        var i :| 0 <= i < |node| && node[i].key == q && node[i].val == m[q];
        assert Kept(node, node1, i);
      }
    }
    forall j | 0 <= j < |node1| ensures NodeOK(|arr|, m, node1[j]) {
      assert Comes(node, node1, k, j);
      if !(node1[j].key == k && node1[j].val == Nil) {
        var i :| 0 <= i < |node| && node1[j].key == node[i].key && node1[j].val == node[i].val;
        assert NodeOK(|arr|, m, node[i]);
      }
    }
  }

  lemma HomeRearranged(node: seq<Node>, mp: nat, k: Key)
    requires mp < |node| && node[mp].val == Nil
    ensures Rearranged(node, PutHome(node, mp, k), k)
  {
    var node1 := PutHome(node, mp, k);
    forall i | 0 <= i < |node| && node[i].val != Nil ensures Kept(node, node1, i) {
      assert node1[i] == node[i];
    }
    forall j | 0 <= j < |node1| ensures Comes(node, node1, k, j) {
      assert j != mp ==> node1[j] == node[j];
    }
  }

  lemma BehindRearranged(node: seq<Node>, mp: nat, n: nat, k: Key)
    requires mp < |node| && n < |node| && node[n] == EMPTY && mp != n
    ensures Rearranged(node, PutBehind(node, mp, n, k), k)
  {
    var node1 := PutBehind(node, mp, n, k);
    assert forall i :: 0 <= i < |node| && i != n ==> node1[i].key == node[i].key && node1[i].val == node[i].val;
    forall i | 0 <= i < |node| && node[i].val != Nil ensures Kept(node, node1, i) {
      assert node1[i].val == node[i].val;
    }
    forall j | 0 <= j < |node1| ensures Comes(node, node1, k, j) {
      assert j != n ==> node1[j].val == node[j].val;
    }
  }

  lemma MovedRearranged(node: seq<Node>, mp: nat, pred: nat, n: nat, k: Key)
    requires mp < |node| && n < |node| && pred < |node| && node[n] == EMPTY && mp != n && pred != n && pred != mp
    ensures Rearranged(node, PutMoved(node, mp, pred, n, k), k)
  {
    var node1 := PutMoved(node, mp, pred, n, k);
    assert forall i :: 0 <= i < |node| && i != n && i != mp ==>
        node1[i].key == node[i].key && node1[i].val == node[i].val;
    assert node1[n].key == node[mp].key && node1[n].val == node[mp].val;
    forall i | 0 <= i < |node| && node[i].val != Nil ensures Kept(node, node1, i) {
      assert i != mp ==> node1[i].val == node[i].val;
    }
    forall j | 0 <= j < |node1| ensures Comes(node, node1, k, j) {
      assert j != n && j != mp ==> node1[j].val == node[j].val;
    }
  }

  predicate Absent(node: seq<Node>, k: Key) { forall i :: 0 <= i < |node| ==> node[i].key != k }

  lemma HomeDistinct(node: seq<Node>, mp: nat, k: Key)
    requires Distinct(node) && mp < |node| && Absent(node, k)
    ensures Distinct(PutHome(node, mp, k))
  {
  }

  lemma BehindDistinct(node: seq<Node>, mp: nat, n: nat, k: Key)
    requires Distinct(node) && mp < |node| && n < |node| && mp != n && Absent(node, k)
    ensures Distinct(PutBehind(node, mp, n, k))
  {
    var node1 := PutBehind(node, mp, n, k);
    assert forall i :: 0 <= i < |node| ==> node1[i].key == if i == n then k else node[i].key;
  }

  lemma MovedDistinct(node: seq<Node>, mp: nat, pred: nat, n: nat, k: Key)
    requires Distinct(node) && mp < |node| && n < |node| && pred < |node| && Absent(node, k)
    requires node[n].key == NilKey && mp != n && pred != n && pred != mp
    ensures Distinct(PutMoved(node, mp, pred, n, k))
  {
    var node1 := PutMoved(node, mp, pred, n, k);
    assert forall i :: 0 <= i < |node| ==>
        node1[i].key == if i == n then node[mp].key else if i == mp then k else node[i].key;
  }

  // ---------- storing a value ----------

  function Updated(m: map<Key, Value>, k: Key, v: Value): map<Key, Value> {
    if v == Nil then m - {k} else m[k := v]
  }

  lemma StoreArr(arr: seq<Value>, node: seq<Node>, m: map<Key, Value>, k: Key, v: Value)
    requires Contains(arr, node, m) && InArr(|arr|, k)
    ensures Contains(arr[k.i - 1 := v], node, Updated(m, k, v))
  {
    var arr1, m1 := arr[k.i - 1 := v], Updated(m, k, v);
    forall q | q in m1 ensures IsKey(q) && m1[q] != Nil && Stored(arr1, node, q, m1[q]) {
      assert q != k ==> q in m && Stored(arr, node, q, m[q]);
    }
    forall i | 0 <= i < |arr1| ensures SlotOK(m1, arr1[i], i) {
      assert SlotOK(m, arr[i], i);
    }
    forall i | 0 <= i < |node| ensures NodeOK(|arr1|, m1, node[i]) {
      assert NodeOK(|arr|, m, node[i]);
    }
  }

  lemma StoreNode(arr: seq<Value>, node: seq<Node>, m: map<Key, Value>, k: Key, j: nat, v: Value)
    requires Contains(arr, node, m) && Distinct(node) && IsKey(k) && !InArr(|arr|, k) && j < |node| && node[j].key == k
    ensures Contains(arr, node[j := node[j].(val := v)], Updated(m, k, v))
  {
    var node1, m1 := node[j := node[j].(val := v)], Updated(m, k, v);
    assert NodeOK(|arr|, m, node[j]);
    forall q | q in m1 ensures IsKey(q) && m1[q] != Nil && Stored(arr, node1, q, m1[q]) {
      if q == k {
        assert node1[j].key == k && node1[j].val == v;
      } else {
        assert q in m && Stored(arr, node, q, m[q]);
        if !InArr(|arr|, q) {
          var i :| 0 <= i < |node| && node[i].key == q && node[i].val == m[q];
          assert node1[i] == node[i];
        }
      }
    }
    forall i | 0 <= i < |arr| ensures SlotOK(m1, arr[i], i) {
      assert SlotOK(m, arr[i], i);
    }
    forall i | 0 <= i < |node1| ensures NodeOK(|arr|, m1, node1[i]) {
      assert NodeOK(|arr|, m, node[i]);
    }
  }

  lemma StoreDistinct(node: seq<Node>, j: nat, n: Node)
    requires Distinct(node) && j < |node| && n.key == node[j].key
    ensures Distinct(node[j := n])
  {
    var node1 := node[j := n];
    assert forall i :: 0 <= i < |node| ==> node1[i].key == node[i].key;
  }

  // Values play no part in the chains.
  lemma StoreChained(hash: Hash, node: seq<Node>, order: seq<nat>, j: nat, v: Value)
    requires Chained(hash, node, order) && j < |node| && node[j].key != NilKey
    ensures Chained(hash, node[j := node[j].(val := v)], order)
  {
    SameLinksChained(hash, node, node[j := node[j].(val := v)], order);
  }

  // Keys keep their main positions and nodes their links.
  ghost predicate SameLinks(hash: Hash, node: seq<Node>, node1: seq<Node>) {
    && |node1| == |node| && 0 < |node|
    && forall i :: 0 <= i < |node| ==> SameLink(hash, node, node1, i)
  }

  ghost predicate SameLink(hash: Hash, node: seq<Node>, node1: seq<Node>, i: nat)
    requires i < |node| && |node1| == |node|
  {
    && node1[i].next == node[i].next && (node[i].key == NilKey ==> node1[i] == node[i])
    && (node[i].key != NilKey ==>
        && node1[i].key != NilKey
        && Main(hash, node1[i].key, |node|) == Main(hash, node[i].key, |node|))
  }

  lemma SameLinksChained(hash: Hash, node: seq<Node>, node1: seq<Node>, order: seq<nat>)
    requires Chained(hash, node, order) && SameLinks(hash, node, node1)
    ensures Chained(hash, node1, order)
  {
    hide Main, NoDup;
    forall p | 0 <= p < |order| ensures order[p] < |node1| && node1[order[p]].key != NilKey && LinkOK(node1, order, p) {
      assert SameLink(hash, node, node1, order[p]) && LinkOK(node, order, p);
    }
    forall i | 0 <= i < |node1| ensures Covered(node1, order, i) && HomeTaken(hash, node1, i) {
      assert SameLink(hash, node, node1, i) && Covered(node, order, i) && HomeTaken(hash, node, i);
      assert SameLink(hash, node, node1, Main(hash, node[i].key, |node|));
    }
    forall q | 0 <= q < |order| ensures Reached(hash, node1, order, q) {
      assert SameLink(hash, node, node1, order[q]);
      SameReached(hash, node, node1, order, q);
    }
  }

  lemma SameReached(hash: Hash, node: seq<Node>, node1: seq<Node>, order: seq<nat>, q: nat)
    requires SameLinks(hash, node, node1) && q < |order| && order[q] < |node| && node[order[q]].key != NilKey
    requires Reached(hash, node, order, q)
    ensures Reached(hash, node1, order, q)
  {
    hide Main;
    var p :| 0 <= p <= q && order[p] == Main(hash, node[order[q]].key, |node|) && Linked(node, order, p, q);
    assert SameLink(hash, node, node1, order[q]);
    forall k | p <= k < q ensures LinkTo(node1, order, k) {
      assert LinkTo(node, order, k) && SameLink(hash, node, node1, order[k]);
    }
    assert Linked(node1, order, p, q);
  }

  // ---------- counting ----------

  ghost function KeysOf(node: seq<Node>, order: seq<nat>, n: nat): set<Key>
    requires n <= |order| && forall p :: 0 <= p < |order| ==> order[p] < |node|
  {
    set p | 0 <= p < n :: node[order[p]].key
  }

  lemma {:induction false} KeysCount(node: seq<Node>, order: seq<nat>, n: nat)
    requires n <= |order| && Ordered(node, order) && Distinct(node)
    requires forall p :: 0 <= p < |order| ==> order[p] < |node| && IsKey(node[order[p]].key)
    ensures |KeysOf(node, order, n)| == n
  {
    if n == 0 {
      assert KeysOf(node, order, 0) == {};
    } else {
      KeysCount(node, order, n - 1);
      var k := node[order[n - 1]].key;
      assert k !in KeysOf(node, order, n - 1);
      assert KeysOf(node, order, n) == KeysOf(node, order, n - 1) + {k};
    }
  }

  // Every node with a key has a value.
  ghost predicate AllLive(node: seq<Node>) {
    forall i :: 0 <= i < |node| ==> (node[i].key != NilKey <==> node[i].val != Nil)
  }

  lemma OrderCount(arr: seq<Value>, node: seq<Node>, order: seq<nat>, m: map<Key, Value>)
    requires Contains(arr, node, m) && Ordered(node, order) && Distinct(node) && AllLive(node)
    ensures |order| == |HashKeys(m, |arr|)|
  {
    forall p | 0 <= p < |order| ensures order[p] < |node| && IsKey(node[order[p]].key) {
      assert NodeOK(|arr|, m, node[order[p]]);
    }
    KeysCount(node, order, |order|);
    forall k ensures k in KeysOf(node, order, |order|) <==> k in HashKeys(m, |arr|) {
      if k in KeysOf(node, order, |order|) {
        var p :| 0 <= p < |order| && node[order[p]].key == k;
        assert NodeOK(|arr|, m, node[order[p]]);
      }
      if k in HashKeys(m, |arr|) {
        assert Stored(arr, node, k, m[k]);
        var i :| 0 <= i < |node| && node[i].key == k && node[i].val == m[k];
        assert Covered(node, order, i);
        var p :| 0 <= p < |order| && order[p] == i;
      }
    }
    assert KeysOf(node, order, |order|) == HashKeys(m, |arr|);
  }

  // A full hash part: each node has a key.
  lemma FullOrder(node: seq<Node>, order: seq<nat>)
    requires Ordered(node, order) && forall i :: 0 <= i < |node| ==> node[i].key != NilKey
    ensures |order| >= |node|
  {
    forall i | 0 <= i < |node| ensures i in order {
      assert Covered(node, order, i);
    }
    AllIn(order, |node|);
  }

  lemma {:induction false} AllIn(s: seq<nat>, n: nat)
    requires forall i :: 0 <= i < n ==> i in s
    ensures |s| >= n
    decreases n
  {
    if n > 0 {
      assert n - 1 in s;
      var p :| 0 <= p < |s| && s[p] == n - 1;
      var t := s[..p] + s[p + 1..];
      assert s == s[..p] + [s[p]] + s[p + 1..];
      forall i | 0 <= i < n - 1 ensures i in t {
        assert i in s;
      }
      AllIn(t, n - 1);
    }
  }

  lemma EmptyHash(hash: Hash, n: nat)
    requires 0 < n
    ensures Chained(hash, seq(n, _ => EMPTY), [])
    ensures Distinct(seq(n, _ => EMPTY)) && AllLive(seq(n, _ => EMPTY))
  {
  }
}
