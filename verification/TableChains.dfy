/** The hash part of a Lua table (ltable.c): a chained scatter table with Brent's variation.
    Its chains, as an order in which every link leads to the next node, and what the three
    ways of inserting a key do to them. */
module TableChains {
  import opened Basics

  datatype Value = Nil | Val(id: int)

  // Numbers with an integer value, other values that are no objects, and objects. `pow2' says
  // how the key is hashed. A dead key remembers an object that was collected.
  datatype Key =
    | NilKey
    | NanKey
    | Num(i: int)
    | Atom(id: nat, pow2: bool)
    | Ref(id: nat, pow2: bool)
    | Dead(id: nat, pow2: bool)

  // A key that can be looked up and stored under.
  predicate IsKey(k: Key) { k.Num? || k.Atom? || k.Ref? }

  datatype Node = Node(key: Key, val: Value, next: int)

  const NULL: int := -1
  const EMPTY := Node(NilKey, Nil, NULL)

  // What the hash functions compute of a key before the size of the table is known.
  type Hash = Key -> nat

  // h % n, defined by subtraction to keep the arithmetic linear.
  function Remainder(h: nat, n: nat): (r: nat)
    requires 0 < n
    ensures r < n
  {
    if h < n then h else Remainder(h - n, n)
  }

  lemma {:induction false} RemainderIsModulo(h: nat, n: nat)
    requires 0 < n
    ensures Remainder(h, n) == h % n
  {
    if h >= n {
      RemainderIsModulo(h - n, n);
      assert h % n == (h - n) % n by {
        assert h == (h - n) / n * n + (h - n) % n + n;
        assert h == ((h - n) / n + 1) * n + (h - n) % n;
        QuotientUnique(h, n, (h - n) / n + 1, (h - n) % n);
      }
    }
  }

  lemma QuotientUnique(h: int, n: int, q: int, r: int)
    requires 0 < n && 0 <= r < n && h == q * n + r
    ensures h % n == r
  {
    var d := h / n - q;
    assert h == (h / n) * n + h % n;
    assert d * n == r - h % n;
    MultipleFar(d, n);
  }

  lemma MultipleFar(d: int, n: int)
    requires 0 < n
    ensures d > 0 ==> d * n >= n
    ensures d < 0 ==> d * n <= -n
  {
  }

  /** mainposition: strings and booleans take their hash modulo the size, which is a power of
      two, other keys modulo an odd number; a dead key stays where its object belonged. */
  function Main(hash: Hash, k: Key, size: nat): (p: nat)
    requires 0 < size
    ensures p < size
  {
    var odd := if size == 1 then 1 else size - 1;  // (size - 1) | 1
    match k
    case Num(i) => if i == 0 then 0 else Remainder(hash(k), odd)
    case Atom(_, pow2) => if pow2 then Remainder(hash(k), size) else Remainder(hash(k), odd)
    case Ref(_, pow2) => if pow2 then Remainder(hash(k), size) else Remainder(hash(k), odd)
    case Dead(id, pow2) => if pow2 then Remainder(hash(Ref(id, pow2)), size) else Remainder(hash(Ref(id, pow2)), odd)
    case _ => 0
  }

  // ---------- chains ----------

  // Following the links from the p-th node in the order leads to the q-th.
  ghost predicate Linked(node: seq<Node>, order: seq<nat>, p: nat, q: nat) {
    && p <= q < |order|
    && forall k :: p <= k < q ==> LinkTo(node, order, k)
  }

  // The k-th node in the order links to the one after it.
  predicate LinkTo(node: seq<Node>, order: seq<nat>, k: nat) {
    k + 1 < |order| && order[k] < |node| && node[order[k]].next == order[k + 1]
  }

  predicate LinkOK(node: seq<Node>, order: seq<nat>, k: nat)
    requires k < |order|
  {
    order[k] < |node| && (node[order[k]].next == NULL || LinkTo(node, order, k))
  }

  // The order holds exactly the nodes with keys; a link leads to the next node in it.
  ghost predicate Ordered(node: seq<Node>, order: seq<nat>) {
    && NoDup(order)
    && (forall p :: 0 <= p < |order| ==> order[p] < |node| && node[order[p]].key != NilKey)
    && (forall i :: 0 <= i < |node| ==> Covered(node, order, i))
    && (forall p :: 0 <= p < |order| ==> LinkOK(node, order, p))
  }

  predicate Covered(node: seq<Node>, order: seq<nat>, i: nat)
    requires i < |node|
  {
    if node[i].key == NilKey then node[i] == EMPTY else i in order
  }

  // The q-th node can be reached from the main position of its key.
  ghost predicate Reached(hash: Hash, node: seq<Node>, order: seq<nat>, q: nat)
    requires 0 < |node| && q < |order| && order[q] < |node|
  {
    exists p :: 0 <= p <= q && order[p] == Main(hash, node[order[q]].key, |node|) && Linked(node, order, p, q)
  }

  /** Every key is reached from its main position; a node whose key is out of its main position
      is the main position of no key. */
  ghost predicate Chained(hash: Hash, node: seq<Node>, order: seq<nat>) {
    && 0 < |node| && Ordered(node, order)
    && (forall q :: 0 <= q < |order| ==> Reached(hash, node, order, q))
    && (forall i :: 0 <= i < |node| ==> HomeTaken(hash, node, i))
  }

  // The main position of the key of node i holds a key that is at home.
  predicate HomeTaken(hash: Hash, node: seq<Node>, i: nat)
    requires i < |node|
  {
    var h := Main(hash, node[i].key, |node|);
    node[i].key != NilKey ==> node[h].key != NilKey && Main(hash, node[h].key, |node|) == h
  }

  // No key is stored twice.
  ghost predicate Distinct(node: seq<Node>) {
    forall i, j :: 0 <= i < j < |node| && IsKey(node[i].key) ==> node[i].key != node[j].key
  }

  // ---------- inserting ----------

  // The key goes to its main position, whose node has no value.
  function PutHome(node: seq<Node>, mp: nat, k: Key): seq<Node>
    requires mp < |node|
  {
    node[mp := node[mp].(key := k)]
  }

  ghost function HomeOrder(node: seq<Node>, order: seq<nat>, mp: nat): seq<nat>
    requires mp < |node|
  {
    if node[mp].key == NilKey then order + [mp] else order
  }

  lemma HomeOrdered(node: seq<Node>, order: seq<nat>, mp: nat, k: Key)
    requires Ordered(node, order) && IsKey(k) && mp < |node|
    ensures Ordered(PutHome(node, mp, k), HomeOrder(node, order, mp))
  {
    var node1, order1 := PutHome(node, mp, k), HomeOrder(node, order, mp);
    if node[mp].key == NilKey {
      assert forall p :: 0 <= p < |order| ==> order1[p] == order[p] && order[p] != mp;
      assert order1[|order|] == mp;
      assert forall i :: i in order ==> i in order1;
    }
    forall p | 0 <= p < |order1| ensures LinkOK(node1, order1, p) {
      if p < |order| {
        assert LinkOK(node, order, p);
      } else {
        assert Covered(node, order, mp);
      }
    }
    forall i | 0 <= i < |node1| ensures Covered(node1, order1, i) {
      assert Covered(node, order, i);
    }
  }

  lemma HomeLinked(node: seq<Node>, order: seq<nat>, mp: nat, k: Key, p: nat, q: nat)
    requires Ordered(node, order) && mp < |node| && Linked(node, order, p, q)
    ensures Linked(PutHome(node, mp, k), HomeOrder(node, order, mp), p, q)
  {
    var node1, order1 := PutHome(node, mp, k), HomeOrder(node, order, mp);
    forall j | p <= j < q ensures LinkTo(node1, order1, j) {
      assert LinkTo(node, order, j);
    }
  }

  lemma PutHomeChained(hash: Hash, node: seq<Node>, order: seq<nat>, mp: nat, k: Key)
    requires Chained(hash, node, order) && IsKey(k) && mp == Main(hash, k, |node|)
    ensures Chained(hash, PutHome(node, mp, k), HomeOrder(node, order, mp))
  {
    var node1, order1 := PutHome(node, mp, k), HomeOrder(node, order, mp);
    hide Main, Ordered, Linked, NoDup, HomeTaken;
    HomeOrdered(node, order, mp, k);
    HomeMembers(node, order, mp, k);
    hide Reached;
    forall q | 0 <= q < |order1| ensures Reached(hash, node1, order1, q) {
      if order1[q] == mp {
        SelfReached(hash, node1, order1, q);
      } else {
        HomeReached(hash, node, order, mp, k, q);
      }
    }
    HomeHomes(hash, node, mp, k);
  }

  lemma HomeHomes(hash: Hash, node: seq<Node>, mp: nat, k: Key)
    requires 0 < |node| && mp == Main(hash, k, |node|) && IsKey(k) && forall i :: 0 <= i < |node| ==>
              HomeTaken(hash, node, i)
    ensures forall i :: 0 <= i < |node| ==> HomeTaken(hash, PutHome(node, mp, k), i)
  {
    hide Main;
    var node1 := PutHome(node, mp, k);
    forall i | 0 <= i < |node1| ensures HomeTaken(hash, node1, i) {
      assert HomeTaken(hash, node, i);
    }
  }

  lemma SelfReached(hash: Hash, node: seq<Node>, order: seq<nat>, q: nat)
    requires q < |order| && order[q] < |node| && Main(hash, node[order[q]].key, |node|) == order[q]
    ensures Reached(hash, node, order, q)
  {
    assert Linked(node, order, q, q);
  }

  lemma HomeReached(hash: Hash, node: seq<Node>, order: seq<nat>, mp: nat, k: Key, q: nat)
    requires Ordered(node, order) && mp < |node| && q < |order| && order[q] < |node| && order[q] != mp
    requires Reached(hash, node, order, q)
    ensures var order1 := HomeOrder(node, order, mp);
            q < |order1| && order1[q] < |node| && Reached(hash, PutHome(node, mp, k), order1, q)
  {
    hide Main, Ordered, Linked;
    HomeMembers(node, order, mp, k);
    var p :| 0 <= p <= q && order[p] == Main(hash, node[order[q]].key, |node|) && Linked(node, order, p, q);
    HomeLinked(node, order, mp, k, p, q);
  }

  lemma HomeMembers(node: seq<Node>, order: seq<nat>, mp: nat, k: Key)
    requires Ordered(node, order) && mp < |node|
    ensures var order1 := HomeOrder(node, order, mp);
      && (forall q :: 0 <= q < |order| ==> order[q] < |node| && order1[q] == order[q])
      && (forall q :: 0 <= q < |order1| ==> order1[q] < |node| && (q >= |order| ==> order1[q] == mp))
  {
  }

  // The colliding node is at home: the new key goes to node n, behind it.
  function PutBehind(node: seq<Node>, mp: nat, n: nat, k: Key): seq<Node>
    requires mp < |node| && n < |node|
  {
    node[n := Node(k, Nil, node[mp].next)][mp := node[mp].(next := n)]
  }

  ghost function BehindOrder(order: seq<nat>, p: nat, n: nat): seq<nat>
    requires p < |order|
  {
    order[..p + 1] + [n] + order[p + 1..]
  }

  lemma BehindOrdered(node: seq<Node>, order: seq<nat>, mp: nat, p: nat, n: nat, k: Key)
    requires Ordered(node, order) && IsKey(k) && p < |order| && order[p] == mp
    requires n < |node| && node[n].key == NilKey
    ensures mp < |node| && Ordered(PutBehind(node, mp, n, k), BehindOrder(order, p, n))
  {
    var node1, order1 := PutBehind(node, mp, n, k), BehindOrder(order, p, n);
    BehindMembers(node, order, mp, p, n, k);
    forall i | 0 <= i < |node1| ensures Covered(node1, order1, i) {
      BehindCovered(node, order, mp, p, n, k, i);
    }
    BehindLinksOK(node, order, mp, p, n, k);
    hide BehindOrder, LinkOK, Covered;
  }

  lemma BehindCovered(node: seq<Node>, order: seq<nat>, mp: nat, p: nat, n: nat, k: Key, i: nat)
    requires Ordered(node, order) && IsKey(k) && p < |order| && order[p] == mp && i < |node|
    requires n < |node| && node[n].key == NilKey
    ensures mp < |node| && Covered(PutBehind(node, mp, n, k), BehindOrder(order, p, n), i)
  {
    var order1 := BehindOrder(order, p, n);
    assert Covered(node, order, i);
    if i == n {
      assert order1[p + 1] == n;
    } else if node[i].key != NilKey {
      var j :| 0 <= j < |order| && order[j] == i;
      assert order1[if j <= p then j else j + 1] == i;
    }
  }

  lemma BehindLinksOK(node: seq<Node>, order: seq<nat>, mp: nat, p: nat, n: nat, k: Key)
    requires Ordered(node, order) && p < |order| && order[p] == mp
    requires n < |node| && node[n].key == NilKey
    ensures mp < |node| && forall j :: 0 <= j < |order| + 1 ==>
              LinkOK(PutBehind(node, mp, n, k), BehindOrder(order, p, n), j)
  {
    var node1, order1 := PutBehind(node, mp, n, k), BehindOrder(order, p, n);
    assert forall j :: 0 <= j < |order1| ==>
        order1[j] == if j <= p then order[j] else if j == p + 1 then n else order[j - 1];
    assert n !in order;
    forall j | 0 <= j < |order1| ensures LinkOK(node1, order1, j) {
      if j <= p {
        assert LinkOK(node, order, j);
      } else {
        assert LinkOK(node, order, j - 1);
      }
    }
  }

  lemma PutBehindChained(hash: Hash, node: seq<Node>, order: seq<nat>, mp: nat, p: nat, n: nat, k: Key)
    requires Chained(hash, node, order) && IsKey(k) && mp == Main(hash, k, |node|)
    requires p < |order| && order[p] == mp && Main(hash, node[mp].key, |node|) == mp
    requires n < |node| && node[n].key == NilKey
    ensures Chained(hash, PutBehind(node, mp, n, k), BehindOrder(order, p, n))
  {
    var node1, order1 := PutBehind(node, mp, n, k), BehindOrder(order, p, n);
    hide Main, Ordered, Linked, NoDup, HomeTaken;
    BehindOrdered(node, order, mp, p, n, k);
    BehindMembers(node, order, mp, p, n, k);
    hide Reached;
    forall q | 0 <= q < |order1| ensures Reached(hash, node1, order1, q) {
      if q == p + 1 {
        BehindNew(hash, node, order, mp, p, n, k);
      } else {
        BehindReached(hash, node, order, mp, p, n, k, if q <= p then q else q - 1);
      }
    }
    BehindHomes(hash, node, mp, n, k);
  }

  lemma BehindNew(hash: Hash, node: seq<Node>, order: seq<nat>, mp: nat, p: nat, n: nat, k: Key)
    requires Ordered(node, order) && p < |order| && order[p] == mp && n < |node| && node[n].key == NilKey
    requires mp == Main(hash, k, |node|)
    ensures Reached(hash, PutBehind(node, mp, n, k), BehindOrder(order, p, n), p + 1)
  {
    hide Main, Ordered, Linked;
    var order1 := BehindOrder(order, p, n);
    BehindMembers(node, order, mp, p, n, k);
    BehindSelf(node, order, mp, p, n, k);
    assert order1[p] == mp && order1[p + 1] == n;
  }

  lemma BehindReached(hash: Hash, node: seq<Node>, order: seq<nat>, mp: nat, p: nat, n: nat, k: Key, q: nat)
    requires Ordered(node, order) && p < |order| && order[p] == mp && n < |node| && node[n].key == NilKey
    requires q < |order| && order[q] < |node| && Reached(hash, node, order, q)
    ensures var q1 := if q <= p then q else q + 1;
            var order1 := BehindOrder(order, p, n);
            mp < |node| && order1[q1] == order[q] && Reached(hash, PutBehind(node, mp, n, k), order1, q1)
  {
    hide Main, Ordered, Linked;
    BehindMembers(node, order, mp, p, n, k);
    var a :| 0 <= a <= q && order[a] == Main(hash, node[order[q]].key, |node|) && Linked(node, order, a, q);
    BehindLinked(node, order, mp, p, n, k, a, q);
    assert BehindOrder(order, p, n)[if a <= p then a else a + 1] == order[a];
    assert BehindOrder(order, p, n)[if q <= p then q else q + 1] == order[q];
  }

  lemma BehindHomes(hash: Hash, node: seq<Node>, mp: nat, n: nat, k: Key)
    requires 0 < |node| && mp == Main(hash, k, |node|) && n < |node| && node[n].key == NilKey && IsKey(k)
    requires node[mp].key != NilKey && Main(hash, node[mp].key, |node|) == mp
    requires forall i :: 0 <= i < |node| ==> HomeTaken(hash, node, i)
    ensures forall i :: 0 <= i < |node| ==> HomeTaken(hash, PutBehind(node, mp, n, k), i)
  {
    hide Main;
    var node1 := PutBehind(node, mp, n, k);
    forall i | 0 <= i < |node1| ensures HomeTaken(hash, node1, i) {
      assert HomeTaken(hash, node, if i == n then mp else i);
    }
  }

  lemma BehindMembers(node: seq<Node>, order: seq<nat>, mp: nat, p: nat, n: nat, k: Key)
    requires Ordered(node, order) && p < |order| && order[p] == mp && n < |node| && node[n].key == NilKey
    ensures mp < |node| && node[mp].key != NilKey && mp != n
    ensures var order1 := BehindOrder(order, p, n);
      && (forall j :: 0 <= j < |order1| ==> order1[j] < |node|)
      && (forall j {:trigger order1[j]} :: 0 <= j < |order1| ==>
            order1[j] == if j <= p then order[j] else if j == p + 1 then n else order[j - 1])
      && (forall j :: 0 <= j < |order| ==> order[j] < |node| && order[j] != n)
  {
  }

  lemma BehindSelf(node: seq<Node>, order: seq<nat>, mp: nat, p: nat, n: nat, k: Key)
    requires Ordered(node, order) && p < |order| && order[p] == mp && n < |node| && node[n].key == NilKey
    ensures mp < |node| && Linked(PutBehind(node, mp, n, k), BehindOrder(order, p, n), p, p + 1)
  {
    assert LinkTo(PutBehind(node, mp, n, k), BehindOrder(order, p, n), p);
  }

  lemma BehindLinked(node: seq<Node>, order: seq<nat>, mp: nat, p: nat, n: nat, k: Key, a: nat, q: nat)
    requires Ordered(node, order) && p < |order| && order[p] == mp && n < |node| && node[n].key == NilKey
    requires Linked(node, order, a, q)
    ensures mp < |node| && Linked(PutBehind(node, mp, n, k), BehindOrder(order, p, n),
                                  if a <= p then a else a + 1, if q <= p then q else q + 1)
  {
    var node1, order1 := PutBehind(node, mp, n, k), BehindOrder(order, p, n);
    var a1, q1 := if a <= p then a else a + 1, if q <= p then q else q + 1;
    assert forall j :: 0 <= j < |order1| ==>
        order1[j] == if j <= p then order[j] else if j == p + 1 then n else order[j - 1];
    assert n !in order;
    forall j | a1 <= j < q1 ensures LinkTo(node1, order1, j) {
      if j == p + 1 {
        assert LinkTo(node, order, p);
      } else if j != p {
        assert LinkTo(node, order, if j < p then j else j - 1);
      }
    }
  }

  // The colliding node is out of its main position: it moves to node n, and the new key takes
  // its place. `pred' is the node before it.
  function PutMoved(node: seq<Node>, mp: nat, pred: nat, n: nat, k: Key): seq<Node>
    requires mp < |node| && n < |node| && pred < |node|
  {
    node[pred := node[pred].(next := n)][n := node[mp]][mp := Node(k, Nil, NULL)]
  }

  ghost function MovedOrder(order: seq<nat>, p: nat, n: nat): seq<nat>
    requires p < |order|
  {
    order[p := n] + [order[p]]
  }

  lemma MovedOrdered(node: seq<Node>, order: seq<nat>, mp: nat, p: nat, n: nat, k: Key)
    requires Ordered(node, order) && IsKey(k) && 0 < p < |order| && order[p] == mp
    requires n < |node| && node[n].key == NilKey && order[p - 1] < |node| && node[order[p - 1]].next == mp
    ensures mp < |node| && Ordered(PutMoved(node, mp, order[p - 1], n, k), MovedOrder(order, p, n))
  {
    var pred := order[p - 1];
    var node1, order1 := PutMoved(node, mp, pred, n, k), MovedOrder(order, p, n);
    assert n !in order;
    assert forall j :: 0 <= j < |order1| ==> order1[j] == if j == p then n else if j == |order| then mp else order[j];
    forall i | 0 <= i < |node1| ensures Covered(node1, order1, i) {
      assert Covered(node, order, i);
      if i == n {
        assert order1[p] == n;
      } else if i == mp {
        assert order1[|order|] == mp;
      } else if node[i].key != NilKey {
        var j :| 0 <= j < |order| && order[j] == i;
        assert order1[j] == i;
      }
    }
    forall j | 0 <= j < |order1| ensures LinkOK(node1, order1, j) {
      assert j < |order| ==> LinkOK(node, order, j);
    }
  }

  lemma MovedLinked(node: seq<Node>, order: seq<nat>, mp: nat, p: nat, n: nat, k: Key, a: nat, q: nat)
    requires Ordered(node, order) && 0 < p < |order| && order[p] == mp
    requires n < |node| && node[n].key == NilKey && order[p - 1] < |node| && node[order[p - 1]].next == mp
    requires Linked(node, order, a, q) && a != p
    ensures mp < |node| && Linked(PutMoved(node, mp, order[p - 1], n, k), MovedOrder(order, p, n), a, q)
  {
    var node1, order1 := PutMoved(node, mp, order[p - 1], n, k), MovedOrder(order, p, n);
    assert n !in order;
    assert forall j :: 0 <= j < |order1| ==> order1[j] == if j == p then n else if j == |order| then mp else order[j];
    forall j | a <= j < q ensures LinkTo(node1, order1, j) {
      assert LinkTo(node, order, j);
    }
  }

  lemma PutMovedChained(hash: Hash, node: seq<Node>, order: seq<nat>, mp: nat, p: nat, n: nat, k: Key)
    requires Chained(hash, node, order) && IsKey(k) && mp == Main(hash, k, |node|)
    requires 0 < p < |order| && order[p] == mp && Main(hash, node[mp].key, |node|) != mp
    requires n < |node| && node[n].key == NilKey && order[p - 1] < |node| && node[order[p - 1]].next == mp
    ensures Chained(hash, PutMoved(node, mp, order[p - 1], n, k), MovedOrder(order, p, n))
  {
    var node1, order1 := PutMoved(node, mp, order[p - 1], n, k), MovedOrder(order, p, n);
    hide Main, Ordered, Linked, NoDup, HomeTaken;
    MovedOrdered(node, order, mp, p, n, k);
    MovedMembers(node, order, mp, p, n);
    hide Reached;
    forall q | 0 <= q < |order1| ensures Reached(hash, node1, order1, q) {
      if q == |order| {
        SelfReached(hash, node1, order1, q);
      } else {
        HomeIsHome(hash, node, order[q]);
        MovedReached(hash, node, order, mp, p, n, k, q);
      }
    }
    MovedHomes(hash, node, mp, order[p - 1], n, k);
  }

  lemma MovedReached(hash: Hash, node: seq<Node>, order: seq<nat>, mp: nat, p: nat, n: nat, k: Key, q: nat)
    requires Ordered(node, order) && 0 < p < |order| && order[p] == mp && n < |node| && node[n].key == NilKey
    requires order[p - 1] < |node| && node[order[p - 1]].next == mp
    requires q < |order| && order[q] < |node| && Reached(hash, node, order, q)
    requires Main(hash, node[order[q]].key, |node|) != mp
    ensures var order1 := MovedOrder(order, p, n);
            mp < |node| && order1[q] < |node| && Reached(hash, PutMoved(node, mp, order[p - 1], n, k), order1, q)
  {
    hide Main, Ordered, Linked;
    MovedMembers(node, order, mp, p, n);
    var order1 := MovedOrder(order, p, n);
    var a :| 0 <= a <= q && order[a] == Main(hash, node[order[q]].key, |node|) && Linked(node, order, a, q);
    MovedLinked(node, order, mp, p, n, k, a, q);
    assert order1[a] == order[a];
    assert PutMoved(node, mp, order[p - 1], n, k)[order1[q]].key == node[order[q]].key;
  }

  lemma MovedHomes(hash: Hash, node: seq<Node>, mp: nat, pred: nat, n: nat, k: Key)
    requires 0 < |node| && mp == Main(hash, k, |node|) && n < |node| && pred < |node| && IsKey(k)
    requires node[n].key == NilKey && node[mp].key != NilKey && node[pred].key != NilKey
    requires Main(hash, node[mp].key, |node|) != mp
    requires forall i :: 0 <= i < |node| ==> HomeTaken(hash, node, i)
    ensures forall i :: 0 <= i < |node| ==> HomeTaken(hash, PutMoved(node, mp, pred, n, k), i)
  {
    hide Main;
    var node1 := PutMoved(node, mp, pred, n, k);
    assert node1[n].key == node[mp].key;
    assert forall i :: 0 <= i < |node| && i != n && i != mp ==> node1[i].key == node[i].key;
    forall i | 0 <= i < |node1| ensures HomeTaken(hash, node1, i) {
      if i != mp {
        assert HomeTaken(hash, node, if i == n then mp else i);
      }
    }
  }

  lemma HomeIsHome(hash: Hash, node: seq<Node>, i: nat)
    requires i < |node| && HomeTaken(hash, node, i) && node[i].key != NilKey
    ensures var h := Main(hash, node[i].key, |node|); node[h].key != NilKey && Main(hash, node[h].key, |node|) == h
  {
  }

  lemma MovedMembers(node: seq<Node>, order: seq<nat>, mp: nat, p: nat, n: nat)
    requires Ordered(node, order) && p < |order| && order[p] == mp && n < |node| && node[n].key == NilKey
    ensures mp < |node| && node[mp].key != NilKey && mp != n
    ensures var order1 := MovedOrder(order, p, n);
      && (forall j :: 0 <= j < |order1| ==> order1[j] < |node|)
      && (forall j :: 0 <= j < |order1| ==> order1[j] == if j == p then n else if j == |order| then mp else order[j])
      && (forall j :: 0 <= j < |order| ==>
           order[j] < |node| && order[j] != n && node[order[j]].key != NilKey && (order[j] == mp ==> j == p))
  {
  }

  // ---------- dead keys ----------

  // The entry of an object key that the collector has marked dead.
  predicate Buried(d: Key, k: Key) { k.Ref? && d == Dead(k.id, k.pow2) }

  /** A live key comes before all dead entries of the same object, so that whoever walks the
      chain meets it first. */
  ghost predicate LiveFirst(node: seq<Node>, order: seq<nat>) {
    forall a, b ::
      (0 <= a < |order| && 0 <= b < |order| && order[a] < |node| && order[b] < |node|
       && Buried(node[order[a]].key, node[order[b]].key)) ==> b < a
  }

  // A dead entry is on the chain of its object's main position, or is that position.
  lemma BuriedBehind(hash: Hash, node: seq<Node>, order: seq<nat>, a: nat, k: Key, p: nat)
    requires Chained(hash, node, order) && a < |order| && order[a] < |node| && Buried(node[order[a]].key, k)
    requires p < |order| && order[p] == Main(hash, k, |node|)
    ensures p <= a
  {
    assert Reached(hash, node, order, a);
    var q :| 0 <= q <= a && order[q] == Main(hash, node[order[a]].key, |node|) && Linked(node, order, q, a);
    assert q == p;
  }

  // The main position of a dead key has a key that is at home.
  lemma BuriedHome(hash: Hash, node: seq<Node>, order: seq<nat>, a: nat, k: Key)
    requires Chained(hash, node, order) && a < |order| && order[a] < |node| && Buried(node[order[a]].key, k)
    ensures var h := Main(hash, k, |node|); node[h].key != NilKey && Main(hash, node[h].key, |node|) == h
  {
    assert HomeTaken(hash, node, order[a]);
  }

  lemma HomeLiveFirst(hash: Hash, node: seq<Node>, order: seq<nat>, mp: nat, k: Key)
    requires Chained(hash, node, order) && LiveFirst(node, order) && IsKey(k) && mp == Main(hash, k, |node|)
    ensures LiveFirst(PutHome(node, mp, k), HomeOrder(node, order, mp))
  {
    var node1, order1 := PutHome(node, mp, k), HomeOrder(node, order, mp);
    HomeMembers(node, order, mp, k);
    hide Main, Chained;
    forall a, b | 0 <= a < |order1| && 0 <= b < |order1| && order1[a] < |node1| && order1[b] < |node1|
                  && Buried(node1[order1[a]].key, node1[order1[b]].key)
      ensures b < a
    {
      if order1[b] == mp {
        assert order1[a] != mp && a < |order|;
        BuriedHome(hash, node, order, a, k);
        BuriedBehind(hash, node, order, a, k, b);
      } else {
        assert Buried(node[order[a]].key, node[order[b]].key);
      }
    }
  }

  lemma BehindLiveFirst(hash: Hash, node: seq<Node>, order: seq<nat>, mp: nat, p: nat, n: nat, k: Key)
    requires Chained(hash, node, order) && LiveFirst(node, order) && IsKey(k) && mp == Main(hash, k, |node|)
    requires p < |order| && order[p] == mp && !node[mp].key.Dead?
    requires n < |node| && node[n].key == NilKey
    ensures LiveFirst(PutBehind(node, mp, n, k), BehindOrder(order, p, n))
  {
    var node1, order1 := PutBehind(node, mp, n, k), BehindOrder(order, p, n);
    BehindMembers(node, order, mp, p, n, k);
    hide Main, Chained, BehindOrder;
    forall a, b | 0 <= a < |order1| && 0 <= b < |order1| && order1[a] < |node1| && order1[b] < |node1|
                  && Buried(node1[order1[a]].key, node1[order1[b]].key)
      ensures b < a
    {
      var a0, b0 := if a <= p then a else a - 1, if b <= p then b else b - 1;
      assert a != p + 1 && order1[a] == order[a0] && node1[order1[a]].key == node[order[a0]].key;
      if b == p + 1 {
        BuriedBehind(hash, node, order, a0, k, p);
      } else {
        assert Buried(node[order[a0]].key, node[order[b0]].key);
      }
    }
  }

  lemma MovedLiveFirst(hash: Hash, node: seq<Node>, order: seq<nat>, mp: nat, p: nat, n: nat, k: Key)
    requires Chained(hash, node, order) && LiveFirst(node, order) && IsKey(k) && mp == Main(hash, k, |node|)
    requires 0 < p < |order| && order[p] == mp && Main(hash, node[mp].key, |node|) != mp
    requires n < |node| && node[n].key == NilKey && order[p - 1] < |node| && node[order[p - 1]].next == mp
    ensures LiveFirst(PutMoved(node, mp, order[p - 1], n, k), MovedOrder(order, p, n))
  {
    var node1, order1 := PutMoved(node, mp, order[p - 1], n, k), MovedOrder(order, p, n);
    MovedMembers(node, order, mp, p, n);
    hide Main, Chained, MovedOrder;
    forall a, b | 0 <= a < |order1| && 0 <= b < |order1| && order1[a] < |node1| && order1[b] < |node1|
                  && Buried(node1[order1[a]].key, node1[order1[b]].key)
      ensures b < a
    {
      assert a != |order|;
      assert a < |order| && node1[order1[a]].key == node[order[a]].key;
      if b == |order| {
        BuriedHome(hash, node, order, a, k);
      } else {
        assert node1[order1[b]].key == node[order[b]].key;
        assert Buried(node[order[a]].key, node[order[b]].key);
      }
    }
  }

  lemma SameKeysLiveFirst(node: seq<Node>, node1: seq<Node>, order: seq<nat>)
    requires LiveFirst(node, order) && |node1| == |node| && forall i :: 0 <= i < |node| ==> node1[i].key == node[i].key
    ensures LiveFirst(node1, order)
  {
    forall a, b | 0 <= a < |order| && 0 <= b < |order| && order[a] < |node| && order[b] < |node|
                  && Buried(node1[order[a]].key, node1[order[b]].key)
      ensures b < a
    {
      assert Buried(node[order[a]].key, node[order[b]].key);
    }
  }

  // The only live entry of the object becomes a dead one.
  lemma KillLiveFirst(node: seq<Node>, node1: seq<Node>, order: seq<nat>, i: nat)
    requires LiveFirst(node, order) && Distinct(node) && i < |node| && node[i].key.Ref? && |node1| == |node|
    requires Buried(node1[i].key, node[i].key) && forall j :: 0 <= j < |node| && j != i ==> node1[j].key == node[j].key
    ensures LiveFirst(node1, order)
  {
    forall a, b | 0 <= a < |order| && 0 <= b < |order| && order[a] < |node| && order[b] < |node|
                  && Buried(node1[order[a]].key, node1[order[b]].key)
      ensures b < a
    {
      if order[a] != i {
        assert Buried(node[order[a]].key, node[order[b]].key);
      }
    }
  }

  lemma LiveIsBefore(hash: Hash, node: seq<Node>, order: seq<nat>, k: Key, p0: nat, p: nat, i: nat) returns (b: nat)
    requires Chained(hash, node, order) && LiveFirst(node, order) && i < |node| && node[i].key == k && IsKey(k)
    requires p < |order| && order[p] < |node| && Buried(node[order[p]].key, k)
    requires p0 < |order| && order[p0] == Main(hash, k, |node|)
    ensures p0 <= b < p && order[b] == i
  {
    assert Covered(node, order, i);
    b :| 0 <= b < |order| && order[b] == i;
    assert Reached(hash, node, order, b);
    var a :| 0 <= a <= b && order[a] == Main(hash, node[order[b]].key, |node|) && Linked(node, order, a, b);
    assert a == p0;
    assert Buried(node[order[p]].key, node[order[b]].key);
  }

  /** Whoever meets a dead entry of a key first on its chain can be sure that the key is not in
      the table. */
  lemma BuriedMeansAbsent(hash: Hash, node: seq<Node>, order: seq<nat>, k: Key, p0: nat, p: nat)
    requires Chained(hash, node, order) && LiveFirst(node, order) && IsKey(k)
    requires p0 <= p < |order| && order[p0] == Main(hash, k, |node|) && order[p] < |node|
    requires Buried(node[order[p]].key, k)
    requires forall q :: p0 <= q < p ==> order[q] < |node| && node[order[q]].key != k
    ensures forall i :: 0 <= i < |node| ==> node[i].key != k
  {
    hide Chained, LiveFirst, Main;
    forall i | 0 <= i < |node| ensures node[i].key != k {
      if node[i].key == k {
        var b := LiveIsBefore(hash, node, order, k, p0, p, i);
      }
    }
  }
}
