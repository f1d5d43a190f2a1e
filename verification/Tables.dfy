/** Lua tables (ltable.c): an array part and a chained scatter table that together behave as
    one map, whatever keys are inserted and however often the table is rehashed. */
module Tables {
  import opened Basics
  import opened TableChains
  import opened TableSizes
  import opened TableMap
  import opened TableRehash

  // Where luaH_set and luaH_get point to.
  datatype Slot = NoSlot | ArrSlot(i: nat) | NodeSlot(i: nat)

  class Table {
    const hash: Hash
    var arr: seq<Value>
    var node: seq<Node>
    var dummy: bool           // the hash part is the common dummy node
    var lastfree: int         // all nodes from here on have keys
    ghost var order: seq<nat>
    ghost var m: map<Key, Value>

    ghost predicate Valid()
      reads this
    {
      TableOK(hash, arr, node, order, m) && FreeOK(node, dummy, lastfree) && |node| <= MAXASIZE
    }

    // The first half of luaH_new: a table without any space.
    constructor (h: Hash)
      ensures Valid() && m == map[] && hash == h && arr == []
    {
      hash := h;
      arr := [];
      node, dummy, lastfree := [EMPTY], true, 0;
      order, m := [], map[];
      new;
      EmptyHash(h, 1);
      Pow2Mono(0, MAXBITS);
      assert seq(1, _ => EMPTY) == [EMPTY];
    }

    /** The second half of luaH_new: space for so many elements, unless the hash part would be
        too large. */
    method Allocate(narray: nat, nhash: nat) returns (st: Status)
      requires Valid() && arr == [] && m == map[] && order == [] && narray <= MAXASIZE
      modifies this
      ensures Valid() && m == map[] && |arr| == narray
      ensures st.Success? <==> nhash <= MAXASIZE
      ensures st.Success? ==> nhash <= |node|
    {
      hide Contains, Chained, Distinct, FreeOK, Pow2;
      TableParts(hash, arr, node, order, m);
      GrownContains(arr, node, m, narray);
      ghost var node0 := node;
      arr := Resized(arr, narray);
      st := SetNodeVector(nhash);
      if st.Success? {
        FreshTable(hash, arr, node0, m, narray, |node|);
        assert ArrayOnly(m, narray, |arr|) == map[] && Resized(arr, narray) == arr;
        NoOrder(node);
      }
    }

    // ---------- looking up ----------

    /** Goes through the chain from the main position of the key. */
    method Search(k: Key) returns (s: Slot)
      requires Valid() && IsKey(k) && !InArr(|arr|, k)
      ensures s.NoSlot? ==> Absent(node, k)
      ensures !s.NoSlot? ==> s.NodeSlot? && s.i < |node| && node[s.i].key == k
    {
      hide Contains, Distinct, FreeOK, NoDup;
      var n := Main(hash, k, |node|);
      if node[n].key == k {
        return NodeSlot(n);
      }
      if node[n].key == NilKey {
        NoKeyThere(hash, node, order, k, n);
        return NoSlot;
      }
      ghost var p0 := StartOf(hash, node, order, n);
      ghost var p := p0;
      while node[n].next != NULL
        invariant n < |node| && p0 <= p < |order| && order[p] == n && Linked(node, order, p0, p)
        invariant order[p0] == Main(hash, k, |node|)
        invariant forall q :: p0 <= q <= p ==> order[q] < |node| && node[order[q]].key != k
        decreases |order| - p
      {
        LinkStep(hash, node, order, p0, p);
        n := node[n].next;
        p := p + 1;
        if node[n].key == k {
          return NodeSlot(n);
        }
      }
      NotInChain(hash, node, order, k, p0, p);
      return NoSlot;
    }

    /** luaH_get, as a pointer to the value. */
    method Find(k: Key) returns (s: Slot)
      requires Valid() && !k.Dead?
      ensures s.NoSlot? ==> k !in m && (IsKey(k) ==> !InArr(|arr|, k) && Absent(node, k))
      ensures s.ArrSlot? ==> InArr(|arr|, k) && s.i == k.i - 1
      ensures s.NodeSlot? ==> IsKey(k) && !InArr(|arr|, k) && s.i < |node| && node[s.i].key == k
    {
      hide Chained, FreeOK;
      if !IsKey(k) {
        return NoSlot;  // nil and NaN are in no table
      }
      if k.Num? && 1 <= k.i <= |arr| {
        return ArrSlot(k.i - 1);
      }
      s := Search(k);
      if s.NoSlot? {
        AbsentKey(arr, node, m, k);
      }
    }

    function ValueAt(s: Slot): Value
      requires s.ArrSlot? ==> s.i < |arr|
      requires s.NodeSlot? ==> s.i < |node|
      reads this
    {
      match s
      case NoSlot => Nil
      case ArrSlot(i) => arr[i]
      case NodeSlot(i) => node[i].val
    }

    /** Reading a table is reading the map. */
    method Get(k: Key) returns (v: Value)
      requires Valid() && !k.Dead?
      ensures v == if k in m then m[k] else Nil
    {
      var s := Find(k);
      v := ValueAt(s);
      SlotValue(arr, node, m, k, s);
    }

    // ---------- inserting ----------

    /** getfreepos: every node from the one found on has a key. */
    method GetFreePos() returns (n: int)
      requires FreeOK(node, dummy, lastfree) && 0 < |node|
      modifies this`lastfree
      ensures n == NULL ==> FreeOK(node, dummy, lastfree)
      ensures n != NULL ==> n >= 0 && Frees(node, dummy, lastfree, n)
      ensures n == NULL && !dummy ==> forall i :: 0 <= i < |node| ==> node[i].key != NilKey
    {
      while lastfree > 0
        invariant FreeOK(node, dummy, lastfree)
        decreases lastfree
      {
        if node[lastfree - 1].key == NilKey {
          lastfree := lastfree - 1;
          return lastfree;
        }
        lastfree := lastfree - 1;
      }
      lastfree := lastfree - 1;
      return NULL;
    }

    // Room for one more key in the hash part.
    ghost predicate HasRoom()
      reads this
    {
      !dummy && |order| < |node|
    }

    // The slot is the one of key k.
    ghost predicate Points(s: Slot, k: Key)
      reads this
    {
      match s
      case NoSlot => false
      case ArrSlot(i) => InArr(|arr|, k) && i == k.i - 1
      case NodeSlot(i) => IsKey(k) && !InArr(|arr|, k) && i < |node| && node[i].key == k
    }

    // The only failure that a key can meet: the table has as many entries as a hash part may.
    predicate Overflow(st: Status, m: map<Key, Value>) {
      st == Failure("table overflow") && MAXASIZE <= |m|
    }

    // What insertion promises when there is room.
    twostate predicate Inserted(k: Key)
      reads this
    {
      arr == old(arr) && dummy == old(dummy) && AddsKey(old(node), old(order), node, order, k)
    }

    twostate predicate Unchanged()
      reads this
    {
      arr == old(arr) && node == old(node) && order == old(order) && dummy == old(dummy)
    }

    // The main position has no value: the key goes there.
    method InsertHome(k: Key, mp: nat)
      requires Valid() && !dummy && IsKey(k) && !InArr(|arr|, k) && Absent(node, k)
      requires mp == Main(hash, k, |node|) && mp < |node| && node[mp].val == Nil
      modifies this`node, this`order
      ensures Valid() && mp < |node| && node[mp].key == k && Inserted(k)
    {
      HomeOK(hash, arr, node, order, m, k, mp, lastfree);
      hide TableOK, FreeOK, AddsKey, HomeOrder;
      ghost var order1 := HomeOrder(node, order, mp);
      node := node[mp := node[mp].(key := k)];
      order := order1;
    }

    // The colliding node is at home: the key goes to the free node, chained behind it.
    method InsertBehind(k: Key, mp: nat, n: nat)
      requires TableOK(hash, arr, node, order, m) && IsKey(k) && !InArr(|arr|, k) && Absent(node, k)
      requires Frees(node, dummy, lastfree, n) && mp < |node| && node[mp].key != NilKey
      requires mp == Main(hash, k, |node|) && Main(hash, node[mp].key, |node|) == mp
      requires |node| <= MAXASIZE && !node[mp].key.Dead?
      modifies this`node, this`order
      ensures Valid() && n < |node| && node[n].key == k && Inserted(k)
    {
      hide TableOK, FreeOK, AddsKey, Main;
      ghost var order1 := BehindOK(hash, arr, node, order, m, k, mp, n);
      node := node[n := Node(k, Nil, node[mp].next)][mp := node[mp].(next := n)];
      order := order1;
    }

    // The colliding node is out of its main position: it makes place for the key.
    method InsertMoved(k: Key, mp: nat, n: nat)
      requires TableOK(hash, arr, node, order, m) && IsKey(k) && !InArr(|arr|, k) && Absent(node, k)
      requires Frees(node, dummy, lastfree, n) && mp < |node| && node[mp].key != NilKey
      requires mp == Main(hash, k, |node|) && Main(hash, node[mp].key, |node|) != mp
      requires |node| <= MAXASIZE
      modifies this`node, this`order
      ensures Valid() && mp < |node| && node[mp].key == k && Inserted(k)
    {
      hide TableOK, FreeOK, AddsKey, Main, Chained, NoDup;
      TableParts(hash, arr, node, order, m);
      var othern := Main(hash, node[mp].key, |node|);
      ghost var p, q := ChainOf(hash, node, order, mp);
      while node[othern].next != mp  // find previous
        invariant node == old(node) && order == old(order)
        invariant othern < |node| && p < q < |order| && order[p] == othern && order[q] == mp
        invariant Linked(node, order, p, q)
        decreases q - p
      {
        WalkOn(hash, node, order, p, q, mp);
        othern := node[othern].next;
        p := p + 1;
      }
      AtPrevious(hash, node, order, p, q, mp);
      MovedOK(hash, arr, node, order, m, k, mp, othern, q, n);
      ghost var order1 := MovedOrder(order, q, n);
      node := node[othern := node[othern].(next := n)];  // n takes the place of mp in its chain
      node := node[n := node[mp]];  // the colliding node moves to n
      node := node[mp := Node(k, Nil, NULL)];  // the new key takes its place
      order := order1;
    }

    /** newkey: with room in the hash part there is no rehash; without it there is exactly one,
        after which there is room. */
    method NewKey(k: Key) returns (st: Status, s: Slot)
      requires Valid() && IsKey(k) && !InArr(|arr|, k) && Absent(node, k)
      modifies this
      ensures Valid() && m == old(m) && (st.Success? ==> Points(s, k))
      ensures old(HasRoom()) ==> st.Success? && Inserted(k) && s.NodeSlot?
      ensures st.Failure? ==> Overflow(st, m)
      decreases if HasRoom() then 0 else 1, 3
    {
      hide TableOK, AddsKey, Main;
      s := NoSlot;
      TableParts(hash, arr, node, order, m);
      AbsentKey(arr, node, m, k);
      var mp := Main(hash, k, |node|);
      if node[mp].val == Nil && !dummy {
        InsertHome(k, mp);
        return Success, NodeSlot(mp);
      }
      var n := GetFreePos();
      if n == NULL {
        if !dummy {
          FullTable(hash, arr, node, order, m);
        }
        st := Rehash(k);  // grow table
        if st.Success? {
          st, s := SetSlot(k);  // there is room now
        }
        return;
      }
      ValuedNode(arr, node, m, mp);
      assert !node[mp].key.Dead?;
      var othern := Main(hash, node[mp].key, |node|);
      if othern != mp {
        InsertMoved(k, mp, n);
        return Success, NodeSlot(mp);
      }
      InsertBehind(k, mp, n);
      return Success, NodeSlot(n);
    }

    /** luaH_set, as a pointer to the value. */
    method SetSlot(k: Key) returns (st: Status, s: Slot)
      requires Valid() && IsKey(k)
      modifies this
      ensures Valid() && m == old(m) && (st.Success? ==> Points(s, k))
      ensures old(HasRoom() || InArr(|arr|, k)) ==> st.Success? && if s.NodeSlot? then Inserted(k) else Unchanged()
      ensures k in m ==> st.Success?
      ensures st.Failure? ==> Overflow(st, m)
      decreases if HasRoom() || InArr(|arr|, k) then 0 else 1, 4
    {
      hide TableOK, AddsKey;
      s := Find(k);
      if !s.NoSlot? {
        if s.NodeSlot? {
          FoundAdds(node, order, k, s.i);
        }
        return Success, s;
      }
      st, s := NewKey(k);
    }

    /** The value goes where the pointer points. */
    method Store(s: Slot, k: Key, v: Value)
      requires Valid() && Points(s, k)
      modifies this`arr, this`node, this`m
      ensures Valid() && m == Updated(old(m), k, v)
      ensures s.ArrSlot? ==> node == old(node) && |arr| == |old(arr)|
      ensures s.NodeSlot? ==> arr == old(arr) && |node| == |old(node)|
      ensures s.NodeSlot? && v != Nil && LiveBut(old(node), k) ==> AllLive(node)
    {
      hide Chained;
      if s.ArrSlot? {
        StoreArr(arr, node, m, k, v);
        arr := arr[s.i := v];
      } else {
        StoreNode(arr, node, m, k, s.i, v);
        StoreDistinct(node, s.i, node[s.i].(val := v));
        StoreChained(hash, node, order, s.i, v);
        StoreLive(node, s.i, k, v);
        SameKeysLiveFirst(node, node[s.i := node[s.i].(val := v)], order);
        hide Contains, Distinct, LiveFirst;
        node := node[s.i := node[s.i].(val := v)];
      }
      m := Updated(m, k, v);
    }

    /** t[k] = v: the map changes at k and nowhere else. It fails for keys that are none and
        when a new key would need a hash part that is too large; then nothing changes. */
    method Set(k: Key, v: Value) returns (st: Status)
      requires Valid() && !k.Dead?
      modifies this
      ensures Valid() && m == if st.Success? then Updated(old(m), k, v) else old(m)
      ensures k == NilKey ==> st == Failure("table index is nil")
      ensures k == NanKey ==> st == Failure("table index is NaN")
      ensures IsKey(k) && st.Failure? ==> Overflow(st, old(m))
      ensures IsKey(k) && old(HasRoom() || InArr(|arr|, k) || k in m) ==> st.Success?
    {
      hide TableOK, AddsKey, AllLive;
      if k == NilKey {
        return Failure("table index is nil");
      }
      if k == NanKey {
        return Failure("table index is NaN");
      }
      var s;
      st, s := SetSlot(k);
      if st.Success? {
        Store(s, k, v);
      }
    }

    /** removeentry of lgc.c: the key of an entry without a value dies but stays in its chain. */
    method KillEntry(i: nat)
      requires Valid() && i < |node| && node[i].val == Nil && node[i].key.Ref?
      modifies this`node
      ensures Valid() && m == old(m) && i < |node| && node[i].key.Dead?
    {
      KillKeeps(hash, arr, node, order, m, i);
      var k := node[i].key;
      node := node[i := node[i].(key := Dead(k.id, k.pow2))];
    }

    // ---------- rehashing ----------

    /** setnodevector: an empty hash part with room for `size' keys. */
    method SetNodeVector(size: nat) returns (st: Status)
      modifies this`node, this`dummy, this`lastfree, this`order
      ensures st.Success? ==>
                0 < |node| && node == seq(|node|, _ => EMPTY) && order == [] && FreeOK(node, dummy, lastfree)
      ensures st.Success? ==> size <= |node| <= MAXASIZE && (dummy <==> size == 0)
      ensures st == if size <= MAXASIZE then Success else Failure("table overflow")
      ensures st.Failure? ==> unchanged(this)
    {
      hide Pow2, CeilLog2;
      if size == 0 {  // no hash part at all
        node, dummy, lastfree := [EMPTY], true, 0;
        order := [];
        Pow2Zero();
        Pow2Mono(0, MAXBITS);
        assert node == seq(1, _ => EMPTY);
        return Success;
      }
      var lsize := CeilLog2(size);
      CeilLog2Unique(size, MAXBITS);
      CeilLog2Unique(size, lsize);
      if lsize > MAXBITS {
        return Failure("table overflow");
      }
      Pow2Mono(lsize, MAXBITS);
      var n := Pow2(lsize);
      node, dummy, lastfree := seq(n, _ => EMPTY), false, n;
      order := [];
      return Success;
    }

    // Re-inserts an entry of the old table; m0 is the whole map.
    method Reinsert(k: Key, v: Value, ghost m0: map<Key, Value>, ghost nhsize: nat)
      requires Valid() && AllLive(node) && IsKey(k) && v != Nil
      requires k in m0 && k !in m && forall q :: q in m ==> q in m0
      requires |HashKeys(m0, |arr|)| <= nhsize <= |node| && (dummy ==> nhsize == 0)
      modifies this
      ensures Valid() && AllLive(node) && m == old(m)[k := v]
      ensures |arr| == |old(arr)| && |node| == |old(node)| && dummy == old(dummy)
      decreases 0, 5
    {
      hide TableOK, HashKeys, AllLive, LiveBut;
      TableParts(hash, arr, node, order, m);
      if !InArr(|arr|, k) {
        Ordering(hash, arr, node, order, m);
        OrderCount(arr, node, order, m);
        MoreToMove(m0, m, k, |arr|);
      }
      var st, s := SetSlot(k);
      Store(s, k, v);
    }

    /** resize: the entries move to an array part of size nasize and a new hash part with room
        for nhsize keys. There is room for each of them, so nothing is rehashed again. */
    method Resize(nasize: nat, nhsize: nat) returns (st: Status)
      requires Valid() && nasize <= MAXASIZE && |HashKeys(m, nasize)| <= nhsize
      modifies this
      ensures st == if nhsize <= MAXASIZE then Success else Failure("table overflow")
      ensures st.Success? ==> Valid() && m == old(m) && |arr| == nasize
      ensures st.Success? ==> |order| == |HashKeys(m, nasize)| && nhsize <= |node| && (dummy ==> nhsize == 0)
      ensures st.Failure? ==> arr == if nasize > |old(arr)| then Resized(old(arr), nasize) else old(arr)
      ensures st.Failure? ==> unchanged(this`node, this`dummy, this`lastfree, this`order, this`m)
      decreases 1, 1
    {
      hide TableOK, Contains, Chained, Distinct, FreeOK, AllLive, HashKeys, Moving, Pow2;
      var oldarr, oldnode := arr, node;
      ghost var m0 := m;
      TableParts(hash, arr, node, order, m);
      if nasize > |arr| {  // the array part grows first
        arr := arr + seq(nasize - |arr|, _ => Nil);
      }
      st := SetNodeVector(nhsize);
      if st.Failure? {
        return;
      }
      if nasize < |oldarr| {
        arr := arr[..nasize];
      }
      assert arr == Resized(oldarr, nasize);
      m := ArrayOnly(m0, nasize, |oldarr|);
      FreshTable(hash, oldarr, oldnode, m0, nasize, |node|);
      Assemble(hash, arr, node, order, m);
      // array slots that are cut off
      var i := nasize;
      while i < |oldarr|
        invariant Valid() && AllLive(node) && |arr| == nasize && nhsize <= |node| && (dummy ==> nhsize == 0)
        invariant nasize <= i && Moving(m0, m, oldarr, oldnode, i, |oldnode|)
        decreases |oldarr| - i
      {
        MoveSlot(m0, m, oldarr, oldnode, i);
        MovingKeys(m0, m, oldarr, oldnode, i, |oldnode|);
        if oldarr[i] != Nil {
          Reinsert(Num(i + 1), oldarr[i], m0, nhsize);
        }
        i := i + 1;
      }
      // nodes of the old hash part
      var j := |oldnode|;
      while j > 0
        invariant Valid() && AllLive(node) && |arr| == nasize && nhsize <= |node| && (dummy ==> nhsize == 0)
        invariant 0 <= j <= |oldnode| && Moving(m0, m, oldarr, oldnode, i, j)
        decreases j
      {
        MoveNode(m0, m, oldarr, oldnode, i, j);
        MovingKeys(m0, m, oldarr, oldnode, i, j);
        j := j - 1;
        var old_ := oldnode[j];
        if old_.val != Nil {
          Reinsert(old_.key, old_.val, m0, nhsize);
        }
      }
      AllMoved(m0, m, oldarr, oldnode, i);
      TableParts(hash, arr, node, order, m);
      Ordering(hash, arr, node, order, m);
      OrderCount(arr, node, order, m);
    }

    /** numusearray: counts the keys of the array part by slices. */
    method NumUseArray() returns (nums: seq<nat>, ause: nat)
      requires |arr| <= MAXASIZE
      ensures Counts(nums, ArrKeys(arr, |arr| + 1)) && ause == |ArrKeys(arr, |arr| + 1)|
    {
      hide Counts, Pow2, ArrKeys;
      nums := seq(MAXBITS + 1, _ => 0);
      NoneCounted(nums);
      var lg, ttlg := 0, 1;
      ause := 0;
      var i := 1;
      NoArrKeys(arr);
      Pow2Zero();
      while lg <= MAXBITS  // slice by slice
        invariant |nums| == MAXBITS + 1 && 0 <= lg <= MAXBITS + 1 && ttlg == Pow2(lg)
        invariant i == Before(lg, |arr|) + 1
        invariant Counts(nums, ArrKeys(arr, i)) && ause == |ArrKeys(arr, i)|
        decreases MAXBITS + 1 - lg
      {
        var lc := 0;
        var lim := ttlg;
        if lim > |arr| {
          lim := |arr|;  // the last slice may be shorter
          if i > lim {
            break;  // the slice is empty
          }
        }
        BeforeNext(lg, |arr|);
        assert nums[lg := nums[lg] + 0] == nums;
        // the slots of this slice
        while i <= lim
          invariant Before(lg, |arr|) < i <= lim + 1
          invariant Counts(nums[lg := nums[lg] + lc], ArrKeys(arr, i)) && ause + lc == |ArrKeys(arr, i)|
          decreases lim + 1 - i
        {
          ArrKeysNext(arr, i);
          if arr[i - 1] != Nil {
            InSlice(i, lg, |arr|);
            CountOne(nums[lg := nums[lg] + lc], ArrKeys(arr, i), i);
            assert nums[lg := nums[lg] + lc][lg := nums[lg] + lc + 1] == nums[lg := nums[lg] + (lc + 1)];
            lc := lc + 1;
          }
          i := i + 1;
        }
        nums := nums[lg := nums[lg] + lc];
        ause := ause + lc;
        lg, ttlg := lg + 1, ttlg * 2;
      }
      AllArrKeys(arr, lg, i);
    }

    /** countint: a key that could live in an array part counts for its slice. */
    method CountInt(k: Key, nums: seq<nat>, ghost ks: set<nat>) returns (nums1: seq<nat>, counted: nat)
      requires Counts(nums, ks) && (Countable(k) ==> k.i !in ks)
      ensures Counts(nums1, if Countable(k) then ks + {k.i} else ks)
      ensures counted == if Countable(k) then 1 else 0
    {
      if k.Num? && 0 < k.i <= MAXASIZE {
        CountOne(nums, ks, k.i);
        var c := CeilLog2(k.i);
        return nums[c := nums[c] + 1], 1;
      }
      return nums, 0;
    }

    /** numusehash: counts the entries of the hash part, and its array indices by slices. */
    method NumUseHash(nums0: seq<nat>) returns (nums: seq<nat>, ause: nat, totaluse: nat)
      requires Valid() && Counts(nums0, ArrKeys(arr, |arr| + 1))
      ensures Counts(nums, ArrKeys(arr, |arr| + 1) + Ints(HashPart(node, 0)))
      ensures |ArrKeys(arr, |arr| + 1)| + ause == |ArrKeys(arr, |arr| + 1) + Ints(HashPart(node, 0))|
      ensures totaluse == |HashPart(node, 0)|
    {
      hide TableOK, Contains, Distinct, Chained, FreeOK, Counts, Pow2, ArrKeys, HashPart, Ints, Countable;
      TableParts(hash, arr, node, order, m);
      ghost var ks := ArrKeys(arr, |arr| + 1);
      nums, ause, totaluse := nums0, 0, 0;
      var i := |node|;
      NoHashPart(node);
      assert ks + {} == ks;
      while i > 0
        invariant 0 <= i <= |node|
        invariant Counts(nums, ks + Ints(HashPart(node, i))) && |ks| + ause == |ks + Ints(HashPart(node, i))|
        invariant totaluse == |HashPart(node, i)|
        decreases i
      {
        i := i - 1;
        HashPartNext(arr, node, m, i);
        if node[i].val != Nil {
          IntsAdd(HashPart(node, i + 1), node[i].key);
          NewInt(arr, node[i].key, ks, Ints(HashPart(node, i + 1)));
          var c;
          nums, c := CountInt(node[i].key, nums, ks + Ints(HashPart(node, i + 1)));
          ause := ause + c;
          totaluse := totaluse + 1;
        }
      }
    }

    // The counting part of rehash, before and with the extra key.
    method CountEntries() returns (nums: seq<nat>, nasize: nat, totaluse: nat)
      requires Valid()
      ensures Counts(nums, Ints(m.Keys)) && nasize == |Ints(m.Keys)| && totaluse == |m|
    {
      hide TableOK, FreeOK, Counts, Pow2, Ints, HashPart, ArrKeys, Contains, Distinct, Chained;
      TableParts(hash, arr, node, order, m);
      nums, nasize := NumUseArray();  // array slots with a value
      totaluse := nasize;  // each of them is an array index
      var ause, hashuse;
      nums, ause, hashuse := NumUseHash(nums);  // nodes with a value
      EntriesCounted(arr, node, m, nums, nasize + ause, totaluse + hashuse);
      nasize := nasize + ause;
      totaluse := totaluse + hashuse;
    }

    method CountKeys(k: Key) returns (nums: seq<nat>, nasize: nat, totaluse: nat)
      requires Valid() && IsKey(k) && k !in m
      ensures Counts(nums, Ints(m.Keys + {k})) && nasize == |Ints(m.Keys + {k})| && totaluse == |m| + 1
    {
      hide TableOK, FreeOK, Counts, Pow2, Ints, Countable;
      nums, nasize, totaluse := CountEntries();
      IntsAdd(m.Keys, k);
      var c;
      nums, c := CountInt(k, nums, Ints(m.Keys));
      nasize := nasize + c;
      totaluse := totaluse + 1;
    }

    /** rehash: the sizes are computed so that the table has room for all its keys and one
        more, k. */
    method Rehash(k: Key) returns (st: Status)
      requires Valid() && IsKey(k) && k !in m && !InArr(|arr|, k)
      modifies this
      ensures Valid() && m == old(m)
      ensures st.Success? ==> HasRoom() || InArr(|arr|, k)
      ensures st.Failure? ==> Overflow(st, m)
      decreases 1, 2
    {
      hide TableOK, FreeOK, Counts, Pow2, Ints, UpTo, OptimalSize, HashKeys;
      ghost var all := m.Keys + {k};
      var nums, nasize, totaluse := CountKeys(k);
      var na, n := ComputeSizes(nums, nasize, Ints(all));
      OptimalBound(Ints(all), n, na);
      HashRoom(all, n);
      ExtraRoom(m, k, n);
      ghost var m0, arr0 := m, arr;
      HashFits(hash, arr, node, order, m, |arr|);
      HashKeysFewer(m, n);
      st := Resize(n, totaluse - na);
      if st.Failure? {
        assert !InArr(n, k) ==> |HashKeys(m, n)| + 1 > MAXASIZE;
        OverflowKeeps(hash, arr0, node, order, m, n, k);
      }
    }

    /** luaH_resizearray, which its callers use to enlarge the array part. */
    method ResizeArray(nasize: nat) returns (st: Status)
      requires Valid() && |arr| <= nasize <= MAXASIZE
      modifies this
      ensures st.Success? && Valid() && m == old(m) && |arr| == nasize
      decreases 2
    {
      HashFits(hash, arr, node, order, m, nasize);
      var nsize := if dummy then 0 else |node|;
      if dummy {
        DummyFits(arr, node, m, nasize);
      }
      st := Resize(nasize, nsize);
    }

    // ---------- the length ----------

    // n is a border of the table: it ends with n, or is empty.
    ghost predicate Boundary(n: nat)
      reads this
    {
      (n == 0 || Num(n) in m) && Num(n + 1) !in m
    }

    method UnboundSearch(j0: nat) returns (n: nat)
      requires Valid() && (j0 == 0 || Num(j0) in m) && j0 < MAX_INT
      ensures Boundary(n)
    {
      var i, j := j0, j0 + 1;
      // double j until there is nothing at j
      var v := Get(Num(j));
      while v != Nil
        invariant 0 <= i < j <= 2 * MAX_INT && (i == 0 || Num(i) in m) && v == (if Num(j) in m then m[Num(j)] else Nil)
        invariant j <= MAX_INT
        decreases MAX_INT - j
      {
        Present(arr, node, m, Num(j));
        i := j;
        j := j * 2;
        if j > MAX_INT {  // no border by doubling below the largest integer
          n := LinearSearch();
          return;
        }
        v := Get(Num(j));
      }
      Present(arr, node, m, Num(j));
      // close in on a border between them
      while j - i > 1
        invariant 0 <= i < j && (i == 0 || Num(i) in m) && Num(j) !in m
        decreases j - i
      {
        var mid := (i + j) / 2;
        v := Get(Num(mid));
        Present(arr, node, m, Num(mid));
        if v == Nil {
          j := mid;
        } else {
          i := mid;
        }
      }
      return i;
    }

    method LinearSearch() returns (n: nat)
      requires Valid()
      ensures Boundary(n)
    {
      var i := 1;
      var v := Get(Num(i));
      Present(arr, node, m, Num(i));
      while v != Nil
        invariant 1 <= i && (forall q :: 1 <= q < i ==> Num(q) in m) && (v != Nil <==> Num(i) in m)
        decreases |m| - i
      {
        FiniteRun(m, i);
        i := i + 1;
        v := Get(Num(i));
        Present(arr, node, m, Num(i));
      }
      return i - 1;
    }

    /** luaH_getn: whatever the search does, what it returns is a border. */
    method GetN() returns (n: nat)
      requires Valid()
      ensures Boundary(n)
    {
      hide TableOK;
      TableParts(hash, arr, node, order, m);
      var j := |arr|;
      if j > 0 && arr[j - 1] == Nil {
        // the last array slot is empty, so there is a border before it
        var i := 0;
        while j - i > 1
          invariant 0 <= i < j <= |arr| && (i == 0 || arr[i - 1] != Nil) && arr[j - 1] == Nil
          decreases j - i
        {
          var mid := (i + j) / 2;
          if arr[mid - 1] == Nil {
            j := mid;
          } else {
            i := mid;
          }
        }
        ArrayBorder(arr, node, m, i);
        return i;
      }
      MaxSizeSmall();
      if j > 0 {
        assert SlotOK(m, arr[j - 1], j - 1);
      }
      if dummy {  // there is no hash part
        DummyBorder(arr, node, m);
        return j;
      }
      n := UnboundSearch(j);
    }

    // ---------- traversal ----------

    // Where a walk along the chain of the main position of k stands.
    ghost predicate OnChain(k: Key, n: int, p0: nat, p: nat)
      requires Valid()
      reads this
    {
      && 0 <= n < |node|
      && if node[n].key == NilKey then n == Main(hash, k, |node|)
         else p0 <= p < |order| && order[p] == n && order[p0] == Main(hash, k, |node|) && Linked(node, order, p0, p)
    }

    /** The chain is searched for the key; an entry of it that has died will do, but is found
        only if the key is not in the chain any more. */
    method FindNode(k: Key) returns (s: Slot)
      requires Valid() && IsKey(k) && !InArr(|arr|, k)
      ensures s.NoSlot? ==> Absent(node, k)
      ensures !s.NoSlot? ==> s.NodeSlot? && s.i < |node| && (node[s.i].key == k || Buried(node[s.i].key, k))
      ensures !s.NoSlot? && node[s.i].key != k ==> Absent(node, k)
    {
      hide Contains, Distinct, FreeOK, NoDup, Main, LiveFirst;
      var n := Main(hash, k, |node|);
      ghost var p := if node[n].key == NilKey then 0 else StartOf(hash, node, order, n);
      ghost var p0 := p;
      while true
        invariant OnChain(k, n, p0, p)
        invariant node[n].key != NilKey ==> forall q :: p0 <= q < p ==> order[q] < |node| && node[order[q]].key != k
        decreases |order| - p
      {
        if node[n].key == k {
          return NodeSlot(n);
        }
        if Buried(node[n].key, k) {
          BuriedMeansAbsent(hash, node, order, k, p0, p);
          return NodeSlot(n);
        }
        if node[n].next == NULL {
          if node[n].key == NilKey {
            NoKeyThere(hash, node, order, k, n);
          } else {
            NotInChain(hash, node, order, k, p0, p);
          }
          return NoSlot;
        }
        assert Covered(node, order, n);
        LinkStep(hash, node, order, p0, p);
        n := node[n].next;
        p := p + 1;
      }
    }

    /** findindex: array elements come first, then the nodes; a key that died during the
        traversal is still found. */
    method FindIndex(k: Key) returns (found: bool, i: int)
      requires Valid() && !k.Dead?
      ensures k == NilKey ==> found && i == -1
      ensures found && k != NilKey ==> 0 <= i < |arr| + |node| && At(arr, node, i, k)
      ensures k in m ==> found && Entry(arr, node, i) == (k, m[k])
    {
      hide TableOK;
      TableParts(hash, arr, node, order, m);
      i := -1;
      if k == NilKey {
        return true, -1;
      }
      if k == NanKey {
        return false, -1;
      }
      if k.Num? && 1 <= k.i <= |arr| {
        PresentAt(arr, node, m, k, k.i - 1);
        return true, k.i - 1;
      }
      var s := FindNode(k);
      if k in m {
        StoredPresent(arr, node, m, k);
      }
      if s.NodeSlot? {
        if node[s.i].key == k {
          PresentAt(arr, node, m, k, |arr| + s.i);
        }
        return true, |arr| + s.i;
      }
      return false, -1;
    }

    /** luaH_next: the entry after the one of key k, or none if that was the last. */
    method Next(k: Key) returns (st: Status, more: bool, k1: Key, v1: Value, ghost i: int, ghost i1: int)
      requires Valid() && !k.Dead?
      ensures k in m || k == NilKey ==> st.Success?
      ensures st.Success? ==> (if k == NilKey then i == -1 else 0 <= i < |arr| + |node| && At(arr, node, i, k))
      ensures k in m ==> Entry(arr, node, i) == (k, m[k]) && m[k] != Nil
      ensures st.Success? && more ==> i < i1 < |arr| + |node| && Entry(arr, node, i1) == (k1, v1)
      ensures st.Success? && more ==> k1 in m && m[k1] == v1 && v1 != Nil && IsKey(k1)
      ensures st.Success? && more ==> forall q :: i < q < i1 ==> Entry(arr, node, q).1 == Nil
      ensures st.Success? && !more ==> forall q :: i < q < |arr| + |node| ==> Entry(arr, node, q).1 == Nil
    {
      hide TableOK, Contains;
      TableParts(hash, arr, node, order, m);
      Present(arr, node, m, k);
      var found, idx := FindIndex(k);
      i, i1 := idx, idx;
      more, k1, v1 := false, NilKey, Nil;
      if !found {
        return Failure("invalid key to 'next'"), false, NilKey, Nil, idx, idx;
      }
      st := Success;
      var q := idx + 1;
      while q < |arr|  // array slots first
        invariant idx < q && forall p :: idx < p < q && p < |arr| + |node| ==> Entry(arr, node, p).1 == Nil
        invariant q <= |arr| || q == idx + 1
        decreases |arr| - q
      {
        if arr[q] != Nil {
          EntryPresent(arr, node, m, q);
          return Success, true, Num(q + 1), arr[q], idx, q;
        }
        q := q + 1;
      }
      while q - |arr| < |node|  // nodes after them
        invariant idx < q && |arr| <= q && forall p :: idx < p < q && p < |arr| + |node| ==>
                  Entry(arr, node, p).1 == Nil
        decreases |arr| + |node| - q
      {
        if node[q - |arr|].val != Nil {
          EntryPresent(arr, node, m, q);
          return Success, true, node[q - |arr|].key, node[q - |arr|].val, idx, q;
        }
        q := q + 1;
      }
    }

    /** A traversal from nil on until there are no more entries meets every entry of the table,
        and none of them twice. */
    method Traverse() returns (ks: seq<Key>, vs: seq<Value>)
      requires Valid()
      ensures |vs| == |ks| && forall j :: 0 <= j < |ks| ==> ks[j] in m && m[ks[j]] == vs[j]
      ensures forall j, l :: 0 <= j < l < |ks| ==> ks[j] != ks[l]
      ensures forall k :: k in m ==> k in ks
    {
      hide TableOK, Contains, Distinct;
      TableParts(hash, arr, node, order, m);
      ks, vs := [], [];
      var k := NilKey;
      ghost var last: int := -1;
      ghost var places: seq<nat> := [];
      while true
        invariant |ks| == |vs| && Visited(arr, node, m, ks, vs, places, last)
        invariant -1 <= last < |arr| + |node|
        invariant if last == -1 then k == NilKey else Entry(arr, node, last).0 == k && k in m
        invariant last >= 0 ==> Entry(arr, node, last).1 != Nil && IsKey(k)
        decreases |arr| + |node| - last
      {
        var st, more, k1, v1, i, i1 := Next(k);
        if last >= 0 {
          OnePlace(arr, node, m, i, last);
        }
        if !more {
          AllVisited(arr, node, m, ks, vs, places, last);
          return;
        }
        VisitedNext(arr, node, m, ks, vs, places, last, i1);
        ks, vs := ks + [k1], vs + [v1];
        places := places + [i1];
        k, last := k1, i1;
      }
    }
  }

  // The entries visited are those at the given places, in ascending order, and no other place
  // up to the last one has an entry.
  ghost predicate Visited(arr: seq<Value>, node: seq<Node>, m: map<Key, Value>, ks: seq<Key>, vs: seq<Value>,
                          places: seq<nat>, last: int)
  {
    && |ks| == |vs| == |places| && -1 <= last < |arr| + |node|
    && (forall j :: 0 <= j < |places| ==> places[j] <= last && Entry(arr, node, places[j]) == (ks[j], vs[j]))
    && (forall j :: 0 <= j < |ks| ==> ks[j] in m && m[ks[j]] == vs[j])
    && (forall j, l :: 0 <= j < l < |ks| ==> ks[j] != ks[l])
    && (forall q :: 0 <= q <= last && Entry(arr, node, q).1 != Nil ==> Entry(arr, node, q).0 in ks)
  }

  lemma OnePlace(arr: seq<Value>, node: seq<Node>, m: map<Key, Value>, i: nat, j: nat)
    requires Contains(arr, node, m) && Distinct(node) && i < |arr| + |node| && j < |arr| + |node|
    requires Entry(arr, node, i).0 == Entry(arr, node, j).0
    requires Entry(arr, node, i).1 != Nil && Entry(arr, node, j).1 != Nil
    ensures i == j
  {
    assert i >= |arr| ==> NodeOK(|arr|, m, node[i - |arr|]);
    assert j >= |arr| ==> NodeOK(|arr|, m, node[j - |arr|]);
  }

  lemma VisitedNext(arr: seq<Value>, node: seq<Node>, m: map<Key, Value>, ks: seq<Key>, vs: seq<Value>,
                    places: seq<nat>, last: int, i: nat)
    requires Contains(arr, node, m) && Distinct(node) && Visited(arr, node, m, ks, vs, places, last)
    requires last < i < |arr| + |node| && Entry(arr, node, i).1 != Nil
    requires forall q :: last < q < i ==> Entry(arr, node, q).1 == Nil
    ensures var e := Entry(arr, node, i); Visited(arr, node, m, ks + [e.0], vs + [e.1], places + [i], i)
  {
    var e := Entry(arr, node, i);
    EntryPresent(arr, node, m, i);
    forall j | 0 <= j < |ks| ensures ks[j] != e.0 {
      assert places[j] <= last;
      if ks[j] == e.0 {
        hide Contains, Distinct;
        OnePlace(arr, node, m, places[j], i);
      }
    }
    forall q | 0 <= q <= i && Entry(arr, node, q).1 != Nil ensures Entry(arr, node, q).0 in ks + [e.0] {
      assert q <= last || q == i;
    }
  }

  lemma AllVisited(arr: seq<Value>, node: seq<Node>, m: map<Key, Value>, ks: seq<Key>, vs: seq<Value>,
                   places: seq<nat>, last: int)
    requires Contains(arr, node, m) && Visited(arr, node, m, ks, vs, places, last)
    requires forall q :: last < q < |arr| + |node| ==> Entry(arr, node, q).1 == Nil
    ensures forall k :: k in m ==> k in ks
  {
    forall k | k in m ensures k in ks {
      assert Stored(arr, node, k, m[k]);
      var q := if InArr(|arr|, k) then k.i - 1 else
        var i :| 0 <= i < |node| && node[i].key == k && node[i].val == m[k];
        |arr| + i;
      assert Entry(arr, node, q) == (k, m[k]);
      assert q <= last;
    }
  }

  /** The invariant of a table: it contains m, each key once, and every key is found from its
      main position. */
  ghost predicate TableOK(hash: Hash, arr: seq<Value>, node: seq<Node>, order: seq<nat>, m: map<Key, Value>) {
    && Contains(arr, node, m) && Distinct(node) && Chained(hash, node, order) && LiveFirst(node, order)
    && |arr| <= MAXASIZE
  }

  // No node at or above lastfree is free.
  ghost predicate FreeOK(node: seq<Node>, dummy: bool, lastfree: int) {
    && lastfree <= |node|
    && (dummy ==> node == [EMPTY] && lastfree <= 0)
    && (!dummy ==> forall i :: 0 <= i < |node| && lastfree <= i ==> node[i].key != NilKey)
  }

  // getfreepos has found n.
  ghost predicate Frees(node: seq<Node>, dummy: bool, lastfree: int, n: nat) {
    && !dummy && n < |node| && node[n].key == NilKey && lastfree == n
    && forall i :: n < i < |node| ==> node[i].key != NilKey
  }

  lemma TableParts(hash: Hash, arr: seq<Value>, node: seq<Node>, order: seq<nat>, m: map<Key, Value>)
    requires TableOK(hash, arr, node, order, m)
    ensures Contains(arr, node, m) && Distinct(node) && Chained(hash, node, order) && 0 < |node|
    ensures LiveFirst(node, order) && |arr| <= MAXASIZE
  {
  }

  // ---------- chains ----------

  ghost function StartOf(hash: Hash, node: seq<Node>, order: seq<nat>, n: nat): (p: nat)
    requires Chained(hash, node, order) && n < |node| && node[n].key != NilKey
    ensures p < |order| && order[p] == n
  {
    assert Covered(node, order, n);
    var p :| 0 <= p < |order| && order[p] == n;
    p
  }

  lemma LinkStep(hash: Hash, node: seq<Node>, order: seq<nat>, p0: nat, p: nat)
    requires Chained(hash, node, order) && Linked(node, order, p0, p) && node[order[p]].next != NULL
    requires order[p] < |node|
    ensures p + 1 < |order| && node[order[p]].next == order[p + 1] && order[p + 1] < |node|
    ensures Linked(node, order, p0, p + 1)
  {
    assert LinkOK(node, order, p);
    assert LinkTo(node, order, p);
  }

  lemma NoKeyThere(hash: Hash, node: seq<Node>, order: seq<nat>, k: Key, n: nat)
    requires Chained(hash, node, order) && IsKey(k) && n == Main(hash, k, |node|) && node[n].key == NilKey
    ensures Absent(node, k)
  {
    forall i | 0 <= i < |node| ensures node[i].key != k {
      assert HomeTaken(hash, node, i);
    }
  }

  lemma LinkNotNull(node: seq<Node>, order: seq<nat>, a: nat, p: nat, q: nat)
    requires Linked(node, order, a, q) && a <= p < q
    ensures order[p] < |node| && node[order[p]].next != NULL
  {
    assert LinkTo(node, order, p);
  }

  // Whatever belongs to the main position is on the part of the chain that was walked.
  lemma NotInChain(hash: Hash, node: seq<Node>, order: seq<nat>, k: Key, p0: nat, p: nat)
    requires Chained(hash, node, order) && IsKey(k) && Linked(node, order, p0, p)
    requires order[p0] == Main(hash, k, |node|) && order[p] < |node| && node[order[p]].next == NULL
    requires forall q :: p0 <= q <= p ==> order[q] < |node| && node[order[q]].key != k
    ensures Absent(node, k)
  {
    forall i | 0 <= i < |node| ensures node[i].key != k {
      if node[i].key == k {
        assert Covered(node, order, i);
        var q :| 0 <= q < |order| && order[q] == i;
        assert Reached(hash, node, order, q);
        var a :| 0 <= a <= q && order[a] == Main(hash, node[order[q]].key, |node|) && Linked(node, order, a, q);
        if q > p {
          LinkNotNull(node, order, a, p, q);
        }
      }
    }
  }

  lemma StoredPresent(arr: seq<Value>, node: seq<Node>, m: map<Key, Value>, k: Key)
    requires Contains(arr, node, m) && !InArr(|arr|, k) && k in m
    ensures !Absent(node, k)
  {
    assert Stored(arr, node, k, m[k]);
  }

  lemma AbsentKey(arr: seq<Value>, node: seq<Node>, m: map<Key, Value>, k: Key)
    requires Contains(arr, node, m) && !InArr(|arr|, k) && Absent(node, k)
    ensures k !in m
  {
    if k in m {
      StoredPresent(arr, node, m, k);
    }
  }

  lemma SlotValue(arr: seq<Value>, node: seq<Node>, m: map<Key, Value>, k: Key, s: Slot)
    requires Contains(arr, node, m)
    requires s.NoSlot? ==> k !in m
    requires s.ArrSlot? ==> InArr(|arr|, k) && s.i == k.i - 1
    requires s.NodeSlot? ==> IsKey(k) && !InArr(|arr|, k) && s.i < |node| && node[s.i].key == k && Distinct(node)
    ensures var v := match s { case NoSlot => Nil case ArrSlot(i) => arr[i] case NodeSlot(i) => node[i].val };
            v == if k in m then m[k] else Nil
  {
    match s {
      case NoSlot =>
      case ArrSlot(i) =>
        assert SlotOK(m, arr[i], i);
        assert k in m ==> Stored(arr, node, k, m[k]);
      case NodeSlot(i) =>
        assert NodeOK(|arr|, m, node[i]);
        assert k in m ==> Stored(arr, node, k, m[k]);
    }
  }

  // Every key other than k has a value.
  ghost predicate LiveBut(node: seq<Node>, k: Key) {
    forall i :: 0 <= i < |node| && node[i].key != k ==> (node[i].key != NilKey <==> node[i].val != Nil)
  }

  ghost predicate AddsKey(node: seq<Node>, order: seq<nat>, node1: seq<Node>, order1: seq<nat>, k: Key) {
    |node1| == |node| && |order1| <= |order| + 1 && (AllLive(node) ==> LiveBut(node1, k))
  }

  lemma HomeOK(hash: Hash, arr: seq<Value>, node: seq<Node>, order: seq<nat>, m: map<Key, Value>, k: Key,
               mp: nat, lastfree: int)
    requires TableOK(hash, arr, node, order, m) && FreeOK(node, false, lastfree)
    requires IsKey(k) && !InArr(|arr|, k) && Absent(node, k)
    requires mp == Main(hash, k, |node|) && mp < |node| && node[mp].val == Nil
    ensures var node1, order1 := PutHome(node, mp, k), HomeOrder(node, order, mp);
      && TableOK(hash, arr, node1, order1, m) && FreeOK(node1, false, lastfree)
      && node1 == node[mp := node[mp].(key := k)] && node1[mp].key == k && AddsKey(node, order, node1, order1, k)
  {
    hide Chained, Contains, Distinct, Main, Rearranged, LiveFirst;
    PutHomeChained(hash, node, order, mp, k);
    HomeLiveFirst(hash, node, order, mp, k);
    HomeRearranged(node, mp, k);
    RearrangedContains(arr, node, PutHome(node, mp, k), m, k);
    HomeDistinct(node, mp, k);
  }

  ghost method BehindOK(hash: Hash, arr: seq<Value>, node: seq<Node>, order: seq<nat>, m: map<Key, Value>,
                        k: Key, mp: nat, n: nat)
    returns (order1: seq<nat>)
    requires TableOK(hash, arr, node, order, m) && IsKey(k) && !InArr(|arr|, k) && Absent(node, k)
    requires Frees(node, false, n, n) && mp < |node| && node[mp].key != NilKey
    requires mp == Main(hash, k, |node|) && Main(hash, node[mp].key, |node|) == mp && !node[mp].key.Dead?
    ensures var node1 := PutBehind(node, mp, n, k);
      && TableOK(hash, arr, node1, order1, m) && FreeOK(node1, false, n)
      && node1 == node[n := Node(k, Nil, node[mp].next)][mp := node[mp].(next := n)]
      && node1[n].key == k && AddsKey(node, order, node1, order1, k)
  {
    hide Contains, Distinct, Main, Rearranged, LiveFirst;
    var p := StartOf(hash, node, order, mp);
    assert Covered(node, order, n);
    order1 := BehindOrder(order, p, n);
    PutBehindChained(hash, node, order, mp, p, n, k);
    BehindLiveFirst(hash, node, order, mp, p, n, k);
    hide Chained, Absent;
    BehindRearranged(node, mp, n, k);
    RearrangedContains(arr, node, PutBehind(node, mp, n, k), m, k);
    BehindDistinct(node, mp, n, k);
  }

  lemma MovedOK(hash: Hash, arr: seq<Value>, node: seq<Node>, order: seq<nat>, m: map<Key, Value>, k: Key,
                mp: nat, pred: nat, q: nat, n: nat)
    requires TableOK(hash, arr, node, order, m) && IsKey(k) && !InArr(|arr|, k) && Absent(node, k)
    requires Frees(node, false, n, n) && mp < |node| && node[mp].key != NilKey
    requires mp == Main(hash, k, |node|) && Main(hash, node[mp].key, |node|) != mp
    requires 0 < q < |order| && order[q] == mp && order[q - 1] == pred && pred < |node| && node[pred].next == mp
    ensures var node1, order1 := PutMoved(node, mp, pred, n, k), MovedOrder(order, q, n);
      && TableOK(hash, arr, node1, order1, m) && FreeOK(node1, false, n)
      && node1 == node[pred := node[pred].(next := n)][n := node[mp]][mp := Node(k, Nil, NULL)]
      && node1[mp].key == k && pred != n && pred != mp && mp != n && AddsKey(node, order, node1, order1, k)
  {
    hide Contains, Distinct, Main, Rearranged, Reached, HomeTaken, LiveFirst;
    assert Covered(node, order, n);
    MovedFacts(hash, node, order, pred, mp, n);
    PutMovedChained(hash, node, order, mp, q, n, k);
    MovedLiveFirst(hash, node, order, mp, q, n, k);
    hide Chained, Absent;
    MovedRearranged(node, mp, pred, n, k);
    RearrangedContains(arr, node, PutMoved(node, mp, pred, n, k), m, k);
    MovedDistinct(node, mp, pred, n, k);
    MovedLive(node, mp, pred, n, k);
  }

  lemma MovedLive(node: seq<Node>, mp: nat, pred: nat, n: nat, k: Key)
    requires mp < |node| && n < |node| && pred < |node| && IsKey(k) && mp != n && pred != n && pred != mp
    ensures AllLive(node) ==> LiveBut(PutMoved(node, mp, pred, n, k), k)
    ensures forall i :: 0 <= i < |node| && node[i].key != NilKey ==>
              PutMoved(node, mp, pred, n, k)[i].key != NilKey || i == n
  {
    var node1 := PutMoved(node, mp, pred, n, k);
    assert forall i :: 0 <= i < |node| && i != n && i != mp ==>
        node1[i].key == node[i].key && node1[i].val == node[i].val;
    assert node1[n] == node[mp];
  }

  ghost method ChainOf(hash: Hash, node: seq<Node>, order: seq<nat>, mp: nat) returns (p: nat, q: nat)
    requires Chained(hash, node, order) && mp < |node| && node[mp].key != NilKey
    requires Main(hash, node[mp].key, |node|) != mp
    ensures p < q < |order| && order[p] == Main(hash, node[mp].key, |node|) && order[q] == mp
    ensures Linked(node, order, p, q)
  {
    q := StartOf(hash, node, order, mp);
    assert Reached(hash, node, order, q);
    p :| 0 <= p <= q && order[p] == Main(hash, node[order[q]].key, |node|) && Linked(node, order, p, q);
  }

  lemma WalkOn(hash: Hash, node: seq<Node>, order: seq<nat>, p: nat, q: nat, mp: nat)
    requires Chained(hash, node, order) && Linked(node, order, p, q) && p < q && order[q] == mp
    requires order[p] < |node| && node[order[p]].next != mp
    ensures p + 1 < q && node[order[p]].next == order[p + 1] && order[p + 1] < |node| && Linked(node, order, p + 1, q)
  {
    assert LinkTo(node, order, p);
  }

  lemma AtPrevious(hash: Hash, node: seq<Node>, order: seq<nat>, p: nat, q: nat, mp: nat)
    requires Chained(hash, node, order) && Linked(node, order, p, q) && p < q && order[q] == mp
    requires order[p] < |node| && node[order[p]].next == mp
    ensures p + 1 == q
  {
    assert LinkTo(node, order, p);
  }

  lemma MovedFacts(hash: Hash, node: seq<Node>, order: seq<nat>, pred: nat, mp: nat, n: nat)
    requires Chained(hash, node, order) && pred < |node| && node[pred].next == mp && n < |node| && node[n] == EMPTY
    ensures pred != n && pred != mp
  {
    assert Covered(node, order, pred);
    if node[pred].key != NilKey {
      var p :| 0 <= p < |order| && order[p] == pred;
      assert LinkOK(node, order, p);
    }
  }

  lemma FullTable(hash: Hash, arr: seq<Value>, node: seq<Node>, order: seq<nat>, m: map<Key, Value>)
    requires TableOK(hash, arr, node, order, m) && forall i :: 0 <= i < |node| ==> node[i].key != NilKey
    ensures |order| >= |node|
  {
    FullOrder(node, order);
  }

  lemma ValuedNode(arr: seq<Value>, node: seq<Node>, m: map<Key, Value>, i: nat)
    requires Contains(arr, node, m) && i < |node|
    ensures node[i].val != Nil ==> node[i].key != NilKey
  {
    assert NodeOK(|arr|, m, node[i]);
  }

  lemma FoundAdds(node: seq<Node>, order: seq<nat>, k: Key, i: nat)
    requires i < |node| && node[i].key == k
    ensures AddsKey(node, order, node, order, k)
  {
  }

  lemma StoreLive(node: seq<Node>, j: nat, k: Key, v: Value)
    requires j < |node| && node[j].key == k && IsKey(k) && Distinct(node)
    ensures LiveBut(node, k) && v != Nil ==> AllLive(node[j := node[j].(val := v)])
  {
  }

  lemma KillKeeps(hash: Hash, arr: seq<Value>, node: seq<Node>, order: seq<nat>, m: map<Key, Value>, i: nat)
    requires TableOK(hash, arr, node, order, m) && i < |node| && node[i].val == Nil && node[i].key.Ref?
    ensures TableOK(hash, arr, node[i := node[i].(key := Dead(node[i].key.id, node[i].key.pow2))], order, m)
  {
    var node1 := node[i := node[i].(key := Dead(node[i].key.id, node[i].key.pow2))];
    forall j | 0 <= j < |node| ensures SameLink(hash, node, node1, j) {
    }
    SameLinksChained(hash, node, node1, order);
    KillLiveFirst(node, node1, order, i);
    hide Chained, LiveFirst;
    forall q | q in m ensures Stored(arr, node1, q, m[q]) {
      assert Stored(arr, node, q, m[q]);
      if !InArr(|arr|, q) {
        var j :| 0 <= j < |node| && node[j].key == q && node[j].val == m[q];
        assert node1[j] == node[j];
      }
    }
    forall j | 0 <= j < |node1| ensures NodeOK(|arr|, m, node1[j]) {
      assert NodeOK(|arr|, m, node[j]);
    }
    assert forall j :: 0 <= j < |arr| ==> SlotOK(m, arr[j], j);
  }

  lemma Ordering(hash: Hash, arr: seq<Value>, node: seq<Node>, order: seq<nat>, m: map<Key, Value>)
    requires TableOK(hash, arr, node, order, m)
    ensures Ordered(node, order)
  {
  }

  lemma Assemble(hash: Hash, arr: seq<Value>, node: seq<Node>, order: seq<nat>, m: map<Key, Value>)
    requires Contains(arr, node, m) && Distinct(node) && Chained(hash, node, order) && LiveFirst(node, order)
    requires |arr| <= MAXASIZE
    ensures TableOK(hash, arr, node, order, m)
  {
  }

  lemma MovingKeys(m0: map<Key, Value>, m: map<Key, Value>, arr: seq<Value>, node: seq<Node>, i: nat, j: nat)
    requires Moving(m0, m, arr, node, i, j)
    ensures forall q :: q in m ==> q in m0
  {
  }

  // Where slice lg begins in an array part of the given size.
  function Before(lg: nat, size: nat): nat {
    if lg == 0 then 0 else if Pow2(lg - 1) < size then Pow2(lg - 1) else size
  }

  lemma BeforeNext(lg: nat, size: nat)
    ensures Before(lg + 1, size) == if Pow2(lg) > size then size else Pow2(lg)
    ensures Pow2(lg + 1) == 2 * Pow2(lg) && Before(lg, size) <= size && Before(lg, size) <= Pow2(lg)
  {
    if lg > 0 {
      Pow2Mono(lg - 1, lg);
    }
  }

  lemma InSlice(i: nat, lg: nat, size: nat)
    requires Before(lg, size) < i <= size && i <= Pow2(lg) && lg <= MAXBITS
    ensures CeilLog2(i) == lg && i <= MAXASIZE
  {
    CeilLog2Unique(i, lg);
    if lg > 0 {
      CeilLog2Unique(i, lg - 1);
    }
    Pow2Mono(lg, MAXBITS);
  }

  lemma NoArrKeys(arr: seq<Value>)
    ensures ArrKeys(arr, 1) == {}
  {
  }

  lemma AllArrKeys(arr: seq<Value>, lg: nat, i: nat)
    requires |arr| <= MAXASIZE && i == Before(lg, |arr|) + 1 && lg <= MAXBITS + 1 && (lg == MAXBITS + 1 || i > |arr|)
    ensures ArrKeys(arr, i) == ArrKeys(arr, |arr| + 1)
  {
    hide Pow2;
    BeforeNext(lg, |arr|);
  }

  lemma Pow2Zero()
    ensures Pow2(0) == 1
  {
  }

  lemma NoHashPart(node: seq<Node>)
    ensures HashPart(node, |node|) == {} && Ints(HashPart(node, |node|)) == {}
  {
  }

  lemma NewInt(arr: seq<Value>, k: Key, ks: set<nat>, hs: set<nat>)
    requires ks == ArrKeys(arr, |arr| + 1) && !InArr(|arr|, k) && (Countable(k) ==> k.i !in hs)
    ensures Countable(k) ==> k.i !in ks + hs && ks + (hs + {k.i}) == ks + hs + {k.i}
  {
    hide Pow2;
  }

  lemma EntriesCounted(arr: seq<Value>, node: seq<Node>, m: map<Key, Value>, nums: seq<nat>, nasize: nat, totaluse: nat)
    requires Contains(arr, node, m) && |arr| <= MAXASIZE
    requires var ks := ArrKeys(arr, |arr| + 1) + Ints(HashPart(node, 0)); Counts(nums, ks) && nasize == |ks|
    requires totaluse == |ArrKeys(arr, |arr| + 1)| + |HashPart(node, 0)|
    ensures Counts(nums, Ints(m.Keys)) && nasize == |Ints(m.Keys)| && totaluse == |m|
  {
    TotalUse(arr, node, m);
  }

  lemma ExtraRoom(m: map<Key, Value>, k: Key, n: nat)
    requires k !in m
    ensures |m.Keys + {k}| == |m| + 1
    ensures |set q | q in m.Keys + {k} && !InArr(n, q)| == |HashKeys(m, n)| + if InArr(n, k) then 0 else 1
  {
    var h := set q | q in m.Keys + {k} && !InArr(n, q);
    assert |m| == |m.Keys|;
    assert h == if InArr(n, k) then HashKeys(m, n) else HashKeys(m, n) + {k};
  }

  // ---------- sizes, borders and places ----------

  const MAX_INT: nat := 0x7FFF_FFFF

  lemma HashFits(hash: Hash, arr: seq<Value>, node: seq<Node>, order: seq<nat>, m: map<Key, Value>, nasize: nat)
    requires TableOK(hash, arr, node, order, m) && |arr| <= nasize
    ensures |HashKeys(m, nasize)| <= |node|
  {
    forall k | k in HashKeys(m, nasize) ensures exists i :: 0 <= i < |node| && node[i].key == k {
      assert Stored(arr, node, k, m[k]);
    }
    KeysFit(node, HashKeys(m, nasize), |node|);
  }

  lemma {:induction false} KeysFit(node: seq<Node>, ks: set<Key>, n: nat)
    requires n <= |node| && forall k :: k in ks ==> exists i :: 0 <= i < n && node[i].key == k
    ensures |ks| <= n
    decreases n
  {
    if n == 0 {
      assert ks == {};
    } else {
      var k0 := node[n - 1].key;
      KeysFit(node, ks - {k0}, n - 1);
      CardMono(ks, ks - {k0} + {k0});
    }
  }

  lemma DummyFits(arr: seq<Value>, node: seq<Node>, m: map<Key, Value>, nasize: nat)
    requires Contains(arr, node, m) && node == [EMPTY] && |arr| <= nasize
    ensures HashKeys(m, nasize) == {}
  {
    forall k | k in m ensures InArr(nasize, k) {
      assert Stored(arr, node, k, m[k]);
    }
  }

  lemma Present(arr: seq<Value>, node: seq<Node>, m: map<Key, Value>, k: Key)
    requires Contains(arr, node, m)
    ensures k in m ==> m[k] != Nil
  {
  }

  lemma FiniteRun(m: map<Key, Value>, i: nat)
    requires forall q :: 1 <= q <= i ==> Num(q) in m
    ensures i <= |m|
  {
    RunCard(i);
    NumsCard(Run(i));
    CardMono(Nums(Run(i)), m.Keys);
    assert |m| == |m.Keys|;
  }

  ghost function Run(i: nat): set<nat> { if i == 0 then {} else Run(i - 1) + {i} }

  lemma {:induction false} RunCard(i: nat)
    ensures |Run(i)| == i && forall q :: q in Run(i) <==> 1 <= q <= i
  {
    if i > 0 {
      RunCard(i - 1);
    }
  }

  lemma MaxSizeSmall()
    ensures MAXASIZE < MAX_INT
  {
    assert Pow2(13) == 8192;
    assert MAXASIZE == 8192 * 8192;
  }

  lemma ArrayBorder(arr: seq<Value>, node: seq<Node>, m: map<Key, Value>, i: nat)
    requires Contains(arr, node, m) && i < |arr| && arr[i] == Nil && (i == 0 || arr[i - 1] != Nil)
    ensures (i == 0 || Num(i) in m) && Num(i + 1) !in m
  {
    if i > 0 {
      assert SlotOK(m, arr[i - 1], i - 1);
    }
    assert Num(i + 1) in m ==> Stored(arr, node, Num(i + 1), m[Num(i + 1)]);
  }

  lemma DummyBorder(arr: seq<Value>, node: seq<Node>, m: map<Key, Value>)
    requires Contains(arr, node, m) && node == [EMPTY]
    ensures Num(|arr| + 1) !in m
  {
    assert Num(|arr| + 1) in m ==> Stored(arr, node, Num(|arr| + 1), m[Num(|arr| + 1)]);
  }

  // Key and value at a place of the traversal.
  function Entry(arr: seq<Value>, node: seq<Node>, i: nat): (Key, Value)
    requires i < |arr| + |node|
  {
    if i < |arr| then (Num(i + 1), arr[i]) else (node[i - |arr|].key, node[i - |arr|].val)
  }

  // Place i belongs to key k, or did before its object was collected.
  predicate At(arr: seq<Value>, node: seq<Node>, i: nat, k: Key)
    requires i < |arr| + |node|
  {
    var k1 := Entry(arr, node, i).0;
    k1 == k || (k.Ref? && k1 == Dead(k.id, k.pow2))
  }

  lemma EntryPresent(arr: seq<Value>, node: seq<Node>, m: map<Key, Value>, i: nat)
    requires Contains(arr, node, m) && i < |arr| + |node| && Entry(arr, node, i).1 != Nil
    ensures var e := Entry(arr, node, i); e.0 in m && m[e.0] == e.1 && IsKey(e.0)
  {
    if i < |arr| {
      assert SlotOK(m, arr[i], i);
    } else {
      assert NodeOK(|arr|, m, node[i - |arr|]);
    }
  }

  lemma PresentAt(arr: seq<Value>, node: seq<Node>, m: map<Key, Value>, k: Key, i: nat)
    requires Contains(arr, node, m) && Distinct(node) && i < |arr| + |node| && IsKey(k)
    requires if InArr(|arr|, k) then i == k.i - 1 else i >= |arr| && node[i - |arr|].key == k
    ensures k in m ==> Entry(arr, node, i) == (k, m[k])
  {
    if k in m {
      assert Stored(arr, node, k, m[k]);
    }
  }

  lemma NoOrder(node: seq<Node>)
    ensures LiveFirst(node, [])
  {
  }

  lemma HashKeysFewer(m: map<Key, Value>, n: nat)
    ensures |HashKeys(m, n)| <= |m|
  {
    CardMono(HashKeys(m, n), m.Keys);
    assert |m| == |m.Keys|;
  }

  /** A hash part that would become too large is larger than the old one, so no key has moved to
      the array part, which may have grown already: the table still holds its map. */
  lemma OverflowKeeps(hash: Hash, arr: seq<Value>, node: seq<Node>, order: seq<nat>, m: map<Key, Value>, n: nat, k: Key)
    requires TableOK(hash, arr, node, order, m) && n <= MAXASIZE && |node| <= MAXASIZE
    requires |HashKeys(m, |arr|)| <= |node| && MAXASIZE <= |HashKeys(m, n)|
    ensures TableOK(hash, if n > |arr| then Resized(arr, n) else arr, node, order, m)
  {
    if n > |arr| {
      OverflowMovesNothing(m, |arr|, n, MAXASIZE);
      GrownContains(arr, node, m, n);
    }
  }
}
