/** What clearing the weak tables (cleartable in lgc.c) does to a table and to the colours,
    given the set `live' of objects that marking reached. */
module GcClear {
  import opened GcHeap
  import opened GcMarks

  // A reference that has to leave a weak slot. Strings count as values and never leave.
  predicate DeadRef(h: Heap, live: set<Ref>, v: Value) {
    v.Obj? && v.ref in h && !h[v.ref].Str? && v.ref !in live
  }

  predicate EntryDies(h: Heap, live: set<Ref>, e: Entry) {
    e.val != Nil && (DeadRef(h, live, e.key) || DeadRef(h, live, e.val))
  }

  function ClearValue(h: Heap, live: set<Ref>, v: Value): Value {
    if DeadRef(h, live, v) then Nil else v
  }

  function ClearEntry(h: Heap, live: set<Ref>, e: Entry): Entry {
    if EntryDies(h, live, e) then Entry(e.key, Nil) else e
  }

  function ClearArr(h: Heap, live: set<Ref>, a: seq<Value>): seq<Value> {
    seq(|a|, i requires 0 <= i < |a| => ClearValue(h, live, a[i]))
  }

  function ClearNodes(h: Heap, live: set<Ref>, ns: seq<Entry>): seq<Entry> {
    seq(|ns|, i requires 0 <= i < |ns| => ClearEntry(h, live, ns[i]))
  }

  function ClearBody(h: Heap, live: set<Ref>, m: Mode, b: Body): Body
    requires b.Table?
  {
    b.(arr := if m.v then ClearArr(h, live, b.arr) else b.arr, nodes := ClearNodes(h, live, b.nodes))
  }

  /** A table that is cleared keeps its places, loses its weak values that died if values are weak, and loses
      the value of each entry of which the key or the value died. Strings never die. */
  lemma ClearBodyMeans(h: Heap, live: set<Ref>, m: Mode, b: Body)
    requires b.Table?
    ensures var b1 := ClearBody(h, live, m, b);
            && b1.Table? && b1.meta == b.meta && b1.mode == b.mode && |b1.arr| == |b.arr| && |b1.nodes| == |b.nodes|
            && (forall i :: 0 <= i < |b.arr| ==>
                  var v := b.arr[i];
                  b1.arr[i] == if m.v && v.Obj? && v.ref in h && !h[v.ref].Str? && v.ref !in live then Nil else v)
            && (forall i :: 0 <= i < |b.nodes| ==>
                  var k, v := b.nodes[i].key, b.nodes[i].val;
                  b1.nodes[i] ==
                  if v != Nil && ((k.Obj? && k.ref in h && !h[k.ref].Str? && k.ref !in live)
                                  || (v.Obj? && v.ref in h && !h[v.ref].Str? && v.ref !in live))
                  then Entry(k, Nil) else b.nodes[i])
  {
  }

  // Looking at an entry marks the strings in it, up to the first reference that dies.
  predicate EntrySaves(h: Heap, live: set<Ref>, e: Entry, r: Ref) {
    e.val != Nil && (e.key == Obj(r) || (e.val == Obj(r) && !DeadRef(h, live, e.key)))
  }

  predicate TableSaves(h: Heap, live: set<Ref>, m: Mode, b: Body, r: Ref)
    requires b.Table?
  {
    (m.v && Obj(r) in b.arr) || exists e :: e in b.nodes && EntrySaves(h, live, e, r)
  }

  // Colours after the strings in `saved' have been looked at.
  function SaveStrings(h: Heap, c: Colors, saved: set<Ref>): Colors {
    map r | r in c :: if r in saved && r in h && h[r].Str? && IsWhite(c[r]) then Gray else c[r]
  }

  function Live(c: Colors): set<Ref> { set r | r in c && !IsWhite(c[r]) }

  predicate SameKinds(h: Heap, h1: Heap) {
    h1.Keys == h.Keys && forall r :: r in h ==> h1[r].Str? == h[r].Str?
  }

  lemma SaveMore(h: Heap, c: Colors, saved: set<Ref>, r: Ref)
    requires r in c && r in h && h[r].Str?
    ensures var c1 := SaveStrings(h, c, saved);
            SaveStrings(h, c, saved + {r}) == if IsWhite(c1[r]) then c1[r := Gray] else c1
  {
  }

  function ClearedHeap(h: Heap, live: set<Ref>, bits: map<Ref, Mode>, list: seq<Ref>): Heap {
    map x | x in h :: if x in list && x in bits && h[x].Table? then ClearBody(h, live, bits[x], h[x]) else h[x]
  }

  ghost predicate ListSaves(h: Heap, live: set<Ref>, bits: map<Ref, Mode>, list: seq<Ref>, r: Ref) {
    exists x :: x in list && x in bits && x in h && h[x].Table? && TableSaves(h, live, bits[x], h[x], r)
  }

  lemma ClearedStep(h: Heap, live: set<Ref>, bits: map<Ref, Mode>, list: seq<Ref>, o: Ref)
    requires o !in list && o in h && h[o].Table? && o in bits
    ensures ClearedHeap(h, live, bits, list)[o] == h[o]
    ensures ClearedHeap(h, live, bits, list + [o]) ==
            ClearedHeap(h, live, bits, list)[o := ClearBody(h, live, bits[o], h[o])]
    ensures SameKinds(h, ClearedHeap(h, live, bits, list))
    ensures forall r :: ListSaves(h, live, bits, list + [o], r) <==>
              ListSaves(h, live, bits, list, r) || TableSaves(h, live, bits[o], h[o], r)
  {
    forall r | ListSaves(h, live, bits, list, r) || TableSaves(h, live, bits[o], h[o], r)
      ensures ListSaves(h, live, bits, list + [o], r)
    {
      if TableSaves(h, live, bits[o], h[o], r) {
        assert o in list + [o];
      } else {
        var x :| x in list && x in bits && x in h && h[x].Table? && TableSaves(h, live, bits[x], h[x], r);
        assert x in list + [o];
      }
    }
  }

  lemma ClearedNothing(h: Heap, c: Colors, live: set<Ref>, bits: map<Ref, Mode>)
    ensures ClearedHeap(h, live, bits, []) == h && SaveStrings(h, c, {}) == c
    ensures forall r :: !ListSaves(h, live, bits, [], r)
  {
  }

  lemma Tail<T>(a: seq<T>, i: nat)
    requires i < |a|
    ensures a[i..] == [a[i]] + a[i + 1..]
  {
  }

  // Replacing a sequence by another from the right, one position at a time.
  lemma ReplaceOne<T>(a: seq<T>, c: seq<T>, i: nat)
    requires |a| == |c| && i < |a|
    ensures |a[..i + 1] + c[i + 1..]| == |a| && (a[..i + 1] + c[i + 1..])[i] == a[i]
    ensures (a[..i + 1] + c[i + 1..])[i := c[i]] == a[..i] + c[i..]
    ensures a[i] == c[i] ==> a[..i + 1] + c[i + 1..] == a[..i] + c[i..]
  {
  }

  // The references in the live slots of a table.
  ghost predicate SlotsIn(b: Body, h: Heap)
    requires b.Table?
  {
    && (forall v :: v in b.arr && v.Obj? ==> v.ref in h)
    && (forall e :: e in b.nodes && e.val != Nil ==>
          (e.key.Obj? ==> e.key.ref in h) && (e.val.Obj? ==> e.val.ref in h))
  }

  // ---------- the marked part is closed again ----------

  // Everything marked has had what it keeps marked, and each gray table is on the list.
  ghost predicate Traversed(m: State, bits: map<Ref, Mode>) {
    && m.c.Keys == m.h.Keys && HeapClosed(m.h)
    && (forall x :: IsMarked(m.c, x) ==> Settled(m.h, m.c, x))
    && (forall x, r :: IsMarked(m.c, x) && m.c[x] == Black && Holds(m.h, m.h[x], r) ==> IsMarked(m.c, r))
    && (forall x :: IsMarked(m.c, x) && m.c[x] != Black && m.h[x].Table? ==> x in m.weak)
    && BitsOK(m.h, m.weak, bits, {})
    && (forall x :: x in m.weak ==> IsMarked(m.c, x) && m.c[x] != Black)
  }

  predicate Survives(h: Heap, c: Colors, saved: set<Ref>, r: Ref) {
    IsMarked(c, r) || (r in c && r in h && h[r].Str? && r in saved)
  }

  lemma ClearedEntrySurvives(m: State, saved: set<Ref>, e: Entry, r: Ref)
    requires m.c.Keys == m.h.Keys
    requires e.val != Nil && (e.key == Obj(r) || e.val == Obj(r)) && r in m.h
    requires !EntryDies(m.h, Live(m.c), e)
    requires forall q :: EntrySaves(m.h, Live(m.c), e, q) ==> q in saved
    ensures Survives(m.h, m.c, saved, r)
  {
    assert EntrySaves(m.h, Live(m.c), e, r);
  }

  /** After clearing, a marked table holds, weakly or not, only what survives. */
  lemma ClearedTableHolds(m: State, bits: map<Ref, Mode>, saved: set<Ref>, x: Ref, r: Ref)
    requires Traversed(m, bits) && x in m.weak
    requires forall q :: ListSaves(m.h, Live(m.c), bits, m.weak, q) ==> q in saved
    requires Holds(m.h, ClearBody(m.h, Live(m.c), bits[x], m.h[x]), r)
    ensures Survives(m.h, m.c, saved, r)
  {
    var b, live := m.h[x], Live(m.c);
    var b1 := ClearBody(m.h, live, bits[x], b);
    assert forall q :: TableSaves(m.h, live, bits[x], b, q) ==> ListSaves(m.h, live, bits, m.weak, q);
    assert Settled(m.h, m.c, x);
    if b.meta == Obj(r) {
      assert Keeps(m.h, b, r);
    } else if Obj(r) in b1.arr {
      var i :| 0 <= i < |b1.arr| && b1.arr[i] == Obj(r);
      assert b.arr[i] == Obj(r) && b.arr[i] in b.arr;
      assert Holds(m.h, b, r);
      if !bits[x].v {
        assert Keeps(m.h, b, r);
      }
    } else {
      var e :| e in b1.nodes && EntryRefers(e, STRONG, r);
      var i :| 0 <= i < |b1.nodes| && b1.nodes[i] == e;
      assert b.nodes[i] == e && b.nodes[i] in b.nodes;
      assert Holds(m.h, b, r);
      forall q | EntrySaves(m.h, live, e, q) ensures q in saved {
        assert TableSaves(m.h, live, bits[x], b, q);
      }
      ClearedEntrySurvives(m, saved, e, r);
    }
  }

  /** The objects that survive clearing hold only objects that survive it. */
  lemma SurvivorsClosed(m: State, bits: map<Ref, Mode>, saved: set<Ref>, x: Ref, r: Ref)
    requires Traversed(m, bits)
    requires forall q :: ListSaves(m.h, Live(m.c), bits, m.weak, q) ==> q in saved
    requires Survives(m.h, m.c, saved, x)
    requires var h1 := ClearedHeap(m.h, Live(m.c), bits, m.weak); Holds(h1, h1[x], r)
    ensures Survives(m.h, m.c, saved, r)
  {
    var h1 := ClearedHeap(m.h, Live(m.c), bits, m.weak);
    if x in m.weak {
      assert h1[x] == ClearBody(m.h, Live(m.c), bits[x], m.h[x]);
      ClearedTableHolds(m, bits, saved, x, r);
    } else {
      assert h1[x] == m.h[x];
      assert Holds(m.h, m.h[x], r);
      if m.c[x] != Black {
        assert Keeps(m.h, m.h[x], r);
      }
    }
  }
}
