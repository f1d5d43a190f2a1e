/** What the mutator stores where: through barriers into objects, without one into stacks and
    roots; and rearranging the string table (luaS_resize). */
module GcStores {
  import opened Basics
  import opened GcHeap
  import opened GcMarks
  import opened GcInv
  import opened GcMutate
  import opened GcFree

  // ---------- stacks ----------

  function SetSlot(h: Heap, th: Ref, idx: nat, v: Value): Body
    requires th in h && h[th].Thread? && idx < |h[th].stack|
  {
    h[th].(stack := h[th].stack[idx := v])
  }

  lemma SetSlotHolds(h: Heap, th: Ref, idx: nat, v: Value, x: Ref, r: Ref)
    requires th in h && h[th].Thread? && idx < |h[th].stack| && x in h
    requires var h1 := h[th := SetSlot(h, th, idx, v)]; Holds(h1, h1[x], r)
    ensures Holds(h, h[x], r) || v == Obj(r)
  {
    var h1 := h[th := SetSlot(h, th, idx, v)];
    if x == th && h[th].gt != Obj(r) {
      var i :| 0 <= i < |h1[th].stack| && h1[th].stack[i] == Obj(r);
      assert i != idx ==> h[th].stack[i] in h[th].stack;
    } else if x != th && !IsOpen(h[x]) {
      HoldsLocal(h, h1, h[x], r);
    }
  }

  lemma SetSlotKind(w: World, th: Ref, idx: nat, v: Value)
    requires Shape(w) && th in w.m.h && w.m.h[th].Thread? && idx < |w.m.h[th].stack|
    ensures SameKind(w.m.h, w.m.h[th], SetSlot(w.m.h, th, idx, v))
  {
    assert OpenListOK(w.m.h, th);
  }

  lemma SetSlotLinked(w: World, th: Ref, idx: nat, v: Value)
    requires Linked(w) && th in w.m.h && w.m.h[th].Thread? && idx < |w.m.h[th].stack| && ValueAlive(w, v)
    ensures Linked(SetBody(w, th, SetSlot(w.m.h, th, idx, v)))
  {
    var w1 := SetBody(w, th, SetSlot(w.m.h, th, idx, v));
    assert forall r :: IsAlive(w1, r) <==> IsAlive(w, r);
    assert forall r :: IsRoot(w1, r) <==> IsRoot(w, r);
    forall x, r | IsAlive(w1, x) && Holds(w1.m.h, w1.m.h[x], r) ensures IsAlive(w1, r) {
      SetSlotHolds(w.m.h, th, idx, v, x, r);
    }
  }

  lemma SetSlotTri(m: State, th: Ref, idx: nat, v: Value)
    requires Tri(m, {}) && th in m.h && m.h[th].Thread? && idx < |m.h[th].stack|
    requires v.Obj? ==> v.ref in m.h
    ensures Tri(m.(h := m.h[th := SetSlot(m.h, th, idx, v)]), {})
  {
    var m1 := m.(h := m.h[th := SetSlot(m.h, th, idx, v)]);
    forall x, r | x in m1.h && Holds(m1.h, m1.h[x], r) ensures r in m1.h && (Holds(m.h, m.h[x], r) || v == Obj(r)) {
      SetSlotHolds(m.h, th, idx, v, x, r);
    }
    SetSlotColors(m, th, idx, v);
    SetSlotClosed(m.h, th, idx, v);
    hide Holds, HeapClosed, ColorsOK;
    ListsKept(m, m1, {});
  }

  lemma SetSlotClosed(h: Heap, th: Ref, idx: nat, v: Value)
    requires HeapClosed(h) && th in h && h[th].Thread? && idx < |h[th].stack| && (v.Obj? ==> v.ref in h)
    ensures HeapClosed(h[th := SetSlot(h, th, idx, v)])
  {
    var h1 := h[th := SetSlot(h, th, idx, v)];
    forall x, r | x in h1 && Holds(h1, h1[x], r) ensures r in h1 {
      SetSlotHolds(h, th, idx, v, x, r);
    }
  }

  // Neither a thread nor an open upvalue is ever black.
  lemma SetSlotColors(m: State, th: Ref, idx: nat, v: Value)
    requires m.c.Keys == m.h.Keys && ColorsOK(m, {})
    requires th in m.h && m.h[th].Thread? && idx < |m.h[th].stack|
    ensures ColorsOK(m.(h := m.h[th := SetSlot(m.h, th, idx, v)]), {})
  {
    var m1 := m.(h := m.h[th := SetSlot(m.h, th, idx, v)]);
    forall x | x in m1.h ensures ColorOK(m1, x) {
      assert ColorOK(m, x);
      if x != th && !IsOpen(m.h[x]) {
        forall r ensures Holds(m1.h, m1.h[x], r) <==> Holds(m.h, m.h[x], r) {
          HoldsLocal(m.h, m1.h, m.h[x], r);
        }
      }
    }
  }

  lemma SetSlotPhase(w: World, th: Ref, idx: nat, v: Value)
    requires PhaseOK(w) && Shape(w) && th in w.m.h && w.m.h[th].Thread? && idx < |w.m.h[th].stack| && ValueAlive(w, v)
    ensures PhaseOK(SetBody(w, th, SetSlot(w.m.h, th, idx, v)))
  {
    hide StringsOK, RootgcOK, OpenOK, RootsOK, Tri;
    if w.phase == Propagate {
      SetSlotTri(w.m, th, idx, v);
    }
  }

  /** A store into a stack slot needs no barrier, even when it goes through an open upvalue
      whose thread is dead already. */
  lemma StackStoreKeepsInv(w: World, th: Ref, idx: nat, v: Value)
    requires Inv(w) && th in w.m.h && w.m.h[th].Thread? && idx < |w.m.h[th].stack| && ValueAlive(w, v)
    ensures Inv(SetBody(w, th, SetSlot(w.m.h, th, idx, v)))
  {
    hide Shape, Linked, PhaseOK, SameKind, SetSlot;
    SetSlotKind(w, th, idx, v);
    StoreShape(w, th, SetSlot(w.m.h, th, idx, v));
    SetSlotLinked(w, th, idx, v);
    SetSlotPhase(w, th, idx, v);
  }

  // ---------- objects ----------

  // The new body refers to nothing but what the old one did and the key and value stored. (Where there is
  // no key, k is the value again.)
  ghost predicate Stores(h: Heap, o: Ref, b: Body, k: Value, v: Value) {
    && o in h && !h[o].Thread? && !IsOpen(h[o]) && SameKind(h, h[o], b)
    && forall r :: Holds(h, b, r) ==> Holds(h, h[o], r) || k == Obj(r) || v == Obj(r)
  }

  lemma StoresAlive(w: World, o: Ref, b: Body, k: Value, v: Value)
    requires Linked(w) && IsAlive(w, o) && Stores(w.m.h, o, b, k, v) && ValueAlive(w, k) && ValueAlive(w, v)
    ensures RefsAlive(w, b) && SameKind(w.m.h, w.m.h[o], b)
  {
  }

  predicate BarrierNeeded(c: Colors, o: Ref, v: Value) {
    v.Obj? && v.ref in c && IsWhite(c[v.ref]) && o in c && c[o] == Black
  }

  lemma NoBarrierStore(w: World, o: Ref, b: Body, k: Value, v: Value)
    requires Inv(w) && IsAlive(w, o) && Stores(w.m.h, o, b, k, v) && ValueAlive(w, k) && ValueAlive(w, v)
    requires !BarrierNeeded(w.m.c, o, k) && !BarrierNeeded(w.m.c, o, v)
    ensures Inv(SetBody(w, o, b))
  {
    hide Inv, Linked, Holds;
    InvParts(w);
    StoresAlive(w, o, b, k, v);
    if w.phase == Propagate && w.m.c[o] == Black {
      BlackHolds(w, o);
      StoredMarked(w, o, b, k);
      StoredMarked(w, o, b, v);
    }
    hide SameKind;
    PlainStore(w, o, b);
  }

  // What a black object may store without a barrier is marked.
  lemma StoredMarked(w: World, o: Ref, b: Body, v: Value)
    requires Inv(w) && w.phase == Propagate && o in w.m.c && w.m.c[o] == Black && ValueAlive(w, v)
    requires !BarrierNeeded(w.m.c, o, v)
    ensures v.Obj? ==> IsMarked(w.m.c, v.ref)
  {
  }

  lemma InvParts(w: World)
    requires Inv(w)
    ensures Linked(w) && w.m.c.Keys == w.m.h.Keys
  {
  }

  lemma BlackHolds(w: World, o: Ref)
    requires Inv(w) && w.phase == Propagate && o in w.m.h && o in w.m.c && w.m.c[o] == Black
    ensures forall r :: Holds(w.m.h, w.m.h[o], r) ==> IsMarked(w.m.c, r)
  {
    assert ColorOK(w.m, o);
  }

  function BarrierBack(w: World, t: Ref): World {
    SetMarks(w, w.m.(c := w.m.c[t := Gray], grayagain := [t] + w.m.grayagain))
  }

  /** A store into a black table, followed by the backward barrier. */
  lemma BackStoreKeepsInv(w: World, t: Ref, b: Body, k: Value, v: Value)
    requires Inv(w) && IsAlive(w, t) && Stores(w.m.h, t, b, k, v) && ValueAlive(w, k) && ValueAlive(w, v)
    requires w.m.h[t].Table? && (BarrierNeeded(w.m.c, t, k) || BarrierNeeded(w.m.c, t, v))
    ensures Inv(BarrierBack(SetBody(w, t, b), t))
  {
    var w1 := BarrierBack(w, t);
    InvParts(w);
    StoresAlive(w, t, b, k, v);
    BarrierBackKeepsInv(w, t);
    hide Inv, Linked, Holds, SameKind;
    assert forall r :: IsAlive(w1, r) <==> IsAlive(w, r) by {
      BackAlive(w, t);
    }
    PlainStore(w1, t, b);
    assert SetBody(w1, t, b) == BarrierBack(SetBody(w, t, b), t);
  }

  lemma BackAlive(w: World, t: Ref)
    requires Linked(w) && t in w.m.c && w.m.c[t] == Black
    ensures forall r :: IsAlive(BarrierBack(w, t), r) <==> IsAlive(w, r)
  {
  }

  /** Outside the mark phase the forward barrier turns the object stored into white. */
  lemma ForwardWhiteStoreKeepsInv(w: World, o: Ref, b: Body, v: Value)
    requires Inv(w) && w.phase != Propagate && IsAlive(w, o) && Stores(w.m.h, o, b, v, v) && ValueAlive(w, v)
    requires BarrierNeeded(w.m.c, o, v)
    ensures Inv(SetBody(SetMarks(w, w.m.(c := w.m.c[o := w.white])), o, b))
  {
    var w1 := SetMarks(w, w.m.(c := w.m.c[o := w.white]));
    InvParts(w);
    StoresAlive(w, o, b, v, v);
    BarrierWhiteKeepsInv(w, o);
    assert w.white != Flip(w.white);
    hide Inv, Linked, Holds, SameKind;
    assert forall r :: IsAlive(w1, r) <==> IsAlive(w, r);
    PlainStore(w1, o, b);
  }

  /** In the mark phase it marks what was stored: until then only `o' is out of order. */
  lemma ForwardStoreStarts(w: World, o: Ref, b: Body, v: Value)
    requires Inv(w) && w.phase == Propagate && IsAlive(w, o) && Stores(w.m.h, o, b, v, v) && ValueAlive(w, v)
    requires BarrierNeeded(w.m.c, o, v) && !w.m.h[o].Table?
    ensures var w1 := SetBody(w, o, b);
      && Shape(w1) && Linked(w1) && MarkPhase(w1)
      && Marking(w1.m, {o}, w1.m.h.Keys, w1.m.h.Keys) && !Listed(w1.m, o)
      && !b.Str? && !b.Thread? && !IsOpen(b) && !b.Table?
      && forall r :: Keeps(w1.m.h, b, r) ==> IsMarked(w1.m.c, r) || v == Obj(r)
  {
    var w1 := SetBody(w, o, b);
    InvParts(w);
    StoresAlive(w, o, b, v, v);
    BlackHolds(w, o);
    BlackKind(w, o, b);
    StoreShape(w, o, b);
    StoreLinked(w, o, b);
    StoreExempt(w, o, b);
    hide Inv, Linked, Shape, SameKind, Tri;
    KeysClosed(w1.m, {o});
    forall r | Keeps(w1.m.h, b, r) ensures IsMarked(w1.m.c, r) || v == Obj(r) {
      KeepsHolds(w1.m.h, b, r);
      HoldsLocal(w.m.h, w1.m.h, b, r);
    }
  }

  lemma BlackKind(w: World, o: Ref, b: Body)
    requires Inv(w) && w.phase == Propagate && o in w.m.h && w.m.c[o] == Black && SameKind(w.m.h, w.m.h[o], b)
    ensures !b.Str? && !b.Thread? && !IsOpen(b) && (!w.m.h[o].Table? ==> !b.Table?)
  {
    assert ColorOK(w.m, o);
  }

  lemma StoreExempt(w: World, o: Ref, b: Body)
    requires Inv(w) && w.phase == Propagate && o in w.m.h && w.m.c[o] == Black && SameKind(w.m.h, w.m.h[o], b)
    requires RefsAlive(w, b)
    ensures Tri(SetBody(w, o, b).m, {o}) && MarkPhase(SetBody(w, o, b)) && !Listed(w.m, o)
  {
    hide StringsOK, RootgcOK, OpenOK, RootsOK, Linked, SameKind;
    StoreTri(w.m, o, b);
  }

  lemma ExemptDone(m: State, o: Ref, v: Value)
    requires Marking(m, {o}, m.h.Keys, m.h.Keys) && !Listed(m, o) && o in m.h && o in m.c && m.c[o] == Black
    requires !m.h[o].Str? && !m.h[o].Thread? && !IsOpen(m.h[o]) && !m.h[o].Table?
    requires forall r :: Keeps(m.h, m.h[o], r) ==> IsMarked(m.c, r) || v == Obj(r)
    requires v.Obj? ==> IsMarked(m.c, v.ref)
    ensures Tri(m, {})
  {
    assert {} + {o} == {o};
    EndBlack(m, o, {}, m.h.Keys, m.h.Keys);
  }

  // ---------- roots ----------

  ghost predicate RootsMoved(w: World, w1: World) {
    && w1 == w.(running := w1.running, mt := w1.mt)
    && (forall r :: IsRoot(w1, r) ==> IsAlive(w, r))
    && w1.running in w.m.h && w.m.h[w1.running].Thread?
  }

  /** The basic metatables and the running thread may change at any time: the atomic step
      looks at them again. */
  lemma RootStoreKeepsInv(w: World, w1: World)
    requires Inv(w) && RootsMoved(w, w1)
    ensures Inv(w1)
  {
    hide StringsOK, RootgcOK, OpenOK;
    assert forall r :: IsAlive(w1, r) <==> IsAlive(w, r);
  }

  function FixString(w: World, o: Ref): World { w.(fixed := w.fixed + {o}) }

  lemma FixStringKeepsInv(w: World, o: Ref)
    requires Inv(w) && IsAlive(w, o) && w.m.h[o].Str?
    ensures Inv(FixString(w, o))
  {
    hide StringsOK, RootgcOK, OpenOK;
    assert forall r :: IsAlive(FixString(w, o), r) <==> IsAlive(w, r);
    assert forall r :: IsRoot(FixString(w, o), r) <==> IsRoot(w, r);
  }

  // ---------- the string table ----------

  // The strings in `done' have been moved to the new table.
  ghost predicate Rehashing(h: Heap, strt: seq<seq<Ref>>, done: set<Ref>) {
    && 0 < |strt| && Hashed(h, strt)
    && (forall x :: x in done <==> InStrt(strt, x))
    && (forall b :: b in strt ==> NoDup(b))
  }

  lemma RehashOne(h: Heap, strt: seq<seq<Ref>>, done: set<Ref>, x: Ref)
    requires Rehashing(h, strt, done) && x in h && h[x].Str? && x !in done
    ensures var i := HashOf(h[x].text) % |strt|;
            Rehashing(h, strt[i := [x] + strt[i]], done + {x})
  {
    hide HashOf;
    var i := HashOf(h[x].text) % |strt|;
    var s1 := strt[i := [x] + strt[i]];
    InBucket(strt, x);
    forall y ensures InStrt(s1, y) <==> y in done || y == x {
      InBucket(strt, y);
      InBucket(s1, y);
      assert s1[i] == [x] + strt[i];
      if y == x {
        assert x in s1[i];
      } else {
        assert forall k :: 0 <= k < |strt| ==> (y in s1[k] <==> y in strt[k]);
      }
    }
    forall b | b in s1 ensures NoDup(b) {
      assert strt[i] in strt;
    }
  }

  lemma RehashStart(h: Heap, n: nat)
    requires 0 < n
    ensures Rehashing(h, seq(n, _ => []), {})
  {
    var s: seq<seq<Ref>> := seq(n, _ => []);
    forall x ensures !InStrt(s, x) {
      InBucket(s, x);
    }
  }

  lemma RehashDone(w: World, strt: seq<seq<Ref>>, done: set<Ref>)
    requires Inv(w) && w.phase != SweepString && Rehashing(w.m.h, strt, done)
    requires forall x :: x in done <==> InStrt(w.strt, x)
    ensures Inv(w.(strt := strt))
  {
    var w1 := w.(strt := strt);
    hide Shape, Linked, StringsSwept, RootsSwept, Tri, HashOf, Rehashing, InStrt;
    RehashShape(w, strt, done);
    SameLinked(w, w1);
    if w.phase == Sweep {
      RehashSwept(w, strt, done);
    }
  }

  lemma RehashShape(w: World, strt: seq<seq<Ref>>, done: set<Ref>)
    requires Shape(w) && Rehashing(w.m.h, strt, done) && forall x :: x in done <==> InStrt(w.strt, x)
    ensures Shape(w.(strt := strt))
  {
    hide StringsOK, RootgcOK, OpenOK, Rehashing, InStrt;
    RehashStrings(w, strt, done);
  }

  lemma SameLinked(w: World, w1: World)
    requires Linked(w) && w1 == w.(strt := w1.strt)
    ensures Linked(w1)
  {
    assert forall r :: IsAlive(w1, r) <==> IsAlive(w, r);
    assert forall r :: IsRoot(w1, r) <==> IsRoot(w, r);
  }

  lemma RehashStrings(w: World, strt: seq<seq<Ref>>, done: set<Ref>)
    requires Shape(w) && Rehashing(w.m.h, strt, done) && forall x :: x in done <==> InStrt(w.strt, x)
    ensures StringsOK(w.m.h, strt) && 0 < |strt|
  {
    hide HashOf;
    forall i, j | 0 <= i < j < |strt| ensures Disjoint(strt[i], strt[j]) {
      forall r | r in strt[i] ensures r !in strt[j] {
        assert HashOf(w.m.h[r].text) % |strt| == i;
      }
    }
  }

  lemma RehashSwept(w: World, strt: seq<seq<Ref>>, done: set<Ref>)
    requires StringsSwept(w.m.c, w.white, w.strt, |w.strt|) && Rehashing(w.m.h, strt, done)
    requires forall x :: x in done <==> InStrt(w.strt, x)
    ensures StringsSwept(w.m.c, w.white, strt, |strt|)
  {
    forall i | 0 <= i < |strt| ensures BucketSwept(w.m.c, w.white, strt[i]) {
      forall x | x in strt[i] ensures IsSwept(w.m.c, w.white, x) {
        assert strt[i] in strt && InStrt(strt, x);
        InBucket(w.strt, x);
        var j :| 0 <= j < |w.strt| && x in w.strt[j];
        assert BucketSwept(w.m.c, w.white, w.strt[j]);
      }
    }
  }

  lemma TableSize(w: World)
    requires Inv(w)
    ensures 0 < |w.strt|
  {
  }

  lemma BucketTexts(w: World, i: nat, j: nat)
    requires Inv(w) && i < |w.strt| && j < |w.strt[i]|
    ensures w.strt[i][j] in w.m.h && w.m.h[w.strt[i][j]].Str?
  {
    assert w.strt[i][j] in w.strt[i];
    hide HashOf;
  }

  lemma OnlyText(w: World, o: Ref)
    requires Inv(w) && o in w.m.h && w.m.h[o].Str?
    ensures forall x :: x in w.m.h && w.m.h[x] == w.m.h[o] ==> x == o
  {
    hide HashOf, Linked;
  }

  lemma TextIsNew(w: World, i: nat, text: seq<char>)
    requires Inv(w) && i < |w.strt| && i == HashOf(text) % |w.strt|
    requires forall k :: 0 <= k < |w.strt[i]| ==> w.strt[i][k] in w.m.h && w.m.h[w.strt[i][k]] != Str(text)
    ensures NewText(w.m.h, w.strt, i, text)
    ensures forall x :: x in w.m.h ==> w.m.h[x] != Str(text)
  {
    hide HashOf, Linked;
    forall x | x in w.m.h && w.m.h[x].Str? ensures w.m.h[x].text != text {
      InBucket(w.strt, x);
      var j :| 0 <= j < |w.strt| && x in w.strt[j];
      var k :| 0 <= k < |w.strt[j]| && w.strt[j][k] == x;
    }
  }

  ghost predicate InBuckets(strt: seq<seq<Ref>>, n: nat, x: Ref) {
    exists i :: 0 <= i < n && i < |strt| && x in strt[i]
  }

  ghost predicate Moved(strt: seq<seq<Ref>>, n: nat, done: set<Ref>) {
    forall x :: x in done <==> InBuckets(strt, n, x)
  }

  ghost predicate SameStrings(s0: seq<seq<Ref>>, s1: seq<seq<Ref>>) {
    forall x :: InStrt(s1, x) <==> InStrt(s0, x)
  }

  lemma NoBuckets(strt: seq<seq<Ref>>)
    ensures Moved(strt, 0, {})
  {
  }

  lemma AllMoved(w: World, strt: seq<seq<Ref>>, done: set<Ref>)
    requires Inv(w) && w.phase != SweepString && Rehashing(w.m.h, strt, done)
    requires Moved(w.strt, |w.strt|, done)
    ensures Inv(w.(strt := strt)) && SameStrings(w.strt, strt)
  {
    hide Inv, Rehashing, InStrt, InBuckets;
    AllBuckets(w.strt);
    RehashingIn(w.m.h, strt, done);
    RehashDone(w, strt, done);
  }

  lemma AllBuckets(strt: seq<seq<Ref>>)
    ensures forall x :: InBuckets(strt, |strt|, x) <==> InStrt(strt, x)
  {
    forall x ensures InBuckets(strt, |strt|, x) <==> InStrt(strt, x) {
      InBucket(strt, x);
    }
  }

  lemma RehashingIn(h: Heap, strt: seq<seq<Ref>>, done: set<Ref>)
    requires Rehashing(h, strt, done)
    ensures forall x :: x in done <==> InStrt(strt, x)
  {
  }

  lemma NotInBefore(w: World, i: nat, j: nat)
    requires Inv(w) && i < |w.strt| && j < |w.strt[i]|
    ensures !InBuckets(w.strt, i, w.strt[i][j]) && w.strt[i][j] !in w.strt[i][..j]
  {
    var x := w.strt[i][j];
    assert w.strt[i] in w.strt && x in w.strt[i] && NoDup(w.strt[i]);
    forall k | 0 <= k < i ensures x !in w.strt[k] {
      assert Disjoint(w.strt[k], w.strt[i]);
    }
  }

  lemma NotYet(s: seq<Ref>, p: nat, x: Ref)
    requires x in s && p < |s| && x !in s[..p] && x != s[p]
    ensures p + 1 < |s| && x !in s[..p + 1]
  {
    assert s[..p + 1] == s[..p] + [s[p]];
    assert s == s[..p] + [s[p]] + s[p + 1..];
  }

  lemma MainListed(w: World)
    requires Inv(w)
    ensures w.mainthread in w.rootgc
  {
  }

  lemma ValueKnown(w: World, v: Value)
    requires Inv(w) && ValueAlive(w, v)
    ensures v.Obj? ==> v.ref in w.m.h && v.ref in w.m.c
  {
  }

  lemma RootsAlive(w: World)
    requires Inv(w)
    ensures (forall r :: IsRoot(w, r) ==> IsAlive(w, r)) && w.running in w.m.h && w.m.h[w.running].Thread?
  {
  }

  lemma MarkedKept(m0: State, m1: State)
    requires MarkStep(m0, m1)
    ensures m1.h == m0.h && m1.c.Keys == m0.c.Keys && forall r :: IsMarked(m0.c, r) ==> IsMarked(m1.c, r)
    ensures forall r :: r in m1.c && r in m0.c && IsWhite(m1.c[r]) ==> m1.c[r] == m0.c[r]
  {
  }

  lemma FreshKeepsInv(w: World, main: Ref, slots: nat, buckets: nat)
    requires 0 < buckets && w.strt == seq(buckets, _ => []) && w.rootgc == [main] && w.uvhead == []
    requires w.m.h == map[main := Thread(Nil, seq(slots, _ => Nil), [])] && w.m.c == map[main := White0]
    requires w.fixed == {main} && w.white == White0 && w.phase == Pause
    requires w.mainthread == main && w.running == main && w.registry == Nil && w.mt == []
    ensures Inv(w)
  {
    forall x ensures !InStrt(w.strt, x) {
      InBucket(w.strt, x);
    }
    assert forall r :: !Holds(w.m.h, w.m.h[main], r);
  }
}
