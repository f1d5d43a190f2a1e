/** The end of the atomic step of lgc.c: with everything traversed and the weak tables cleared,
    flipping the current white makes exactly the unmarked objects dead. */
module GcAtomic {
  import opened Basics
  import opened GcHeap
  import opened GcMarks
  import opened GcInv
  import opened GcClear

  // The state after clearing and flipping.
  function Flipped(w: World, bits: map<Ref, Mode>, saved: set<Ref>): World {
    w.(m := w.m.(h := ClearedHeap(w.m.h, Live(w.m.c), bits, w.m.weak), c := SaveStrings(w.m.h, w.m.c, saved)),
       white := Flip(w.white), phase := SweepString, sweepgc := 0, sweepstrgc := 0)
  }

  ghost predicate ReadyToFlip(w: World, bits: map<Ref, Mode>, saved: set<Ref>) {
    && Shape(w) && Traversed(w.m, bits)
    && (forall x :: x in w.m.c ==> w.m.c[x] != Flip(w.white))
    && (forall r :: IsRoot(w, r) ==> IsMarked(w.m.c, r))
    && (forall q :: q in saved <==> ListSaves(w.m.h, Live(w.m.c), bits, w.m.weak, q))
  }

  lemma FlippedAlive(w: World, bits: map<Ref, Mode>, saved: set<Ref>, x: Ref)
    requires ReadyToFlip(w, bits, saved)
    ensures IsAlive(Flipped(w, bits, saved), x) <==>
            x in w.m.h && (Survives(w.m.h, w.m.c, saved, x) || x in w.fixed)
  {
    hide StringsOK, RootgcOK, OpenOK, Traversed, ClearBody;
    assert Traversed(w.m, bits) ==> w.m.c.Keys == w.m.h.Keys;
  }

  // Clearing empties slots of tables and touches nothing else.
  lemma ClearedKinds(h: Heap, live: set<Ref>, bits: map<Ref, Mode>, list: seq<Ref>)
    ensures var h1 := ClearedHeap(h, live, bits, list);
      && h1.Keys == h.Keys
      && forall x :: x in h ==> if h[x].Table? then h1[x].Table? && h1[x].meta == h[x].meta && h1[x].mode == h[x].mode
                                else h1[x] == h[x]
  {
  }

  lemma ClearedShape(w: World, bits: map<Ref, Mode>, saved: set<Ref>)
    requires Shape(w)
    ensures Shape(Flipped(w, bits, saved))
  {
    var h, h1 := w.m.h, ClearedHeap(w.m.h, Live(w.m.c), bits, w.m.weak);
    ClearedKinds(h, Live(w.m.c), bits, w.m.weak);
    hide ClearedHeap, StringsOK, RootgcOK, OpenOK;
    ClearedStrings(h, h1, w.strt, w.rootgc);
    ClearedOpen(h, h1, w.uvhead);
    ClearedRoots(w, bits, saved);
    hide RootsOK;
  }

  lemma ClearedRoots(w: World, bits: map<Ref, Mode>, saved: set<Ref>)
    requires RootsOK(w)
    ensures RootsOK(Flipped(w, bits, saved))
  {
    ClearedKinds(w.m.h, Live(w.m.c), bits, w.m.weak);
    hide ClearedHeap, SaveStrings;
  }

  lemma ClearedStrings(h: Heap, h1: Heap, strt: seq<seq<Ref>>, rootgc: seq<Ref>)
    requires StringsOK(h, strt) && RootgcOK(h, rootgc) && h1.Keys == h.Keys
    requires forall x :: x in h ==> if h[x].Table? then h1[x].Table? else h1[x] == h[x]
    ensures StringsOK(h1, strt) && RootgcOK(h1, rootgc)
  {
    SameStringsOK(h, h1, strt);
    hide StringsOK;
  }

  lemma ClearedOpen(h: Heap, h1: Heap, uvhead: seq<Ref>)
    requires OpenOK(h, uvhead) && h1.Keys == h.Keys
    requires forall x :: x in h ==> if h[x].Table? then h1[x].Table? else h1[x] == h[x]
    ensures OpenOK(h1, uvhead)
  {
    forall t | t in h1 && h1[t].Thread? ensures OpenListOK(h1, t) {
      assert OpenListOK(h, t);
    }
    hide OpenListOK, NoDup;
  }

  lemma FlippedRoot(w: World, bits: map<Ref, Mode>, saved: set<Ref>, r: Ref)
    requires ReadyToFlip(w, bits, saved) && IsRoot(Flipped(w, bits, saved), r)
    ensures IsAlive(Flipped(w, bits, saved), r)
  {
    hide StringsOK, RootgcOK, OpenOK, IsAlive;
    assert IsRoot(w, r);
    FlippedAlive(w, bits, saved, r);
  }

  lemma FlippedRefs(w: World, bits: map<Ref, Mode>, saved: set<Ref>, x: Ref, r: Ref)
    requires ReadyToFlip(w, bits, saved) && IsAlive(Flipped(w, bits, saved), x)
    requires Holds(Flipped(w, bits, saved).m.h, Flipped(w, bits, saved).m.h[x], r)
    ensures IsAlive(Flipped(w, bits, saved), r)
  {
    hide ReadyToFlip, IsAlive, ClearedHeap, SaveStrings, Holds, Survives;
    FlippedAlive(w, bits, saved, x);
    FlippedAlive(w, bits, saved, r);
    FlippedHolds(w, bits, saved, x, r);
  }

  lemma FlippedNames(w: World, bits: map<Ref, Mode>, saved: set<Ref>, x: Ref, r: Ref)
    requires ReadyToFlip(w, bits, saved) && x in w.m.h
    requires var b := Flipped(w, bits, saved).m.h[x]; b.Proto? && r in b.names
    ensures r in w.m.h && Flipped(w, bits, saved).m.h[r].Str?
  {
    ClearedKinds(w.m.h, Live(w.m.c), bits, w.m.weak);
    hide ClearedHeap, Shape;
    assert w.m.h[x].Proto? && r in w.m.h[x].names;
  }

  lemma FlippedLinked(w: World, bits: map<Ref, Mode>, saved: set<Ref>)
    requires ReadyToFlip(w, bits, saved)
    ensures Linked(Flipped(w, bits, saved))
  {
    hide ReadyToFlip, Flipped, Holds, IsRoot, IsDead;
    var w1 := Flipped(w, bits, saved);
    FlippedKeys(w, bits, saved);
    forall r | IsRoot(w1, r) ensures IsAlive(w1, r) {
      FlippedRoot(w, bits, saved, r);
    }
    forall x, r | IsAlive(w1, x) && Holds(w1.m.h, w1.m.h[x], r) ensures IsAlive(w1, r) {
      FlippedRefs(w, bits, saved, x, r);
    }
    forall x, r | IsAlive(w1, x) && w1.m.h[x].Proto? && r in w1.m.h[x].names
      ensures r in w1.m.h && w1.m.h[r].Str?
    {
      FlippedNames(w, bits, saved, x, r);
    }
  }

  lemma FlippedKeys(w: World, bits: map<Ref, Mode>, saved: set<Ref>)
    ensures Flipped(w, bits, saved).m.h.Keys == w.m.h.Keys
  {
  }

  lemma FlippedHeap(w: World, bits: map<Ref, Mode>, saved: set<Ref>)
    ensures Flipped(w, bits, saved).m.h == ClearedHeap(w.m.h, Live(w.m.c), bits, w.m.weak)
  {
  }

  lemma FlippedHolds(w: World, bits: map<Ref, Mode>, saved: set<Ref>, x: Ref, r: Ref)
    requires ReadyToFlip(w, bits, saved)
    requires x in w.m.h && (Survives(w.m.h, w.m.c, saved, x) || x in w.fixed)
    requires var h1 := ClearedHeap(w.m.h, Live(w.m.c), bits, w.m.weak); Holds(h1, h1[x], r)
    ensures r in w.m.h && Survives(w.m.h, w.m.c, saved, r)
  {
    if x in w.fixed {
      ClearedKinds(w.m.h, Live(w.m.c), bits, w.m.weak);
      assert IsRoot(w, w.mainthread);
      assert w.m.h[x].Str? || x == w.mainthread;
    }
    hide StringsOK, RootgcOK, OpenOK, ClearedHeap;
    SurvivorsClosed(w.m, bits, saved, x, r);
  }

  /** The flip keeps the invariant: no survivor refers to an object that became dead. */
  lemma FlipKeepsInv(w: World, bits: map<Ref, Mode>, saved: set<Ref>)
    requires ReadyToFlip(w, bits, saved)
    ensures Inv(Flipped(w, bits, saved))
  {
    hide Shape, Linked, ReadyToFlip, ClearedHeap, SaveStrings;
    ReadyIsShape(w, bits, saved);
    ClearedShape(w, bits, saved);
    FlippedLinked(w, bits, saved);
  }

  lemma ReadyIsShape(w: World, bits: map<Ref, Mode>, saved: set<Ref>)
    requires ReadyToFlip(w, bits, saved)
    ensures Shape(w)
  {
  }

  /** Nothing gray is left to traverse and what was put aside has been traversed. */
  lemma AllTraversed(m: State, s: set<Ref>, bits: map<Ref, Mode>)
    requires Marking(m, {}, s, {}) && m.gray == [] && BitsOK(m.h, m.weak, bits, {})
    requires forall x :: x in m.weak ==> x in m.h && Settled(m.h, m.c, x)
    requires forall x :: x in m.grayagain ==> x in m.h && m.h[x].Thread? && Settled(m.h, m.c, x)
    ensures Traversed(m, bits)
  {
    forall x | IsMarked(m.c, x) ensures Settled(m.h, m.c, x) {
      assert ColorOK(m, x);
      if m.c[x] == Black {
        forall r | Keeps(m.h, m.h[x], r) ensures IsMarked(m.c, r) {
          KeepsHolds(m.h, m.h[x], r);
        }
      }
    }
    forall x, r | IsMarked(m.c, x) && m.c[x] == Black && Holds(m.h, m.h[x], r) ensures IsMarked(m.c, r) {
      assert ColorOK(m, x);
    }
    forall x | IsMarked(m.c, x) && m.c[x] != Black && m.h[x].Table? ensures x in m.weak {
      assert ColorOK(m, x);
    }
    assert forall x :: x in m.weak ==> Listed(m, x);
  }

  // ---------- starting a cycle ----------

  lemma AllWhiteMarking(w: World, s: set<Ref>)
    requires Shape(w) && Linked(w) && AllWhite(w) && ClosedSet(w.m.h, s)
    requires w.m.gray == [] && w.m.grayagain == [] && w.m.weak == []
    ensures Marking(w.m, {}, s, w.m.h.Keys)
    ensures w.mainthread in w.m.h && w.m.h[w.mainthread].Thread?
  {
    hide StringsOK, RootgcOK, OpenOK;
    forall x, r | x in w.m.h && Holds(w.m.h, w.m.h[x], r) ensures r in w.m.h {
      assert IsAlive(w, x);
      assert IsAlive(w, r);
    }
    forall x, r | x in w.m.h && w.m.h[x].Proto? && r in w.m.h[x].names ensures r in w.m.h && w.m.h[r].Str? {
      assert IsAlive(w, x);
    }
    assert forall x :: !IsMarked(w.m.c, x);
  }

  /** Once the roots are marked the mark phase has begun. */
  lemma RootsMarked(w0: World, w: World, s: set<Ref>, un: set<Ref>)
    requires Shape(w0) && Linked(w0) && AllWhite(w0)
    requires Marking(w.m, {}, s, un) && w == w0.(m := w.m, phase := Propagate)
    requires MarkStep(w0.m, w.m)
    requires IsMarked(w.m.c, w.mainthread) && (w.registry.Obj? ==> IsMarked(w.m.c, w.registry.ref))
    ensures Inv(w) && Within(w.m.h, w.m.c, s)
  {
    hide StringsOK, RootgcOK, OpenOK, HeapClosed, ListsOK;
    assert forall u :: u in w.m.h && IsOpen(w.m.h[u]) ==> ColorOK(w.m, u);
    assert forall x :: IsAlive(w0, x) <==> IsAlive(w, x);
    assert forall r :: IsRoot(w, r) <==> IsRoot(w0, r);
    hide Tri;
    assert Linked(w);
    assert Shape(w);
  }

  lemma ThreadHoldsGlobals(h: Heap, th: Ref)
    requires th in h && h[th].Thread? && h[th].gt.Obj?
    ensures Keeps(h, h[th], h[th].gt.ref)
  {
  }

  function Unlisted(m: State): State { m.(gray := [], grayagain := [], weak := []) }

  // Outside the mark phase the three work lists mean nothing.
  lemma ForgetLists(w: World)
    requires Inv(w) && w.phase != Propagate
    ensures Inv(w.(m := Unlisted(w.m)))
  {
    hide StringsOK, RootgcOK, OpenOK;
    var w1 := w.(m := Unlisted(w.m));
    assert forall x :: IsAlive(w1, x) <==> IsAlive(w, x);
    assert forall r :: IsRoot(w1, r) <==> IsRoot(w, r);
  }

  lemma ShapeOpens(w: World)
    requires Inv(w)
    ensures forall u :: u in w.uvhead <==> u in w.m.h && IsOpen(w.m.h[u])
  {
  }

  lemma AdvancesWhites(m0: State, m1: State)
    requires Advances(m0, m1)
    ensures m1.h == m0.h
    ensures forall r :: IsMarked(m0.c, r) ==> IsMarked(m1.c, r)
    ensures forall r :: r in m1.c && IsWhite(m1.c[r]) ==> m1.c[r] == m0.c[r]
  {
  }

  // A string in a weak slot of a weak table that was reached.
  ghost predicate WeakSaves(h: Heap, live: set<Ref>, r: Ref) {
    exists x :: x in live && x in h && h[x].Table? && ModeOf(h, h[x].meta) != STRONG
      && TableSaves(h, live, ModeOf(h, h[x].meta), h[x], r)
  }

  lemma ReadyAfterMark(w0: World, w: World, bits: map<Ref, Mode>, saved: set<Ref>)
    requires Inv(w0) && w0.phase == Propagate && w == w0.(m := w.m)
    requires Advances(w0.m, w.m) && Traversed(w.m, bits) && Tri(w.m, {})
    requires IsMarked(w.m.c, w.running) && forall v :: v in w.mt && v.Obj? ==> IsMarked(w.m.c, v.ref)
    requires forall q :: q in saved <==> ListSaves(w.m.h, Live(w.m.c), bits, w.m.weak, q)
    ensures ReadyToFlip(w, bits, saved)
  {
    hide StringsOK, RootgcOK, OpenOK, Traversed, ListSaves, HeapClosed, ListsOK;
    assert forall u :: u in w.m.h && IsOpen(w.m.h[u]) ==> ColorOK(w.m, u);
  }

  /** What marking reached is closed under strong references and contains the roots, and it is
      within every set with these two properties that it started in. */
  lemma MarkedIsLeast(w: World, s: set<Ref>, bits: map<Ref, Mode>)
    requires Within(w.m.h, w.m.c, s) && Traversed(w.m, bits)
    ensures Live(w.m.c) <= s && ClosedSet(w.m.h, Live(w.m.c))
  {
    forall x, r | x in Live(w.m.c) && x in w.m.h && Keeps(w.m.h, w.m.h[x], r) ensures r in Live(w.m.c) {
      assert Settled(w.m.h, w.m.c, x);
    }
  }

  lemma TablesToClear(m: State, bits: map<Ref, Mode>)
    requires Traversed(m, bits)
    ensures m.c.Keys == m.h.Keys
    ensures forall x :: x in m.weak ==> x in m.h && m.h[x].Table? && x in bits && SlotsIn(m.h[x], m.h)
  {
    forall x | x in m.weak ensures SlotsIn(m.h[x], m.h) {
      assert forall r :: Holds(m.h, m.h[x], r) ==> r in m.h;
      forall e | e in m.h[x].nodes && e.val != Nil
        ensures (e.key.Obj? ==> e.key.ref in m.h) && (e.val.Obj? ==> e.val.ref in m.h)
      {
        if e.key.Obj? {
          assert EntryRefers(e, STRONG, e.key.ref);
        }
        if e.val.Obj? {
          assert EntryRefers(e, STRONG, e.val.ref);
        }
      }
    }
  }

  lemma ListMeansWeak(m: State, bits: map<Ref, Mode>, r: Ref)
    requires Traversed(m, bits) && ListSaves(m.h, Live(m.c), bits, m.weak, r)
    ensures r in Live(m.c) || WeakSaves(m.h, Live(m.c), r)
  {
    var live := Live(m.c);
    var x :| x in m.weak && x in bits && x in m.h && m.h[x].Table? && TableSaves(m.h, live, bits[x], m.h[x], r);
    hide TableSaves, Holds, Keeps;
    assert x in live;
  }

  lemma WeakMeansList(m: State, bits: map<Ref, Mode>, r: Ref)
    requires Traversed(m, bits) && WeakSaves(m.h, Live(m.c), r) && r !in Live(m.c)
    ensures ListSaves(m.h, Live(m.c), bits, m.weak, r)
  {
    var live := Live(m.c);
    var x :| x in live && x in m.h && m.h[x].Table? && ModeOf(m.h, m.h[x].meta) != STRONG
             && TableSaves(m.h, live, ModeOf(m.h, m.h[x].meta), m.h[x], r);
    hide TableSaves, Holds, Keeps, ModeOf;
    SavesHolds(m.h, live, ModeOf(m.h, m.h[x].meta), m.h[x], r);
    assert x in m.weak;
  }

  /** The list of weak tables misses only tables whose strings are marked anyway. */
  lemma SavedOrLive(m: State, bits: map<Ref, Mode>, r: Ref)
    requires Traversed(m, bits) && r in m.h && m.h[r].Str?
    ensures (r in Live(m.c) || ListSaves(m.h, Live(m.c), bits, m.weak, r)) <==>
            (r in Live(m.c) || WeakSaves(m.h, Live(m.c), r))
  {
    hide Traversed, ListSaves, WeakSaves;
    if r !in Live(m.c) {
      if ListSaves(m.h, Live(m.c), bits, m.weak, r) {
        ListMeansWeak(m, bits, r);
      }
      if WeakSaves(m.h, Live(m.c), r) {
        WeakMeansList(m, bits, r);
      }
    }
  }

  lemma SavesHolds(h: Heap, live: set<Ref>, md: Mode, b: Body, r: Ref)
    requires b.Table? && TableSaves(h, live, md, b, r)
    ensures Holds(h, b, r)
  {
    if Obj(r) !in b.arr {
      var e :| e in b.nodes && EntrySaves(h, live, e, r);
      assert EntryRefers(e, STRONG, r);
    }
  }

  // What the atomic step leaves alive, given the set `live' that marking reached in heap h.
  ghost predicate Kept(h: Heap, fixed: set<Ref>, live: set<Ref>, x: Ref) {
    x in h && (x in live || x in fixed || (h[x].Str? && WeakSaves(h, live, x)))
  }

  lemma FlippedKept(w: World, bits: map<Ref, Mode>, saved: set<Ref>)
    requires ReadyToFlip(w, bits, saved)
    ensures forall x :: IsAlive(Flipped(w, bits, saved), x) <==> Kept(w.m.h, w.fixed, Live(w.m.c), x)
  {
    hide StringsOK, RootgcOK, OpenOK, IsAlive;
    forall x ensures IsAlive(Flipped(w, bits, saved), x) <==> Kept(w.m.h, w.fixed, Live(w.m.c), x) {
      FlippedAlive(w, bits, saved, x);
      if x in w.m.h && w.m.h[x].Str? {
        SavedOrLive(w.m, bits, x);
      }
    }
  }

  lemma RootsAreLive(w0: World, w1: World)
    requires Inv(w0) && w0.phase == Propagate && Advances(w0.m, w1.m)
    ensures w0.mainthread in Live(w1.m.c)
    ensures w0.registry.Obj? ==> w0.registry.ref in Live(w1.m.c)
  {
  }

  lemma TriNoDup(m: State)
    requires Tri(m, {})
    ensures NoDup(m.weak)
  {
  }

  // Every weak table that was reached loses the entries whose key or value dies.
  function Cleared(h: Heap, live: set<Ref>): Heap {
    map x | x in h :: if x in live && h[x].Table? then ClearBody(h, live, ModeOf(h, h[x].meta), h[x]) else h[x]
  }

  // A table all of whose references are live loses nothing.
  lemma NothingToClear(h: Heap, live: set<Ref>, m: Mode, b: Body)
    requires b.Table? && forall r :: Holds(h, b, r) ==> r in live
    ensures ClearBody(h, live, m, b) == b
  {
    forall i | 0 <= i < |b.arr| ensures ClearValue(h, live, b.arr[i]) == b.arr[i] {
      assert b.arr[i] in b.arr;
    }
    assert ClearArr(h, live, b.arr) == b.arr;
    forall i | 0 <= i < |b.nodes| ensures ClearEntry(h, live, b.nodes[i]) == b.nodes[i] {
      var e := b.nodes[i];
      assert e in b.nodes;
      if EntryDies(h, live, e) {
        var v := if DeadRef(h, live, e.key) then e.key else e.val;
        assert EntryRefers(e, STRONG, v.ref);
      }
    }
    assert ClearNodes(h, live, b.nodes) == b.nodes;
  }

  lemma ClearedSame(m: State, bits: map<Ref, Mode>, x: Ref)
    requires Traversed(m, bits) && x in m.h
    ensures ClearedHeap(m.h, Live(m.c), bits, m.weak)[x] == Cleared(m.h, Live(m.c))[x]
  {
    var live := Live(m.c);
    hide ClearBody, Keeps, Holds, ModeOf;
    if x in m.weak {
      assert x in live;
    } else if x in live && m.h[x].Table? {
      assert m.c[x] == Black;
      NothingToClear(m.h, live, ModeOf(m.h, m.h[x].meta), m.h[x]);
    }
  }

  lemma ClearedExactly(m: State, bits: map<Ref, Mode>)
    requires Traversed(m, bits)
    ensures ClearedHeap(m.h, Live(m.c), bits, m.weak) == Cleared(m.h, Live(m.c))
  {
    var h1 := ClearedHeap(m.h, Live(m.c), bits, m.weak);
    assert h1.Keys == Cleared(m.h, Live(m.c)).Keys;
    hide ClearedHeap, Cleared, Traversed;
    forall x | x in m.h ensures h1[x] == Cleared(m.h, Live(m.c))[x] {
      ClearedSame(m, bits, x);
    }
  }
}
