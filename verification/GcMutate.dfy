/** The steps of the mutator: each keeps the collector's invariant in every state. */
module GcMutate {
  import opened Basics
  import opened GcHeap
  import opened GcMarks
  import opened GcInv

  // Only an open upvalue looks through the heap for what it holds.
  lemma HoldsLocal(h: Heap, h1: Heap, b: Body, r: Ref)
    requires !IsOpen(b)
    ensures Holds(h, b, r) <==> Holds(h1, b, r)
  {
  }

  predicate ValueAlive(w: World, v: Value) { v.Obj? ==> IsAlive(w, v.ref) }

  function SetBody(w: World, o: Ref, b: Body): World { w.(m := w.m.(h := w.m.h[o := b])) }

  // An object is overwritten by one of the same kind; a thread keeps its open upvalues and
  // the slots they need.
  ghost predicate SameKind(h: Heap, b0: Body, b1: Body) {
    match b0
    case Str(_) => b1 == b0
    case Udata(_, _) => b1.Udata?
    case Upval(p) => b1.Upval? && (p.Open? ==> b1 == b0) && (p.Closed? ==> b1.place.Closed?)
    case Closure(_, _, _) => b1.Closure?
    case Table(_, _, _, _) => b1.Table?
    case Proto(names, _, _) => b1.Proto? && b1.names == names
    case Thread(_, _, l) =>
      && b1.Thread? && b1.openupval == l
      && forall u :: u in l && u in h && IsOpen(h[u]) ==> h[u].place.idx < |b1.stack|
  }

  ghost predicate RefsAlive(w: World, b: Body) {
    !IsOpen(b) && forall r :: Holds(w.m.h, b, r) ==> IsAlive(w, r)
  }

  // What an object other than `o' holds after `o' is overwritten.
  lemma HoldsAfter(h: Heap, o: Ref, b: Body, x: Ref, r: Ref)
    requires o in h && x in h && x != o && SameKind(h, h[o], b)
    requires Holds(h[o := b], h[x], r)
    ensures Holds(h, h[x], r) || (IsOpen(h[x]) && Holds(h, b, r))
  {
    if !IsOpen(h[x]) {
      HoldsLocal(h, h[o := b], h[x], r);
    }
  }

  lemma StoreStrings(h: Heap, strt: seq<seq<Ref>>, o: Ref, b: Body)
    requires StringsOK(h, strt) && o in h && SameKind(h, h[o], b)
    ensures StringsOK(h[o := b], strt)
  {
  }

  lemma StoreRootgc(h: Heap, rootgc: seq<Ref>, o: Ref, b: Body)
    requires RootgcOK(h, rootgc) && o in h && SameKind(h, h[o], b)
    ensures RootgcOK(h[o := b], rootgc)
  {
  }

  lemma StoreOpen(h: Heap, uvhead: seq<Ref>, o: Ref, b: Body)
    requires OpenOK(h, uvhead) && o in h && SameKind(h, h[o], b)
    ensures OpenOK(h[o := b], uvhead)
  {
    var h1 := h[o := b];
    assert forall u :: u in h1 ==> IsOpen(h1[u]) == IsOpen(h[u]) && (IsOpen(h[u]) ==> h1[u] == h[u]);
    assert forall t :: t in h1 ==> h1[t].Thread? == h[t].Thread?;
    forall t | t in h1 && h1[t].Thread? ensures OpenListOK(h1, t) {
      assert OpenListOK(h, t);
      assert h1[t].openupval == h[t].openupval;
    }
  }

  lemma StoreShape(w: World, o: Ref, b: Body)
    requires Shape(w) && o in w.m.h && SameKind(w.m.h, w.m.h[o], b)
    ensures Shape(SetBody(w, o, b))
  {
    hide StringsOK, RootgcOK, OpenOK;
    StoreStrings(w.m.h, w.strt, o, b);
    StoreRootgc(w.m.h, w.rootgc, o, b);
    StoreOpen(w.m.h, w.uvhead, o, b);
  }

  lemma StoreLinked(w: World, o: Ref, b: Body)
    requires Linked(w) && IsAlive(w, o) && SameKind(w.m.h, w.m.h[o], b) && RefsAlive(w, b)
    ensures Linked(SetBody(w, o, b))
  {
    var w1 := SetBody(w, o, b);
    assert forall r :: IsAlive(w1, r) <==> IsAlive(w, r);
    assert forall r :: IsRoot(w1, r) <==> IsRoot(w, r);
    forall x, r | IsAlive(w1, x) && Holds(w1.m.h, w1.m.h[x], r) ensures IsAlive(w1, r) {
      if x == o {
        HoldsLocal(w.m.h, w1.m.h, b, r);
      } else {
        HoldsAfter(w.m.h, o, b, x, r);
      }
    }
  }

  // Until a barrier has run, the object stored into is exempt from the tri-colour invariant.
  lemma StoreTri(m: State, o: Ref, b: Body)
    requires Tri(m, {}) && o in m.h && SameKind(m.h, m.h[o], b) && !IsOpen(b)
    requires forall u :: u in m.h && IsOpen(m.h[u]) ==> m.c[u] != Black
    requires forall r :: Holds(m.h, b, r) ==> r in m.h
    ensures var m1 := m.(h := m.h[o := b]);
            && HeapClosed(m1.h) && ListsOK(m1, {}) && m1.c.Keys == m1.h.Keys && ColorsOK(m1, {o})
            && (m.c[o] != Black || (forall r :: Holds(m.h, b, r) ==> IsMarked(m.c, r)) ==> Tri(m1, {}))
  {
    var m1 := m.(h := m.h[o := b]);
    forall x, r | x in m1.h && Holds(m1.h, m1.h[x], r) ensures r in m1.h {
      if x == o {
        HoldsLocal(m.h, m1.h, b, r);
      } else {
        HoldsAfter(m.h, o, b, x, r);
      }
    }
    forall x | x in m1.h && x != o ensures ColorOK(m1, x) {
      assert ColorOK(m, x);
      forall r | m.c[x] == Black && Holds(m1.h, m1.h[x], r) ensures IsMarked(m.c, r) {
        HoldsAfter(m.h, o, b, x, r);
      }
    }
    assert ColorOK(m, o);
    assert forall r :: Holds(m.h, b, r) <==> Holds(m1.h, b, r) by {
      forall r ensures Holds(m.h, b, r) <==> Holds(m1.h, b, r) {
        HoldsLocal(m.h, m1.h, b, r);
      }
    }
  }

  /** Overwriting a live object that needs no barrier: it is not black, or everything it now
      holds is marked, or no mark phase is under way. */
  lemma PlainStore(w: World, o: Ref, b: Body)
    requires Inv(w) && IsAlive(w, o) && SameKind(w.m.h, w.m.h[o], b) && RefsAlive(w, b)
    requires w.phase == Propagate && w.m.c[o] == Black ==> forall r :: Holds(w.m.h, b, r) ==> IsMarked(w.m.c, r)
    ensures Inv(SetBody(w, o, b))
  {
    hide Shape, Linked, Tri, StringsSwept;
    StoreShape(w, o, b);
    StoreLinked(w, o, b);
    StorePhase(w, o, b);
  }

  lemma StorePhase(w: World, o: Ref, b: Body)
    requires Inv(w) && IsAlive(w, o) && SameKind(w.m.h, w.m.h[o], b) && RefsAlive(w, b)
    requires w.phase == Propagate && w.m.c[o] == Black ==> forall r :: Holds(w.m.h, b, r) ==> IsMarked(w.m.c, r)
    ensures PhaseOK(SetBody(w, o, b))
  {
    hide Linked, StringsOK, RootgcOK, OpenOK, RootsOK;
    if w.phase == Propagate {
      StoreTri(w.m, o, b);
    }
  }

  // ---------- changes of colour ----------

  function SetMarks(w: World, m: State): World { w.(m := m) }

  // The bodies stay and no live object becomes dead.
  ghost predicate Recolors(w: World, m1: State) {
    && m1.h == w.m.h && m1.c.Keys == w.m.c.Keys && m1.c.Keys == m1.h.Keys
    && (forall x :: IsAlive(w, x) ==> IsAlive(SetMarks(w, m1), x))
    && (forall u :: u in m1.h && IsOpen(m1.h[u]) ==> m1.c[u] != Black)
  }

  lemma RecolorShape(w: World, m1: State)
    requires Shape(w) && Recolors(w, m1)
    ensures Shape(SetMarks(w, m1))
  {
    hide StringsOK, RootgcOK, OpenOK;
  }

  // Objects that come back to life hold only live objects.
  lemma RecolorLinked(w: World, m1: State)
    requires Linked(w) && Recolors(w, m1)
    requires forall x, r :: IsAlive(SetMarks(w, m1), x) && !IsAlive(w, x) && Holds(w.m.h, w.m.h[x], r) ==> IsAlive(w, r)
    requires forall x :: x in w.m.h && IsAlive(SetMarks(w, m1), x) && !IsAlive(w, x) ==> !w.m.h[x].Proto?
    ensures Linked(SetMarks(w, m1))
  {
    var w1 := SetMarks(w, m1);
    assert forall r :: IsRoot(w1, r) <==> IsRoot(w, r);
  }

  // Colour changes that whiten nothing that was swept.
  lemma RecolorSwept(w: World, m1: State)
    requires w.phase == SweepString || w.phase == Sweep
    requires PhaseOK(w) && m1.h == w.m.h
    requires forall x :: IsSwept(w.m.c, w.white, x) ==> IsSwept(m1.c, w.white, x)
    ensures PhaseOK(SetMarks(w, m1))
  {
    var k := if w.phase == Sweep then |w.strt| else w.sweepstrgc;
    forall j | 0 <= j < k ensures BucketSwept(m1.c, w.white, w.strt[j]) {
      assert BucketSwept(w.m.c, w.white, w.strt[j]);
    }
    if w.phase == Sweep {
      forall x | x in w.rootgc[..w.sweepgc] ensures RootSwept(m1.h, m1.c, w.white, x) {
        assert RootSwept(w.m.h, w.m.c, w.white, x);
      }
    }
  }

  // During the mark phase no object has the other white, and the fixed roots are marked.
  ghost predicate MarkPhase(w: World) {
    && w.phase == Propagate
    && (forall x :: x in w.m.c ==> w.m.c[x] != Flip(w.white))
    && IsMarked(w.m.c, w.mainthread)
    && (w.registry.Obj? ==> IsMarked(w.m.c, w.registry.ref))
  }

  /** A mark step of any kind keeps the invariant during the mark phase. */
  lemma MarkKeepsInv(w: World, m1: State)
    requires Shape(w) && Linked(w) && MarkPhase(w)
    requires Tri(m1, {}) && m1.h == w.m.h
    requires forall r :: IsMarked(w.m.c, r) ==> IsMarked(m1.c, r)
    requires forall r :: r in m1.c && r in w.m.c && IsWhite(m1.c[r]) ==> m1.c[r] == w.m.c[r]
    ensures Inv(SetMarks(w, m1))
  {
    hide StringsOK, RootgcOK, OpenOK, RootsOK, HeapClosed, ListsOK;
    var w1 := SetMarks(w, m1);
    assert forall u :: u in m1.h && IsOpen(m1.h[u]) ==> ColorOK(m1, u);
    assert forall x :: x in m1.c ==> m1.c[x] != Flip(w.white);
    RecolorShape(w, m1);
    RecolorLinked(w, m1);
  }

  lemma InvIsMarkPhase(w: World)
    requires Inv(w) && w.phase == Propagate
    ensures Shape(w) && Linked(w) && MarkPhase(w)
    ensures Within(w.m.h, w.m.c, w.m.h.Keys) && Marking(w.m, {}, w.m.h.Keys, w.m.h.Keys)
  {
    forall x, r | x in w.m.h && Keeps(w.m.h, w.m.h[x], r) ensures r in w.m.h {
      KeepsHolds(w.m.h, w.m.h[x], r);
    }
  }

  lemma InvIsMarking(w: World, s: set<Ref>)
    requires Inv(w) && w.phase == Propagate && Within(w.m.h, w.m.c, s)
    ensures Marking(w.m, {}, s, w.m.h.Keys)
  {
  }

  lemma BarrierBackTri(m: State, t: Ref)
    requires Tri(m, {}) && t in m.h && m.h[t].Table? && m.c[t] == Black
    ensures Tri(m.(c := m.c[t := Gray], grayagain := [t] + m.grayagain), {})
  {
    var m1 := m.(c := m.c[t := Gray], grayagain := [t] + m.grayagain);
    assert !Listed(m, t);
    assert ListsOK(m1, {});
    assert forall x :: IsMarked(m.c, x) <==> IsMarked(m1.c, x);
    forall x | x in m1.h ensures ColorOK(m1, x) {
      assert ColorOK(m, x);
    }
  }

  /** The backward barrier: a black table turns gray again and waits for the atomic step. */
  lemma BarrierBackKeepsInv(w: World, t: Ref)
    requires Inv(w) && t in w.m.h && w.m.h[t].Table? && w.m.c[t] == Black
    ensures Inv(SetMarks(w, w.m.(c := w.m.c[t := Gray], grayagain := [t] + w.m.grayagain)))
  {
    hide StringsOK, RootgcOK, OpenOK, RootsOK, Tri;
    var m1 := w.m.(c := w.m.c[t := Gray], grayagain := [t] + w.m.grayagain);
    var w1 := SetMarks(w, m1);
    RecolorShape(w, m1);
    RecolorLinked(w, m1);
    if w.phase == Propagate {
      BarrierBackTri(w.m, t);
    } else {
      RecolorSwept(w, m1);
    }
  }

  /** The forward barrier outside the mark phase: the black object is swept early. */
  lemma BarrierWhiteKeepsInv(w: World, o: Ref)
    requires Inv(w) && w.phase != Propagate && o in w.m.h && w.m.c[o] == Black
    ensures Inv(SetMarks(w, w.m.(c := w.m.c[o := w.white])))
  {
    hide StringsOK, RootgcOK, OpenOK, RootsOK;
    var m1 := w.m.(c := w.m.c[o := w.white]);
    RecolorShape(w, m1);
    RecolorLinked(w, m1);
    RecolorSwept(w, m1);
  }

  /** Resurrection: a dead string or a dead open upvalue that is found again in its list
      gets the current white. */
  lemma ResurrectKeepsInv(w: World, o: Ref)
    requires Inv(w) && o in w.m.h && w.m.c[o] == Flip(w.white)
    requires w.m.h[o].Str? || (IsOpen(w.m.h[o]) && IsAlive(w, w.m.h[o].place.th))
    ensures Inv(SetMarks(w, w.m.(c := w.m.c[o := w.white]))) && IsAlive(SetMarks(w, w.m.(c := w.m.c[o := w.white])), o)
  {
    hide StringsOK, RootgcOK, OpenOK, RootsOK;
    var m1 := w.m.(c := w.m.c[o := w.white]);
    RecolorShape(w, m1);
    if IsOpen(w.m.h[o]) {
      var th := w.m.h[o].place.th;
      assert forall r :: Holds(w.m.h, w.m.h[o], r) ==> Holds(w.m.h, w.m.h[th], r);
    }
    RecolorLinked(w, m1);
    RecolorSwept(w, m1);
  }

  // ---------- new objects ----------

  function AddMarks(w: World, n: Ref, b: Body): State {
    w.m.(h := w.m.h[n := b], c := w.m.c[n := w.white])
  }

  function Insert(s: seq<Ref>, p: nat, n: Ref): seq<Ref>
    requires p <= |s|
  {
    s[..p] + [n] + s[p..]
  }

  // Where the sweep stands in the object list after an insertion.
  function Shift(sweepgc: nat, p: nat): nat { if p < sweepgc then sweepgc + 1 else sweepgc }

  function AddToRoot(w: World, n: Ref, b: Body, p: nat): World
    requires p <= |w.rootgc|
  {
    w.(m := AddMarks(w, n, b), rootgc := Insert(w.rootgc, p, n), sweepgc := Shift(w.sweepgc, p))
  }

  function AddString(w: World, n: Ref, i: nat, text: seq<char>): World
    requires i < |w.strt|
  {
    w.(m := AddMarks(w, n, Str(text)), strt := w.strt[i := [n] + w.strt[i]])
  }

  ghost predicate OpensHaveThreads(h: Heap) {
    forall u :: u in h && IsOpen(h[u]) ==> h[u].place.th in h
  }

  // What an object of the enlarged heap holds.
  lemma AddHolds(h: Heap, n: Ref, b: Body, x: Ref, r: Ref)
    requires n !in h && !IsOpen(b) && OpensHaveThreads(h) && (x == n || x in h)
    requires Holds(h[n := b], h[n := b][x], r)
    ensures Holds(h, if x == n then b else h[x], r)
  {
    if x == n {
      HoldsLocal(h, h[n := b], b, r);
    } else if !IsOpen(h[x]) {
      HoldsLocal(h, h[n := b], h[x], r);
    }
  }

  lemma AddAlive(w: World, w1: World, n: Ref, b: Body)
    requires w.m.c.Keys == w.m.h.Keys && n !in w.m.h && w.white != Flip(w.white)
    requires w1.m == AddMarks(w, n, b) && w1.fixed == w.fixed && w1.white == w.white
    ensures forall r :: IsAlive(w1, r) <==> IsAlive(w, r) || r == n
  {
  }

  lemma AddLinked(w: World, w1: World, n: Ref, b: Body)
    requires Linked(w) && w.m.c.Keys == w.m.h.Keys && n !in w.m.h && RefsAlive(w, b)
    requires w.white != Flip(w.white) && OpensHaveThreads(w.m.h)
    requires b.Proto? ==> forall r :: r in b.names ==> r in w.m.h && w.m.h[r].Str?
    requires w1.m == AddMarks(w, n, b) && w1.fixed == w.fixed && w1.white == w.white
    requires forall r :: IsRoot(w1, r) <==> IsRoot(w, r)
    ensures Linked(w1) && IsAlive(w1, n)
  {
    AddAlive(w, w1, n, b);
    hide Holds, IsDead, IsRoot, OpensHaveThreads;
    forall x, r | IsAlive(w1, x) && Holds(w1.m.h, w1.m.h[x], r) ensures IsAlive(w1, r) {
      AddHolds(w.m.h, n, b, x, r);
    }
  }

  lemma AddClosed(h: Heap, n: Ref, b: Body)
    requires HeapClosed(h) && n !in h && OpensHaveThreads(h) && !IsOpen(b)
    requires forall r :: Holds(h, b, r) ==> r in h
    requires b.Proto? ==> forall r :: r in b.names ==> r in h && h[r].Str?
    ensures HeapClosed(h[n := b])
    ensures forall x, r :: x in h && Holds(h[n := b], h[x], r) ==> Holds(h, h[x], r)
  {
    var h1 := h[n := b];
    hide Holds, OpensHaveThreads;
    forall x, r | x in h1 && Holds(h1, h1[x], r) ensures r in h1 {
      AddHolds(h, n, b, x, r);
    }
    forall x, r | x in h && Holds(h1, h[x], r) ensures Holds(h, h[x], r) {
      AddHolds(h, n, b, x, r);
    }
  }

  lemma AddTri(w: World, n: Ref, b: Body)
    requires Tri(w.m, {}) && n !in w.m.h && IsWhite(w.white) && !IsOpen(b)
    requires OpensHaveThreads(w.m.h)
    requires forall r :: Holds(w.m.h, b, r) ==> r in w.m.h
    requires b.Proto? ==> forall r :: r in b.names ==> r in w.m.h && w.m.h[r].Str?
    ensures Tri(AddMarks(w, n, b), {})
  {
    var m, m1 := w.m, AddMarks(w, n, b);
    AddClosed(m.h, n, b);
    hide HeapClosed, Holds;
    AddLists(m, m1, n, b);
    AddColors(m, m1, n, b);
  }

  lemma AddLists(m: State, m1: State, n: Ref, b: Body)
    requires ListsOK(m, {}) && n !in m.h && m1 == m.(h := m.h[n := b], c := m1.c)
    requires m.c.Keys == m.h.Keys && forall x :: x in m.c ==> x in m1.c && m1.c[x] == m.c[x]
    ensures ListsOK(m1, {})
  {
    ListsKept(m, m1, {});
  }

  lemma AddColors(m: State, m1: State, n: Ref, b: Body)
    requires m.c.Keys == m.h.Keys && ColorsOK(m, {}) && n !in m.h
    requires m1 == m.(h := m.h[n := b], c := m1.c) && m1.c.Keys == m1.h.Keys && IsWhite(m1.c[n])
    requires forall x :: x in m.c ==> m1.c[x] == m.c[x]
    requires forall x, r :: x in m.h && Holds(m1.h, m.h[x], r) ==> Holds(m.h, m.h[x], r)
    ensures ColorsOK(m1, {})
  {
    hide Holds;
    forall x | x in m1.h ensures ColorOK(m1, x) {
      if x != n {
        assert ColorOK(m, x);
      }
    }
  }

  lemma AddOpenOK(h: Heap, uvhead: seq<Ref>, n: Ref, b: Body)
    requires OpenOK(h, uvhead) && n !in h && !IsOpen(b) && (b.Thread? ==> b.openupval == [])
    ensures OpenOK(h[n := b], uvhead)
  {
    var h1 := h[n := b];
    forall t | t in h1 && h1[t].Thread? ensures OpenListOK(h1, t) {
      if t != n {
        assert OpenListOK(h, t);
      }
    }
  }

  lemma InsertFacts(s: seq<Ref>, p: nat, n: Ref)
    requires p <= |s| && NoDup(s) && n !in s
    ensures NoDup(Insert(s, p, n))
    ensures forall x :: x in Insert(s, p, n) <==> x in s || x == n
  {
    var t := Insert(s, p, n);
    forall x ensures x in t <==> x in s || x == n {
      assert s == s[..p] + s[p..];
    }
  }

  lemma AddRootgc(h: Heap, rootgc: seq<Ref>, n: Ref, b: Body, p: nat)
    requires RootgcOK(h, rootgc) && n !in h && p <= |rootgc| && !b.Str? && !IsOpen(b)
    ensures RootgcOK(h[n := b], Insert(rootgc, p, n))
  {
    InsertFacts(rootgc, p, n);
  }

  lemma AddNonString(h: Heap, strt: seq<seq<Ref>>, n: Ref, b: Body)
    requires StringsOK(h, strt) && n !in h && !b.Str?
    ensures StringsOK(h[n := b], strt)
  {
  }

  lemma AddToRootShape(w: World, n: Ref, b: Body, p: nat)
    requires Shape(w) && n !in w.m.h && p <= |w.rootgc|
    requires !b.Str? && !IsOpen(b) && (b.Thread? ==> b.openupval == [])
    ensures Shape(AddToRoot(w, n, b, p))
  {
    hide OpenOK, StringsOK, RootgcOK, Insert;
    AddOpenOK(w.m.h, w.uvhead, n, b);
    AddRootgc(w.m.h, w.rootgc, n, b, p);
    AddNonString(w.m.h, w.strt, n, b);
  }

  // What was swept stays swept, and the new white object counts as swept.
  lemma StillSwept(h: Heap, c: Colors, white: Color, strt: seq<seq<Ref>>, k: nat, n: Ref)
    requires StringsSwept(c, white, strt, k) && n !in h
    ensures StringsSwept(c[n := white], white, strt, k)
  {
    forall j | 0 <= j < k ensures BucketSwept(c[n := white], white, strt[j]) {
      assert BucketSwept(c, white, strt[j]);
    }
  }

  lemma RootsStillSwept(h: Heap, c: Colors, white: Color, rootgc: seq<Ref>, k: nat, n: Ref, b: Body, p: nat)
    requires RootsSwept(h, c, white, rootgc, k) && n !in h && p <= |rootgc|
    requires b.Thread? ==> b.openupval == []
    ensures RootsSwept(h[n := b], c[n := white], white, Insert(rootgc, p, n), Shift(k, p))
  {
    var h1, c1 := h[n := b], c[n := white];
    var s := Insert(rootgc, p, n)[..Shift(k, p)];
    if p < k {
      assert s == rootgc[..p] + [n] + rootgc[p..k];
      assert rootgc[..k] == rootgc[..p] + rootgc[p..k];
    } else {
      assert s == rootgc[..k];
    }
    forall x | x in s ensures RootSwept(h1, c1, white, x) {
      if x != n {
        assert RootSwept(h, c, white, x);
      }
    }
  }

  lemma AddToRootPhase(w: World, n: Ref, b: Body, p: nat)
    requires PhaseOK(w) && OpensHaveThreads(w.m.h) && IsWhite(w.white) && !IsOpen(b)
    requires w.m.c.Keys == w.m.h.Keys
    requires n !in w.m.h && p <= |w.rootgc|
    requires w.phase == Propagate ==> forall r :: Holds(w.m.h, b, r) ==> r in w.m.h
    requires !b.Str? && (b.Thread? ==> b.openupval == [])
    requires b.Proto? ==> forall r :: r in b.names ==> r in w.m.h && w.m.h[r].Str?
    ensures PhaseOK(AddToRoot(w, n, b, p))
  {
    hide Tri, StringsSwept, RootsSwept, Insert;
    match w.phase
    case Pause =>
    case Finalize =>
    case Propagate =>
      AddTri(w, n, b);
    case SweepString =>
      StillSwept(w.m.h, w.m.c, w.white, w.strt, w.sweepstrgc, n);
    case Sweep =>
      StillSwept(w.m.h, w.m.c, w.white, w.strt, |w.strt|, n);
      RootsStillSwept(w.m.h, w.m.c, w.white, w.rootgc, w.sweepgc, n, b, p);
  }

  /** luaC_link and the udata list: a new object is white and goes on the object list. */
  lemma AddToRootKeepsInv(w: World, n: Ref, b: Body, p: nat)
    requires Inv(w) && n !in w.m.h && p <= |w.rootgc| && RefsAlive(w, b)
    requires !b.Str? && (b.Thread? ==> b.openupval == [])
    requires b.Proto? ==> forall r :: r in b.names ==> r in w.m.h && w.m.h[r].Str?
    ensures Inv(AddToRoot(w, n, b, p)) && IsAlive(AddToRoot(w, n, b, p), n)
  {
    hide StringsOK, RootgcOK, PhaseOK, OpenListOK, Insert;
    AddToRootShape(w, n, b, p);
    AddToRootPhase(w, n, b, p);
    AddLinked(w, AddToRoot(w, n, b, p), n, b);
  }

  lemma AddStringRootgc(h: Heap, rootgc: seq<Ref>, n: Ref, text: seq<char>)
    requires RootgcOK(h, rootgc) && n !in h
    ensures RootgcOK(h[n := Str(text)], rootgc)
  {
  }

  lemma InBucket(strt: seq<seq<Ref>>, x: Ref)
    ensures InStrt(strt, x) <==> exists i :: 0 <= i < |strt| && x in strt[i]
  {
    if InStrt(strt, x) {
      var b :| b in strt && x in b;
      var i :| 0 <= i < |strt| && strt[i] == b;
      assert x in strt[i];
    }
  }

  // The text belongs into bucket i and no string has it yet.
  ghost predicate NewText(h: Heap, strt: seq<seq<Ref>>, i: nat, text: seq<char>) {
    && i < |strt| && i == HashOf(text) % |strt|
    && forall x :: x in h && h[x].Str? ==> h[x].text != text
  }

  lemma AddStringBuckets(h: Heap, strt: seq<seq<Ref>>, n: Ref, i: nat, text: seq<char>)
    requires NewText(h, strt, i, text)
    requires StringsOK(h, strt) && n !in h && i < |strt|
    ensures StringsOK(h[n := Str(text)], strt[i := [n] + strt[i]])
  {
    var h1, s1 := h[n := Str(text)], strt[i := [n] + strt[i]];
    InBucket(strt, n);
    forall x ensures InStrt(s1, x) <==> x in h1 && h1[x].Str? {
      InBucket(strt, x);
      InBucket(s1, x);
      if x == n {
        assert n in s1[i];
      } else {
        assert forall k :: 0 <= k < |strt| ==> (x in s1[k] <==> x in strt[k]);
      }
    }
    forall b | b in s1 ensures NoDup(b) {
      assert forall k :: 0 <= k < |strt| ==> strt[k] in strt;
    }
    forall k, l | 0 <= k < l < |s1| ensures Disjoint(s1[k], s1[l]) {
      assert Disjoint(strt[k], strt[l]);
      assert n !in strt[k] && n !in strt[l];
    }
  }

  lemma AddStringShape(w: World, n: Ref, i: nat, text: seq<char>)
    requires NewText(w.m.h, w.strt, i, text)
    requires Shape(w) && n !in w.m.h && i < |w.strt|
    ensures Shape(AddString(w, n, i, text))
  {
    hide OpenOK, RootgcOK, StringsOK;
    AddOpenOK(w.m.h, w.uvhead, n, Str(text));
    AddStringBuckets(w.m.h, w.strt, n, i, text);
    AddStringRootgc(w.m.h, w.rootgc, n, text);
  }

  lemma AddStringSwept(c: Colors, white: Color, strt: seq<seq<Ref>>, k: nat, n: Ref, i: nat)
    requires StringsSwept(c, white, strt, k) && n !in c && i < |strt|
    ensures StringsSwept(c[n := white], white, strt[i := [n] + strt[i]], k)
  {
    var s1 := strt[i := [n] + strt[i]];
    forall j | 0 <= j < k ensures BucketSwept(c[n := white], white, s1[j]) {
      assert BucketSwept(c, white, strt[j]);
    }
  }

  lemma AddStringPhase(w: World, n: Ref, i: nat, text: seq<char>)
    requires PhaseOK(w) && OpensHaveThreads(w.m.h) && IsWhite(w.white) && w.m.c.Keys == w.m.h.Keys
    requires n !in w.m.h && i < |w.strt|
    ensures PhaseOK(AddString(w, n, i, text))
  {
    hide Tri, StringsSwept, RootsSwept;
    match w.phase
    case Pause =>
    case Finalize =>
    case Propagate =>
      AddTri(w, n, Str(text));
    case SweepString =>
      AddStringSwept(w.m.c, w.white, w.strt, w.sweepstrgc, n, i);
    case Sweep =>
      AddStringSwept(w.m.c, w.white, w.strt, |w.strt|, n, i);
      RootsStillSweptString(w.m.h, w.m.c, w.white, w.rootgc, w.sweepgc, n, text);
  }

  lemma RootsStillSweptString(h: Heap, c: Colors, white: Color, rootgc: seq<Ref>, k: nat, n: Ref, text: seq<char>)
    requires RootsSwept(h, c, white, rootgc, k) && n !in h
    ensures RootsSwept(h[n := Str(text)], c[n := white], white, rootgc, k)
  {
    forall x | x in rootgc[..k] ensures RootSwept(h[n := Str(text)], c[n := white], white, x) {
      assert RootSwept(h, c, white, x);
    }
  }

  /** newlstr: a new string is white and goes to the head of its bucket. */
  lemma AddStringKeepsInv(w: World, n: Ref, i: nat, text: seq<char>)
    requires NewText(w.m.h, w.strt, i, text)
    requires Inv(w) && n !in w.m.h && i < |w.strt|
    ensures Inv(AddString(w, n, i, text)) && IsAlive(AddString(w, n, i, text), n)
  {
    hide StringsOK, RootgcOK, OpenListOK, PhaseOK;
    AddStringShape(w, n, i, text);
    AddLinked(w, AddString(w, n, i, text), n, Str(text));
    AddStringPhase(w, n, i, text);
  }
}
