/** The open upvalues of lfunc.c: finding, closing and freeing them, and what that does to the
    collector's invariant. */
module GcUpvals {
  import opened Basics
  import opened GcHeap
  import opened GcMarks
  import opened GcInv
  import opened GcMutate

  function SetOpenList(h: Heap, th: Ref, l: seq<Ref>): Heap
    requires th in h && h[th].Thread?
  {
    h[th := h[th].(openupval := l)]
  }

  // The ring of all open upvalues without one of them.
  function Unlink(s: seq<Ref>, u: Ref): seq<Ref> {
    if s == [] then [] else if s[0] == u then s[1..] else [s[0]] + Unlink(s[1..], u)
  }

  lemma {:induction false} UnlinkFacts(s: seq<Ref>, u: Ref)
    requires NoDup(s)
    ensures NoDup(Unlink(s, u))
    ensures forall x :: x in Unlink(s, u) <==> x in s && x != u
  {
    if s != [] {
      assert s == [s[0]] + s[1..];
      assert s[0] !in s[1..];
      UnlinkFacts(s[1..], u);
      var t := Unlink(s, u);
      forall i, j | 0 <= i < j < |t| ensures t[i] != t[j] {
        if s[0] != u {
          assert t[j] == Unlink(s[1..], u)[j - 1] && t[j] in Unlink(s[1..], u);
        }
      }
    }
  }

  // ---------- a new open upvalue ----------

  // Position p splits the list at `idx'.
  ghost predicate Splits(h: Heap, l: seq<Ref>, p: nat, idx: nat) {
    && p <= |l|
    && (forall i :: 0 <= i < |l| ==> l[i] in h && IsOpen(h[l[i]]))
    && (forall i :: 0 <= i < p ==> h[l[i]].place.idx > idx)
    && (forall i :: p <= i < |l| ==> h[l[i]].place.idx < idx)
  }

  function OpenHeap(h: Heap, th: Ref, n: Ref, idx: nat, p: nat): Heap
    requires th in h && h[th].Thread? && p <= |h[th].openupval|
  {
    SetOpenList(h, th, Insert(h[th].openupval, p, n))[n := Upval(Open(th, idx))]
  }

  function AddOpen(w: World, th: Ref, n: Ref, idx: nat, p: nat): World
    requires th in w.m.h && w.m.h[th].Thread? && p <= |w.m.h[th].openupval|
  {
    w.(m := w.m.(h := OpenHeap(w.m.h, th, n, idx, p), c := w.m.c[n := w.white]), uvhead := [n] + w.uvhead)
  }

  lemma AddOpenOpenOK(h: Heap, uvhead: seq<Ref>, th: Ref, n: Ref, idx: nat, p: nat)
    requires OpenOK(h, uvhead) && th in h && h[th].Thread? && n !in h
    requires Splits(h, h[th].openupval, p, idx) && idx < |h[th].stack|
    ensures OpenOK(OpenHeap(h, th, n, idx, p), [n] + uvhead)
  {
    var h1 := OpenHeap(h, th, n, idx, p);
    forall t | t in h1 && h1[t].Thread? ensures OpenListOK(h1, t) {
      assert OpenListOK(h, t);
      if t == th {
        OpenListInsert(h, th, n, idx, p);
      }
    }
    assert forall u :: u in Insert(h[th].openupval, p, n) <==> u in h[th].openupval || u == n by {
      assert h[th].openupval == h[th].openupval[..p] + h[th].openupval[p..];
    }
    assert forall u :: u in h ==> IsOpen(h1[u]) == IsOpen(h[u]);
  }

  lemma OpenListInsert(h: Heap, th: Ref, n: Ref, idx: nat, p: nat)
    requires th in h && h[th].Thread? && n !in h && OpenListOK(h, th)
    requires Splits(h, h[th].openupval, p, idx) && idx < |h[th].stack|
    ensures OpenListOK(OpenHeap(h, th, n, idx, p), th)
  {
    var h1 := OpenHeap(h, th, n, idx, p);
    var l, l1 := h[th].openupval, h1[th].openupval;
    assert l == l[..p] + l[p..];
    forall u | u in l1 ensures u in h1 && IsOpen(h1[u]) && h1[u].place.th == th && h1[u].place.idx < |h1[th].stack| {
      assert u in l || u == n;
    }
    forall i | 0 <= i < |l1| ensures l1[i] == if i < p then l[i] else if i == p then n else l[i - 1] {
    }
  }

  lemma AddOpenStrings(h: Heap, strt: seq<seq<Ref>>, rootgc: seq<Ref>, th: Ref, n: Ref, idx: nat, p: nat)
    requires StringsOK(h, strt) && RootgcOK(h, rootgc)
    requires th in h && h[th].Thread? && n !in h && p <= |h[th].openupval|
    ensures StringsOK(OpenHeap(h, th, n, idx, p), strt)
    ensures RootgcOK(OpenHeap(h, th, n, idx, p), rootgc)
  {
    var h1 := OpenHeap(h, th, n, idx, p);
    assert forall x :: x in h ==> h1[x].Str? == h[x].Str? && IsOpen(h1[x]) == IsOpen(h[x]);
    SameStringsOK(h, h1, strt);
    hide StringsOK;
  }

  // Nothing that was there holds anything else; the new upvalue holds what its slot holds.
  lemma AddOpenHolds(h: Heap, th: Ref, n: Ref, idx: nat, p: nat, x: Ref, r: Ref)
    requires th in h && h[th].Thread? && n !in h && p <= |h[th].openupval| && OpensHaveThreads(h)
    requires idx < |h[th].stack|
    requires x in OpenHeap(h, th, n, idx, p) && Holds(OpenHeap(h, th, n, idx, p), OpenHeap(h, th, n, idx, p)[x], r)
    ensures if x == n then Holds(h, h[th], r) else Holds(h, h[x], r)
  {
    var h1 := OpenHeap(h, th, n, idx, p);
    if x != n && x != th && !IsOpen(h[x]) {
      HoldsLocal(h, h1, h[x], r);
    }
  }

  lemma AddOpenLinked(w: World, th: Ref, n: Ref, idx: nat, p: nat)
    requires Linked(w) && OpensHaveThreads(w.m.h) && w.m.c.Keys == w.m.h.Keys
    requires IsAlive(w, th) && w.m.h[th].Thread? && n !in w.m.h && p <= |w.m.h[th].openupval|
    requires idx < |w.m.h[th].stack| && w.white != Flip(w.white)
    ensures Linked(AddOpen(w, th, n, idx, p)) && IsAlive(AddOpen(w, th, n, idx, p), n)
  {
    hide Holds, OpensHaveThreads, OpenHeap;
    OpenHeapKinds(w.m.h, th, n, idx, p);
    var w1 := AddOpen(w, th, n, idx, p);
    assert w1.m.h.Keys == w.m.h.Keys + {n};
    assert forall r :: IsAlive(w, r) ==> IsAlive(w1, r);
    assert forall r :: IsAlive(w1, r) && r != n ==> IsAlive(w, r);
    assert forall r :: IsRoot(w1, r) <==> IsRoot(w, r);
    forall x, r | IsAlive(w1, x) && Holds(w1.m.h, w1.m.h[x], r) ensures IsAlive(w1, r) {
      AddOpenHolds(w.m.h, th, n, idx, p, x, r);
    }
  }

  lemma AddOpenClosed(h: Heap, th: Ref, n: Ref, idx: nat, p: nat)
    requires HeapClosed(h) && OpensHaveThreads(h)
    requires th in h && h[th].Thread? && n !in h && p <= |h[th].openupval| && idx < |h[th].stack|
    ensures HeapClosed(OpenHeap(h, th, n, idx, p))
  {
    var h1 := OpenHeap(h, th, n, idx, p);
    forall x, r | x in h1 && Holds(h1, h1[x], r) ensures r in h1 {
      AddOpenHolds(h, th, n, idx, p, x, r);
    }
  }

  lemma AddOpenColors(m: State, white: Color, th: Ref, n: Ref, idx: nat, p: nat)
    requires Tri(m, {}) && OpensHaveThreads(m.h) && IsWhite(white)
    requires th in m.h && m.h[th].Thread? && n !in m.h && p <= |m.h[th].openupval| && idx < |m.h[th].stack|
    ensures ColorsOK(m.(h := OpenHeap(m.h, th, n, idx, p), c := m.c[n := white]), {})
  {
    var m1 := m.(h := OpenHeap(m.h, th, n, idx, p), c := m.c[n := white]);
    forall x | x in m1.h ensures ColorOK(m1, x) {
      if x != n {
        assert ColorOK(m, x);
        forall r | m.c[x] == Black && Holds(m1.h, m1.h[x], r) ensures IsMarked(m1.c, r) {
          AddOpenHolds(m.h, th, n, idx, p, x, r);
        }
      }
    }
  }

  lemma AddOpenTri(w: World, th: Ref, n: Ref, idx: nat, p: nat)
    requires Tri(w.m, {}) && OpensHaveThreads(w.m.h) && IsWhite(w.white)
    requires th in w.m.h && w.m.h[th].Thread? && n !in w.m.h && p <= |w.m.h[th].openupval|
    requires idx < |w.m.h[th].stack|
    ensures Tri(AddOpen(w, th, n, idx, p).m, {})
  {
    AddOpenClosed(w.m.h, th, n, idx, p);
    AddOpenColors(w.m, w.white, th, n, idx, p);
    OpenHeapKinds(w.m.h, th, n, idx, p);
    hide HeapClosed, ColorsOK, OpenHeap, OpensHaveThreads, Holds;
    AddOpenLists(w, th, n, idx, p);
  }

  lemma AddOpenLists(w: World, th: Ref, n: Ref, idx: nat, p: nat)
    requires ListsOK(w.m, {}) && w.m.c.Keys == w.m.h.Keys
    requires th in w.m.h && w.m.h[th].Thread? && n !in w.m.h && p <= |w.m.h[th].openupval|
    ensures ListsOK(AddOpen(w, th, n, idx, p).m, {})
  {
    OpenHeapKinds(w.m.h, th, n, idx, p);
    hide OpenHeap;
    ListsKept(w.m, AddOpen(w, th, n, idx, p).m, {});
  }

  lemma OpenHeapKinds(h: Heap, th: Ref, n: Ref, idx: nat, p: nat)
    requires th in h && h[th].Thread? && p <= |h[th].openupval| && n !in h
    ensures var h1 := OpenHeap(h, th, n, idx, p);
      && h1.Keys == h.Keys + {n} && h1[n] == Upval(Open(th, idx))
      && (forall x :: x in h && x != th ==> h1[x] == h[x])
      && h1[th].Thread? && h1[th].stack == h[th].stack
  {
  }

  lemma AddOpenSwept(w: World, th: Ref, n: Ref, idx: nat, p: nat)
    requires (w.phase == SweepString || w.phase == Sweep) && PhaseOK(w)
    requires th in w.m.h && w.m.h[th].Thread? && n !in w.m.h && p <= |w.m.h[th].openupval|
    ensures PhaseOK(AddOpen(w, th, n, idx, p))
  {
    var w1 := AddOpen(w, th, n, idx, p);
    var k := if w.phase == Sweep then |w.strt| else w.sweepstrgc;
    StillSwept(w.m.h, w.m.c, w.white, w.strt, k, n);
    if w.phase == Sweep {
      assert forall u :: u in Insert(w.m.h[th].openupval, p, n) <==> u in w.m.h[th].openupval || u == n by {
        assert w.m.h[th].openupval == w.m.h[th].openupval[..p] + w.m.h[th].openupval[p..];
      }
      forall x | x in w.rootgc[..w.sweepgc] ensures RootSwept(w1.m.h, w1.m.c, w.white, x) {
        assert RootSwept(w.m.h, w.m.c, w.white, x);
      }
    }
  }

  /** luaF_findupval, when the slot has no upvalue yet. */
  lemma AddOpenKeepsInv(w: World, th: Ref, n: Ref, idx: nat, p: nat)
    requires Inv(w) && IsAlive(w, th) && w.m.h[th].Thread? && n !in w.m.h
    requires Splits(w.m.h, w.m.h[th].openupval, p, idx) && idx < |w.m.h[th].stack|
    ensures Inv(AddOpen(w, th, n, idx, p)) && IsAlive(AddOpen(w, th, n, idx, p), n)
  {
    hide StringsOK, RootgcOK, OpenListOK, Tri, StringsSwept, RootsSwept, Splits, OpenHeap;
    SplitsBound(w.m.h, w.m.h[th].openupval, p, idx);
    OpenHeapKinds(w.m.h, th, n, idx, p);
    AddOpenLinked(w, th, n, idx, p);
    AddOpenShape(w, th, n, idx, p);
    if w.phase == Propagate {
      AddOpenTri(w, th, n, idx, p);
    } else if w.phase == SweepString || w.phase == Sweep {
      AddOpenSwept(w, th, n, idx, p);
    }
  }

  lemma SplitsBound(h: Heap, l: seq<Ref>, p: nat, idx: nat)
    requires Splits(h, l, p, idx)
    ensures p <= |l|
  {
  }

  lemma AddOpenShape(w: World, th: Ref, n: Ref, idx: nat, p: nat)
    requires Shape(w) && th in w.m.h && w.m.h[th].Thread? && n !in w.m.h
    requires Splits(w.m.h, w.m.h[th].openupval, p, idx) && idx < |w.m.h[th].stack|
    ensures Shape(AddOpen(w, th, n, idx, p))
  {
    hide StringsOK, RootgcOK, OpenOK, OpenHeap;
    SplitsBound(w.m.h, w.m.h[th].openupval, p, idx);
    OpenHeapKinds(w.m.h, th, n, idx, p);
    AddOpenStrings(w.m.h, w.strt, w.rootgc, th, n, idx, p);
    AddOpenOpenOK(w.m.h, w.uvhead, th, n, idx, p);
  }

  // ---------- closing ----------

  // The first upvalue of a thread's list leaves the list.
  function TakeFirst(h: Heap, th: Ref): Heap
    requires th in h && h[th].Thread? && h[th].openupval != []
  {
    SetOpenList(h, th, h[th].openupval[1..])
  }

  ghost predicate FirstOpen(h: Heap, th: Ref, u: Ref) {
    && th in h && h[th].Thread? && h[th].openupval != [] && u == h[th].openupval[0]
    && u in h && IsOpen(h[u]) && h[u].place.th == th && u !in h[th].openupval[1..]
  }

  lemma FirstIsOpen(h: Heap, uvhead: seq<Ref>, th: Ref)
    requires OpenOK(h, uvhead) && th in h && h[th].Thread? && h[th].openupval != []
    ensures FirstOpen(h, th, h[th].openupval[0])
  {
    assert OpenListOK(h, th);
    var l := h[th].openupval;
    assert l[0] in l;
    assert forall u :: u in l[1..] ==> u in l;
  }

  function CloseHeap(h: Heap, th: Ref, u: Ref): Heap
    requires FirstOpen(h, th, u)
  {
    TakeFirst(h, th)[u := Upval(Closed(UpvalValue(h, h[u].place)))]
  }

  function Close(w: World, th: Ref, u: Ref, k: Color): World
    requires FirstOpen(w.m.h, th, u)
  {
    w.(m := w.m.(h := CloseHeap(w.m.h, th, u), c := w.m.c[u := k]),
       rootgc := Insert(w.rootgc, 0, u), sweepgc := Shift(w.sweepgc, 0), uvhead := Unlink(w.uvhead, u))
  }

  lemma CloseHeapKinds(h: Heap, th: Ref, u: Ref)
    requires FirstOpen(h, th, u)
    ensures var h1 := CloseHeap(h, th, u);
      && h1.Keys == h.Keys && h1[u] == Upval(Closed(UpvalValue(h, h[u].place)))
      && (forall x :: x in h && x != th && x != u ==> h1[x] == h[x])
      && h1[th] == h[th].(openupval := h[th].openupval[1..])
  {
  }

  /** Closing an upvalue changes what nobody holds: it keeps the value its slot had. */
  lemma CloseHolds(h: Heap, th: Ref, u: Ref, x: Ref, r: Ref)
    requires FirstOpen(h, th, u) && x in h
    ensures Holds(CloseHeap(h, th, u), CloseHeap(h, th, u)[x], r) <==> Holds(h, h[x], r)
  {
    var h1 := CloseHeap(h, th, u);
    if x != u && x != th && !IsOpen(h[x]) {
      HoldsLocal(h, h1, h[x], r);
    }
  }

  lemma CloseOpenOK(h: Heap, uvhead: seq<Ref>, th: Ref, u: Ref)
    requires OpenOK(h, uvhead) && FirstOpen(h, th, u)
    ensures OpenOK(CloseHeap(h, th, u), Unlink(uvhead, u))
  {
    var h1 := CloseHeap(h, th, u);
    UnlinkFacts(uvhead, u);
    CloseHeapKinds(h, th, u);
    hide CloseHeap;
    var l := h[th].openupval;
    assert l == [u] + l[1..];
    forall t | t in h1 && h1[t].Thread? ensures OpenListOK(h1, t) {
      assert OpenListOK(h, t);
      assert t != th ==> u !in h[t].openupval;
    }
  }

  lemma CloseLists(h: Heap, strt: seq<seq<Ref>>, rootgc: seq<Ref>, th: Ref, u: Ref)
    requires StringsOK(h, strt) && RootgcOK(h, rootgc) && FirstOpen(h, th, u)
    ensures StringsOK(CloseHeap(h, th, u), strt)
    ensures RootgcOK(CloseHeap(h, th, u), Insert(rootgc, 0, u))
  {
    var h1 := CloseHeap(h, th, u);
    CloseHeapKinds(h, th, u);
    InsertFacts(rootgc, 0, u);
    hide CloseHeap, Insert, StringsOK;
    assert forall x :: x in h ==> h1[x].Str? == h[x].Str? && (x != u ==> IsOpen(h1[x]) == IsOpen(h[x]));
    SameStringsOK(h, h1, strt);
  }

  lemma CloseShape(w: World, th: Ref, u: Ref, k: Color)
    requires Shape(w) && FirstOpen(w.m.h, th, u)
    ensures Shape(Close(w, th, u, k))
  {
    hide StringsOK, RootgcOK, OpenOK, CloseHeap;
    CloseHeapKinds(w.m.h, th, u);
    CloseOpenOK(w.m.h, w.uvhead, th, u);
    CloseLists(w.m.h, w.strt, w.rootgc, th, u);
  }

  lemma CloseLinked(w: World, th: Ref, u: Ref, k: Color)
    requires Linked(w) && FirstOpen(w.m.h, th, u) && IsAlive(w, u) && k != Flip(w.white)
    ensures Linked(Close(w, th, u, k))
  {
    var w1 := Close(w, th, u, k);
    CloseHeapKinds(w.m.h, th, u);
    assert forall r :: IsAlive(w, r) <==> IsAlive(w1, r);
    assert forall r :: IsRoot(w1, r) <==> IsRoot(w, r);
    forall x, r | IsAlive(w1, x) && Holds(w1.m.h, w1.m.h[x], r) ensures IsAlive(w1, r) {
      CloseHolds(w.m.h, th, u, x, r);
    }
  }

  lemma CloseClosed(h: Heap, th: Ref, u: Ref)
    requires HeapClosed(h) && FirstOpen(h, th, u)
    ensures HeapClosed(CloseHeap(h, th, u))
  {
    var h1 := CloseHeap(h, th, u);
    CloseHeapKinds(h, th, u);
    forall x, r | x in h1 && Holds(h1, h1[x], r) ensures r in h1 {
      CloseHolds(h, th, u, x, r);
    }
  }

  lemma CloseColors(m: State, th: Ref, u: Ref, k: Color, ex: set<Ref>)
    requires Tri(m, {}) && FirstOpen(m.h, th, u)
    requires if IsMarked(m.c, u) then k == Black && ex == {u} else k == m.c[u] && ex == {}
    ensures ColorsOK(m.(h := CloseHeap(m.h, th, u), c := m.c[u := k]), ex)
  {
    var m1 := m.(h := CloseHeap(m.h, th, u), c := m.c[u := k]);
    CloseHeapKinds(m.h, th, u);
    assert forall x :: IsMarked(m.c, x) <==> IsMarked(m1.c, x);
    forall x | x in m1.h && x !in ex ensures ColorOK(m1, x) {
      assert ColorOK(m, x);
      forall r | m.c[x] == Black && Holds(m1.h, m1.h[x], r) ensures IsMarked(m1.c, r) {
        CloseHolds(m.h, th, u, x, r);
      }
    }
  }

  lemma CloseListsOK(m: State, th: Ref, u: Ref, k: Color, ex: set<Ref>)
    requires ListsOK(m, {}) && FirstOpen(m.h, th, u)
    ensures ListsOK(m.(h := CloseHeap(m.h, th, u), c := m.c[u := k]), ex) && !Listed(m, u)
  {
    OpenUnlisted(m, u);
    CloseHeapKinds(m.h, th, u);
    hide CloseHeap;
    assert forall x :: Listed(m, x) ==> x in m.h;
    ListsKept(m, m.(h := CloseHeap(m.h, th, u), c := m.c[u := k]), ex);
  }

  // In the mark phase a marked upvalue turns black when it is closed; until the barrier has
  // looked at its value it is exempt.
  lemma CloseTri(m: State, th: Ref, u: Ref, k: Color, ex: set<Ref>)
    requires Tri(m, {}) && FirstOpen(m.h, th, u)
    requires if IsMarked(m.c, u) then k == Black && ex == {u} else k == m.c[u] && ex == {}
    ensures Tri(m.(h := CloseHeap(m.h, th, u), c := m.c[u := k]), ex)
    ensures !Listed(m, u)
  {
    var m1 := m.(h := CloseHeap(m.h, th, u), c := m.c[u := k]);
    CloseClosed(m.h, th, u);
    CloseColors(m, th, u, k, ex);
    CloseHeapKinds(m.h, th, u);
    CloseListsOK(m, th, u, k, ex);
    hide CloseHeap, HeapClosed, ColorsOK, ListsOK, Listed, IsOpen, UpvalValue;
    assert u in ex ==> IsMarked(m1.c, u);
  }

  lemma CloseSwept(w: World, th: Ref, u: Ref)
    requires (w.phase == SweepString || w.phase == Sweep) && PhaseOK(w) && FirstOpen(w.m.h, th, u)
    ensures PhaseOK(Close(w, th, u, w.white))
  {
    var w1 := Close(w, th, u, w.white);
    CloseHeapKinds(w.m.h, th, u);
    hide CloseHeap;
    var k := if w.phase == Sweep then |w.strt| else w.sweepstrgc;
    forall j | 0 <= j < k ensures BucketSwept(w1.m.c, w.white, w.strt[j]) {
      assert BucketSwept(w.m.c, w.white, w.strt[j]);
    }
    if w.phase == Sweep {
      assert forall v :: v in w.m.h[th].openupval[1..] ==> v in w.m.h[th].openupval;
      forall x | x in w1.rootgc[..w1.sweepgc] ensures RootSwept(w1.m.h, w1.m.c, w.white, x) {
        assert x == u || x in w.rootgc[..w.sweepgc];
        if x != u {
          assert RootSwept(w.m.h, w.m.c, w.white, x);
        }
      }
    }
  }

  /** luaF_close, outside the mark phase: a live upvalue is closed and is white afterwards. */
  lemma CloseKeepsInv(w: World, th: Ref, u: Ref)
    requires Inv(w) && w.phase != Propagate && FirstOpen(w.m.h, th, u) && IsAlive(w, u)
    ensures Inv(Close(w, th, u, w.white))
  {
    hide StringsOK, RootgcOK, OpenOK, RootsSwept, StringsSwept, CloseHeap;
    CloseHeapKinds(w.m.h, th, u);
    CloseShape(w, th, u, w.white);
    CloseLinked(w, th, u, w.white);
    if w.phase == SweepString || w.phase == Sweep {
      CloseSwept(w, th, u);
    }
  }
}
