/** The steps of the sweep (sweeplist in lgc.c): whitening what lives and freeing what is
    dead, in the string table, in the object list and in the open-upvalue lists. */
module GcFree {
  import opened Basics
  import opened GcHeap
  import opened GcMarks
  import opened GcInv
  import opened GcMutate
  import opened GcUpvals

  predicate IsSweeping(w: World) { w.phase == SweepString || w.phase == Sweep }

  // ---------- keeping an object ----------

  /** makewhite on an object that is not dead. */
  lemma WhitenKeepsInv(w: World, o: Ref)
    requires Inv(w) && IsSweeping(w) && IsAlive(w, o)
    ensures Inv(SetMarks(w, w.m.(c := w.m.c[o := w.white])))
  {
    hide StringsOK, RootgcOK, OpenOK, RootsOK;
    var m1 := w.m.(c := w.m.c[o := w.white]);
    RecolorShape(w, m1);
    RecolorLinked(w, m1);
    RecolorSwept(w, m1);
  }

  // ---------- freeing an object ----------

  // `o' is gone; what else changed is at most the order of open-upvalue lists.
  ghost predicate Frees(h: Heap, h1: Heap, o: Ref) {
    && h1.Keys == h.Keys - {o}
    && forall x :: x in h1 ==>
           h1[x] == h[x] || (h[x].Thread? && h1[x].Thread? && h1[x] == h[x].(openupval := h1[x].openupval))
  }

  lemma FreeHolds(h: Heap, h1: Heap, o: Ref, x: Ref, r: Ref)
    requires Frees(h, h1, o) && x in h1 && Holds(h1, h1[x], r)
    ensures Holds(h, h[x], r)
  {
    if !IsOpen(h[x]) {
      HoldsLocal(h, h1, h[x], r);
    }
  }

  /** Nothing alive refers to a dead object, so freeing it leaves no dangling reference. */
  lemma FreeLinked(w: World, w1: World, o: Ref)
    requires Linked(w) && IsDead(w, o) && Frees(w.m.h, w1.m.h, o)
    requires w1.m.c == w.m.c - {o} && w1.fixed == w.fixed && w1.white == w.white
    requires forall r :: IsRoot(w1, r) <==> IsRoot(w, r)
    ensures Linked(w1)
  {
    assert forall r :: IsAlive(w1, r) <==> IsAlive(w, r);
    forall x, r | IsAlive(w1, x) && Holds(w1.m.h, w1.m.h[x], r) ensures IsAlive(w1, r) {
      FreeHolds(w.m.h, w1.m.h, o, x, r);
    }
    forall x, r | IsAlive(w1, x) && w1.m.h[x].Proto? && r in w1.m.h[x].names
      ensures r in w1.m.h && w1.m.h[r].Str?
    {
      assert IsAlive(w, x) && Holds(w.m.h, w.m.h[x], r);
      assert IsAlive(w1, r);
    }
  }

  lemma FreeRoots(w: World, w1: World, o: Ref)
    requires RootsOK(w) && Linked(w) && IsDead(w, o) && Frees(w.m.h, w1.m.h, o)
    requires w1.fixed == w.fixed && w1.mainthread == w.mainthread && w1.running == w.running
    ensures RootsOK(w1)
  {
    assert IsRoot(w, w.mainthread) && IsRoot(w, w.running);
  }

  // --- strings

  function Without(s: seq<Ref>, i: nat): seq<Ref>
    requires i < |s|
  {
    s[..i] + s[i + 1..]
  }

  lemma WithoutFacts(s: seq<Ref>, i: nat)
    requires NoDup(s) && i < |s|
    ensures NoDup(Without(s, i))
    ensures forall x :: x in Without(s, i) <==> x in s && x != s[i]
  {
    assert s == s[..i] + [s[i]] + s[i + 1..];
    assert forall x :: x in Without(s, i) ==> x in s;
    assert forall j :: 0 <= j < |Without(s, i)| ==> Without(s, i)[j] == if j < i then s[j] else s[j + 1];
  }

  function FreeString(w: World, i: nat, j: nat): World
    requires i < |w.strt| && j < |w.strt[i]|
  {
    var o := w.strt[i][j];
    w.(m := w.m.(h := w.m.h - {o}, c := w.m.c - {o}), strt := w.strt[i := Without(w.strt[i], j)])
  }

  lemma FreeStringBuckets(h: Heap, strt: seq<seq<Ref>>, i: nat, j: nat)
    requires StringsOK(h, strt) && i < |strt| && j < |strt[i]|
    ensures StringsOK(h - {strt[i][j]}, strt[i := Without(strt[i], j)])
  {
    var o := strt[i][j];
    var s1 := strt[i := Without(strt[i], j)];
    assert strt[i] in strt;
    WithoutFacts(strt[i], j);
    forall x ensures InStrt(s1, x) <==> InStrt(strt, x) && x != o {
      InBucket(strt, x);
      InBucket(s1, x);
      forall k | 0 <= k < |strt| ensures x in s1[k] <==> x in strt[k] && x != o {
        if k != i {
          assert k < i ==> Disjoint(strt[k], strt[i]);
          assert i < k ==> Disjoint(strt[i], strt[k]);
          assert o in strt[i];
        }
      }
    }
    forall b | b in s1 ensures NoDup(b) {
      assert forall k :: 0 <= k < |strt| ==> strt[k] in strt;
    }
    forall k, l | 0 <= k < l < |s1| ensures Disjoint(s1[k], s1[l]) {
      assert Disjoint(strt[k], strt[l]);
    }
  }

  lemma FreeOthers(h: Heap, rootgc: seq<Ref>, uvhead: seq<Ref>, o: Ref)
    requires RootgcOK(h, rootgc) && OpenOK(h, uvhead) && o in h && h[o].Str?
    ensures RootgcOK(h - {o}, rootgc) && OpenOK(h - {o}, uvhead)
  {
    var h1 := h - {o};
    forall t | t in h1 && h1[t].Thread? ensures OpenListOK(h1, t) {
      assert OpenListOK(h, t);
    }
  }

  lemma FreeStringShape(w: World, i: nat, j: nat)
    requires Shape(w) && Linked(w) && i < |w.strt| && j < |w.strt[i]| && IsDead(w, w.strt[i][j])
    ensures Shape(FreeString(w, i, j))
  {
    var o := w.strt[i][j];
    assert InStrt(w.strt, o) by {
      assert w.strt[i] in w.strt;
    }
    FreeStringBuckets(w.m.h, w.strt, i, j);
    FreeOthers(w.m.h, w.rootgc, w.uvhead, o);
    hide StringsOK, RootgcOK, OpenOK, Linked;
    FreeRoots(w, FreeString(w, i, j), o);
  }

  /** A dead string is unlinked from its bucket and freed. */
  lemma FreeStringKeepsInv(w: World, i: nat, j: nat)
    requires Inv(w) && w.phase == SweepString && i < |w.strt| && j < |w.strt[i]| && IsDead(w, w.strt[i][j])
    ensures Inv(FreeString(w, i, j))
  {
    var w1 := FreeString(w, i, j);
    var o := w.strt[i][j];
    FreeStringShape(w, i, j);
    FreeLinked(w, w1, o);
    hide Shape, Linked;
    FreeStringSwept(w.m.c, w.white, w.strt, w.sweepstrgc, i, j);
  }

  lemma FreeStringSwept(c: Colors, white: Color, strt: seq<seq<Ref>>, n: nat, i: nat, j: nat)
    requires StringsSwept(c, white, strt, n) && i < |strt| && j < |strt[i]|
    requires strt[i][j] in c && c[strt[i][j]] != white
    ensures StringsSwept(c - {strt[i][j]}, white, strt[i := Without(strt[i], j)], n)
  {
    var s1 := strt[i := Without(strt[i], j)];
    forall k | 0 <= k < n ensures BucketSwept(c - {strt[i][j]}, white, s1[k]) {
      assert BucketSwept(c, white, strt[k]);
      assert forall x :: x in s1[k] ==> x in strt[k];
    }
  }

  // --- open upvalues

  function FreeOpenHeap(h: Heap, th: Ref, i: nat): Heap
    requires th in h && h[th].Thread? && i < |h[th].openupval|
  {
    SetOpenList(h, th, Without(h[th].openupval, i)) - {h[th].openupval[i]}
  }

  function FreeOpen(w: World, th: Ref, i: nat): World
    requires th in w.m.h && w.m.h[th].Thread? && i < |w.m.h[th].openupval|
  {
    var o := w.m.h[th].openupval[i];
    w.(m := w.m.(h := FreeOpenHeap(w.m.h, th, i), c := w.m.c - {o}), uvhead := Unlink(w.uvhead, o))
  }

  lemma FreeOpenFrees(h: Heap, th: Ref, i: nat)
    requires th in h && h[th].Thread? && i < |h[th].openupval|
    requires h[th].openupval[i] in h && !h[h[th].openupval[i]].Thread?
    ensures Frees(h, FreeOpenHeap(h, th, i), h[th].openupval[i])
    ensures FreeOpenHeap(h, th, i)[th] == h[th].(openupval := Without(h[th].openupval, i))
    ensures forall x :: x in h && x != th && x != h[th].openupval[i] ==> FreeOpenHeap(h, th, i)[x] == h[x]
  {
  }

  lemma OpenListNoDup(h: Heap, th: Ref)
    requires th in h && h[th].Thread? && OpenListOK(h, th)
    ensures NoDup(h[th].openupval)
  {
    var l := h[th].openupval;
    forall i, j | 0 <= i < j < |l| ensures l[i] != l[j] {
      assert l[i] in l && l[j] in l;
      assert h[l[i]].place.idx > h[l[j]].place.idx;
    }
  }

  lemma FreeOpenList(h: Heap, th: Ref, i: nat)
    requires th in h && h[th].Thread? && i < |h[th].openupval| && OpenListOK(h, th)
    ensures OpenListOK(FreeOpenHeap(h, th, i), th)
    ensures forall x :: x in Without(h[th].openupval, i) <==> x in h[th].openupval && x != h[th].openupval[i]
  {
    var l := h[th].openupval;
    OpenListNoDup(h, th);
    WithoutFacts(l, i);
    assert l[i] in l;
    FreeOpenFrees(h, th, i);
    ShorterList(h, FreeOpenHeap(h, th, i), th, i);
  }

  // An open-upvalue list without one of its members is still one.
  lemma ShorterList(h: Heap, h1: Heap, th: Ref, i: nat)
    requires th in h && h[th].Thread? && i < |h[th].openupval| && OpenListOK(h, th)
    requires th in h1 && h1[th] == h[th].(openupval := Without(h[th].openupval, i))
    requires forall x :: x in Without(h[th].openupval, i) <==> x in h[th].openupval && x != h[th].openupval[i]
    requires forall x :: x in h && x != th && x != h[th].openupval[i] ==> x in h1 && h1[x] == h[x]
    ensures OpenListOK(h1, th)
  {
    var l := h[th].openupval;
    var l1 := h1[th].openupval;
    hide Without;
    forall x | x in l1 ensures x in h1 && h1[x] == h[x] && IsOpen(h[x]) && h[x].place.th == th
                               && h[x].place.idx < |h1[th].stack| {
      assert x in l;
    }
    forall a, b | 0 <= a < b < |l1| ensures h1[l1[a]].place.idx > h1[l1[b]].place.idx {
      var a1, b1 := if a < i then a else a + 1, if b < i then b else b + 1;
      WithoutAt(l, i, a);
      WithoutAt(l, i, b);
      assert l1[a] in l1 && l1[b] in l1;
      assert h[l[a1]].place.idx > h[l[b1]].place.idx;
    }
  }

  lemma WithoutAt(l: seq<Ref>, i: nat, a: nat)
    requires i < |l| && a < |Without(l, i)|
    ensures |Without(l, i)| == |l| - 1 && Without(l, i)[a] == l[if a < i then a else a + 1]
  {
  }

  lemma FreeOpenOpenOK(h: Heap, uvhead: seq<Ref>, th: Ref, i: nat)
    requires OpenOK(h, uvhead) && th in h && h[th].Thread? && i < |h[th].openupval|
    ensures OpenOK(FreeOpenHeap(h, th, i), Unlink(uvhead, h[th].openupval[i]))
  {
    var o := h[th].openupval[i];
    var h1 := FreeOpenHeap(h, th, i);
    UnlinkFacts(uvhead, o);
    assert OpenListOK(h, th);
    assert o in h[th].openupval;
    FreeOpenFrees(h, th, i);
    FreeOpenList(h, th, i);
    OtherLists(h, h1, uvhead, th, o);
    hide FreeOpenHeap, Without, Unlink, NoDup, OpenListOK;
  }

  lemma OtherLists(h: Heap, h1: Heap, uvhead: seq<Ref>, th: Ref, o: Ref)
    requires OpenOK(h, uvhead) && o in h && IsOpen(h[o]) && h[o].place.th == th
    requires forall x :: x in h && x != th && x != o ==> x in h1 && h1[x] == h[x]
    ensures forall t :: t in h && t != th && h[t].Thread? ==> t in h1 && h1[t] == h[t] && OpenListOK(h1, t)
  {
    forall t | t in h && t != th && h[t].Thread? ensures h1[t] == h[t] && OpenListOK(h1, t) {
      assert OpenListOK(h, t);
      assert o !in h[t].openupval;
    }
  }

  lemma FreeOpenLists(h: Heap, strt: seq<seq<Ref>>, rootgc: seq<Ref>, th: Ref, i: nat)
    requires StringsOK(h, strt) && RootgcOK(h, rootgc) && th in h && h[th].Thread?
    requires i < |h[th].openupval| && h[th].openupval[i] in h && IsOpen(h[h[th].openupval[i]])
    ensures StringsOK(FreeOpenHeap(h, th, i), strt) && RootgcOK(FreeOpenHeap(h, th, i), rootgc)
  {
    FreeOpenFrees(h, th, i);
    hide FreeOpenHeap;
    FreesStrings(h, FreeOpenHeap(h, th, i), strt, h[th].openupval[i]);
    hide StringsOK;
  }

  lemma FreesStrings(h: Heap, h1: Heap, strt: seq<seq<Ref>>, o: Ref)
    requires StringsOK(h, strt) && Frees(h, h1, o) && o in h && !h[o].Str?
    ensures StringsOK(h1, strt)
  {
    assert forall x :: x in h1 && h1[x].Str? ==> h1[x] == h[x];
    assert forall x :: x in h && h[x].Str? ==> x in h1 && h1[x] == h[x];
    hide Frees;
  }

  lemma FreeOpenShape(w: World, th: Ref, i: nat)
    requires Shape(w) && Linked(w) && th in w.m.h && w.m.h[th].Thread? && i < |w.m.h[th].openupval|
    requires IsDead(w, w.m.h[th].openupval[i])
    ensures Shape(FreeOpen(w, th, i)) && Frees(w.m.h, FreeOpenHeap(w.m.h, th, i), w.m.h[th].openupval[i])
  {
    var o := w.m.h[th].openupval[i];
    assert OpenListOK(w.m.h, th) && o in w.m.h[th].openupval;
    FreeOpenFrees(w.m.h, th, i);
    FreeOpenOpenOK(w.m.h, w.uvhead, th, i);
    FreeOpenLists(w.m.h, w.strt, w.rootgc, th, i);
    hide StringsOK, RootgcOK, OpenOK, Linked, FreeOpenHeap;
    FreeRoots(w, FreeOpen(w, th, i), o);
  }

  lemma FreeOpenSwept(w: World, th: Ref, i: nat)
    requires IsSweeping(w) && PhaseOK(w) && th in w.m.h && w.m.h[th].Thread? && i < |w.m.h[th].openupval|
    requires !IsSwept(w.m.c, w.white, w.m.h[th].openupval[i])
    requires w.m.h[th].openupval[i] in w.m.h && !w.m.h[w.m.h[th].openupval[i]].Thread?
    ensures PhaseOK(FreeOpen(w, th, i))
  {
    var o := w.m.h[th].openupval[i];
    var w1 := FreeOpen(w, th, i);
    FreeOpenFrees(w.m.h, th, i);
    assert forall x :: x in Without(w.m.h[th].openupval, i) ==> x in w.m.h[th].openupval;
    hide FreeOpenHeap, Without, Unlink;
    assert forall x :: IsSwept(w.m.c, w.white, x) ==> IsSwept(w1.m.c, w.white, x);
    var k := if w.phase == Sweep then |w.strt| else w.sweepstrgc;
    forall j | 0 <= j < k ensures BucketSwept(w1.m.c, w.white, w.strt[j]) {
      assert BucketSwept(w.m.c, w.white, w.strt[j]);
    }
    if w.phase == Sweep {
      forall x | x in w.rootgc[..w.sweepgc] ensures RootSwept(w1.m.h, w1.m.c, w.white, x) {
        assert RootSwept(w.m.h, w.m.c, w.white, x);
      }
    }
  }

  /** A dead open upvalue is unlinked from its thread and from the ring, and freed. */
  lemma FreeOpenKeepsInv(w: World, th: Ref, i: nat)
    requires Inv(w) && IsSweeping(w) && th in w.m.h && w.m.h[th].Thread? && i < |w.m.h[th].openupval|
    requires IsDead(w, w.m.h[th].openupval[i])
    ensures Inv(FreeOpen(w, th, i))
  {
    var o := w.m.h[th].openupval[i];
    assert OpenListOK(w.m.h, th) && o in w.m.h[th].openupval;
    FreeOpenShape(w, th, i);
    FreeOpenSwept(w, th, i);
    hide Shape, PhaseOK, FreeOpenHeap;
    FreeLinked(w, FreeOpen(w, th, i), o);
  }

  // --- objects on the object list

  function FreeRoot(w: World, p: nat): World
    requires p < |w.rootgc|
  {
    var o := w.rootgc[p];
    w.(m := w.m.(h := w.m.h - {o}, c := w.m.c - {o}), rootgc := Without(w.rootgc, p))
  }

  lemma FreeRootOpenOK(h: Heap, uvhead: seq<Ref>, o: Ref)
    requires OpenOK(h, uvhead) && o in h && !IsOpen(h[o]) && (h[o].Thread? ==> h[o].openupval == [])
    ensures OpenOK(h - {o}, uvhead)
  {
    var h1 := h - {o};
    forall t | t in h1 && h1[t].Thread? ensures OpenListOK(h1, t) {
      assert OpenListOK(h, t);
    }
  }

  lemma FreeRootLists(h: Heap, strt: seq<seq<Ref>>, rootgc: seq<Ref>, i: nat)
    requires StringsOK(h, strt) && RootgcOK(h, rootgc) && i < |rootgc|
    ensures StringsOK(h - {rootgc[i]}, strt) && RootgcOK(h - {rootgc[i]}, Without(rootgc, i))
  {
    assert rootgc[i] in rootgc;
    WithoutFacts(rootgc, i);
    FreesStrings(h, h - {rootgc[i]}, strt, rootgc[i]);
    hide Without, StringsOK;
  }

  lemma FreeRootSwept(w: World, p: nat)
    requires w.phase == Sweep && PhaseOK(w) && w.sweepgc <= p < |w.rootgc|
    requires !IsSwept(w.m.c, w.white, w.rootgc[p])
    ensures PhaseOK(FreeRoot(w, p))
  {
    var o := w.rootgc[p];
    var w1 := FreeRoot(w, p);
    assert forall x :: IsSwept(w.m.c, w.white, x) ==> IsSwept(w1.m.c, w.white, x);
    forall j | 0 <= j < |w.strt| ensures BucketSwept(w1.m.c, w.white, w.strt[j]) {
      assert BucketSwept(w.m.c, w.white, w.strt[j]);
    }
    assert w1.rootgc[..w.sweepgc] == w.rootgc[..w.sweepgc];
    forall x | x in w.rootgc[..w.sweepgc] ensures RootSwept(w1.m.h, w1.m.c, w.white, x) {
      assert RootSwept(w.m.h, w.m.c, w.white, x);
    }
  }

  /** A dead object that the sweep has reached is unlinked from the object list and freed. */
  lemma FreeRootKeepsInv(w: World, p: nat)
    requires Inv(w) && w.phase == Sweep && w.sweepgc <= p < |w.rootgc| && IsDead(w, w.rootgc[p])
    requires var o := w.rootgc[p]; o in w.m.h && w.m.h[o].Thread? ==> w.m.h[o].openupval == []
    ensures Inv(FreeRoot(w, p)) && Frees(w.m.h, FreeRoot(w, p).m.h, w.rootgc[p])
  {
    var o := w.rootgc[p];
    assert o in w.rootgc;
    FreeRootLists(w.m.h, w.strt, w.rootgc, p);
    FreeRootOpenOK(w.m.h, w.uvhead, o);
    FreeRootSwept(w, p);
    FreeLinked(w, FreeRoot(w, p), o);
    hide StringsOK, RootgcOK, OpenOK, PhaseOK, Linked;
    FreeRoots(w, FreeRoot(w, p), o);
  }

  // ---------- what sweeping may change ----------

  // An object keeps its body, except that threads lose entries of their open-upvalue lists
  // and an open upvalue may be closed over the value it has.
  predicate SameBody(h0: Heap, h1: Heap, x: Ref)
    requires x in h0 && x in h1
  {
    || h1[x] == h0[x]
    || (h0[x].Thread? && h1[x].Thread? && h1[x] == h0[x].(openupval := h1[x].openupval))
    || (IsOpen(h0[x]) && h1[x] == Upval(Closed(UpvalValue(h0, h0[x].place))))
  }

  /** A step of the sweep frees dead objects only and changes nothing that the mutator can
      see in the live ones. */
  ghost predicate Sweeps(w0: World, w1: World) {
    && (forall x :: IsAlive(w1, x) <==> IsAlive(w0, x))
    && (forall x :: x in w1.m.h ==> x in w0.m.h && SameBody(w0.m.h, w1.m.h, x))
    && w1.fixed == w0.fixed && w1.white == w0.white && w1.mainthread == w0.mainthread
    && w1.running == w0.running && w1.registry == w0.registry && w1.mt == w0.mt
  }

  lemma SweepsRefl(w: World)
    ensures Sweeps(w, w)
  {
  }

  lemma SweepsTrans(w0: World, w1: World, w2: World)
    requires Sweeps(w0, w1) && Sweeps(w1, w2) && OpensHaveThreads(w1.m.h)
    ensures Sweeps(w0, w2)
  {
    forall x | x in w2.m.h ensures SameBody(w0.m.h, w2.m.h, x) {
      assert SameBody(w0.m.h, w1.m.h, x) && SameBody(w1.m.h, w2.m.h, x);
      if IsOpen(w1.m.h[x]) {
        var th := w1.m.h[x].place.th;
        assert th in w1.m.h && SameBody(w0.m.h, w1.m.h, th);
      }
    }
  }

  lemma InvOpensHaveThreads(w: World)
    requires Inv(w)
    ensures OpensHaveThreads(w.m.h)
  {
  }

  lemma WhitenSweeps(w: World, o: Ref)
    requires IsAlive(w, o) && o in w.m.c && w.white != Flip(w.white)
    ensures Sweeps(w, SetMarks(w, w.m.(c := w.m.c[o := w.white])))
  {
  }

  lemma FreeSweeps(w: World, w1: World, o: Ref)
    requires IsDead(w, o) && Frees(w.m.h, w1.m.h, o) && w1.m.c == w.m.c - {o}
    requires w1.fixed == w.fixed && w1.white == w.white && w1.mainthread == w.mainthread
    requires w1.running == w.running && w1.registry == w.registry && w1.mt == w.mt
    ensures Sweeps(w, w1)
  {
  }

  lemma CloseSweeps(w: World, th: Ref, u: Ref)
    requires FirstOpen(w.m.h, th, u) && IsAlive(w, u) && w.white != Flip(w.white)
    ensures Sweeps(w, Close(w, th, u, w.white))
  {
    var w1 := Close(w, th, u, w.white);
    CloseHeapKinds(w.m.h, th, u);
    hide CloseHeap;
    assert forall x :: x in w1.m.h ==> SameBody(w.m.h, w1.m.h, x);
  }

  lemma BucketIsStrings(w: World, i: nat, j: nat)
    requires Inv(w) && i < |w.strt| && j < |w.strt[i]|
    ensures w.strt[i][j] in w.m.h && w.strt[i][j] in w.m.c && w.white != Flip(w.white)
  {
    assert w.strt[i] in w.strt && InStrt(w.strt, w.strt[i][j]);
  }

  lemma OpenListIsOpen(w: World, th: Ref, j: nat)
    requires Inv(w) && th in w.m.h && w.m.h[th].Thread? && j < |w.m.h[th].openupval|
    ensures var u := w.m.h[th].openupval[j];
            u in w.m.h && u in w.m.c && IsOpen(w.m.h[u]) && u in w.uvhead && u != th
            && w.white != Flip(w.white)
  {
    assert OpenListOK(w.m.h, th) && w.m.h[th].openupval[j] in w.m.h[th].openupval;
  }

  lemma {:induction false} UnlinkShorter(s: seq<Ref>, u: Ref)
    ensures |Unlink(s, u)| == if u in s then |s| - 1 else |s|
  {
    if s != [] && s[0] != u {
      UnlinkShorter(s[1..], u);
    }
  }

  lemma DeadMeansSweeping(w: World, x: Ref)
    requires Inv(w) && IsDead(w, x)
    ensures IsSweeping(w)
  {
  }

  // In the mark phase a white upvalue is closed without further ado.
  lemma CloseWhiteKeepsInv(w: World, th: Ref, u: Ref)
    requires Inv(w) && w.phase == Propagate && FirstOpen(w.m.h, th, u) && !IsMarked(w.m.c, u)
    ensures Inv(Close(w, th, u, w.m.c[u])) && w.m.c[u] == w.white
  {
    hide StringsOK, RootgcOK, OpenOK, CloseHeap, Tri;
    CloseHeapKinds(w.m.h, th, u);
    CloseShape(w, th, u, w.m.c[u]);
    CloseLinked(w, th, u, w.m.c[u]);
    CloseTri(w.m, th, u, w.m.c[u], {});
  }

  // A marked one turns black and its value has to be looked at.
  lemma CloseGrayStarts(w: World, th: Ref, u: Ref)
    requires Inv(w) && w.phase == Propagate && FirstOpen(w.m.h, th, u) && IsMarked(w.m.c, u)
    ensures var w1 := Close(w, th, u, Black);
      && Shape(w1) && Linked(w1) && MarkPhase(w1)
      && Marking(w1.m, {u}, w1.m.h.Keys, w1.m.h.Keys) && !Listed(w1.m, u)
  {
    hide StringsOK, RootgcOK, OpenOK, CloseHeap;
    var w1 := Close(w, th, u, Black);
    CloseHeapKinds(w.m.h, th, u);
    CloseShape(w, th, u, Black);
    CloseLinked(w, th, u, Black);
    CloseTri(w.m, th, u, Black, {u});
    KeysClosed(w1.m, {u});
  }

  lemma KeysClosed(m: State, ex: set<Ref>)
    requires Tri(m, ex)
    ensures Marking(m, ex, m.h.Keys, m.h.Keys)
  {
    forall x, r | x in m.h && Keeps(m.h, m.h[x], r) ensures r in m.h {
      KeepsHolds(m.h, m.h[x], r);
    }
  }

  lemma InvFirstOpen(w: World, th: Ref)
    requires Inv(w) && th in w.m.h && w.m.h[th].Thread? && w.m.h[th].openupval != []
    ensures FirstOpen(w.m.h, th, w.m.h[th].openupval[0])
  {
    FirstIsOpen(w.m.h, w.uvhead, th);
    OpenListNoDup(w.m.h, th);
  }

  lemma OpenGrayOrWhite(w: World, u: Ref)
    requires Inv(w) && u in w.m.h && IsOpen(w.m.h[u])
    ensures u in w.m.c && w.m.c[u] != Black
    ensures u !in w.fixed && IsWhite(w.white)
    ensures !IsDead(w, u) ==> w.m.c[u] != Flip(w.white)
  {
  }

  lemma InvOpenList(w: World, th: Ref)
    requires Inv(w) && th in w.m.h && w.m.h[th].Thread?
    ensures OpenListOK(w.m.h, th) && NoDup(w.m.h[th].openupval) && th !in w.m.h[th].openupval
  {
    OpenListNoDup(w.m.h, th);
  }

  // ---------- what closing does to the heap ----------

  // An open upvalue is freed if it was dead and closed over its value otherwise.
  predicate Taken(w0: World, w1: World, u: Ref)
    requires u in w0.m.h
  {
    && IsOpen(w0.m.h[u])
    && if u in w1.m.h then !IsDead(w0, u) && w1.m.h[u] == Upval(Closed(UpvalValue(w0.m.h, w0.m.h[u].place)))
       else IsDead(w0, u)
  }

  predicate Untouched(w0: World, w1: World, x: Ref) {
    x in w0.m.h && x in w1.m.h && w1.m.h[x] == w0.m.h[x] && (IsDead(w1, x) <==> IsDead(w0, x))
  }

  ghost predicate FirstTaken(w0: World, w1: World, th: Ref) {
    && th in w0.m.h && w0.m.h[th].Thread? && w0.m.h[th].openupval != []
    && var u := w0.m.h[th].openupval[0];
       && u in w0.m.h && u != th && Taken(w0, w1, u)
       && th in w1.m.h && w1.m.h[th] == w0.m.h[th].(openupval := w0.m.h[th].openupval[1..])
       && (forall x :: x in w0.m.h && x != u && x != th ==> Untouched(w0, w1, x))
       && (forall x :: x in w1.m.h ==> x in w0.m.h)
  }

  lemma OthersDie(w0: World, w1: World, u: Ref)
    requires u in w0.m.c && w1.m.c == w0.m.c[u := w1.white] && w1.white == w0.white && w1.fixed == w0.fixed
    ensures forall x :: x != u ==> (IsDead(w1, x) <==> IsDead(w0, x))
  {
  }

  lemma ClosingTakes(w0: World, w1: World, th: Ref, u: Ref)
    requires FirstOpen(w0.m.h, th, u) && u != th && !IsDead(w0, u) && w1.m.h == CloseHeap(w0.m.h, th, u)
    requires forall x :: x != u ==> (IsDead(w1, x) <==> IsDead(w0, x))
    ensures FirstTaken(w0, w1, th)
  {
    CloseHeapKinds(w0.m.h, th, u);
    hide CloseHeap, IsDead;
  }

  // The fate of an upvalue when its thread's list is closed down to `level'.
  predicate UpvalAfter(w0: World, w1: World, th: Ref, level: nat, u: Ref)
    requires u in w0.m.h && IsOpen(w0.m.h[u])
  {
    && th in w1.m.h && w1.m.h[th].Thread?
    && (u in w1.m.h[th].openupval <==> w0.m.h[u].place.idx < level)
    && if w0.m.h[u].place.idx < level then Untouched(w0, w1, u) else Taken(w0, w1, u)
  }

  lemma NoneDead(w: World)
    requires Inv(w) && w.phase == Propagate
    ensures forall x :: !IsDead(w, x)
  {
  }

  lemma NotFixedIsDead(w: World, th: Ref)
    requires Inv(w) && th in w.m.h && w.m.h[th].Thread? && w.m.h[th].openupval != []
    ensures var u := w.m.h[th].openupval[0];
            u in w.m.c && (IsDead(w, u) <==> w.m.c[u] == Flip(w.white))
  {
    OpenListIsOpen(w, th, 0);
  }

  // The whole effect of closing the thread's upvalues down to `level'.
  ghost predicate ClosedTo(w0: World, w1: World, th: Ref, level: nat) {
    && th in w0.m.h && w0.m.h[th].Thread? && th in w1.m.h && w1.m.h[th].Thread?
    && w1.m.h[th] == w0.m.h[th].(openupval := w1.m.h[th].openupval)
    && forall u :: u in w0.m.h[th].openupval ==>
         u in w0.m.h && IsOpen(w0.m.h[u]) && UpvalAfter(w0, w1, th, level, u)
  }

  // The first upvalue of the thread is at or above `level'.
  predicate AtOrAbove(h: Heap, th: Ref, level: nat) {
    && th in h && h[th].Thread? && h[th].openupval != []
    && var u := h[th].openupval[0];
       u in h && IsOpen(h[u]) && h[u].place.idx >= level
  }

  // The first k upvalues of the thread's list l have been taken off.
  ghost predicate ClosedDown(w0: World, w1: World, th: Ref, level: nat, l: seq<Ref>, k: nat) {
    && th in w0.m.h && w0.m.h[th].Thread? && l == w0.m.h[th].openupval && k <= |l|
    && OpenListOK(w0.m.h, th) && NoDup(l) && th !in l
    && th in w1.m.h && w1.m.h[th] == w0.m.h[th].(openupval := l[k..])
    && (forall i :: k <= i < |l| ==> Untouched(w0, w1, l[i]))
    && (forall i :: 0 <= i < k ==> l[i] in w0.m.h && Taken(w0, w1, l[i]) && w0.m.h[l[i]].place.idx >= level)
  }

  lemma ClosedDownStart(w: World, th: Ref, level: nat)
    requires th in w.m.h && w.m.h[th].Thread? && OpenListOK(w.m.h, th)
    requires NoDup(w.m.h[th].openupval) && th !in w.m.h[th].openupval
    ensures ClosedDown(w, w, th, level, w.m.h[th].openupval, 0)
  {
    var l := w.m.h[th].openupval;
    assert l[0..] == l;
    assert forall i :: 0 <= i < |l| ==> l[i] in l;
  }

  // The slots that a closed upvalue reads are those the thread had at the start.
  lemma ClosedDownStep(w0: World, w1: World, w2: World, th: Ref, level: nat, l: seq<Ref>, k: nat)
    requires ClosedDown(w0, w1, th, level, l, k) && AtOrAbove(w1.m.h, th, level) && FirstTaken(w1, w2, th)
    ensures k < |l| && ClosedDown(w0, w2, th, level, l, k + 1)
  {
    assert l[k..][0] == l[k] && l[k..][1..] == l[k + 1..];
    assert forall i :: 0 <= i < |l| ==> l[i] in l;
    hide IsDead;
    assert Untouched(w0, w1, l[k]);
    forall i | 0 <= i < k + 1 ensures Taken(w0, w2, l[i]) && w0.m.h[l[i]].place.idx >= level {
      if i < k {
        assert l[i] != l[k] && l[i] != th;
        assert l[i] in w1.m.h ==> Untouched(w1, w2, l[i]);
      }
    }
    forall i | k + 1 <= i < |l| ensures Untouched(w0, w2, l[i]) {
      assert l[i] != l[k] && l[i] != th;
      assert Untouched(w1, w2, l[i]);
    }
  }

  lemma ClosedDownDone(w0: World, w1: World, th: Ref, level: nat, l: seq<Ref>, k: nat)
    requires ClosedDown(w0, w1, th, level, l, k) && !AtOrAbove(w1.m.h, th, level)
    ensures ClosedTo(w0, w1, th, level)
  {
    if k < |l| {
      assert l[k..][0] == l[k] && Untouched(w0, w1, l[k]) && l[k] in l;
    }
    hide IsDead;
    forall u | u in l ensures u in w0.m.h && IsOpen(w0.m.h[u]) && UpvalAfter(w0, w1, th, level, u) {
      var i :| 0 <= i < |l| && l[i] == u;
      if i >= k {
        assert l[k..][i - k] == u;
        assert Untouched(w0, w1, l[i]) && Untouched(w0, w1, l[k]);
        assert i > k ==> w0.m.h[l[k]].place.idx > w0.m.h[l[i]].place.idx;
      } else {
        assert Taken(w0, w1, l[i]);
        assert u !in l[k..];
      }
    }
  }

  // ---------- finding the upvalue of a slot ----------

  // The first j upvalues of the list are above slot `idx'.
  ghost predicate AllAbove(h: Heap, th: Ref, j: nat, idx: nat)
    requires th in h && h[th].Thread?
  {
    var l := h[th].openupval;
    && j <= |l|
    && forall i :: 0 <= i < j ==> l[i] in h && IsOpen(h[l[i]]) && h[l[i]].place.idx > idx
  }

  lemma AllAboveSplits(h: Heap, th: Ref, j: nat, idx: nat)
    requires th in h && h[th].Thread? && OpenListOK(h, th) && AllAbove(h, th, j, idx)
    requires var l := h[th].openupval;
             j < |l| ==> l[j] in h && IsOpen(h[l[j]]) && h[l[j]].place.idx < idx
    ensures Splits(h, h[th].openupval, j, idx)
    ensures forall u :: u in h[th].openupval ==> u in h && IsOpen(h[u]) && h[u].place.idx != idx
  {
    var l := h[th].openupval;
    assert forall i :: 0 <= i < |l| ==> l[i] in l;
    forall i | j <= i < |l| ensures h[l[i]].place.idx < idx {
      assert i > j ==> h[l[j]].place.idx > h[l[i]].place.idx;
    }
  }

  lemma OpenBelongs(w: World, th: Ref, j: nat)
    requires Inv(w) && th in w.m.h && w.m.h[th].Thread? && j < |w.m.h[th].openupval|
    ensures var u := w.m.h[th].openupval[j];
            u in w.m.h && IsOpen(w.m.h[u]) && w.m.h[u].place.th == th && u in w.m.h[th].openupval
  {
    assert OpenListOK(w.m.h, th) && w.m.h[th].openupval[j] in w.m.h[th].openupval;
  }

  lemma AliveUnlessOld(w: World, u: Ref)
    requires Inv(w) && u in w.m.h && w.m.c[u] != Flip(w.white)
    ensures IsAlive(w, u)
  {
  }

  // ---------- positions of the sweep ----------

  lemma RootgcKnown(w: World, p: nat)
    requires Inv(w) && p < |w.rootgc|
    ensures w.rootgc[p] in w.m.h && w.rootgc[p] in w.m.c && w.white != Flip(w.white)
  {
    assert w.rootgc[p] in w.rootgc;
  }

  lemma IsNotDead(w: World, x: Ref)
    requires x in w.m.h && !IsDead(w, x)
    ensures IsAlive(w, x)
  {
  }

  function AdvanceSweep(w: World): World { w.(sweepgc := w.sweepgc + 1) }

  lemma AdvanceSweepKeepsInv(w: World)
    requires Inv(w) && w.phase == Sweep && w.sweepgc < |w.rootgc|
    requires RootSwept(w.m.h, w.m.c, w.white, w.rootgc[w.sweepgc])
    ensures Inv(AdvanceSweep(w)) && Sweeps(w, AdvanceSweep(w))
  {
    hide StringsOK, RootgcOK, OpenOK;
    var w1 := AdvanceSweep(w);
    assert w.rootgc[..w.sweepgc + 1] == w.rootgc[..w.sweepgc] + [w.rootgc[w.sweepgc]];
    hide RootSwept;
    assert forall x :: IsAlive(w1, x) <==> IsAlive(w, x);
    assert forall r :: IsRoot(w1, r) <==> IsRoot(w, r);
  }

  // What SweepOne may assume of a thread whose open upvalues were swept and all live.
  ghost predicate AllLive(w: World, th: Ref) {
    && th in w.m.h && w.m.h[th].Thread?
    && BucketSwept(w.m.c, w.white, w.m.h[th].openupval)
  }

  lemma AllLiveFirst(w: World, th: Ref)
    requires Inv(w) && AllLive(w, th) && w.m.h[th].openupval != []
    ensures var u := w.m.h[th].openupval[0]; !IsDead(w, u) && IsAlive(w, u)
  {
    OpenListIsOpen(w, th, 0);
    assert w.m.h[th].openupval[0] in w.m.h[th].openupval;
  }

  lemma CloseOneMore(w: World, th: Ref, p: nat)
    requires Inv(w) && w.phase == Sweep && AllLive(w, th) && w.m.h[th].openupval != []
    requires FirstOpen(w.m.h, th, w.m.h[th].openupval[0])
    requires p < |w.rootgc| && w.rootgc[p] == th && w.sweepgc <= p && IsDead(w, th)
    ensures var w1 := Close(w, th, w.m.h[th].openupval[0], w.white);
      && Sweeps(w, w1) && AllLive(w1, th) && IsDead(w1, th) && w1.phase == Sweep
      && |w1.m.h[th].openupval| < |w.m.h[th].openupval|
      && p + 1 < |w1.rootgc| && w1.rootgc[p + 1] == th && w1.sweepgc <= p + 1
      && SweepLeft(w1) <= SweepLeft(w)
  {
    var u := w.m.h[th].openupval[0];
    OpenListIsOpen(w, th, 0);
    AllLiveFirst(w, th);
    CloseSweeps(w, th, u);
    hide Inv, Sweeps, IsAlive;
    UnlinkShorter(w.uvhead, u);
    CloseLeft(w, th, u, p);
    CloseAllLive(w, th, u);
  }

  lemma CloseLeft(w: World, th: Ref, u: Ref, p: nat)
    requires FirstOpen(w.m.h, th, u) && |Unlink(w.uvhead, u)| < |w.uvhead|
    requires p < |w.rootgc| && w.sweepgc <= p
    ensures var w1 := Close(w, th, u, w.white);
      && p + 1 < |w1.rootgc| && w1.rootgc[p + 1] == w.rootgc[p] && w1.sweepgc <= p + 1
      && SweepLeft(w1) <= SweepLeft(w)
  {
    hide CloseHeap, FirstOpen;
  }

  lemma CloseAllLive(w: World, th: Ref, u: Ref)
    requires AllLive(w, th) && IsDead(w, th) && FirstOpen(w.m.h, th, u) && u != th
    ensures var w1 := Close(w, th, u, w.white);
      && AllLive(w1, th) && IsDead(w1, th) && |w1.m.h[th].openupval| < |w.m.h[th].openupval|
  {
    CloseHeapKinds(w.m.h, th, u);
    hide CloseHeap, Insert, Unlink;
    assert forall v :: v in w.m.h[th].openupval[1..] ==> v in w.m.h[th].openupval;
  }

  lemma FreeRootSweeps(w: World, p: nat)
    requires p < |w.rootgc| && IsDead(w, w.rootgc[p]) && Frees(w.m.h, FreeRoot(w, p).m.h, w.rootgc[p])
    ensures Sweeps(w, FreeRoot(w, p))
  {
    FreeSweeps(w, FreeRoot(w, p), w.rootgc[p]);
  }

  // What is left for the sweep of the object list to do.
  function SweepLeft(w: World): int { |w.rootgc| - w.sweepgc + |w.uvhead| }
}
