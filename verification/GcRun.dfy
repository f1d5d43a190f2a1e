/** Runs of the collector: the switches between its states, and what the sweep phases leave
    as it was, so that a full collection can be stated in terms of the heap it began with. */
module GcRun {
  import opened Basics
  import opened GcHeap
  import opened GcMarks
  import opened GcInv
  import opened GcMutate
  import opened GcFree
  import opened GcClear
  import opened GcAtomic

  // ---------- switching states ----------

  // The same objects with the same marks and the same roots.
  predicate SameMarks(w: World, w1: World) {
    && w1.m.h == w.m.h && w1.m.c == w.m.c && w1.fixed == w.fixed && w1.white == w.white
    && w1.mainthread == w.mainthread && w1.running == w.running && w1.registry == w.registry && w1.mt == w.mt
  }

  lemma SameMarksSweeps(w: World, w1: World)
    requires Linked(w) && SameMarks(w, w1)
    ensures Linked(w1) && Sweeps(w, w1)
  {
    assert forall x :: IsAlive(w1, x) <==> IsAlive(w, x);
    assert forall r :: IsRoot(w1, r) <==> IsRoot(w, r);
  }

  lemma SameMarksShape(w: World, w1: World)
    requires Shape(w) && SameMarks(w, w1) && w1.strt == w.strt && w1.rootgc == w.rootgc && w1.uvhead == w.uvhead
    ensures Shape(w1)
  {
    hide StringsOK, RootgcOK, OpenOK;
  }

  function BucketDone(w: World): World {
    w.(sweepstrgc := w.sweepstrgc + 1,
       phase := if w.sweepstrgc + 1 >= |w.strt| then Sweep else SweepString)
  }

  lemma BucketDoneKeepsInv(w: World)
    requires Inv(w) && w.phase == SweepString && w.sweepstrgc < |w.strt|
    requires BucketSwept(w.m.c, w.white, w.strt[w.sweepstrgc])
    ensures Inv(BucketDone(w)) && Sweeps(w, BucketDone(w))
  {
    hide Sweeps, Shape, Linked, BucketSwept;
    SameMarksSweeps(w, BucketDone(w));
    SameMarksShape(w, BucketDone(w));
  }

  function SweepDone(w: World): World { w.(phase := Finalize) }

  /** When the sweep has reached the end of the object list, every object is white again. */
  lemma SweepDoneKeepsInv(w: World)
    requires Inv(w) && w.phase == Sweep && w.sweepgc >= |w.rootgc|
    ensures Inv(SweepDone(w)) && Sweeps(w, SweepDone(w))
  {
    SweptIsWhite(w);
    hide Sweeps, Shape, Linked;
    SameMarksSweeps(w, SweepDone(w));
    SameMarksShape(w, SweepDone(w));
  }

  lemma SweptIsWhite(w: World)
    requires Shape(w) && PhaseOK(w) && w.phase == Sweep && w.sweepgc >= |w.rootgc|
    ensures AllWhite(w)
  {
    assert w.rootgc[..w.sweepgc] == w.rootgc;
    hide Hashed, Unique, NoDup, Disjoint, RootsOK;
    forall x | x in w.m.h ensures IsSwept(w.m.c, w.white, x) {
      if w.m.h[x].Str? {
        InBucket(w.strt, x);
        var i :| 0 <= i < |w.strt| && x in w.strt[i];
        assert BucketSwept(w.m.c, w.white, w.strt[i]);
      } else if IsOpen(w.m.h[x]) {
        assert w.m.h[x].place.th in w.rootgc;
        assert RootSwept(w.m.h, w.m.c, w.white, w.m.h[x].place.th);
      } else {
        assert RootSwept(w.m.h, w.m.c, w.white, x);
      }
    }
  }

  function Paused(w: World): World { w.(phase := Pause) }

  lemma PausedKeepsInv(w: World)
    requires Inv(w) && w.phase == Finalize
    ensures Inv(Paused(w)) && Sweeps(w, Paused(w))
  {
    hide Sweeps, Shape, Linked;
    SameMarksSweeps(w, Paused(w));
    SameMarksShape(w, Paused(w));
  }

  // luaC_fullgc gives up an unfinished mark phase.
  function Reset(w: World): World {
    w.(m := Unlisted(w.m), phase := SweepString, sweepgc := 0, sweepstrgc := 0)
  }

  lemma ResetKeepsInv(w: World)
    requires Inv(w) && (w.phase == Pause || w.phase == Propagate)
    ensures Inv(Reset(w)) && Sweeps(w, Reset(w))
  {
    assert 0 < |w.strt|;
    hide Sweeps, Shape, Linked;
    SameMarksSweeps(w, Reset(w));
    SameMarksShape(w, Reset(w));
  }

  lemma AllWhiteAlive(w: World)
    requires Inv(w) && (w.phase == Pause || w.phase == Finalize)
    ensures forall x :: x in w.m.h <==> IsAlive(w, x)
  {
  }

  // ---------- strong reachability ----------

  // The objects that a chain of strong references connects to a root.
  ghost function Strong(w: World): (s: set<Ref>)
    ensures forall x :: x in s <==> x in w.m.h && Reachable(w, x, true)
  {
    set x | x in w.m.h && Reachable(w, x, true)
  }

  lemma StrongClosed(w: World)
    requires Inv(w)
    ensures ClosedSet(w.m.h, Strong(w))
    ensures forall r :: IsRoot(w, r) ==> r in Strong(w) && r in w.m.h
    ensures forall x :: Reachable(w, x, true) ==> x in Strong(w)
  {
    forall x | Reachable(w, x, true) ensures x in Strong(w) {
      ReachableIsAlive(w, x, true);
    }
    forall r | IsRoot(w, r) ensures r in Strong(w) && r in w.m.h {
      RootReachable(w, r, true);
    }
    forall x, r | x in Strong(w) && x in w.m.h && Keeps(w.m.h, w.m.h[x], r) ensures r in Strong(w) {
      StepReachable(w, x, r, true);
    }
  }

  /** A set that contains the roots and is closed contains everything strongly reachable. */
  lemma StrongIsLeast(w: World, s: set<Ref>)
    requires ClosedSet(w.m.h, s) && forall r :: IsRoot(w, r) ==> r in s
    ensures Strong(w) <= s
  {
    forall x | x in Strong(w) ensures x in s {
      var p :| IsPath(w, p, true) && p[|p| - 1] == x;
      PathStays(w, p, true, iset y | y in s);
    }
  }

  // What survives, among them any string in a weak slot, as it was before the collection.
  lemma SameKeeps(w0: World, w1: World, x: Ref, r: Ref)
    requires Inv(w0) && Inv(w1) && Sweeps(w0, w1) && IsAlive(w0, x)
    ensures x in w1.m.h && (Keeps(w0.m.h, w0.m.h[x], r) <==> Keeps(w1.m.h, w1.m.h[x], r))
  {
    assert IsAlive(w1, x) && SameBody(w0.m.h, w1.m.h, x);
    if w0.m.h[x].Table? {
      InvLinked(w0);
      hide Inv;
      SameMode(w0, w1, x);
    } else if IsOpen(w0.m.h[x]) {
      InvOpensHaveThreads(w1);
      InvOpensHaveThreads(w0);
      SweepsBodies(w0, w1);
      SameOpen(w0.m.h, w1.m.h, x);
    }
    hide Inv, Sweeps, IsAlive;
    KeepsSame(w0.m.h, w1.m.h, x, r);
  }

  lemma KeepsSame(h0: Heap, h1: Heap, x: Ref, r: Ref)
    requires x in h0 && x in h1 && SameBody(h0, h1, x)
    requires h0[x].Table? ==> h1[x] == h0[x] && ModeOf(h0, h0[x].meta) == ModeOf(h1, h1[x].meta)
    requires IsOpen(h0[x]) ==> h1[x].Upval? && UpvalValue(h1, h1[x].place) == UpvalValue(h0, h0[x].place)
    ensures Keeps(h0, h0[x], r) <==> Keeps(h1, h1[x], r)
  {
  }

  lemma SweepsBodies(w0: World, w1: World)
    requires Sweeps(w0, w1)
    ensures forall y :: y in w1.m.h ==> y in w0.m.h && SameBody(w0.m.h, w1.m.h, y)
  {
  }

  lemma SameOpen(h0: Heap, h1: Heap, x: Ref)
    requires x in h0 && x in h1 && IsOpen(h0[x]) && SameBody(h0, h1, x)
    requires OpensHaveThreads(h0) && OpensHaveThreads(h1)
    requires forall y :: y in h1 ==> y in h0 && SameBody(h0, h1, y)
    ensures h1[x].Upval? && UpvalValue(h1, h1[x].place) == UpvalValue(h0, h0[x].place)
  {
    var th := h0[x].place.th;
    if h1[x] == h0[x] {
      assert th in h1 && SameBody(h0, h1, th);
    }
  }

  lemma SameMode(w0: World, w1: World, x: Ref)
    requires Linked(w0) && Sweeps(w0, w1) && IsAlive(w0, x) && w0.m.h[x].Table?
    ensures x in w1.m.h && w1.m.h[x] == w0.m.h[x]
    ensures ModeOf(w0.m.h, w0.m.h[x].meta) == ModeOf(w1.m.h, w1.m.h[x].meta)
  {
    assert IsAlive(w1, x) && SameBody(w0.m.h, w1.m.h, x);
    var b := w0.m.h[x];
    if b.meta.Obj? {
      assert Holds(w0.m.h, b, b.meta.ref);
      assert IsAlive(w0, b.meta.ref) && IsAlive(w1, b.meta.ref);
      assert SameBody(w0.m.h, w1.m.h, b.meta.ref);
    }
  }

  lemma SweepsBack(w0: World, w1: World)
    requires Sweeps(w0, w1)
    ensures forall r :: IsRoot(w0, r) <==> IsRoot(w1, r)
    ensures forall x :: IsAlive(w1, x) <==> IsAlive(w0, x)
  {
  }

  /** Sweeping changes nothing about what is strongly reachable. */
  lemma SweepsKeepStrong(w0: World, w1: World)
    requires Inv(w0) && Inv(w1) && Sweeps(w0, w1)
    ensures Strong(w0) == Strong(w1)
  {
    hide Inv, Sweeps, ClosedSet, IsRoot, Keeps, IsAlive, IsPath;
    SweepsBack(w0, w1);
    StrongClosed(w0);
    StrongClosed(w1);
    StrongAlive(w0);
    StrongAlive(w1);
    forall x, r | x in Strong(w1) && x in w0.m.h && Keeps(w0.m.h, w0.m.h[x], r) ensures r in Strong(w1) {
      SameKeeps(w0, w1, x, r);
      ClosedStep(w1.m.h, Strong(w1), x, r);
    }
    ClosedFrom(w0.m.h, Strong(w1));
    StrongIsLeast(w0, Strong(w1));
    forall x, r | x in Strong(w0) && x in w1.m.h && Keeps(w1.m.h, w1.m.h[x], r) ensures r in Strong(w0) {
      SameKeeps(w0, w1, x, r);
      ClosedStep(w0.m.h, Strong(w0), x, r);
    }
    ClosedFrom(w1.m.h, Strong(w0));
    StrongIsLeast(w1, Strong(w0));
  }

  lemma StrongAlive(w: World)
    requires Inv(w)
    ensures forall x :: x in Strong(w) ==> IsAlive(w, x) && x in w.m.h
  {
    forall x | x in Strong(w) ensures IsAlive(w, x) {
      ReachableIsAlive(w, x, true);
    }
  }

  lemma ClosedStep(h: Heap, s: set<Ref>, x: Ref, r: Ref)
    requires ClosedSet(h, s) && x in s && x in h && Keeps(h, h[x], r)
    ensures r in s
  {
  }

  lemma ClosedFrom(h: Heap, s: set<Ref>)
    requires forall x, r :: x in s && x in h && Keeps(h, h[x], r) ==> r in s
    ensures ClosedSet(h, s)
  {
  }

  // ---------- weak slots ----------

  lemma SameSaves(w0: World, w1: World, live: set<Ref>, x: Ref, r: Ref)
    requires Inv(w0) && Inv(w1) && Sweeps(w0, w1) && IsAlive(w0, x) && w0.m.h[x].Table?
    ensures x in w1.m.h && w1.m.h[x] == w0.m.h[x]
    ensures var md := ModeOf(w0.m.h, w0.m.h[x].meta);
            TableSaves(w0.m.h, live, md, w0.m.h[x], r) <==> TableSaves(w1.m.h, live, md, w1.m.h[x], r)
  {
    InvLinked(w0);
    SameMode(w0, w1, x);
    hide Inv;
    forall e | e in w0.m.h[x].nodes ensures EntrySaves(w0.m.h, live, e, r) <==> EntrySaves(w1.m.h, live, e, r) {
      SameEntry(w0, w1, live, x, e, r);
    }
    hide Linked, Sweeps, EntrySaves, IsAlive;
  }

  lemma SameEntry(w0: World, w1: World, live: set<Ref>, x: Ref, e: Entry, r: Ref)
    requires Linked(w0) && Sweeps(w0, w1) && IsAlive(w0, x) && w0.m.h[x].Table? && e in w0.m.h[x].nodes
    ensures EntrySaves(w0.m.h, live, e, r) <==> EntrySaves(w1.m.h, live, e, r)
  {
    if e.val != Nil && e.key.Obj? {
      var k := e.key.ref;
      assert EntryRefers(e, STRONG, k) && Holds(w0.m.h, w0.m.h[x], k);
      assert IsAlive(w0, k) && IsAlive(w1, k) && SameBody(w0.m.h, w1.m.h, k);
    }
  }

  lemma SweepsKeepSaves(w0: World, w1: World, live: set<Ref>, r: Ref)
    requires Inv(w0) && Inv(w1) && Sweeps(w0, w1)
    requires forall x :: x in live ==> IsAlive(w0, x)
    ensures WeakSaves(w0.m.h, live, r) <==> WeakSaves(w1.m.h, live, r)
  {
    hide Inv, TableSaves, ModeOf;
    forall x | x in live
      ensures x in w0.m.h && x in w1.m.h && w0.m.h[x].Table? == w1.m.h[x].Table?
      ensures w0.m.h[x].Table? ==> ModeOf(w0.m.h, w0.m.h[x].meta) == ModeOf(w1.m.h, w1.m.h[x].meta)
      ensures w0.m.h[x].Table? ==> var md := ModeOf(w0.m.h, w0.m.h[x].meta);
                (TableSaves(w0.m.h, live, md, w0.m.h[x], r) <==> TableSaves(w1.m.h, live, md, w1.m.h[x], r))
    {
      assert IsAlive(w0, x) && IsAlive(w1, x) && SameBody(w0.m.h, w1.m.h, x);
      if w0.m.h[x].Table? {
        InvLinked(w0);
        SameMode(w0, w1, x);
        SameSaves(w0, w1, live, x, r);
      }
    }
  }

  lemma InvLinked(w: World)
    requires Inv(w)
    ensures Linked(w)
  {
  }

  lemma KeptIsAlive(w: World, x: Ref)
    requires Inv(w) && Kept(w.m.h, w.fixed, Strong(w), x)
    ensures IsAlive(w, x)
  {
    var live := Strong(w);
    StrongAlive(w);
    if x !in live && x !in w.fixed {
      var t :| t in live && t in w.m.h && w.m.h[t].Table? && ModeOf(w.m.h, w.m.h[t].meta) != STRONG
               && TableSaves(w.m.h, live, ModeOf(w.m.h, w.m.h[t].meta), w.m.h[t], x);
      SavesHolds(w.m.h, live, ModeOf(w.m.h, w.m.h[t].meta), w.m.h[t], x);
    }
  }

  /** What a full collection keeps is determined by the heap it began with. */
  lemma SweepsKeepKept(w0: World, w1: World, x: Ref)
    requires Inv(w0) && Inv(w1) && Sweeps(w0, w1) && (forall y :: y in w1.m.h <==> IsAlive(w1, y))
    ensures Kept(w1.m.h, w1.fixed, Strong(w1), x) <==> Kept(w0.m.h, w0.fixed, Strong(w0), x)
  {
    hide Inv, WeakSaves, Strong;
    SweepsKeepStrong(w0, w1);
    StrongAlive(w0);
    if Kept(w0.m.h, w0.fixed, Strong(w0), x) {
      KeptIsAlive(w0, x);
    }
    SweepsKeepSaves(w0, w1, Strong(w0), x);
    if IsAlive(w0, x) {
      assert IsAlive(w1, x) && SameBody(w0.m.h, w1.m.h, x);
    }
  }

  // ---------- single steps ----------

  // What one step of the collector does, apart from keeping the invariant. `s' contains what
  // is marked; `live' is what the atomic step found marked.
  ghost predicate StepOK(w0: World, w1: World, s: set<Ref>, live: set<Ref>) {
    match w0.phase
    case Pause => w1.phase == Propagate && SameRoots(w0, w1) && w1.m.h == w0.m.h && Within(w1.m.h, w1.m.c, s)
    case Propagate =>
      if w0.m.gray != [] then
        w1.phase == Propagate && SameRoots(w0, w1) && w1.m.h == w0.m.h && Within(w1.m.h, w1.m.c, s)
      else
        w1.phase == SweepString && SameRoots(w0, w1) && Collected(w0, w1, s, live)
    case SweepString => (w1.phase == SweepString || w1.phase == Sweep) && Sweeps(w0, w1)
    case Sweep => (w1.phase == Sweep || w1.phase == Finalize) && Sweeps(w0, w1)
    case Finalize => w1.phase == Pause && Sweeps(w0, w1)
  }

  predicate SameRoots(w0: World, w1: World) {
    && w1.fixed == w0.fixed && w1.mainthread == w0.mainthread && w1.running == w0.running
    && w1.registry == w0.registry && w1.mt == w0.mt
  }

  // The outcome of the atomic step.
  ghost predicate Collected(w0: World, w1: World, s: set<Ref>, live: set<Ref>) {
    && live <= s && ClosedSet(w0.m.h, live) && (forall r :: IsRoot(w0, r) ==> r in live)
    && w1.m.h == Cleared(w0.m.h, live)
    && forall x :: IsAlive(w1, x) <==> Kept(w0.m.h, w0.fixed, live, x)
  }

  // How far a collection is from its end: states to come, white objects, work in this state.
  function Rank(w: World): nat {
    match w.phase
    case Propagate => 4
    case SweepString => 3
    case Sweep => 2
    case Finalize => 1
    case Pause => 0
  }

  function WhitesLeft(w: World): set<Ref> { if w.phase == Propagate then Whites(w.m.c) else {} }

  function WorkLeft(w: World): int {
    match w.phase
    case Propagate => |w.m.gray|
    case SweepString => |w.strt| - w.sweepstrgc
    case Sweep => SweepLeft(w)
    case _ => 0
  }

  // The lexicographic order that every step outside the pause descends.
  ghost predicate Descends(w0: World, w1: World) {
    || Rank(w1) < Rank(w0)
    || (Rank(w1) == Rank(w0) && WhitesLeft(w1) < WhitesLeft(w0))
    || (Rank(w1) == Rank(w0) && WhitesLeft(w1) == WhitesLeft(w0) && WorkLeft(w1) < WorkLeft(w0))
  }

  lemma DescendsToPause(w: World)
    requires w.phase == Finalize
    ensures Descends(w, Paused(w))
  {
  }

  lemma BucketLeft(w: World)
    requires Inv(w) && w.phase == SweepString
    ensures w.sweepstrgc < |w.strt|
  {
  }

  lemma WorkIsLeft(w: World)
    requires Inv(w)
    ensures 0 <= WorkLeft(w)
  {
  }

  // What a step may do to an object that the program can reach: a thread may lose dead open
  // upvalues, an open upvalue may be closed over its value, and a weak table, no other, may
  // lose the entries whose key or value is outside `live', which has all that is strongly
  // reachable.
  ghost predicate Unharmed(w0: World, w1: World, live: set<Ref>, x: Ref)
    requires x in w0.m.h && x in w1.m.h
  {
    if w0.m.h[x].Table? then
      var md := ModeOf(w0.m.h, w0.m.h[x].meta);
      || w1.m.h[x] == w0.m.h[x]
      || (md != STRONG && Strong(w0) <= live && w1.m.h[x] == ClearBody(w0.m.h, live, md, w0.m.h[x]))
    else SameBody(w0.m.h, w1.m.h, x)
  }

  /** No step frees or clears anything that the program can still reach. */
  lemma StepIsSafe(w0: World, w1: World, s: set<Ref>, live: set<Ref>, x: Ref)
    requires Inv(w0) && Inv(w1) && StepOK(w0, w1, s, live) && Reachable(w0, x, true)
    ensures x in w0.m.h && x in w1.m.h && Unharmed(w0, w1, live, x)
  {
    ReachableIsAlive(w0, x, true);
    hide Inv, Reachable, Collected, Sweeps, Within, Unharmed, SameRoots, IsDead;
    if w0.phase == Propagate && w0.m.gray == [] {
      CollectedIsSafe(w0, w1, s, live, x);
    } else if w0.phase != Propagate && w0.phase != Pause {
      SweepIsSafe(w0, w1, live, x);
    } else {
      SameIsSafe(w0, w1, live, x);
    }
  }

  lemma SameIsSafe(w0: World, w1: World, live: set<Ref>, x: Ref)
    requires w1.m.h == w0.m.h && x in w0.m.h
    ensures Unharmed(w0, w1, live, x)
  {
    hide Strong, ClearBody, ModeOf;
  }

  lemma SweepIsSafe(w0: World, w1: World, live: set<Ref>, x: Ref)
    requires Sweeps(w0, w1) && IsAlive(w0, x)
    ensures x in w1.m.h && Unharmed(w0, w1, live, x)
  {
    SweepsBack(w0, w1);
    SweepsBodies(w0, w1);
    assert IsAlive(w1, x);
    hide Sweeps, Strong, ClearBody, ModeOf, UpvalValue;
  }

  lemma CollectedIsSafe(w0: World, w1: World, s: set<Ref>, live: set<Ref>, x: Ref)
    requires Collected(w0, w1, s, live) && Reachable(w0, x, true) && x in w0.m.h
    ensures x in w1.m.h && Unharmed(w0, w1, live, x)
  {
    hide Reachable, IsRoot, IsAlive, WeakSaves, ClearBody;
    StrongIsLeast(w0, live);
    assert x in Strong(w0) && Kept(w0.m.h, w0.fixed, live, x);
    hide Strong;
    if w0.m.h[x].Table? && ModeOf(w0.m.h, w0.m.h[x].meta) == STRONG {
      StrongTableKeeps(w0.m.h, live, x);
    }
  }

  // A strong table in a closed set loses nothing.
  lemma StrongTableKeeps(h: Heap, live: set<Ref>, x: Ref)
    requires ClosedSet(h, live) && x in live && x in h && h[x].Table? && ModeOf(h, h[x].meta) == STRONG
    ensures ClearBody(h, live, STRONG, h[x]) == h[x]
  {
    hide ClearBody;
    forall r | Holds(h, h[x], r) ensures r in live {
      assert Keeps(h, h[x], r);
    }
    NothingToClear(h, live, STRONG, h[x]);
  }

  // ---------- full collections ----------

  /** What a full collection leaves: exactly the objects strongly reachable from the roots, the
      fixed ones and the strings in weak slots of reachable tables; a table that stays loses
      exactly the weak entries whose key or value went. */
  ghost predicate FullyCollected(w0: World, w1: World) {
    && SameRoots(w0, w1)
    && (forall x :: x in w1.m.h <==> Kept(w0.m.h, w0.fixed, Strong(w0), x))
    && forall x :: x in w1.m.h ==> x in w0.m.h && AfterFull(w0, w1, x)
  }

  ghost predicate AfterFull(w0: World, w1: World, x: Ref)
    requires x in w0.m.h && x in w1.m.h
  {
    if w0.m.h[x].Table? && x in Strong(w0) then
      w1.m.h[x] == ClearBody(w0.m.h, Strong(w0), ModeOf(w0.m.h, w0.m.h[x].meta), w0.m.h[x])
    else SameBody(w0.m.h, w1.m.h, x)
  }

  lemma SameHeapStrong(w: World, w1: World)
    requires w1.m.h == w.m.h && SameRoots(w, w1)
    ensures Strong(w1) == Strong(w)
  {
    assert forall r :: IsRoot(w1, r) <==> IsRoot(w, r);
    hide IsRoot, Edge;
    assert forall p :: IsPath(w, p, true) <==> IsPath(w1, p, true);
  }

  // A collection: sweep to all white (w0 to w1), mark (to w3), atomic step (to w4), sweep.
  ghost predicate Stages(w0: World, w1: World, w3: World, w4: World, w5: World, live: set<Ref>) {
    && Sweeps(w0, w1) && w1.phase == Finalize
    && w3.m.h == w1.m.h && SameRoots(w1, w3)
    && Collected(w3, w4, Strong(w1), live) && SameRoots(w3, w4)
    && Sweeps(w4, w5) && w5.phase == Pause
  }

  lemma StagesLive(w0: World, w1: World, w3: World, w4: World, w5: World, live: set<Ref>)
    requires Inv(w0) && Inv(w1) && Stages(w0, w1, w3, w4, w5, live)
    ensures live == Strong(w0) && live == Strong(w1)
  {
    hide Inv, Sweeps, IsAlive, Cleared, Strong, ClosedSet, Kept, IsRoot;
    SweepsKeepStrong(w0, w1);
    SameHeapStrong(w1, w3);
    StrongIsLeast(w3, live);
  }

  lemma StagesKeys(w0: World, w1: World, w3: World, w4: World, w5: World, live: set<Ref>, x: Ref)
    requires Inv(w0) && Inv(w1) && Inv(w5) && Stages(w0, w1, w3, w4, w5, live)
    ensures x in w5.m.h <==> Kept(w0.m.h, w0.fixed, Strong(w0), x)
    ensures x in w5.m.h ==> IsAlive(w0, x) && IsAlive(w1, x) && IsAlive(w4, x)
  {
    StagesLive(w0, w1, w3, w4, w5, live);
    AllWhiteAlive(w5);
    AllWhiteAlive(w1);
    SweepsKeepKept(w0, w1, x);
    if Kept(w0.m.h, w0.fixed, Strong(w0), x) {
      KeptIsAlive(w0, x);
    }
    SweepsBack(w0, w1);
    SweepsBack(w4, w5);
    hide Inv, Sweeps, IsAlive, Kept, ClosedSet, Cleared;
  }

  lemma SameBodyTrans(h0: Heap, h1: Heap, h2: Heap, x: Ref)
    requires x in h0 && x in h1 && x in h2 && SameBody(h0, h1, x) && SameBody(h1, h2, x)
    requires OpensHaveThreads(h1)
    requires forall y :: y in h1 ==> y in h0 && SameBody(h0, h1, y)
    ensures SameBody(h0, h2, x)
  {
    if IsOpen(h1[x]) {
      assert SameBody(h0, h1, h1[x].place.th);
    }
  }

  // Clearing looks only at what the table holds, so the sweep before it made no difference.
  lemma SameClear(w0: World, w1: World, live: set<Ref>, x: Ref)
    requires Inv(w0) && Inv(w1) && Sweeps(w0, w1) && x in w0.m.h && IsAlive(w0, x) && w0.m.h[x].Table?
    ensures x in w1.m.h && w1.m.h[x].Table?
    ensures ClearBody(w0.m.h, live, ModeOf(w0.m.h, w0.m.h[x].meta), w0.m.h[x])
         == ClearBody(w1.m.h, live, ModeOf(w1.m.h, w1.m.h[x].meta), w1.m.h[x])
  {
    hide Inv, Sweeps, Linked, IsAlive, ClearValue, ClearEntry;
    InvLinked(w0);
    SameMode(w0, w1, x);
    SweepsBack(w0, w1);
    var b := w0.m.h[x];
    forall i | 0 <= i < |b.arr| ensures ClearValue(w0.m.h, live, b.arr[i]) == ClearValue(w1.m.h, live, b.arr[i]) {
      SameClearValue(w0, w1, live, x, i);
    }
    forall i | 0 <= i < |b.nodes| ensures ClearEntry(w0.m.h, live, b.nodes[i]) == ClearEntry(w1.m.h, live, b.nodes[i]) {
      SameClearEntry(w0, w1, live, x, i);
    }
    assert ClearArr(w0.m.h, live, b.arr) == ClearArr(w1.m.h, live, b.arr);
    assert ClearNodes(w0.m.h, live, b.nodes) == ClearNodes(w1.m.h, live, b.nodes);
  }

  lemma SameClearValue(w0: World, w1: World, live: set<Ref>, x: Ref, i: nat)
    requires Linked(w0) && Sweeps(w0, w1) && x in w0.m.h && IsAlive(w0, x) && w0.m.h[x].Table? && i < |w0.m.h[x].arr|
    ensures ClearValue(w0.m.h, live, w0.m.h[x].arr[i]) == ClearValue(w1.m.h, live, w0.m.h[x].arr[i])
  {
    hide Linked, Sweeps, IsAlive;
    assert w0.m.h[x].arr[i] in w0.m.h[x].arr;
    SameDead(w0, w1, live, x, w0.m.h[x].arr[i]);
  }

  lemma SameClearEntry(w0: World, w1: World, live: set<Ref>, x: Ref, i: nat)
    requires Linked(w0) && Sweeps(w0, w1) && x in w0.m.h && IsAlive(w0, x) && w0.m.h[x].Table? && i < |w0.m.h[x].nodes|
    ensures ClearEntry(w0.m.h, live, w0.m.h[x].nodes[i]) == ClearEntry(w1.m.h, live, w0.m.h[x].nodes[i])
  {
    var e := w0.m.h[x].nodes[i];
    hide Linked, Sweeps, IsAlive, DeadRef;
    assert e in w0.m.h[x].nodes;
    if e.val != Nil {
      assert e.key.Obj? ==> EntryRefers(e, STRONG, e.key.ref);
      assert e.val.Obj? ==> EntryRefers(e, STRONG, e.val.ref);
      SameDead(w0, w1, live, x, e.key);
      SameDead(w0, w1, live, x, e.val);
    }
  }

  lemma SameDead(w0: World, w1: World, live: set<Ref>, x: Ref, v: Value)
    requires Linked(w0) && Sweeps(w0, w1) && IsAlive(w0, x)
    requires v.Obj? ==> Holds(w0.m.h, w0.m.h[x], v.ref)
    ensures DeadRef(w0.m.h, live, v) <==> DeadRef(w1.m.h, live, v)
  {
    if v.Obj? {
      assert IsAlive(w0, v.ref) && IsAlive(w1, v.ref) && SameBody(w0.m.h, w1.m.h, v.ref);
    }
  }

  lemma StagesBody(w0: World, w1: World, w3: World, w4: World, w5: World, live: set<Ref>, x: Ref)
    requires Inv(w0) && Inv(w1) && Inv(w5) && Stages(w0, w1, w3, w4, w5, live) && x in w5.m.h
    ensures x in w0.m.h && AfterFull(w0, w5, x)
  {
    StagesLive(w0, w1, w3, w4, w5, live);
    StagesKeys(w0, w1, w3, w4, w5, live, x);
    InvOpensHaveThreads(w1);
    SweepsBodies(w0, w1);
    SweepsBodies(w4, w5);
    assert x in w0.m.h && x in w1.m.h && x in w4.m.h;
    if w0.m.h[x].Table? && x in live {
      SameClear(w0, w1, live, x);
      hide Inv, Sweeps, IsAlive, ClosedSet, ClearBody, OpensHaveThreads, Strong;
    } else {
      hide Inv, Sweeps, IsAlive, ClosedSet, ClearBody, OpensHaveThreads, Strong;
      SameClearedOther(w1.m.h, w4.m.h, w5.m.h, live, x);
      SameBodyTrans(w0.m.h, w1.m.h, w5.m.h, x);
    }
  }

  lemma SameClearedOther(h1: Heap, h4: Heap, h5: Heap, live: set<Ref>, x: Ref)
    requires x in h1 && h4 == Cleared(h1, live) && x in h5 && SameBody(h4, h5, x)
    requires h1[x].Table? ==> x !in live
    ensures SameBody(h1, h5, x)
  {
    if IsOpen(h1[x]) {
      var th := h1[x].place.th;
      assert th in h1 ==> h4[th].Thread? == h1[th].Thread? && (h1[th].Thread? ==> h4[th] == h1[th]);
    }
  }

  lemma StagesRoots(w0: World, w1: World, w3: World, w4: World, w5: World, live: set<Ref>)
    requires Stages(w0, w1, w3, w4, w5, live)
    ensures SameRoots(w0, w5)
  {
    hide IsAlive, Collected, SameBody;
  }

  lemma FullIsExact(w0: World, w1: World, w3: World, w4: World, w5: World, live: set<Ref>)
    requires Inv(w0) && Inv(w1) && Inv(w5) && Stages(w0, w1, w3, w4, w5, live)
    ensures FullyCollected(w0, w5)
  {
    hide Inv, Kept, AfterFull, Stages, Strong;
    StagesRoots(w0, w1, w3, w4, w5, live);
    forall x ensures x in w5.m.h <==> Kept(w0.m.h, w0.fixed, Strong(w0), x) {
      StagesKeys(w0, w1, w3, w4, w5, live, x);
    }
    forall x | x in w5.m.h ensures x in w0.m.h && AfterFull(w0, w5, x) {
      StagesBody(w0, w1, w3, w4, w5, live, x);
    }
  }

  // Where the second half of a full collection stands.
  ghost predicate Underway(w1: World, w3: World, w4: World, w: World, live: set<Ref>) {
    if w.phase == Propagate then
      w.m.h == w1.m.h && SameRoots(w1, w) && Within(w.m.h, w.m.c, Strong(w1))
    else
      && w.phase != Propagate && w3.m.h == w1.m.h && SameRoots(w1, w3)
      && Collected(w3, w4, Strong(w1), live) && SameRoots(w3, w4) && Sweeps(w4, w)
  }

  lemma UnderwayStep(w1: World, w3: World, w4: World, w: World, w': World, live: set<Ref>, live': set<Ref>)
    requires Underway(w1, w3, w4, w, live) && StepOK(w, w', Strong(w1), live') && w.phase != Pause
    requires OpensHaveThreads(w.m.h)
    ensures if w.phase == Propagate && w.m.gray == [] then Underway(w1, w, w', w', live')
            else Underway(w1, w3, w4, w', live)
  {
    hide IsAlive, ClosedSet, Collected, Strong, Sweeps, Within;
    SweepsRefl(w');
    if w.phase != Propagate {
      SweepsTrans(w4, w, w');
    }
  }

  lemma UnderwayIsDone(w0: World, w1: World, w3: World, w4: World, w: World, live: set<Ref>)
    requires Sweeps(w0, w1) && w1.phase == Finalize && Underway(w1, w3, w4, w, live) && w.phase == Pause
    ensures Stages(w0, w1, w3, w4, w, live)
  {
  }

  lemma UnderwayStart(w1: World, w: World, live: set<Ref>)
    requires w.m.h == w1.m.h && SameRoots(w1, w) && w.phase == Propagate && Within(w.m.h, w.m.c, Strong(w1))
    ensures Underway(w1, w, w, w, live)
  {
  }

  lemma UnderwayReady(w1: World, w3: World, w4: World, w: World, live: set<Ref>)
    requires Underway(w1, w3, w4, w, live) && w.phase == Propagate && forall r :: IsRoot(w1, r) ==>
              r in Strong(w1) && r in w1.m.h
    ensures Within(w.m.h, w.m.c, Strong(w1)) && forall r :: IsRoot(w, r) ==> r in Strong(w1) && r in w.m.h
  {
  }

  // The whole heap is closed and contains the roots.
  lemma KeysReady(w: World)
    requires Inv(w) && (w.phase == Pause || w.phase == Propagate)
    ensures ClosedSet(w.m.h, w.m.h.Keys) && forall r :: IsRoot(w, r) ==> r in w.m.h
    ensures w.phase == Propagate ==> Within(w.m.h, w.m.c, w.m.h.Keys)
  {
    hide StringsOK, RootgcOK, OpenOK;
    forall x, r | x in w.m.h && Keeps(w.m.h, w.m.h[x], r) ensures r in w.m.h {
      KeepsHolds(w.m.h, w.m.h[x], r);
      assert IsAlive(w, x);
      assert IsAlive(w, r);
    }
    hide Holds, Keeps;
    assert forall r :: IsRoot(w, r) ==> IsAlive(w, r);
  }
}
