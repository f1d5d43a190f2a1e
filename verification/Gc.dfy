/** The incremental collector of lgc.c: mark phase, atomic step, sweep, write barriers and
    the five-state machine, over the global state of lstate.h. */
module Gc {
  import opened Basics
  import opened GcHeap
  import opened GcMarks
  import opened GcInv
  import opened GcMutate
  import opened GcUpvals
  import opened GcFree
  import opened GcClear
  import opened GcAtomic
  import opened GcRun
  import opened GcStores

  const GCSWEEPMAX := 40

  class Collector {
    var heap: Heap
    var color: Colors
    var weakbits: map<Ref, Mode>
    var fixed: set<Ref>
    var currentwhite: Color
    var gcstate: Phase
    var gray: seq<Ref>
    var grayagain: seq<Ref>
    var weak: seq<Ref>
    var rootgc: seq<Ref>
    var sweepgc: nat
    var strt: seq<seq<Ref>>
    var sweepstrgc: nat
    var uvhead: seq<Ref>
    const mainthread: Ref
    var running: Ref
    var registry: Value
    var mt: seq<Value>

    ghost function Now(): State
      reads this
    {
      State(heap, color, gray, grayagain, weak)
    }

    ghost function W(): World
      reads this
    {
      World(Now(), fixed, currentwhite, gcstate, rootgc, sweepgc, strt, sweepstrgc, uvhead,
            mainthread, running, registry, mt)
    }

    /** A fresh state: the main thread is all there is. */
    constructor (main: Ref, slots: nat, buckets: nat)
      requires 0 < buckets
      ensures Inv(W()) && gcstate == Pause
      ensures heap == map[main := Thread(Nil, seq(slots, _ => Nil), [])]
    {
      heap := map[main := Thread(Nil, seq(slots, _ => Nil), [])];
      color := map[main := White0];
      fixed := {main};
      currentwhite := White0;
      gcstate := Pause;
      gray, grayagain, weak, weakbits := [], [], [], map[];
      rootgc, sweepgc := [main], 0;
      strt, sweepstrgc := seq(buckets, _ => []), 0;
      uvhead := [];
      mainthread, running, registry, mt := main, main, Nil, [];
      new;
      FreshKeepsInv(W(), main, slots, buckets);
    }

    // ---------- marking ----------

    // Throughout, `ex' holds the objects whose traversal is under way, `s' is a set closed
    // under strong references that contains everything marked, and the value of every marked
    // open upvalue outside `un' is marked too.

    method MarkValue(v: Value, ghost ex: set<Ref>, ghost s: set<Ref>, ghost un: set<Ref>)
      requires Marking(Now(), ex, s, un)
      requires v.Obj? ==> v.ref in heap && v.ref in s
      modifies this`color, this`gray
      ensures Marking(Now(), ex, s, un) && MarkStep(old(Now()), Now())
      ensures v.Obj? ==> IsMarked(color, v.ref)
      decreases Whites(color), 2
    {
      if v.Obj? && IsWhite(color[v.ref]) {
        ReallyMarkObject(v.ref, ex, s, un);
      }
    }

    method ReallyMarkObject(o: Ref, ghost ex: set<Ref>, ghost s: set<Ref>, ghost un: set<Ref>)
      requires Marking(Now(), ex, s, un)
      requires o in heap && o in color && o in s && IsWhite(color[o])
      modifies this`color, this`gray
      ensures Marking(Now(), ex, s, un) && MarkStep(old(Now()), Now())
      ensures IsMarked(color, o) && Whites(color) < Whites(old(color))
      decreases Whites(color), 1
    {
      hide Marking, MarkStep;
      ghost var m0 := Now();
      var k := if heap[o].Udata? then Black else Gray;  // userdata are never gray
      BeginMark(m0, o, k, ex, s, un);
      color := color[o := k];
      ghost var m1 := Now();
      match heap[o] {
        case Str(_) =>
          StringDone(m1, o, ex, s, un);
        case Udata(_, _) =>
          MarkUdata(o, ex, s, un);
          MarkStepTrans(m0, m1, Now());
          WhitesShrink(m1, Now());
        case Upval(_) =>
          ghost var mid := MarkUpval(o, ex, s, un);
          MarkStepTrans(m0, m1, mid);
          RecolorIsMarkStep(m0, mid, o);
          WhitesShrink(m1, mid);
        case _ =>
          PushGrayOK(m1, o, ex + {o}, s, un);
          gray := [o] + gray;
          ListedDone(Now(), o, ex, s, un);
          PushIsMarkStep(m0, m1, o);
      }
    }

    method MarkUdata(o: Ref, ghost ex: set<Ref>, ghost s: set<Ref>, ghost un: set<Ref>)
      requires Marking(Now(), ex + {o}, s, un)
      requires o in heap && heap[o].Udata? && o in color && color[o] == Black && o in s && !Listed(Now(), o)
      modifies this`color, this`gray
      ensures Marking(Now(), ex, s, un) && MarkStep(old(Now()), Now())
      decreases Whites(color), 3
    {
      hide Marking, MarkStep;
      ghost var m0 := Now();
      KeptIsKnown(m0, o, ex + {o}, s, un);
      assert forall v :: v == heap[o].meta || v == heap[o].env ==> v.Obj? ==> Keeps(heap, heap[o], v.ref);
      MarkValue(heap[o].meta, ex + {o}, s, un);
      ghost var m1 := Now();
      WhitesShrink(m0, m1);
      MarkValue(heap[o].env, ex + {o}, s, un);
      MarkStepTrans(m0, m1, Now());
      if heap[o].meta.Obj? {
        MarkedStays(m1, Now(), heap[o].meta.ref);
      }
      MarkedStays(m0, Now(), o);
      UnlistedStays(m0, Now(), o);
      EndBlack(Now(), o, ex, s, un);
    }

    // An open upvalue stays gray, a closed one ends black; `mid' is the state in between.
    method MarkUpval(o: Ref, ghost ex: set<Ref>, ghost s: set<Ref>, ghost un: set<Ref>)
      returns (ghost mid: State)
      requires Marking(Now(), ex + {o}, s, un)
      requires o in heap && heap[o].Upval? && o in color && color[o] == Gray && o in s && !Listed(Now(), o)
      modifies this`color, this`gray
      ensures Marking(Now(), ex, s, un) && MarkStep(old(Now()), mid)
      ensures Now() == if IsOpen(heap[o]) then mid else mid.(c := mid.c[o := Black])
      decreases Whites(color), 3
    {
      hide Marking, MarkStep;
      ghost var m0 := Now();
      var v := UpvalValue(heap, heap[o].place);
      KeptIsKnown(m0, o, ex + {o}, s, un);
      assert v.Obj? ==> Keeps(heap, heap[o], v.ref);
      MarkValue(v, ex + {o}, s, un);
      mid := Now();
      MarkedStays(m0, mid, o);
      UnlistedStays(m0, mid, o);
      if heap[o].place.Closed? {
        Recolor(mid, o, Black, ex + {o}, s, un);
        color := color[o := Black];
        EndBlack(Now(), o, ex, s, un);
      } else {
        EndMark(mid, o, ex, s, un);
      }
    }

    method StringMark(r: Ref, ghost ex: set<Ref>, ghost s: set<Ref>, ghost un: set<Ref>)
      requires Marking(Now(), ex, s, un)
      requires r in heap && heap[r].Str? && r in color && r in s
      modifies this`color
      ensures Marking(Now(), ex, s, un) && MarkStep(old(Now()), Now()) && IsMarked(color, r)
    {
      hide Marking;
      if IsWhite(color[r]) {
        BeginMark(Now(), r, Gray, ex, s, un);
        color := color[r := Gray];
        StringDone(Now(), r, ex, s, un);
      }
    }

    method MarkValues(vs: seq<Value>, ghost ex: set<Ref>, ghost s: set<Ref>, ghost un: set<Ref>)
      requires Marking(Now(), ex, s, un)
      requires forall v :: v in vs && v.Obj? ==> v.ref in heap && v.ref in s
      modifies this`color, this`gray
      ensures Marking(Now(), ex, s, un) && MarkStep(old(Now()), Now())
      ensures forall v :: v in vs && v.Obj? ==> IsMarked(color, v.ref)
    {
      hide Marking;
      for i := 0 to |vs|
        invariant Marking(Now(), ex, s, un) && MarkStep(old(Now()), Now())
        invariant forall k :: 0 <= k < i && vs[k].Obj? ==> IsMarked(color, vs[k].ref)
      {
        MarkValue(vs[i], ex, s, un);
      }
    }

    method StringMarks(names: seq<Ref>, ghost ex: set<Ref>, ghost s: set<Ref>, ghost un: set<Ref>)
      requires Marking(Now(), ex, s, un)
      requires forall r :: r in names ==> r in heap && heap[r].Str? && r in color && r in s
      modifies this`color
      ensures Marking(Now(), ex, s, un) && MarkStep(old(Now()), Now())
      ensures forall r :: r in names ==> IsMarked(color, r)
    {
      hide Marking;
      for i := 0 to |names|
        invariant Marking(Now(), ex, s, un) && MarkStep(old(Now()), Now())
        invariant forall k :: 0 <= k < i ==> IsMarked(color, names[k])
      {
        StringMark(names[i], ex, s, un);
      }
    }

    method TraverseProto(o: Ref, ghost ex: set<Ref>, ghost s: set<Ref>, ghost un: set<Ref>)
      requires Marking(Now(), ex, s, un) && o in heap && heap[o].Proto? && o in s
      modifies this`color, this`gray
      ensures Marking(Now(), ex, s, un) && MarkStep(old(Now()), Now())
      ensures Settled(heap, color, o)
    {
      hide Marking, MarkStep, Keeps;
      ghost var m0 := Now();
      KeptIsKnown(m0, o, ex, s, un);
      var f := heap[o];
      ProtoKeeps(heap, f);
      StringMarks(f.names, ex, s, un);
      ghost var m1 := Now();
      MarkValues(f.consts, ex, s, un);
      StepsKeepMarks(m0, m1, Now());
      ghost var m2 := Now();
      MarkValues(f.protos, ex, s, un);
      StepsKeepMarks(m0, m2, Now());
    }

    method TraverseClosure(o: Ref, ghost ex: set<Ref>, ghost s: set<Ref>, ghost un: set<Ref>)
      requires Marking(Now(), ex, s, un) && o in heap && heap[o].Closure? && o in s
      modifies this`color, this`gray
      ensures Marking(Now(), ex, s, un) && MarkStep(old(Now()), Now())
      ensures Settled(heap, color, o)
    {
      hide Marking, MarkStep, Keeps;
      ghost var m0 := Now();
      KeptIsKnown(m0, o, ex, s, un);
      var cl := heap[o];
      ClosureKeeps(heap, cl);
      MarkValue(cl.env, ex, s, un);
      ghost var m1 := Now();
      MarkValue(cl.proto, ex, s, un);
      StepsKeepMarks(m0, m1, Now());
      ghost var m2 := Now();
      MarkValues(cl.upvals, ex, s, un);
      StepsKeepMarks(m0, m2, Now());
    }

    method TraverseStack(o: Ref, ghost ex: set<Ref>, ghost s: set<Ref>, ghost un: set<Ref>)
      requires Marking(Now(), ex, s, un) && o in heap && heap[o].Thread? && o in s
      modifies this`color, this`gray
      ensures Marking(Now(), ex, s, un) && MarkStep(old(Now()), Now())
      ensures Settled(heap, color, o)
    {
      hide Marking, MarkStep, Keeps;
      ghost var m0 := Now();
      KeptIsKnown(m0, o, ex, s, un);
      var th := heap[o];
      ThreadKeeps(heap, th);
      MarkValue(th.gt, ex, s, un);
      ghost var m1 := Now();
      MarkValues(th.stack, ex, s, un);
      StepsKeepMarks(m0, m1, Now());
    }

    method MarkEntry(n: Entry, m: Mode, ghost ex: set<Ref>, ghost s: set<Ref>, ghost un: set<Ref>)
      requires Marking(Now(), ex, s, un)
      requires forall r :: EntryRefers(n, m, r) ==> r in heap && r in s
      modifies this`color, this`gray
      ensures Marking(Now(), ex, s, un) && MarkStep(old(Now()), Now())
      ensures forall r :: EntryRefers(n, m, r) ==> IsMarked(color, r)
    {
      hide Marking;
      if n.val != Nil {
        if !m.k {
          assert n.key.Obj? ==> EntryRefers(n, m, n.key.ref);
          MarkValue(n.key, ex, s, un);
        }
        if !m.v {
          assert n.val.Obj? ==> EntryRefers(n, m, n.val.ref);
          MarkValue(n.val, ex, s, un);
        }
      }
    }

    method MarkNodes(o: Ref, m: Mode, ghost ex: set<Ref>, ghost s: set<Ref>, ghost un: set<Ref>)
      requires Marking(Now(), ex, s, un) && o in heap && heap[o].Table? && o in s
      requires m == ModeOf(heap, heap[o].meta)
      modifies this`color, this`gray
      ensures Marking(Now(), ex, s, un) && MarkStep(old(Now()), Now())
      ensures forall n, r :: n in heap[o].nodes && EntryRefers(n, m, r) ==> IsMarked(color, r)
    {
      hide Marking, MarkStep;
      ghost var m0 := Now();
      KeptIsKnown(m0, o, ex, s, un);
      var h := heap[o];
      assert forall n, r :: n in h.nodes && EntryRefers(n, m, r) ==> Keeps(heap, h, r);
      hide Keeps, EntryRefers;
      var i := |h.nodes|;
      MarkStepRefl(m0);
      while i > 0
        invariant 0 <= i <= |h.nodes|
        invariant Marking(Now(), ex, s, un) && MarkStep(m0, Now())
        invariant forall n, r :: n in h.nodes[i..] && EntryRefers(n, m, r) ==> IsMarked(color, r)
      {
        i := i - 1;
        assert h.nodes[i..] == [h.nodes[i]] + h.nodes[i + 1..];
        ghost var m1 := Now();
        MarkEntry(h.nodes[i], m, ex, s, un);
        StepsKeepMarks(m0, m1, Now());
      }
    }

    method MarkContents(o: Ref, m: Mode, ghost ex: set<Ref>, ghost s: set<Ref>, ghost un: set<Ref>)
      requires Marking(Now(), ex, s, un) && o in heap && heap[o].Table? && o in s
      requires m == ModeOf(heap, heap[o].meta)
      requires heap[o].meta.Obj? ==> IsMarked(color, heap[o].meta.ref)
      modifies this`color, this`gray
      ensures Marking(Now(), ex, s, un) && MarkStep(old(Now()), Now())
      ensures Settled(heap, color, o)
    {
      hide Marking;
      KeptIsKnown(Now(), o, ex, s, un);
      var h := heap[o];
      if m.k && m.v {
        return;
      }
      if !m.v {
        assert forall r :: Obj(r) in h.arr ==> Keeps(heap, h, r);
        MarkValues(h.arr, ex, s, un);
      }
      MarkNodes(o, m, ex, s, un);
    }

    /** Marks what the table keeps alive and says whether it is weak, in which case it goes
        on the list of tables to clear. */
    method TraverseTable(o: Ref, ghost ex: set<Ref>, ghost s: set<Ref>, ghost un: set<Ref>) returns (isWeak: bool)
      requires Marking(Now(), ex, s, un) && o in heap && heap[o].Table? && o in s
      requires o in ex && IsMarked(color, o) && !Listed(Now(), o)
      modifies this`color, this`gray, this`weak, this`weakbits
      ensures Marking(Now(), ex, s, un) && Settled(heap, color, o)
      ensures isWeak <==> ModeOf(heap, heap[o].meta) != STRONG
      ensures weak == (if isWeak then [o] else []) + old(weak)
      ensures weakbits == if isWeak then old(weakbits)[o := ModeOf(heap, heap[o].meta)] else old(weakbits)
      ensures MarkStep(old(Now()), Now().(weak := old(weak)))
    {
      hide Marking, MarkStep, Settled, Keeps;
      ghost var m0 := Now();
      KeptIsKnown(m0, o, ex, s, un);
      var m := ModeOf(heap, heap[o].meta);
      if heap[o].meta.Obj? {
        MetaIsKept(heap, heap[o]);
      }
      MarkValue(heap[o].meta, ex, s, un);
      ghost var m1 := Now();
      UnlistedStays(m0, m1, o);
      isWeak := m.k || m.v;
      if isWeak {
        PushWeakOK(m1, o, ex, s, un);
        weakbits := weakbits[o := m];
        weak := [o] + weak;
      }
      MarkContents(o, m, ex, s, un);
      MarkStepRelist(m0, m1, Now(), m1.weak);
    }

    method PropagateTable(o: Ref, ghost s: set<Ref>, ghost un: set<Ref>, ghost pend: set<Ref>)
      requires Marking(Now(), {o}, s, un) && o in heap && heap[o].Table? && o in s
      requires o in color && color[o] == Black && !Listed(Now(), o)
      modifies this`color, this`gray, this`weak, this`weakbits
      ensures Marking(Now(), {}, s, un) && Advances(old(Now()), Now())
      ensures Whites(color) <= Whites(old(color))
      ensures Whites(color) == Whites(old(color)) ==> gray == old(gray)
      ensures old(BitsOK(heap, weak, weakbits, pend)) ==> BitsOK(heap, weak, weakbits, pend)
    {
      hide Marking, MarkStep, Settled;
      ghost var m0 := Now();
      var isWeak := TraverseTable(o, {o}, s, un);
      ghost var m1 := Now();
      ghost var m1' := m1.(weak := m0.weak);
      MarkStepAdvances(m0, m1');
      MarkedStays(m0, m1', o);
      UnlistedStays(m0, m1', o);
      assert {} + {o} == {o};
      if isWeak {  // it stays gray
        Recolor(m1, o, Gray, {o}, s, un);
        RecolorAdvances(m1, o, Gray);
        color := color[o := Gray];
        ListedDone(Now(), o, {}, s, un);
        SettledAdvances(m1, Now(), o);
      } else {
        assert m1 == m1';
        EndBlack(m1, o, {}, s, un);
      }
    }

    method PropagateThread(o: Ref, ghost s: set<Ref>, ghost un: set<Ref>)
      requires Marking(Now(), {o}, s, un) && o in heap && heap[o].Thread? && o in s
      requires o in color && color[o] == Black && !Listed(Now(), o)
      modifies this`color, this`gray, this`grayagain
      ensures Marking(Now(), {}, s, un) && Advances(old(Now()), Now())
      ensures Whites(color) <= Whites(old(color))
      ensures Whites(color) == Whites(old(color)) ==> gray == old(gray)
    {
      hide Marking, MarkStep, Settled;
      ghost var m0 := Now();
      PushAgainOK(m0, o, {o}, s, un);
      grayagain := [o] + grayagain;
      Recolor(Now(), o, Gray, {o}, s, un);
      RecolorAdvances(Now(), o, Gray);
      color := color[o := Gray];
      ghost var m1 := Now();
      TraverseStack(o, {o}, s, un);
      MarkStepAdvances(m1, Now());
      MarkedStays(m1, Now(), o);
      assert {} + {o} == {o};
      ListedDone(Now(), o, {}, s, un);
    }

    method PropagateClosure(o: Ref, ghost s: set<Ref>, ghost un: set<Ref>)
      requires Marking(Now(), {o}, s, un) && o in heap && (heap[o].Closure? || heap[o].Proto?) && o in s
      requires o in color && color[o] == Black && !Listed(Now(), o)
      modifies this`color, this`gray
      ensures Marking(Now(), {}, s, un) && Advances(old(Now()), Now())
      ensures Whites(color) <= Whites(old(color))
      ensures Whites(color) == Whites(old(color)) ==> gray == old(gray)
    {
      hide Marking, MarkStep, Settled;
      ghost var m0 := Now();
      if heap[o].Closure? {
        TraverseClosure(o, {o}, s, un);
      } else {
        TraverseProto(o, {o}, s, un);
      }
      MarkStepAdvances(m0, Now());
      MarkedStays(m0, Now(), o);
      UnlistedStays(m0, Now(), o);
      assert {} + {o} == {o};
      EndBlack(Now(), o, {}, s, un);
    }

    /** Traverses the first gray object and turns it black, except that weak tables and
        threads stay gray and are put aside. */
    method PropagateMark(ghost s: set<Ref>, ghost un: set<Ref>, ghost pend: set<Ref>)
      requires Marking(Now(), {}, s, un) && gray != []
      modifies this`color, this`gray, this`grayagain, this`weak, this`weakbits
      ensures Marking(Now(), {}, s, un) && Advances(old(Now()), Now())
      ensures Whites(color) < Whites(old(color)) || (Whites(color) == Whites(old(color)) && |gray| < |old(gray)|)
      ensures old(BitsOK(heap, weak, weakbits, pend)) ==> BitsOK(heap, weak, weakbits, pend)
    {
      hide Marking, MarkStep, Settled;
      ghost var m0 := Now();
      PopGrayOK(m0, {}, s, un);
      var o := gray[0];
      assert {} + {o} == {o};
      gray := gray[1..];
      Recolor(Now(), o, Black, {o}, s, un);
      RecolorAdvances(Now(), o, Black);
      color := color[o := Black];
      ghost var m1 := Now();
      assert Advances(m0, m1);
      if heap[o].Table? {
        PropagateTable(o, s, un, pend);
      } else if heap[o].Thread? {
        PropagateThread(o, s, un);
      } else {
        PropagateClosure(o, s, un);
      }
      AdvancesTrans(m0, m1, Now());
    }

    method PropagateAll(ghost s: set<Ref>, ghost un: set<Ref>, ghost pend: set<Ref>)
      requires Marking(Now(), {}, s, un)
      modifies this`color, this`gray, this`grayagain, this`weak, this`weakbits
      ensures Marking(Now(), {}, s, un) && Advances(old(Now()), Now()) && gray == []
      ensures old(BitsOK(heap, weak, weakbits, pend)) ==> BitsOK(heap, weak, weakbits, pend)
    {
      hide Marking, Settled;
      ghost var m0 := Now();
      while gray != []
        invariant Marking(Now(), {}, s, un) && Advances(m0, Now())
        invariant old(BitsOK(heap, weak, weakbits, pend)) ==> BitsOK(heap, weak, weakbits, pend)
        decreases Whites(color), |gray|
      {
        ghost var m1 := Now();
        PropagateMark(s, un, pend);
        AdvancesTrans(m0, m1, Now());
      }
    }

    // ---------- the roots ----------

    ghost predicate RootsWithin(s: set<Ref>)
      reads this
    {
      && mainthread in s && mainthread in heap && running in s && running in heap
      && (registry.Obj? ==> registry.ref in s && registry.ref in heap)
      && forall v :: v in mt && v.Obj? ==> v.ref in s && v.ref in heap
    }

    /** Starts a new cycle on an all-white heap. */
    method MarkRoot(ghost s: set<Ref>)
      requires Inv(W()) && (gcstate == Pause || gcstate == Finalize)
      requires ClosedSet(heap, s) && RootsWithin(s)
      modifies this`color, this`gray, this`grayagain, this`weak, this`gcstate
      ensures Inv(W()) && gcstate == Propagate && Within(heap, color, s)
    {
      hide Marking, MarkStep, Shape, Linked, AllWhite;
      ForgetLists(W());
      gray, grayagain, weak := [], [], [];
      ghost var w0 := W();
      AllWhiteMarking(w0, s);
      MarkRootSet(s, heap.Keys);
      gcstate := Propagate;
      RootsMarked(w0, W(), s, heap.Keys);
    }

    method MarkRootSet(ghost s: set<Ref>, ghost un: set<Ref>)
      requires Marking(Now(), {}, s, un) && RootsWithin(s) && heap[mainthread].Thread?
      modifies this`color, this`gray
      ensures Marking(Now(), {}, s, un) && MarkStep(old(Now()), Now())
      ensures IsMarked(color, mainthread) && (registry.Obj? ==> IsMarked(color, registry.ref))
    {
      hide Marking, MarkStep, IsMarked, Keeps;
      ghost var m0 := Now();
      MarkMainThread(s, un);
      ghost var m2 := Now();
      MarkValue(registry, {}, s, un);
      ghost var m3 := Now();
      MarkStepTrans(m0, m2, m3);
      MarkedStays(m2, m3, mainthread);
      MarkMt({}, s, un);
      MarkStepTrans(m0, m3, Now());
      MarkedStays(m3, Now(), mainthread);
      if registry.Obj? {
        MarkedStays(m3, Now(), registry.ref);
      }
    }

    method MarkMainThread(ghost s: set<Ref>, ghost un: set<Ref>)
      requires Marking(Now(), {}, s, un) && mainthread in heap && mainthread in s && heap[mainthread].Thread?
      modifies this`color, this`gray
      ensures Marking(Now(), {}, s, un) && MarkStep(old(Now()), Now()) && IsMarked(color, mainthread)
    {
      hide Marking, MarkStep, IsMarked, Keeps;
      ghost var m0 := Now();
      KeptIsKnown(m0, mainthread, {}, s, un);
      if heap[mainthread].gt.Obj? {
        ThreadHoldsGlobals(heap, mainthread);
      }
      MarkValue(Obj(mainthread), {}, s, un);
      ghost var m1 := Now();
      MarkValue(heap[mainthread].gt, {}, s, un);
      MarkStepTrans(m0, m1, Now());
      MarkedStays(m1, Now(), mainthread);
    }

    method MarkMt(ghost ex: set<Ref>, ghost s: set<Ref>, ghost un: set<Ref>)
      requires Marking(Now(), ex, s, un) && RootsWithin(s)
      modifies this`color, this`gray
      ensures Marking(Now(), ex, s, un) && MarkStep(old(Now()), Now())
      ensures forall v :: v in mt && v.Obj? ==> IsMarked(color, v.ref)
    {
      hide Marking;
      MarkValues(mt, ex, s, un);
    }

    // ---------- the atomic step ----------

    ghost function From(i: nat): set<Ref>
      requires i <= |uvhead|
      reads this
    {
      set x | x in uvhead[i..]
    }

    /** Marks the values of the open upvalues that were reached, whatever their threads. */
    method RemarkUpvals(ghost s: set<Ref>)
      requires Marking(Now(), {}, s, heap.Keys)
      requires forall u :: u in uvhead <==> u in heap && IsOpen(heap[u])
      modifies this`color, this`gray
      ensures Marking(Now(), {}, s, {}) && MarkStep(old(Now()), Now())
    {
      hide Marking, MarkStep;
      ghost var m0 := Now();
      Unwait(m0, s, heap.Keys, From(0));
      MarkStepRefl(m0);
      for i := 0 to |uvhead|
        invariant Marking(Now(), {}, s, From(i)) && MarkStep(m0, Now())
      {
        var uv := uvhead[i];
        assert uv in uvhead;
        ghost var m1 := Now();
        KeysKnown(m1, {}, s, From(i));
        if color[uv] == Gray {
          var v := UpvalValue(heap, heap[uv].place);
          MarkedIsWithin(m1, uv, {}, s, From(i));
          KeptIsKnown(m1, uv, {}, s, From(i));
          MarkValue(v, {}, s, From(i));
          MarkStepTrans(m0, m1, Now());
        } else {
          OpenNotBlack(m1, uv, {}, s, From(i));
        }
        assert uvhead[i..] == [uv] + uvhead[i + 1..];
        Unwait(Now(), s, From(i), From(i + 1));
      }
      Unwait(Now(), s, From(|uvhead|), {});
    }

    /** The marking part of the atomic step: afterwards nothing is left to traverse. */
    method AtomicMark(ghost s: set<Ref>)
      requires Marking(Now(), {}, s, heap.Keys) && gray == [] && RootsWithin(s)
      requires forall u :: u in uvhead <==> u in heap && IsOpen(heap[u])
      modifies this`color, this`gray, this`grayagain, this`weak, this`weakbits
      ensures Marking(Now(), {}, s, {}) && Advances(old(Now()), Now())
      ensures Traversed(Now(), weakbits)
      ensures IsMarked(color, running) && forall v :: v in mt && v.Obj? ==> IsMarked(color, v.ref)
    {
      hide Marking, MarkStep, Traversed, BitsOK, Settled;
      ghost var m0 := Now();
      RemarkUpvals(s);
      ghost var m1 := Now();
      MarkStepAdvances(m0, m1);
      PropagateAll(s, {}, {});
      ghost var m2 := Now();
      AdvancesTrans(m0, m1, m2);
      AtomicWeak(s);
      ghost var m6 := Now();
      AdvancesTrans(m0, m2, m6);
      AtomicAgain(s);
      AdvancesTrans(m0, m6, Now());
    }

    // mark the running thread and the basic metatables
    method MarkLate(ghost s: set<Ref>)
      requires Marking(Now(), {}, s, {}) && RootsWithin(s)
      modifies this`color, this`gray
      ensures Marking(Now(), {}, s, {}) && Advances(old(Now()), Now())
      ensures IsMarked(color, running) && forall v :: v in mt && v.Obj? ==> IsMarked(color, v.ref)
    {
      hide Marking, MarkStep;
      ghost var m3 := Now();
      MarkValue(Obj(running), {}, s, {});
      ghost var m4 := Now();
      MarkMt({}, s, {});
      MarkStepTrans(m3, m4, Now());
      MarkedStays(m4, Now(), running);
      MarkStepAdvances(m3, Now());
    }

    // weak tables once more
    method AtomicWeak(ghost s: set<Ref>)
      requires Marking(Now(), {}, s, {}) && gray == [] && RootsWithin(s)
      modifies this`color, this`gray, this`grayagain, this`weak, this`weakbits
      ensures Marking(Now(), {}, s, {}) && Advances(old(Now()), Now()) && gray == []
      ensures BitsOK(heap, weak, weakbits, {}) && forall x :: x in weak ==> x in heap && Settled(heap, color, x)
      ensures IsMarked(color, running) && forall v :: v in mt && v.Obj? ==> IsMarked(color, v.ref)
    {
      hide Marking, MarkStep, BitsOK, Settled;
      ghost var m2 := Now();
      MoveWeak(m2, s, {});
      gray := weak;
      weak := [];
      ghost var m3 := Now();
      assert Advances(m2, m3);
      BitsOfNone(heap, weakbits);
      MarkLate(s);
      ghost var m4 := Now();
      PropagateAll(s, {}, {});
      AdvancesTrans(m3, m4, Now());
      AdvancesTrans(m2, m3, Now());
    }

    // what was put aside
    method AtomicAgain(ghost s: set<Ref>)
      requires Marking(Now(), {}, s, {}) && gray == []
      requires BitsOK(heap, weak, weakbits, {}) && forall x :: x in weak ==> x in heap && Settled(heap, color, x)
      modifies this`color, this`gray, this`grayagain, this`weak, this`weakbits
      ensures Marking(Now(), {}, s, {}) && Advances(old(Now()), Now())
      ensures Traversed(Now(), weakbits)
    {
      hide Marking, MarkStep, Traversed, BitsOK;
      ghost var m6 := Now();
      MoveGrayAgain(m6, s, {});
      gray := grayagain;
      grayagain := [];
      ghost var m7 := Now();
      PropagateAll(s, {}, {});
      assert Advances(m6, m7);
      AdvancesTrans(m6, m7, Now());
      AllTraversed(Now(), s, weakbits);
    }

    // ---------- clearing weak tables ----------

    // `h0' and `c0' are heap and colours when clearing began, `saved' the strings met since.
    ghost predicate Clearing(h0: Heap, c0: Colors, saved: set<Ref>)
      reads this
    {
      SameKinds(h0, heap) && c0.Keys == h0.Keys && color == SaveStrings(h0, c0, saved)
    }

    /** Strings are marked and kept; other collectable values go if they are white. */
    method IsCleared(v: Value, ghost h0: Heap, ghost c0: Colors, ghost saved: set<Ref>)
      returns (gone: bool)
      requires Clearing(h0, c0, saved) && (v.Obj? ==> v.ref in h0)
      modifies this`color
      ensures Clearing(h0, c0, saved + if v.Obj? then {v.ref} else {})
      ensures gone == DeadRef(h0, Live(c0), v)
    {
      if !v.Obj? {
        assert saved + {} == saved;
        return false;
      }
      if heap[v.ref].Str? {
        SaveMore(h0, c0, saved, v.ref);
        if IsWhite(color[v.ref]) {
          color := color[v.ref := Gray];
        }
        return false;
      }
      assert SaveStrings(h0, c0, saved + {v.ref}) == SaveStrings(h0, c0, saved);
      return IsWhite(color[v.ref]);
    }

    method ClearArray(o: Ref, ghost h0: Heap, ghost c0: Colors, ghost saved: set<Ref>)
      returns (ghost more: set<Ref>)
      requires Clearing(h0, c0, saved) && o in heap && heap[o].Table?
      requires forall v :: v in heap[o].arr && v.Obj? ==> v.ref in h0
      modifies this`color, this`heap
      ensures heap == old(heap)[o := old(heap[o]).(arr := ClearArr(h0, Live(c0), old(heap[o].arr)))]
      ensures Clearing(h0, c0, more)
      ensures forall r :: r in more <==> r in saved || Obj(r) in old(heap[o].arr)
    {
      more := saved;
      var arr := heap[o].arr;
      var i := |arr|;
      assert arr[..i] + ClearArr(h0, Live(c0), arr)[i..] == arr && arr[i..] == [];
      assert heap == heap[o := heap[o].(arr := arr)];
      while i > 0
        invariant 0 <= i <= |arr| && o in heap && heap[o].Table?
        invariant heap == old(heap)[o := old(heap[o]).(arr := arr[..i] + ClearArr(h0, Live(c0), arr)[i..])]
        invariant Clearing(h0, c0, more)
        invariant forall r :: r in more <==> r in saved || Obj(r) in arr[i..]
      {
        i := i - 1;
        Tail(arr, i);
        ReplaceOne(arr, ClearArr(h0, Live(c0), arr), i);
        var gone := IsCleared(heap[o].arr[i], h0, c0, more);
        more := more + if arr[i].Obj? then {arr[i].ref} else {};
        if gone {
          heap := heap[o := heap[o].(arr := heap[o].arr[i := Nil])];
        }
      }
      assert arr[..0] + ClearArr(h0, Live(c0), arr)[0..] == ClearArr(h0, Live(c0), arr);
    }

    method ClearNode(o: Ref, i: nat, ghost h0: Heap, ghost c0: Colors, ghost saved: set<Ref>)
      returns (ghost more: set<Ref>)
      requires Clearing(h0, c0, saved) && o in heap && heap[o].Table? && i < |heap[o].nodes|
      requires var n := heap[o].nodes[i];
               n.val != Nil ==> (n.key.Obj? ==> n.key.ref in h0) && (n.val.Obj? ==> n.val.ref in h0)
      modifies this`color, this`heap
      ensures var b := old(heap[o]);
              heap == old(heap)[o := b.(nodes := b.nodes[i := ClearEntry(h0, Live(c0), b.nodes[i])])]
      ensures Clearing(h0, c0, more)
      ensures forall r :: r in more <==> r in saved || EntrySaves(h0, Live(c0), old(heap[o].nodes[i]), r)
    {
      var n := heap[o].nodes[i];
      more := saved;
      assert heap[o].nodes[i := n] == heap[o].nodes;
      if n.val != Nil {
        var gone := IsCleared(n.key, h0, c0, more);
        more := more + if n.key.Obj? then {n.key.ref} else {};
        if !gone {
          gone := IsCleared(n.val, h0, c0, more);
          more := more + if n.val.Obj? then {n.val.ref} else {};
        }
        if gone {
          heap := heap[o := heap[o].(nodes := heap[o].nodes[i := Entry(n.key, Nil)])];
        }
      }
    }

    method ClearNodeVector(o: Ref, ghost h0: Heap, ghost c0: Colors, ghost saved: set<Ref>)
      returns (ghost more: set<Ref>)
      requires Clearing(h0, c0, saved) && o in heap && heap[o].Table?
      requires forall e :: e in heap[o].nodes && e.val != Nil ==>
                 (e.key.Obj? ==> e.key.ref in h0) && (e.val.Obj? ==> e.val.ref in h0)
      modifies this`color, this`heap
      ensures heap == old(heap)[o := old(heap[o]).(nodes := ClearNodes(h0, Live(c0), old(heap[o].nodes)))]
      ensures Clearing(h0, c0, more)
      ensures forall r :: r in more <==>
                r in saved || exists e :: e in old(heap[o].nodes) && EntrySaves(h0, Live(c0), e, r)
    {
      more := saved;
      var nodes := heap[o].nodes;
      var i := |nodes|;
      assert nodes[..i] + ClearNodes(h0, Live(c0), nodes)[i..] == nodes;
      assert heap == heap[o := heap[o].(nodes := nodes)];
      while i > 0
        invariant 0 <= i <= |nodes| && o in heap && heap[o].Table?
        invariant heap == old(heap)[o := old(heap[o]).(nodes := nodes[..i] + ClearNodes(h0, Live(c0), nodes)[i..])]
        invariant Clearing(h0, c0, more)
        invariant forall r :: r in more <==>
                    r in saved || exists j :: i <= j < |nodes| && EntrySaves(h0, Live(c0), nodes[j], r)
      {
        i := i - 1;
        ReplaceOne(nodes, ClearNodes(h0, Live(c0), nodes), i);
        more := ClearNode(o, i, h0, c0, more);
        assert forall r :: (exists j :: i <= j < |nodes| && EntrySaves(h0, Live(c0), nodes[j], r)) <==>
                 (EntrySaves(h0, Live(c0), nodes[i], r) || exists j :: i + 1 <= j < |nodes| && EntrySaves(h0,
                     Live(c0), nodes[j], r));
      }
      assert nodes[..0] + ClearNodes(h0, Live(c0), nodes)[0..] == ClearNodes(h0, Live(c0), nodes);
    }

    method ClearTable(o: Ref, ghost h0: Heap, ghost c0: Colors, ghost saved: set<Ref>)
      returns (ghost more: set<Ref>)
      requires Clearing(h0, c0, saved) && o in heap && heap[o].Table? && o in weakbits
      requires SlotsIn(heap[o], h0)
      modifies this`color, this`heap
      ensures heap == old(heap)[o := ClearBody(h0, Live(c0), weakbits[o], old(heap[o]))]
      ensures Clearing(h0, c0, more)
      ensures forall r :: r in more <==> r in saved || TableSaves(h0, Live(c0), weakbits[o], old(heap[o]), r)
    {
      more := saved;
      if weakbits[o].v {
        more := ClearArray(o, h0, c0, more);
      }
      more := ClearNodeVector(o, h0, c0, more);
    }

    /** cleartable: every table on the weak list loses the entries that refer to white
        objects; the strings in its weak slots are marked instead. */
    method ClearTables() returns (ghost saved: set<Ref>)
      requires color.Keys == heap.Keys && NoDup(weak)
      requires forall x :: x in weak ==> x in heap && heap[x].Table? && x in weakbits && SlotsIn(heap[x], heap)
      modifies this`color, this`heap
      ensures heap == ClearedHeap(old(heap), Live(old(color)), weakbits, weak)
      ensures color == SaveStrings(old(heap), old(color), saved)
      ensures forall r :: r in saved <==> ListSaves(old(heap), Live(old(color)), weakbits, weak, r)
    {
      hide ClearedHeap, ListSaves, ClearBody, TableSaves;
      ghost var h0, c0 := heap, color;
      saved := {};
      ClearedNothing(h0, c0, Live(c0), weakbits);
      for i := 0 to |weak|
        invariant heap == ClearedHeap(h0, Live(c0), weakbits, weak[..i])
        invariant Clearing(h0, c0, saved)
        invariant forall r :: r in saved <==> ListSaves(h0, Live(c0), weakbits, weak[..i], r)
      {
        var o := weak[i];
        assert weak[..i + 1] == weak[..i] + [o];
        ClearedStep(h0, Live(c0), weakbits, weak[..i], o);
        saved := ClearTable(o, h0, c0, saved);
      }
      assert weak[..|weak|] == weak;
    }

    // ---------- the end of the mark phase ----------

    method ClearAndFlip() returns (ghost saved: set<Ref>)
      requires Traversed(Now(), weakbits) && NoDup(weak)
      modifies this`heap, this`color, this`currentwhite, this`gcstate, this`sweepgc, this`sweepstrgc
      ensures W() == Flipped(old(W()), weakbits, saved) && gcstate == SweepString
      ensures forall r :: r in saved <==> ListSaves(old(heap), Live(old(color)), weakbits, weak, r)
    {
      TablesToClear(Now(), weakbits);
      hide Traversed, ClearedHeap, SaveStrings, ListSaves, Live;
      saved := ClearTables();
      BeginSweep();
    }

    method BeginSweep()
      modifies this`currentwhite, this`gcstate, this`sweepgc, this`sweepstrgc
      ensures W() == old(W()).(white := Flip(old(W()).white), phase := SweepString, sweepgc := 0, sweepstrgc := 0)
    {
      currentwhite := Flip(currentwhite);
      sweepstrgc := 0;
      sweepgc := 0;
      gcstate := SweepString;
    }

    /** Finishes the mark phase. Exactly the objects reached, the fixed ones and the strings in
        the weak tables reached stay alive; `live' is the least set of objects that contains
        the roots and is closed under strong references. */
    method Atomic(ghost s: set<Ref>) returns (ghost live: set<Ref>)
      requires Inv(W()) && gcstate == Propagate && gray == []
      requires Within(heap, color, s) && RootsWithin(s)
      modifies this`heap, this`color, this`gray, this`grayagain, this`weak, this`weakbits,
               this`currentwhite, this`gcstate, this`sweepgc, this`sweepstrgc
      ensures Inv(W()) && gcstate == SweepString
      ensures live <= s && ClosedSet(old(heap), live) && old(RootsWithin(live))
      ensures forall x :: IsAlive(W(), x) <==> Kept(old(heap), fixed, live, x)
      ensures heap == Cleared(old(heap), live)
    {
      hide Cleared, ClearedHeap, Marking, Traversed, Shape, Linked, Within, IsAlive, ReadyToFlip, ClosedSet,
        ListSaves, Tri, Flipped, Kept, Inv, Advances;
      ghost var w0 := W();
      InvIsMarking(w0, s);
      ShapeOpens(w0);
      AtomicMark(s);
      ghost var w1 := W();
      MarkingIsWithin(w1.m, s, {});
      MarkedIsLeast(w1, s, weakbits);
      RootsAreLive(w0, w1);
      TriNoDup(w1.m);
      live := Live(color);
      ghost var saved := ClearAndFlip();
      ReadyAfterMark(w0, w1, weakbits, saved);
      FlipKeepsInv(w1, weakbits, saved);
      FlippedKept(w1, weakbits, saved);
      ClearedExactly(w1.m, weakbits);
      FlippedHeap(w1, weakbits, saved);
    }

    // ---------- sweeping ----------

    predicate NotDead(o: Ref)
      requires o in color
      reads this`color, this`currentwhite, this`fixed
      ensures NotDead(o) <==> !IsDead(W(), o)
    {
      color[o] != Flip(currentwhite) || o in fixed
    }

    /** Sweeps one bucket of the string table. */
    method SweepBucket(i: nat)
      requires Inv(W()) && gcstate == SweepString && i < |strt|
      modifies this`heap, this`color, this`strt
      ensures Inv(W()) && Sweeps(old(W()), W())
      ensures |strt| == |old(strt)| && BucketSwept(color, currentwhite, strt[i])
    {
      hide Inv, Sweeps;
      ghost var w0 := W();
      SweepsRefl(w0);
      var j := 0;
      while j < |strt[i]|
        invariant |strt| == |old(strt)| && j <= |strt[i]|
        invariant Inv(W()) && Sweeps(w0, W())
        invariant BucketSwept(color, currentwhite, strt[i][..j])
        decreases |strt[i]| - j
      {
        ghost var w1 := W();
        InvOpensHaveThreads(w1);
        BucketIsStrings(w1, i, j);
        var curr := strt[i][j];
        if NotDead(curr) {
          WhitenKeepsInv(w1, curr);
          WhitenSweeps(w1, curr);
          color := color[curr := currentwhite];
          assert strt[i][..j + 1] == strt[i][..j] + [curr];
          j := j + 1;
        } else {
          FreeStringKeepsInv(w1, i, j);
          FreeSweeps(w1, FreeString(w1, i, j), curr);
          assert Without(strt[i], j)[..j] == strt[i][..j];
          UnlinkString(i, j);
        }
        SweepsTrans(w0, w1, W());
      }
      assert strt[i][..j] == strt[i];
    }

    method UnlinkString(i: nat, j: nat)
      requires i < |strt| && j < |strt[i]|
      modifies this`heap, this`color, this`strt
      ensures W() == FreeString(old(W()), i, j)
    {
      var curr := strt[i][j];
      strt := strt[i := strt[i][..j] + strt[i][j + 1..]];
      heap := heap - {curr};
      color := color - {curr};
    }

    // An open upvalue leaves the list of its thread and the ring and is freed.
    method UnlinkOpen(th: Ref, j: nat)
      requires th in heap && heap[th].Thread? && j < |heap[th].openupval|
      modifies this`heap, this`color, this`uvhead
      ensures W() == FreeOpen(old(W()), th, j)
    {
      var l := heap[th].openupval;
      heap := SetOpenList(heap, th, l[..j] + l[j + 1..]) - {l[j]};
      color := color - {l[j]};
      uvhead := Unlink(uvhead, l[j]);
    }

    // Sweeps the j-th open upvalue of a thread, after those before it.
    method SweepUpval(th: Ref, j: nat) returns (next: nat)
      requires Inv(W()) && gcstate == Sweep && th in heap && heap[th].Thread? && j < |heap[th].openupval|
      requires BucketSwept(color, currentwhite, heap[th].openupval[..j])
      modifies this`heap, this`color, this`uvhead
      ensures Inv(W()) && Sweeps(old(W()), W()) && |uvhead| <= |old(uvhead)|
      ensures th in heap && heap[th].Thread? && next <= |heap[th].openupval|
      ensures |heap[th].openupval| - next < |old(heap[th].openupval)| - j
      ensures BucketSwept(color, currentwhite, heap[th].openupval[..next])
    {
      hide Inv, Sweeps;
      ghost var w1 := W();
      OpenListIsOpen(w1, th, j);
      var l := heap[th].openupval;
      var curr := l[j];
      if NotDead(curr) {
        WhitenKeepsInv(w1, curr);
        WhitenSweeps(w1, curr);
        color := color[curr := currentwhite];
        assert l[..j + 1] == l[..j] + [curr];
        return j + 1;
      }
      FreeOpenKeepsInv(w1, th, j);
      FreeOpenFrees(heap, th, j);
      FreeSweeps(w1, FreeOpen(w1, th, j), curr);
      UnlinkShorter(uvhead, curr);
      assert Without(l, j)[..j] == l[..j];
      UnlinkOpen(th, j);
      return j;
    }

    /** Sweeps the open upvalues of one thread. */
    method SweepOpen(th: Ref)
      requires Inv(W()) && gcstate == Sweep && th in heap && heap[th].Thread?
      modifies this`heap, this`color, this`uvhead
      ensures Inv(W()) && Sweeps(old(W()), W())
      ensures th in heap && heap[th].Thread? && |uvhead| <= |old(uvhead)|
      ensures BucketSwept(color, currentwhite, heap[th].openupval)
    {
      hide Inv, Sweeps;
      ghost var w0 := W();
      SweepsRefl(w0);
      var j: nat := 0;
      while j < |heap[th].openupval|
        invariant th in heap && heap[th].Thread? && j <= |heap[th].openupval|
        invariant Inv(W()) && Sweeps(w0, W()) && |uvhead| <= |old(uvhead)|
        invariant BucketSwept(color, currentwhite, heap[th].openupval[..j])
        decreases |heap[th].openupval| - j
      {
        ghost var w1 := W();
        InvOpensHaveThreads(w1);
        j := SweepUpval(th, j);
        SweepsTrans(w0, w1, W());
      }
      assert heap[th].openupval[..j] == heap[th].openupval;
    }

    // ---------- closing upvalues ----------

    method DropFirst(th: Ref)
      requires Inv(W()) && th in heap && heap[th].Thread? && heap[th].openupval != []
      requires IsDead(W(), heap[th].openupval[0])
      modifies this`heap, this`color, this`uvhead
      ensures Inv(W()) && W() == FreeOpen(old(W()), th, 0)
      ensures FirstTaken(old(W()), W(), th)
    {
      hide Inv;
      ghost var w0 := W();
      OpenListIsOpen(w0, th, 0);
      var u := heap[th].openupval[0];
      DeadMeansSweeping(w0, u);
      FreeOpenKeepsInv(w0, th, 0);
      FreeOpenFrees(heap, th, 0);
      assert Without(heap[th].openupval, 0) == heap[th].openupval[1..];
      UnlinkOpen(th, 0);
    }

    method CloseLive(th: Ref)
      requires Inv(W()) && th in heap && heap[th].Thread? && heap[th].openupval != []
      requires !IsDead(W(), heap[th].openupval[0])
      modifies this`heap, this`color, this`gray, this`rootgc, this`sweepgc, this`uvhead
      ensures Inv(W()) && FirstOpen(old(heap), th, old(heap[th].openupval[0]))
      ensures FirstTaken(old(W()), W(), th)
      ensures gcstate != Propagate ==> W() == Close(old(W()), th, old(heap[th].openupval[0]), currentwhite)
    {
      hide Inv, Shape, Linked, Marking, MarkPhase, CloseHeap, FirstTaken, UpvalValue, IsDead, Unlink, Insert, Shift;
      ghost var w0 := W();
      InvFirstOpen(w0, th);
      var u := heap[th].openupval[0];
      OpenGrayOrWhite(w0, u);
      var v := UpvalValue(heap, heap[u].place);
      CloseHeapKinds(heap, th, u);
      Unhook(th, u);
      if gcstate != Propagate {
        CloseKeepsInv(w0, th, u);
        if color[u] == Gray {
          color := color[u := currentwhite];
        }
        assert color == w0.m.c[u := currentwhite];
        OthersDie(w0, W(), u);
      } else if color[u] == Gray {
        CloseMarked(th, u, v, w0);
      } else {
        CloseWhiteKeepsInv(w0, th, u);
        NoneDead(w0);
        NoneDead(W());
      }
      ClosingTakes(w0, W(), th, u);
    }

    // The first upvalue leaves the list and the ring, takes its value with it and becomes the
    // first of all objects; its colour stays.
    method Unhook(th: Ref, u: Ref)
      requires FirstOpen(heap, th, u) && u in color
      modifies this`heap, this`rootgc, this`sweepgc, this`uvhead
      ensures W() == Close(old(W()), th, u, color[u])
    {
      hide CloseHeap, Unlink;
      uvhead := Unlink(uvhead, u);
      heap := CloseHeap(heap, th, u);
      rootgc := [u] + rootgc;
      assert rootgc == Insert(old(rootgc), 0, u);
      sweepgc := Shift(sweepgc, 0);
      assert color == color[u := color[u]];
    }

    // A marked upvalue that has just been closed in the mark phase turns black.
    method CloseMarked(th: Ref, u: Ref, v: Value, ghost w0: World)
      requires Inv(w0) && w0.phase == Propagate && FirstOpen(w0.m.h, th, u) && IsMarked(w0.m.c, u)
      requires W() == Close(w0, th, u, Gray) && v == UpvalValue(w0.m.h, w0.m.h[u].place)
      modifies this`color, this`gray
      ensures Inv(W()) && forall x :: !IsDead(w0, x) && !IsDead(W(), x)
    {
      hide Inv, Shape, Linked, Marking, MarkPhase, CloseHeap, UpvalValue, IsDead, Unlink;
      CloseHeapKinds(w0.m.h, th, u);
      CloseGrayStarts(w0, th, u);
      assert w0.m.c[u := Gray][u := Black] == w0.m.c[u := Black];
      color := color[u := Black];
      CloseBarrier(u, v);
      NoneDead(w0);
      NoneDead(W());
    }

    /** The barrier of luaC_linkupval: a black upvalue that was just closed over a white value
        gets the value marked. */
    method CloseBarrier(u: Ref, v: Value)
      requires Shape(W()) && Linked(W()) && MarkPhase(W())
      requires Marking(Now(), {u}, heap.Keys, heap.Keys) && !Listed(Now(), u)
      requires u in heap && u in color && heap[u] == Upval(Closed(v)) && color[u] == Black
      modifies this`color, this`gray
      ensures Inv(W())
    {
      hide Marking, Shape, Linked;
      ghost var w1 := W();
      ghost var keys := heap.Keys;
      KeptIsKnown(w1.m, u, {u}, keys, keys);
      assert v.Obj? ==> Keeps(heap, heap[u], v.ref);
      assert {} + {u} == {u};
      MarkValue(v, {u}, keys, keys);
      UnlistedStays(w1.m, Now(), u);
      EndBlack(Now(), u, {}, keys, keys);
      MarkingIsWithin(Now(), keys, keys);
      MarkKeepsInv(w1, Now());
    }

    method CloseFirst(th: Ref)
      requires Inv(W()) && th in heap && heap[th].Thread? && heap[th].openupval != []
      modifies this`heap, this`color, this`gray, this`rootgc, this`sweepgc, this`uvhead
      ensures Inv(W()) && FirstTaken(old(W()), W(), th)
    {
      hide Inv, IsDead, FreeOpen, Close, FirstOpen, FirstTaken;
      NotFixedIsDead(W(), th);
      if color[heap[th].openupval[0]] == Flip(currentwhite) {
        DropFirst(th);
      } else {
        CloseLive(th);
      }
    }

    /** luaF_close: takes off the list exactly the upvalues at or above `level'; a dead one is
        freed, a live one is closed over the value its slot has. */
    method CloseUpvals(th: Ref, level: nat)
      requires Inv(W()) && th in heap && heap[th].Thread?
      modifies this`heap, this`color, this`gray, this`rootgc, this`sweepgc, this`uvhead
      ensures Inv(W()) && ClosedTo(old(W()), W(), th, level)
    {
      hide Inv, FirstTaken, ClosedTo, ClosedDown;
      ghost var l := heap[th].openupval;
      ghost var w0 := W();
      ghost var k := 0;
      InvOpenList(w0, th);
      ClosedDownStart(w0, th, level);
      while AtOrAbove(heap, th, level)
        invariant Inv(W()) && ClosedDown(w0, W(), th, level, l, k) && k <= |l|
        decreases |l| - k
      {
        ghost var w1 := W();
        CloseFirst(th);
        ClosedDownStep(w0, w1, W(), th, level, l, k);
        k := k + 1;
      }
      ClosedDownDone(w0, W(), th, level, l, k);
    }

    /** luaF_findupval: two closures over one slot get the same upvalue, a dead one is revived
        and a new one keeps the thread's list in order. */
    method FindUpval(th: Ref, idx: nat, n: Ref) returns (u: Ref)
      requires Inv(W()) && th in heap && IsAlive(W(), th) && heap[th].Thread? && idx < |heap[th].stack| && n !in heap
      modifies this`heap, this`color, this`uvhead
      ensures Inv(W()) && IsAlive(W(), u) && heap[u] == Upval(Open(th, idx))
      ensures (exists v :: v in old(heap[th].openupval) && v in old(heap) && old(heap)[v] == Upval(Open(th, idx)))
                ==> u in old(heap[th].openupval) && heap == old(heap)
      ensures heap == old(heap) ||
              (u == n && exists p :: 0 <= p <= |old(heap[th].openupval)| && heap == OpenHeap(old(heap), th, n, idx, p))
    {
      hide Inv, IsAlive, Splits;
      ghost var w0 := W();
      var j := 0;
      InvOpenList(w0, th);
      while j < |heap[th].openupval| && heap[heap[th].openupval[j]].place.idx >= idx
        invariant W() == w0 && AllAbove(heap, th, j, idx)
      {
        u := heap[th].openupval[j];
        OpenBelongs(w0, th, j);
        if heap[u].place.idx == idx {
          OpenListIsOpen(w0, th, j);
          if color[u] == Flip(currentwhite) {
            ResurrectKeepsInv(w0, u);
            color := color[u := currentwhite];
          } else {
            AliveUnlessOld(w0, u);
          }
          return;
        }
        j := j + 1;
      }
      AllAboveSplits(heap, th, j, idx);
      AddOpenKeepsInv(w0, th, n, idx, j);
      OpenHeapKinds(heap, th, n, idx, j);
      u := n;
      NewUpval(th, idx, n, j);
    }

    // A new upvalue for the slot is chained in at position j of the thread's list.
    method NewUpval(th: Ref, idx: nat, n: Ref, j: nat)
      requires th in heap && heap[th].Thread? && j <= |heap[th].openupval|
      modifies this`heap, this`color, this`uvhead
      ensures W() == AddOpen(old(W()), th, n, idx, j)
    {
      heap := OpenHeap(heap, th, n, idx, j);
      color := color[n := currentwhite];
      uvhead := [n] + uvhead;
    }

    // ---------- sweeping the object list ----------

    /** Closes what is left open of a dead thread; `at' is its place in the object list. */
    method CloseDeadThread(th: Ref) returns (at: nat)
      requires Inv(W()) && gcstate == Sweep && AllLive(W(), th) && IsDead(W(), th)
      requires sweepgc < |rootgc| && rootgc[sweepgc] == th
      modifies this`heap, this`color, this`gray, this`rootgc, this`sweepgc, this`uvhead
      ensures Inv(W()) && Sweeps(old(W()), W()) && IsDead(W(), th)
      ensures th in heap && heap[th].Thread? && heap[th].openupval == []
      ensures sweepgc <= at < |rootgc| && rootgc[at] == th && SweepLeft(W()) <= SweepLeft(old(W()))
    {
      hide Inv, Sweeps, FirstOpen, IsDead, IsAlive, Close, FirstTaken;
      ghost var w0 := W();
      SweepsRefl(w0);
      at := sweepgc;
      while heap[th].openupval != []
        invariant Inv(W()) && Sweeps(w0, W()) && AllLive(W(), th) && IsDead(W(), th) && gcstate == Sweep
        invariant sweepgc <= at < |rootgc| && rootgc[at] == th && SweepLeft(W()) <= SweepLeft(w0)
        decreases |heap[th].openupval|
      {
        ghost var w1 := W();
        InvFirstOpen(w1, th);
        AllLiveFirst(w1, th);
        CloseOneMore(w1, th, at);
        InvOpensHaveThreads(w1);
        CloseLive(th);
        at := at + 1;
        SweepsTrans(w0, w1, W());
      }
    }

    method KeepRoot(curr: Ref)
      requires Inv(W()) && gcstate == Sweep && sweepgc < |rootgc| && rootgc[sweepgc] == curr
      requires IsAlive(W(), curr) && curr in heap && curr in color
      requires heap[curr].Thread? ==> BucketSwept(color, currentwhite, heap[curr].openupval)
      modifies this`color, this`sweepgc
      ensures Inv(W()) && Sweeps(old(W()), W()) && SweepLeft(W()) < SweepLeft(old(W()))
    {
      hide Inv, Sweeps, IsAlive;
      ghost var w0 := W();
      RootgcKnown(w0, sweepgc);
      InvOpensHaveThreads(w0);
      WhitenKeepsInv(w0, curr);
      WhitenSweeps(w0, curr);
      color := color[curr := currentwhite];
      ghost var w1 := W();
      AdvanceSweepKeepsInv(w1);
      SweepsTrans(w0, w1, AdvanceSweep(w1));
      sweepgc := sweepgc + 1;
    }

    method DropRoot(at: nat)
      requires Inv(W()) && gcstate == Sweep && sweepgc <= at < |rootgc| && rootgc[at] in heap
      requires IsDead(W(), rootgc[at]) && (heap[rootgc[at]].Thread? ==> heap[rootgc[at]].openupval == [])
      modifies this`heap, this`color, this`rootgc
      ensures Inv(W()) && Sweeps(old(W()), W()) && SweepLeft(W()) < SweepLeft(old(W()))
    {
      hide Inv, Sweeps, IsDead;
      FreeRootKeepsInv(W(), at);
      FreeRootSweeps(W(), at);
      var curr := rootgc[at];
      heap := heap - {curr};
      color := color - {curr};
      rootgc := rootgc[..at] + rootgc[at + 1..];
    }

    /** One step of the sweep of the object list. */
    method SweepOne()
      requires Inv(W()) && gcstate == Sweep && sweepgc < |rootgc|
      modifies this`heap, this`color, this`gray, this`rootgc, this`sweepgc, this`uvhead
      ensures Inv(W()) && Sweeps(old(W()), W()) && SweepLeft(W()) < SweepLeft(old(W()))
    {
      hide Inv, Sweeps, IsDead, IsAlive;
      ghost var w0 := W();
      SweepsRefl(w0);
      RootgcKnown(w0, sweepgc);
      var curr := rootgc[sweepgc];
      if heap[curr].Thread? {
        SweepOpen(curr);
      }
      ghost var w1 := W();
      RootgcKnown(w1, sweepgc);
      InvOpensHaveThreads(w1);
      if NotDead(curr) {
        IsNotDead(w1, curr);
        KeepRoot(curr);
        SweepsTrans(w0, w1, W());
      } else {
        var at := sweepgc;
        if heap[curr].Thread? {
          at := CloseDeadThread(curr);
          SweepsTrans(w0, w1, W());
        }
        ghost var w2 := W();
        InvOpensHaveThreads(w2);
        DropRoot(at);
        SweepsTrans(w0, w2, W());
      }
    }

    /** sweeplist on the object list, at most `count' objects. */
    method SweepList(count: nat)
      requires Inv(W()) && gcstate == Sweep && 0 < count
      modifies this`heap, this`color, this`gray, this`rootgc, this`sweepgc, this`uvhead
      ensures Inv(W()) && Sweeps(old(W()), W())
      ensures sweepgc >= |rootgc| || SweepLeft(W()) < SweepLeft(old(W()))
    {
      hide Inv, Sweeps;
      ghost var w0 := W();
      SweepsRefl(w0);
      var left := count;
      while sweepgc < |rootgc| && left > 0
        invariant Inv(W()) && Sweeps(w0, W())
        invariant SweepLeft(W()) <= SweepLeft(w0) && (left < count ==> SweepLeft(W()) < SweepLeft(w0))
        decreases left
      {
        ghost var w1 := W();
        SweepOne();
        InvOpensHaveThreads(w1);
        SweepsTrans(w0, w1, W());
        left := left - 1;
      }
    }

    // ---------- the state machine ----------

    method StepPropagate(ghost s: set<Ref>)
      requires Inv(W()) && gcstate == Propagate && Within(heap, color, s) && gray != []
      modifies this`color, this`gray, this`grayagain, this`weak, this`weakbits
      ensures Inv(W()) && Within(heap, color, s) && Descends(old(W()), W())
    {
      hide Inv, Marking, Advances, Within, Shape, Linked, MarkPhase, Tri;
      ghost var w0 := W();
      InvIsMarking(w0, s);
      InvIsMarkPhase(w0);
      PropagateMark(s, heap.Keys, {});
      AdvancesWhites(w0.m, Now());
      MarkingIsWithin(Now(), s, heap.Keys);
      MarkKeepsInv(w0, Now());
    }

    method StepAtomic(ghost s: set<Ref>) returns (ghost live: set<Ref>)
      requires Inv(W()) && gcstate == Propagate && Within(heap, color, s) && RootsWithin(s) && gray == []
      modifies this`heap, this`color, this`gray, this`grayagain, this`weak, this`weakbits,
               this`currentwhite, this`gcstate, this`sweepgc, this`sweepstrgc
      ensures Inv(W()) && gcstate == SweepString && Collected(old(W()), W(), s, live)
    {
      hide Inv, Within, ClosedSet, IsAlive, Kept, Cleared;
      ghost var w0 := W();
      live := Atomic(s);
      assert forall r :: IsRoot(w0, r) ==> r in live;
    }

    method StepSweepString()
      requires Inv(W()) && gcstate == SweepString
      modifies this`heap, this`color, this`strt, this`gcstate, this`sweepstrgc
      ensures Inv(W()) && Sweeps(old(W()), W()) && Descends(old(W()), W())
      ensures gcstate == SweepString || gcstate == Sweep
    {
      hide Inv, Sweeps;
      ghost var w0 := W();
      BucketLeft(w0);
      SweepBucket(sweepstrgc);
      ghost var w1 := W();
      InvOpensHaveThreads(w1);
      BucketDoneKeepsInv(w1);
      SweepsTrans(w0, w1, BucketDone(w1));
      sweepstrgc := sweepstrgc + 1;
      if sweepstrgc >= |strt| {  // the last bucket is done
        gcstate := Sweep;
      }
    }

    method StepSweep()
      requires Inv(W()) && gcstate == Sweep
      modifies this`heap, this`color, this`gray, this`rootgc, this`sweepgc, this`uvhead, this`gcstate
      ensures Inv(W()) && Sweeps(old(W()), W()) && Descends(old(W()), W())
      ensures gcstate == Sweep || gcstate == Finalize
    {
      hide Inv, Sweeps;
      ghost var w0 := W();
      SweepList(GCSWEEPMAX);
      if sweepgc >= |rootgc| {  // the end of the list is reached
        ghost var w1 := W();
        InvOpensHaveThreads(w1);
        SweepDoneKeepsInv(w1);
        SweepsTrans(w0, w1, SweepDone(w1));
        gcstate := Finalize;
      }
    }

    /** One step of the collector in any of its states. */
    method SingleStep(ghost s: set<Ref>) returns (ghost live: set<Ref>)
      requires Inv(W())
      requires gcstate == Pause ==> ClosedSet(heap, s) && RootsWithin(s)
      requires gcstate == Propagate ==> Within(heap, color, s) && RootsWithin(s)
      modifies this
      ensures Inv(W()) && StepOK(old(W()), W(), s, live)
      ensures old(gcstate) != Pause ==> Descends(old(W()), W())
    {
      hide Inv, ClosedSet, Within, Sweeps, Collected, Marking;
      live := {};
      match gcstate {
        case Pause =>
          MarkRoot(s);
        case Propagate =>
          if gray != [] {
            StepPropagate(s);
          } else {
            live := StepAtomic(s);
            assert Descends(old(W()), W());
          }
        case SweepString =>
          StepSweepString();
        case Sweep =>
          StepSweep();
        case Finalize =>
          PausedKeepsInv(W());
          DescendsToPause(W());
          gcstate := Pause;
      }
    }

    /** What the running program sees of a step: nothing that it can reach goes away or changes,
        except that a weak table may lose entries whose key or value is not strongly reachable. */
    method Step() returns (ghost live: set<Ref>)
      requires Inv(W())
      modifies this
      ensures Inv(W())
      ensures forall x :: Reachable(old(W()), x, true) ==>
                x in old(heap) && x in heap && Unharmed(old(W()), W(), live, x)
      ensures forall x :: x in heap && (x in fixed || color[x] != if currentwhite == White0 then White1 else White0) ==>
                match heap[x]
                case Str(_) => true
                case Udata(meta, env) => (meta.Obj? ==> meta.ref in heap) && (env.Obj? ==> env.ref in heap)
                case Upval(place) => place.Closed? && place.v.Obj? ==> place.v.ref in heap
                case Closure(env, proto, upvals) =>
                  && (env.Obj? ==> env.ref in heap) && (proto.Obj? ==> proto.ref in heap)
                  && forall v :: v in upvals && v.Obj? ==> v.ref in heap
                case Table(meta, _, arr, nodes) =>
                  && (meta.Obj? ==> meta.ref in heap) && (forall v :: v in arr && v.Obj? ==> v.ref in heap)
                  && forall e :: e in nodes && e.val != Nil ==>
                       (e.key.Obj? ==> e.key.ref in heap) && (e.val.Obj? ==> e.val.ref in heap)
                case Thread(gt, stack, openupval) =>
                  && (gt.Obj? ==> gt.ref in heap) && (forall v :: v in stack && v.Obj? ==> v.ref in heap)
                  && forall u :: u in openupval ==> u in heap
                case Proto(names, consts, protos) =>
                  && (forall r :: r in names ==> r in heap) && (forall v :: v in consts && v.Obj? ==> v.ref in heap)
                  && forall v :: v in protos && v.Obj? ==> v.ref in heap
      ensures mainthread in heap && running in heap && (registry.Obj? ==> registry.ref in heap)
      ensures forall v :: v in mt && v.Obj? ==> v.ref in heap
    {
      hide Inv, Reachable, StepOK, ClosedSet, Within, Unharmed;
      ghost var w0 := W();
      if gcstate == Pause || gcstate == Propagate {
        KeysReady(w0);
        RootsIn(heap.Keys);
      }
      live := SingleStep(heap.Keys);
      ghost var w1 := W();
      forall x | Reachable(w0, x, true) ensures x in w0.m.h && x in w1.m.h && Unharmed(w0, w1, live, x) {
        StepIsSafe(w0, w1, w0.m.h.Keys, live, x);
      }
      RootsThere(w1);
      forall x | x in heap && (x in fixed || color[x] != if currentwhite == White0 then White1 else White0) {
        NothingDangles(w1, x);
      }
    }

    // ---------- a full collection ----------

    lemma RootsIn(s: set<Ref>)
      requires forall r :: IsRoot(W(), r) ==> r in s && r in heap
      ensures RootsWithin(s)
    {
      assert IsRoot(W(), mainthread) && IsRoot(W(), running);
      assert registry.Obj? ==> IsRoot(W(), registry.ref);
      forall v | v in mt && v.Obj? ensures v.ref in s && v.ref in heap {
        assert IsRoot(W(), v.ref);
      }
    }

    method FinishSweep()
      requires Inv(W()) && gcstate != Pause && gcstate != Propagate
      modifies this
      ensures Inv(W()) && gcstate == Finalize && Sweeps(old(W()), W())
    {
      hide Inv, Sweeps;
      ghost var w0 := W();
      SweepsRefl(w0);
      while gcstate != Finalize
        invariant Inv(W()) && Sweeps(w0, W())
        invariant gcstate == SweepString || gcstate == Sweep || gcstate == Finalize
        decreases Rank(W()), WorkLeft(W())
      {
        ghost var w := W();
        WorkIsLeft(w);
        InvOpensHaveThreads(w);
        ghost var live := SingleStep({});
        SweepsTrans(w0, w, W());
      }
    }

    method MarkAndSweep(ghost w0: World)
      requires Inv(W()) && gcstate == Finalize && Inv(w0) && Sweeps(w0, W())
      modifies this
      ensures Inv(W()) && gcstate == Pause && FullyCollected(w0, W())
    {
      hide Inv, Sweeps, ClosedSet, IsRoot, Strong, StepOK, Underway, FullyCollected, Within, Stages;
      ghost var w1 := W();
      ghost var s := Strong(w1);
      StrongClosed(w1);
      RootsIn(s);
      MarkRoot(s);
      ghost var w3, w4, live := W(), W(), {};
      UnderwayStart(w1, w3, live);
      while gcstate != Pause
        invariant Inv(W()) && Underway(w1, w3, w4, W(), live)
        decreases Rank(W()), WhitesLeft(W()), WorkLeft(W())
      {
        ghost var w := W();
        WorkIsLeft(w);
        InvOpensHaveThreads(w);
        if gcstate == Propagate {
          UnderwayReady(w1, w3, w4, w, live);
          RootsIn(s);
        }
        ghost var live' := SingleStep(s);
        UnderwayStep(w1, w3, w4, w, W(), live, live');
        if w.phase == Propagate && w.m.gray == [] {
          w3, w4, live := w, W(), live';
        }
      }
      UnderwayIsDone(w0, w1, w3, w4, W(), live);
      FullIsExact(w0, w1, w3, w4, W(), live);
    }

    method EmptyLists()
      modifies this`gray, this`grayagain, this`weak
      ensures Now() == Unlisted(old(Now()))
    {
      gray, grayagain, weak := [], [], [];
    }

    // The marks found so far are given up.
    method ResetMarks()
      modifies this`sweepstrgc, this`sweepgc, this`gray, this`grayagain, this`weak, this`gcstate
      ensures W() == Reset(old(W())) && gcstate == SweepString
    {
      EmptyLists();
      sweepstrgc := 0;
      sweepgc := 0;
      gcstate := SweepString;
    }

    /** luaC_fullgc, from any state of the collector: it ends, and what it keeps is exactly
        what has to be kept. */
    method FullGc()
      requires Inv(W())
      modifies this
      ensures Inv(W()) && gcstate == Pause
      ensures FullyCollected(old(W()), W())
      ensures forall x :: x in heap ==>
                match heap[x]
                case Str(_) => true
                case Udata(meta, env) => (meta.Obj? ==> meta.ref in heap) && (env.Obj? ==> env.ref in heap)
                case Upval(place) => place.Closed? && place.v.Obj? ==> place.v.ref in heap
                case Closure(env, proto, upvals) =>
                  && (env.Obj? ==> env.ref in heap) && (proto.Obj? ==> proto.ref in heap)
                  && forall v :: v in upvals && v.Obj? ==> v.ref in heap
                case Table(meta, _, arr, nodes) =>
                  && (meta.Obj? ==> meta.ref in heap) && (forall v :: v in arr && v.Obj? ==> v.ref in heap)
                  && forall e :: e in nodes && e.val != Nil ==>
                       (e.key.Obj? ==> e.key.ref in heap) && (e.val.Obj? ==> e.val.ref in heap)
                case Thread(gt, stack, openupval) =>
                  && (gt.Obj? ==> gt.ref in heap) && (forall v :: v in stack && v.Obj? ==> v.ref in heap)
                  && forall u :: u in openupval ==> u in heap
                case Proto(names, consts, protos) =>
                  && (forall r :: r in names ==> r in heap) && (forall v :: v in consts && v.Obj? ==> v.ref in heap)
                  && forall v :: v in protos && v.Obj? ==> v.ref in heap
      ensures mainthread in heap && running in heap && (registry.Obj? ==> registry.ref in heap)
      ensures forall v :: v in mt && v.Obj? ==> v.ref in heap
    {
      hide Inv, Sweeps, FullyCollected, Reset;
      ghost var w0 := W();
      SweepsRefl(w0);
      if gcstate == Pause || gcstate == Propagate {
        ResetKeepsInv(w0);
        ResetMarks();
      }
      ghost var w := W();
      InvOpensHaveThreads(w);
      FinishSweep();
      ghost var w1 := W();
      SweepsTrans(w0, w, w1);
      MarkAndSweep(w0);
      InPauseAllLive(W());
      RootsThere(W());
      forall x | x in heap {
        NothingDangles(W(), x);
      }
    }

    // ---------- the mutator ----------

    method ComputeHash(text: seq<char>) returns (h: nat)
      ensures h == HashOf(text)
    {
      var k := (|text| % 0x1_0000_0000) as bv32;
      var step := |text| / 32 + 1;
      var l1 := |text|;
      while l1 >= step
        invariant 0 <= l1 <= |text|
        invariant HashFrom(text, l1, step, k) == HashFrom(text, |text|, step, (|text| % 0x1_0000_0000) as bv32)
      {
        k := Mix(k, text[l1 - 1]);
        l1 := l1 - step;
      }
      return k as nat;
    }

    /** luaS_newlstr: a text has one string object only; it is found again as long as it has
        not been freed, even when it is dead already, and is alive afterwards. */
    method NewLstr(text: seq<char>, n: Ref) returns (o: Ref)
      requires Inv(W()) && n !in heap
      modifies this`heap, this`color, this`strt
      ensures Inv(W()) && IsAlive(W(), o) && heap[o] == Str(text)
      ensures forall x :: x in old(heap) && old(heap)[x] == Str(text) ==> x == o
      ensures heap == if o in old(heap) then old(heap) else old(heap)[n := Str(text)]
    {
      hide Inv, IsAlive, HashOf, InStrt;
      ghost var w0 := W();
      var h := ComputeHash(text);
      TableSize(w0);
      var i := h % |strt|;
      var j := 0;
      while j < |strt[i]|
        invariant W() == w0 && j <= |strt[i]|
        invariant forall k :: 0 <= k < j ==> strt[i][k] in heap && heap[strt[i][k]] != Str(text)
      {
        o := strt[i][j];
        BucketIsStrings(w0, i, j);
        BucketTexts(w0, i, j);
        if heap[o].text == text {
          OnlyText(w0, o);
          if color[o] == Flip(currentwhite) && o !in fixed {
            ResurrectKeepsInv(w0, o);
            color := color[o := currentwhite];
          } else {
            IsNotDead(w0, o);
          }
          return;
        }
        j := j + 1;
      }
      TextIsNew(w0, i, text);
      AddStringKeepsInv(w0, n, i, text);
      o := n;
      heap := heap[n := Str(text)];
      color := color[n := currentwhite];
      strt := strt[i := [n] + strt[i]];
    }

    /** luaS_resize: the same strings in a table of another size, except while the sweep is
        walking through the table. */
    method ResizeStrings(newsize: nat)
      requires Inv(W()) && 0 < newsize
      modifies this`strt
      ensures Inv(W())
      ensures SameStrings(old(strt), strt)
      ensures |strt| == if gcstate == SweepString then |old(strt)| else newsize
    {
      if gcstate == SweepString {
        return;
      }
      hide Inv, SameStrings, Rehashing, HashOf, Moved;
      ghost var w0 := W();
      var newhash: seq<seq<Ref>> := seq(newsize, _ => []);
      NoBuckets(strt);
      ghost var done: set<Ref> := {};
      RehashStart(heap, newsize);
      for i := 0 to |strt|
        invariant W() == w0 && |newhash| == newsize
        invariant Rehashing(heap, newhash, done) && Moved(strt, i, done)
      {
        newhash, done := RehashBucket(i, newhash, done);
      }
      AllMoved(w0, newhash, done);
      strt := newhash;
    }

    method RehashBucket(i: nat, nh: seq<seq<Ref>>, ghost done0: set<Ref>)
      returns (newhash: seq<seq<Ref>>, ghost done: set<Ref>)
      requires Inv(W()) && i < |strt| && Rehashing(heap, nh, done0) && 0 < |nh|
      requires Moved(strt, i, done0)
      ensures |newhash| == |nh| && Rehashing(heap, newhash, done)
      ensures Moved(strt, i + 1, done)
    {
      hide Inv, Rehashing, HashOf, NoDup;
      newhash, done := nh, done0;
      for j := 0 to |strt[i]|
        invariant |newhash| == |nh| && Rehashing(heap, newhash, done)
        invariant forall x :: x in done <==> InBuckets(strt, i, x) || x in strt[i][..j]
      {
        var p := strt[i][j];
        BucketIsStrings(W(), i, j);
        BucketTexts(W(), i, j);
        NotInBefore(W(), i, j);
        RehashOne(heap, newhash, done, p);
        var h1 := HashOf(heap[p].text) % |newhash|;
        newhash := newhash[h1 := [p] + newhash[h1]];
        done := done + {p};
        assert strt[i][..j + 1] == strt[i][..j] + [p];
      }
      assert strt[i][..|strt[i]|] == strt[i];
    }

    method Fix(o: Ref)
      requires Inv(W()) && IsAlive(W(), o) && heap[o].Str?
      modifies this`fixed
      ensures Inv(W()) && fixed == old(fixed) + {o}
    {
      hide Inv, IsAlive;
      FixStringKeepsInv(W(), o);
      fixed := fixed + {o};
    }

    /** luaC_link: a new table, closure, prototype, thread or closed upvalue. */
    method Link(n: Ref, b: Body)
      requires Inv(W()) && n !in heap && RefsAlive(W(), b)
      requires !b.Str? && !b.Udata? && (b.Thread? ==> b.openupval == [])
      requires b.Proto? ==> forall r :: r in b.names ==> r in heap && heap[r].Str?
      modifies this`heap, this`color, this`rootgc, this`sweepgc
      ensures Inv(W()) && IsAlive(W(), n) && heap == old(heap)[n := b]
    {
      hide Inv, IsAlive, RefsAlive;
      AddToRootKeepsInv(W(), n, b, 0);
      heap := heap[n := b];
      color := color[n := currentwhite];
      rootgc := [n] + rootgc;
      assert rootgc == Insert(old(rootgc), 0, n);
      sweepgc := Shift(sweepgc, 0);
    }

    /** luaS_newudata: userdata go behind the main thread. */
    method NewUdata(n: Ref, meta: Value, env: Value)
      requires Inv(W()) && n !in heap && ValueAlive(W(), meta) && ValueAlive(W(), env)
      modifies this`heap, this`color, this`rootgc, this`sweepgc
      ensures Inv(W()) && IsAlive(W(), n) && heap == old(heap)[n := Udata(meta, env)]
    {
      hide Inv, IsAlive;
      ghost var w0 := W();
      MainListed(w0);
      var p := 0;
      while rootgc[p] != mainthread
        invariant W() == w0 && p < |rootgc| && mainthread !in rootgc[..p]
        decreases |rootgc| - p
      {
        NotYet(rootgc, p, mainthread);
        p := p + 1;
      }
      AddToRootKeepsInv(W(), n, Udata(meta, env), p + 1);
      heap := heap[n := Udata(meta, env)];
      color := color[n := currentwhite];
      rootgc := rootgc[..p + 1] + [n] + rootgc[p + 1..];
      sweepgc := Shift(sweepgc, p + 1);
    }

    method StackStore(th: Ref, idx: nat, v: Value)
      requires Inv(W()) && th in heap && heap[th].Thread? && idx < |heap[th].stack| && ValueAlive(W(), v)
      modifies this`heap
      ensures Inv(W()) && heap == old(heap)[th := SetSlot(old(heap), th, idx, v)]
    {
      hide Inv, ValueAlive;
      StackStoreKeepsInv(W(), th, idx, v);
      heap := heap[th := SetSlot(heap, th, idx, v)];
    }

    /** A store into a table: a value, or a key that is new (k) and its value. luaH_set looks at the key,
        and luaV_settable then at the value. */
    method TableStore(t: Ref, b: Body, k: Value, v: Value)
      requires Inv(W()) && t in heap && IsAlive(W(), t) && heap[t].Table? && Stores(heap, t, b, k, v)
      requires ValueAlive(W(), k) && ValueAlive(W(), v)
      modifies this`heap, this`color, this`grayagain
      ensures Inv(W()) && heap == old(heap)[t := b]
    {
      hide Inv, IsAlive, Stores;
      ghost var w0 := W();
      InvParts(w0);
      ValueKnown(w0, k);
      ValueKnown(w0, v);
      if BarrierNeeded(color, t, k) || BarrierNeeded(color, t, v) {
        BackStoreKeepsInv(w0, t, b, k, v);
      } else {
        NoBarrierStore(w0, t, b, k, v);
      }
      heap := heap[t := b];
      BarrierBoth(t, k, v);
    }

    method BarrierBoth(t: Ref, k: Value, v: Value)
      requires t in color && (k.Obj? ==> k.ref in color) && (v.Obj? ==> v.ref in color)
      modifies this`color, this`grayagain
      ensures var needed := old(BarrierNeeded(color, t, k) || BarrierNeeded(color, t, v));
              && color == (if needed then old(color)[t := Gray] else old(color))
              && grayagain == if needed then [t] + old(grayagain) else old(grayagain)
    {
      BarrierBack(t, k);
      BarrierBack(t, v);
    }

    // luaC_barriert
    method BarrierBack(t: Ref, v: Value)
      requires t in color && (v.Obj? ==> v.ref in color)
      modifies this`color, this`grayagain
      ensures color == if old(BarrierNeeded(color, t, v)) then old(color)[t := Gray] else old(color)
      ensures grayagain == if old(BarrierNeeded(color, t, v)) then [t] + old(grayagain) else old(grayagain)
    {
      if v.Obj? && IsWhite(color[v.ref]) && color[t] == Black {
        color := color[t := Gray];
        grayagain := [t] + grayagain;
      }
    }

    /** A store of `v' into any other object: luaC_barrier after the store. */
    method ObjectStore(o: Ref, b: Body, v: Value)
      requires Inv(W()) && o in heap && IsAlive(W(), o) && !heap[o].Table? && Stores(heap, o, b, v, v)
      requires ValueAlive(W(), v)
      modifies this`heap, this`color, this`gray
      ensures Inv(W()) && heap == old(heap)[o := b]
    {
      hide Inv, IsAlive, Stores, Shape, Linked, Tri;
      ghost var w0 := W();
      InvParts(w0);
      ValueKnown(w0, v);
      heap := heap[o := b];
      if v.Obj? && IsWhite(color[v.ref]) && color[o] == Black {
        if gcstate == Propagate {
          ForwardStoreStarts(w0, o, b, v);
          BarrierForward(o, v);
        } else {
          ForwardWhiteStoreKeepsInv(w0, o, b, v);
          color := color[o := currentwhite];
        }
      } else {
        NoBarrierStore(w0, o, b, v, v);
      }
    }

    method BarrierForward(o: Ref, v: Value)
      requires Shape(W()) && Linked(W()) && MarkPhase(W()) && v.Obj? && v.ref in heap && v.ref in color
      requires Marking(Now(), {o}, heap.Keys, heap.Keys) && !Listed(Now(), o)
      requires o in heap && o in color && color[o] == Black && IsWhite(color[v.ref])
      requires !heap[o].Str? && !heap[o].Thread? && !IsOpen(heap[o]) && !heap[o].Table?
      requires forall r :: Keeps(heap, heap[o], r) ==> IsMarked(color, r) || v == Obj(r)
      modifies this`color, this`gray
      ensures Inv(W())
    {
      hide Marking, Shape, Linked, Keeps, MarkStep, Tri, MarkPhase;
      ghost var w1 := W();
      ReallyMarkObject(v.ref, {o}, heap.Keys, heap.Keys);
      MarkedKept(w1.m, Now());
      UnlistedStays(w1.m, Now(), o);
      MarkedStays(w1.m, Now(), o);
      ExemptDone(Now(), o, v);
      MarkKeepsInv(w1, Now());
    }

    method SetMetatable(i: nat, v: Value)
      requires Inv(W()) && i < |mt| && ValueAlive(W(), v)
      modifies this`mt
      ensures Inv(W()) && mt == old(mt)[i := v]
    {
      hide Inv, IsAlive;
      ghost var w0 := W();
      RootsAlive(w0);
      mt := mt[i := v];
      assert forall u :: u in mt ==> u in old(mt) || u == v;
      RootStoreKeepsInv(w0, W());
    }

    method Resume(th: Ref)
      requires Inv(W()) && th in heap && IsAlive(W(), th) && heap[th].Thread?
      modifies this`running
      ensures Inv(W()) && running == th
    {
      hide Inv, IsAlive;
      ghost var w0 := W();
      RootsAlive(w0);
      running := th;
      RootStoreKeepsInv(w0, W());
    }
  }
}