/** The invariant of the whole collector, in each of its five states, and reachability. */
module GcInv {
  import opened Basics
  import opened GcHeap
  import opened GcMarks

  datatype Phase = Pause | Propagate | SweepString | Sweep | Finalize

  function Flip(c: Color): Color { if c == White0 then White1 else White0 }

  // A snapshot of the global state: the marks, the sweep lists and positions, the roots.
  datatype World = World(
    m: State,
    fixed: set<Ref>,
    white: Color,
    phase: Phase,
    rootgc: seq<Ref>,
    sweepgc: nat,
    strt: seq<seq<Ref>>,
    sweepstrgc: nat,
    uvhead: seq<Ref>,
    mainthread: Ref,
    running: Ref,
    registry: Value,
    mt: seq<Value>)

  predicate IsRoot(w: World, r: Ref) {
    r == w.mainthread || r == w.running || w.registry == Obj(r) || Obj(r) in w.mt
  }

  // ---------- reachability ----------

  // A path of references from a root; `strong' leaves out the weak slots of weak tables.
  ghost predicate IsPath(w: World, p: seq<Ref>, strong: bool) {
    && |p| > 0 && IsRoot(w, p[0])
    && forall i :: 0 <= i < |p| - 1 ==> Edge(w.m.h, p, i, strong)
  }

  predicate Edge(h: Heap, p: seq<Ref>, i: nat, strong: bool)
    requires i < |p| - 1
  {
    p[i] in h && Refers(h, p[i], p[i + 1], strong)
  }

  predicate Refers(h: Heap, x: Ref, r: Ref, strong: bool)
    requires x in h
  {
    if strong then Keeps(h, h[x], r) else Holds(h, h[x], r)
  }

  ghost predicate Reachable(w: World, x: Ref, strong: bool) {
    exists p :: IsPath(w, p, strong) && p[|p| - 1] == x
  }

  /** Whatever contains the roots and is closed under references contains all that is
      reachable. */
  lemma {:induction false} PathStays(w: World, p: seq<Ref>, strong: bool, s: iset<Ref>)
    requires IsPath(w, p, strong)
    requires forall r :: IsRoot(w, r) ==> r in s
    requires forall x, r :: x in s && x in w.m.h && Refers(w.m.h, x, r, strong) ==> r in s
    ensures p[|p| - 1] in s
  {
    var n := |p| - 1;
    if n > 0 {
      forall i | 0 <= i < n - 1 ensures Edge(w.m.h, p[..n], i, strong) {
        assert Edge(w.m.h, p, i, strong);
      }
      PathStays(w, p[..n], strong, s);
      assert Edge(w.m.h, p, n - 1, strong);
    }
  }

  lemma RootReachable(w: World, r: Ref, strong: bool)
    requires IsRoot(w, r)
    ensures Reachable(w, r, strong)
  {
    assert IsPath(w, [r], strong) && [r][|[r]| - 1] == r;
  }

  lemma StepReachable(w: World, x: Ref, r: Ref, strong: bool)
    requires Reachable(w, x, strong) && x in w.m.h
    requires Refers(w.m.h, x, r, strong)
    ensures Reachable(w, r, strong)
  {
    var p :| IsPath(w, p, strong) && p[|p| - 1] == x;
    var q := p + [r];
    forall i | 0 <= i < |q| - 1 ensures Edge(w.m.h, q, i, strong) {
      if i < |p| - 1 {
        assert Edge(w.m.h, p, i, strong);
      }
    }
    assert IsPath(w, q, strong) && q[|q| - 1] == r;
  }

  // ---------- the invariant ----------

  // What the sweep will free.
  predicate IsDead(w: World, x: Ref) {
    x in w.m.c && w.m.c[x] == Flip(w.white) && x !in w.fixed
  }

  predicate IsAlive(w: World, x: Ref) { x in w.m.h && !IsDead(w, x) }

  predicate InStrt(strt: seq<seq<Ref>>, x: Ref) { exists b :: b in strt && x in b }

  // Each string is in the bucket its hash says.
  ghost predicate Hashed(h: Heap, strt: seq<seq<Ref>>) {
    forall i, x {:trigger x in strt[i]} :: 0 <= i < |strt| && x in strt[i] ==>
      x in h && h[x].Str? && HashOf(h[x].text) % |strt| == i
  }

  // No two strings have the same text.
  ghost predicate Unique(h: Heap) {
    forall x, y :: x in h && y in h && h[x].Str? && h[y].Str? && h[x].text == h[y].text ==> x == y
  }

  ghost predicate StringsOK(h: Heap, strt: seq<seq<Ref>>) {
    && (forall x :: x in h && h[x].Str? <==> InStrt(strt, x))
    && (forall b :: b in strt ==> NoDup(b))
    && (forall i, j :: 0 <= i < j < |strt| ==> Disjoint(strt[i], strt[j]))
    && Hashed(h, strt) && Unique(h)
  }

  // The string table depends on the strings alone.
  lemma SameStringsOK(h: Heap, h1: Heap, strt: seq<seq<Ref>>)
    requires StringsOK(h, strt)
    requires forall x :: x in h && h[x].Str? ==> x in h1 && h1[x] == h[x]
    requires forall x :: x in h1 && h1[x].Str? ==> x in h && h[x].Str?
    ensures StringsOK(h1, strt)
  {
  }

  ghost predicate RootgcOK(h: Heap, rootgc: seq<Ref>) {
    NoDup(rootgc) && forall x :: x in rootgc <==> x in h && !h[x].Str? && !IsOpen(h[x])
  }

  // An open-upvalue list: upvalues of this thread's own slots, in strictly descending order.
  ghost predicate OpenListOK(h: Heap, th: Ref)
    requires th in h && h[th].Thread?
  {
    var l := h[th].openupval;
    && (forall u :: u in l ==>
          u in h && IsOpen(h[u]) && h[u].place.th == th && h[u].place.idx < |h[th].stack|)
    && (forall i, j :: 0 <= i < j < |l| ==> h[l[i]].place.idx > h[l[j]].place.idx)
  }

  ghost predicate OpenOK(h: Heap, uvhead: seq<Ref>) {
    && (forall th :: th in h && h[th].Thread? ==> OpenListOK(h, th))
    && (forall u :: u in h && IsOpen(h[u]) ==>
          h[u].place.th in h && h[h[u].place.th].Thread? && u in h[h[u].place.th].openupval)
    && NoDup(uvhead)
    && (forall u :: u in uvhead <==> u in h && IsOpen(h[u]))
  }

  ghost predicate RootsOK(w: World) {
    && w.mainthread in w.m.h && w.m.h[w.mainthread].Thread? && w.mainthread in w.fixed
    && w.running in w.m.h && w.m.h[w.running].Thread?
    && (forall x :: x in w.fixed ==> x in w.m.h && (w.m.h[x].Str? || x == w.mainthread))
  }

  ghost predicate Shape(w: World) {
    && w.m.c.Keys == w.m.h.Keys && IsWhite(w.white)
    && StringsOK(w.m.h, w.strt) && RootgcOK(w.m.h, w.rootgc) && OpenOK(w.m.h, w.uvhead)
    && RootsOK(w)
    && (forall u :: u in w.m.h && IsOpen(w.m.h[u]) ==> w.m.c[u] != Black)
    && 0 < |w.strt|
  }

  // No live object refers to a dead or freed one.
  ghost predicate Linked(w: World) {
    && (forall r :: IsRoot(w, r) ==> IsAlive(w, r))
    && (forall x, r {:trigger Holds(w.m.h, w.m.h[x], r)} ::
          IsAlive(w, x) && Holds(w.m.h, w.m.h[x], r) ==> IsAlive(w, r))
    && (forall x, r {:trigger r in w.m.h[x].names} ::
          IsAlive(w, x) && w.m.h[x].Proto? && r in w.m.h[x].names ==> r in w.m.h && w.m.h[r].Str?)
  }

  ghost predicate AllWhite(w: World) {
    forall x :: x in w.m.h ==> x in w.m.c && w.m.c[x] == w.white
  }

  ghost predicate PropagateOK(w: World) {
    && Tri(w.m, {})
    && (forall x :: x in w.m.c ==> w.m.c[x] != Flip(w.white))
    && IsMarked(w.m.c, w.mainthread)
    && (w.registry.Obj? ==> IsMarked(w.m.c, w.registry.ref))
  }

  predicate IsSwept(c: Colors, white: Color, x: Ref) { x in c && c[x] == white }

  ghost predicate StringsSwept(c: Colors, white: Color, strt: seq<seq<Ref>>, n: nat) {
    n <= |strt| && forall i :: 0 <= i < n ==> BucketSwept(c, white, strt[i])
  }

  ghost predicate BucketSwept(c: Colors, white: Color, b: seq<Ref>) {
    forall x :: x in b ==> IsSwept(c, white, x)
  }

  // The swept part of the object list is white again, and so are the open upvalues of the
  // threads in it.
  ghost predicate RootsSwept(h: Heap, c: Colors, white: Color, rootgc: seq<Ref>, n: nat) {
    && n <= |rootgc|
    && forall x :: x in rootgc[..n] ==> RootSwept(h, c, white, x)
  }

  ghost predicate RootSwept(h: Heap, c: Colors, white: Color, x: Ref) {
    && IsSwept(c, white, x)
    && (x in h && h[x].Thread? ==> forall u :: u in h[x].openupval ==> IsSwept(c, white, u))
  }

  ghost predicate PhaseOK(w: World) {
    match w.phase
    case Pause => AllWhite(w)
    case Propagate => PropagateOK(w)
    case SweepString => w.sweepgc == 0 && w.sweepstrgc < |w.strt| && StringsSwept(w.m.c, w.white, w.strt, w.sweepstrgc)
    case Sweep =>
      && StringsSwept(w.m.c, w.white, w.strt, |w.strt|)
      && RootsSwept(w.m.h, w.m.c, w.white, w.rootgc, w.sweepgc)
    case Finalize => AllWhite(w)
  }

  ghost predicate Inv(w: World) { Shape(w) && Linked(w) && PhaseOK(w) }

  /** Safety: nothing that can be reached from the roots, through weak slots or not, is dead
      or freed, in any state of the collector. */
  lemma ReachableIsAlive(w: World, x: Ref, strong: bool)
    requires Inv(w) && Reachable(w, x, strong)
    ensures IsAlive(w, x)
  {
    var p :| IsPath(w, p, strong) && p[|p| - 1] == x;
    forall y, r | IsAlive(w, y) && Keeps(w.m.h, w.m.h[y], r) ensures IsAlive(w, r) {
      KeepsHolds(w.m.h, w.m.h[y], r);
    }
    PathStays(w, p, strong, iset y | IsAlive(w, y));
  }

  /** No field of a live object dangles, in any state of the collector. */
  lemma NothingDangles(w: World, x: Ref)
    requires Inv(w) && x in w.m.h && !(x in w.m.c && w.m.c[x] == Flip(w.white) && x !in w.fixed)
    ensures match w.m.h[x]
            case Str(_) => true
            case Udata(meta, env) => (meta.Obj? ==> meta.ref in w.m.h) && (env.Obj? ==> env.ref in w.m.h)
            case Upval(place) => place.Closed? && place.v.Obj? ==> place.v.ref in w.m.h
            case Closure(env, proto, upvals) =>
              && (env.Obj? ==> env.ref in w.m.h) && (proto.Obj? ==> proto.ref in w.m.h)
              && forall v :: v in upvals && v.Obj? ==> v.ref in w.m.h
            case Table(meta, _, arr, nodes) =>
              && (meta.Obj? ==> meta.ref in w.m.h) && (forall v :: v in arr && v.Obj? ==> v.ref in w.m.h)
              && forall e :: e in nodes && e.val != Nil ==>
                   (e.key.Obj? ==> e.key.ref in w.m.h) && (e.val.Obj? ==> e.val.ref in w.m.h)
            case Thread(gt, stack, openupval) =>
              && (gt.Obj? ==> gt.ref in w.m.h) && (forall v :: v in stack && v.Obj? ==> v.ref in w.m.h)
              && forall u :: u in openupval ==> u in w.m.h
            case Proto(names, consts, protos) =>
              && (forall r :: r in names ==> r in w.m.h) && (forall v :: v in consts && v.Obj? ==> v.ref in w.m.h)
              && forall v :: v in protos && v.Obj? ==> v.ref in w.m.h
  {
    assert IsAlive(w, x);
    hide Inv, IsAlive, Holds;
    HoldsFields(w.m.h, w.m.h[x]);
    HeldIsThere(w, x);
  }

  lemma HeldIsThere(w: World, x: Ref)
    requires Inv(w) && IsAlive(w, x)
    ensures forall r :: Holds(w.m.h, w.m.h[x], r) ==> r in w.m.h
    ensures w.m.h[x].Thread? ==> forall u :: u in w.m.h[x].openupval ==> u in w.m.h
  {
    if w.m.h[x].Thread? {
      assert OpenListOK(w.m.h, x);
    }
  }

  // What stands in a field is held.
  lemma HoldsFields(h: Heap, b: Body)
    ensures match b
            case Str(_) => true
            case Udata(meta, env) => forall r :: meta == Obj(r) || env == Obj(r) ==> Holds(h, b, r)
            case Upval(place) => forall r :: place == Closed(Obj(r)) ==> Holds(h, b, r)
            case Closure(env, proto, upvals) =>
              forall r :: env == Obj(r) || proto == Obj(r) || Obj(r) in upvals ==> Holds(h, b, r)
            case Table(meta, _, arr, nodes) =>
              && (forall r :: meta == Obj(r) || Obj(r) in arr ==> Holds(h, b, r))
              && forall e, r :: e in nodes && e.val != Nil && (e.key == Obj(r) || e.val == Obj(r)) ==> Holds(h, b, r)
            case Thread(gt, stack, _) => forall r :: gt == Obj(r) || Obj(r) in stack ==> Holds(h, b, r)
            case Proto(names, consts, protos) =>
              forall r :: r in names || Obj(r) in consts || Obj(r) in protos ==> Holds(h, b, r)
  {
    if b.Table? {
      forall e, r | e in b.nodes && e.val != Nil && (e.key == Obj(r) || e.val == Obj(r)) ensures Holds(h, b, r) {
        assert EntryRefers(e, STRONG, r);
      }
    }
  }

  lemma InPauseAllLive(w: World)
    requires Inv(w) && w.phase == Pause
    ensures forall x :: x in w.m.h ==> x in w.m.c && w.m.c[x] != Flip(w.white)
  {
  }

  lemma RootsThere(w: World)
    requires Inv(w)
    ensures w.mainthread in w.m.h && w.running in w.m.h && (w.registry.Obj? ==> w.registry.ref in w.m.h)
    ensures forall v :: v in w.mt && v.Obj? ==> v.ref in w.m.h
    ensures w.m.c.Keys == w.m.h.Keys
  {
    forall v | v in w.mt && v.Obj? ensures v.ref in w.m.h {
      assert IsRoot(w, v.ref);
    }
    assert w.registry.Obj? ==> IsRoot(w, w.registry.ref);
  }
}
