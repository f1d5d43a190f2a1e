/** The tri-colour invariant of lgc.c as a predicate on the collector's colours and work
    lists, and what the elementary colour changes do to it. */
module GcMarks {
  import opened Basics
  import opened GcHeap

  datatype Color = White0 | White1 | Gray | Black

  type Colors = map<Ref, Color>

  predicate IsWhite(c: Color) { c == White0 || c == White1 }

  predicate IsMarked(c: Colors, r: Ref) { r in c && !IsWhite(c[r]) }

  function Whites(c: Colors): set<Ref> { set r | r in c && IsWhite(c[r]) }

  // Heap, colours and the three lists threaded through `gclist' fields.
  datatype State = State(h: Heap, c: Colors, gray: seq<Ref>, grayagain: seq<Ref>, weak: seq<Ref>)

  predicate Listed(m: State, x: Ref) { x in m.gray || x in m.grayagain || x in m.weak }

  // No reference out of the heap, and the names in a prototype are strings.
  ghost predicate HeapClosed(h: Heap) {
    && (forall x, r {:trigger Holds(h, h[x], r)} :: x in h && Holds(h, h[x], r) ==> r in h)
    && (forall x, r {:trigger r in h[x].names} :: x in h && h[x].Proto? && r in h[x].names ==> r in h && h[r].Str?)
  }

  predicate HasLinks(b: Body) { b.Closure? || b.Table? || b.Thread? || b.Proto? }

  // Each object is on at most one list, and what is on a list is gray; objects in `ex' are
  // being traversed right now.
  ghost predicate ListsOK(m: State, ex: set<Ref>) {
    && NoDup(m.gray) && NoDup(m.grayagain) && NoDup(m.weak)
    && Disjoint(m.gray, m.grayagain) && Disjoint(m.gray, m.weak) && Disjoint(m.grayagain, m.weak)
    && (forall x :: Listed(m, x) ==> x in m.h && x in m.c && (x in ex || m.c[x] == Gray))
    && (forall x :: x in m.gray ==> HasLinks(m.h[x]))
    && (forall x :: x in m.grayagain ==> m.h[x].Table? || m.h[x].Thread?)
    && (forall x :: x in m.weak ==> m.h[x].Table?)
  }

  // A black object holds only marked objects; a gray one waits on a list, unless it needs
  // no traversal (strings) or is looked at again in the atomic step (open upvalues).
  ghost predicate ColorOK(m: State, x: Ref)
    requires x in m.h && x in m.c
  {
    && (m.c[x] == Black ==>
          && !m.h[x].Str? && !m.h[x].Thread? && !IsOpen(m.h[x])
          && forall r :: Holds(m.h, m.h[x], r) ==> IsMarked(m.c, r))
    && (m.c[x] == Gray ==> m.h[x].Str? || IsOpen(m.h[x]) || Listed(m, x))
  }

  ghost predicate ColorsOK(m: State, ex: set<Ref>)
    requires m.c.Keys == m.h.Keys
  {
    forall x :: x in m.h && x !in ex ==> ColorOK(m, x)
  }

  ghost predicate Tri(m: State, ex: set<Ref>) {
    && m.c.Keys == m.h.Keys
    && HeapClosed(m.h) && ListsOK(m, ex) && ColorsOK(m, ex)
    && forall x :: x in ex ==> IsMarked(m.c, x)
  }

  // Everything `x' keeps alive is marked.
  ghost predicate Settled(h: Heap, c: Colors, x: Ref)
    requires x in h
  {
    forall r :: Keeps(h, h[x], r) ==> IsMarked(c, r)
  }

  ghost predicate OpenSettled(h: Heap, c: Colors, ex: set<Ref>) {
    forall x :: x in h && IsOpen(h[x]) && IsMarked(c, x) && x !in ex ==> Settled(h, c, x)
  }

  // `s' is closed under strong references.
  ghost predicate ClosedSet(h: Heap, s: set<Ref>) {
    forall x, r {:trigger Keeps(h, h[x], r)} :: x in s && x in h && Keeps(h, h[x], r) ==> r in s
  }

  // Only members of the closed set `s' are marked.
  ghost predicate Within(h: Heap, c: Colors, s: set<Ref>) {
    ClosedSet(h, s) && forall x :: IsMarked(c, x) ==> x in s
  }

  /** Marking only turns white objects gray or black, and only objects that were white enter
      the gray list; when it colours nothing it lists nothing. */
  ghost predicate MarkStep(m0: State, m1: State) {
    && m1.h == m0.h && m1.c.Keys == m0.c.Keys
    && (forall r :: r in m0.c ==> m1.c[r] == m0.c[r] || (IsWhite(m0.c[r]) && !IsWhite(m1.c[r])))
    && (forall r :: r in m1.gray ==> r in m0.gray || (r in m0.c && IsWhite(m0.c[r])))
    && (m1.c == m0.c ==> m1.gray == m0.gray)
    && m1.grayagain == m0.grayagain && m1.weak == m0.weak
  }

  // What every marking routine assumes and restores.
  ghost predicate Marking(m: State, ex: set<Ref>, s: set<Ref>, un: set<Ref>) {
    Tri(m, ex) && Within(m.h, m.c, s) && OpenSettled(m.h, m.c, ex + un)
  }

  lemma MarkStepTrans(m0: State, m1: State, m2: State)
    requires MarkStep(m0, m1) && MarkStep(m1, m2)
    ensures MarkStep(m0, m2)
  {
    if m2.c == m0.c {
      assert m1.c == m0.c;
    }
  }

  lemma MarkedStays(m0: State, m1: State, r: Ref)
    requires MarkStep(m0, m1) && IsMarked(m0.c, r)
    ensures IsMarked(m1.c, r) && m1.c[r] == m0.c[r]
  {
  }

  // Two marking steps make one, and what either of them found marked stays marked.
  lemma StepsKeepMarks(m0: State, m1: State, m2: State)
    requires MarkStep(m0, m1) && MarkStep(m1, m2)
    ensures MarkStep(m0, m2) && forall r :: IsMarked(m1.c, r) ==> IsMarked(m2.c, r)
  {
    MarkStepTrans(m0, m1, m2);
  }

  lemma WhitesShrink(m0: State, m1: State)
    requires MarkStep(m0, m1)
    ensures Whites(m1.c) <= Whites(m0.c)
  {
  }

  /** Starting on a white object: it gets a colour and is exempt until it is done. */
  lemma BeginMark(m: State, o: Ref, k: Color, ex: set<Ref>, s: set<Ref>, un: set<Ref>)
    requires Marking(m, ex, s, un)
    requires o in m.h && o in s && IsWhite(m.c[o]) && !IsWhite(k)
    ensures var m1 := m.(c := m.c[o := k]);
            Marking(m1, ex + {o}, s, un) && MarkStep(m, m1) && Whites(m1.c) < Whites(m.c)
            && !Listed(m, o)
  {
    var m1 := m.(c := m.c[o := k]);
    assert o in Whites(m.c) && o !in Whites(m1.c);
    assert forall x :: IsMarked(m.c, x) ==> IsMarked(m1.c, x);
    forall x | x in m.h && x !in ex + {o} ensures ColorOK(m1, x) {
      assert ColorOK(m, x);
    }
  }

  /** Finishing it: once its own demands hold it need not be exempt any more. */
  lemma EndMark(m: State, o: Ref, ex: set<Ref>, s: set<Ref>, un: set<Ref>)
    requires Marking(m, ex + {o}, s, un)
    requires o in m.h && ColorOK(m, o) && (Listed(m, o) ==> m.c[o] == Gray)
    requires IsOpen(m.h[o]) && o !in un ==> Settled(m.h, m.c, o)
    ensures Marking(m, ex, s, un)
  {
  }

  // An exempt object may change between gray and black.
  lemma Recolor(m: State, o: Ref, k: Color, ex: set<Ref>, s: set<Ref>, un: set<Ref>)
    requires Marking(m, ex, s, un) && o in ex && !IsWhite(k)
    ensures Marking(m.(c := m.c[o := k]), ex, s, un)
  {
    var m1 := m.(c := m.c[o := k]);
    assert forall x :: IsMarked(m.c, x) <==> IsMarked(m1.c, x);
    forall x | x in m.h && x !in ex ensures ColorOK(m1, x) {
      assert ColorOK(m, x);
    }
  }

  lemma PushGrayOK(m: State, o: Ref, ex: set<Ref>, s: set<Ref>, un: set<Ref>)
    requires Marking(m, ex, s, un) && o in ex && o in m.h && HasLinks(m.h[o]) && !Listed(m, o)
    ensures Marking(m.(gray := [o] + m.gray), ex, s, un)
  {
    var m1 := m.(gray := [o] + m.gray);
    forall x | x in m.h && x !in ex ensures ColorOK(m1, x) {
      assert ColorOK(m, x);
    }
  }

  lemma PushWeakOK(m: State, o: Ref, ex: set<Ref>, s: set<Ref>, un: set<Ref>)
    requires Marking(m, ex, s, un) && o in ex && o in m.h && m.h[o].Table? && !Listed(m, o)
    ensures Marking(m.(weak := [o] + m.weak), ex, s, un)
  {
    var m1 := m.(weak := [o] + m.weak);
    forall x | x in m.h && x !in ex ensures ColorOK(m1, x) {
      assert ColorOK(m, x);
    }
  }

  lemma PushAgainOK(m: State, o: Ref, ex: set<Ref>, s: set<Ref>, un: set<Ref>)
    requires Marking(m, ex, s, un) && o in ex && o in m.h && !Listed(m, o)
    requires m.h[o].Table? || m.h[o].Thread?
    ensures Marking(m.(grayagain := [o] + m.grayagain), ex, s, un)
  {
    var m1 := m.(grayagain := [o] + m.grayagain);
    forall x | x in m.h && x !in ex ensures ColorOK(m1, x) {
      assert ColorOK(m, x);
    }
  }

  lemma PopGrayOK(m: State, ex: set<Ref>, s: set<Ref>, un: set<Ref>)
    requires Marking(m, ex, s, un) && m.gray != []
    ensures var o := m.gray[0];
            o in m.h && HasLinks(m.h[o]) && IsMarked(m.c, o) && o in s
            && var m1 := m.(gray := m.gray[1..]);
               Marking(m1, ex + {o}, s, un) && !Listed(m1, o)
  {
    var o := m.gray[0];
    var m1 := m.(gray := m.gray[1..]);
    assert m.gray == [o] + m1.gray;
    assert Listed(m, o);
    forall x | Listed(m1, x) ensures Listed(m, x) {
    }
    forall x | x in m.h && x !in ex + {o} ensures ColorOK(m1, x) {
      assert ColorOK(m, x);
    }
  }

  /** What a member of the closed set keeps alive is in the heap and in the set. */
  lemma KeptIsKnown(m: State, o: Ref, ex: set<Ref>, s: set<Ref>, un: set<Ref>)
    requires Marking(m, ex, s, un) && o in m.h && o in s
    ensures m.c.Keys == m.h.Keys
    ensures forall r :: Keeps(m.h, m.h[o], r) ==> r in m.h && r in s
    ensures m.h[o].Proto? ==> forall r :: r in m.h[o].names ==> r in m.h && m.h[r].Str? && r in s
  {
    forall r | Keeps(m.h, m.h[o], r) ensures r in m.h && r in s {
      KeepsHolds(m.h, m.h[o], r);
    }
    if m.h[o].Proto? {
      assert forall r :: r in m.h[o].names ==> Keeps(m.h, m.h[o], r);
    }
  }

  /** Finishing an object that was traversed while black. */
  lemma EndBlack(m: State, o: Ref, ex: set<Ref>, s: set<Ref>, un: set<Ref>)
    requires Marking(m, ex + {o}, s, un) && o in m.h && o in m.c
    requires m.c[o] == Black && !m.h[o].Str? && !m.h[o].Thread? && !IsOpen(m.h[o]) && !Listed(m, o)
    requires Settled(m.h, m.c, o) && (m.h[o].Table? ==> ModeOf(m.h, m.h[o].meta) == STRONG)
    ensures Marking(m, ex, s, un)
  {
    assert forall r :: Holds(m.h, m.h[o], r) <==> Keeps(m.h, m.h[o], r);
    assert ColorOK(m, o);
    EndMark(m, o, ex, s, un);
  }

  // Marking never lists an object that was marked before.
  lemma UnlistedStays(m0: State, m1: State, o: Ref)
    requires MarkStep(m0, m1) && IsMarked(m0.c, o) && !Listed(m0, o)
    ensures !Listed(m1, o)
  {
  }

  lemma PushIsMarkStep(m0: State, m1: State, o: Ref)
    requires MarkStep(m0, m1) && o in m0.c && IsWhite(m0.c[o]) && IsMarked(m1.c, o)
    ensures MarkStep(m0, m1.(gray := [o] + m1.gray))
  {
  }

  lemma RecolorIsMarkStep(m0: State, m1: State, o: Ref)
    requires MarkStep(m0, m1) && o in m0.c && IsWhite(m0.c[o])
    ensures MarkStep(m0, m1.(c := m1.c[o := Black]))
  {
  }

  // A string needs no traversal and a listed object waits for its own.
  lemma StringDone(m: State, o: Ref, ex: set<Ref>, s: set<Ref>, un: set<Ref>)
    requires Marking(m, ex + {o}, s, un)
    requires o in m.h && o in m.c && m.c[o] == Gray && m.h[o].Str?
    ensures Marking(m, ex, s, un)
  {
    EndMark(m, o, ex, s, un);
  }

  lemma ListedDone(m: State, o: Ref, ex: set<Ref>, s: set<Ref>, un: set<Ref>)
    requires Marking(m, ex + {o}, s, un)
    requires o in m.h && o in m.c && m.c[o] == Gray && Listed(m, o) && HasLinks(m.h[o])
    ensures Marking(m, ex, s, un)
  {
    EndMark(m, o, ex, s, un);
  }

  lemma MetaIsKept(h: Heap, b: Body)
    requires b.Table? && b.meta.Obj?
    ensures Keeps(h, b, b.meta.ref)
  {
  }

  // Marking does not look at the weak list.
  lemma MarkStepRelist(m0: State, m1: State, m2: State, w: seq<Ref>)
    requires MarkStep(m0, m1) && MarkStep(m1.(weak := m2.weak), m2) && w == m0.weak
    ensures MarkStep(m0, m2.(weak := w))
  {
  }

  /** Marking that colours nothing leaves the gray list alone. */
  lemma NoMarkNoPush(m0: State, m1: State)
    requires MarkStep(m0, m1) && Whites(m1.c) == Whites(m0.c)
    ensures m1.gray == m0.gray
  {
    forall r | r in m0.c ensures m1.c[r] == m0.c[r] {
      assert r in Whites(m1.c) <==> r in Whites(m0.c);
    }
    assert m1.c == m0.c;
  }

  /** Traversal makes progress: marked objects stay marked and every object newly put aside on
      `weak' or `grayagain' has had everything it keeps marked. */
  ghost predicate Advances(m0: State, m1: State) {
    && m1.h == m0.h && m1.c.Keys == m0.c.Keys
    && (forall r :: IsMarked(m0.c, r) ==> IsMarked(m1.c, r))
    && (forall r :: r in m1.c && IsWhite(m1.c[r]) ==> m1.c[r] == m0.c[r])
    && (forall x :: x in m1.weak ==> x in m0.weak || (x in m1.h && Settled(m1.h, m1.c, x)))
    && (forall x :: x in m1.grayagain ==> x in m0.grayagain || (x in m1.h && m1.h[x].Thread? && Settled(m1.h, m1.c, x)))
  }

  lemma AdvancesTrans(m0: State, m1: State, m2: State)
    requires Advances(m0, m1) && Advances(m1, m2)
    ensures Advances(m0, m2)
  {
  }

  lemma MarkStepAdvances(m0: State, m1: State)
    requires MarkStep(m0, m1)
    ensures Advances(m0, m1) && Whites(m1.c) <= Whites(m0.c)
    ensures Whites(m1.c) == Whites(m0.c) ==> m1.gray == m0.gray
  {
    if Whites(m1.c) == Whites(m0.c) {
      NoMarkNoPush(m0, m1);
    }
  }

  // Gray and black are both marked.
  lemma RecolorAdvances(m: State, o: Ref, k: Color)
    requires IsMarked(m.c, o) && !IsWhite(k)
    ensures Advances(m, m.(c := m.c[o := k])) && Whites(m.c[o := k]) == Whites(m.c)
  {
    assert forall r :: IsMarked(m.c, r) <==> IsMarked(m.c[o := k], r);
  }

  lemma SettledAdvances(m0: State, m1: State, x: Ref)
    requires Advances(m0, m1) && x in m0.h && Settled(m0.h, m0.c, x)
    ensures Settled(m1.h, m1.c, x)
  {
  }

  // The mode bits kept in a weak table are those of its metatable now, except for the
  // tables in `pend' that were listed earlier.
  ghost predicate BitsOK(h: Heap, weak: seq<Ref>, bits: map<Ref, Mode>, pend: set<Ref>) {
    forall x :: x in weak && x !in pend ==>
      x in h && h[x].Table? && x in bits && bits[x] == ModeOf(h, h[x].meta) && bits[x] != STRONG
  }

  // The lists stay in order when no listed object changes kind or colour.
  lemma ListsKept(m: State, m1: State, ex: set<Ref>)
    requires ListsOK(m, {})
    requires m1.gray == m.gray && m1.grayagain == m.grayagain && m1.weak == m.weak
    requires forall x :: Listed(m, x) ==> x in m1.h && x in m1.c && m1.c[x] == m.c[x]
    requires forall x :: Listed(m, x) ==> HasLinks(m1.h[x]) == HasLinks(m.h[x])
    requires forall x :: Listed(m, x) ==> m1.h[x].Table? == m.h[x].Table? && m1.h[x].Thread? == m.h[x].Thread?
    ensures ListsOK(m1, ex)
  {
    assert forall x :: Listed(m1, x) <==> Listed(m, x);
  }

  lemma OpenUnlisted(m: State, u: Ref)
    requires ListsOK(m, {}) && u in m.h && m.h[u].Upval?
    ensures !Listed(m, u)
  {
  }

  // Once its value is marked, an open upvalue need not be waited for.
  lemma Unwait(m: State, s: set<Ref>, un: set<Ref>, un1: set<Ref>)
    requires Marking(m, {}, s, un)
    requires forall x :: x in un && x !in un1 && x in m.h && IsOpen(m.h[x]) && IsMarked(m.c, x) ==> Settled(m.h, m.c, x)
    ensures Marking(m, {}, s, un1)
  {
  }

  lemma MoveWeak(m: State, s: set<Ref>, un: set<Ref>)
    requires Marking(m, {}, s, un) && m.gray == []
    ensures Marking(m.(gray := m.weak, weak := []), {}, s, un)
  {
    var m1 := m.(gray := m.weak, weak := []);
    assert forall x :: Listed(m1, x) <==> Listed(m, x);
    forall x | x in m.h ensures ColorOK(m1, x) {
      assert ColorOK(m, x);
    }
  }

  lemma MoveGrayAgain(m: State, s: set<Ref>, un: set<Ref>)
    requires Marking(m, {}, s, un) && m.gray == []
    ensures Marking(m.(gray := m.grayagain, grayagain := []), {}, s, un)
  {
    var m1 := m.(gray := m.grayagain, grayagain := []);
    assert forall x :: Listed(m1, x) <==> Listed(m, x);
    forall x | x in m.h ensures ColorOK(m1, x) {
      assert ColorOK(m, x);
    }
  }

  lemma MarkStepRefl(m: State)
    ensures MarkStep(m, m)
  {
  }

  lemma KeysKnown(m: State, ex: set<Ref>, s: set<Ref>, un: set<Ref>)
    requires Marking(m, ex, s, un)
    ensures m.c.Keys == m.h.Keys
  {
  }

  lemma MarkedIsWithin(m: State, o: Ref, ex: set<Ref>, s: set<Ref>, un: set<Ref>)
    requires Marking(m, ex, s, un) && IsMarked(m.c, o)
    ensures o in s
  {
  }

  lemma OpenNotBlack(m: State, u: Ref, ex: set<Ref>, s: set<Ref>, un: set<Ref>)
    requires Marking(m, ex, s, un) && u in m.h && u in m.c && IsOpen(m.h[u]) && u !in ex
    ensures m.c[u] != Black
  {
    assert ColorOK(m, u);
  }

  lemma BitsOfNone(h: Heap, bits: map<Ref, Mode>)
    ensures BitsOK(h, [], bits, {})
  {
  }

  lemma MarkingIsWithin(m: State, s: set<Ref>, un: set<Ref>)
    requires Marking(m, {}, s, un)
    ensures Within(m.h, m.c, s) && Tri(m, {})
  {
  }
}
