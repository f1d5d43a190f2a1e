/** What an expression descriptor of lcode.c stands for while its code is still open: the jump
    lists threaded through the code, and the value that running the code yields. */
module CodeExp {
  import opened Basics
  import opened Limits
  import opened CodeSem

  const NO_JUMP: int := -1

  // ---------- jump lists ----------

  function NextOf(code: Code, j: nat): int
    requires j < |code| && code[j].Jmp?
  {
    if code[j].sbx == NO_JUMP then NO_JUMP else j + 1 + code[j].sbx
  }

  // The list that starts at l has exactly the members s, in this order.
  ghost predicate IsList(code: Code, l: int, s: seq<nat>)
    decreases |s|
  {
    if s == [] then l == NO_JUMP
    else l == s[0] && s[0] < |code| && code[s[0]].Jmp? && IsList(code, NextOf(code, s[0]), s[1..])
  }

  function Set(s: seq<nat>): (r: set<nat>) { set j | j in s }

  lemma {:induction false} ListUnique(code: Code, l: int, s: seq<nat>, t: seq<nat>)
    requires IsList(code, l, s) && IsList(code, l, t)
    ensures s == t
    decreases |s|
  {
    if s != [] && t != [] {
      ListUnique(code, NextOf(code, s[0]), s[1..], t[1..]);
      assert s == [s[0]] + s[1..] && t == [t[0]] + t[1..];
    }
  }

  lemma {:induction false} ListSuffix(code: Code, l: int, s: seq<nat>, i: nat)
    requires IsList(code, l, s) && i <= |s|
    ensures IsList(code, if i < |s| then s[i] else NO_JUMP, s[i..])
    decreases |s|
  {
    if i == 0 {
      assert s[0..] == s;
    } else {
      ListSuffix(code, NextOf(code, s[0]), s[1..], i - 1);
      assert s[1..][i - 1..] == s[i..];
    }
  }

  /** A list never meets itself. */
  lemma ListNoDup(code: Code, l: int, s: seq<nat>)
    requires IsList(code, l, s)
    ensures NoDup(s)
  {
    forall i, j | 0 <= i < j < |s| ensures s[i] != s[j] {
      ListSuffix(code, l, s, i);
      ListSuffix(code, l, s, j);
      if s[i] == s[j] {
        ListUnique(code, s[i], s[i..], s[j..]);
      }
    }
  }

  lemma {:induction false} ListMembers(code: Code, l: int, s: seq<nat>)
    requires IsList(code, l, s)
    ensures forall j :: j in s ==> j < |code| && code[j].Jmp?
    decreases |s|
  {
    if s != [] {
      assert s == [s[0]] + s[1..];
      ListMembers(code, NextOf(code, s[0]), s[1..]);
    }
  }

  lemma {:induction false} ListFrame(code: Code, code1: Code, l: int, s: seq<nat>)
    requires IsList(code, l, s)
    requires forall j :: j in s ==> j < |code1| && j < |code| && code1[j] == code[j]
    ensures IsList(code1, l, s)
    decreases |s|
  {
    if s != [] {
      assert s[0] in s && forall j :: j in s[1..] ==> j in s;
      ListFrame(code, code1, NextOf(code, s[0]), s[1..]);
    }
  }

  // The code after the last jump of list s was linked to l2.
  function Linked(code: Code, s: seq<nat>, l2: int): Code
    requires s != [] && s[|s| - 1] < |code|
  {
    var last := s[|s| - 1];
    code[last := Jmp(l2 - (last + 1))]
  }

  /** Linking the last jump of one list to another list appends the two. */
  lemma {:induction false} ListConcat(code: Code, l1: int, s1: seq<nat>, l2: int, s2: seq<nat>)
    requires IsList(code, l1, s1) && IsList(code, l2, s2) && s1 != [] && s2 != [] && Disjoint(s1, s2)
    requires s1[|s1| - 1] < |code|
    ensures IsList(Linked(code, s1, l2), l1, s1 + s2)
    decreases |s1|
  {
    var code1 := Linked(code, s1, l2);
    var last := s1[|s1| - 1];
    assert last in s1;
    assert s1 + s2 == [s1[0]] + (s1[1..] + s2);
    if |s1| == 1 {
      assert s1[1..] + s2 == s2;
      ListMembers(code, l2, s2);
      ListFrame(code, code1, l2, s2);
    } else {
      ListNoDup(code, l1, s1);
      assert s1 == [s1[0]] + s1[1..];
      assert s1[1..][|s1| - 2] == last;
      ListConcat(code, NextOf(code, s1[0]), s1[1..], l2, s2);
    }
  }

  // ---------- expression descriptors ----------

  datatype Kind = VLOCAL | VUPVAL | VK | VNONRELOC | VRELOCABLE | VJMP

  // `t' and `f' are the lists of jumps taken when the value is true or false.
  datatype Exp = Exp(k: Kind, info: nat, t: int, f: int)

  // What is known when the end of the code is reached.
  datatype Fin =
    | AsExp(k: Kind, info: nat)            // where the value is
    | Truth(c: bool)                       // whether it counts as true
    | Is(b: bool)                          // that it is this boolean
    | Fails(info: nat)                     // that the comparison before jump `info' gives it, negated
    | NegatedReg(reg: nat)                 // that it is the negation of a register
    | With(e1: Expr, fin1: Fin, fin2: Fin) // the same of an operand evaluated before

  ghost predicate ValueOf(env: Env, code: Code, fin: Fin, r0: Regs, r: Regs, v: Value) {
    match fin
    case Truth(c) => Falsy(v) == !c
    case Is(b) => v == Bool(b)
    case NegatedReg(reg) => reg < NREGS && v == Bool(Falsy(r[reg]))
    case Fails(info) => 1 <= info <= |code| && code[info - 1].Cmp? && v == Bool(!Taken(env, code[info - 1], r))
    case With(e1, fin1, fin2) =>
      ValueOf(env, code, fin1, r0, r, Eval(env, e1, r0)) && ValueOf(env, code, fin2, r0, r, v)
    case AsExp(k, info) =>
      match k
      case VLOCAL => info < NREGS && r[info] == v
      case VNONRELOC => info < NREGS && r[info] == v
      case VUPVAL => env.up(info) == v
      case VK => Konst(env, info) == v
      case VRELOCABLE => info < |code| && HasResult(code[info]) && Result(env, code[info], r) == v
      case VJMP => 1 <= info <= |code| && code[info - 1].Cmp? && v == Bool(Taken(env, code[info - 1], r))
  }

  // The value is in a register or known without running an instruction.
  predicate Settled(fin: Fin) {
    match fin
    case AsExp(k, _) => k != VRELOCABLE && k != VJMP
    case With(_, f1, f2) => Settled(f1) && Settled(f2)
    case Fails(_) => false
    case _ => true
  }

  lemma {:induction false} SettledValue(env: Env, code: Code, code1: Code, fin: Fin, r0: Regs, r: Regs, v: Value)
    requires Settled(fin)
    ensures ValueOf(env, code, fin, r0, r, v) <==> ValueOf(env, code1, fin, r0, r, v)
  {
    if fin.With? {
      SettledValue(env, code, code1, fin.fin1, r0, r, Eval(env, fin.e1, r0));
      SettledValue(env, code, code1, fin.fin2, r0, r, v);
    }
  }

  // A jump out of an expression: the value is true or false as the list says; if the jump's
  // test can copy it, it is in the register tested, otherwise it is a boolean.
  ghost predicate ExitOK(code: Code, j: nat, r: Regs, v: Value, c: bool) {
    Falsy(v) == !c && if IsTestSet(code, j) then r[code[j - 1].b] == v else v == Bool(c)
  }

  // Jumps to the end count as reaching it.
  function Final(out: Outcome, js: set<nat>): Outcome {
    if out.At? && out.j in js then End(out.r) else out
  }

  ghost predicate OutcomeOK(env: Env, code: Code, ts: set<nat>, fs: set<nat>, out: Outcome, r0: Regs,
                            n: nat, x: nat, v: Value, fin: Fin)
  {
    match out
    case Lost => false
    case End(r) => Same(r0, r, n, x) && ValueOf(env, code, fin, r0, r, v)
    case At(j, r) =>
      Same(r0, r, n, x) && ((j in ts && ExitOK(code, j, r, v, true)) || (j in fs && ExitOK(code, j, r, v, false)))
  }

  ghost predicate Means(env: Env, ex: Expr, code: Code, js: set<nat>, ts: set<nat>, fs: set<nat>,
                        lo: nat, stop: nat, n: nat, x: nat, fin: Fin, r0: Regs)
    requires stop <= |code|
  {
    var out := Final(Run(env, code, js + ts + fs, stop, lo, r0), js);
    OutcomeOK(env, code, ts, fs, out, r0, n, x, Eval(env, ex, r0), fin)
  }

  /** Running the code from lo yields the value of ex: at `stop' or by a jump in `js' it is as
      `fin' says, by the jumps in `ts' and `fs' it leaves early, and the first n registers
      other than x keep their values. */
  ghost predicate Denotes(ex: Expr, code: Code, js: set<nat>, ts: set<nat>, fs: set<nat>,
                          lo: nat, stop: nat, n: nat, x: nat, fin: Fin)
  {
    && stop <= |code|
    && forall env, r0 :: Means(env, ex, code, js, ts, fs, lo, stop, n, x, fin, r0)
  }

  // ---------- code ----------

  // Every test is followed by its jump.
  ghost predicate WFCode(code: Code) {
    forall i :: 0 <= i < |code| && TMode(code[i]) ==> i + 1 < |code| && code[i + 1].Jmp?
  }

  // Position lo does not split a test from its jump.
  predicate StartOK(code: Code, lo: nat) { lo <= |code| && (lo > 0 ==> !TMode(code[lo - 1])) }

  // The test of the jump at j copies the same register in both.
  predicate SameTest(code: Code, code1: Code, j: nat) {
    IsTestSet(code1, j) == IsTestSet(code, j) && (IsTestSet(code, j) ==> code1[j - 1].b == code[j - 1].b)
  }

  // The jumps to here get their target when the next instruction is emitted.
  function Landed(code: Code, js: set<nat>): (c: Code)
    ensures |c| == |code|
  {
    Patched(code, js, |code|, NO_REG, |code|)
  }

  function Emit(code: Code, js: set<nat>, i: Instr): Code { Landed(code, js) + [i] }

  // Where js, ts and fs are: jumps of the code, in no two lists.
  ghost predicate Apart(code: Code, js: set<nat>, ts: set<nat>, fs: set<nat>) {
    && (forall j :: j in js || j in ts || j in fs ==> j < |code| && code[j].Jmp?)
    && js !! ts && js !! fs && ts !! fs
  }

  // ---------- emitting ----------

  /** After the jumps to here have landed, the code means what it meant at its old end. */
  lemma LandedFollows(code: Code, code1: Code, js: set<nat>, es: set<nat>, lo: nat)
    requires WFCode(code) && StartOK(code, lo) && js !! es
    requires forall j :: j in js + es ==> j < |code| && code[j].Jmp?
    requires |code| <= |code1| && code1[..|code|] == Landed(code, js)
    ensures FollowsAll(code, js + es, code1, es, js, |code|, NO_REG, |code|, lo, |code|)
  {
    var c := Landed(code, js);
    assert forall i :: 0 <= i < |code| ==> code1[i] == c[i];
  }

  lemma LandedTests(code: Code, code1: Code, js: set<nat>, ts: set<nat>, fs: set<nat>)
    requires Apart(code, js, ts, fs) && |code| <= |code1| && code1[..|code|] == Landed(code, js)
    ensures forall j :: j in ts + fs ==> SameTest(code, code1, j)
  {
    var c := Landed(code, js);
    forall j | j in ts + fs ensures SameTest(code, code1, j) {
      assert j in js + ts + fs;
      if 1 <= j {
        assert code1[j - 1] == code1[..|code|][j - 1] == c[j - 1];
      }
    }
  }

  lemma EmitMeans(env: Env, ex: Expr, code: Code, code1: Code, js: set<nat>, ts: set<nat>, fs: set<nat>,
                  lo: nat, n: nat, x: nat, fin: Fin, r0: Regs)
    requires WFCode(code) && Apart(code, js, ts, fs) && StartOK(code, lo) && Settled(fin)
    requires Means(env, ex, code, js, ts, fs, lo, |code|, n, x, fin, r0)
    requires |code| <= |code1| && code1[..|code|] == Landed(code, js)
    ensures Means(env, ex, code1, {}, ts, fs, lo, |code|, n, x, fin, r0)
  {
    LandedFollows(code, code1, js, ts + fs, lo);
    assert js + ts + fs == js + (ts + fs) && {} + ts + fs == ts + fs;
    LandedTests(code, code1, js, ts, fs);
    hide FollowsAll, Run, WFCode, Landed, Same, Eval;
    RunOn(env, code, js + ts + fs, code1, {} + ts + fs, js, |code|, NO_REG, |code|, lo, |code|, |code|, lo, r0);
    var out := Run(env, code, js + ts + fs, |code|, lo, r0);
    var out1 := Run(env, code1, {} + ts + fs, |code|, lo, r0);
    if out.At? && out.j !in js {
      assert out1 == out;
    } else {
      assert out1 == End(out.r);
      SettledValue(env, code, code1, fin, r0, out.r, Eval(env, ex, r0));
    }
  }

  lemma EmitDenotes(ex: Expr, code: Code, code1: Code, js: set<nat>, ts: set<nat>, fs: set<nat>,
                    lo: nat, n: nat, x: nat, fin: Fin)
    requires WFCode(code) && Apart(code, js, ts, fs) && StartOK(code, lo) && Settled(fin)
    requires Denotes(ex, code, js, ts, fs, lo, |code|, n, x, fin)
    requires |code| <= |code1| && code1[..|code|] == Landed(code, js)
    ensures Denotes(ex, code1, {}, ts, fs, lo, |code|, n, x, fin)
  {
    forall env, r0 ensures Means(env, ex, code1, {}, ts, fs, lo, |code|, n, x, fin, r0) {
      assert Means(env, ex, code, js, ts, fs, lo, |code|, n, x, fin, r0);
      EmitMeans(env, ex, code, code1, js, ts, fs, lo, n, x, fin, r0);
    }
  }

  // ---------- one instruction more ----------

  // Going on in the same code.
  lemma RunFurther(env: Env, code: Code, pend: set<nat>, lo: nat, hi: nat, stop: nat, r: Regs)
    requires lo <= hi <= stop <= |code| && Run(env, code, pend, hi, lo, r) != Lost && StartOK(code, lo)
    requires forall j :: j in pend ==> j < |code| && code[j].Jmp?
    ensures var out := Run(env, code, pend, hi, lo, r);
            Run(env, code, pend, stop, lo, r) == if out.End? then Run(env, code, pend, stop, hi, out.r) else out
  {
    RunOn(env, code, pend, code, pend, {}, 0, 0, 0, lo, hi, stop, lo, r);
  }

  ghost predicate Yields(code: Code, fin: Fin, fin1: Fin, i: Instr)
    requires HasResult(i)
  {
    forall env, r0, r: Regs, v :: ValueOf(env, code, fin, r0, r, v) ==>
      ValueOf(env, code, fin1, r0, r[i.a := Result(env, i, r)], v)
  }

  lemma RunResult(env: Env, code: Code, pend: set<nat>, stop: nat, r: Regs)
    requires stop < |code| && HasResult(code[stop])
    ensures Run(env, code, pend, stop + 1, stop, r) == End(r[code[stop].a := Result(env, code[stop], r)])
  {
    assert Run(env, code, pend, stop + 1, stop + 1, r[code[stop].a := Result(env, code[stop], r)]).End?;
  }

  lemma ResultMeans(env: Env, ex: Expr, code: Code, ts: set<nat>, fs: set<nat>, lo: nat, stop: nat,
                    n: nat, x: nat, fin: Fin, fin1: Fin, r0: Regs)
    requires lo <= stop < |code| && StartOK(code, lo)
    requires Means(env, ex, code, {}, ts, fs, lo, stop, n, x, fin, r0)
    requires forall j :: j in ts + fs ==> j < |code| && code[j].Jmp?
    requires HasResult(code[stop]) && Yields(code, fin, fin1, code[stop])
    requires n <= x || x == code[stop].a
    ensures Means(env, ex, code, {}, ts, fs, lo, stop + 1, n, code[stop].a, fin1, r0)
  {
    hide Run, Eval, Result, ValueOf, ExitOK;
    assert {} + ts + fs == ts + fs;
    var out := Run(env, code, ts + fs, stop, lo, r0);
    RunFurther(env, code, ts + fs, lo, stop, stop + 1, r0);
    if out.End? {
      RunResult(env, code, ts + fs, stop, out.r);
    }
  }

  /** Executing the instruction at `stop' too. */
  lemma ResultDenotes(ex: Expr, code: Code, ts: set<nat>, fs: set<nat>, lo: nat, stop: nat,
                      n: nat, x: nat, fin: Fin, fin1: Fin)
    requires Denotes(ex, code, {}, ts, fs, lo, stop, n, x, fin) && StartOK(code, lo) && lo <= stop < |code|
    requires forall j :: j in ts + fs ==> j < |code| && code[j].Jmp?
    requires HasResult(code[stop]) && Yields(code, fin, fin1, code[stop])
    requires n <= x || x == code[stop].a
    ensures Denotes(ex, code, {}, ts, fs, lo, stop + 1, n, code[stop].a, fin1)
  {
    hide Means, Yields;
    var stop1, x1 := stop + 1, code[stop].a;
    forall env, r0 ensures Means(env, ex, code, {}, ts, fs, lo, stop1, n, x1, fin1, r0) {
      assert Means(env, ex, code, {}, ts, fs, lo, stop, n, x, fin, r0);
      ResultMeans(env, ex, code, ts, fs, lo, stop, n, x, fin, fin1, r0);
    }
  }

  // What is known on both ways out of the test before the jump at j.
  ghost predicate Decides(code: Code, j: nat, c: bool, fin: Fin, fin1: Fin)
    requires 1 <= j <= |code| && TMode(code[j - 1])
  {
    forall env, r0, r, v :: ValueOf(env, code, fin, r0, r, v) ==>
      if Taken(env, code[j - 1], r) then ExitOK(code, j, r, v, c) else ValueOf(env, code, fin1, r0, r, v)
  }

  lemma RunTest(env: Env, code: Code, pend: set<nat>, stop: nat, r: Regs)
    requires stop + 1 < |code| && TMode(code[stop]) && code[stop + 1].Jmp? && stop + 1 in pend
    ensures Run(env, code, pend, stop + 2, stop, r) == if Taken(env, code[stop], r) then At(stop + 1, r) else End(r)
  {
    assert Run(env, code, pend, stop + 2, stop + 2, r) == End(r);
  }

  lemma TestMeans(env: Env, ex: Expr, code: Code, ts: set<nat>, fs: set<nat>, lo: nat, stop: nat,
                  n: nat, x: nat, fin: Fin, c: bool, fin1: Fin, r0: Regs)
    requires lo <= stop && stop + 1 < |code| && StartOK(code, lo)
    requires Means(env, ex, code, {}, ts, fs, lo, stop, n, x, fin, r0)
    requires forall j :: j in ts + fs ==> j < |code| && code[j].Jmp?
    requires TMode(code[stop]) && code[stop + 1].Jmp? && Decides(code, stop + 1, c, fin, fin1)
    ensures Means(env, ex, code, {}, if c then ts + {stop + 1} else ts, if c then fs else fs + {stop + 1},
                  lo, stop + 2, n, x, fin1, r0)
  {
    hide Run, Eval, Taken, ValueOf, ExitOK;
    var es := ts + fs + {stop + 1};
    assert {} + ts + fs == ts + fs;
    assert {} + (if c then ts + {stop + 1} else ts) + (if c then fs else fs + {stop + 1}) == es;
    MorePending(env, code, ts + fs, es, lo, stop, r0);
    RunFurther(env, code, es, lo, stop, stop + 2, r0);
    var out := Run(env, code, ts + fs, stop, lo, r0);
    if out.End? {
      RunTest(env, code, es, stop, out.r);
    }
  }

  /** Executing the test at `stop', whose jump is pending and leaves when the value is c. */
  lemma TestDenotes(ex: Expr, code: Code, ts: set<nat>, fs: set<nat>, lo: nat, stop: nat,
                    n: nat, x: nat, fin: Fin, c: bool, fin1: Fin)
    requires Denotes(ex, code, {}, ts, fs, lo, stop, n, x, fin) && StartOK(code, lo) && lo <= stop && stop + 1 < |code|
    requires forall j :: j in ts + fs ==> j < |code| && code[j].Jmp?
    requires TMode(code[stop]) && code[stop + 1].Jmp? && Decides(code, stop + 1, c, fin, fin1)
    ensures Denotes(ex, code, {}, if c then ts + {stop + 1} else ts, if c then fs else fs + {stop + 1},
                    lo, stop + 2, n, x, fin1)
  {
    hide Means, Decides;
    var stop1 := stop + 2;
    var ts1, fs1 := if c then ts + {stop + 1} else ts, if c then fs else fs + {stop + 1};
    forall env, r0 ensures Means(env, ex, code, {}, ts1, fs1, lo, stop1, n, x, fin1, r0) {
      assert Means(env, ex, code, {}, ts, fs, lo, stop, n, x, fin, r0);
      TestMeans(env, ex, code, ts, fs, lo, stop, n, x, fin, c, fin1, r0);
    }
  }

  // Jumps outside the part that is run do not matter.
  lemma MorePending(env: Env, code: Code, pend: set<nat>, pend1: set<nat>, lo: nat, hi: nat, r: Regs)
    requires lo <= hi <= |code| && StartOK(code, lo) && Run(env, code, pend, hi, lo, r) != Lost
    requires forall j :: lo <= j < hi ==> (j in pend <==> j in pend1)
    requires forall j :: j in pend ==> j < |code| && code[j].Jmp?
    ensures Run(env, code, pend1, hi, lo, r) == Run(env, code, pend, hi, lo, r)
  {
    RunOn(env, code, pend, code, pend1, {}, 0, 0, 0, lo, hi, hi, lo, r);
  }

  // ---------- links, tests, ends ----------

  // At most the links of pending jumps differ.
  ghost predicate Relinked(code: Code, code1: Code, es: set<nat>) {
    && |code1| == |code|
    && forall i :: 0 <= i < |code| ==> if i in es then code[i].Jmp? && code1[i].Jmp? else code1[i] == code[i]
  }

  lemma RelinkTests(code: Code, code1: Code, es: set<nat>)
    requires Relinked(code, code1, es) && forall j :: j in es ==> j < |code|
    ensures forall j :: j in es ==> SameTest(code, code1, j)
  {
    forall j | j in es ensures SameTest(code, code1, j) {
      if j >= 1 {
        assert code1[j - 1] == code[j - 1] || (code1[j - 1].Jmp? && code[j - 1].Jmp?);
      }
    }
  }

  lemma RunsEnd(env: Env, code: Code, pend: set<nat>, stop: nat)
    requires stop <= |code|
    ensures forall r :: Run(env, code, pend, stop, stop, r) == End(r)
  {
  }

  lemma RelinkValue(env: Env, code: Code, code1: Code, es: set<nat>, fin: Fin, r0: Regs, r: Regs, v: Value)
    requires Relinked(code, code1, es) && (Settled(fin) || fin.AsExp?)
    requires ValueOf(env, code, fin, r0, r, v)
    ensures ValueOf(env, code1, fin, r0, r, v)
  {
    if Settled(fin) {
      SettledValue(env, code, code1, fin, r0, r, v);
    }
  }

  lemma RelinkMeans(env: Env, ex: Expr, code: Code, code1: Code, js: set<nat>, ts: set<nat>, fs: set<nat>,
                    lo: nat, stop: nat, n: nat, x: nat, fin: Fin, r0: Regs)
    requires StartOK(code, lo) && lo <= stop <= |code| && (Settled(fin) || fin.AsExp?)
    requires Relinked(code, code1, js + ts + fs) && Apart(code, js, ts, fs)
    requires Means(env, ex, code, js, ts, fs, lo, stop, n, x, fin, r0)
    ensures Means(env, ex, code1, js, ts, fs, lo, stop, n, x, fin, r0)
  {
    var es := js + ts + fs;
    hide Run, Eval, ValueOf;
    RelinkTests(code, code1, es);
    RunsEnd(env, code1, es, stop);
    RunOn(env, code, es, code1, es, {}, 0, 0, 0, lo, stop, stop, lo, r0);
    var out := Final(Run(env, code, es, stop, lo, r0), js);
    if out.End? {
      RelinkValue(env, code, code1, es, fin, r0, out.r, Eval(env, ex, r0));
    }
  }

  /** Linking pending jumps into other lists changes nothing that the code does. */
  lemma RelinkDenotes(ex: Expr, code: Code, code1: Code, js: set<nat>, ts: set<nat>, fs: set<nat>,
                      lo: nat, stop: nat, n: nat, x: nat, fin: Fin)
    requires StartOK(code, lo) && lo <= stop <= |code| && (Settled(fin) || fin.AsExp?)
    requires Relinked(code, code1, js + ts + fs) && Apart(code, js, ts, fs)
    requires Denotes(ex, code, js, ts, fs, lo, stop, n, x, fin)
    ensures Denotes(ex, code1, js, ts, fs, lo, stop, n, x, fin)
  {
    hide Means;
    forall env, r0 ensures Means(env, ex, code1, js, ts, fs, lo, stop, n, x, fin, r0) {
      assert Means(env, ex, code, js, ts, fs, lo, stop, n, x, fin, r0);
      RelinkMeans(env, ex, code, code1, js, ts, fs, lo, stop, n, x, fin, r0);
    }
  }

  /** patchtohere: the jumps of one list now go to the end, where only the truth is known. */
  lemma LandDenotes(ex: Expr, code: Code, js: set<nat>, ts: set<nat>, fs: set<nat>,
                    lo: nat, n: nat, x: nat, c: bool)
    requires Denotes(ex, code, js, ts, fs, lo, |code|, n, x, Truth(c)) && Apart(code, js, ts, fs)
    ensures Denotes(ex, code, js + if c then ts else fs, if c then {} else ts, if c then fs else {},
                    lo, |code|, n, x, Truth(c))
  {
    var stop := |code|;
    var js1, ts1, fs1 := js + if c then ts else fs, if c then {} else ts, if c then fs else {};
    assert js1 + ts1 + fs1 == js + ts + fs;
    forall env, r0 ensures Means(env, ex, code, js1, ts1, fs1, lo, stop, n, x, Truth(c), r0) {
      assert Means(env, ex, code, js, ts, fs, lo, stop, n, x, Truth(c), r0);
    }
  }

  // What a weaker reading of the end allows to conclude.
  lemma WeakenDenotes(ex: Expr, code: Code, js: set<nat>, ts: set<nat>, fs: set<nat>,
                      lo: nat, stop: nat, n: nat, x: nat, fin: Fin, n1: nat, x1: nat, fin1: Fin)
    requires Denotes(ex, code, js, ts, fs, lo, stop, n, x, fin)
    requires forall env, r0, r, v :: ValueOf(env, code, fin, r0, r, v) ==> ValueOf(env, code, fin1, r0, r, v)
    requires n1 <= n && (x == x1 || n1 <= x)
    ensures Denotes(ex, code, js, ts, fs, lo, stop, n1, x1, fin1)
  {
    forall env, r0 ensures Means(env, ex, code, js, ts, fs, lo, stop, n1, x1, fin1, r0) {
      assert Means(env, ex, code, js, ts, fs, lo, stop, n, x, fin, r0);
    }
  }

  // ---------- not ----------

  // Every test of a jump in es has stopped copying a value; up to `hi' nothing else changed.
  ghost predicate Removed(code: Code, code1: Code, es: set<nat>, hi: nat) {
    && hi <= |code| == |code1|
    && (forall i :: 0 <= i < hi ==>
          code1[i] == code[i] || (i + 1 in es && code[i].TestSet? && code1[i] == Test(code[i].b, code[i].c)))
    && forall j :: j in es ==> j < hi && code[j].Jmp? && !IsTestSet(code1, j)
  }

  ghost predicate Negates(code: Code, code1: Code, fin: Fin, fin1: Fin) {
    forall env, r0, r, v :: ValueOf(env, code, fin, r0, r, v) ==> ValueOf(env, code1, fin1, r0, r, Bool(Falsy(v)))
  }

  lemma NotMeans(env: Env, ex: Expr, code: Code, code1: Code, ts: set<nat>, fs: set<nat>,
                 lo: nat, stop: nat, n: nat, x: nat, fin: Fin, fin1: Fin, r0: Regs)
    requires StartOK(code, lo) && StartOK(code1, lo) && lo <= stop && Removed(code, code1, ts + fs, stop)
    requires Means(env, ex, code, {}, ts, fs, lo, stop, n, x, fin, r0) && Negates(code, code1, fin, fin1)
    ensures Means(env, Not(ex), code1, {}, fs, ts, lo, stop, n, x, fin1, r0)
  {
    hide Run, ValueOf;
    assert {} + ts + fs == ts + fs == {} + fs + ts;
    assert Eval(env, Not(ex), r0) == Bool(Falsy(Eval(env, ex, r0)));
    hide Eval;
    RunsEnd(env, code1, ts + fs, stop);
    assert forall i :: lo <= i < stop ==> Follows(code, code1, ts + fs, {}, 0, 0, 0, i);
    RunOn(env, code, ts + fs, code1, ts + fs, {}, 0, 0, 0, lo, stop, stop, lo, r0);
  }

  /** `not' interchanges the two lists, once their jumps carry no values. */
  lemma NotDenotes(ex: Expr, code: Code, code1: Code, ts: set<nat>, fs: set<nat>,
                   lo: nat, stop: nat, n: nat, x: nat, fin: Fin, fin1: Fin)
    requires StartOK(code, lo) && StartOK(code1, lo) && lo <= stop && Removed(code, code1, ts + fs, stop)
    requires Denotes(ex, code, {}, ts, fs, lo, stop, n, x, fin) && Negates(code, code1, fin, fin1)
    ensures Denotes(Not(ex), code1, {}, fs, ts, lo, stop, n, x, fin1)
  {
    hide Means, Negates;
    forall env, r0 ensures Means(env, Not(ex), code1, {}, fs, ts, lo, stop, n, x, fin1, r0) {
      assert Means(env, ex, code, {}, ts, fs, lo, stop, n, x, fin, r0);
      NotMeans(env, ex, code, code1, ts, fs, lo, stop, n, x, fin, fin1, r0);
    }
  }

  // Two codes that agree up to `stop'.
  lemma SameCodeDenotes(ex: Expr, code: Code, code1: Code, ts: set<nat>, fs: set<nat>,
                        lo: nat, stop: nat, n: nat, x: nat, fin: Fin, fin1: Fin)
    requires StartOK(code, lo) && lo <= stop <= |code1| && stop <= |code| && code1[..stop] == code[..stop]
    requires forall j :: j in ts + fs ==> j < stop && code[j].Jmp?
    requires Denotes(ex, code, {}, ts, fs, lo, stop, n, x, fin) && stop <= |code|
    requires forall env, r0, r, v :: ValueOf(env, code, fin, r0, r, v) ==> ValueOf(env, code1, fin1, r0, r, v)
    ensures Denotes(ex, code1, {}, ts, fs, lo, stop, n, x, fin1)
  {
    assert forall i :: 0 <= i < stop ==> code1[..stop][i] == code1[i] && code[..stop][i] == code[i];
    forall env, r0 ensures Means(env, ex, code1, {}, ts, fs, lo, stop, n, x, fin1, r0) {
      assert Means(env, ex, code, {}, ts, fs, lo, stop, n, x, fin, r0);
      SameCodeMeans(env, ex, code, code1, ts, fs, lo, stop, n, x, fin, fin1, r0);
    }
  }

  lemma SameCodeMeans(env: Env, ex: Expr, code: Code, code1: Code, ts: set<nat>, fs: set<nat>,
                      lo: nat, stop: nat, n: nat, x: nat, fin: Fin, fin1: Fin, r0: Regs)
    requires StartOK(code, lo) && lo <= stop <= |code1| && stop <= |code|
    requires forall i :: 0 <= i < stop ==> code1[i] == code[i]
    requires forall j :: j in ts + fs ==> j < stop && code[j].Jmp?
    requires Means(env, ex, code, {}, ts, fs, lo, stop, n, x, fin, r0)
    requires forall r: Regs, v :: ValueOf(env, code, fin, r0, r, v) ==> ValueOf(env, code1, fin1, r0, r, v)
    ensures Means(env, ex, code1, {}, ts, fs, lo, stop, n, x, fin1, r0)
  {
    hide Run, Eval, ValueOf;
    assert {} + ts + fs == ts + fs;
    assert forall j :: j in ts + fs ==> SameTest(code, code1, j) by {
      assert forall j :: j in ts + fs && 1 <= j ==> code1[j - 1] == code[j - 1];
    }
    RunsEnd(env, code1, ts + fs, stop);
    RunOn(env, code, ts + fs, code1, ts + fs, {}, 0, 0, 0, lo, stop, stop, lo, r0);
  }

  // ---------- one expression after another ----------

  // Code that grew: nothing happened yet, or the jumps to here have landed.
  ghost predicate Grown(code: Code, js: set<nat>, code1: Code, js1: set<nat>) {
    || (code1 == code && js1 == js)
    || (|code| < |code1| && code1[..|code|] == Landed(code, js) && forall j :: j in js1 ==> j >= |code|)
  }

  /** The run of a sequence is the run of its parts. */
  lemma SeqRun(env: Env, code: Code, js: set<nat>, es: set<nat>, code1: Code, js1: set<nat>, es1: set<nat>,
               lo: nat, stop: nat, r0: Regs)
    requires WFCode(code) && StartOK(code, lo) && js !! es && Grown(code, js, code1, js1)
    requires forall j :: j in js + es ==> j < |code| && code[j].Jmp?
    requires forall j :: j in js1 + es1 ==> j < |code1| && code1[j].Jmp?
    requires forall j :: j in es1 ==> j >= |code|
    requires |code| <= stop <= |code1|
    requires Run(env, code, js + es, |code|, lo, r0) != Lost
    requires var out := Final(Run(env, code, js + es, |code|, lo, r0), js);
             out.End? ==> Run(env, code1, js1 + es1, stop, |code|, out.r) != Lost
    ensures var out := Final(Run(env, code, js + es, |code|, lo, r0), js);
            Final(Run(env, code1, js1 + es + es1, stop, lo, r0), js1) ==
              if out.End? then Final(Run(env, code1, js1 + es1, stop, |code|, out.r), js1) else out
  {
    var mid := |code|;
    var out := Final(Run(env, code, js + es, mid, lo, r0), js);
    if code1 == code && js1 == js {
      assert es1 == {} by {
        forall j ensures j !in es1 {
          assert j in es1 ==> j in js1 + es1;
        }
      }
      assert js1 + es + es1 == js + es;
    } else {
      var pend := js1 + es + es1;
      LandedFollows(code, code1, js, es, lo);
      FollowsMore(code, js + es, code1, es, pend, js, lo);
      hide Run, FollowsAll, Landed;
      RunOn(env, code, js + es, code1, pend, js, mid, NO_REG, mid, lo, mid, stop, lo, r0);
      if out.End? {
        LandedStart(code, js, code1);
        MorePending(env, code1, js1 + es1, pend, mid, stop, out.r);
      }
    }
  }

  lemma LandedStart(code: Code, js: set<nat>, code1: Code)
    requires WFCode(code) && |code| <= |code1| && code1[..|code|] == Landed(code, js)
    ensures StartOK(code1, |code|)
  {
    if |code| > 0 {
      assert code1[|code| - 1] == Landed(code, js)[|code| - 1];
    }
  }

  lemma FollowsMore(code: Code, pend: set<nat>, code1: Code, es: set<nat>, pend1: set<nat>, js: set<nat>, lo: nat)
    requires FollowsAll(code, pend, code1, es, js, |code|, NO_REG, |code|, lo, |code|)
    requires forall j :: j < |code| ==> (j in es <==> j in pend1)
    requires StartOK(code, |code|) && |code| !in es && |code| !in js
    ensures FollowsAll(code, pend, code1, pend1, js, |code|, NO_REG, |code|, lo, |code|)
  {
    forall i | lo <= i < |code| ensures Follows(code, code1, pend1, js, |code|, NO_REG, |code|, i) {
      assert Follows(code, code1, es, js, |code|, NO_REG, |code|, i);
    }
  }

  lemma SameTrans(r0: Regs, r1: Regs, r2: Regs, n: nat, n1: nat, x: nat)
    requires Same(r0, r1, n, x) && Same(r1, r2, n1, x) && n <= n1
    ensures Same(r0, r2, n, x)
  {
  }

  lemma GrownTests(code: Code, js: set<nat>, code1: Code, js1: set<nat>, es: set<nat>)
    requires Grown(code, js, code1, js1) && Apart(code, js, es, {})
    ensures forall j :: j in es ==> SameTest(code, code1, j)
  {
    if code1 != code || js1 != js {
      LandedTests(code, code1, js, es, {});
    }
  }

  // `and' goes on when its first operand is true, `or' when it is false.
  function Junction(c: bool, e1: Expr, e2: Expr): Expr { if c then And(e1, e2) else Or(e1, e2) }

  lemma JunctionMeans(env: Env, c: bool, e1: Expr, e2: Expr, code: Code, js: set<nat>, es: set<nat>,
                      code1: Code, js1: set<nat>, ts1: set<nat>, fs1: set<nat>, lo: nat, stop: nat,
                      m: nat, n: nat, fin: Fin, r0: Regs)
    requires WFCode(code) && StartOK(code, lo) && Apart(code, js, es, {}) && Apart(code1, js1, ts1, fs1)
    requires Grown(code, js, code1, js1) && (forall j :: j in ts1 + fs1 ==> j >= |code|)
    requires |code| <= stop <= |code1| && Supported(e2, m) && m <= n <= NO_REG && fin.AsExp?
    requires Means(env, e1, code, js, if c then {} else es, if c then es else {}, lo, |code|, n, NO_REG, Truth(c), r0)
    requires forall r :: Means(env, e2, code1, js1, ts1, fs1, |code|, stop, n, NO_REG, fin, r)
    ensures Means(env, Junction(c, e1, e2), code1, js1, if c then ts1 else ts1 + es, if c then fs1 + es else fs1,
                  lo, stop, n, NO_REG, fin, r0)
  {
    var v1 := Eval(env, e1, r0);
    assert Eval(env, Junction(c, e1, e2), r0) == if Falsy(v1) == c then v1 else Eval(env, e2, r0);
    var out := Final(Run(env, code, js + es, |code|, lo, r0), js);
    assert js + (if c then {} else es) + (if c then es else {}) == js + es;
    assert js1 + (if c then ts1 else ts1 + es) + (if c then fs1 + es else fs1) == js1 + es + (ts1 + fs1);
    assert js1 + ts1 + fs1 == js1 + (ts1 + fs1);
    assert js + es + {} == js + es;
    hide Run, Eval, Grown;
    if out.End? {
      assert Means(env, e2, code1, js1, ts1, fs1, |code|, stop, n, NO_REG, fin, out.r);
      EvalSame(env, e2, m, n, r0, out.r);
    }
    SeqRun(env, code, js, es, code1, js1, ts1 + fs1, lo, stop, r0);
    GrownTests(code, js, code1, js1, es);
    hide ValueOf;
    var out2 := Final(Run(env, code1, js1 + es + (ts1 + fs1), stop, lo, r0), js1);
    if out.End? && !out2.Lost? {
      SameTrans(r0, out.r, out2.r, n, n, NO_REG);
      FinIgnoresStart(env, code1, fin, r0, out.r);
    }
  }

  lemma FinIgnoresStart(env: Env, code: Code, fin: Fin, r0: Regs, r1: Regs)
    requires fin.AsExp?
    ensures forall r, v :: ValueOf(env, code, fin, r0, r, v) <==> ValueOf(env, code, fin, r1, r, v)
  {
  }

  /** An operand that decides goes to the end of the whole; otherwise the second one is the value. */
  lemma JunctionDenotes(c: bool, e1: Expr, e2: Expr, code: Code, js: set<nat>, es: set<nat>,
                        code1: Code, js1: set<nat>, ts1: set<nat>, fs1: set<nat>, lo: nat, stop: nat,
                        m: nat, n: nat, fin: Fin)
    requires WFCode(code) && StartOK(code, lo) && Apart(code, js, es, {}) && Apart(code1, js1, ts1, fs1)
    requires Grown(code, js, code1, js1) && (forall j :: j in ts1 + fs1 ==> j >= |code|)
    requires |code| <= stop <= |code1| && Supported(e2, m) && m <= n <= NO_REG && fin.AsExp?
    requires Denotes(e1, code, js, if c then {} else es, if c then es else {}, lo, |code|, n, NO_REG, Truth(c))
    requires Denotes(e2, code1, js1, ts1, fs1, |code|, stop, n, NO_REG, fin)
    ensures Denotes(Junction(c, e1, e2), code1, js1, if c then ts1 else ts1 + es, if c then fs1 + es else fs1,
                    lo, stop, n, NO_REG, fin)
  {
    hide Means;
    var ex := Junction(c, e1, e2);
    var mid := |code|;
    var ts, fs := if c then {} else es, if c then es else {};
    var ts2, fs2 := if c then ts1 else ts1 + es, if c then fs1 + es else fs1;
    forall env, r0 ensures Means(env, ex, code1, js1, ts2, fs2, lo, stop, n, NO_REG, fin, r0) {
      assert Means(env, e1, code, js, ts, fs, lo, mid, n, NO_REG, Truth(c), r0);
      assert forall r :: Means(env, e2, code1, js1, ts1, fs1, mid, stop, n, NO_REG, fin, r);
      JunctionMeans(env, c, e1, e2, code, js, es, code1, js1, ts1, fs1, lo, stop, m, n, fin, r0);
    }
  }

  // ---------- two operands ----------

  // An operand that later code with scratch registers from n on leaves alone.
  predicate Stays(fin: Fin, n: nat) {
    fin.AsExp? && (fin.k == VK || ((fin.k == VNONRELOC || fin.k == VLOCAL) && fin.info < n))
  }

  lemma PairMeans(env: Env, e1: Expr, e2: Expr, code: Code, js: set<nat>, code1: Code, js1: set<nat>,
                  lo: nat, stop: nat, m: nat, n: nat, n1: nat, fin1: Fin, fin2: Fin, r0: Regs)
    requires WFCode(code) && StartOK(code, lo) && Apart(code, js, {}, {}) && Apart(code1, js1, {}, {})
    requires Grown(code, js, code1, js1) && |code| <= stop <= |code1|
    requires Supported(e2, m) && m <= n <= n1 <= NO_REG && Stays(fin1, n1) && fin2.AsExp?
    requires Means(env, e1, code, js, {}, {}, lo, |code|, n, NO_REG, fin1, r0)
    requires forall r :: Means(env, e2, code1, js1, {}, {}, |code|, stop, n1, NO_REG, fin2, r)
    ensures Means(env, e2, code1, js1, {}, {}, lo, stop, n, NO_REG, With(e1, fin1, fin2), r0)
  {
    var out := Final(Run(env, code, js + {}, |code|, lo, r0), js);
    assert js + {} + {} == js + {} == js;
    assert js1 + {} + {} == js1 + {} == js1;
    hide Run, Eval, Grown;
    assert Means(env, e2, code1, js1, {}, {}, |code|, stop, n1, NO_REG, fin2, out.r);
    EvalSame(env, e2, m, n, r0, out.r);
    SeqRun(env, code, js, {}, code1, js1, {}, lo, stop, r0);
    var out2 := Final(Run(env, code1, js1, stop, lo, r0), js1);
    SameTrans(r0, out.r, out2.r, n, n1, NO_REG);
    var v1, v2 := Eval(env, e1, r0), Eval(env, e2, r0);
    assert ValueOf(env, code1, fin1, r0, out2.r, v1);
    assert ValueOf(env, code1, fin2, r0, out2.r, v2) by {
      FinIgnoresStart(env, code1, fin2, r0, out.r);
    }
  }

  /** Of two operands evaluated in turn, the first still has its value at the end. */
  lemma PairDenotes(e1: Expr, e2: Expr, code: Code, js: set<nat>, code1: Code, js1: set<nat>,
                    lo: nat, stop: nat, m: nat, n: nat, n1: nat, fin1: Fin, fin2: Fin)
    requires WFCode(code) && StartOK(code, lo) && Apart(code, js, {}, {}) && Apart(code1, js1, {}, {})
    requires Grown(code, js, code1, js1) && |code| <= stop <= |code1|
    requires Supported(e2, m) && m <= n <= n1 <= NO_REG && Stays(fin1, n1) && fin2.AsExp?
    requires Denotes(e1, code, js, {}, {}, lo, |code|, n, NO_REG, fin1)
    requires Denotes(e2, code1, js1, {}, {}, |code|, stop, n1, NO_REG, fin2)
    ensures Denotes(e2, code1, js1, {}, {}, lo, stop, n, NO_REG, With(e1, fin1, fin2))
  {
    hide Means;
    var fin, mid := With(e1, fin1, fin2), |code|;
    forall env, r0 ensures Means(env, e2, code1, js1, {}, {}, lo, stop, n, NO_REG, fin, r0) {
      assert Means(env, e1, code, js, {}, {}, lo, mid, n, NO_REG, fin1, r0);
      assert forall r :: Means(env, e2, code1, js1, {}, {}, mid, stop, n1, NO_REG, fin2, r);
      PairMeans(env, e1, e2, code, js, code1, js1, lo, stop, m, n, n1, fin1, fin2, r0);
    }
  }

  // ---------- the end of an expression ----------

  function InReg(reg: nat): Fin { AsExp(VNONRELOC, reg) }

  // The last two instructions load false and true, for the jumps that carry no value.
  predicate HasLabels(code: Code, reg: nat) {
    && 2 <= |code| && reg < NREGS
    && code[|code| - 2] == LoadBool(reg, false, true) && code[|code| - 1] == LoadBool(reg, true, false)
  }

  lemma RunLabels(env: Env, code: Code, pend: set<nat>, reg: nat, r: Regs)
    requires HasLabels(code, reg)
    ensures Run(env, code, pend, |code|, |code| - 2, r) == End(r[reg := Bool(false)])
    ensures Run(env, code, pend, |code|, |code| - 1, r) == End(r[reg := Bool(true)])
  {
    assert Run(env, code, pend, |code|, |code|, r[reg := Bool(false)]).End?;
    assert Run(env, code, pend, |code|, |code|, r[reg := Bool(true)]).End?;
  }

  lemma RunJump(env: Env, code: Code, pend: set<nat>, j: nat, r: Regs)
    requires j < |code| && code[j].Jmp? && j in pend && StartOK(code, j)
    ensures Run(env, code, pend, |code|, j, r) == At(j, r)
  {
  }

  lemma AgreeFollows(code: Code, code1: Code, es: set<nat>, es1: set<nat>, lo: nat)
    requires StartOK(code, lo) && |code| <= |code1| && code1[..|code|] == code
    requires forall j :: j < |code| ==> (j in es <==> j in es1)
    requires forall j :: j in es ==> j < |code| && code[j].Jmp?
    requires WFCode(code)
    ensures FollowsAll(code, es, code1, es1, {}, 0, 0, 0, lo, |code|)
    ensures forall j :: j in es ==> SameTest(code, code1, j)
  {
    assert forall i :: 0 <= i < |code| ==> code1[i] == code1[..|code|][i];
    forall j | j in es ensures SameTest(code, code1, j) {
      assert j >= 1 ==> code1[j - 1] == code[j - 1];
    }
    if |code| > 0 {
      assert code1[|code| - 1] == code[|code| - 1];
    }
  }

  lemma SkipMeans(env: Env, ex: Expr, code: Code, code1: Code, js: set<nat>, ts: set<nat>, fs: set<nat>,
                  lo: nat, n: nat, x: nat, reg: Reg, r0: Regs)
    requires WFCode(code) && StartOK(code, lo) && Apart(code, js, ts, fs) && (n <= x || x == reg)
    requires |code1| == |code| + 3 && code1[|code|].Jmp? && code1[..|code|] == code && HasLabels(code1, reg)
    requires Means(env, ex, code, js, ts, fs, lo, |code|, n, x, InReg(reg), r0)
    ensures Means(env, ex, code1, js + {|code|}, ts, fs, lo, |code1|, n, reg, InReg(reg), r0)
  {
    hide HasLabels, WFCode, Run, Eval, ValueOf, SameTest, Apart;
    SkipRuns(env, code, code1, js, ts, fs, lo, r0);
    var out := Run(env, code, js + ts + fs, |code|, lo, r0);
    if !out.Lost? {
      SettledValue(env, code, code1, InReg(reg), r0, out.r, Eval(env, ex, r0));
    }
  }

  lemma OneMorePending(code: Code, js: set<nat>, ts: set<nat>, fs: set<nat>)
    requires Apart(code, js, ts, fs)
    ensures forall j :: j in js + ts + fs ==> j < |code| && code[j].Jmp?
    ensures forall j :: j < |code| ==> (j in js + ts + fs <==> j in js + {|code|} + ts + fs)
    ensures forall j :: j in ts || j in fs ==> j in js + ts + fs
    ensures |code| in js + {|code|} + ts + fs
  {
  }

  // With a jump behind it that waits for its target, the code ends at that jump.
  lemma SkipRuns(env: Env, code: Code, code1: Code, js: set<nat>, ts: set<nat>, fs: set<nat>, lo: nat, r0: Regs)
    requires WFCode(code) && StartOK(code, lo) && Apart(code, js, ts, fs)
    requires |code1| == |code| + 3 && code1[|code|].Jmp? && code1[..|code|] == code
    requires Run(env, code, js + ts + fs, |code|, lo, r0) != Lost
    ensures var out := Run(env, code, js + ts + fs, |code|, lo, r0);
            Run(env, code1, js + {|code|} + ts + fs, |code1|, lo, r0) == if out.End? then At(|code|, out.r) else out
    ensures forall j :: j in ts || j in fs ==> j < |code| && SameTest(code, code1, j)
  {
    var es, es1 := js + ts + fs, js + {|code|} + ts + fs;
    OneMorePending(code, js, ts, fs);
    hide Apart, FollowsAll, Run, Step, Moved, Dest, IsTestSet, SameTest;
    AgreeFollows(code, code1, es, es1, lo);
    assert |code| > 0 ==> code1[|code| - 1] == code1[..|code|][|code| - 1];
    assert StartOK(code1, |code|);
    hide WFCode, StartOK;
    RunOn(env, code, es, code1, es1, {}, 0, 0, 0, lo, |code|, |code1|, lo, r0);
    var out := Run(env, code, es, |code|, lo, r0);
    if out.End? {
      RunJump(env, code1, es1, |code|, out.r);
    }
  }

  /** A jump over the labels, when the value is in its register already. */
  lemma SkipDenotes(ex: Expr, code: Code, code1: Code, js: set<nat>, ts: set<nat>, fs: set<nat>,
                    lo: nat, n: nat, x: nat, reg: Reg)
    requires WFCode(code) && StartOK(code, lo) && Apart(code, js, ts, fs) && (n <= x || x == reg)
    requires |code1| == |code| + 3 && code1[|code|].Jmp? && code1[..|code|] == code && HasLabels(code1, reg)
    requires Denotes(ex, code, js, ts, fs, lo, |code|, n, x, InReg(reg))
    ensures Denotes(ex, code1, js + {|code|}, ts, fs, lo, |code1|, n, reg, InReg(reg))
  {
    hide Means, WFCode, HasLabels;
    var js1, mid, stop, fin, fin1 := js + {|code|}, |code|, |code1|, InReg(reg), InReg(reg);
    forall env, r0 ensures Means(env, ex, code1, js1, ts, fs, lo, stop, n, reg, fin1, r0) {
      assert Means(env, ex, code, js, ts, fs, lo, mid, n, x, fin, r0);
      SkipMeans(env, ex, code, code1, js, ts, fs, lo, n, x, reg, r0);
    }
  }

  lemma FallMeans(env: Env, ex: Expr, code: Code, code1: Code, ts: set<nat>, fs: set<nat>,
                  lo: nat, n: nat, x: nat, reg: Reg, r0: Regs)
    requires WFCode(code) && StartOK(code, lo) && Apart(code, {}, ts, fs) && (n <= x || x == reg)
    requires |code1| == |code| + 2 && code1[..|code|] == code && HasLabels(code1, reg)
    requires Means(env, ex, code, {}, ts, fs, lo, |code|, n, x, Is(false), r0)
    ensures Means(env, ex, code1, {}, ts, fs, lo, |code1|, n, reg, InReg(reg), r0)
  {
    var es, es1 := {} + ts + fs, {} + ts + fs;
    AgreeFollows(code, code1, es, es1, lo);
    RunsEnd(env, code, es, |code|);
    hide FollowsAll, HasLabels, WFCode, Run, Eval;
    RunOn(env, code, es, code1, es1, {}, 0, 0, 0, lo, |code|, |code1|, lo, r0);
    var out := Run(env, code, es, |code|, lo, r0);
    if out.End? {
      RunLabels(env, code1, es1, reg, out.r);
    }
  }

  /** A false comparison falls through to the first label. */
  lemma FallDenotes(ex: Expr, code: Code, code1: Code, ts: set<nat>, fs: set<nat>,
                    lo: nat, n: nat, x: nat, reg: Reg)
    requires WFCode(code) && StartOK(code, lo) && Apart(code, {}, ts, fs) && (n <= x || x == reg)
    requires |code1| == |code| + 2 && code1[..|code|] == code && HasLabels(code1, reg)
    requires Denotes(ex, code, {}, ts, fs, lo, |code|, n, x, Is(false))
    ensures Denotes(ex, code1, {}, ts, fs, lo, |code1|, n, reg, InReg(reg))
  {
    hide Means, WFCode, HasLabels;
    var js1, mid, stop, fin, fin1 := {}, |code|, |code1|, Is(false), InReg(reg);
    forall env, r0 ensures Means(env, ex, code1, js1, ts, fs, lo, stop, n, reg, fin1, r0) {
      assert Means(env, ex, code, {}, ts, fs, lo, mid, n, x, fin, r0);
      FallMeans(env, ex, code, code1, ts, fs, lo, n, x, reg, r0);
    }
  }

  // The jumps of a list that ends an expression can all be resolved.
  predicate CanPatch(code: Code, es: set<nat>, reg: nat, c: bool, dt: nat) {
    || (forall j :: j in es ==> IsTestSet(code, j))
    || (HasLabels(code, reg) && dt == (if c then |code| - 1 else |code| - 2) && forall j :: j in es ==> j < |code| - 2)
  }

  lemma PatchMeans(env: Env, ex: Expr, code: Code, js: set<nat>, ts: set<nat>, fs: set<nat>,
                   lo: nat, n: nat, reg: Reg, c: bool, dt: nat, r0: Regs)
    requires WFCode(code) && StartOK(code, lo) && Apart(code, js, ts, fs) && reg != NO_REG
    requires CanPatch(code, if c then ts else fs, reg, c, dt)
    requires Means(env, ex, code, js, ts, fs, lo, |code|, n, reg, InReg(reg), r0)
    ensures var code1 := Patched(code, if c then ts else fs, |code|, reg, dt);
            Means(env, ex, code1, js, if c then {} else ts, if c then fs else {}, lo, |code|, n, reg, InReg(reg), r0)
  {
    var s := if c then ts else fs;
    var ts1, fs1 := if c then {} else ts, if c then fs else {};
    var es, es1 := js + ts + fs, js + ts1 + fs1;
    var code1 := Patched(code, s, |code|, reg, dt);
    PatchFollows(code, es, es1, s, reg, c, dt, lo);
    RunsEnd(env, code1, es1, |code|);
    hide Eval, Run, FollowsAll, Patched, ValueOf, HasLabels;
    RunOn(env, code, es, code1, es1, s, |code|, reg, dt, lo, |code|, |code|, lo, r0);
    var out := Run(env, code, es, |code|, lo, r0);
    if out.At? && out.j in s {
      PatchedExit(env, ex, code, js, ts, fs, lo, n, reg, c, dt, out, r0);
    } else if out.At? && out.j !in js {
      PatchTests(code, s, |code|, reg, dt, out.j);
    } else {
      SettledValue(env, code, code1, InReg(reg), r0, out.r, Eval(env, ex, r0));
    }
  }

  lemma PatchedExit(env: Env, ex: Expr, code: Code, js: set<nat>, ts: set<nat>, fs: set<nat>,
                    lo: nat, n: nat, reg: Reg, c: bool, dt: nat, out: Outcome, r0: Regs)
    requires Apart(code, js, ts, fs) && reg != NO_REG && CanPatch(code, if c then ts else fs, reg, c, dt)
    requires out.At? && out.j in (if c then ts else fs) && out.j < |code|
    requires OutcomeOK(env, code, ts, fs, out, r0, n, reg, Eval(env, ex, r0), InReg(reg))
    ensures var s := if c then ts else fs;
            var es1 := js + (if c then {} else ts) + (if c then fs else {});
            var code1 := Patched(code, s, |code|, reg, dt);
            var out1 := Run(env, code1, es1, |code1|, Dest(code, out.j, |code|, dt), Moved(code, out.j, reg, out.r));
            out1.End? && Same(r0, out1.r, n, reg) && ValueOf(env, code1, InReg(reg), r0, out1.r, Eval(env, ex, r0))
  {
    var s := if c then ts else fs;
    var es1 := js + (if c then {} else ts) + (if c then fs else {});
    var code1 := Patched(code, s, |code|, reg, dt);
    hide Eval, Patched, ValueOf, Run;
    PatchExit(env, code, code1, out.j, out.r, r0, n, reg, c, Eval(env, ex, r0));
    RunsEnd(env, code1, es1, |code|);
    if !IsTestSet(code, out.j) {
      PatchLabels(code, s, reg, dt);
      RunLabels(env, code1, es1, reg, out.r);
    }
  }

  // What the register has after an exit.
  lemma PatchExit(env: Env, code: Code, code1: Code, j: nat, r: Regs, r0: Regs, n: nat, reg: Reg, c: bool, v: Value)
    requires ExitOK(code, j, r, v, c) && Same(r0, r, n, reg) && reg != NO_REG
    ensures IsTestSet(code, j) ==> Same(r0, Moved(code, j, reg, r), n, reg)
                                   && ValueOf(env, code1, InReg(reg), r0, Moved(code, j, reg, r), v)
    ensures !IsTestSet(code, j) ==> Same(r0, r[reg := Bool(c)], n, reg)
                                    && ValueOf(env, code1, InReg(reg), r0, r[reg := Bool(c)], v)
  {
  }

  lemma PatchTests(code: Code, s: set<nat>, vt: nat, reg: Reg, dt: nat, j: nat)
    requires j < |code| && j !in s && forall i :: i in s ==> i < |code| && code[i].Jmp?
    ensures SameTest(code, Patched(code, s, vt, reg, dt), j)
  {
  }

  lemma PatchLabels(code: Code, s: set<nat>, reg: Reg, dt: nat)
    requires HasLabels(code, reg) && forall j :: j in s ==> j < |code| && code[j].Jmp?
    ensures HasLabels(Patched(code, s, |code|, reg, dt), reg)
  {
  }

  lemma PatchFollows(code: Code, es: set<nat>, es1: set<nat>, s: set<nat>, reg: Reg, c: bool, dt: nat, lo: nat)
    requires WFCode(code) && StartOK(code, lo) && CanPatch(code, s, reg, c, dt)
    requires es1 == es - s && s <= es && forall j :: j in es ==> j < |code| && code[j].Jmp?
    ensures FollowsAll(code, es, Patched(code, s, |code|, reg, dt), es1, s, |code|, reg, dt, lo, |code|)
  {
  }

  /** The last step: a jump that carries a value copies it to reg, the others load theirs. */
  lemma PatchDenotes(ex: Expr, code: Code, js: set<nat>, ts: set<nat>, fs: set<nat>,
                     lo: nat, n: nat, reg: Reg, c: bool, dt: nat)
    requires WFCode(code) && StartOK(code, lo) && Apart(code, js, ts, fs) && reg != NO_REG
    requires CanPatch(code, if c then ts else fs, reg, c, dt)
    requires Denotes(ex, code, js, ts, fs, lo, |code|, n, reg, InReg(reg))
    ensures var code1 := Patched(code, if c then ts else fs, |code|, reg, dt);
            Denotes(ex, code1, js, if c then {} else ts, if c then fs else {}, lo, |code|, n, reg, InReg(reg))
  {
    hide Means, WFCode, CanPatch, Patched;
    var code1 := Patched(code, if c then ts else fs, |code|, reg, dt);
    var ts1, fs1, stop, fin := if c then {} else ts, if c then fs else {}, |code|, InReg(reg);
    forall env, r0 ensures Means(env, ex, code1, js, ts1, fs1, lo, stop, n, reg, fin, r0) {
      assert Means(env, ex, code, js, ts, fs, lo, stop, n, reg, fin, r0);
      PatchMeans(env, ex, code, js, ts, fs, lo, n, reg, c, dt, r0);
    }
  }
}
