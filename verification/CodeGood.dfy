/** The state of an expression between two calls of the code generator, and what each kind of
    call does to it. */
module CodeGood {
  import opened Limits
  import opened CodeSem
  import opened CodeExp
  import opened CodeFits

  // Where the code of an expression begins, the jumps then pending to here, the free register.
  datatype Base = Base(code: Code, js: set<nat>, free: nat)

  /** The code of an expression, its three kinds of pending jumps, and the code before it: the
      jumps that were pending to here have landed on the first new instruction, if any. */
  ghost predicate Placed(b: Base, code: Code, js: set<nat>, ts: set<nat>, fs: set<nat>) {
    && WFCode(b.code) && WFCode(code) && Grown(b.code, b.js, code, js) && Apart(code, js, ts, fs)
    && (forall j :: j in b.js ==> j < |b.code| && b.code[j].Jmp?)
    && StartOK(code, |b.code|) && forall j :: j in ts || j in fs ==> j >= |b.code|
  }

  ghost predicate Shape(b: Base, ex: Expr, code: Code, js: set<nat>, ts: set<nat>, fs: set<nat>,
                        k: Kind, info: nat, m: nat)
  {
    match k
    case VLOCAL => info < m
    case VUPVAL => true
    case VK => EndsInConst(ex)
    case VNONRELOC => info < m || info == b.free
    case VRELOCABLE =>
      js == {} && |b.code| <= info && |code| == info + 1 && HasResult(code[info]) && info !in ts + fs
    case VJMP =>
      js == {} && |b.code| < info && |code| == info + 1 && code[info].Jmp? && code[info - 1].Cmp?
      && info !in ts + fs && code[info] == Jmp(NO_JUMP)
  }

  function StopOf(code: Code, k: Kind): (stop: int) {
    match k
    case VRELOCABLE => |code| - 1
    case VJMP => |code| - 2
    case _ => |code|
  }

  ghost predicate Good(b: Base, ex: Expr, code: Code, js: set<nat>, ts: set<nat>, fs: set<nat>,
                       k: Kind, info: nat, m: nat)
  {
    && m <= b.free < MAXSTACK && Supported(ex, m)
    && Placed(b, code, js, ts, fs) && Shape(b, ex, code, js, ts, fs, k, info, m)
    && |b.code| <= StopOf(code, k)
    && Denotes(ex, code, js, ts, fs, |b.code|, StopOf(code, k), b.free, NO_REG, AsExp(k, info))
    && AllResolved(code, js + ts + fs + Loose(k, info), |b.code|)
  }

  // A comparison's jump is in no list yet.
  function Loose(k: Kind, info: nat): set<nat> { if k == VJMP then {info} else {} }

  // The value is in register reg at the end; of the active registers only reg changed.
  ghost predicate InRegister(b: Base, ex: Expr, code: Code, js: set<nat>, ts: set<nat>, fs: set<nat>, reg: nat) {
    && Placed(b, code, js, ts, fs) && reg < MAXSTACK
    && Denotes(ex, code, js, ts, fs, |b.code|, |code|, b.free, reg, InReg(reg))
    && AllResolved(code, js + ts + fs, |b.code|)
  }

  // Only the truth of the value is known at the end.
  ghost predicate Branched(b: Base, ex: Expr, code: Code, js: set<nat>, c: bool, es: set<nat>, m: nat) {
    && m <= b.free < MAXSTACK && Supported(ex, m)
    && Placed(b, code, js, if c then {} else es, if c then es else {})
    && Denotes(ex, code, js, if c then {} else es, if c then es else {}, |b.code|, |code|, b.free, NO_REG, Truth(c))
    && AllResolved(code, js + es, |b.code|)
  }

  // ---------- placing ----------

  lemma EmitPlaced(b: Base, code: Code, js: set<nat>, ts: set<nat>, fs: set<nat>, i: Instr)
    requires Placed(b, code, js, ts, fs) && !TMode(i)
    ensures Placed(b, Emit(code, js, i), {}, ts, fs)
    ensures Emit(code, js, i)[..|code|] == Landed(code, js)
  {
    var code1 := Emit(code, js, i);
    if code == b.code && js == b.js {
      assert code1[..|b.code|] == Landed(b.code, b.js);
    } else {
      assert forall k :: 0 <= k < |b.code| ==> code1[k] == code[k];
      assert code1[..|b.code|] == code[..|b.code|];
    }
    assert forall k :: 0 <= k < |code| ==> TMode(code1[k]) ==> TMode(code[k]);
    assert forall k :: 0 <= k < |code| ==> (code[k].Jmp? <==> code1[k].Jmp?);
    assert forall j :: j in {} + ts + fs ==> j in js + ts + fs;
  }

  // A test and its jump, which is not in a list yet.
  lemma EmitTestPlaced(b: Base, code: Code, js: set<nat>, ts: set<nat>, fs: set<nat>, i: Instr)
    requires Placed(b, code, js, ts, fs) && TMode(i)
    ensures Placed(b, Emit(code, js, i) + [Jmp(NO_JUMP)], {}, ts, fs)
    ensures (Emit(code, js, i) + [Jmp(NO_JUMP)])[..|code|] == Landed(code, js)
  {
    var code1 := Emit(code, js, i) + [Jmp(NO_JUMP)];
    if code == b.code && js == b.js {
      assert code1[..|b.code|] == Landed(b.code, b.js);
    } else {
      assert forall k :: 0 <= k < |b.code| ==> code1[k] == code[k];
      assert code1[..|b.code|] == code[..|b.code|];
    }
    assert forall k :: 0 <= k < |code| ==> TMode(code1[k]) ==> TMode(code[k]);
    assert forall k :: 0 <= k < |code| ==> (code[k].Jmp? <==> code1[k].Jmp?);
    assert forall j :: j in {} + ts + fs ==> j in js + ts + fs;
  }

  lemma EmitResolved(b: Base, code: Code, js: set<nat>, ts: set<nat>, fs: set<nat>, i: Instr)
    requires Placed(b, code, js, ts, fs) && AllResolved(code, js + ts + fs, |b.code|) && IsClosed(i)
    ensures AllResolved(Emit(code, js, i), {} + ts + fs, |b.code|)
  {
    var code1 := Emit(code, js, i);
    assert code1[|code|] == i && code1[..|code|] == Landed(code, js);
    hide Placed, Emit, Landed;
    LandResolved(code, js, js + ts + fs, code1, {} + ts + fs, |b.code|) by {
      JumpsOf(b, code, js, ts, fs);
    }
  }

  lemma NoLoose(js: set<nat>, ts: set<nat>, fs: set<nat>)
    ensures js + ts + fs + {} == js + ts + fs
  {
  }

  lemma JumpsOf(b: Base, code: Code, js: set<nat>, ts: set<nat>, fs: set<nat>)
    requires Placed(b, code, js, ts, fs)
    ensures forall j :: j in js || j in ts || j in fs ==> j < |code| && code[j].Jmp?
    ensures |b.code| <= |code|
  {
  }

  lemma EmitTestResolved(b: Base, code: Code, js: set<nat>, ts: set<nat>, fs: set<nat>, i: Instr, pend: set<nat>)
    requires Placed(b, code, js, ts, fs) && AllResolved(code, js + ts + fs, |b.code|) && TMode(i)
    requires ts <= pend && fs <= pend && |code| + 1 in pend
    ensures AllResolved(Emit(code, js, i) + [Jmp(NO_JUMP)], pend, |b.code|)
  {
    var code1 := Emit(code, js, i) + [Jmp(NO_JUMP)];
    assert code1[|code|] == i && code1[..|code|] == Landed(code, js);
    hide Placed, Emit, Landed;
    LandResolved(code, js, js + ts + fs, code1, pend, |b.code|) by {
      JumpsOf(b, code, js, ts, fs);
    }
  }

  // Changes behind the base that keep jumps jumps and tests tests.
  lemma ChangePlaced(b: Base, code: Code, js: set<nat>, ts: set<nat>, fs: set<nat>,
                     code1: Code, js1: set<nat>, ts1: set<nat>, fs1: set<nat>)
    requires Placed(b, code, js, ts, fs) && |code1| == |code| && |b.code| < |code|
    requires forall i :: 0 <= i < |b.code| ==> code1[i] == code[i]
    requires forall i :: 0 <= i < |code| ==> (code1[i].Jmp? <==> code[i].Jmp?) && (TMode(code1[i]) <==> TMode(code[i]))
    requires js1 + ts1 + fs1 == js + ts + fs && js1 !! ts1 && js1 !! fs1 && ts1 !! fs1
    ensures Placed(b, code1, js1, ts1, fs1)
  {
    assert code1[..|b.code|] == code[..|b.code|];
    SameMembers(js, ts, fs, js1, ts1, fs1);
  }

  lemma SameMembers(js: set<nat>, ts: set<nat>, fs: set<nat>, js1: set<nat>, ts1: set<nat>, fs1: set<nat>)
    requires js1 + ts1 + fs1 == js + ts + fs
    ensures forall j :: j in js1 || j in ts1 || j in fs1 <==> j in js || j in ts || j in fs
    ensures forall j :: j in js || j in ts || j in fs <==> j in js + ts + fs
    ensures forall j :: j in js1 || j in ts1 || j in fs1 <==> j in js1 + ts1 + fs1
  {
    forall j ensures j in js1 || j in ts1 || j in fs1 <==> j in js || j in ts || j in fs {
      assert j in js1 + ts1 + fs1 <==> j in js + ts + fs;
    }
    assert forall j :: j in js || j in ts || j in fs <==> j in js + ts + fs;
    assert forall j :: j in js1 || j in ts1 || j in fs1 <==> j in js1 + ts1 + fs1;
  }

  lemma MovePlaced(b: Base, code: Code, js: set<nat>, ts: set<nat>, fs: set<nat>,
                   js1: set<nat>, ts1: set<nat>, fs1: set<nat>)
    requires Placed(b, code, js, ts, fs)
    requires js1 + ts1 + fs1 == js + ts + fs && js1 !! ts1 && js1 !! fs1 && ts1 !! fs1 && js <= js1
    ensures Placed(b, code, js1, ts1, fs1)
  {
    SameMembers(js, ts, fs, js1, ts1, fs1);
    if code == b.code && js == b.js {
      assert forall j :: j in ts + fs ==> j < |code|;
      assert js1 == js;
    }
  }

  // An emitted jump enters a list.
  lemma AddPlaced(b: Base, code: Code, js: set<nat>, ts: set<nat>, fs: set<nat>, j: nat, c: bool)
    requires Placed(b, code, js, ts, fs) && |b.code| <= j < |code| && code[j].Jmp? && j !in js + ts + fs
    ensures Placed(b, code, js, if c then ts + {j} else ts, if c then fs else fs + {j})
  {
    var ts1, fs1 := if c then ts + {j} else ts, if c then fs else fs + {j};
    assert forall k :: k in js + ts1 + fs1 ==> k in js + ts + fs || k == j;
  }

  // ---------- loading a value into a register ----------

  /** luaK_dischargevars on an upvalue. */
  lemma UpvalGood(b: Base, ex: Expr, code: Code, js: set<nat>, ts: set<nat>, fs: set<nat>, info: nat, m: nat)
    requires Good(b, ex, code, js, ts, fs, VUPVAL, info, m)
    ensures Good(b, ex, Emit(code, js, GetUpval(0, info)), {}, ts, fs, VRELOCABLE, |code|, m)
  {
    var code1 := Emit(code, js, GetUpval(0, info));
    EmitPlaced(b, code, js, ts, fs, GetUpval(0, info));
    EmitDenotes(ex, code, code1, js, ts, fs, |b.code|, b.free, NO_REG, AsExp(VUPVAL, info));
    hide Means;
    WeakenDenotes(ex, code1, {}, ts, fs, |b.code|, |code|, b.free, NO_REG, AsExp(VUPVAL, info), b.free, NO_REG,
                  AsExp(VRELOCABLE, |code|));
    NoLoose(js, ts, fs);
    NoLoose({}, ts, fs);
    EmitResolved(b, code, js, ts, fs, GetUpval(0, info));
  }

  lemma LocalGood(b: Base, ex: Expr, code: Code, js: set<nat>, ts: set<nat>, fs: set<nat>, info: nat, m: nat)
    requires Good(b, ex, code, js, ts, fs, VLOCAL, info, m)
    ensures Good(b, ex, code, js, ts, fs, VNONRELOC, info, m)
  {
    hide Means;
    WeakenDenotes(ex, code, js, ts, fs, |b.code|, |code|, b.free, NO_REG, AsExp(VLOCAL, info), b.free, NO_REG,
                  AsExp(VNONRELOC, info));
    NoLoose(js, ts, fs);
  }

  /** A constant or another register is copied to reg. */
  lemma CopyInRegister(b: Base, ex: Expr, code: Code, js: set<nat>, ts: set<nat>, fs: set<nat>,
                       k: Kind, info: nat, m: nat, i: Instr, reg: nat)
    requires Good(b, ex, code, js, ts, fs, k, info, m) && reg < MAXSTACK
    requires (k == VK && i == LoadK(reg, info)) || (k == VNONRELOC && info < NREGS && i == Move(reg, info))
    ensures InRegister(b, ex, Emit(code, js, i), {}, ts, fs, reg)
  {
    var code1 := Emit(code, js, i);
    EmitPlaced(b, code, js, ts, fs, i);
    assert code1[|code|] == i && |code1| == |code| + 1;
    hide Emit, Means;
    EmitDenotes(ex, code, code1, js, ts, fs, |b.code|, b.free, NO_REG, AsExp(k, info));
    ResultDenotes(ex, code1, ts, fs, |b.code|, |code|, b.free, NO_REG, AsExp(k, info), InReg(reg));
    NoLoose(js, ts, fs);
    EmitResolved(b, code, js, ts, fs, i);
  }

  // The register of an instruction whose result had no place yet.
  function WithA(i: Instr, reg: Reg): Instr
    requires HasResult(i)
  {
    match i
    case Move(_, b) => Move(reg, b)
    case LoadK(_, bx) => LoadK(reg, bx)
    case GetUpval(_, u) => GetUpval(reg, u)
    case NotI(_, b) => NotI(reg, b)
    case ArithI(op, _, rb, rc) => ArithI(op, reg, rb, rc)
  }

  /** The relocatable instruction gets its register. */
  lemma PlaceInRegister(b: Base, ex: Expr, code: Code, js: set<nat>, ts: set<nat>, fs: set<nat>, info: nat,
                        m: nat, reg: nat)
    requires Good(b, ex, code, js, ts, fs, VRELOCABLE, info, m) && reg < MAXSTACK
    ensures InRegister(b, ex, code[info := WithA(code[info], reg)], js, ts, fs, reg)
  {
    var code1 := code[info := WithA(code[info], reg)];
    ChangePlaced(b, code, js, ts, fs, code1, js, ts, fs);
    var fin := AsExp(VRELOCABLE, info);
    assert forall env, r0, r, v :: ValueOf(env, code, fin, r0, r, v) ==> ValueOf(env, code1, fin, r0, r, v);
    hide Means;
    SameCodeDenotes(ex, code, code1, ts, fs, |b.code|, info, b.free, NO_REG, fin, fin);
    ResultDenotes(ex, code1, ts, fs, |b.code|, info, b.free, NO_REG, fin, InReg(reg));
    NoLoose(js, ts, fs);
    ChangeResolved(code, js + ts + fs, code1, js + ts + fs, |b.code|);
  }

  lemma StayInRegister(b: Base, ex: Expr, code: Code, js: set<nat>, ts: set<nat>, fs: set<nat>, info: nat, m: nat)
    requires Good(b, ex, code, js, ts, fs, VNONRELOC, info, m) && info < MAXSTACK
    ensures InRegister(b, ex, code, js, ts, fs, info)
  {
    hide Means;
    WeakenDenotes(ex, code, js, ts, fs, |b.code|, |code|, b.free, NO_REG, AsExp(VNONRELOC, info), b.free, info,
                  InReg(info));
    NoLoose(js, ts, fs);
  }

  /** A value in the first free register is a value of an expression again. */
  lemma RegisterGood(b: Base, ex: Expr, code: Code, js: set<nat>, ts: set<nat>, fs: set<nat>, m: nat)
    requires InRegister(b, ex, code, js, ts, fs, b.free) && m <= b.free < MAXSTACK && Supported(ex, m)
    ensures Good(b, ex, code, js, ts, fs, VNONRELOC, b.free, m)
  {
    hide Means;
    WeakenDenotes(ex, code, js, ts, fs, |b.code|, |code|, b.free, b.free, InReg(b.free), b.free, NO_REG,
                  AsExp(VNONRELOC, b.free));
    NoLoose(js, ts, fs);
  }

  // ---------- deciding ----------

  // The end is reached when the value is true (c) or false; the jumps of one list, which may
  // still be in need of linking, leave otherwise.
  ghost predicate Tested(b: Base, ex: Expr, code: Code, js: set<nat>, ts: set<nat>, fs: set<nat>, c: bool) {
    && Placed(b, code, js, ts, fs)
    && Denotes(ex, code, js, ts, fs, |b.code|, |code|, b.free, NO_REG, Truth(c))
    && AllResolved(code, js + ts + fs, |b.code|)
  }

  lemma ConstTested(b: Base, ex: Expr, code: Code, js: set<nat>, ts: set<nat>, fs: set<nat>, info: nat, m: nat)
    requires Good(b, ex, code, js, ts, fs, VK, info, m)
    ensures Tested(b, ex, code, js, ts, fs, true)
  {
    hide Means;
    WeakenDenotes(ex, code, js, ts, fs, |b.code|, |code|, b.free, NO_REG, AsExp(VK, info), b.free, NO_REG, Truth(true));
    NoLoose(js, ts, fs);
  }

  // invertjump
  function Inverted(code: Code, info: nat): (c: Code)
    requires 1 <= info <= |code| && code[info - 1].Cmp?
    ensures |c| == |code|
  {
    var i := code[info - 1];
    code[info - 1 := Cmp(i.cop, !i.cond, i.rb, i.rc)]
  }

  // The jump of a comparison is taken when it holds; inverted, when it does not.
  lemma CompareTested(b: Base, ex: Expr, code: Code, js: set<nat>, ts: set<nat>, fs: set<nat>, info: nat, m: nat)
    requires Good(b, ex, code, js, ts, fs, VJMP, info, m)
    ensures Tested(b, ex, code, js, ts + {info}, fs, false)
    ensures Denotes(ex, code, {}, ts + {info}, fs, |b.code|, |code|, b.free, NO_REG, Is(false))
  {
    AddPlaced(b, code, js, ts, fs, info, true);
    SameMembers(js, ts, fs, js, ts, fs);
    hide Means;
    TestDenotes(ex, code, ts, fs, |b.code|, info - 1, b.free, NO_REG, AsExp(VJMP, info), true, Is(false));
    WeakenDenotes(ex, code, js, ts + {info}, fs, |b.code|, |code|, b.free, NO_REG, Is(false), b.free, NO_REG,
                  Truth(false));
    assert js + (ts + {info}) + fs == js + ts + fs + {info};
  }

  lemma InvertedTested(b: Base, ex: Expr, code: Code, js: set<nat>, ts: set<nat>, fs: set<nat>, info: nat, m: nat)
    requires Good(b, ex, code, js, ts, fs, VJMP, info, m)
    ensures Tested(b, ex, Inverted(code, info), js, ts, fs + {info}, true)
  {
    hide AllResolved;
    var code1 := Inverted(code, info);
    SameMembers(js, ts, fs, js, ts, fs);
    ChangePlaced(b, code, js, ts, fs, code1, js, ts, fs);
    AddPlaced(b, code1, js, ts, fs, info, false);
    hide Means;
    InvertedFails(b, ex, code, ts, fs, info);
    TestDenotes(ex, code1, ts, fs, |b.code|, info - 1, b.free, NO_REG, Fails(info), false, Truth(true));
    assert js + ts + (fs + {info}) == js + ts + fs + {info};
    InvertedResolved(code, js + ts + fs + {info}, info, |b.code|);
  }

  lemma InvertedResolved(code: Code, pend: set<nat>, info: nat, lo: nat)
    requires 1 <= info <= |code| && code[info - 1].Cmp? && AllResolved(code, pend, lo)
    ensures AllResolved(Inverted(code, info), pend, lo)
  {
    ChangeResolved(code, pend, Inverted(code, info), pend, lo);
  }

  lemma InvertedFails(b: Base, ex: Expr, code: Code, ts: set<nat>, fs: set<nat>, info: nat)
    requires StartOK(code, |b.code|) && |b.code| < info && |code| == info + 1 && code[info - 1].Cmp?
    requires forall j :: j in ts + fs ==> j < info - 1 && code[j].Jmp?
    requires Denotes(ex, code, {}, ts, fs, |b.code|, info - 1, b.free, NO_REG, AsExp(VJMP, info))
    ensures Denotes(ex, Inverted(code, info), {}, ts, fs, |b.code|, info - 1, b.free, NO_REG, Fails(info))
  {
    hide Means;
    SameCodeDenotes(ex, code, Inverted(code, info), ts, fs, |b.code|, info - 1, b.free, NO_REG,
                    AsExp(VJMP, info), Fails(info));
  }

  /** jumponcond on a register: the jump may copy the value. */
  lemma RegisterTested(b: Base, ex: Expr, code: Code, js: set<nat>, ts: set<nat>, fs: set<nat>, info: nat,
                       m: nat, c: bool)
    requires Good(b, ex, code, js, ts, fs, VNONRELOC, info, m) && info < NREGS
    ensures var j := |code| + 1;
            Tested(b, ex, Emit(code, js, TestSet(NO_REG, info, !c)) + [Jmp(NO_JUMP)], {},
                   if !c then ts + {j} else ts, if !c then fs else fs + {j}, c)
  {
    var i := TestSet(NO_REG, info, !c);
    var code1 := Emit(code, js, i) + [Jmp(NO_JUMP)];
    TestPlaced(b, code, js, ts, fs, i, c);
    NoLoose(js, ts, fs);
    EmitTestResolved(b, code, js, ts, fs, i,
                     {} + (if !c then ts + {|code| + 1} else ts) + (if !c then fs else fs + {|code| + 1}));
    hide Emit, Denotes, Placed, Apart, WFCode, AllResolved;
    GoodParts(b, ex, code, js, ts, fs, VNONRELOC, info, m);
    EmitDenotes(ex, code, code1, js, ts, fs, |b.code|, b.free, NO_REG, AsExp(VNONRELOC, info));
    TestDenotes(ex, code1, ts, fs, |b.code|, |code|, b.free, NO_REG, AsExp(VNONRELOC, info), !c, Truth(c));
  }

  lemma GoodParts(b: Base, ex: Expr, code: Code, js: set<nat>, ts: set<nat>, fs: set<nat>, k: Kind, info: nat, m: nat)
    requires Good(b, ex, code, js, ts, fs, k, info, m)
    ensures WFCode(code) && Apart(code, js, ts, fs) && StartOK(code, |b.code|)
  {
  }

  // A test and its jump, which enters a list at once.
  lemma TestPlaced(b: Base, code: Code, js: set<nat>, ts: set<nat>, fs: set<nat>, i: Instr, c: bool)
    requires Placed(b, code, js, ts, fs) && TMode(i) && |b.code| <= |code|
    ensures var code1, j := Emit(code, js, i) + [Jmp(NO_JUMP)], |code| + 1;
      && |code1| == j + 1 && code1[|code|] == i && code1[j].Jmp? && code1[..|code|] == Landed(code, js)
      && StartOK(code1, |b.code|) && (forall k :: k in ts + fs ==> k < |code1| && code1[k].Jmp?)
      && Placed(b, code1, {}, if !c then ts + {j} else ts, if !c then fs else fs + {j})
  {
    var code1 := Emit(code, js, i) + [Jmp(NO_JUMP)];
    EmitTestPlaced(b, code, js, ts, fs, i);
    SameMembers(js, ts, fs, js, ts, fs);
    AddPlaced(b, code1, {}, ts, fs, |code| + 1, !c);
    hide Grown;
    SameMembers({}, ts, fs, {}, ts, fs);
  }

  // The code with its last instruction replaced by a test.
  function Retested(code: Code, i: Instr): (c: Code)
    requires code != []
  {
    code[..|code| - 1] + [i, Jmp(NO_JUMP)]
  }

  /** jumponcond on a negation: the operand is tested instead, and no value goes with the jump. */
  lemma NotTested(b: Base, ex: Expr, code: Code, js: set<nat>, ts: set<nat>, fs: set<nat>, info: nat, m: nat, c: bool)
    requires Good(b, ex, code, js, ts, fs, VRELOCABLE, info, m) && code[info].NotI?
    ensures Tested(b, ex, Retested(code, Test(code[info].b, c)), {},
                   if !c then ts + {info + 1} else ts, if !c then fs else fs + {info + 1}, c)
  {
    NotTestedResolved(b, code, js, ts, fs, info, Test(code[info].b, c), c);
    var code1 := Retested(code, Test(code[info].b, c));
    SameMembers(js, ts, fs, js, ts, fs);
    RetestedPlaced(b, code, ts, fs, Test(code[info].b, c));
    AddPlaced(b, code1, {}, ts, fs, info + 1, !c);
    assert forall j :: j in ts || j in fs ==> j < info;
    assert code1[..info] == code[..info] && code1[info] == Test(code[info].b, c) && code1[info + 1].Jmp?;
    hide Means, Denotes, Retested, Grown, WFCode;
    var fin := NegatedReg(code[info].b);
    assert forall env, r0, r, v ::
        ValueOf(env, code, AsExp(VRELOCABLE, info), r0, r, v) ==> ValueOf(env, code1, fin, r0, r, v);
    SameCodeDenotes(ex, code, code1, ts, fs, |b.code|, info, b.free, NO_REG, AsExp(VRELOCABLE, info), fin);
    TestDenotes(ex, code1, ts, fs, |b.code|, info, b.free, NO_REG, fin, !c, Truth(c));
  }

  lemma NotTestedResolved(b: Base, code: Code, js: set<nat>, ts: set<nat>, fs: set<nat>, info: nat, i: Instr, c: bool)
    requires AllResolved(code, js + ts + fs + {}, |b.code|) && js == {} && |code| == info + 1 && i.Test?
    ensures AllResolved(Retested(code, i), {} + (if !c then ts + {info + 1} else ts)
                                              + (if !c then fs else fs + {info + 1}), |b.code|)
  {
    var pend := {} + (if !c then ts + {info + 1} else ts) + (if !c then fs else fs + {info + 1});
    ChangeResolved(code, js + ts + fs + {}, Retested(code, i), pend, |b.code|);
  }

  lemma RetestedPlaced(b: Base, code: Code, ts: set<nat>, fs: set<nat>, i: Instr)
    requires Placed(b, code, {}, ts, fs) && TMode(i) && |b.code| < |code| && !code[|code| - 1].Jmp?
    ensures Placed(b, Retested(code, i), {}, ts, fs)
  {
    var code1 := Retested(code, i);
    assert forall k :: 0 <= k < |code| - 1 ==> code1[k] == code[k];
    assert code1[..|b.code|] == code[..|b.code|];
    SameMembers({}, ts, fs, {}, ts, fs);
  }

  // ---------- linking and landing ----------

  // Lists were linked: jumps behind the base changed their links.
  lemma LinkTested(b: Base, ex: Expr, code: Code, js: set<nat>, ts: set<nat>, fs: set<nat>, c: bool, code1: Code)
    requires Tested(b, ex, code, js, ts, fs, c) && LinksOnly(b, code, code1, js + ts + fs)
    ensures Tested(b, ex, code1, js, ts, fs, c)
  {
    if code1 != code {
      LinkedPlaced(b, code, js, ts, fs, code1);
    }
    hide Means;
    RelinkDenotes(ex, code, code1, js, ts, fs, |b.code|, |code|, b.free, NO_REG, Truth(c));
    LinkResolved(b, code, code1, js + ts + fs, js + ts + fs);
    hide Denotes, Placed, AllResolved, Relinked;
  }

  lemma LinkResolved(b: Base, code: Code, code1: Code, es: set<nat>, pend: set<nat>)
    requires LinksOnly(b, code, code1, es) && es <= pend && AllResolved(code, pend, |b.code|)
    ensures AllResolved(code1, pend, |b.code|)
  {
    ChangeResolved(code, pend, code1, pend, |b.code|);
  }

  ghost predicate LinksOnly(b: Base, code: Code, code1: Code, es: set<nat>) {
    && Relinked(code, code1, es)
    && (code1 != code ==> |code| > |b.code| && forall i :: 0 <= i < |b.code| ==> code1[i] == code[i])
  }

  lemma LinkedPlaced(b: Base, code: Code, js: set<nat>, ts: set<nat>, fs: set<nat>, code1: Code)
    requires Placed(b, code, js, ts, fs) && Relinked(code, code1, js + ts + fs) && |code| > |b.code|
    requires forall i :: 0 <= i < |b.code| ==> code1[i] == code[i]
    ensures Placed(b, code1, js, ts, fs)
  {
    ChangePlaced(b, code, js, ts, fs, code1, js, ts, fs);
  }

  lemma LandBranched(b: Base, ex: Expr, code: Code, js: set<nat>, ts: set<nat>, fs: set<nat>, c: bool, m: nat)
    requires Tested(b, ex, code, js, ts, fs, c) && m <= b.free < MAXSTACK && Supported(ex, m)
    ensures Branched(b, ex, code, js + if c then ts else fs, c, if c then fs else ts, m)
  {
    var js1, ts1, fs1 := js + if c then ts else fs, if c then {} else ts, if c then fs else {};
    assert js1 + ts1 + fs1 == js + ts + fs;
    MovePlaced(b, code, js, ts, fs, js1, ts1, fs1);
    hide Means;
    LandDenotes(ex, code, js, ts, fs, |b.code|, b.free, NO_REG, c);
    assert js1 + (if c then fs else ts) == js + ts + fs;
  }

  lemma LinkGood(b: Base, ex: Expr, code: Code, js: set<nat>, ts: set<nat>, fs: set<nat>, k: Kind, info: nat,
                 m: nat, code1: Code)
    requires Good(b, ex, code, js, ts, fs, k, info, m) && LinksOnly(b, code, code1, js + ts + fs)
    ensures Good(b, ex, code1, js, ts, fs, k, info, m)
  {
    hide Means, AllResolved, WFCode, Grown, Supported;
    SameMembers(js, ts, fs, js, ts, fs);
    if code1 != code {
      LinkedPlaced(b, code, js, ts, fs, code1);
    }
    RelinkDenotes(ex, code, code1, js, ts, fs, |b.code|, StopOf(code, k), b.free, NO_REG, AsExp(k, info));
    LinkResolved(b, code, code1, js + ts + fs, js + ts + fs + Loose(k, info));
    hide Denotes, Placed, Relinked;
  }

  // ---------- not ----------

  // removevalues on both lists.
  function NoValues(code: Code, es: set<nat>): (c: Code)
    ensures |c| == |code|
  {
    seq(|code|, i requires 0 <= i < |code| =>
      if i + 1 in es && code[i].TestSet? then Test(code[i].b, code[i].c) else code[i])
  }

  lemma NoValuesPlaced(b: Base, code: Code, ts: set<nat>, fs: set<nat>)
    requires Placed(b, code, {}, ts, fs) && |b.code| < |code|
    ensures Placed(b, NoValues(code, ts + fs), {}, fs, ts)
    ensures forall hi: nat :: hi <= |code| && (forall j :: j in ts + fs ==> j < hi) ==>
              Removed(code, NoValues(code, ts + fs), ts + fs, hi)
  {
    var code1 := NoValues(code, ts + fs);
    SameMembers({}, ts, fs, {}, fs, ts);
    assert forall i :: 0 <= i < |b.code| ==> code1[i] == code[i];
    ChangePlaced(b, code, {}, ts, fs, code1, {}, fs, ts);
  }

  lemma NotPlaced(b: Base, code: Code, js: set<nat>, ts: set<nat>, fs: set<nat>, info: nat)
    requires Placed(b, code, js, ts, fs) && |b.code| <= |code| && info < NREGS
    ensures var code1 := Emit(code, js, NotI(0, info));
            var code2 := NoValues(code1, ts + fs);
      && code1[..|code|] == Landed(code, js) && |code1| == |code2| == |code| + 1
      && code1[|code|] == code2[|code|] == NotI(0, info)
      && Placed(b, code1, {}, ts, fs) && Placed(b, code2, {}, fs, ts)
      && Removed(code1, code2, ts + fs, |code|) && |code| !in fs + ts
  {
    var code1 := Emit(code, js, NotI(0, info));
    EmitPlaced(b, code, js, ts, fs, NotI(0, info));
    SameMembers(js, ts, fs, js, ts, fs);
    assert forall j :: j in ts + fs ==> j < |code|;
    hide Placed, Removed;
    NoValuesPlaced(b, code1, ts, fs);
  }

  lemma NotMeant(b: Base, ex: Expr, code: Code, js: set<nat>, ts: set<nat>, fs: set<nat>, info: nat, m: nat)
    requires Good(b, ex, code, js, ts, fs, VNONRELOC, info, m) && info < NREGS
    ensures var code2 := NoValues(Emit(code, js, NotI(0, info)), ts + fs);
            Denotes(Not(ex), code2, {}, fs, ts, |b.code|, |code|, b.free, NO_REG, AsExp(VRELOCABLE, |code|))
  {
    var code1 := Emit(code, js, NotI(0, info));
    var code2 := NoValues(code1, ts + fs);
    NotPlaced(b, code, js, ts, fs, info);
    hide Emit, NoValues, Removed, Denotes, Apart, WFCode, Grown;
    EmitDenotes(ex, code, code1, js, ts, fs, |b.code|, b.free, NO_REG, AsExp(VNONRELOC, info));
    NotDenotes(ex, code1, code2, ts, fs, |b.code|, |code|, b.free, NO_REG, AsExp(VNONRELOC, info),
               AsExp(VRELOCABLE, |code|));
  }

  lemma NotResolved(b: Base, code: Code, js: set<nat>, ts: set<nat>, fs: set<nat>, info: nat)
    requires Placed(b, code, js, ts, fs) && AllResolved(code, js + ts + fs, |b.code|) && info < NREGS
    ensures AllResolved(NoValues(Emit(code, js, NotI(0, info)), ts + fs), {} + fs + ts + {}, |b.code|)
  {
    var code1 := Emit(code, js, NotI(0, info));
    EmitResolved(b, code, js, ts, fs, NotI(0, info));
    hide Placed, Emit;
    ChangeResolved(code1, {} + ts + fs, NoValues(code1, ts + fs), {} + fs + ts + {}, |b.code|);
  }

  /** codenot on a value in a register. */
  lemma NotGood(b: Base, ex: Expr, code: Code, js: set<nat>, ts: set<nat>, fs: set<nat>, info: nat, m: nat)
    requires Good(b, ex, code, js, ts, fs, VNONRELOC, info, m) && info < NREGS && !EndsInConst(ex)
    ensures Good(b, Not(ex), NoValues(Emit(code, js, NotI(0, info)), ts + fs), {}, fs, ts, VRELOCABLE, |code|, m)
  {
    hide AllResolved, Means;
    NotMeant(b, ex, code, js, ts, fs, info, m);
    NoLoose(js, ts, fs);
    NotResolved(b, code, js, ts, fs, info);
    hide Emit, NoValues, Removed, Placed, Denotes;
    NotPlaced(b, code, js, ts, fs, info);
  }

  lemma NotComparePlaced(b: Base, code: Code, ts: set<nat>, fs: set<nat>, info: nat)
    requires Placed(b, code, {}, ts, fs) && |b.code| < info && |code| == info + 1 && info !in ts + fs
    requires code[info - 1].Cmp? && code[info].Jmp?
    ensures var code1 := Inverted(code, info);
            var code2 := NoValues(code1, ts + fs);
      && |code2| == |code1| == |code| && code2[info] == code1[info] && code2[info - 1] == code1[info - 1]
      && StartOK(code1, |b.code|) && StartOK(code2, |b.code|)
      && Placed(b, code2, {}, fs, ts) && Removed(code1, code2, ts + fs, info - 1)
      && forall j :: j in ts + fs ==> j < info - 1 && code[j].Jmp?
  {
    var code1 := Inverted(code, info);
    SameMembers({}, ts, fs, {}, ts, fs);
    ChangePlaced(b, code, {}, ts, fs, code1, {}, ts, fs);
    NoValuesPlaced(b, code1, ts, fs);
    hide Removed, Grown;
  }

  lemma NotCompareMeant(b: Base, ex: Expr, code: Code, js: set<nat>, ts: set<nat>, fs: set<nat>, info: nat, m: nat)
    requires Good(b, ex, code, js, ts, fs, VJMP, info, m)
    ensures var code2 := NoValues(Inverted(code, info), ts + fs);
            && |code2| == |code| && |b.code| <= info - 1
            && Denotes(Not(ex), code2, {}, fs, ts, |b.code|, info - 1, b.free, NO_REG, AsExp(VJMP, info))
  {
    var code1 := Inverted(code, info);
    var code2 := NoValues(code1, ts + fs);
    NotComparePlaced(b, code, ts, fs, info);
    GoodParts(b, ex, code, js, ts, fs, VJMP, info, m);
    hide Denotes, Placed, Removed, NoValues, WFCode, Apart, AllResolved;
    InvertedFails(b, ex, code, ts, fs, info);
    NotDenotes(ex, code1, code2, ts, fs, |b.code|, info - 1, b.free, NO_REG, Fails(info), AsExp(VJMP, info));
  }

  /** codenot on a comparison. */
  lemma NotCompareGood(b: Base, ex: Expr, code: Code, js: set<nat>, ts: set<nat>, fs: set<nat>, info: nat, m: nat)
    requires Good(b, ex, code, js, ts, fs, VJMP, info, m) && !EndsInConst(ex)
    ensures Good(b, Not(ex), NoValues(Inverted(code, info), ts + fs), {}, fs, ts, VJMP, info, m)
  {
    hide AllResolved, Denotes, Placed, Removed, NoValues;
    NotCompareMeant(b, ex, code, js, ts, fs, info, m);
    NotComparePlaced(b, code, ts, fs, info);
    NotCompareResolved(b, code, js, ts, fs, info);
  }

  lemma NotCompareResolved(b: Base, code: Code, js: set<nat>, ts: set<nat>, fs: set<nat>, info: nat)
    requires 1 <= info <= |code| && code[info - 1].Cmp? && js == {}
    requires AllResolved(code, js + ts + fs + {info}, |b.code|)
    ensures AllResolved(NoValues(Inverted(code, info), ts + fs), {} + fs + ts + {info}, |b.code|)
  {
    ChangeResolved(code, js + ts + fs + {info}, NoValues(Inverted(code, info), ts + fs), {} + fs + ts + {info},
                   |b.code|);
  }

  // ---------- two operands ----------

  // An operand as luaK_exp2RK leaves it: a constant or a register, and nothing pending but
  // jumps to here.
  ghost predicate Operand(b: Base, ex: Expr, code: Code, js: set<nat>, k: Kind, info: nat, m: nat) {
    && Good(b, ex, code, js, {}, {}, k, info, m)
    && ((k == VK && info <= MAXINDEXRK) || (k == VNONRELOC && info < MAXSTACK))
  }

  function RKOf(k: Kind, info: nat): nat { if k == VK then BITRK + info else info }

  // The free register while the operand is in use.
  function FreeAfter(free: nat, k: Kind, info: nat, m: nat): nat {
    if k == VNONRELOC && info >= m then free + 1 else free
  }

  // The operands of the comparison that is emitted, and whether it is negated.
  function CompareInstr(rel: Rel, o1: nat, o2: nat): Instr {
    match rel
    case Eq => Cmp(EQ, true, o1, o2)
    case Ne => Cmp(EQ, false, o1, o2)
    case Lt => Cmp(LT, true, o1, o2)
    case Le => Cmp(LE, true, o1, o2)
    case Gt => Cmp(LT, true, o2, o1)
    case Ge => Cmp(LE, true, o2, o1)
  }

  lemma PairAtEnd(b: Base, e1: Expr, e2: Expr, code: Code, js: set<nat>, k1: Kind, i1: nat,
                  code1: Code, js1: set<nat>, k2: Kind, i2: nat, m: nat)
    requires Operand(b, e1, code, js, k1, i1, m)
    requires Operand(Base(code, js, FreeAfter(b.free, k1, i1, m)), e2, code1, js1, k2, i2, m)
    ensures Placed(b, code1, js1, {}, {})
    ensures Denotes(e2, code1, js1, {}, {}, |b.code|, |code1|, b.free, NO_REG, With(e1, AsExp(k1, i1), AsExp(k2, i2)))
  {
    var n1 := FreeAfter(b.free, k1, i1, m);
    GrownTrans(b, code, js, code1, js1);
    hide Means;
    PairDenotes(e1, e2, code, js, code1, js1, |b.code|, |code1|, m, b.free, n1, AsExp(k1, i1), AsExp(k2, i2));
  }

  lemma PairResolved(b: Base, e1: Expr, e2: Expr, code: Code, js: set<nat>, k1: Kind, i1: nat,
                     code1: Code, js1: set<nat>, k2: Kind, i2: nat, m: nat)
    requires Operand(b, e1, code, js, k1, i1, m)
    requires Operand(Base(code, js, FreeAfter(b.free, k1, i1, m)), e2, code1, js1, k2, i2, m)
    ensures AllResolved(code1, js1 + {} + {}, |b.code|)
  {
    hide Denotes, Supported, WFCode, Shape, AllResolved;
    NoLoose(js1, {}, {});
    GrownResolved(code, js, js + {} + {} + {}, code1, js1, js1 + {} + {}, |b.code|);
  }

  // The parts before and behind the place where the jumps to here have landed.
  lemma GrownResolved(code: Code, js: set<nat>, pend: set<nat>, code1: Code, js1: set<nat>, pend1: set<nat>, lo: nat)
    requires Grown(code, js, code1, js1) && AllResolved(code, pend, lo) && AllResolved(code1, pend1, |code|)
    requires forall j :: j in js ==> j < |code| && code[j].Jmp?
    requires (forall j :: j in pend ==> j in js || j in pend1) && forall j :: j in js1 ==> j in pend1
    ensures AllResolved(code1, pend1, lo)
  {
    if code1 == code && js1 == js {
      ChangeResolved(code, pend, code, pend1, lo);
    } else {
      LandResolved(code, js, pend, code1, pend1, lo);
    }
  }

  lemma GrownTrans(b: Base, code: Code, js: set<nat>, code1: Code, js1: set<nat>)
    requires Grown(b.code, b.js, code, js) && Grown(code, js, code1, js1) && WFCode(b.code) && StartOK(code, |b.code|)
    ensures Grown(b.code, b.js, code1, js1)
    ensures code != b.code && code1 != code ==> code1[..|b.code|] == code[..|b.code|]
    ensures StartOK(code1, |b.code|)
  {
    if code1 != code || js1 != js {
      if code != b.code || js != b.js {
        assert forall i :: 0 <= i < |b.code| ==> code1[i] == code1[..|code|][i] == Landed(code, js)[i] == code[i];
        assert code1[..|b.code|] == code[..|b.code|];
      } else if |b.code| > 0 {
        assert code1[|b.code| - 1] == code1[..|code|][|b.code| - 1];
      }
    }
  }

  lemma CompareMeant(b: Base, rel: Rel, e1: Expr, e2: Expr, code: Code, js: set<nat>, k1: Kind, i1: nat,
                     code1: Code, js1: set<nat>, k2: Kind, i2: nat, m: nat)
    requires Operand(b, e1, code, js, k1, i1, m)
    requires Operand(Base(code, js, FreeAfter(b.free, k1, i1, m)), e2, code1, js1, k2, i2, m)
    ensures var code2 := Emit(code1, js1, CompareInstr(rel, RKOf(k1, i1), RKOf(k2, i2))) + [Jmp(NO_JUMP)];
            && |code2| == |code1| + 2 && |b.code| <= |code1|
            && Denotes(Compare(rel, e1, e2), code2, {}, {}, {}, |b.code|, |code1|, b.free, NO_REG,
                       AsExp(VJMP, |code1| + 1))
  {
    hide AllResolved;
    var i := CompareInstr(rel, RKOf(k1, i1), RKOf(k2, i2));
    var code2 := Emit(code1, js1, i) + [Jmp(NO_JUMP)];
    var fin := With(e1, AsExp(k1, i1), AsExp(k2, i2));
    PairAtEnd(b, e1, e2, code, js, k1, i1, code1, js1, k2, i2, m);
    hide Good, Denotes;
    EmitTestPlaced(b, code1, js1, {}, {}, i);
    assert code2[|code1|] == i;
    EmitDenotes(e2, code1, code2, js1, {}, {}, |b.code|, b.free, NO_REG, fin);
    hide Placed, Emit, Combines;
    CompareCombines(rel, e1, e2, code2, k1, i1, k2, i2, |code1| + 1);
    PairValue(Compare(rel, e1, e2), e1, e2, code2, |b.code|, |code1|, b.free, fin, AsExp(VJMP, |code1| + 1));
  }

  /** codecomp: a comparison whose jump has no list yet. */
  lemma CompareGood(b: Base, rel: Rel, e1: Expr, e2: Expr, code: Code, js: set<nat>, k1: Kind, i1: nat,
                    code1: Code, js1: set<nat>, k2: Kind, i2: nat, m: nat)
    requires Operand(b, e1, code, js, k1, i1, m)
    requires Operand(Base(code, js, FreeAfter(b.free, k1, i1, m)), e2, code1, js1, k2, i2, m)
    ensures var i := CompareInstr(rel, RKOf(k1, i1), RKOf(k2, i2));
            Good(b, Compare(rel, e1, e2), Emit(code1, js1, i) + [Jmp(NO_JUMP)], {}, {}, {}, VJMP, |code1| + 1, m)
  {
    hide AllResolved, Denotes, Placed;
    var i := CompareInstr(rel, RKOf(k1, i1), RKOf(k2, i2));
    CompareMeant(b, rel, e1, e2, code, js, k1, i1, code1, js1, k2, i2, m);
    PairAtEnd(b, e1, e2, code, js, k1, i1, code1, js1, k2, i2, m);
    EmitTestPlaced(b, code1, js1, {}, {}, i);
    PairResolved(b, e1, e2, code, js, k1, i1, code1, js1, k2, i2, m);
    EmitTestResolved(b, code1, js1, {}, {}, i, {} + {} + {} + {|code1| + 1});
  }

  lemma OperandValues(env: Env, e1: Expr, e2: Expr, code: Code, k1: Kind, i1: nat, k2: Kind, i2: nat, r0: Regs, r: Regs)
    requires ValueOf(env, code, With(e1, AsExp(k1, i1), AsExp(k2, i2)), r0, r, Eval(env, e2, r0))
    requires (k1 == VK || k1 == VNONRELOC) && (k2 == VK || k2 == VNONRELOC)
    ensures RK(env, r, RKOf(k1, i1)) == Eval(env, e1, r0) && RK(env, r, RKOf(k2, i2)) == Eval(env, e2, r0)
  {
    assert ValueOf(env, code, AsExp(k1, i1), r0, r, Eval(env, e1, r0));
    assert ValueOf(env, code, AsExp(k2, i2), r0, r, Eval(env, e2, r0));
  }

  // A value that both operands determine.
  ghost predicate Combines(ex: Expr, e1: Expr, e2: Expr, code: Code, fin: Fin, fin1: Fin) {
    forall env, r0, r ::
      ValueOf(env, code, fin, r0, r, Eval(env, e2, r0)) ==> ValueOf(env, code, fin1, r0, r, Eval(env, ex, r0))
  }

  lemma CompareCombines(rel: Rel, e1: Expr, e2: Expr, code: Code, k1: Kind, i1: nat, k2: Kind, i2: nat, info: nat)
    requires (k1 == VK || k1 == VNONRELOC) && (k2 == VK || k2 == VNONRELOC)
    requires 1 <= info <= |code| && code[info - 1] == CompareInstr(rel, RKOf(k1, i1), RKOf(k2, i2))
    ensures Combines(Compare(rel, e1, e2), e1, e2, code, With(e1, AsExp(k1, i1), AsExp(k2, i2)), AsExp(VJMP, info))
  {
    var fin := With(e1, AsExp(k1, i1), AsExp(k2, i2));
    forall env, r0, r | ValueOf(env, code, fin, r0, r, Eval(env, e2, r0))
      ensures ValueOf(env, code, AsExp(VJMP, info), r0, r, Eval(env, Compare(rel, e1, e2), r0))
    {
      OperandValues(env, e1, e2, code, k1, i1, k2, i2, r0, r);
    }
  }

  lemma ArithCombines(op: nat, e1: Expr, e2: Expr, code: Code, k1: Kind, i1: nat, k2: Kind, i2: nat, info: nat)
    requires (k1 == VK || k1 == VNONRELOC) && (k2 == VK || k2 == VNONRELOC)
    requires info < |code| && code[info] == ArithI(op, 0, RKOf(k1, i1), RKOf(k2, i2))
    ensures Combines(Arith(op, e1, e2), e1, e2, code, With(e1, AsExp(k1, i1), AsExp(k2, i2)), AsExp(VRELOCABLE, info))
  {
    var fin := With(e1, AsExp(k1, i1), AsExp(k2, i2));
    forall env, r0, r | ValueOf(env, code, fin, r0, r, Eval(env, e2, r0))
      ensures ValueOf(env, code, AsExp(VRELOCABLE, info), r0, r, Eval(env, Arith(op, e1, e2), r0))
    {
      OperandValues(env, e1, e2, code, k1, i1, k2, i2, r0, r);
    }
  }

  lemma PairValue(ex: Expr, e1: Expr, e2: Expr, code: Code, lo: nat, stop: nat, n: nat, fin: Fin, fin1: Fin)
    requires Denotes(e2, code, {}, {}, {}, lo, stop, n, NO_REG, fin) && Combines(ex, e1, e2, code, fin, fin1)
    ensures Denotes(ex, code, {}, {}, {}, lo, stop, n, NO_REG, fin1)
  {
    forall env, r0 ensures Means(env, ex, code, {}, {}, {}, lo, stop, n, NO_REG, fin1, r0) {
      assert Means(env, e2, code, {}, {}, {}, lo, stop, n, NO_REG, fin, r0);
      hide ValueOf;
    }
  }

  /** codearith: an instruction that still has to be given its register. */
  lemma ArithGood(b: Base, op: nat, e1: Expr, e2: Expr, code: Code, js: set<nat>, k1: Kind, i1: nat,
                  code1: Code, js1: set<nat>, k2: Kind, i2: nat, m: nat)
    requires Operand(b, e1, code, js, k1, i1, m)
    requires Operand(Base(code, js, FreeAfter(b.free, k1, i1, m)), e2, code1, js1, k2, i2, m)
    ensures Good(b, Arith(op, e1, e2), Emit(code1, js1, ArithI(op, 0, RKOf(k1, i1), RKOf(k2, i2))),
                 {}, {}, {}, VRELOCABLE, |code1|, m)
  {
    var i := ArithI(op, 0, RKOf(k1, i1), RKOf(k2, i2));
    var code2 := Emit(code1, js1, i);
    var fin := With(e1, AsExp(k1, i1), AsExp(k2, i2));
    PairAtEnd(b, e1, e2, code, js, k1, i1, code1, js1, k2, i2, m);
    hide Good, Denotes, AllResolved;
    EmitPlaced(b, code1, js1, {}, {}, i);
    PairResolved(b, e1, e2, code, js, k1, i1, code1, js1, k2, i2, m);
    EmitResolved(b, code1, js1, {}, {}, i);
    NoLoose({}, {}, {});
    assert code2[|code1|] == i;
    EmitDenotes(e2, code1, code2, js1, {}, {}, |b.code|, b.free, NO_REG, fin);
    hide Placed, Emit, Combines;
    ArithCombines(op, e1, e2, code2, k1, i1, k2, i2, |code1|);
    PairValue(Arith(op, e1, e2), e1, e2, code2, |b.code|, |code1|, b.free, fin, AsExp(VRELOCABLE, |code1|));
  }

  // ---------- and, or ----------

  /** luaK_posfix on `and' and `or', before the lists are linked. */
  lemma JunctionGood(b: Base, c: bool, e1: Expr, e2: Expr, code: Code, js: set<nat>, es: set<nat>,
                     code1: Code, js1: set<nat>, ts1: set<nat>, fs1: set<nat>, k: Kind, info: nat, m: nat)
    requires Branched(b, e1, code, js, c, es, m)
    requires Good(Base(code, js, b.free), e2, code1, js1, ts1, fs1, k, info, m)
    ensures var ts2, fs2 := if c then ts1 else ts1 + es, if c then fs1 + es else fs1;
            Good(b, Junction(c, e1, e2), code1, js1, ts2, fs2, k, info, m)
  {
    JunctionResolved(b, c, code, js, es, code1, js1, ts1, fs1, Loose(k, info));
    var ts2, fs2 := if c then ts1 else ts1 + es, if c then fs1 + es else fs1;
    hide Means, Denotes;
    JunctionPlaced(b, c, code, js, es, code1, js1, ts1, fs1);
    JunctionApart(code, js, c, es);
    JunctionShape(b, c, e1, e2, code, js, es, code1, js1, ts1, fs1, k, info, m);
    JunctionDenotes(c, e1, e2, code, js, es, code1, js1, ts1, fs1, |b.code|, StopOf(code1, k), m, b.free,
                    AsExp(k, info));
    hide Placed, Shape;
  }

  lemma JunctionResolved(b: Base, c: bool, code: Code, js: set<nat>, es: set<nat>,
                         code1: Code, js1: set<nat>, ts1: set<nat>, fs1: set<nat>, loose: set<nat>)
    requires Placed(b, code, js, if c then {} else es, if c then es else {}) && AllResolved(code, js + es, |b.code|)
    requires Placed(Base(code, js, b.free), code1, js1, ts1, fs1)
    requires AllResolved(code1, js1 + ts1 + fs1 + loose, |code|)
    ensures var ts2, fs2 := if c then ts1 else ts1 + es, if c then fs1 + es else fs1;
            AllResolved(code1, js1 + ts2 + fs2 + loose, |b.code|)
  {
    var ts2, fs2 := if c then ts1 else ts1 + es, if c then fs1 + es else fs1;
    var pend := js1 + ts2 + fs2 + loose;
    ChangeResolved(code1, js1 + ts1 + fs1 + loose, code1, pend, |code|);
    GrownResolved(code, js, js + es, code1, js1, pend, |b.code|);
  }

  lemma JunctionShape(b: Base, c: bool, e1: Expr, e2: Expr, code: Code, js: set<nat>, es: set<nat>,
                      code1: Code, js1: set<nat>, ts1: set<nat>, fs1: set<nat>, k: Kind, info: nat, m: nat)
    requires Apart(code, js, es, {}) && |b.code| <= |code|
    requires Shape(Base(code, js, b.free), e2, code1, js1, ts1, fs1, k, info, m)
    ensures var ts2, fs2 := if c then ts1 else ts1 + es, if c then fs1 + es else fs1;
            Shape(b, Junction(c, e1, e2), code1, js1, ts2, fs2, k, info, m)
  {
    assert forall j :: j in es ==> j < |code| by {
      assert forall j :: j in es ==> j in js + es + {};
    }
  }

  lemma JunctionApart(code: Code, js: set<nat>, c: bool, es: set<nat>)
    requires Apart(code, js, if c then {} else es, if c then es else {})
    ensures Apart(code, js, es, {})
  {
    assert js + es + {} == js + (if c then {} else es) + (if c then es else {});
  }

  lemma JunctionPlaced(b: Base, c: bool, code: Code, js: set<nat>, es: set<nat>,
                       code1: Code, js1: set<nat>, ts1: set<nat>, fs1: set<nat>)
    requires Placed(b, code, js, if c then {} else es, if c then es else {})
    requires Placed(Base(code, js, b.free), code1, js1, ts1, fs1)
    ensures Placed(b, code1, js1, if c then ts1 else ts1 + es, if c then fs1 + es else fs1)
  {
    var ts, fs := if c then {} else es, if c then es else {};
    var ts2, fs2 := if c then ts1 else ts1 + es, if c then fs1 + es else fs1;
    GrownTrans(b, code, js, code1, js1);
    assert forall j :: j in es ==> j in js + ts + fs;
    GrownJumps(code, js, code1, js1, es);
    assert forall j :: j in js1 + ts2 + fs2 <==> j in js1 + ts1 + fs1 || j in es;
    assert forall j :: j in js1 || j in ts1 || j in fs1 ==> j in js1 + ts1 + fs1;
  }

  // Pending jumps that were not to here are as they were.
  lemma GrownJumps(code: Code, js: set<nat>, code1: Code, js1: set<nat>, es: set<nat>)
    requires Grown(code, js, code1, js1) && js !! es
    requires forall j :: j in es ==> j < |code| && code[j].Jmp?
    ensures forall j :: j in es ==> j < |code1| && code1[j] == code[j] && j !in js1
  {
    if code1 != code || js1 != js {
      forall j | j in es ensures j < |code1| && code1[j] == code[j] {
        assert code1[j] == code1[..|code|][j] == Landed(code, js)[j];
      }
    }
  }

  // ---------- the end of an expression ----------

  // Instructions added behind the code, none of them a test.
  lemma AppendPlaced(b: Base, code: Code, js: set<nat>, ts: set<nat>, fs: set<nat>, code1: Code, js1: set<nat>)
    requires Placed(b, code, js, ts, fs) && |code| < |code1| && code1[..|code|] == code
    requires |b.code| < |code| || (js == {} && b.js == {})
    requires forall i :: |code| <= i < |code1| ==> !TMode(code1[i])
    requires js <= js1 && forall j :: j in js1 && j !in js ==> |code| <= j < |code1| && code1[j].Jmp?
    ensures Placed(b, code1, js1, ts, fs)
  {
    assert forall i :: 0 <= i < |code| ==> code1[i] == code1[..|code|][i];
    SameMembers(js, ts, fs, js, ts, fs);
    SameMembers(js1, ts, fs, js1, ts, fs);
    if |b.code| < |code| {
      assert code1[..|b.code|] == code[..|b.code|];
    } else {
      assert code1[..|b.code|] == Landed(b.code, {});
    }
  }

  /** The value is there: a jump leads over the two labels. */
  lemma SkipInRegister(b: Base, ex: Expr, code: Code, js: set<nat>, ts: set<nat>, fs: set<nat>, reg: nat, code1: Code)
    requires InRegister(b, ex, code, js, ts, fs, reg) && |b.code| < |code|
    requires |code1| == |code| + 3 && code1[|code|].Jmp? && code1[..|code|] == code && HasLabels(code1, reg)
    ensures InRegister(b, ex, code1, js + {|code|}, ts, fs, reg)
  {
    AppendPlaced(b, code, js, ts, fs, code1, js + {|code|});
    hide Means;
    SkipDenotes(ex, code, code1, js, ts, fs, |b.code|, b.free, reg, reg);
    ChangeResolved(code, js + ts + fs, code1, js + {|code|} + ts + fs, |b.code|) by {
      assert forall i :: 0 <= i < |code| ==> code1[i] == code1[..|code|][i];
    }
  }

  /** A comparison that fails falls into the label that loads false. */
  lemma FallInRegister(b: Base, ex: Expr, code: Code, ts: set<nat>, fs: set<nat>, reg: nat, code1: Code)
    requires Placed(b, code, {}, ts, fs) && |b.code| < |code| && b.free < MAXSTACK && reg < MAXSTACK
    requires Denotes(ex, code, {}, ts, fs, |b.code|, |code|, b.free, NO_REG, Is(false))
    requires AllResolved(code, {} + ts + fs, |b.code|)
    requires |code1| == |code| + 2 && code1[..|code|] == code && HasLabels(code1, reg)
    ensures InRegister(b, ex, code1, {}, ts, fs, reg)
  {
    AppendPlaced(b, code, {}, ts, fs, code1, {});
    hide Means;
    FallDenotes(ex, code, code1, ts, fs, |b.code|, b.free, NO_REG, reg);
    ChangeResolved(code, {} + ts + fs, code1, {} + ts + fs, |b.code|) by {
      assert forall i :: 0 <= i < |code| ==> code1[i] == code1[..|code|][i];
    }
  }

  /** One of the two lists is resolved. */
  lemma PatchInRegister(b: Base, ex: Expr, code: Code, js: set<nat>, ts: set<nat>, fs: set<nat>, reg: nat,
                        c: bool, dt: nat)
    requires InRegister(b, ex, code, js, ts, fs, reg) && CanPatch(code, if c then ts else fs, reg, c, dt)
    ensures var code1 := Patched(code, if c then ts else fs, |code|, reg, dt);
            InRegister(b, ex, code1, js, if c then {} else ts, if c then fs else {}, reg)
  {
    PatchPlaced(b, code, js, ts, fs, reg, c, dt);
    PatchResolved(code, js + ts + fs, if c then ts else fs, reg, c, dt,
                  js + (if c then {} else ts) + (if c then fs else {}), |b.code|) by {
      JumpsOf(b, code, js, ts, fs);
    }
    hide Means, CanPatch, Patched, AllResolved;
    PatchDenotes(ex, code, js, ts, fs, |b.code|, b.free, reg, c, dt);
  }

  lemma PatchPlaced(b: Base, code: Code, js: set<nat>, ts: set<nat>, fs: set<nat>, reg: nat, c: bool, dt: nat)
    requires Placed(b, code, js, ts, fs) && reg < MAXSTACK
    ensures var code1 := Patched(code, if c then ts else fs, |code|, reg, dt);
            Placed(b, code1, js, if c then {} else ts, if c then fs else {})
  {
    var s := if c then ts else fs;
    var code1 := Patched(code, s, |code|, reg, dt);
    var ts1, fs1 := if c then {} else ts, if c then fs else {};
    SameMembers(js, ts, fs, js, ts, fs);
    SameMembers(js, ts1, fs1, js, ts1, fs1);
    if s == {} {
      assert code1 == code;
    } else {
      assert forall j :: j in s ==> |b.code| <= j < |code| && code[j].Jmp?;
      assert forall i :: 0 <= i < |b.code| ==> code1[i] == code[i];
      ChangePlaced(b, code, js, ts, fs, code1, js, ts, fs);
    }
  }

  // ---------- leaves, and the whole ----------

  predicate IsLeaf(ex: Expr, k: Kind, info: nat, m: nat) {
    match ex
    case Local(i) => k == VLOCAL && info == i && i < m
    case Upval(i) => k == VUPVAL && info == i
    case Const(i) => k == VK && info == i
    case _ => false
  }

  lemma LeafGood(code: Code, js: set<nat>, free: nat, ex: Expr, k: Kind, info: nat, m: nat)
    requires IsLeaf(ex, k, info, m) && WFCode(code) && m <= free < MAXSTACK
    requires forall j :: j in js ==> j < |code| && code[j].Jmp?
    ensures Good(Base(code, js, free), ex, code, js, {}, {}, k, info, m)
  {
    var fin, stop := AsExp(k, info), |code|;
    forall env, r0 ensures Means(env, ex, code, js, {}, {}, stop, stop, free, NO_REG, fin, r0) {
    }
  }

  /** A run of the finished code of an assignment: no jump is pending any more. */
  ghost predicate Computes(env: Env, ex: Expr, code: Code, lo: nat, stop: nat, n: nat, reg: nat, r: Regs)
    requires stop <= |code|
  {
    var out := Run(env, code, {}, stop, lo, r);
    out.End? && reg < NREGS && out.r[reg] == Eval(env, ex, r) && Same(r, out.r, n, reg)
  }

  /** Whatever instruction comes next, the code before it computes the value into reg and keeps
      every other active register. */
  lemma NextInstruction(b: Base, ex: Expr, code: Code, js: set<nat>, reg: nat, i: Instr)
    requires InRegister(b, ex, code, js, {}, {}, reg)
    ensures forall env, r :: Computes(env, ex, Emit(code, js, i), |b.code|, |code|, b.free, reg, r)
  {
    var code1, stop := Emit(code, js, i), |code|;
    var lo, n, fin := |b.code|, b.free, InReg(reg);
    var none: set<nat> := {};
    assert code1[..|code|] == Landed(code, js);
    EmitDenotes(ex, code, code1, js, {}, {}, |b.code|, b.free, reg, InReg(reg));
    forall env, r ensures Computes(env, ex, code1, lo, stop, n, reg, r) {
      assert Means(env, ex, code1, {}, {}, {}, lo, stop, n, reg, fin, r);
      assert none + none + none == none;
    }
  }
}
