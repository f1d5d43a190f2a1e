/** Expressions, the instructions that the code generator (lcode.c) emits for them, and the
    virtual machine (lvm.c) on code in which some jumps still wait for their targets. */
module CodeSem {
  import opened Limits

  datatype Value = Nil | Bool(b: bool) | Other(id: int)

  predicate Falsy(v: Value) { v == Nil || v == Bool(false) }

  datatype CmpOp = EQ | LT | LE

  // Upvalues, constants (none of them nil, true or false), comparison and arithmetic.
  datatype Env = Env(up: nat -> Value, k: nat -> int,
                     cmp: (CmpOp, Value, Value) -> bool, arith: (nat, Value, Value) -> Value)

  function Konst(env: Env, i: nat): Value { Other(env.k(i)) }

  // ---------- expressions ----------

  datatype Rel = Eq | Ne | Lt | Le | Gt | Ge

  datatype Expr =
    | Local(reg: nat)
    | Upval(idx: nat)
    | Const(idx: nat)
    | Not(e: Expr)
    | And(l: Expr, r: Expr)
    | Or(l: Expr, r: Expr)
    | Compare(rel: Rel, l: Expr, r: Expr)
    | Arith(op: nat, l: Expr, r: Expr)

  const NREGS := 256
  const MAXINDEXRK: nat := 255

  type Reg = x: nat | x < NREGS
  type Regs = r: seq<Value> | |r| == NREGS witness seq(NREGS, _ => Nil)

  function Holds(env: Env, rel: Rel, a: Value, b: Value): bool {
    match rel
    case Eq => env.cmp(EQ, a, b)
    case Ne => !env.cmp(EQ, a, b)
    case Lt => env.cmp(LT, a, b)
    case Le => env.cmp(LE, a, b)
    case Gt => env.cmp(LT, b, a)
    case Ge => env.cmp(LE, b, a)
  }

  /** The meaning of an expression in Lua. */
  function Eval(env: Env, e: Expr, r: Regs): Value {
    match e
    case Local(i) => if i < NREGS then r[i] else Nil
    case Upval(i) => env.up(i)
    case Const(i) => Konst(env, i)
    case Not(a) => Bool(Falsy(Eval(env, a, r)))
    case And(a, b) => var v := Eval(env, a, r); if Falsy(v) then v else Eval(env, b, r)
    case Or(a, b) => var v := Eval(env, a, r); if Falsy(v) then Eval(env, b, r) else v
    case Compare(rel, a, b) => Bool(Holds(env, rel, Eval(env, a, r), Eval(env, b, r)))
    case Arith(op, a, b) => env.arith(op, Eval(env, a, r), Eval(env, b, r))
  }

  /** Only nil and false count as false: `and' yields its first operand if that is one of them, `or' if it is
      neither, `not' a boolean. */
  lemma EvalLaws(env: Env, a: Expr, b: Expr, r: Regs)
    ensures var x := Eval(env, a, r);
            var no := x == Nil || x == Bool(false);
            && Eval(env, And(a, b), r) == (if no then x else Eval(env, b, r))
            && Eval(env, Or(a, b), r) == (if no then Eval(env, b, r) else x)
            && Eval(env, Not(a), r) == Bool(no)
  {
  }

  /** `~=' is the negation of `==', `>' and `>=' have their operands exchanged. */
  lemma CompareLaws(env: Env, a: Expr, b: Expr, r: Regs)
    ensures var x, y := Eval(env, a, r), Eval(env, b, r);
            && Eval(env, Compare(Eq, a, b), r) == Bool(env.cmp(EQ, x, y))
            && Eval(env, Compare(Ne, a, b), r) == Bool(!env.cmp(EQ, x, y))
            && Eval(env, Compare(Lt, a, b), r) == Bool(env.cmp(LT, x, y))
            && Eval(env, Compare(Le, a, b), r) == Bool(env.cmp(LE, x, y))
            && Eval(env, Compare(Gt, b, a), r) == Bool(env.cmp(LT, x, y))
            && Eval(env, Compare(Ge, b, a), r) == Bool(env.cmp(LE, x, y))
  {
    hide Eval;
    OneCompare(env, Eq, a, b, r);
    OneCompare(env, Ne, a, b, r);
    OneCompare(env, Lt, a, b, r);
    OneCompare(env, Le, a, b, r);
    OneCompare(env, Gt, b, a, r);
    OneCompare(env, Ge, b, a, r);
  }

  lemma OneCompare(env: Env, rel: Rel, a: Expr, b: Expr, r: Regs)
    ensures Eval(env, Compare(rel, a, b), r) == Bool(Holds(env, rel, Eval(env, a, r), Eval(env, b, r)))
  {
  }

  lemma ArithLaw(env: Env, op: nat, a: Expr, b: Expr, r: Regs)
    ensures Eval(env, Arith(op, a, b), r) == env.arith(op, Eval(env, a, r), Eval(env, b, r))
    ensures forall i: Reg :: Eval(env, Local(i), r) == r[i]
    ensures forall i: nat :: Eval(env, Upval(i), r) == env.up(i) && Eval(env, Const(i), r) == Other(env.k(i))
  {
  }

  // The expression yields its last operand's constant when it gets to its end.
  predicate EndsInConst(e: Expr) {
    match e
    case Const(_) => true
    case And(_, b) => EndsInConst(b)
    case Or(_, b) => EndsInConst(b)
    case _ => false
  }

  /** No `not' of a constant (which would be a literal false), and only active locals. */
  predicate Supported(e: Expr, nactvar: nat) {
    match e
    case Local(i) => i < nactvar
    case Upval(_) => true
    case Const(_) => true
    case Not(a) => Supported(a, nactvar) && !EndsInConst(a)
    case And(a, b) => Supported(a, nactvar) && Supported(b, nactvar)
    case Or(a, b) => Supported(a, nactvar) && Supported(b, nactvar)
    case Compare(_, a, b) => Supported(a, nactvar) && Supported(b, nactvar)
    case Arith(_, a, b) => Supported(a, nactvar) && Supported(b, nactvar)
  }

  // r1 agrees with r0 in the first n registers, x excepted.
  ghost predicate Same(r0: Regs, r1: Regs, n: nat, x: nat) {
    forall i :: 0 <= i < n && i < NREGS && i != x ==> r1[i] == r0[i]
  }

  lemma {:induction false} EvalSame(env: Env, e: Expr, m: nat, n: nat, r0: Regs, r1: Regs)
    requires Supported(e, m) && m <= n <= NO_REG && Same(r0, r1, n, NO_REG)
    ensures Eval(env, e, r1) == Eval(env, e, r0)
  {
    match e {
      case Local(_) =>
      case Upval(_) =>
      case Const(_) =>
      case Not(a) =>
        EvalSame(env, a, m, n, r0, r1);
      case _ =>
        EvalSame(env, e.l, m, n, r0, r1);
        EvalSame(env, e.r, m, n, r0, r1);
    }
  }

  // ---------- instructions ----------

  datatype Instr =
    | Move(a: Reg, b: Reg)
    | LoadK(a: Reg, bx: nat)
    | LoadBool(a: Reg, val: bool, skip: bool)
    | GetUpval(a: Reg, u: nat)
    | NotI(a: Reg, b: Reg)
    | ArithI(op: nat, a: Reg, rb: nat, rc: nat)
    | Cmp(cop: CmpOp, cond: bool, rb: nat, rc: nat)
    | Test(a: Reg, c: bool)
    | TestSet(a: Reg, b: Reg, c: bool)
    | Jmp(sbx: int)
    | Return(a: Reg, n: nat)

  // testTMode: the instruction decides whether the jump after it is taken.
  predicate TMode(i: Instr) { i.Cmp? || i.Test? || i.TestSet? }

  function RK(env: Env, r: Regs, x: nat): Value {
    if x < NREGS then r[x] else Konst(env, x - BITRK)
  }

  predicate Taken(env: Env, i: Instr, r: Regs)
    requires TMode(i)
  {
    match i
    case Cmp(op, cond, rb, rc) => env.cmp(op, RK(env, r, rb), RK(env, r, rc)) == cond
    case Test(a, c) => Falsy(r[a]) != c
    case TestSet(_, b, c) => Falsy(r[b]) != c
  }

  // What an instruction with a result puts in its register A.
  predicate HasResult(i: Instr) { i.Move? || i.LoadK? || i.GetUpval? || i.NotI? || i.ArithI? }

  function Result(env: Env, i: Instr, r: Regs): Value
    requires HasResult(i)
  {
    match i
    case Move(_, b) => r[b]
    case LoadK(_, bx) => Konst(env, bx)
    case GetUpval(_, b) => env.up(b)
    case NotI(_, b) => Bool(Falsy(r[b]))
    case ArithI(op, _, rb, rc) => env.arith(op, RK(env, r, rb), RK(env, r, rc))
  }

  type Code = seq<Instr>

  datatype Exec = Next(pc: nat, r: Regs) | Exit(j: nat, r: Regs) | Stuck

  // Taking the jump at j. A jump in `pend' has no target yet: the machine leaves the code there.
  function Goto(code: Code, pend: set<nat>, j: nat, r: Regs, r1: Regs): (m: Exec)
    requires j < |code| && code[j].Jmp?
    ensures m.Next? ==> m.pc > j
  {
    if j in pend then Exit(j, r)
    else if code[j].sbx < 0 then Stuck
    else Next(j + 1 + code[j].sbx, r1)
  }

  // One instruction. (The jump of a test is never executed by itself.)
  function Step(env: Env, code: Code, pend: set<nat>, pc: nat, r: Regs): (m: Exec)
    requires pc < |code|
    ensures m.Next? ==> m.pc > pc
  {
    var i := code[pc];
    if HasResult(i) then Next(pc + 1, r[i.a := Result(env, i, r)])
    else if i.LoadBool? then Next(if i.skip then pc + 2 else pc + 1, r[i.a := Bool(i.val)])
    else if i.Jmp? then
      if pc >= 1 && TMode(code[pc - 1]) then Stuck else Goto(code, pend, pc, r, r)
    else if TMode(i) then
      if pc + 1 < |code| && code[pc + 1].Jmp? then
        if Taken(env, i, r) then Goto(code, pend, pc + 1, r, if i.TestSet? then r[i.a := r[i.b]] else r)
        else Next(pc + 2, r)
      else Stuck
    else Stuck
  }

  datatype Outcome = End(r: Regs) | At(j: nat, r: Regs) | Lost

  /** Runs from pc until `stop' is reached or a pending jump is taken. */
  function Run(env: Env, code: Code, pend: set<nat>, stop: nat, pc: nat, r: Regs): Outcome
    requires stop <= |code|
    decreases stop - pc
  {
    if pc > stop then Lost
    else if pc == stop then End(r)
    else if TMode(code[pc]) && pc + 1 >= stop then Lost
    else
      match Step(env, code, pend, pc, r)
      case Next(p, r1) => Run(env, code, pend, stop, p, r1)
      case Exit(j, r1) => At(j, r1)
      case Stuck => Lost
  }

  // ---------- patching ----------

  predicate IsTestSet(code: Code, j: nat) { 1 <= j <= |code| && code[j - 1].TestSet? }

  function Dest(code: Code, j: nat, vtarget: nat, dtarget: nat): nat {
    if IsTestSet(code, j) then vtarget else dtarget
  }

  // patchtestreg: a test that also copies a value, once it is known where to.
  function PatchTest(i: Instr, reg: nat): Instr
    requires i.TestSet? && reg < NREGS
  {
    if reg != NO_REG && reg != i.b then TestSet(reg, i.b, i.c) else Test(i.b, i.c)
  }

  // The instruction at i after patchlistaux on the jumps in s.
  function PatchedAt(code: Code, s: set<nat>, vtarget: nat, reg: nat, dtarget: nat, i: nat): Instr
    requires i < |code| && reg < NREGS
  {
    if i in s then Jmp(Dest(code, i, vtarget, dtarget) - (i + 1))
    else if i + 1 in s && code[i].TestSet? then PatchTest(code[i], reg)
    else code[i]
  }

  function Patched(code: Code, s: set<nat>, vtarget: nat, reg: nat, dtarget: nat): (c: Code)
    requires reg < NREGS
    ensures |c| == |code|
  {
    seq(|code|, i requires 0 <= i < |code| => PatchedAt(code, s, vtarget, reg, dtarget, i))
  }

  // How code1 at i may differ from code: the jumps in s were patched; those in `pend1' still
  // wait, so their links do not matter nor whether their tests would copy a value.
  predicate Follows(code: Code, code1: Code, pend1: set<nat>, s: set<nat>, vt: nat, reg: nat, dt: nat, i: nat)
    requires i < |code| && i < |code1| && reg < NREGS
  {
    if i in s then code[i].Jmp? && code1[i] == Jmp(Dest(code, i, vt, dt) - (i + 1))
    else if i in pend1 then code1[i].Jmp? && code[i].Jmp?
    else if i + 1 in s && code[i].TestSet? then code1[i] == PatchTest(code[i], reg)
    else code1[i] == code[i]
         || (i + 1 in pend1 && code[i].TestSet? && code1[i] == Test(code[i].b, code[i].c))
  }

  // The registers on arrival at the target of a patched jump.
  function Moved(code: Code, j: nat, reg: nat, r: Regs): Regs
    requires reg < NREGS
  {
    if IsTestSet(code, j) && reg != NO_REG && reg != code[j - 1].b then r[reg := r[code[j - 1].b]] else r
  }

  ghost predicate FollowsAll(code: Code, pend: set<nat>, code1: Code, pend1: set<nat>,
                             s: set<nat>, vt: nat, reg: nat, dt: nat, lo: nat, hi: nat)
    requires reg < NREGS
  {
    && lo <= hi <= |code| && hi <= |code1|
    && (forall i :: lo <= i < hi ==> Follows(code, code1, pend1, s, vt, reg, dt, i))
    && (forall i :: lo <= i < hi ==> (i in pend1 <==> i in pend && i !in s))
    && (forall i :: lo <= i < hi && i in s ==> i in pend && Dest(code, i, vt, dt) > i)
    && (lo > 0 ==> !TMode(code[lo - 1]) && !TMode(code1[lo - 1]))
  }

  /** Patching is continuation: a run of the patched and extended code does what the run of
      the open code did, and goes on from where that one ended or left. */
  lemma {:induction false} RunOn(env: Env, code: Code, pend: set<nat>, code1: Code, pend1: set<nat>,
                                 s: set<nat>, vt: nat, reg: nat, dt: nat, lo: nat, hi: nat,
                                 stop: nat, pc: nat, r: Regs)
    requires reg < NREGS && FollowsAll(code, pend, code1, pend1, s, vt, reg, dt, lo, hi)
    requires lo <= pc <= hi <= stop <= |code1|
    requires Run(env, code, pend, hi, pc, r) != Lost
    ensures var out := Run(env, code, pend, hi, pc, r);
            Run(env, code1, pend1, stop, pc, r) ==
              match out
              case End(r1) => Run(env, code1, pend1, stop, hi, r1)
              case At(j, r1) =>
                if j in s then Run(env, code1, pend1, stop, Dest(code, j, vt, dt), Moved(code, j, reg, r1))
                else At(j, r1)
    ensures var out := Run(env, code, pend, hi, pc, r); out.At? ==> out.j in pend && lo <= out.j < hi
    decreases hi - pc
  {
    if pc < hi {
      StepOn(env, code, pend, code1, pend1, s, vt, reg, dt, lo, hi, pc, r);
      var m := Step(env, code, pend, pc, r);
      if m.Next? {
        RunOn(env, code, pend, code1, pend1, s, vt, reg, dt, lo, hi, stop, m.pc, m.r);
      }
    }
  }

  lemma StepOn(env: Env, code: Code, pend: set<nat>, code1: Code, pend1: set<nat>,
               s: set<nat>, vt: nat, reg: nat, dt: nat, lo: nat, hi: nat, pc: nat, r: Regs)
    requires reg < NREGS && FollowsAll(code, pend, code1, pend1, s, vt, reg, dt, lo, hi)
    requires lo <= pc < hi && !(TMode(code[pc]) && pc + 1 >= hi)
    requires !Step(env, code, pend, pc, r).Stuck?
    ensures var m := Step(env, code, pend, pc, r);
            && TMode(code1[pc]) == TMode(code[pc])
            && (m.Exit? ==> m.j in pend && lo <= m.j < hi)
            && Step(env, code1, pend1, pc, r) ==
               if m.Exit? && m.j in s then Next(Dest(code, m.j, vt, dt), Moved(code, m.j, reg, m.r)) else m
  {
    assert Follows(code, code1, pend1, s, vt, reg, dt, pc);
    if pc > lo {
      assert Follows(code, code1, pend1, s, vt, reg, dt, pc - 1);
    }
    if pc + 1 < hi {
      assert Follows(code, code1, pend1, s, vt, reg, dt, pc + 1);
    }
  }
}
