/** Blocks: the code of one statement after another does what the statements mean. */
module CodeBlock {
  import opened Limits
  import opened CodeSem
  import opened CodeExp
  import opened CodeGood

  datatype Stmt = Assign(v: nat, e: Expr)

  function Exec(env: Env, s: Stmt, r: Regs): Regs {
    if s.v < NREGS then r[s.v := Eval(env, s.e, r)] else r
  }

  /** The meaning of a block of assignments to locals: what it makes of the registers. */
  function ExecAll(env: Env, ss: seq<Stmt>, r: Regs): Regs {
    if ss == [] then r else Exec(env, ss[|ss| - 1], ExecAll(env, ss[..|ss| - 1], r))
  }

  predicate StmtOK(s: Stmt, m: nat) { s.v < m && Supported(s.e, m) }

  // The jumps to the end of the code have landed on the first instruction that was added.
  predicate Extends(code: Code, js: set<nat>, code1: Code) {
    |code| < |code1| && code1[..|code|] == Landed(code, js)
  }

  // Running the code from lo to its old end; the first m registers are the active ones.
  ghost predicate RunsAs(env: Env, ss: seq<Stmt>, code1: Code, lo: nat, stop: nat, m: nat, r: Regs)
    requires stop <= |code1|
  {
    var out := Run(env, code1, {}, stop, lo, r);
    out.End? && Same(ExecAll(env, ss, r), out.r, m, NO_REG)
  }

  /** However the code goes on, it has done what the statements mean when it gets there. */
  ghost predicate Does(ss: seq<Stmt>, code: Code, js: set<nat>, lo: nat, m: nat) {
    forall code1 | Extends(code, js, code1) :: forall env, r :: RunsAs(env, ss, code1, lo, |code|, m, r)
  }

  lemma DoesNothing(code: Code, js: set<nat>, m: nat)
    ensures Does([], code, js, |code|, m)
  {
  }

  // A run reads nothing behind its end.
  lemma {:induction false} SameStart(env: Env, code: Code, code1: Code, stop: nat, pc: nat, r: Regs)
    requires stop <= |code| && stop <= |code1| && code[..stop] == code1[..stop]
    ensures Run(env, code1, {}, stop, pc, r) == Run(env, code, {}, stop, pc, r)
    decreases stop - pc
  {
    if pc < stop {
      assert forall i :: 0 <= i < stop ==> code[i] == code[..stop][i] == code1[..stop][i] == code1[i];
      if !(TMode(code[pc]) && pc + 1 >= stop) {
        StepThere(env, code, code1, stop, pc, r);
        var m := Step(env, code, {}, pc, r);
        if m.Next? {
          SameStart(env, code, code1, stop, m.pc, m.r);
        }
      }
    }
  }

  lemma StepThere(env: Env, code: Code, code1: Code, stop: nat, pc: nat, r: Regs)
    requires pc < stop <= |code| && stop <= |code1| && !(TMode(code[pc]) && pc + 1 >= stop)
    requires forall i :: 0 <= i < stop ==> code[i] == code1[i]
    ensures Step(env, code1, {}, pc, r) == Step(env, code, {}, pc, r)
  {
  }

  // One statement more.
  lemma DoesMore(ss: seq<Stmt>, s: Stmt, code: Code, js: set<nat>, code1: Code, js1: set<nat>, lo: nat, m: nat,
                 i: Instr)
    requires Does(ss, code, js, lo, m) && StmtOK(s, m) && m < MAXSTACK && lo <= |code| && WFCode(code) && WFCode(code1)
    requires Grown(code, js, code1, js1) && |code| <= |code1| && StartOK(code, lo)
    requires forall env, r :: Computes(env, s.e, Emit(code1, js1, i), |code|, |code1|, m, s.v, r)
    ensures Does(ss + [s], code1, js1, lo, m)
  {
    forall code2 | Extends(code1, js1, code2)
      ensures forall env, r :: RunsAs(env, ss + [s], code2, lo, |code1|, m, r)
    {
      GrownExtends(code, js, code1, js1, code2);
      forall env, r ensures RunsAs(env, ss + [s], code2, lo, |code1|, m, r) {
        assert RunsAs(env, ss, code2, lo, |code|, m, r);
        OneMore(env, ss, s, code1, js1, code2, lo, |code|, m, i, r);
      }
    }
  }

  lemma GrownExtends(code: Code, js: set<nat>, code1: Code, js1: set<nat>, code2: Code)
    requires WFCode(code) && Grown(code, js, code1, js1) && |code| <= |code1| && Extends(code1, js1, code2)
    ensures Extends(code, js, code2) && StartOK(code2, |code|)
  {
    if code1 != code || js1 != js {
      LandedStart(code, js, code1);
      assert forall i :: 0 <= i < |code| ==>
                           code2[i] == code2[..|code1|][i] == Landed(code1, js1)[i] == code1[i] == code1[..|code|][i];
      assert code2[..|code|] == code1[..|code|];
    }
    LandedStart(code, js, code2);
  }

  lemma OneMore(env: Env, ss: seq<Stmt>, s: Stmt, code1: Code, js1: set<nat>, code2: Code, lo: nat, mid: nat, m: nat,
                i: Instr, r: Regs)
    requires lo <= mid <= |code1| && StmtOK(s, m) && m < MAXSTACK && Extends(code1, js1, code2)
    requires StartOK(code2, lo)
    requires RunsAs(env, ss, code2, lo, mid, m, r)
    requires forall r :: Computes(env, s.e, Emit(code1, js1, i), mid, |code1|, m, s.v, r)
    ensures RunsAs(env, ss + [s], code2, lo, |code1|, m, r)
  {
    var stop := |code1|;
    var out := Run(env, code2, {}, mid, lo, r);
    var none: set<nat> := {};
    RunFurther(env, code2, none, lo, mid, stop, r);
    assert Computes(env, s.e, Emit(code1, js1, i), mid, stop, m, s.v, out.r);
    assert Emit(code1, js1, i)[..stop] == Landed(code1, js1);
    SameStart(env, Emit(code1, js1, i), code2, stop, mid, out.r);
    var r1 := ExecAll(env, ss, r);
    EvalSame(env, s.e, m, m, r1, out.r);
    assert (ss + [s])[..|ss|] == ss;
    assert ExecAll(env, ss + [s], r) == r1[s.v := Eval(env, s.e, r1)];
    hide Run, Eval, Emit, Landed;
  }

  /** The code from lo to stop leaves in `reg' what the block returns. */
  ghost predicate Returns(env: Env, ss: seq<Stmt>, ret: Expr, code: Code, lo: nat, stop: nat, reg: nat, r: Regs)
    requires stop <= |code|
  {
    var out := Run(env, code, {}, stop, lo, r);
    out.End? && reg < NREGS && out.r[reg] == Eval(env, ret, ExecAll(env, ss, r))
  }

  lemma ThenReturns(ss: seq<Stmt>, ret: Expr, code: Code, js: set<nat>, code1: Code, lo: nat, stop: nat, m: nat,
                    reg: nat)
    requires Does(ss, code, js, lo, m) && Extends(code, js, code1) && m < MAXSTACK && Supported(ret, m)
    requires WFCode(code) && lo <= |code| <= stop <= |code1| && StartOK(code, lo)
    requires forall env, r :: Computes(env, ret, code1, |code|, stop, m, reg, r)
    ensures forall env, r :: Returns(env, ss, ret, code1, lo, stop, reg, r)
  {
    ExtendsStart(code, js, code1, lo);
    var mid, none := |code|, {};
    forall env, r ensures Returns(env, ss, ret, code1, lo, stop, reg, r) {
      assert RunsAs(env, ss, code1, lo, mid, m, r);
      var out := Run(env, code1, none, mid, lo, r);
      RunFurther(env, code1, none, lo, mid, stop, r);
      assert Computes(env, ret, code1, mid, stop, m, reg, out.r);
      EvalSame(env, ret, m, m, ExecAll(env, ss, r), out.r);
    }
  }

  lemma ExtendsStart(code: Code, js: set<nat>, code1: Code, lo: nat)
    requires Extends(code, js, code1) && lo <= |code| && StartOK(code, lo)
    ensures StartOK(code1, lo)
  {
    if lo > 0 {
      assert code1[lo - 1] == code1[..|code|][lo - 1] == Landed(code, js)[lo - 1];
    }
  }

  lemma GrownStart(code: Code, js: set<nat>, code1: Code, js1: set<nat>, lo: nat)
    requires Grown(code, js, code1, js1) && lo <= |code| && StartOK(code, lo)
    ensures StartOK(code1, lo) && |code| <= |code1|
  {
    if code1 != code || js1 != js {
      ExtendsStart(code, js, code1, lo);
    }
  }

  lemma EndIsStart(code: Code)
    requires WFCode(code)
    ensures StartOK(code, |code|)
  {
  }

  lemma EmitExtends(code: Code, js: set<nat>, code1: Code, js1: set<nat>, i: Instr)
    requires WFCode(code) && Grown(code, js, code1, js1)
    ensures Extends(code, js, Emit(code1, js1, i))
  {
    GrownStart(code, js, code1, js1, 0);
    assert Emit(code1, js1, i)[..|code1|] == Landed(code1, js1);
    GrownExtends(code, js, code1, js1, Emit(code1, js1, i));
  }
}
