/** Running the words of emitted code is running the code. */
module CodeWords {
  import opened Basics
  import opened Limits
  import opened Opcodes
  import opened CodeSem
  import opened CodeExp
  import opened CodeBlock
  import opened CodeProto
  import opened VmRun

  lemma ResultWord(env: Env, i: Instr, r: Regs, pc: nat)
    requires Encodable(i) && HasResult(i)
    ensures Execute(env, seq(pc, _ => ZERO) + [Encode(i)], pc, r) == Go(pc + 1, r[i.a := Result(env, i, r)])
  {
    if i.LoadK? {
      WideField(i.bx);
    }
  }

  // Instructions that look at no other word do the same in any code.
  lemma Alone(env: Env, ws: seq<Word>, ws1: seq<Word>, pc: nat, r: Regs)
    requires pc < |ws| && pc < |ws1| && ws[pc] == ws1[pc] && !(23 <= ws[pc].op <= 27)
    ensures Execute(env, ws, pc, r) == Execute(env, ws1, pc, r)
  {
  }

  lemma JumpWord(pc: nat, sbx: int, r: Regs)
    requires -131071 <= sbx <= 131071
    ensures Jump(pc, Encode(Jmp(sbx)), r) == if pc + sbx < 0 then Fault else Go(pc + sbx, r)
  {
    WideField(sbx + 131071);
  }

  lemma TestWord(env: Env, code: Code, pc: nat, r: Regs)
    requires AllEncodable(code) && pc + 1 < |code| && TMode(code[pc]) && code[pc + 1].Jmp?
    ensures var i := code[pc];
            Execute(env, Words(code), pc, r) ==
            if Taken(env, i, r) then Jump(pc + 2, Encode(code[pc + 1]), if i.TestSet? then r[i.a := r[i.b]] else r)
            else Go(pc + 2, r)
  {
    var ws := Words(code);
    assert ws[pc] == Encode(code[pc]) && ws[pc + 1] == Encode(code[pc + 1]);
    hide Words, Jump;
  }

  /** A step of the code is the step of the interpreter on its words. */
  lemma StepWord(env: Env, code: Code, pc: nat, r: Regs)
    requires AllEncodable(code) && pc < |code| && Step(env, code, {}, pc, r).Next?
    ensures var m := Step(env, code, {}, pc, r);
            Execute(env, Words(code), pc, r) == Go(m.pc, m.r)
  {
    var i, ws := code[pc], Words(code);
    assert ws[pc] == Encode(i);
    if HasResult(i) {
      ResultWord(env, i, r, pc);
      ResultOp(i);
      Alone(env, ws, seq(pc, _ => ZERO) + [Encode(i)], pc, r);
      hide Execute;
    } else if i.LoadBool? {
      assert Encode(i) == ABC(2, i.a, Flag(i.val), Flag(i.skip));
    } else if i.Jmp? {
      JumpWord(pc + 1, i.sbx, r);
      hide Jump;
    } else {
      assert TMode(i);
      TestWord(env, code, pc, r);
      JumpWord(pc + 2, code[pc + 1].sbx, if i.TestSet? then r[i.a := r[i.b]] else r);
      hide Execute, Jump;
    }
  }

  lemma ResultOp(i: Instr)
    requires Encodable(i) && HasResult(i)
    ensures !(23 <= Encode(i).op <= 27)
  {
  }

  /** Code that runs to a return is a function that returns that value. */
  lemma {:induction false} RunWords(env: Env, code: Code, stop: nat, first: Reg, pc: nat, r: Regs, steps: nat)
    requires AllEncodable(code) && pc <= stop < |code| && code[stop] == Return(first, 2) && stop - pc < steps
    requires Run(env, code, {}, stop, pc, r).End?
    ensures Call(env, Words(code), pc, r, steps) == Some([Run(env, code, {}, stop, pc, r).r[first]])
    decreases stop - pc
  {
    var ws := Words(code);
    if pc == stop {
      assert ws[pc] == Encode(Return(first, 2)) && r[first..first + 1] == [r[first]];
    } else {
      StepWord(env, code, pc, r);
      var m := Step(env, code, {}, pc, r);
      hide Execute, Words;
      RunWords(env, code, stop, first, m.pc, m.r, steps - 1);
    }
  }

  /** The words of a block that is closed with a final return. */
  lemma BlockWords(env: Env, ss: seq<Stmt>, ret: Expr, code: Code, last: Instr, stop: nat, first: Reg, r: Regs)
    requires AllEncodable(code + [last]) && stop < |code| && code[stop] == Return(first, 2)
    requires Returns(env, ss, ret, code, 0, stop, first, r)
    ensures Call(env, Words(code + [last]), 0, r, |code| + 1) == Some([Eval(env, ret, ExecAll(env, ss, r))])
  {
    hide Call, Run, Words, Eval, ExecAll, Encodable;
    var code1 := code + [last];
    assert code1[..stop] == code[..stop] && code1[stop] == code[stop];
    SameStart(env, code, code1, stop, 0, r);
    RunWords(env, code1, stop, first, 0, r, |code| + 1);
  }
}
