/** From the code generator to the bytecode checker: code whose jumps are all resolved, encoded as
    words and closed with a final return, is what the checker accepts. */
module CodeProto {
  import opened Basics
  import opened Limits
  import opened Opcodes
  import opened Protos
  import opened Checker
  import opened CodeSem
  import opened CodeExp
  import opened CodeFits
  import VmSafety

  // ---------- encoding ----------

  // Every field of the word is wide enough.
  predicate Encodable(i: Instr) {
    match i
    case LoadK(_, bx) => bx <= MAXARG_BX
    case GetUpval(_, u) => u < 512
    case ArithI(op, _, rb, rc) => op < 6 && rb < 512 && rc < 512
    case Cmp(_, _, rb, rc) => rb < 512 && rc < 512
    case Jmp(sbx) => -MAXARG_SBX <= sbx <= MAXARG_SBX
    case Return(_, n) => n < 512
    case _ => true
  }

  function ABC(op: nat, a: nat, b: nat, c: nat): Word
    requires op < 64 && a < 256 && b < 512 && c < 512
  {
    Fields(op, a, c, b)
  }

  function ABx(op: nat, a: nat, bx: nat): Word
    requires op < 64 && a < 256 && bx <= MAXARG_BX
  {
    Fields(op, a, bx % 512, bx / 512)
  }

  function Flag(b: bool): nat { if b then 1 else 0 }

  function CompareOp(op: CmpOp): nat {
    match op
    case EQ => OP_EQ
    case LT => OP_LT
    case LE => OP_LE
  }

  function Encode(i: Instr): Word
    requires Encodable(i)
  {
    match i
    case Move(a, b) => ABC(OP_MOVE, a, b, 0)
    case LoadK(a, bx) => ABx(OP_LOADK, a, bx)
    case LoadBool(a, val, skip) => ABC(OP_LOADBOOL, a, Flag(val), Flag(skip))
    case GetUpval(a, u) => ABC(OP_GETUPVAL, a, u, 0)
    case NotI(a, b) => ABC(OP_NOT, a, b, 0)
    case ArithI(op, a, rb, rc) => ABC(OP_ADD + op, a, rb, rc)
    case Cmp(op, cond, rb, rc) => ABC(CompareOp(op), Flag(cond), rb, rc)
    case Test(a, c) => ABC(OP_TEST, a, 0, Flag(c))
    case TestSet(a, b, c) => ABC(OP_TESTSET, a, b, Flag(c))
    case Jmp(sbx) => ABx(OP_JMP, 0, sbx + MAXARG_SBX)
    case Return(a, n) => ABC(OP_RETURN, a, n, 0)
  }

  predicate AllEncodable(code: Code) { forall i :: 0 <= i < |code| ==> Encodable(code[i]) }

  function Words(code: Code): (ws: seq<Word>)
    requires AllEncodable(code)
    ensures |ws| == |code|
  {
    seq(|code|, i requires 0 <= i < |code| => Encode(code[i]))
  }

  // Both fields of a jump are read back.
  lemma WideField(bx: nat)
    requires bx <= MAXARG_BX
    ensures GetBx(ABx(OP_JMP, 0, bx)) == bx && GetBx(ABx(OP_LOADK, 0, bx)) == bx
  {
  }

  // ---------- what the checker finds ----------

  // What the checker asks of the instruction at pc, in terms of the instruction.
  ghost predicate IsSound(code: Code, mx: nat, nk: nat, nu: nat, pc: nat)
    requires pc < |code|
  {
    && InstrNamed(code[pc], mx, nk, nu) && Encodable(code[pc])
    && match code[pc]
       case Jmp(sbx) => 0 <= pc + 1 + sbx < |code|
       case TestSet(a, _, _) => a != NO_REG && pc + 2 < |code| && code[pc + 1].Jmp?
       case Test(_, _) => pc + 2 < |code| && code[pc + 1].Jmp?
       case Cmp(_, _, _, _) => pc + 2 < |code| && code[pc + 1].Jmp?
       case LoadBool(_, _, skip) => skip ==> pc + 2 < |code|
       case _ => true
  }

  // The prototype that holds the words of the code.
  ghost predicate IsProtoOf(pt: Proto, code: Code, mx: nat, nk: nat, nu: nat) {
    && AllEncodable(code) && pt.code == Words(code)
    && pt.maxstacksize == mx <= MAXSTACK && |pt.k| == nk && pt.nups == nu
  }

  lemma NoSetList(pt: Proto, code: Code, mx: nat, nk: nat, nu: nat)
    requires IsProtoOf(pt, code, mx, nk, nu)
    ensures forall pc :: 0 <= pc < |code| ==> !TakesCount(pt.code[pc]) && IsInstr(pt.code, pc)
  {
    forall pc | 0 <= pc < |code| ensures !TakesCount(pt.code[pc]) {
      assert pt.code[pc] == Encode(code[pc]);
    }
  }

  lemma ModesOf(i: Instr)
    requires Encodable(i)
    ensures var w := Encode(i);
            w.op < NUM_OPCODES && OPMODES[w.op] ==
              match i
              case Move(_, _) => OpInfo(false, true, ArgR, ArgN, IABC)
              case LoadK(_, _) => OpInfo(false, true, ArgK, ArgN, IABx)
              case LoadBool(_, _, _) => OpInfo(false, true, ArgU, ArgU, IABC)
              case GetUpval(_, _) => OpInfo(false, true, ArgU, ArgN, IABC)
              case NotI(_, _) => OpInfo(false, true, ArgR, ArgN, IABC)
              case ArithI(_, _, _, _) => OpInfo(false, true, ArgK, ArgK, IABC)
              case Cmp(_, _, _, _) => OpInfo(true, false, ArgK, ArgK, IABC)
              case Test(_, _) => OpInfo(true, true, ArgR, ArgU, IABC)
              case TestSet(_, _, _) => OpInfo(true, true, ArgR, ArgU, IABC)
              case Jmp(_) => OpInfo(false, false, ArgR, ArgN, IAsBx)
              case Return(_, _) => OpInfo(false, false, ArgU, ArgN, IABC)
  {
  }

  lemma InstrAccepted(pt: Proto, code: Code, mx: nat, nk: nat, nu: nat, pc: nat)
    requires IsProtoOf(pt, code, mx, nk, nu) && pc < |code| && IsSound(code, mx, nk, nu, pc) && 2 <= mx
    ensures InstrOK(pt, pc) && VmSafety.BoolSkipOK(pt, pc)
  {
    var i := code[pc];
    var w := pt.code[pc];
    assert w == Encode(i);
    ModesOf(i);
    NoSetList(pt, code, mx, nk, nu);
    hide IsInstr;
    if i.Jmp? {
      WideField(i.sbx + MAXARG_SBX);
    } else if i.LoadK? {
      WideField(i.bx);
    } else if TMode(i) {
      assert pt.code[pc + 1] == Encode(code[pc + 1]);
    }
  }

  // ---------- the whole function ----------

  // What a function state has when no jump is pending any more.
  ghost predicate IsFinished(code: Code, mx: nat, nk: nat, nu: nat) {
    && WFCode(code) && Named(code, mx, nk, nu) && AllResolved(code, {}, 0)
    && 2 <= mx <= MAXSTACK && nk <= MAXARG_BX && nu < 256
  }

  lemma NamedEncodable(i: Instr, mx: nat, nk: nat, nu: nat)
    requires InstrNamed(i, mx, nk, nu) && mx <= MAXSTACK && nk <= MAXARG_BX && nu < 256
    ensures Encodable(i)
  {
  }

  // With one more instruction every jump and every skip has somewhere to go.
  lemma ClosedIsSound(code: Code, mx: nat, nk: nat, nu: nat, last: Instr)
    requires IsFinished(code, mx, nk, nu) && last.Return? && InstrNamed(last, mx, nk, nu)
    ensures AllEncodable(code + [last])
    ensures forall pc :: 0 <= pc < |code| + 1 ==> IsSound(code + [last], mx, nk, nu, pc)
  {
    var code1 := code + [last];
    forall pc | 0 <= pc < |code1| ensures Encodable(code1[pc]) && IsSound(code1, mx, nk, nu, pc) {
      NamedEncodable(code1[pc], mx, nk, nu);
      if pc < |code| {
        assert code1[pc] == code[pc] && Resolved(code, {}, pc);
        if TMode(code[pc]) {
          assert code1[pc + 1] == code[pc + 1];
        }
      }
    }
  }

  // The parts of a prototype that do not come from the code generator.
  predicate HeaderOK(pt: Proto) {
    && pt.numparams + (if HasArg(pt) then 1 else 0) <= pt.maxstacksize
    && (NeedsArg(pt) ==> HasArg(pt))
    && |pt.upvalues| <= pt.nups
    && (|pt.lineinfo| == |pt.code| || |pt.lineinfo| == 0)
  }

  /** The checker accepts what the code generator emits, and every run of it stays inside. */
  lemma FinishedIsAccepted(pt: Proto, code: Code, mx: nat, nk: nat, nu: nat, last: Instr)
    requires IsFinished(code, mx, nk, nu) && last.Return? && InstrNamed(last, mx, nk, nu)
    requires IsProtoOf(pt, code + [last], mx, nk, nu) && HeaderOK(pt)
    ensures Accepted(pt)
    ensures forall run :: VmSafety.IsRun(pt, run) ==> VmSafety.RunSafe(pt, run)
  {
    var code1 := code + [last];
    ClosedIsSound(code, mx, nk, nu, last);
    forall pc | 0 <= pc < |pt.code| ensures InstrOK(pt, pc) && VmSafety.BoolSkipOK(pt, pc) {
      InstrAccepted(pt, code1, mx, nk, nu, pc);
    }
    assert pt.code[|pt.code| - 1] == Encode(last);
    ModesOf(last);
    hide IsFinished, IsProtoOf, InstrOK, VmSafety.BoolSkipOK, VmSafety.IsRun, VmSafety.RunSafe;
    forall run | VmSafety.IsRun(pt, run) ensures VmSafety.RunSafe(pt, run) {
      VmSafety.RunsStayInside(pt, run);
    }
  }
}
