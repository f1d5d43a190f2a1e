/** The bytecode checker (ldebug.c): a symbolic scan over the code. It is proved to accept
    exactly the prototypes that meet a declarative condition. */
module Checker {
  import opened Basics
  import opened Limits
  import opened Opcodes
  import opened Protos

  // ---------- which words are instructions ----------

  // A SETLIST whose C is 0 keeps its real C in the following word.
  predicate TakesCount(w: Word) { w.op == OP_SETLIST && w.c == 0 }

  // The word at pc is an instruction, and not the count word of a SETLIST before it.
  predicate IsInstr(code: seq<Word>, pc: nat)
    requires pc <= |code|
  {
    pc == 0 || !(IsInstr(code, pc - 1) && TakesCount(code[pc - 1]))
  }

  predicate JumpOK(code: seq<Word>, dest: int) {
    0 <= dest < |code| && IsInstr(code, dest)
  }

  // ---------- what the checker demands ----------

  predicate Precheck(pt: Proto) {
    && pt.maxstacksize <= MAXSTACK
    && pt.numparams + (if HasArg(pt) then 1 else 0) <= pt.maxstacksize
    && (NeedsArg(pt) ==> HasArg(pt))
    && |pt.upvalues| <= pt.nups
    && (|pt.lineinfo| == |pt.code| || |pt.lineinfo| == 0)
    && |pt.code| > 0
    && pt.code[|pt.code| - 1].op == OP_RETURN
  }

  predicate RegOK(pt: Proto, r: int) { r < pt.maxstacksize }

  predicate ArgOK(pt: Proto, r: nat, mode: ArgMode) {
    match mode
    case ArgN => r == 0
    case ArgU => true
    case ArgR => RegOK(pt, r)
    case ArgK => if IsK(r) then IndexK(r) < |pt.k| else RegOK(pt, r)
  }

  // An open call or vararg must be followed by an instruction that consumes `top'.
  predicate OpenOpOK(w: Word) {
    w.op in {OP_CALL, OP_TAILCALL, OP_RETURN, OP_SETLIST} && w.b == 0
  }

  predicate FormatOK(pt: Proto, pc: nat)
    requires pc < |pt.code|
  {
    var w := pt.code[pc];
    && w.op < NUM_OPCODES
    && RegOK(pt, w.a)
    && var info := OPMODES[w.op];
       match info.mode {
         case IABC => ArgOK(pt, w.b, info.b) && ArgOK(pt, w.c, info.c)
         case IABx => info.b == ArgK ==> GetBx(w) < |pt.k|
         case IAsBx => info.b == ArgR ==> JumpOK(pt.code, pc + 1 + GetSBx(w))
       }
  }

  predicate SkipOK(pt: Proto, pc: nat)
    requires pc < |pt.code|
  {
    pc + 2 < |pt.code| && !TakesCount(pt.code[pc + 1])
  }

  predicate OperandsOK(pt: Proto, pc: nat)
    requires pc < |pt.code| && FormatOK(pt, pc)
  {
    var w := pt.code[pc];
    var op, a, b, c, bx := w.op, w.a, w.b, w.c, GetBx(w);
    && (OPMODES[op].isTest ==> pc + 2 < |pt.code| && pt.code[pc + 1].op == OP_JMP)
    && (op == OP_LOADBOOL && c == 1 ==> SkipOK(pt, pc))
    && (op in {OP_GETUPVAL, OP_SETUPVAL} ==> b < pt.nups)
    && (op in {OP_GETGLOBAL, OP_SETGLOBAL} ==> bx < |pt.k| && pt.k[bx].KString?)
    && (op == OP_SELF ==> RegOK(pt, a + 1))
    && (op == OP_CONCAT ==> b < c)
    && (op == OP_TFORLOOP ==> c >= 1 && RegOK(pt, a + 2 + c))
    && (op in {OP_FORLOOP, OP_FORPREP} ==> RegOK(pt, a + 3))
    && (op in {OP_CALL, OP_TAILCALL} ==>
          && (b != 0 ==> RegOK(pt, a + b - 1))
          && (c == 0 ==> pc + 1 < |pt.code| && OpenOpOK(pt.code[pc + 1]))
          && (c > 1 ==> RegOK(pt, a + c - 2)))
    && (op == OP_RETURN && b > 1 ==> RegOK(pt, a + b - 2))
    && (op == OP_SETLIST ==>
          && (b > 0 ==> RegOK(pt, a + b))
          && (c == 0 ==> pc + 1 < |pt.code| - 1))
    && (op == OP_CLOSURE ==> ClosureOK(pt, pc))
    && (op == OP_VARARG ==>
          && IsVarArg(pt) && !NeedsArg(pt)
          && (b == 0 ==> pc + 1 < |pt.code| && OpenOpOK(pt.code[pc + 1]))
          && RegOK(pt, a + b - 2))
  }

  // A CLOSURE names an existing child and is followed by one MOVE or GETUPVAL per upvalue.
  predicate ClosureOK(pt: Proto, pc: nat)
    requires pc < |pt.code|
  {
    var bx := GetBx(pt.code[pc]);
    && bx < |pt.p|
    && pc + pt.p[bx].nups < |pt.code|
    && forall q :: pc < q <= pc + pt.p[bx].nups ==> IsCapture(pt.code[q])
  }

  predicate IsCapture(w: Word) { w.op == OP_GETUPVAL || w.op == OP_MOVE }

  predicate InstrOK(pt: Proto, pc: nat)
    requires pc < |pt.code|
  {
    FormatOK(pt, pc) && OperandsOK(pt, pc)
  }

  // The prototypes the checker is meant to accept.
  ghost predicate Accepted(pt: Proto) {
    && Precheck(pt)
    && forall pc :: 0 <= pc < |pt.code| && IsInstr(pt.code, pc) ==> InstrOK(pt, pc)
  }

  // ---------- the checker ----------

  /** The backwards scan that tells whether `dest' is a count word: it counts how many
      SETLIST look-alikes stand directly before it. */
  method CheckDest(code: seq<Word>, dest: int) returns (ok: bool)
    ensures ok <==> JumpOK(code, dest)
  {
    if !(0 <= dest < |code|) {
      return false;
    }
    var j := 0;
    while j < dest && TakesCount(code[dest - 1 - j])
      invariant 0 <= j <= dest
      invariant IsInstr(code, dest) <==> (IsInstr(code, dest - j) <==> j % 2 == 0)
    {
      j := j + 1;
    }
    return j % 2 == 0;
  }

  method CheckClosure(pt: Proto, pc: nat) returns (ok: bool)
    requires pc < |pt.code|
    ensures ok <==> ClosureOK(pt, pc)
  {
    var bx := GetBx(pt.code[pc]);
    if !(bx < |pt.p|) {
      return false;
    }
    var nup: nat := pt.p[bx].nups;
    if !(pc + nup < |pt.code|) {
      return false;
    }
    for j := 1 to nup + 1
      invariant forall q :: pc < q < pc + j ==> IsCapture(pt.code[q])
    {
      if !IsCapture(pt.code[pc + j]) {
        return false;
      }
    }
    return true;
  }

  method CheckFormat(pt: Proto, pc: nat) returns (ok: bool)
    requires pc < |pt.code|
    ensures ok <==> FormatOK(pt, pc)
  {
    var w := pt.code[pc];
    if !(w.op < NUM_OPCODES && RegOK(pt, w.a)) {
      return false;
    }
    var info := OPMODES[w.op];
    match info.mode {
      case IABC =>
        return ArgOK(pt, w.b, info.b) && ArgOK(pt, w.c, info.c);
      case IABx =>
        return info.b != ArgK || GetBx(w) < |pt.k|;
      case IAsBx =>
        if info.b != ArgR {
          return true;
        }
        ok := CheckDest(pt.code, pc + 1 + GetSBx(w));
    }
  }

  /** One turn of the checking loop: the demands on the instruction at `pc' alone. */
  method CheckInstr(pt: Proto, pc: nat) returns (ok: bool)
    requires pc < |pt.code|
    ensures ok <==> InstrOK(pt, pc)
  {
    ok := CheckFormat(pt, pc);
    if !ok {
      return false;
    }
    var w := pt.code[pc];
    var op, a, b, c, bx := w.op, w.a, w.b, w.c, GetBx(w);
    if OPMODES[op].isTest {
      if !(pc + 2 < |pt.code| && pt.code[pc + 1].op == OP_JMP) {
        return false;
      }
    }
    if op == OP_LOADBOOL {
      return c == 1 ==> SkipOK(pt, pc);
    } else if op == OP_GETUPVAL || op == OP_SETUPVAL {
      return b < pt.nups;
    } else if op == OP_GETGLOBAL || op == OP_SETGLOBAL {
      return pt.k[bx].KString?;
    } else if op == OP_SELF {
      return RegOK(pt, a + 1);
    } else if op == OP_CONCAT {
      return b < c;
    } else if op == OP_TFORLOOP {
      return c >= 1 && RegOK(pt, a + 2 + c);
    } else if op == OP_FORLOOP || op == OP_FORPREP {
      return RegOK(pt, a + 3);
    } else if op == OP_CALL || op == OP_TAILCALL {
      if b != 0 && !RegOK(pt, a + b - 1) {
        return false;
      }
      var results := c - 1;
      if results == -1 {
        return pc + 1 < |pt.code| && OpenOpOK(pt.code[pc + 1]);
      }
      return results == 0 || RegOK(pt, a + results - 1);
    } else if op == OP_RETURN {
      return b - 1 <= 0 || RegOK(pt, a + b - 2);
    } else if op == OP_SETLIST {
      if b > 0 && !RegOK(pt, a + b) {
        return false;
      }
      return c != 0 || pc + 1 < |pt.code| - 1;
    } else if op == OP_CLOSURE {
      ok := CheckClosure(pt, pc);
    } else if op == OP_VARARG {
      if !(IsVarArg(pt) && !NeedsArg(pt)) {
        return false;
      }
      if b == 0 && !(pc + 1 < |pt.code| && OpenOpOK(pt.code[pc + 1])) {
        return false;
      }
      return RegOK(pt, a + b - 2);
    }
  }

  /** The symbolic scan. It looks at every instruction before `lastpc' and remembers the
      last one that changed `reg'; with `reg' a register it also follows forward jumps.
      None stands for the zero word that the source returns on a failed check. */
  method SymbExec(pt: Proto, lastpc: nat, reg: nat) returns (r: Option<Word>)
    requires lastpc <= |pt.code|
    ensures r.Some? ==> Precheck(pt) && r.value in pt.code
    ensures reg == NO_REG && lastpc == |pt.code| ==> (r.Some? <==> Accepted(pt))
    ensures reg == NO_REG && r.Some? ==> r.value != ZERO
  {
    if !Precheck(pt) {
      return None;
    }
    var last: nat := |pt.code| - 1;
    var pc: nat := 0;
    while pc < lastpc
      invariant last < |pt.code| && pc <= |pt.code|
      invariant reg == NO_REG ==> IsInstr(pt.code, pc) && pt.code[last] != ZERO
      invariant reg == NO_REG ==> forall q :: 0 <= q < pc && IsInstr(pt.code, q) ==> InstrOK(pt, q)
      decreases |pt.code| - pc
    {
      var ok := CheckInstr(pt, pc);
      if !ok {
        return None;
      }
      var w := pt.code[pc];
      var op, a, b, c := w.op, w.a, w.b, w.c;
      if OPMODES[op].setsA && a == reg {
        last := pc;
      }
      if op == OP_LOADNIL && a <= reg <= b {
        last := pc;
      }
      if op == OP_SELF && reg == a + 1 {
        last := pc;
      }
      if op == OP_TFORLOOP && reg >= a + 2 {
        last := pc;
      }
      if (op == OP_CALL || op == OP_TAILCALL) && reg >= a {
        last := pc;
      }
      if op == OP_JMP || op == OP_FORLOOP || op == OP_FORPREP {
        var dest := pc + 1 + GetSBx(w);
        if reg != NO_REG && pc < dest <= lastpc {
          pc := dest - 1;
        }
      } else if op == OP_SETLIST && c == 0 {
        pc := pc + 1;
      } else if op == OP_CLOSURE && reg != NO_REG {
        pc := pc + pt.p[GetBx(w)].nups;
      }
      pc := pc + 1;
    }
    return Some(pt.code[last]);
  }

  method CheckCode(pt: Proto) returns (ok: bool)
    ensures ok <==> Accepted(pt)
  {
    var r := SymbExec(pt, |pt.code|, NO_REG);
    return r.Some? && r.value != ZERO;
  }
}
