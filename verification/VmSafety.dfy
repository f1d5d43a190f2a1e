/** What one step of the virtual machine (lvm.c) may do to the program counter and which
    registers, constants, upvalues and child prototypes it decodes; and the theorem that
    checked code keeps every run inside the code. */
module VmSafety {
  import opened Basics
  import opened Opcodes
  import opened Protos
  import opened Checker

  // ---------- one step of the interpreter loop ----------

  // `pc' is the position of the instruction, `next' the position fetched after it. Calls
  // come back to the following instruction and RETURN has no successor in this activation.
  predicate Steps(pt: Proto, pc: nat, next: int)
    requires pc < |pt.code|
  {
    var w := pt.code[pc];
    var op := w.op;
    if op == OP_LOADBOOL then
      next == if w.c != 0 then pc + 2 else pc + 1
    else if op == OP_JMP || op == OP_FORPREP then
      next == pc + 1 + GetSBx(w)
    else if op == OP_FORLOOP then
      next == pc + 1 || next == pc + 1 + GetSBx(w)
    else if op in {OP_EQ, OP_LT, OP_LE, OP_TEST, OP_TESTSET, OP_TFORLOOP} then
      next == pc + 2 || (pc + 1 < |pt.code| && next == pc + 2 + GetSBx(pt.code[pc + 1]))
    else if op == OP_SETLIST then
      next == if w.c == 0 then pc + 2 else pc + 1
    else if op == OP_CLOSURE then
      GetBx(w) < |pt.p| && next == pc + 1 + pt.p[GetBx(w)].nups
    else if op == OP_RETURN then
      false
    else
      next == pc + 1
  }

  // Words after the instruction that the step itself reads.
  predicate ReadsWord(pt: Proto, pc: nat, q: int)
    requires pc < |pt.code|
  {
    var w := pt.code[pc];
    var op := w.op;
    if op in {OP_EQ, OP_LT, OP_LE, OP_TEST, OP_TESTSET, OP_TFORLOOP} then q == pc + 1
    else if op == OP_SETLIST && w.c == 0 then q == pc + 1
    else if op == OP_CLOSURE && GetBx(w) < |pt.p| then pc < q <= pc + pt.p[GetBx(w)].nups
    else false
  }

  predicate IsRK(op: nat) {
    OP_ADD <= op <= OP_POW || OP_EQ <= op <= OP_LE
  }

  // Register `r' is read or written by the step. The scratch slots of the call that
  // TFORLOOP sets up are not counted: they lie above the frame's registers by design.
  predicate UsesReg(pt: Proto, pc: nat, r: int)
    requires pc < |pt.code|
  {
    var w := pt.code[pc];
    var op, a, b, c := w.op, w.a, w.b, w.c;
    var atA := r == a;
    var atB := r == b;
    var rkB := !IsK(b) && r == b;
    var rkC := !IsK(c) && r == c;
    if op in {OP_MOVE, OP_UNM, OP_NOT, OP_LEN, OP_TESTSET} then atA || atB
    else if op in {OP_LOADK, OP_LOADBOOL, OP_GETUPVAL, OP_GETGLOBAL, OP_SETGLOBAL,
                   OP_SETUPVAL, OP_NEWTABLE, OP_TEST, OP_CLOSE} then atA
    else if op == OP_LOADNIL then atB || a <= r <= b
    else if op == OP_GETTABLE then atA || atB || rkC
    else if op == OP_SETTABLE then atA || rkB || rkC
    else if op == OP_SELF then atA || r == a + 1 || atB || rkC
    else if OP_ADD <= op <= OP_POW then atA || rkB || rkC
    else if op == OP_CONCAT then atA || b <= r <= c
    else if OP_EQ <= op <= OP_LE then rkB || rkC
    else if op in {OP_CALL, OP_TAILCALL} then atA || a <= r < a + b || a <= r < a + c - 1
    else if op == OP_RETURN then a <= r < a + b - 1
    else if op == OP_FORLOOP then a <= r <= a + 3
    else if op == OP_FORPREP then a <= r <= a + 2
    else if op == OP_TFORLOOP then a <= r <= a + 2 + c
    else if op == OP_SETLIST then a <= r <= a + b
    else if op == OP_CLOSURE then
      || atA
      || exists q :: pc < q < |pt.code| && ReadsWord(pt, pc, q)
                     && pt.code[q].op == OP_MOVE && r == pt.code[q].b
    else if op == OP_VARARG then a <= r < a + b - 1
    else false
  }

  predicate UsesConst(pt: Proto, pc: nat, i: int)
    requires pc < |pt.code|
  {
    var w := pt.code[pc];
    var op, b, c := w.op, w.b, w.c;
    var kB := IsK(b) && i == IndexK(b);
    var kC := IsK(c) && i == IndexK(c);
    if op in {OP_LOADK, OP_GETGLOBAL, OP_SETGLOBAL} then i == GetBx(w)
    else if op in {OP_GETTABLE, OP_SELF} then kC
    else if op == OP_SETTABLE || IsRK(op) then kB || kC
    else false
  }

  predicate UsesUpval(pt: Proto, pc: nat, u: int)
    requires pc < |pt.code|
  {
    var w := pt.code[pc];
    if w.op in {OP_GETUPVAL, OP_SETUPVAL} then u == w.b
    else if w.op == OP_CLOSURE then
      exists q :: pc < q < |pt.code| && ReadsWord(pt, pc, q)
                  && pt.code[q].op == OP_GETUPVAL && u == pt.code[q].b
    else false
  }

  // ---------- what a safe step is ----------

  ghost predicate StaysInside(pt: Proto, pc: nat)
    requires pc < |pt.code|
  {
    && (forall q :: ReadsWord(pt, pc, q) ==> 0 <= q < |pt.code|)
    && (forall next :: Steps(pt, pc, next) ==> JumpOK(pt.code, next))
  }

  ghost predicate DecodesInRange(pt: Proto, pc: nat)
    requires pc < |pt.code|
  {
    && (forall r :: UsesReg(pt, pc, r) ==> 0 <= r < pt.maxstacksize)
    && (forall i :: UsesConst(pt, pc, i) ==> 0 <= i < |pt.k|)
    && (forall u :: UsesUpval(pt, pc, u) ==> 0 <= u < pt.nups)
    && (pt.code[pc].op == OP_CLOSURE ==> GetBx(pt.code[pc]) < |pt.p|)
    && (pt.code[pc].op in {OP_GETGLOBAL, OP_SETGLOBAL} ==>
          GetBx(pt.code[pc]) < |pt.k| && pt.k[GetBx(pt.code[pc])].KString?)
  }

  ghost predicate StepSafe(pt: Proto, pc: nat)
    requires pc < |pt.code|
  {
    pt.code[pc].op < NUM_OPCODES && StaysInside(pt, pc) && DecodesInRange(pt, pc)
  }

  // The skip of a LOADBOOL that the checker overlooks: it tests C == 1 where the
  // interpreter skips on every C other than 0.
  predicate BoolSkipOK(pt: Proto, pc: nat)
    requires pc < |pt.code|
  {
    pt.code[pc].op == OP_LOADBOOL && pt.code[pc].c > 1 ==> SkipOK(pt, pc)
  }

  // ---------- one step ----------

  lemma NotLast(pt: Proto, pc: nat)
    requires Accepted(pt) && pc < |pt.code| && IsInstr(pt.code, pc)
    requires pt.code[pc].op != OP_RETURN
    ensures pc + 1 < |pt.code|
    ensures !TakesCount(pt.code[pc]) ==> IsInstr(pt.code, pc + 1)
    ensures TakesCount(pt.code[pc]) ==> pc + 2 < |pt.code| && IsInstr(pt.code, pc + 2)
  {
    assert InstrOK(pt, pc);
  }

  lemma ClosureEnd(pt: Proto, pc: nat, n: nat)
    requires Accepted(pt) && pc < |pt.code| && IsInstr(pt.code, pc)
    requires pt.code[pc].op == OP_CLOSURE && n <= pt.p[GetBx(pt.code[pc])].nups
    ensures JumpOK(pt.code, pc + n + 1)
    ensures IsInstr(pt.code, pc + n) && InstrOK(pt, pc + n)
  {
    assert InstrOK(pt, pc);
    if n > 0 {
      ClosureEnd(pt, pc, n - 1);
      assert IsCapture(pt.code[pc + n]);
    }
    NotLast(pt, pc + n);
  }

  lemma JumpTargetOK(pt: Proto, pc: nat)
    requires Accepted(pt) && pc < |pt.code| && IsInstr(pt.code, pc)
    requires pt.code[pc].op in {OP_JMP, OP_FORLOOP, OP_FORPREP}
    ensures JumpOK(pt.code, pc + 1 + GetSBx(pt.code[pc]))
  {
    assert FormatOK(pt, pc);
  }

  lemma TestHasJump(pt: Proto, pc: nat)
    requires Accepted(pt) && pc < |pt.code| && IsInstr(pt.code, pc)
    requires pt.code[pc].op in {OP_EQ, OP_LT, OP_LE, OP_TEST, OP_TESTSET, OP_TFORLOOP}
    ensures pc + 2 < |pt.code| && pt.code[pc + 1].op == OP_JMP
  {
    assert OperandsOK(pt, pc);
    assert OPMODES[pt.code[pc].op].isTest;
  }

  lemma TestIsFollowedByJump(pt: Proto, pc: nat)
    requires Accepted(pt) && pc < |pt.code| && IsInstr(pt.code, pc)
    requires pt.code[pc].op in {OP_EQ, OP_LT, OP_LE, OP_TEST, OP_TESTSET, OP_TFORLOOP}
    ensures pc + 1 < |pt.code|
    ensures JumpOK(pt.code, pc + 2) && JumpOK(pt.code, pc + 2 + GetSBx(pt.code[pc + 1]))
  {
    hide Accepted, InstrOK, FormatOK, OperandsOK;
    TestHasJump(pt, pc);
    NotLast(pt, pc);
    JumpTargetOK(pt, pc + 1);
    NotLast(pt, pc + 1);
  }

  lemma BoolNext(pt: Proto, pc: nat, next: int)
    requires Accepted(pt) && pc < |pt.code| && IsInstr(pt.code, pc) && pt.code[pc].op == OP_LOADBOOL
    requires Steps(pt, pc, next) && BoolSkipOK(pt, pc)
    ensures JumpOK(pt.code, next)
  {
    assert OperandsOK(pt, pc);
    NotLast(pt, pc);
  }

  lemma NextInside(pt: Proto, pc: nat, next: int)
    requires Accepted(pt) && pc < |pt.code| && IsInstr(pt.code, pc)
    requires Steps(pt, pc, next) && BoolSkipOK(pt, pc)
    ensures JumpOK(pt.code, next)
  {
    hide Accepted, InstrOK, FormatOK, OperandsOK;
    var op := pt.code[pc].op;
    NotLast(pt, pc);
    if op == OP_LOADBOOL {
      BoolNext(pt, pc, next);
    } else if op in {OP_JMP, OP_FORLOOP, OP_FORPREP} {
      JumpTargetOK(pt, pc);
    } else if op in {OP_EQ, OP_LT, OP_LE, OP_TEST, OP_TESTSET, OP_TFORLOOP} {
      TestIsFollowedByJump(pt, pc);
    } else if op == OP_CLOSURE {
      ClosureEnd(pt, pc, pt.p[GetBx(pt.code[pc])].nups);
    }
  }

  lemma WordReadInside(pt: Proto, pc: nat, q: int)
    requires Accepted(pt) && pc < |pt.code| && IsInstr(pt.code, pc)
    requires ReadsWord(pt, pc, q)
    ensures 0 <= q < |pt.code|
  {
    NotLast(pt, pc);
    if pt.code[pc].op == OP_CLOSURE {
      ClosureEnd(pt, pc, q - pc);
    }
  }

  /** An accepted instruction keeps control inside the code exactly when its LOADBOOL skip,
      if it has one that the checker ignores, would have passed the check. */
  lemma StepStaysInside(pt: Proto, pc: nat)
    requires Accepted(pt) && pc < |pt.code| && IsInstr(pt.code, pc)
    ensures StaysInside(pt, pc) <==> BoolSkipOK(pt, pc)
  {
    forall q | ReadsWord(pt, pc, q) ensures 0 <= q < |pt.code| {
      WordReadInside(pt, pc, q);
    }
    if BoolSkipOK(pt, pc) {
      forall next | Steps(pt, pc, next) ensures JumpOK(pt.code, next) {
        NextInside(pt, pc, next);
      }
    } else {
      NotLast(pt, pc);
      assert Steps(pt, pc, pc + 2) && !JumpOK(pt.code, pc + 2);
    }
  }

  // Every word a CLOSURE captures is itself a checked MOVE or GETUPVAL.
  lemma CapturesChecked(pt: Proto, pc: nat, q: int)
    requires Accepted(pt) && pc < |pt.code| && IsInstr(pt.code, pc)
    requires pt.code[pc].op == OP_CLOSURE && ReadsWord(pt, pc, q)
    ensures pc < q < |pt.code| && InstrOK(pt, q)
  {
    ClosureEnd(pt, pc, q - pc);
  }

  lemma RegsInRange(pt: Proto, pc: nat, r: int)
    requires Accepted(pt) && pc < |pt.code| && IsInstr(pt.code, pc)
    requires UsesReg(pt, pc, r)
    ensures 0 <= r < pt.maxstacksize
  {
    assert FormatOK(pt, pc);
    assert OperandsOK(pt, pc);
    if pt.code[pc].op == OP_CLOSURE && r != pt.code[pc].a {
      var q :| pc < q < |pt.code| && ReadsWord(pt, pc, q)
               && pt.code[q].op == OP_MOVE && r == pt.code[q].b;
      CapturesChecked(pt, pc, q);
    }
  }

  lemma ConstsInRange(pt: Proto, pc: nat, i: int)
    requires Accepted(pt) && pc < |pt.code| && IsInstr(pt.code, pc)
    requires UsesConst(pt, pc, i)
    ensures 0 <= i < |pt.k|
  {
    assert FormatOK(pt, pc);
  }

  lemma UpvalsInRange(pt: Proto, pc: nat, u: int)
    requires Accepted(pt) && pc < |pt.code| && IsInstr(pt.code, pc)
    requires UsesUpval(pt, pc, u)
    ensures 0 <= u < pt.nups
  {
    assert OperandsOK(pt, pc);
    if pt.code[pc].op == OP_CLOSURE {
      var q :| pc < q < |pt.code| && ReadsWord(pt, pc, q)
               && pt.code[q].op == OP_GETUPVAL && u == pt.code[q].b;
      CapturesChecked(pt, pc, q);
    }
  }

  /** Every register, constant, upvalue and child prototype that an accepted instruction
      decodes exists. */
  lemma StepDecodesInRange(pt: Proto, pc: nat)
    requires Accepted(pt) && pc < |pt.code| && IsInstr(pt.code, pc)
    ensures DecodesInRange(pt, pc)
  {
    assert OperandsOK(pt, pc);
    forall r | UsesReg(pt, pc, r) ensures 0 <= r < pt.maxstacksize {
      RegsInRange(pt, pc, r);
    }
    forall i | UsesConst(pt, pc, i) ensures 0 <= i < |pt.k| {
      ConstsInRange(pt, pc, i);
    }
    forall u | UsesUpval(pt, pc, u) ensures 0 <= u < pt.nups {
      UpvalsInRange(pt, pc, u);
    }
  }

  // ---------- whole runs ----------

  // A run is the list of positions the interpreter fetches, from the function's entry on.
  ghost predicate IsRun(pt: Proto, run: seq<int>) {
    && |run| > 0 && run[0] == 0
    && forall i :: 0 <= i < |run| - 1 ==> Follows(pt, run, i)
  }

  predicate Follows(pt: Proto, run: seq<int>, i: nat)
    requires i < |run| - 1
  {
    0 <= run[i] < |pt.code| && Steps(pt, run[i], run[i + 1])
  }

  ghost predicate RunSafe(pt: Proto, run: seq<int>) {
    forall pc :: pc in run ==> SafeAt(pt, pc)
  }

  ghost predicate SafeAt(pt: Proto, pc: int) {
    JumpOK(pt.code, pc) && DecodesInRange(pt, pc) && StaysInside(pt, pc)
  }

  lemma SafeInstr(pt: Proto, pc: nat)
    requires Accepted(pt) && JumpOK(pt.code, pc) && BoolSkipOK(pt, pc)
    ensures SafeAt(pt, pc)
  {
    hide Accepted, DecodesInRange;
    StepStaysInside(pt, pc);
    StepDecodesInRange(pt, pc);
  }

  lemma SafeNext(pt: Proto, run: seq<int>, i: nat)
    requires i < |run| - 1 && SafeAt(pt, run[i]) && Follows(pt, run, i)
    ensures JumpOK(pt.code, run[i + 1])
  {
  }

  /** Safety over whole runs. */
  lemma {:induction false} RunsStayInside(pt: Proto, run: seq<int>)
    requires Accepted(pt) && IsRun(pt, run)
    requires forall pc :: 0 <= pc < |pt.code| && IsInstr(pt.code, pc) ==> BoolSkipOK(pt, pc)
    ensures RunSafe(pt, run)
  {
    assert JumpOK(pt.code, 0);
    hide Accepted, SafeAt;
    var n := |run| - 1;
    if n > 0 {
      var init := run[..n];
      forall i | 0 <= i < |init| - 1 ensures Follows(pt, init, i) {
        assert Follows(pt, run, i);
      }
      RunsStayInside(pt, init);
      assert Follows(pt, run, n - 1) && init[n - 1] in init;
      SafeNext(pt, run, n - 1);
      assert run == init + [run[n]];
    }
    SafeInstr(pt, run[n]);
  }

  /** The exact condition: all steps of an accepted prototype are safe if and only if every
      LOADBOOL with C above 1 skips a word that it may skip. */
  lemma CheckedCodeIsSafeIff(pt: Proto)
    requires Accepted(pt)
    ensures (forall pc :: 0 <= pc < |pt.code| && IsInstr(pt.code, pc) ==> StepSafe(pt, pc))
       <==> (forall pc :: 0 <= pc < |pt.code| && IsInstr(pt.code, pc) ==> BoolSkipOK(pt, pc))
  {
    forall pc | 0 <= pc < |pt.code| && IsInstr(pt.code, pc)
      ensures StepSafe(pt, pc) <==> BoolSkipOK(pt, pc)
    {
      StepStaysInside(pt, pc);
      StepDecodesInRange(pt, pc);
      assert InstrOK(pt, pc);
    }
  }

  // LOADBOOL R0 := false with C == 2, then RETURN.
  const SKIPPER: Proto :=
    Proto(None, 0, 0, 0, 0, 0, 2,
          [Fields(OP_LOADBOOL, 0, 2, 0), Fields(OP_RETURN, 0, 0, 1)],
          [], [], [], [], [])

  lemma SkipperChecks(pt: Proto)
    requires |pt.code| == 2 && pt.maxstacksize == 2 && pt.numparams == 0 && pt.isVararg == 0
    requires pt.upvalues == [] && pt.lineinfo == []
    requires var w := pt.code[0]; w.op == OP_LOADBOOL && w.a == 0 && w.c == 2
    requires var w := pt.code[1]; w.op == OP_RETURN && w.a == 0 && w.b == 1 && w.c == 0
    ensures Accepted(pt) && IsRun(pt, [0, 2])
  {
    assert OPMODES[OP_LOADBOOL] == OpInfo(false, true, ArgU, ArgU, IABC);
    assert OPMODES[OP_RETURN] == OpInfo(false, false, ArgU, ArgN, IABC);
    assert InstrOK(pt, 0);
    assert InstrOK(pt, 1);
    assert Follows(pt, [0, 2], 0);
  }

  /** The condition is needed: the checker accepts this prototype, whose first step leaves
      the code. */
  lemma CheckerOverlooksBoolSkip()
    ensures Accepted(SKIPPER)
    ensures IsRun(SKIPPER, [0, 2]) && !RunSafe(SKIPPER, [0, 2])
  {
    SkipperChecks(SKIPPER);
    assert 2 in [0, 2] && !JumpOK(SKIPPER.code, 2);
  }
}
