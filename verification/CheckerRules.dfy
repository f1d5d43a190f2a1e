/** What the bytecode checker asks of an instruction, opcode by opcode, as lopcodes.h numbers them. */
module CheckerRules {
  import opened Opcodes
  import opened Protos
  import opened Checker

  // ---------- the table of operands ----------

  lemma MoveRows()
    ensures |OPMODES| == 38
    ensures OPMODES[0] == OPMODES[3] == OpInfo(false, true, ArgR, ArgN, IABC)
    ensures OPMODES[1] == OPMODES[5] == OpInfo(false, true, ArgK, ArgN, IABx)
    ensures OPMODES[2] == OpInfo(false, true, ArgU, ArgU, IABC)
    ensures OPMODES[4] == OpInfo(false, true, ArgU, ArgN, IABC)
  {
  }

  lemma StoreRows()
    ensures |OPMODES| == 38
    ensures OPMODES[6] == OPMODES[11] == OpInfo(false, true, ArgR, ArgK, IABC)
    ensures OPMODES[7] == OpInfo(false, false, ArgK, ArgN, IABx)
    ensures OPMODES[8] == OpInfo(false, false, ArgU, ArgN, IABC)
    ensures OPMODES[9] == OpInfo(false, false, ArgK, ArgK, IABC)
    ensures OPMODES[10] == OpInfo(false, true, ArgU, ArgU, IABC)
  {
  }

  lemma ArithRows()
    ensures |OPMODES| == 38
    ensures OPMODES[12] == OPMODES[13] == OPMODES[14] == OpInfo(false, true, ArgK, ArgK, IABC)
    ensures OPMODES[15] == OPMODES[16] == OPMODES[17] == OpInfo(false, true, ArgK, ArgK, IABC)
  {
  }

  lemma UnaryRows()
    ensures |OPMODES| == 38
    ensures OPMODES[18] == OPMODES[19] == OPMODES[20] == OpInfo(false, true, ArgR, ArgN, IABC)
    ensures OPMODES[21] == OpInfo(false, true, ArgR, ArgR, IABC)
    ensures OPMODES[22] == OpInfo(false, false, ArgR, ArgN, IAsBx)
  {
  }

  lemma TestRows()
    ensures |OPMODES| == 38
    ensures OPMODES[23] == OPMODES[24] == OPMODES[25] == OpInfo(true, false, ArgK, ArgK, IABC)
    ensures OPMODES[26] == OPMODES[27] == OpInfo(true, true, ArgR, ArgU, IABC)
  {
  }

  lemma CallRows()
    ensures |OPMODES| == 38
    ensures OPMODES[28] == OPMODES[29] == OpInfo(false, true, ArgU, ArgU, IABC)
    ensures OPMODES[30] == OpInfo(false, false, ArgU, ArgN, IABC)
    ensures OPMODES[31] == OPMODES[32] == OpInfo(false, true, ArgR, ArgN, IAsBx)
  {
  }

  lemma LastRows()
    ensures |OPMODES| == 38
    ensures OPMODES[33] == OpInfo(true, false, ArgN, ArgU, IABC)
    ensures OPMODES[34] == OpInfo(false, false, ArgU, ArgU, IABC)
    ensures OPMODES[35] == OpInfo(false, false, ArgN, ArgN, IABC)
    ensures OPMODES[36] == OpInfo(false, true, ArgU, ArgN, IABx)
    ensures OPMODES[37] == OpInfo(false, true, ArgU, ArgN, IABC)
  {
  }

  /** What is asked of a whole function (the bits of is_vararg are HASARG, ISVARARG and NEEDSARG). */
  lemma FunctionRules(pt: Proto)
    ensures Precheck(pt) <==>
            && pt.maxstacksize <= 250
            && pt.numparams + pt.isVararg % 2 <= pt.maxstacksize
            && (pt.isVararg / 4 % 2 == 1 ==> pt.isVararg % 2 == 1)
            && |pt.upvalues| <= pt.nups
            && (pt.lineinfo == [] || |pt.lineinfo| == |pt.code|)
            && pt.code != [] && pt.code[|pt.code| - 1].op == 30
  {
  }

  /** Which words are instructions: a SETLIST whose C is 0 keeps a count in the word behind it. */
  lemma CountWords(code: seq<Word>, pc: nat)
    requires pc < |code|
    ensures IsInstr(code, 0)
    ensures IsInstr(code, pc + 1) <==> !(IsInstr(code, pc) && code[pc].op == 34 && code[pc].c == 0)
  {
  }

  // ---------- the rules ----------

  /** Opcodes 0 to 11: moves and loads, upvalues, globals and tables. */
  lemma LoadRules(pt: Proto, pc: nat)
    requires pc < |pt.code| && pt.code[pc].op <= 11
    ensures var w := pt.code[pc];
            var a, b, c, bx, max := w.a, w.b, w.c, w.c + 512 * w.b, pt.maxstacksize;
            var rkB := if b >= 256 then b - 256 < |pt.k| else b < max;
            var rkC := if c >= 256 then c - 256 < |pt.k| else c < max;
            InstrOK(pt, pc) <==>
              a < max &&
              if w.op == 0 || w.op == 3 then b < max && c == 0
              else if w.op == 1 then bx < |pt.k|
              else if w.op == 2 then
                c == 1 ==> pc + 2 < |pt.code| && !(pt.code[pc + 1].op == 34 && pt.code[pc + 1].c == 0)
              else if w.op == 4 || w.op == 8 then b < pt.nups && c == 0
              else if w.op == 5 || w.op == 7 then bx < |pt.k| && pt.k[bx].KString?
              else if w.op == 6 then b < max && rkC
              else if w.op == 9 then rkB && rkC
              else if w.op == 10 then true
              else b < max && rkC && a + 1 < max
  {
    MoveRows();
    StoreRows();
    hide IsInstr;
  }

  /** Opcodes 12 to 21: arithmetic, unary operators and concatenation. */
  lemma OperatorRules(pt: Proto, pc: nat)
    requires pc < |pt.code| && 12 <= pt.code[pc].op <= 21
    ensures var w := pt.code[pc];
            var a, b, c, max := w.a, w.b, w.c, pt.maxstacksize;
            var rkB := if b >= 256 then b - 256 < |pt.k| else b < max;
            var rkC := if c >= 256 then c - 256 < |pt.k| else c < max;
            InstrOK(pt, pc) <==>
              a < max &&
              if w.op <= 17 then rkB && rkC
              else if w.op <= 20 then b < max && c == 0
              else b < max && c < max && b < c
  {
    ArithRows();
    UnaryRows();
    hide IsInstr;
  }

  /** Opcodes 22 to 27: the jump, and the tests that stand before one. */
  lemma TestRules(pt: Proto, pc: nat)
    requires pc < |pt.code| && 22 <= pt.code[pc].op <= 27
    ensures var w := pt.code[pc];
            var a, b, c, bx, max := w.a, w.b, w.c, w.c + 512 * w.b, pt.maxstacksize;
            var rkB := if b >= 256 then b - 256 < |pt.k| else b < max;
            var rkC := if c >= 256 then c - 256 < |pt.k| else c < max;
            InstrOK(pt, pc) <==>
              a < max &&
              if w.op == 22 then
                var dest := pc + 1 + bx - 131071;
                0 <= dest < |pt.code| && IsInstr(pt.code, dest)
              else
                && pc + 2 < |pt.code| && pt.code[pc + 1].op == 22
                && if w.op <= 25 then rkB && rkC else b < max
  {
    UnaryRows();
    TestRows();
    hide IsInstr;
  }

  /** Opcodes 28 to 37: calls, returns, loops, table items, closures and varargs. */
  lemma CallRules(pt: Proto, pc: nat)
    requires pc < |pt.code| && 28 <= pt.code[pc].op <= 37
    ensures var w := pt.code[pc];
            var a, b, c, bx, max := w.a, w.b, w.c, w.c + 512 * w.b, pt.maxstacksize;
            var readsTop := pc + 1 < |pt.code| && pt.code[pc + 1].op in {28, 29, 30, 34} && pt.code[pc + 1].b == 0;
            var dest := pc + 1 + bx - 131071;
            InstrOK(pt, pc) <==>
              a < max &&
              if w.op <= 29 then
                (b != 0 ==> a + b - 1 < max) && (c == 0 ==> readsTop) && (c > 1 ==> a + c - 2 < max)
              else if w.op == 30 then c == 0 && (b > 1 ==> a + b - 2 < max)
              else if w.op <= 32 then a + 3 < max && 0 <= dest < |pt.code| && IsInstr(pt.code, dest)
              else if w.op == 33 then
                b == 0 && c >= 1 && a + 2 + c < max && pc + 2 < |pt.code| && pt.code[pc + 1].op == 22
              else if w.op == 34 then (b > 0 ==> a + b < max) && (c == 0 ==> pc + 2 < |pt.code|)
              else if w.op == 35 then b == 0 && c == 0
              else if w.op == 36 then
                && bx < |pt.p| && pc + pt.p[bx].nups < |pt.code|
                && forall q :: pc < q <= pc + pt.p[bx].nups ==> pt.code[q].op == 0 || pt.code[q].op == 4
              else
                && c == 0 && pt.isVararg / 2 % 2 == 1 && pt.isVararg / 4 % 2 == 0
                && a + b - 2 < max && (b == 0 ==> readsTop)
  {
    CallRows();
    LastRows();
    hide IsInstr;
  }

  lemma UnknownOpcode(pt: Proto, pc: nat)
    requires pc < |pt.code| && pt.code[pc].op >= 38
    ensures !InstrOK(pt, pc)
  {
  }
}
