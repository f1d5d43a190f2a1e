/** The top of the stack between two steps of the virtual machine (lvm.c): an open call or vararg leaves it behind
    its last result, and the instruction after it counts its operands by it. */
module VmTop {
  import opened Basics
  import opened Opcodes
  import opened Protos
  import opened Checker
  import opened VmSafety

  // How many values a step takes behind its register A: the arguments of CALL (28) and TAILCALL (29), the results
  // of RETURN (30), the items of SETLIST (34). With B == 0 they reach up to the top.
  function Count(w: Word, top: int): int {
    if w.op == 28 || w.op == 29 then (if w.b != 0 then w.b - 1 else top - w.a - 1)
    else if w.op == 30 then (if w.b != 0 then w.b - 1 else top - w.a)
    else if w.op == 34 then (if w.b != 0 then w.b else top - w.a - 1)
    else 0
  }

  // What a step does depends on the top.
  ghost predicate ReadsTop(w: Word) { exists t, t1 :: Count(w, t) != Count(w, t1) }

  // After CALL and TAILCALL with all results (C == 0) and after VARARG (37) with all arguments (B == 0) the top is
  // behind the last of them; any other step leaves it at the end of the frame.
  predicate LeavesOpen(w: Word) { ((w.op == 28 || w.op == 29) && w.c == 0) || (w.op == 37 && w.b == 0) }

  lemma ReadsTopIs(w: Word)
    ensures ReadsTop(w) <==> OpenOpOK(w)
  {
    if OpenOpOK(w) {
      assert Count(w, 0) != Count(w, 1);
    }
  }

  lemma ModesOfOpen()
    ensures OPMODES[28] == OPMODES[29] == OpInfo(false, true, ArgU, ArgU, IABC)
    ensures OPMODES[37] == OpInfo(false, true, ArgU, ArgN, IABC)
  {
  }

  /** The checker accepts an open call exactly if its operands are registers and the next word reads the top. */
  lemma OpenCallIff(pt: Proto, pc: nat)
    requires pc < |pt.code| && (pt.code[pc].op == 28 || pt.code[pc].op == 29) && pt.code[pc].c == 0
    ensures var w := pt.code[pc];
            InstrOK(pt, pc) <==>
              && w.a < pt.maxstacksize && (w.b != 0 ==> w.a + w.b - 1 < pt.maxstacksize)
              && pc + 1 < |pt.code| && ReadsTop(pt.code[pc + 1])
  {
    ModesOfOpen();
    if pc + 1 < |pt.code| {
      ReadsTopIs(pt.code[pc + 1]);
    }
    hide ReadsTop, OpenOpOK;
  }

  /** The same for an open vararg in a function that has varargs. */
  lemma OpenVarargIff(pt: Proto, pc: nat)
    requires pc < |pt.code| && pt.code[pc].op == 37 && pt.code[pc].b == 0
    ensures var w := pt.code[pc];
            InstrOK(pt, pc) <==>
              && w.a < pt.maxstacksize && w.c == 0 && IsVarArg(pt) && !NeedsArg(pt)
              && pc + 1 < |pt.code| && ReadsTop(pt.code[pc + 1])
  {
    ModesOfOpen();
    if pc + 1 < |pt.code| {
      ReadsTopIs(pt.code[pc + 1]);
    }
    hide ReadsTop, OpenOpOK;
  }

  // ---------- runs ----------

  // What step i of a run left behind is taken by the next one.
  ghost predicate TakenUp(pt: Proto, run: seq<int>, i: nat)
    requires i + 1 < |run|
  {
    && 0 <= run[i] < |pt.code| && 0 <= run[i + 1] < |pt.code|
    && (LeavesOpen(pt.code[run[i]]) ==> ReadsTop(pt.code[run[i + 1]]))
  }

  lemma OpenIsTaken(pt: Proto, pc: nat, next: int)
    requires Accepted(pt) && JumpOK(pt.code, pc) && JumpOK(pt.code, next) && Steps(pt, pc, next)
    requires LeavesOpen(pt.code[pc])
    ensures next == pc + 1 && ReadsTop(pt.code[next])
  {
    assert InstrOK(pt, pc);
    hide Accepted;
    if pt.code[pc].op == 37 {
      OpenVarargIff(pt, pc);
    } else {
      OpenCallIff(pt, pc);
    }
    hide ReadsTop, InstrOK;
  }

  /** Along every run of an accepted prototype, a top that was left open is read by the next step. */
  lemma OpenTopIsRead(pt: Proto, run: seq<int>, i: nat)
    requires Accepted(pt) && IsRun(pt, run) && i + 1 < |run|
    requires forall pc :: 0 <= pc < |pt.code| && IsInstr(pt.code, pc) ==> BoolSkipOK(pt, pc)
    ensures TakenUp(pt, run, i)
  {
    RunsStayInside(pt, run);
    assert run[i] in run && run[i + 1] in run;
    assert SafeAt(pt, run[i]) && SafeAt(pt, run[i + 1]) && Follows(pt, run, i);
    if LeavesOpen(pt.code[run[i]]) {
      hide Accepted, ReadsTop, DecodesInRange, StaysInside;
      OpenIsTaken(pt, run[i], run[i + 1]);
    }
  }

  // ---------- the other direction ----------

  // RETURN R0 up to the top.
  const HASTY: Proto := Proto(None, 0, 0, 0, 0, 0, 2, [Fields(OP_RETURN, 0, 0, 0)], [], [], [], [], [])

  lemma HastyChecks(pt: Proto)
    requires |pt.code| == 1 && pt.maxstacksize == 2 && pt.numparams == 0 && pt.isVararg == 0
    requires pt.upvalues == [] && pt.lineinfo == []
    requires var w := pt.code[0]; w.op == OP_RETURN && w.a == 0 && w.b == 0 && w.c == 0
    ensures Accepted(pt)
  {
    hide FormatOK, OperandsOK, IsInstr;
    HastyFormat(pt);
    HastyOperands(pt);
    assert InstrOK(pt, 0);
    hide InstrOK;
  }

  lemma HastyFormat(pt: Proto)
    requires |pt.code| == 1 && pt.maxstacksize == 2
    requires var w := pt.code[0]; w.op == OP_RETURN && w.a == 0 && w.b == 0 && w.c == 0
    ensures FormatOK(pt, 0)
  {
    assert OPMODES[OP_RETURN] == OpInfo(false, false, ArgU, ArgN, IABC);
  }

  lemma HastyOperands(pt: Proto)
    requires |pt.code| == 1 && FormatOK(pt, 0) && pt.code[0].op == OP_RETURN && pt.code[0].b == 0
    ensures OperandsOK(pt, 0)
  {
    hide FormatOK;
    assert OPMODES[OP_RETURN] == OpInfo(false, false, ArgU, ArgN, IABC);
  }

  /** The checker does not ask who left the top open: it accepts a function whose first step reads it. */
  lemma TopIsReadUnopened()
    ensures Accepted(HASTY) && IsRun(HASTY, [0]) && ReadsTop(HASTY.code[0])
  {
    hide Accepted, ReadsTop;
    HastyChecks(HASTY);
    ReadsTopIs(HASTY.code[0]);
  }

  // Step i of a run reads the top only right after it was left open.
  ghost predicate ReadsOpened(pt: Proto, run: seq<int>, i: nat)
    requires i < |run|
  {
    0 <= run[i] < |pt.code| && ReadsTop(pt.code[run[i]]) ==>
      i > 0 && 0 <= run[i - 1] < |pt.code| && LeavesOpen(pt.code[run[i - 1]])
  }

  ghost predicate Reached(pt: Proto, pc: int) { exists run :: IsRun(pt, run) && run[|run| - 1] == pc }

  // From p one comes to an instruction that reads the top.
  ghost predicate ComesToReader(pt: Proto, p: int, q: int) {
    0 <= p < |pt.code| && Steps(pt, p, q) && 0 <= q < |pt.code| && ReadsTop(pt.code[q])
  }

  /** The exact condition for all runs: the first instruction does not read the top, and an instruction that can be
      reached comes to one that reads it only if it leaves it open. */
  lemma ReadsOpenedIff(pt: Proto)
    requires |pt.code| > 0
    ensures (forall run, i :: IsRun(pt, run) && 0 <= i < |run| ==> ReadsOpened(pt, run, i))
       <==> (&& !ReadsTop(pt.code[0])
             && forall p, q :: Reached(pt, p) && ComesToReader(pt, p, q) ==> LeavesOpen(pt.code[p]))
  {
    hide ReadsTop, LeavesOpen;
    if forall run, i :: IsRun(pt, run) && 0 <= i < |run| ==> ReadsOpened(pt, run, i) {
      assert IsRun(pt, [0]) && ReadsOpened(pt, [0], 0);
      forall p, q | Reached(pt, p) && ComesToReader(pt, p, q) ensures LeavesOpen(pt.code[p]) {
        var run :| IsRun(pt, run) && run[|run| - 1] == p;
        LongerRun(pt, run, q);
        assert ReadsOpened(pt, run + [q], |run|);
      }
    }
    if !ReadsTop(pt.code[0]) && forall p, q :: Reached(pt, p) && ComesToReader(pt, p, q) ==> LeavesOpen(pt.code[p]) {
      forall run, i | IsRun(pt, run) && 0 <= i < |run| ensures ReadsOpened(pt, run, i) {
        if i > 0 && 0 <= run[i] < |pt.code| && ReadsTop(pt.code[run[i]]) {
          assert Follows(pt, run, i - 1);
          ShorterRun(pt, run, i);
          assert Reached(pt, run[i - 1]) && ComesToReader(pt, run[i - 1], run[i]);
        }
      }
    }
  }

  lemma LongerRun(pt: Proto, run: seq<int>, q: int)
    requires IsRun(pt, run) && 0 <= run[|run| - 1] < |pt.code| && Steps(pt, run[|run| - 1], q)
    ensures IsRun(pt, run + [q])
  {
    forall i | 0 <= i < |run| ensures Follows(pt, run + [q], i) {
      assert i < |run| - 1 ==> Follows(pt, run, i);
    }
  }

  lemma ShorterRun(pt: Proto, run: seq<int>, n: nat)
    requires IsRun(pt, run) && 0 < n <= |run|
    ensures IsRun(pt, run[..n]) && run[..n][|run[..n]| - 1] == run[n - 1]
  {
    forall i | 0 <= i < n - 1 ensures Follows(pt, run[..n], i) {
      assert Follows(pt, run, i);
    }
  }
}
