/** What the bytecode checker will ask of emitted code: registers, constants, upvalues and jump
    distances in range, and no jump or test left open but those in the lists. */
module CodeFits {
  import opened Limits
  import opened CodeSem
  import opened CodeExp

  // ---------- what instructions name ----------

  predicate RKNamed(x: nat, mx: nat, nk: nat) {
    if x < BITRK then x < mx else x - BITRK < nk && x - BITRK <= MAXINDEXRK
  }

  // With mx registers, nk constants and nu upvalues; NO_REG is for a test that may copy a value.
  predicate InstrNamed(i: Instr, mx: nat, nk: nat, nu: nat) {
    match i
    case Move(a, b) => a < mx && b < mx
    case LoadK(a, bx) => a < mx && bx < nk
    case LoadBool(a, _, _) => a < mx
    case GetUpval(a, u) => a < mx && u < nu
    case NotI(a, b) => a < mx && b < mx
    case ArithI(op, a, rb, rc) => op < 6 && a < mx && RKNamed(rb, mx, nk) && RKNamed(rc, mx, nk)
    case Cmp(_, _, rb, rc) => RKNamed(rb, mx, nk) && RKNamed(rc, mx, nk)
    case Test(a, _) => a < mx
    case TestSet(a, b, _) => (a < mx || a == NO_REG) && b < mx
    case Jmp(sbx) => -MAXARG_SBX <= sbx <= MAXARG_SBX
    case Return(a, n) => a < mx && n <= 2
  }

  ghost predicate Named(code: Code, mx: nat, nk: nat, nu: nat) {
    forall i :: 0 <= i < |code| ==> InstrNamed(code[i], mx, nk, nu)
  }

  lemma NamedUpdate(code: Code, mx: nat, nk: nat, nu: nat, pc: nat, i: Instr)
    requires Named(code, mx, nk, nu) && pc < |code| && InstrNamed(i, mx, nk, nu)
    ensures Named(code[pc := i], mx, nk, nu)
  {
  }

  lemma NamedAt(code: Code, mx: nat, nk: nat, nu: nat, pc: nat)
    requires Named(code, mx, nk, nu) && pc < |code|
    ensures InstrNamed(code[pc], mx, nk, nu)
  {
  }

  lemma NamedMore(code: Code, mx: nat, nk: nat, nu: nat, i: Instr)
    requires Named(code, mx, nk, nu) && InstrNamed(i, mx, nk, nu)
    ensures Named(code + [i], mx, nk, nu)
  {
  }

  lemma NamedLess(code: Code, mx: nat, nk: nat, nu: nat, n: nat)
    requires Named(code, mx, nk, nu) && n <= |code|
    ensures Named(code[..n], mx, nk, nu)
  {
  }

  lemma NamedHigher(code: Code, mx: nat, nk: nat, nu: nat, mx1: nat)
    requires Named(code, mx, nk, nu) && mx <= mx1
    ensures Named(code, mx1, nk, nu)
  {
  }

  lemma NamedPatchTest(code: Code, mx: nat, nk: nat, nu: nat, pc: nat, reg: nat)
    requires Named(code, mx, nk, nu) && pc < |code| && code[pc].TestSet? && (reg < mx || reg == NO_REG) && reg < NREGS
    ensures Named(code[pc := PatchTest(code[pc], reg)], mx, nk, nu)
  {
  }

  // ---------- what is still open ----------

  // Nothing at position i waits for a jump target, or it is in `pend'. Jumps go forward and stay in the code or
  // reach its end, as does the instruction behind a skipped one.
  predicate Resolved(code: Code, pend: set<nat>, i: nat)
    requires i < |code|
  {
    match code[i]
    case Jmp(sbx) => i in pend || (0 <= sbx && i + 1 + sbx <= |code|)
    case TestSet(a, _, _) => a != NO_REG || i + 1 in pend
    case LoadBool(_, _, skip) => skip ==> i + 2 <= |code|
    case _ => true
  }

  ghost predicate AllResolved(code: Code, pend: set<nat>, lo: nat) {
    forall i :: lo <= i < |code| ==> Resolved(code, pend, i)
  }

  // An instruction that never waits for anything.
  predicate IsClosed(i: Instr) { !i.Jmp? && (i.TestSet? ==> i.a != NO_REG) && (i.LoadBool? ==> !i.skip) }

  // Some instructions were replaced and some were added.
  lemma ChangeResolved(code: Code, pend: set<nat>, code1: Code, pend1: set<nat>, lo: nat)
    requires AllResolved(code, pend, lo) && |code| <= |code1|
    requires forall i :: lo <= i < |code| ==> code1[i] == code[i] || IsClosed(code1[i]) || (i in pend1 && code1[i].Jmp?)
    requires forall i :: lo <= i < |code1| && |code| <= i ==> Resolved(code1, pend1, i)
    requires forall j :: j in pend ==> j in pend1
    ensures AllResolved(code1, pend1, lo)
  {
    forall i | lo <= i < |code1| ensures Resolved(code1, pend1, i) {
      assert i < |code| ==> Resolved(code, pend, i);
    }
  }

  // The jumps to here have landed on the first of the instructions that were added.
  lemma LandResolved(code: Code, js: set<nat>, pend: set<nat>, code1: Code, pend1: set<nat>, lo: nat)
    requires AllResolved(code, pend, lo) && |code| < |code1| && code1[..|code|] == Landed(code, js)
    requires forall j :: j in js ==> j < |code| && code[j].Jmp?
    requires AllResolved(code1, pend1, |code|)
    requires forall j :: j in pend ==> j in js || j in pend1
    ensures AllResolved(code1, pend1, lo)
  {
    forall i | lo <= i < |code1| ensures Resolved(code1, pend1, i) {
      if i < |code| {
        assert Resolved(code, pend, i);
        assert code1[i] == Landed(code, js)[i];
      }
    }
  }

  // A list of jumps got its targets.
  lemma PatchResolved(code: Code, pend: set<nat>, s: set<nat>, reg: nat, c: bool, dt: nat, pend1: set<nat>, lo: nat)
    requires AllResolved(code, pend, lo) && reg < MAXSTACK && CanPatch(code, s, reg, c, dt)
    requires forall j :: j in s ==> j < |code| && code[j].Jmp?
    requires forall j :: j in pend ==> j in s || j in pend1
    ensures AllResolved(Patched(code, s, |code|, reg, dt), pend1, lo)
  {
    var code1 := Patched(code, s, |code|, reg, dt);
    forall i | lo <= i < |code1| ensures Resolved(code1, pend1, i) {
      assert Resolved(code, pend, i);
    }
  }

  lemma LandedResolved(code: Code, js: set<nat>)
    requires WFCode(code) && AllResolved(code, js, 0) && forall j :: j in js ==> j < |code| && code[j].Jmp?
    ensures WFCode(Landed(code, js)) && AllResolved(Landed(code, js), {}, 0)
  {
    var code1 := Landed(code, js);
    forall i | 0 <= i < |code1| ensures Resolved(code1, {}, i) {
      assert Resolved(code, js, i);
    }
    forall i | 0 <= i < |code1| && TMode(code1[i]) ensures i + 1 < |code1| && code1[i + 1].Jmp? {
      assert TMode(code[i]);
    }
  }
}
