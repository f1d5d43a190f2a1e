/** The code generator of lcode.c for expressions: jump lists threaded through the code that
    is being written, and expression descriptors that change as the code grows. */
module Codegen {
  import opened Basics
  import opened Limits
  import opened CodeSem
  import opened CodeExp
  import opened CodeFits
  import opened CodeGood
  import opened CodeBlock
  import opened CodeProto
  import VmRun
  import CodeWords
  import opened Protos
  import Checker
  import VmSafety

  class FuncState {
    var code: seq<Instr>
    var jpc: int              // list of jumps to the next instruction
    ghost var jl: seq<nat>    // its members
    var freereg: nat
    var maxstacksize: nat
    const nactvar: nat
    const nk: nat             // number of constants
    const nups: nat           // number of upvalues

    constructor (n: nat, constants: nat, upvalues: nat)
      requires n < MAXSTACK
      ensures Valid() && WFCode(code) && nactvar == n && freereg == n && code == [] && jl == []
      ensures nk == constants && nups == upvalues
    {
      code, jpc, jl := [], NO_JUMP, [];
      nactvar, freereg, nk, nups := n, n, constants, upvalues;
      maxstacksize := if n < 2 then 2 else n;  // as in a new function state
    }

    ghost predicate Valid()
      reads this
    {
      && IsList(code, jpc, jl) && nactvar <= freereg <= maxstacksize < MAXSTACK && 2 <= maxstacksize
      && AllNamed()
    }

    ghost predicate AllNamed()
      reads this
    {
      Named(code, maxstacksize, nk, nups)
    }

    // Where a value is, or comes from.
    predicate InfoNamed(e: Exp)
      reads this
    {
      && (e.k == VLOCAL || e.k == VNONRELOC ==> e.info < maxstacksize)
      && (e.k == VK ==> e.info < nk)
      && (e.k == VUPVAL ==> e.info < nups)
    }

    // The only reasons to fail for an operation that takes registers below n.
    predicate Full(n: nat)
      reads this
    {
      |code| > MAXARG_SBX || n >= MAXSTACK
    }

    // ---------- jump lists ----------

    method FixJump(pc: nat, dest: nat) returns (s: Status)
      requires pc < |code|
      requires AllNamed()
      modifies this`code
      ensures s.Success? ==> code == old(code)[pc := Jmp(dest - (pc + 1))]
      ensures |code| == |old(code)| && (s.Failure? ==> |code| > MAXARG_SBX || dest < 0 || dest > |code|)
      ensures s.Success? ==> AllNamed()
    {
      var offset := dest - (pc + 1);
      if offset > MAXARG_SBX || -offset > MAXARG_SBX {
        return Failure("control structure too long");
      }
      NamedUpdate(code, maxstacksize, nk, nups, pc, Jmp(offset));
      code := code[pc := Jmp(offset)];
      return Success;
    }

    /** luaK_concat: the members of the second list follow those of the first. */
    method Concat(l1: int, l2: int, ghost s1: seq<nat>, ghost s2: seq<nat>) returns (s: Status, l: int)
      requires IsList(code, l1, s1) && IsList(code, l2, s2) && Disjoint(s1, s2)
      requires AllNamed()
      modifies this`code
      ensures s.Success? ==> IsList(code, l, s1 + s2)
      ensures s.Success? ==> if s1 == [] || s2 == [] then code == old(code)
                             else s1[|s1| - 1] < |old(code)| && code == Linked(old(code), s1, l2)
      ensures |code| == |old(code)| && (s.Failure? ==> |code| > MAXARG_SBX)
      ensures s.Success? ==> AllNamed()
    {
      if l2 == NO_JUMP {
        assert s1 + s2 == s1;
        return Success, l1;
      }
      if l1 == NO_JUMP {
        assert s1 + s2 == s2;
        return Success, l2;
      }
      ListMembers(code, l1, s1);
      var list := l1;
      ghost var k := 0;
      ListSuffix(code, l1, s1, 0);
      while NextOf(code, list) != NO_JUMP  // the end of the first list
        invariant k < |s1| && list == s1[k] && s1[k] in s1 && code == old(code)
        decreases |s1| - k
      {
        ListSuffix(code, l1, s1, k);
        list := NextOf(code, list);
        k := k + 1;
        assert s1[k] in s1;
      }
      ListSuffix(code, l1, s1, k);
      assert k == |s1| - 1;
      ListConcat(code, l1, s1, l2, s2);
      s := FixJump(list, l2);
      return s, l1;
    }

    /** need_value: some jump of the list does not carry its value. */
    method NeedValue(list: int, ghost s: seq<nat>) returns (need: bool)
      requires IsList(code, list, s)
      ensures need <==> exists j :: j in s && !IsTestSet(code, j)
    {
      ListMembers(code, list, s);
      var l := list;
      ghost var k := 0;
      while l != NO_JUMP
        invariant k <= |s| && l == (if k < |s| then s[k] else NO_JUMP)
        invariant forall i :: 0 <= i < k ==> IsTestSet(code, s[i])
        decreases |s| - k
      {
        assert s[k] in s;
        if !(l >= 1 && code[l - 1].TestSet?) {
          return true;
        }
        ListSuffix(code, list, s, k);
        l := NextOf(code, l);
        k := k + 1;
      }
      return false;
    }

    /** patchtestreg */
    method PatchTestReg(node: nat, reg: nat) returns (copies: bool)
      requires node < |code| && reg < NREGS
      requires AllNamed() && (reg < maxstacksize || reg == NO_REG)
      modifies this`code
      ensures copies == IsTestSet(old(code), node)
      ensures code == if copies then old(code)[node - 1 := PatchTest(old(code)[node - 1], reg)] else old(code)
      ensures AllNamed()
    {
      if !(node >= 1 && code[node - 1].TestSet?) {
        return false;  // only a test that copies can be patched
      }
      NamedPatchTest(code, maxstacksize, nk, nups, node - 1, reg);
      var i := code[node - 1];
      if reg != NO_REG && reg != i.b {
        code := code[node - 1 := TestSet(reg, i.b, i.c)];
      } else {  // there is nothing to copy, or it is there already
        code := code[node - 1 := Test(i.b, i.c)];
      }
      return true;
    }

    method RemoveValues(list: int, ghost s: seq<nat>)
      requires IsList(code, list, s)
      requires AllNamed()
      modifies this`code
      ensures code == NoValues(old(code), Set(s))
      ensures AllNamed()
    {
      hide NoDup, Named;
      ListMembers(code, list, s);
      ListNoDup(code, list, s);
      ghost var code0 := code;
      var l := list;
      ghost var k := 0;
      assert code == NoValues(code0, Set(s[..0]));
      while l != NO_JUMP
        invariant k <= |s| && l == (if k < |s| then s[k] else NO_JUMP)
        invariant code == NoValues(code0, Set(s[..k])) && AllNamed()
        decreases |s| - k
      {
        SetPrefix(s, k);
        assert code[l] == code0[l];
        var copies := PatchTestReg(l, NO_REG);
        ListSuffix(code0, list, s, k);
        assert code == NoValues(code0, Set(s[..k + 1]));
        l := NextOf(code, l);
        k := k + 1;
      }
      assert s[..k] == s;
    }

    method PatchJump(node: nat, vtarget: nat, reg: nat, dtarget: int) returns (st: Status)
      requires node < |code| && code[node].Jmp? && reg < NREGS && (dtarget >= 0 || IsTestSet(code, node))
      requires AllNamed() && (reg < maxstacksize || reg == NO_REG)
      modifies this`code
      ensures st.Success? ==> code == old(
                if IsTestSet(code, node) then
                  code[node - 1 := PatchTest(code[node - 1], reg)][node := Jmp(vtarget - (node + 1))]
                else code[node := Jmp(dtarget - (node + 1))])
      ensures |code| == |old(code)| && (st.Failure? ==> |code| > MAXARG_SBX || vtarget > |code| || dtarget > |code|)
      ensures st.Success? ==> AllNamed()
    {
      var copies := PatchTestReg(node, reg);
      if copies {
        st := FixJump(node, vtarget);
      } else {
        st := FixJump(node, dtarget);  // the value must come from elsewhere
      }
    }

    /** patchlistaux: the jumps of the list, and no others, get their targets. */
    method PatchListAux(list: int, vtarget: nat, reg: nat, dtarget: int, ghost s: seq<nat>) returns (st: Status)
      requires IsList(code, list, s) && reg < NREGS
      requires dtarget >= 0 || forall j :: j in s ==> IsTestSet(code, j)
      requires AllNamed() && (reg < maxstacksize || reg == NO_REG)
      modifies this`code
      ensures st.Success? ==> code == Patched(old(code), Set(s), vtarget, reg, if dtarget < 0 then 0 else dtarget)
      ensures |code| == |old(code)| && (st.Failure? ==> |code| > MAXARG_SBX || vtarget > |code| || dtarget > |code|)
      ensures st.Success? ==> AllNamed()
    {
      hide Patched, NoDup, PatchTest, Named;
      ListMembers(code, list, s);
      ListNoDup(code, list, s);
      ghost var code0 := code;
      ghost var dt := if dtarget < 0 then 0 else dtarget;
      var l := list;
      ghost var k := 0;
      PatchNone(code, s, vtarget, reg, dt);
      FirstOf(code, list, s);
      while l != NO_JUMP
        invariant k <= |s| && l == (if k < |s| then s[k] else NO_JUMP)
        invariant code == Patched(code0, Set(s[..k]), vtarget, reg, dt) && AllNamed()
        decreases |s| - k
      {
        assert s[k] in s;
        ListSuffix(code0, list, s, k);
        PatchOne(code0, s, k, vtarget, reg, dt);
        var next := NextOf(code, l);
        st := PatchJump(l, vtarget, reg, dtarget);
        if st.Failure? {
          return;
        }
        l := next;
        k := k + 1;
      }
      assert s[..k] == s;
      return Success;
    }

    // ---------- emitting ----------

    method DischargeJpc() returns (st: Status)
      requires IsList(code, jpc, jl)
      requires AllNamed()
      modifies this`code, this`jpc, this`jl
      ensures st.Success? ==> code == Landed(old(code), Set(old(jl))) && jpc == NO_JUMP && jl == []
      ensures |code| == |old(code)| && (st.Failure? ==> |code| > MAXARG_SBX)
      ensures st.Success? ==> AllNamed()
    {
      st := PatchListAux(jpc, |code|, NO_REG, |code|, jl);
      if st.Success? {
        jpc, jl := NO_JUMP, [];
      }
    }

    /** luaK_code */
    method Code(i: Instr) returns (st: Status, pc: nat)
      requires IsList(code, jpc, jl)
      requires AllNamed() && InstrNamed(i, maxstacksize, nk, nups)
      modifies this`code, this`jpc, this`jl
      ensures st.Success? ==> code == Emit(old(code), Set(old(jl)), i) && pc == |old(code)|
      ensures st.Success? ==> jpc == NO_JUMP && jl == []
      ensures |code| <= |old(code)| + 1 && (st.Failure? ==> |code| == |old(code)| > MAXARG_SBX)
      ensures st.Success? ==> AllNamed()
    {
      pc := |code|;
      st := DischargeJpc();
      if st.Success? {
        NamedMore(code, maxstacksize, nk, nups, i);
        code := code + [i];
      }
    }

    /** luaK_jump: jumps to here stay on hold and are linked behind the new jump. */
    method Jump() returns (st: Status, j: nat, ghost s: seq<nat>)
      requires IsList(code, jpc, jl)
      requires AllNamed()
      modifies this`code, this`jpc, this`jl
      ensures st.Success? ==> jpc == NO_JUMP && jl == [] && j == |old(code)| && s == [j] + old(jl)
      ensures st.Success? ==> |code| == j + 1 && code[..j] == old(code) && code[j].Jmp? && IsList(code, j, s)
      ensures st.Success? && old(jl) == [] ==> code == old(code) + [Jmp(NO_JUMP)]
      ensures |code| <= |old(code)| + 1 && (st.Failure? ==> |code| > MAXARG_SBX)
      ensures st.Success? ==> AllNamed()
    {
      var held := jpc;
      ghost var jl0, code0 := jl, code;
      jpc, jl := NO_JUMP, [];
      assert Landed(code, Set(jl)) == code;
      st, j := Code(Jmp(NO_JUMP));
      s := [j] + jl0;
      if st.Success? {
        ListMembers(code0, held, jl0);
        assert forall i :: 0 <= i < |code0| ==> code[i] == code0[i];
        ListFrame(code0, code, held, jl0);
        assert IsList(code, j, [j]);
        ghost var code1 := code;
        var l: int;
        st, l := Concat(j, held, [j], jl0);
        if st.Success? {
          assert l == j;
          assert forall i :: 0 <= i < |code0| ==> code[i] == code0[i];
          assert code[..j] == code0;
        }
      }
    }

    method CondJump(i: Instr) returns (st: Status, j: nat)
      requires IsList(code, jpc, jl) && TMode(i)
      requires AllNamed() && InstrNamed(i, maxstacksize, nk, nups)
      modifies this`code, this`jpc, this`jl
      ensures st.Success? ==> code == Emit(old(code), Set(old(jl)), i) + [Jmp(NO_JUMP)] && j == |old(code)| + 1
      ensures st.Success? ==> jpc == NO_JUMP && jl == []
      ensures |code| <= |old(code)| + 2 && (st.Failure? ==> |code| > MAXARG_SBX)
      ensures st.Success? ==> AllNamed()
    {
      var pc;
      st, pc := Code(i);
      j := 0;
      if st.Success? {
        ghost var s;
        st, j, s := Jump();
      }
    }

    /** luaK_patchtohere: the list joins the jumps to here. */
    method PatchToHere(list: int, ghost s: seq<nat>) returns (st: Status)
      requires IsList(code, jpc, jl) && IsList(code, list, s) && Disjoint(jl, s)
      requires AllNamed()
      modifies this`code, this`jpc, this`jl
      ensures st.Success? ==> IsList(code, jpc, jl) && jl == old(jl) + s
      ensures st.Success? ==> if old(jl) == [] || s == [] then code == old(code)
                              else old(jl)[|old(jl)| - 1] < |old(code)| && code == Linked(old(code), old(jl), list)
      ensures |code| <= |old(code)| && (st.Failure? ==> |code| > MAXARG_SBX)
      ensures st.Success? ==> AllNamed()
    {
      var l;
      st, l := Concat(jpc, list, jl, s);
      if st.Success? {
        jpc, jl := l, jl + s;
      }
    }

    // ---------- registers ----------

    method ReserveReg() returns (st: Status)
      requires nactvar <= freereg <= maxstacksize < MAXSTACK && AllNamed()
      modifies this`freereg, this`maxstacksize
      ensures st.Success? ==> freereg == old(freereg) + 1 <= maxstacksize < MAXSTACK
      ensures old(maxstacksize) <= maxstacksize && AllNamed()
      ensures st.Failure? ==> freereg == old(freereg) && freereg + 1 >= MAXSTACK
    {
      var newstack := freereg + 1;
      if newstack > maxstacksize {
        if newstack >= MAXSTACK {
          return Failure("function or expression too complex");
        }
        NamedHigher(code, maxstacksize, nk, nups, newstack);
        maxstacksize := newstack;
      }
      freereg := newstack;
      return Success;
    }

    method FreeExp(e: Exp)
      requires e.k == VNONRELOC && e.info >= nactvar ==> e.info == freereg - 1
      modifies this`freereg
      ensures freereg == old(freereg) - if e.k == VNONRELOC && e.info >= nactvar then 1 else 0
    {
      if e.k == VNONRELOC && e.info >= nactvar {
        freereg := freereg - 1;
      }
    }

    // ---------- expressions ----------

    // Throughout, `b' is the state when the code of expression `ex' began, and tl and fl are
    // the members of the lists e.t and e.f.

    ghost predicate Stands(b: Base, ex: Expr, e: Exp, tl: seq<nat>, fl: seq<nat>)
      reads this
    {
      && Valid() && InfoNamed(e) && IsList(code, e.t, tl) && IsList(code, e.f, fl)
      && Good(b, ex, code, Set(jl), Set(tl), Set(fl), e.k, e.info, nactvar)
    }

    ghost predicate Ready(b: Base, ex: Expr, e: Exp, tl: seq<nat>, fl: seq<nat>)
      reads this
    {
      Stands(b, ex, e, tl, fl) && freereg == FreeAfter(b.free, e.k, e.info, nactvar)
    }

    ghost predicate Placed2(b: Base, ex: Expr, e: Exp, tl: seq<nat>, fl: seq<nat>, reg: nat)
      reads this
    {
      && Valid() && reg < maxstacksize && IsList(code, e.t, tl) && IsList(code, e.f, fl)
      && InRegister(b, ex, code, Set(jl), Set(tl), Set(fl), reg)
    }

    method DischargeVars(e: Exp, ghost b: Base, ghost ex: Expr, ghost tl: seq<nat>, ghost fl: seq<nat>)
      returns (st: Status, e1: Exp)
      requires Stands(b, ex, e, tl, fl)
      modifies this`code, this`jpc, this`jl
      ensures st.Success? ==> Stands(b, ex, e1, tl, fl) && e1.k != VLOCAL && e1.k != VUPVAL
      ensures st.Success? ==> e1.t == e.t && e1.f == e.f
      ensures st.Success? ==> FreeAfter(b.free, e1.k, e1.info, nactvar) == FreeAfter(b.free, e.k, e.info, nactvar)
      ensures e.k != VLOCAL && e.k != VUPVAL ==>
                st.Success? && e1 == e && code == old(code) && jl == old(jl) && jpc == old(jpc)
      ensures e.k == VLOCAL ==> st.Success? && e1.k == VNONRELOC && e1.info == e.info
      ensures st.Success? && e.k != VJMP ==> e1.k != VJMP
      ensures |code| <= |old(code)| + 1 && (st.Failure? ==> |code| > MAXARG_SBX)
    {
      hide Good, IsList, Named;
      st, e1 := Success, e;
      if e.k == VLOCAL {
        LocalGood(b, ex, code, Set(jl), Set(tl), Set(fl), e.info, nactvar);
        GoodLocal(b, ex, code, Set(jl), Set(tl), Set(fl), e.info, nactvar);
        e1 := e.(k := VNONRELOC);
      } else if e.k == VUPVAL {
        var pc;
        ghost var code0, jl0 := code, jl;
        GoodApart(b, ex, code, jl, tl, fl, e.k, e.info, nactvar);
        UpvalGood(b, ex, code, Set(jl), Set(tl), Set(fl), e.info, nactvar);
        st, pc := Code(GetUpval(0, e.info));
        if st.Success? {
          EmitLists(code0, jl0, GetUpval(0, e.info), e, tl, fl);
          NoList(code);
          e1 := Exp(VRELOCABLE, pc, e.t, e.f);
        }
      }
    }

    method PutInReg(e: Exp, reg: nat, ghost b: Base, ghost ex: Expr, ghost tl: seq<nat>, ghost fl: seq<nat>)
      returns (st: Status, e1: Exp)
      requires Stands(b, ex, e, tl, fl) && e.k != VLOCAL && e.k != VUPVAL && reg < maxstacksize
      modifies this`code, this`jpc, this`jl
      ensures e.k == VJMP ==> st.Success? && e1 == e && code == old(code) && jl == old(jl) && jpc == old(jpc)
      ensures st.Success? && e.k != VJMP ==> e1 == Exp(VNONRELOC, reg, e.t, e.f) && Placed2(b, ex, e, tl, fl, reg)
      ensures |code| <= |old(code)| + 1 && (st.Failure? ==> |code| > MAXARG_SBX)
    {
      hide Good, InRegister, IsList, Named;
      ghost var js, ts, fs := Set(jl), Set(tl), Set(fl);
      GoodApart(b, ex, code, jl, tl, fl, e.k, e.info, nactvar);
      GoodInfo(b, ex, code, js, ts, fs, e.k, e.info, nactvar);
      st, e1 := Success, e;
      if e.k == VJMP {
        return;
      }
      e1 := Exp(VNONRELOC, reg, e.t, e.f);
      if e.k == VRELOCABLE {
        PlaceInRegister(b, ex, code, js, ts, fs, e.info, nactvar, reg);
        ghost var code0 := code;
        NamedAt(code, maxstacksize, nk, nups, e.info);
        NamedUpdate(code, maxstacksize, nk, nups, e.info, WithA(code[e.info], reg));
        code := code[e.info := WithA(code[e.info], reg)];
        UpdateLists(code0, code, e.info, e, tl, fl);
        UpdateList(code0, code, e.info, jpc, jl);
      } else if e.k == VK || reg != e.info {
        var i := if e.k == VK then LoadK(reg, e.info) else Move(reg, e.info);
        ghost var code0, jl0 := code, jl;
        CopyInRegister(b, ex, code, js, ts, fs, e.k, e.info, nactvar, i, reg);
        var pc;
        st, pc := Code(i);
        if st.Success? {
          EmitLists(code0, jl0, i, e, tl, fl);
          NoList(code);
        }
      } else {
        StayInRegister(b, ex, code, js, ts, fs, e.info, nactvar);
      }
    }

    /** discharge2reg: the value goes to reg, unless it is still in a comparison. */
    method Discharge2Reg(e: Exp, reg: nat, ghost b: Base, ghost ex: Expr, ghost tl: seq<nat>, ghost fl: seq<nat>)
      returns (st: Status, e1: Exp)
      requires Stands(b, ex, e, tl, fl) && reg < maxstacksize
      modifies this`code, this`jpc, this`jl
      ensures e.k == VJMP ==> st.Success? && e1 == e && code == old(code) && jl == old(jl) && jpc == old(jpc)
      ensures st.Success? && e.k != VJMP ==> e1 == Exp(VNONRELOC, reg, e.t, e.f) && Placed2(b, ex, e, tl, fl, reg)
      ensures |code| <= |old(code)| + 2 && (st.Failure? ==> |code| > MAXARG_SBX)
    {
      hide Good, InRegister, IsList, Named;
      st, e1 := DischargeVars(e, b, ex, tl, fl);
      if st.Success? {
        st, e1 := PutInReg(e1, reg, b, ex, tl, fl);
      }
    }

    method Discharge2AnyReg(e: Exp, ghost b: Base, ghost ex: Expr, ghost tl: seq<nat>, ghost fl: seq<nat>)
      returns (st: Status, e1: Exp)
      requires Ready(b, ex, e, tl, fl) && e.k != VLOCAL && e.k != VUPVAL && e.k != VJMP
      modifies this`code, this`jpc, this`jl, this`freereg, this`maxstacksize
      ensures st.Success? ==> Ready(b, ex, e1, tl, fl) && e1.k == VNONRELOC && e1.t == e.t && e1.f == e.f
      ensures |code| <= |old(code)| + 2 && (st.Failure? ==> Full(b.free + 1))
    {
      hide Good, InRegister, IsList, Named;
      GoodInfo(b, ex, code, Set(jl), Set(tl), Set(fl), e.k, e.info, nactvar);
      st, e1 := Success, e;
      if e.k != VNONRELOC {
        st := ReserveReg();
        if st.Success? {
          st, e1 := Discharge2Reg(e, freereg - 1, b, ex, tl, fl);
          if st.Success? {
            RegisterGood(b, ex, code, Set(jl), Set(tl), Set(fl), nactvar);
          }
        }
      }
    }

    // An instruction behind a jump target.
    method CodeLabel(reg: nat, val: bool, skip: bool) returns (st: Status, pc: nat)
      requires IsList(code, jpc, jl) && reg < NREGS
      requires AllNamed() && reg < maxstacksize
      modifies this`code, this`jpc, this`jl
      ensures st.Success? ==> code == Emit(old(code), Set(old(jl)), LoadBool(reg, val, skip)) && pc == |old(code)|
      ensures st.Success? ==> jpc == NO_JUMP && jl == []
      ensures |code| <= |old(code)| + 1 && (st.Failure? ==> |code| > MAXARG_SBX)
      ensures st.Success? ==> AllNamed()
    {
      st, pc := Code(LoadBool(reg, val, skip));
    }

    // The two labels, with nothing pending to here before or after.
    method CodeLabels(reg: nat) returns (st: Status, pf: nat, pt: nat)
      requires jpc == NO_JUMP && jl == [] && reg < NREGS
      requires AllNamed() && reg < maxstacksize
      modifies this`code, this`jpc, this`jl
      ensures st.Success? ==> code == old(code) + [LoadBool(reg, false, true), LoadBool(reg, true, false)]
      ensures st.Success? ==> pf == |old(code)| && pt == pf + 1 && jpc == NO_JUMP && jl == []
      ensures |code| <= |old(code)| + 2 && (st.Failure? ==> |code| > MAXARG_SBX)
      ensures st.Success? ==> AllNamed()
    {
      ghost var code0 := code;
      assert Landed(code, Set(jl)) == code;
      st, pf := CodeLabel(reg, false, true);
      pt := 0;
      if st.Success? {
        assert Landed(code, Set(jl)) == code;
        st, pt := CodeLabel(reg, true, false);
      }
    }

    // Labels behind a value that is in reg, and a jump over them to here.
    method SkipLabels(e: Exp, reg: nat, ghost b: Base, ghost ex: Expr, ghost tl: seq<nat>, ghost fl: seq<nat>)
      returns (st: Status, pf: nat, pt: nat)
      requires Placed2(b, ex, e, tl, fl, reg) && (tl != [] || fl != [])
      modifies this`code, this`jpc, this`jl
      ensures st.Success? ==> Placed2(b, ex, e, tl, fl, reg) && HasLabels(code, reg)
      ensures st.Success? ==> pf == |code| - 2 && pt == |code| - 1 && pf > |old(code)|
      ensures |code| <= |old(code)| + 3 && (st.Failure? ==> |code| > MAXARG_SBX)
    {
      hide InRegister, IsList, Set, Linked, Named;
      ghost var code0, jl0 := code, jl;
      pf, pt := 0, 0;
      RegisterApart(b, ex, code, jl, tl, fl, reg);
      RegisterEmitted(b, ex, code, Set(jl), e, tl, fl, reg);
      var j;
      ghost var held;
      st, j, held := Jump();
      if st.Failure? {
        return;
      }
      ghost var code1 := code;
      st, pf, pt := CodeLabels(reg);
      if st.Failure? {
        return;
      }
      ghost var code2 := code;
      SkipPlaced(b, ex, code0, jl0, e, tl, fl, reg, code1, code2);
      PrefixList(code1, code, j, held);
      NoList(code);
      assert [] + held == held;
      st := PatchToHere(j, held);
    }

    // Labels behind a comparison, whose jump is in the list of true jumps already.
    method FallLabels(e: Exp, reg: nat, ghost b: Base, ghost ex: Expr, ghost tl: seq<nat>, ghost fl: seq<nat>)
      returns (st: Status, pf: nat, pt: nat)
      requires Valid() && IsList(code, e.t, tl) && IsList(code, e.f, fl) && jl == [] && reg < maxstacksize
      requires Placed(b, code, {}, Set(tl), Set(fl)) && |b.code| < |code| && b.free < MAXSTACK
      requires Denotes(ex, code, {}, Set(tl), Set(fl), |b.code|, |code|, b.free, NO_REG, Is(false))
      requires AllResolved(code, {} + Set(tl) + Set(fl), |b.code|)
      modifies this`code, this`jpc, this`jl
      ensures st.Success? ==> Placed2(b, ex, e, tl, fl, reg) && HasLabels(code, reg)
      ensures st.Success? ==> pf == |code| - 2 && pt == |code| - 1 && pf >= |old(code)|
      ensures |code| <= |old(code)| + 2 && (st.Failure? ==> |code| > MAXARG_SBX)
    {
      hide Denotes, Placed;
      ghost var code0 := code;
      st, pf, pt := CodeLabels(reg);
      if st.Success? {
        assert code[..|code0|] == code0;
        FallInRegister(b, ex, code0, Set(tl), Set(fl), reg, code);
        PrefixLists(code0, code, e, tl, fl);
        NoList(code);
      }
    }

    // Resolves both lists to the end of the code.
    method ResolveLists(e: Exp, reg: nat, pf: int, pt: int,
                        ghost b: Base, ghost ex: Expr, ghost tl: seq<nat>, ghost fl: seq<nat>) returns (st: Status)
      requires Placed2(b, ex, e, tl, fl, reg)
      requires CanPatch(code, Set(fl), reg, false, if pf < 0 then 0 else pf) && (pf >= 0 || AllTestSet(code, fl))
      requires CanPatch(code, Set(tl), reg, true, if pt < 0 then 0 else pt) && (pt >= 0 || AllTestSet(code, tl))
      modifies this`code
      ensures st.Success? ==> Placed2(b, ex, Exp(VNONRELOC, reg, NO_JUMP, NO_JUMP), [], [], reg)
      ensures |code| == |old(code)| && (st.Failure? ==> |code| > MAXARG_SBX || pf > |code| || pt > |code|)
    {
      hide InRegister, IsList, CanPatch, Named;
      ghost var code0, js, ts, fs := code, Set(jl), Set(tl), Set(fl);
      ghost var df, dt := if pf < 0 then 0 else pf, if pt < 0 then 0 else pt;
      var final := |code|;
      RegisterApart(b, ex, code, jl, tl, fl, reg);
      ListMembers(code, e.f, fl);
      st := PatchListAux(e.f, final, reg, pf, fl);
      if st.Failure? {
        return;
      }
      PatchInRegister(b, ex, code0, js, ts, fs, reg, false, df);
      KeptCanPatch(code0, js, ts, fs, b, ex, reg, df, dt);
      PatchedList(code0, fl, |code0|, reg, df, e.t, tl);
      PatchedList(code0, fl, |code0|, reg, df, jpc, jl);
      KeptTestSets(code0, fl, |code0|, reg, df, tl);
      ghost var code1 := code;
      NoList(code1);
      st := PatchListAux(e.t, final, reg, pt, tl);
      if st.Failure? {
        return;
      }
      PatchInRegister(b, ex, code1, js, ts, {}, reg, true, dt);
      PatchedList(code1, tl, |code1|, reg, dt, jpc, jl);
      NoList(code);
    }

    // The jump of a comparison enters the list of true jumps.
    method ConcatCompare(e: Exp, ghost b: Base, ghost ex: Expr, ghost tl: seq<nat>, ghost fl: seq<nat>)
      returns (st: Status, e1: Exp)
      requires Stands(b, ex, e, tl, fl) && e.k == VJMP
      modifies this`code
      ensures st.Success? ==> e1.k == VJMP && e1.f == e.f && jl == [] && |code| == |old(code)|
      ensures st.Success? ==> Valid() && IsList(code, e1.t, tl + [e.info]) && IsList(code, e1.f, fl)
      ensures st.Success? ==> Placed(b, code, {}, Set(tl + [e.info]), Set(fl)) && |b.code| < |code| && b.free < MAXSTACK
      ensures st.Success? ==>
                Denotes(ex, code, {}, Set(tl + [e.info]), Set(fl), |b.code|, |code|, b.free, NO_REG, Is(false))
                && AllResolved(code, {} + Set(tl + [e.info]) + Set(fl), |b.code|)
      ensures |code| <= |old(code)| && (st.Failure? ==> |code| > MAXARG_SBX)
    {
      hide Denotes, Good, IsList, Placed, Linked, Set, Named;
      ghost var code0 := code;
      CompareList(b, ex, code, jl, tl, fl, e.info, nactvar);
      FirstOf(code, jpc, jl);
      var l;
      st, l := Concat(e.t, e.info, tl, [e.info]);
      e1 := Exp(VJMP, e.info, l, e.f);
      if st.Success? {
        NoList(code);
        CompareLinked(b, ex, code0, code, jl, tl, fl, e, nactvar);
      }
    }

    /** exp2reg: the value of the expression goes to reg, whatever jumps it has. */
    method Exp2Reg(e: Exp, reg: nat, ghost b: Base, ghost ex: Expr, ghost tl: seq<nat>, ghost fl: seq<nat>)
      returns (st: Status, e1: Exp)
      requires Stands(b, ex, e, tl, fl) && reg < maxstacksize
      modifies this`code, this`jpc, this`jl
      ensures st.Success? ==> e1 == Exp(VNONRELOC, reg, NO_JUMP, NO_JUMP) && Placed2(b, ex, e1, [], [], reg)
      ensures |code| <= |old(code)| + 5 && (st.Failure? ==> |code| > MAXARG_SBX)
    {
      hide Good, InRegister, IsList, Denotes, Placed, CanPatch, Named;
      var d;
      st, d := Discharge2Reg(e, reg, b, ex, tl, fl);
      e1 := Exp(VNONRELOC, reg, NO_JUMP, NO_JUMP);
      if st.Failure? {
        return;
      }
      if d.k == VJMP {
        st := FinishCompare(d, reg, b, ex, tl, fl);
      } else {
        st := FinishValue(d, reg, b, ex, tl, fl);
      }
    }

    method FinishCompare(d: Exp, reg: nat, ghost b: Base, ghost ex: Expr, ghost tl: seq<nat>, ghost fl: seq<nat>)
      returns (st: Status)
      requires Stands(b, ex, d, tl, fl) && d.k == VJMP && reg < maxstacksize
      modifies this`code, this`jpc, this`jl
      ensures st.Success? ==> Placed2(b, ex, Exp(VNONRELOC, reg, NO_JUMP, NO_JUMP), [], [], reg)
      ensures |code| <= |old(code)| + 2 && (st.Failure? ==> |code| > MAXARG_SBX)
    {
      hide Good, InRegister, Denotes, Placed, CanPatch, Named;
      ghost var tl1 := tl + [d.info];
      var e2;
      st, e2 := ConcatCompare(d, b, ex, tl, fl);
      if st.Failure? {
        return;
      }
      ListMembers(code, e2.t, tl1);
      ListMembers(code, e2.f, fl);
      ghost var code1 := code;
      // the comparison's own jump has no value, so labels are always needed
      var pf, pt;
      st, pf, pt := FallLabels(e2, reg, b, ex, tl1, fl);
      if st.Failure? {
        return;
      }
      LabelsPatch(code, fl, reg, false, pf);
      LabelsPatch(code, tl1, reg, true, pt);
      st := ResolveLists(e2, reg, pf, pt, b, ex, tl1, fl);
    }

    method FinishValue(d: Exp, reg: nat, ghost b: Base, ghost ex: Expr, ghost tl: seq<nat>, ghost fl: seq<nat>)
      returns (st: Status)
      requires Placed2(b, ex, d, tl, fl, reg)
      modifies this`code, this`jpc, this`jl
      ensures st.Success? ==> Placed2(b, ex, Exp(VNONRELOC, reg, NO_JUMP, NO_JUMP), [], [], reg)
      ensures |code| <= |old(code)| + 3 && (st.Failure? ==> |code| > MAXARG_SBX)
    {
      hide InRegister, CanPatch, Named;
      RegisterApart(b, ex, code, jl, tl, fl, reg);
      if d.t == d.f {  // no jumps
        NoJumps(code, d, tl, fl);
        return Success;
      }
      var nt := NeedValue(d.t, tl);
      var nf := NeedValue(d.f, fl);
      var pf: int, pt: int := NO_JUMP, NO_JUMP;
      ListMembers(code, d.t, tl);
      ListMembers(code, d.f, fl);
      SomeJumps(code, d, tl, fl);
      if nt || nf {
        st, pf, pt := SkipLabels(d, reg, b, ex, tl, fl);
        if st.Failure? {
          return;
        }
        LabelsPatch(code, fl, reg, false, pf);
        LabelsPatch(code, tl, reg, true, pt);
      } else {
        TestSetsPatch(code, fl, reg, false, 0);
        TestSetsPatch(code, tl, reg, true, 0);
      }
      st := ResolveLists(d, reg, pf, pt, b, ex, tl, fl);
    }

    method Exp2NextReg(e: Exp, ghost b: Base, ghost ex: Expr, ghost tl: seq<nat>, ghost fl: seq<nat>)
      returns (st: Status, e1: Exp)
      requires Ready(b, ex, e, tl, fl)
      modifies this`code, this`jpc, this`jl, this`freereg, this`maxstacksize
      ensures st.Success? ==> e1 == Exp(VNONRELOC, b.free, NO_JUMP, NO_JUMP) && Ready(b, ex, e1, [], [])
      ensures st.Success? ==> freereg == b.free + 1
      ensures |code| <= |old(code)| + 6 && (st.Failure? ==> Full(b.free + 1))
    {
      hide Good, InRegister, IsList, Named, Set;
      st, e1 := DischargeVars(e, b, ex, tl, fl);
      if st.Failure? {
        return;
      }
      GoodInfo(b, ex, code, Set(jl), Set(tl), Set(fl), e1.k, e1.info, nactvar);
      FreeExp(e1);
      st := ReserveReg();
      if st.Success? {
        st, e1 := Exp2Reg(e1, freereg - 1, b, ex, tl, fl);
        if st.Success? {
          NoList(code);
          RegisterGood(b, ex, code, Set(jl), {}, {}, nactvar);
        }
      }
    }

    method Exp2AnyReg(e: Exp, ghost b: Base, ghost ex: Expr, ghost tl: seq<nat>, ghost fl: seq<nat>)
      returns (st: Status, e1: Exp)
      requires Ready(b, ex, e, tl, fl)
      modifies this`code, this`jpc, this`jl, this`freereg, this`maxstacksize
      ensures st.Success? ==> e1.k == VNONRELOC && e1.t == NO_JUMP && e1.f == NO_JUMP && Ready(b, ex, e1, [], [])
      ensures e.k == VNONRELOC && e.t == e.f ==>
                && st.Success? && e1 == e && code == old(code) && jl == old(jl) && jpc == old(jpc)
                && freereg == old(freereg)
      ensures |code| <= |old(code)| + 7 && (st.Failure? ==> Full(b.free + 1))
    {
      hide Good, InRegister, Named;
      st, e1 := DischargeVars(e, b, ex, tl, fl);
      if st.Failure? {
        return;
      }
      GoodInfo(b, ex, code, Set(jl), Set(tl), Set(fl), e1.k, e1.info, nactvar);
      GoodApart(b, ex, code, jl, tl, fl, e1.k, e1.info, nactvar);
      if e1.k == VNONRELOC {
        if e1.t == e1.f {  // where it is, all paths agree
          NoJumps(code, e1, tl, fl);
          return;
        }
        if e1.info >= nactvar {  // a scratch register takes the value of every path
          st, e1 := Exp2Reg(e1, e1.info, b, ex, tl, fl);
          if st.Success? {
            assert Set([]) == {};
            RegisterGood(b, ex, code, Set(jl), {}, {}, nactvar);
          }
          return;
        }
      }
      st, e1 := Exp2NextReg(e1, b, ex, tl, fl);
    }

    method Exp2Val(e: Exp, ghost b: Base, ghost ex: Expr, ghost tl: seq<nat>, ghost fl: seq<nat>)
      returns (st: Status, e1: Exp)
      requires Ready(b, ex, e, tl, fl)
      modifies this`code, this`jpc, this`jl, this`freereg, this`maxstacksize
      ensures st.Success? ==> e1.t == NO_JUMP && e1.f == NO_JUMP && Ready(b, ex, e1, [], [])
      ensures st.Success? ==> e1.k != VLOCAL && e1.k != VUPVAL
      ensures e.k != VLOCAL && e.k != VUPVAL && e.t == e.f ==>
                && st.Success? && e1 == e && code == old(code) && jl == old(jl) && jpc == old(jpc)
                && freereg == old(freereg)
      ensures |code| <= |old(code)| + (if e.t == e.f then 1 else 7) && (st.Failure? ==> Full(b.free + 1))
      ensures st.Success? && e.t != e.f ==> e1.k == VNONRELOC
    {
      hide Good, InRegister, Named;
      GoodApart(b, ex, code, jl, tl, fl, e.k, e.info, nactvar);
      if e.t != e.f {
        st, e1 := Exp2AnyReg(e, b, ex, tl, fl);
      } else {
        NoJumps(code, e, tl, fl);
        st, e1 := DischargeVars(e, b, ex, tl, fl);
      }
    }

    ghost predicate IsOperand(b: Base, ex: Expr, e: Exp)
      reads this
    {
      && Ready(b, ex, e, [], []) && e.t == NO_JUMP && e.f == NO_JUMP
      && Operand(b, ex, code, Set(jl), e.k, e.info, nactvar)
    }

    /** luaK_exp2RK: a constant operand stays one if its index fits. */
    method Exp2RK(e: Exp, ghost b: Base, ghost ex: Expr, ghost tl: seq<nat>, ghost fl: seq<nat>)
      returns (st: Status, e1: Exp, rk: nat)
      requires Ready(b, ex, e, tl, fl)
      modifies this`code, this`jpc, this`jl, this`freereg, this`maxstacksize
      ensures st.Success? ==> IsOperand(b, ex, e1) && rk == RKOf(e1.k, e1.info)
      ensures IsOperand(b, ex, e) ==>
                && st.Success? && e1 == e && code == old(code) && jl == old(jl) && jpc == old(jpc)
                && freereg == old(freereg)
      ensures |code| <= |old(code)| + 8 && (st.Failure? ==> Full(b.free + 1))
    {
      hide Good, InRegister, IsList, Set, Named;
      rk := 0;
      st, e1 := Exp2Val(e, b, ex, tl, fl);
      if st.Failure? {
        return;
      }
      if e1.k == VK && e1.info <= MAXINDEXRK {
        NoList(code);
        return st, e1, BITRK + e1.info;
      }
      st, e1 := Exp2AnyReg(e1, b, ex, [], []);
      if st.Success? {
        NoList(code);
        GoodInfo(b, ex, code, Set(jl), {}, {}, e1.k, e1.info, nactvar);
        rk := e1.info;
      }
    }

    // ---------- jumping on a condition ----------

    // A test was made; its jump pc (if any) is not in its list yet.
    ghost predicate Undecided(b: Base, ex: Expr, e: Exp, tl: seq<nat>, fl: seq<nat>, c: bool, pc: int, pl: seq<nat>)
      reads this
    {
      && Valid() && IsList(code, e.t, tl) && IsList(code, e.f, fl) && IsList(code, pc, pl) && freereg == b.free
      && Disjoint(if c then fl else tl, pl)
      && Tested(b, ex, code, Set(jl), Set(if c then tl else tl + pl), Set(if c then fl + pl else fl), c)
    }

    ghost predicate IsBranched(b: Base, ex: Expr, c: bool, l: int, s: seq<nat>)
      reads this
    {
      Valid() && freereg == b.free && IsList(code, l, s) && Branched(b, ex, code, Set(jl), c, Set(s), nactvar)
    }

    // jumponcond on a negation
    method JumpOnNot(e: Exp, reg: nat, cond: bool, ghost b: Base, ghost ex: Expr, ghost tl: seq<nat>,
                     ghost fl: seq<nat>)
      returns (st: Status, pc: nat)
      requires Ready(b, ex, e, tl, fl) && e.k == VRELOCABLE && reg < NREGS
      requires e.info < |code| && code[e.info].NotI? && code[e.info].b == reg
      modifies this`code, this`jpc, this`jl
      ensures st.Success? ==> Undecided(b, ex, e, tl, fl, !cond, pc, [pc])
      ensures |code| <= |old(code)| + 2 && (st.Failure? ==> |code| > MAXARG_SBX)
    {
      hide Good, Tested, Named, IsList, Set;
      ghost var code0 := code;
      GoodReloc(b, ex, code, jl, tl, fl, e.info, nactvar);
      NotTested(b, ex, code, Set(jl), Set(tl), Set(fl), e.info, nactvar, !cond);
      ListMembers(code, e.t, tl);
      ListMembers(code, e.f, fl);
      NamedAt(code, maxstacksize, nk, nups, e.info);
      NamedLess(code, maxstacksize, nk, nups, |code| - 1);
      code := code[..|code| - 1];  // the test takes the place of the NOT
      ShorterLists(code0, code, e, tl, fl);
      ShorterLists(code0, code, e.(t := jpc), jl, fl);
      ghost var code1 := code;
      NotRetested(code0, Test(reg, !cond));
      st, pc := CondJump(Test(reg, !cond));
      if st.Success? {
        assert code == Retested(code0, Test(reg, !cond));
        assert code[..|code1|] == code1;
        PrefixLists(code1, code, e, tl, fl);
        NewJump(code, pc);
        NoList(code);
        TestedSets(b, ex, code, tl, fl, cond, pc);
      }
    }

    /** jumponcond: jumps when the value is `cond'. */
    method JumpOnCond(e: Exp, cond: bool, ghost b: Base, ghost ex: Expr, ghost tl: seq<nat>, ghost fl: seq<nat>)
      returns (st: Status, pc: nat)
      requires Ready(b, ex, e, tl, fl) && (e.k == VK || e.k == VNONRELOC || e.k == VRELOCABLE)
      modifies this`code, this`jpc, this`jl, this`freereg, this`maxstacksize
      ensures st.Success? ==> Undecided(b, ex, e, tl, fl, !cond, pc, [pc])
      ensures |code| <= |old(code)| + 4 && (st.Failure? ==> Full(b.free + 1))
    {
      hide Good, InRegister, Tested, Named;
      ghost var js, ts, fs := Set(jl), Set(tl), Set(fl);
      pc := 0;
      if e.k == VRELOCABLE {
        GoodReloc(b, ex, code, jl, tl, fl, e.info, nactvar);
        var ie := code[e.info];
        if ie.NotI? {
          st, pc := JumpOnNot(e, ie.b, cond, b, ex, tl, fl);
          return;
        }
      }
      var d;
      st, d := Discharge2AnyReg(e, b, ex, tl, fl);
      if st.Failure? {
        return;
      }
      GoodInfo(b, ex, code, Set(jl), ts, fs, d.k, d.info, nactvar);
      FreeExp(d);
      st, pc := TestRegister(d, cond, b, ex, tl, fl);
    }

    method TestRegister(d: Exp, cond: bool, ghost b: Base, ghost ex: Expr, ghost tl: seq<nat>, ghost fl: seq<nat>)
      returns (st: Status, pc: nat)
      requires Stands(b, ex, d, tl, fl) && d.k == VNONRELOC && d.info < MAXSTACK && freereg == b.free
      modifies this`code, this`jpc, this`jl
      ensures st.Success? ==> Undecided(b, ex, d, tl, fl, !cond, pc, [pc])
      ensures |code| <= |old(code)| + 2 && (st.Failure? ==> |code| > MAXARG_SBX)
    {
      hide Good, Tested, Named, IsList, Set;
      ghost var code0, jl0 := code, jl;
      var i := TestSet(NO_REG, d.info, cond);
      GoodApart(b, ex, code, jl, tl, fl, d.k, d.info, nactvar);
      RegisterTested(b, ex, code, Set(jl), Set(tl), Set(fl), d.info, nactvar, !cond);
      ListMembers(code, d.t, tl);
      ListMembers(code, d.f, fl);
      st, pc := CondJump(i);
      if st.Success? {
        EmitLists(code0, jl0, i, d, tl, fl);
        assert code[..|code0| + 1] == Emit(code0, Set(jl0), i);
        PrefixLists(Emit(code0, Set(jl0), i), code, d, tl, fl);
        NewJump(code, pc);
        NoList(code);
        TestedSets(b, ex, code, tl, fl, cond, pc);
      }
    }

    // The jump enters its list, and the other list now leads to here.
    method Settle(e: Exp, c: bool, pc: int, ghost b: Base, ghost ex: Expr, ghost tl: seq<nat>, ghost fl: seq<nat>,
                  ghost pl: seq<nat>)
      returns (st: Status, l: int, ghost s: seq<nat>)
      requires Undecided(b, ex, e, tl, fl, c, pc, pl) && Supported(ex, nactvar) && nactvar <= b.free < MAXSTACK
      modifies this`code, this`jpc, this`jl
      ensures st.Success? ==> IsBranched(b, ex, c, l, s)
      ensures |code| <= |old(code)| && (st.Failure? ==> |code| > MAXARG_SBX)
    {
      hide Tested, Branched, Named;
      ghost var code0 := code;
      ghost var leave, land := if c then fl else tl, if c then tl else fl;
      s := leave + pl;
      ghost var tl1, fl1 := if c then tl else s, if c then s else fl;
      TestedApart(b, ex, code, jl, tl1, fl1, c);
      st, l := Concat(if c then e.f else e.t, pc, leave, pl);
      if st.Success? {
        assert forall j :: j in leave ==> j in s;
        TestedLinked(b, ex, code0, code, leave, pc, Set(jl), Set(tl1), Set(fl1), c);
        LinkedList(code0, code, leave, pc, if c then e.t else e.f, land);
        LinkedList(code0, code, leave, pc, jpc, jl);
        st := Land(if c then e.t else e.f, l, c, b, ex, s, land);
      }
    }

    // patchtohere for the list of an expression of which only the truth matters now.
    method Land(list: int, ghost l: int, c: bool, ghost b: Base, ghost ex: Expr, ghost s: seq<nat>,
                ghost land: seq<nat>)
      returns (st: Status)
      requires Valid() && freereg == b.free && IsList(code, l, s) && IsList(code, list, land)
      requires Tested(b, ex, code, Set(jl), Set(if c then land else s), Set(if c then s else land), c)
      requires Supported(ex, nactvar) && nactvar <= b.free < MAXSTACK
      modifies this`code, this`jpc, this`jl
      ensures st.Success? ==> IsBranched(b, ex, c, l, s)
      ensures |code| <= |old(code)| && (st.Failure? ==> |code| > MAXARG_SBX)
    {
      hide Tested, Branched, IsList, Linked, Named;
      ghost var code1, jl1 := code, jl;
      ghost var ts, fs := Set(if c then land else s), Set(if c then s else land);
      TestedApart(b, ex, code, jl, if c then land else s, if c then s else land, c);
      st := PatchToHere(list, land);
      if st.Success? {
        TestedHere(b, ex, code1, Set(jl1), ts, fs, c, jl1, land);
        TestedLinked(b, ex, code1, code, jl1, list, Set(jl1), ts, fs, c);
        LinkedList(code1, code, jl1, list, l, s);
        SetConcat(jl1, land);
        LandBranched(b, ex, code, Set(jl1), ts, fs, c, nactvar);
      }
    }

    /** invertjump: from now on the jump of the comparison is taken when it fails. */
    method InvertJump(e: Exp, ghost b: Base, ghost ex: Expr, ghost tl: seq<nat>, ghost fl: seq<nat>)
      requires Ready(b, ex, e, tl, fl) && e.k == VJMP
      modifies this`code
      ensures Undecided(b, ex, e, tl, fl, true, e.info, [e.info])
      ensures 1 <= e.info <= |old(code)| && old(code)[e.info - 1].Cmp? && code == Inverted(old(code), e.info)
    {
      hide Good, Tested, Named;
      ghost var code0 := code;
      CompareList(b, ex, code, jl, tl, fl, e.info, nactvar);
      InvertedTested(b, ex, code, Set(jl), Set(tl), Set(fl), e.info, nactvar);
      CompareIsCmp(b, ex, code, Set(jl), Set(tl), Set(fl), e.info, nactvar);
      var i := code[e.info - 1];
      NamedAt(code, maxstacksize, nk, nups, e.info - 1);
      NamedUpdate(code, maxstacksize, nk, nups, e.info - 1, Cmp(i.cop, !i.cond, i.rb, i.rc));
      code := code[e.info - 1 := Cmp(i.cop, !i.cond, i.rb, i.rc)];
      UpdateLists(code0, code, e.info - 1, e, tl, fl);
      UpdateList(code0, code, e.info - 1, jpc, jl);
      NewJump(code, e.info);
      SetAdd(fl, e.info);
      assert Disjoint(fl, [e.info]);
    }

    /** luaK_goiftrue: goes on if the value is true and leaves by the list of false jumps if not. */
    method GoIfTrue(e: Exp, ghost b: Base, ghost ex: Expr, ghost tl: seq<nat>, ghost fl: seq<nat>)
      returns (st: Status, f: int, ghost s: seq<nat>)
      requires Ready(b, ex, e, tl, fl)
      modifies this`code, this`jpc, this`jl, this`freereg, this`maxstacksize
      ensures st.Success? ==> IsBranched(b, ex, true, f, s)
      ensures |code| <= |old(code)| + 5 && (st.Failure? ==> Full(b.free + 1))
    {
      hide Good, InRegister, Tested, Branched, Named;
      f, s := 0, [];
      GoodInfo(b, ex, code, Set(jl), Set(tl), Set(fl), e.k, e.info, nactvar);
      var d;
      st, d := DischargeVars(e, b, ex, tl, fl);
      if st.Failure? {
        return;
      }
      var pc: int := NO_JUMP;
      ghost var pl: seq<nat> := [];
      if d.k == VK {  // a constant is true
        ConstTested(b, ex, code, Set(jl), Set(tl), Set(fl), d.info, nactvar);
        NoList(code);
        assert fl + [] == fl;
      } else if d.k == VJMP {
        InvertJump(d, b, ex, tl, fl);
        pc, pl := d.info, [d.info];
      } else {
        st, pc := JumpOnCond(d, false, b, ex, tl, fl);
        if st.Failure? {
          return;
        }
        pl := [pc];
      }
      st, f, s := Settle(d, true, pc, b, ex, tl, fl, pl);
    }

    /** luaK_goiffalse: goes on if the value is false and leaves by the list of true jumps if not. */
    method GoIfFalse(e: Exp, ghost b: Base, ghost ex: Expr, ghost tl: seq<nat>, ghost fl: seq<nat>)
      returns (st: Status, t: int, ghost s: seq<nat>)
      requires Ready(b, ex, e, tl, fl)
      modifies this`code, this`jpc, this`jl, this`freereg, this`maxstacksize
      ensures st.Success? ==> IsBranched(b, ex, false, t, s)
      ensures |code| <= |old(code)| + 5 && (st.Failure? ==> Full(b.free + 1))
    {
      hide Good, InRegister, Tested, Branched, Named;
      t, s := 0, [];
      GoodInfo(b, ex, code, Set(jl), Set(tl), Set(fl), e.k, e.info, nactvar);
      var d;
      st, d := DischargeVars(e, b, ex, tl, fl);
      if st.Failure? {
        return;
      }
      var pc: int := NO_JUMP;
      if d.k == VJMP {
        CompareList(b, ex, code, jl, tl, fl, d.info, nactvar);
        CompareTested(b, ex, code, Set(jl), Set(tl), Set(fl), d.info, nactvar);
        SetAdd(tl, d.info);
        pc := d.info;
      } else {
        st, pc := JumpOnCond(d, true, b, ex, tl, fl);
        if st.Failure? {
          return;
        }
      }
      st, t, s := Settle(d, false, pc, b, ex, tl, fl, [pc]);
    }

    // ---------- operators ----------

    /** codenot */
    method CodeNot(e: Exp, ghost b: Base, ghost ex: Expr, ghost tl: seq<nat>, ghost fl: seq<nat>)
      returns (st: Status, e1: Exp)
      requires Ready(b, ex, e, tl, fl) && !EndsInConst(ex)
      modifies this`code, this`jpc, this`jl, this`freereg, this`maxstacksize
      ensures st.Success? ==> Ready(b, Not(ex), e1, fl, tl)
      ensures |code| <= |old(code)| + 4 && (st.Failure? ==> Full(b.free + 1))
    {
      hide Good, Tested, Named, IsList, Set, NoValues;
      var d;
      st, d := DischargeVars(e, b, ex, tl, fl);
      e1 := d;
      if st.Failure? {
        return;
      }
      NotConst(b, ex, code, Set(jl), Set(tl), Set(fl), d.k, d.info, nactvar);
      ghost var code1;
      if d.k == VJMP {
        GoodInfo(b, ex, code, Set(jl), Set(tl), Set(fl), d.k, d.info, nactvar);
        GoodApart(b, ex, code, jl, tl, fl, d.k, d.info, nactvar);
        NotCompareGood(b, ex, code, Set(jl), Set(tl), Set(fl), d.info, nactvar);
        CompareList(b, ex, code, jl, tl, fl, d.info, nactvar);
        FirstOf(code, jpc, jl);
        InvertJump(d, b, ex, tl, fl);
        code1 := code;
        e1 := Exp(VJMP, d.info, d.f, d.t);
      } else {
        st, e1, code1 := EmitNot(d, b, ex, tl, fl);
        if st.Failure? {
          return;
        }
      }
      RemoveBoth(e1, tl, fl);
      NoList(code);
    }

    // Neither list carries values any more; f has the members tl now.
    method RemoveBoth(e: Exp, ghost tl: seq<nat>, ghost fl: seq<nat>)
      requires IsList(code, e.t, fl) && IsList(code, e.f, tl) && jl == [] && jpc == NO_JUMP && AllNamed()
      modifies this`code
      ensures AllNamed() && code == NoValues(old(code), Set(tl) + Set(fl))
      ensures IsList(code, e.t, fl) && IsList(code, e.f, tl) && IsList(code, jpc, jl)
    {
      hide IsList;
      ghost var code1 := code;
      RemoveValues(e.f, tl);
      NoValuesList(code1, tl, e.t, fl);
      NoValuesList(code1, tl, e.f, tl);
      RemoveValues(e.t, fl);
      NoValuesList(NoValues(code1, Set(tl)), fl, e.t, fl);
      NoValuesList(NoValues(code1, Set(tl)), fl, e.f, tl);
      NoValuesBoth(code1, Set(tl), Set(fl));
      NoList(code);
    }

    // The value goes to a register and is negated there; the lists have changed places.
    method EmitNot(d: Exp, ghost b: Base, ghost ex: Expr, ghost tl: seq<nat>, ghost fl: seq<nat>)
      returns (st: Status, e1: Exp, ghost code1: Code)
      requires Ready(b, ex, d, tl, fl) && !EndsInConst(ex) && (d.k == VNONRELOC || d.k == VRELOCABLE)
      modifies this`code, this`jpc, this`jl, this`freereg, this`maxstacksize
      ensures st.Success? ==> code == code1 && Valid() && jl == [] && jpc == NO_JUMP && freereg == b.free
      ensures st.Success? ==> e1.k == VRELOCABLE && IsList(code, e1.f, tl) && IsList(code, e1.t, fl)
      ensures st.Success? ==>
                Good(b, Not(ex), NoValues(code, Set(tl) + Set(fl)), {}, Set(fl), Set(tl), e1.k, e1.info, nactvar)
      ensures |code| <= |old(code)| + 3 && (st.Failure? ==> Full(b.free + 1))
    {
      hide Good, Named, IsList, Set;
      code1 := [];
      var r;
      st, r := Discharge2AnyReg(d, b, ex, tl, fl);
      e1 := r;
      if st.Failure? {
        return;
      }
      GoodInfo(b, ex, code, Set(jl), Set(tl), Set(fl), r.k, r.info, nactvar);
      GoodApart(b, ex, code, jl, tl, fl, r.k, r.info, nactvar);
      FreeExp(r);
      NotGood(b, ex, code, Set(jl), Set(tl), Set(fl), r.info, nactvar);
      ghost var code0, jl0 := code, jl;
      var pc;
      st, pc := Code(NotI(0, r.info));
      if st.Success? {
        EmitLists(code0, jl0, NotI(0, r.info), r, tl, fl);
        NoList(code);
        e1 := Exp(VRELOCABLE, pc, r.f, r.t);
        code1 := code;
      }
    }

    /** codecomp */
    method CodeComp(rel: Rel, e1: Exp, e2: Exp, ghost b: Base, ghost ex1: Expr, ghost ex2: Expr,
                    ghost code1: Code, ghost jl1: seq<nat>)
      returns (st: Status, e: Exp)
      requires Operand(b, ex1, code1, Set(jl1), e1.k, e1.info, nactvar)
      requires IsOperand(Base(code1, Set(jl1), FreeAfter(b.free, e1.k, e1.info, nactvar)), ex2, e2)
      requires e1.k == VK ==> e1.info < nk
      modifies this`code, this`jpc, this`jl, this`freereg
      ensures st.Success? ==> Ready(b, Compare(rel, ex1, ex2), e, [], []) && e.t == NO_JUMP && e.f == NO_JUMP
      ensures |code| <= |old(code)| + 2 && (st.Failure? ==> |code| > MAXARG_SBX)
    {
      hide Good, Operand, Set, Emit, RKNamed, RKOf, IsList, CompareInstr, Named, InRegister, WFCode;
      ghost var code2, jl2 := code, jl;
      var o1, o2 := RKOf(e1.k, e1.info), RKOf(e2.k, e2.info);
      OperandInfo(b, ex1, code1, Set(jl1), e1.k, e1.info, nactvar);
      OperandInfo(Base(code1, Set(jl1), FreeAfter(b.free, e1.k, e1.info, nactvar)), ex2, code, Set(jl), e2.k,
                  e2.info, nactvar);
      OperandNamed(e1.k, e1.info, maxstacksize, nk);
      OperandNamed(e2.k, e2.info, maxstacksize, nk);
      FreeExp(e2);
      FreeExp(e1);
      CompareGood(b, rel, ex1, ex2, code1, Set(jl1), e1.k, e1.info, code, Set(jl), e2.k, e2.info, nactvar);
      st, e := EmitCompare(rel, o1, o2, b, Compare(rel, ex1, ex2));
    }

    method EmitCompare(rel: Rel, rk1: nat, rk2: nat, ghost b: Base, ghost ex: Expr) returns (st: Status, e: Exp)
      requires Valid() && freereg == b.free && RKNamed(rk1, maxstacksize, nk) && RKNamed(rk2, maxstacksize, nk)
      requires Good(b, ex, Emit(code, Set(jl), CompareInstr(rel, rk1, rk2)) + [Jmp(NO_JUMP)], {}, {}, {}, VJMP,
                    |code| + 1, nactvar)
      modifies this`code, this`jpc, this`jl
      ensures st.Success? ==> Ready(b, ex, e, [], []) && e.t == NO_JUMP && e.f == NO_JUMP
      ensures |code| <= |old(code)| + 2 && (st.Failure? ==> |code| > MAXARG_SBX)
    {
      hide Good, Set, Emit, RKNamed, IsList, CompareInstr, Named;
      CompareIs(rel, rk1, rk2);
      var o1, o2 := rk1, rk2;
      var cond := rel != Ne;
      if rel == Gt || rel == Ge {  // the same comparison with its operands exchanged
        o1, o2 := o2, o1;
      }
      var op := if rel == Eq || rel == Ne then EQ else if rel == Lt || rel == Gt then LT else LE;
      var pc;
      st, pc := CondJump(Cmp(op, cond, o1, o2));
      e := Exp(VJMP, pc, NO_JUMP, NO_JUMP);
      NoList(code);
    }

    /** codearith, without constant folding */
    method CodeArith(op: nat, e1: Exp, e2: Exp, ghost b: Base, ghost ex1: Expr, ghost ex2: Expr,
                     ghost code1: Code, ghost jl1: seq<nat>)
      returns (st: Status, e: Exp)
      requires Operand(b, ex1, code1, Set(jl1), e1.k, e1.info, nactvar)
      requires IsOperand(Base(code1, Set(jl1), FreeAfter(b.free, e1.k, e1.info, nactvar)), ex2, e2)
      requires e1.k == VK ==> e1.info < nk
      requires op < 6
      modifies this`code, this`jpc, this`jl, this`freereg
      ensures st.Success? ==> Ready(b, Arith(op, ex1, ex2), e, [], []) && e.t == NO_JUMP && e.f == NO_JUMP
      ensures |code| <= |old(code)| + 1 && (st.Failure? ==> |code| > MAXARG_SBX)
    {
      hide Good, Operand, Set, Emit, RKNamed, IsList, Named;
      var o1, o2 := RKOf(e1.k, e1.info), RKOf(e2.k, e2.info);
      OperandInfo(b, ex1, code1, Set(jl1), e1.k, e1.info, nactvar);
      OperandInfo(Base(code1, Set(jl1), FreeAfter(b.free, e1.k, e1.info, nactvar)), ex2, code, Set(jl), e2.k,
                  e2.info, nactvar);
      OperandNamed(e1.k, e1.info, maxstacksize, nk);
      OperandNamed(e2.k, e2.info, maxstacksize, nk);
      if o1 > o2 {
        FreeBoth(e1, e2, b.free);
      } else {
        FreeBoth(e2, e1, b.free);
      }
      ArithGood(b, op, ex1, ex2, code1, Set(jl1), e1.k, e1.info, code, Set(jl), e2.k, e2.info, nactvar);
      var pc;
      st, pc := Code(ArithI(op, 0, o1, o2));
      e := Exp(VRELOCABLE, pc, NO_JUMP, NO_JUMP);
      NoList(code);
    }

    // Two scratch registers are freed, the higher one first.
    method FreeBoth(e: Exp, d: Exp, ghost free: nat)
      requires e.k == VK || (e.k == VNONRELOC && e.info < MAXSTACK)
      requires d.k == VK || (d.k == VNONRELOC && d.info < MAXSTACK)
      requires freereg == free + (if e.k == VNONRELOC && e.info >= nactvar then 1 else 0)
                              + (if d.k == VNONRELOC && d.info >= nactvar then 1 else 0)
      requires e.k == VNONRELOC && e.info >= nactvar ==> e.info == freereg - 1
      requires d.k == VNONRELOC && d.info >= nactvar ==> d.info == free
      modifies this`freereg
      ensures freereg == free
    {
      FreeExp(e);
      FreeExp(d);
    }

    /** luaK_posfix for `and' (c) and `or': the jumps that decided join those of the second operand. */
    method PosJunction(c: bool, l: int, e2: Exp, ghost b: Base, ghost ex1: Expr, ghost ex2: Expr,
                       ghost code1: Code, ghost jl1: seq<nat>, ghost s: seq<nat>, ghost tl: seq<nat>,
                       ghost fl: seq<nat>)
      returns (st: Status, e: Exp, ghost tl2: seq<nat>, ghost fl2: seq<nat>)
      requires Branched(b, ex1, code1, Set(jl1), c, Set(s), nactvar) && IsList(code1, l, s)
      requires Ready(Base(code1, Set(jl1), b.free), ex2, e2, tl, fl)
      modifies this`code, this`jpc, this`jl
      ensures st.Success? ==> Ready(b, Junction(c, ex1, ex2), e, tl2, fl2)
      ensures |code| <= |old(code)| + 1 && (st.Failure? ==> |code| > MAXARG_SBX)
    {
      hide Good, Branched, Junction, IsList, FreeAfter, Linked, Named;
      ghost var b2 := Base(code1, Set(jl1), b.free);
      tl2, fl2 := if c then tl else tl + s, if c then fl + s else fl;
      var d;
      st, d := DischargeVars(e2, b2, ex2, tl, fl);
      e := d;
      if st.Failure? {
        return;
      }
      ghost var code2 := code;
      JunctionList(b, ex1, code1, jl1, c, l, s, b2, ex2, code, Set(jl), Set(tl), Set(fl), d.k, d.info, nactvar);
      JunctionGood(b, c, ex1, ex2, code1, Set(jl1), Set(s), code, Set(jl), Set(tl), Set(fl), d.k, d.info, nactvar);
      SetConcat(tl, s);
      SetConcat(fl, s);
      GoodApart(b, Junction(c, ex1, ex2), code, jl, tl2, fl2, d.k, d.info, nactvar);
      NewMembers(b2, ex2, code, jl, tl, fl, d.k, d.info, nactvar, s);
      var m;
      if c {
        st, m := Concat(d.f, l, fl, s);
        e := Exp(d.k, d.info, d.t, m);
      } else {
        st, m := Concat(d.t, l, tl, s);
        e := Exp(d.k, d.info, m, d.f);
      }
      if st.Success? {
        PosLinked(b, Junction(c, ex1, ex2), code2, code, if c then fl else tl, l, jl, tl2, fl2, d.k, d.info,
                  nactvar, b2);
        LinkedList(code2, code, if c then fl else tl, l, jpc, jl);
        LinkedList(code2, code, if c then fl else tl, l, if c then d.t else d.f, if c then tl else fl);
      }
    }

    // ---------- whole expressions ----------

    ghost function Here(): Base
      reads this
    {
      Base(code, Set(jl), freereg)
    }

    /** Generates the code of an expression, in the order in which the parser reads it. */
    method Compile(ex: Expr) returns (st: Status, e: Exp, ghost tl: seq<nat>, ghost fl: seq<nat>)
      requires Valid() && WFCode(code) && Supported(ex, nactvar) && Uses(ex, nk, nups)
      modifies this`code, this`jpc, this`jl, this`freereg, this`maxstacksize
      ensures st.Success? ==> Ready(old(Here()), ex, e, tl, fl)
      ensures |code| <= |old(code)| + Cost(ex) && (st.Failure? ==> Full(old(freereg) + Need(ex)))
      decreases ex, 1
    {
      hide Good, Branched, Operand, Named;
      ghost var b := Here();
      st, e, tl, fl := Success, Exp(VLOCAL, 0, NO_JUMP, NO_JUMP), [], [];
      if ex.Local? || ex.Upval? || ex.Const? {
        var k := if ex.Local? then VLOCAL else if ex.Upval? then VUPVAL else VK;
        var info := if ex.Local? then ex.reg else ex.idx;
        ListMembers(code, jpc, jl);
        LeafGood(code, Set(jl), freereg, ex, k, info, nactvar);
        NoList(code);
        e := Exp(k, info, NO_JUMP, NO_JUMP);
      } else if ex.Not? {
        st, e, fl, tl := Compile(ex.e);
        if st.Success? {
          st, e := CodeNot(e, b, ex.e, fl, tl);
        }
      } else if ex.And? || ex.Or? {
        st, e, tl, fl := CompileJunction(ex);
      } else {
        st, e := CompilePair(ex);
      }
    }

    method CompileJunction(ex: Expr) returns (st: Status, e: Exp, ghost tl: seq<nat>, ghost fl: seq<nat>)
      requires Valid() && WFCode(code) && Supported(ex, nactvar) && Uses(ex, nk, nups) && (ex.And? || ex.Or?)
      modifies this`code, this`jpc, this`jl, this`freereg, this`maxstacksize
      ensures st.Success? ==> Ready(old(Here()), ex, e, tl, fl)
      ensures |code| <= |old(code)| + Cost(ex) && (st.Failure? ==> Full(old(freereg) + Need(ex)))
      decreases ex, 0
    {
      hide Good, Branched, Named;
      ghost var b := Here();
      var l: int;
      ghost var s;
      st, e, tl, fl := Compile(ex.l);
      if st.Failure? {
        return;
      }
      if ex.And? {
        st, l, s := GoIfTrue(e, b, ex.l, tl, fl);
      } else {
        st, l, s := GoIfFalse(e, b, ex.l, tl, fl);
      }
      if st.Failure? {
        return;
      }
      ghost var code1, jl1 := code, jl;
      BranchedInfo(b, ex.l, code, Set(jl), ex.And?, Set(s), nactvar);
      st, e, tl, fl := Compile(ex.r);
      if st.Failure? {
        return;
      }
      st, e, tl, fl := PosJunction(ex.And?, l, e, b, ex.l, ex.r, code1, jl1, s, tl, fl);
    }

    method CompilePair(ex: Expr) returns (st: Status, e: Exp)
      requires Valid() && WFCode(code) && Supported(ex, nactvar) && Uses(ex, nk, nups) && (ex.Compare? || ex.Arith?)
      modifies this`code, this`jpc, this`jl, this`freereg, this`maxstacksize
      ensures st.Success? ==> Ready(old(Here()), ex, e, [], [])
      ensures |code| <= |old(code)| + Cost(ex) && (st.Failure? ==> Full(old(freereg) + Need(ex)))
      decreases ex, 0
    {
      hide Good, Operand, IsList, Set, Named;
      ghost var b := Here();
      var e1, e2;
      st, e1 := CompileOperand(ex.l);
      e := e1;
      if st.Failure? {
        return;
      }
      ghost var code1, jl1 := code, jl;
      st, e2 := CompileOperand(ex.r);
      if st.Failure? {
        return;
      }
      if ex.Compare? {
        st, e := CodeComp(ex.rel, e1, e2, b, ex.l, ex.r, code1, jl1);
      } else {
        st, e := CodeArith(ex.op, e1, e2, b, ex.l, ex.r, code1, jl1);
      }
    }

    method CompileOperand(ex: Expr) returns (st: Status, e: Exp)
      requires Valid() && WFCode(code) && Supported(ex, nactvar) && Uses(ex, nk, nups)
      modifies this`code, this`jpc, this`jl, this`freereg, this`maxstacksize
      ensures st.Success? ==> IsOperand(old(Here()), ex, e) && WFCode(code)
      ensures |code| <= |old(code)| + Cost(ex) + 8 && (st.Failure? ==> Full(old(freereg) + Need(ex)))
      decreases ex, 2
    {
      hide Good, Operand, IsList, Set, Named;
      ghost var b := Here();
      ghost var tl, fl;
      var o;
      st, e, tl, fl := Compile(ex);
      if st.Failure? {
        return;
      }
      st, e, o := Exp2RK(e, b, ex, tl, fl);
      if st.Success? {
        NoList(code);
        GoodPlaced(b, ex, code, Set(jl), {}, {}, e.k, e.info, nactvar);
      }
    }

    /** `var = ex' for a local variable: from the first to the last instruction emitted, the code
        leaves the value of the expression in the variable and changes no other active
        register, whatever instruction comes next. */
    method AssignLocal(ex: Expr, v: nat) returns (st: Status)
      requires Valid() && WFCode(code) && Supported(ex, nactvar) && Uses(ex, nk, nups)
      requires v < nactvar && freereg == nactvar && AllResolved(code, Set(jl), 0)
      modifies this`code, this`jpc, this`jl, this`freereg, this`maxstacksize
      ensures st.Success? ==> Valid() && WFCode(code) && freereg == nactvar && AllResolved(code, Set(jl), 0)
      ensures st.Success? ==> Grown(old(code), Set(old(jl)), code, Set(jl))
      ensures st.Success? ==> forall i, env, r ::
                Computes(env, ex, Emit(code, Set(jl), i), |old(code)|, |code|, nactvar, v, r)
      ensures |code| <= |old(code)| + Cost(ex) + 5
      ensures st.Failure? ==> |old(code)| + Cost(ex) + 5 > MAXARG_SBX || nactvar + Need(ex) >= MAXSTACK
    {
      hide Good, InRegister, Computes, Named, IsList, Set;
      ghost var b := Here();
      ghost var tl, fl;
      var e;
      st, e, tl, fl := Compile(ex);
      if st.Failure? {
        return;
      }
      GoodInfo(b, ex, code, Set(jl), Set(tl), Set(fl), e.k, e.info, nactvar);
      FreeExp(e);
      st, e := Exp2Reg(e, v, b, ex, tl, fl);
      if st.Success? {
        NoList(code);
        RegisterPlaced(b, ex, code, Set(jl), {}, {}, v);
        StillResolved(b, ex, code, Set(jl), v);
        ghost var lo, n, code1, js := |b.code|, nactvar, code, Set(jl);
        forall i, env, r ensures Computes(env, ex, Emit(code1, js, i), lo, |code1|, n, v, r) {
          NextInstruction(b, ex, code1, js, v, i);
        }
      }
    }

    /** `return ex': the finished code, in which no jump is pending, returns the value. */
    method ReturnValue(ex: Expr) returns (st: Status, first: nat, ghost stop: nat)
      requires Valid() && WFCode(code) && Supported(ex, nactvar) && Uses(ex, nk, nups) && freereg == nactvar
      requires AllResolved(code, Set(jl), 0)
      modifies this`code, this`jpc, this`jl, this`freereg, this`maxstacksize
      ensures st.Success? ==> jl == [] && |old(code)| <= stop && |code| == stop + 1
      ensures st.Success? ==> Valid() && WFCode(code) && AllResolved(code, Set(jl), 0)
      ensures st.Success? ==> Extends(old(code), Set(old(jl)), code)
      ensures st.Success? ==> first < NREGS && code[stop] == Return(first, 2)
      ensures st.Success? ==> forall env, r :: Computes(env, ex, code, |old(code)|, stop, nactvar, first, r)
      ensures |code| <= |old(code)| + Cost(ex) + 8
      ensures st.Failure? ==> |old(code)| + Cost(ex) + 8 > MAXARG_SBX || nactvar + Need(ex) >= MAXSTACK
    {
      hide Good, InRegister, Computes, Named;
      first, stop := 0, 0;
      ghost var b := Here();
      ghost var tl, fl;
      var e;
      st, e, tl, fl := Compile(ex);
      if st.Failure? {
        return;
      }
      st, e := Exp2AnyReg(e, b, ex, tl, fl);
      if st.Failure? {
        return;
      }
      NoList(code);
      GoodInfo(b, ex, code, Set(jl), {}, {}, e.k, e.info, nactvar);
      StayInRegister(b, ex, code, Set(jl), {}, {}, e.info, nactvar);
      RegisterPlaced(b, ex, code, Set(jl), {}, {}, e.info);
      StillResolved(b, ex, code, Set(jl), e.info);
      JumpsToHere(code, jpc, jl);
      ReturnResolved(code, Set(jl), Return(e.info, 2));
      NextInstruction(b, ex, code, Set(jl), e.info, Return(e.info, 2));
      EmitExtends(b.code, b.js, code, Set(jl), Return(e.info, 2));
      first, stop := e.info, |code|;
      var pc;
      st, pc := Code(Return(first, 2));
    }

    /** A block of assignments to locals that ends in a return: its code returns what the block means. */
    method Block(ss: seq<Stmt>, ret: Expr) returns (st: Status, first: nat, ghost stop: nat)
      requires Valid() && WFCode(code) && freereg == nactvar && AllResolved(code, Set(jl), 0)
      requires forall s :: s in ss ==> StmtOK(s, nactvar) && Uses(s.e, nk, nups)
      requires Supported(ret, nactvar) && Uses(ret, nk, nups)
      modifies this`code, this`jpc, this`jl, this`freereg, this`maxstacksize
      ensures |code| <= |old(code)| + BlockCost(ss) + Cost(ret) + 8
      ensures st.Success? ==> jl == [] && |old(code)| <= stop && |code| == stop + 1
      ensures st.Success? ==> Valid() && WFCode(code) && AllResolved(code, Set(jl), 0)
      ensures st.Success? ==> first < NREGS && code[stop] == Return(first, 2)
      ensures st.Success? ==> forall env, r :: Returns(env, ss, ret, code, |old(code)|, stop, first, r)
      ensures st.Failure? ==>
                |old(code)| + BlockCost(ss) + Cost(ret) + 8 > MAXARG_SBX || nactvar + BlockNeed(ss, ret) >= MAXSTACK
    {
      hide Does, Returns, Computes, WFCode, AllResolved, Grown, Named, IsList, Set, Extends, Landed;
      first, stop := 0, 0;
      ghost var lo := |code|;
      EndIsStart(code);
      DoesNothing(code, Set(jl), nactvar);
      for k := 0 to |ss|
        invariant Valid() && WFCode(code) && freereg == nactvar && AllResolved(code, Set(jl), 0)
        invariant lo <= |code| <= lo + BlockCost(ss[..k]) && StartOK(code, lo)
        invariant Does(ss[..k], code, Set(jl), lo, nactvar)
      {
        Costs(ss, k, ret);
        ghost var code0, js0 := code, Set(jl);
        st := AssignLocal(ss[k].e, ss[k].v);
        if st.Failure? {
          return;
        }
        GrownStart(code0, js0, code, Set(jl), lo);
        DoesMore(ss[..k], ss[k], code0, js0, code, Set(jl), lo, nactvar, Return(0, 1));
        assert ss[..k + 1] == ss[..k] + [ss[k]];
      }
      assert ss[..|ss|] == ss;
      RetNeed(ss, ret);
      ghost var code0, js0 := code, Set(jl);
      st, first, stop := ReturnValue(ret);
      if st.Success? {
        ThenReturns(ss, ret, code0, js0, code, lo, stop, nactvar, first);
      }
    }

    /** close_func: with the final return, the function is one that the bytecode checker accepts and that never
        leaves its code. The rest of the prototype is given. */
    method CloseFunc(header: Proto, lines: seq<nat>) returns (st: Status, pt: Proto)
      requires Valid() && WFCode(code) && AllResolved(code, Set(jl), 0) && nk <= MAXARG_BX
      requires |header.k| == nk && header.nups == nups && |header.upvalues| <= nups && |lines| == |code| + 1
      requires header.numparams + (if HasArg(header) then 1 else 0) <= nactvar && (NeedsArg(header) ==> HasArg(header))
      modifies this`code, this`jpc, this`jl
      ensures st.Failure? ==> |old(code)| > MAXARG_SBX
      ensures st.Success? ==> AllEncodable(code) && code == Emit(old(code), Set(old(jl)), Return(0, 1))
      ensures st.Success? ==> pt == header.(code := Words(code), lineinfo := lines, maxstacksize := maxstacksize)
      ensures st.Success? ==> Checker.Accepted(pt)
      ensures st.Success? ==> forall run :: VmSafety.IsRun(pt, run) ==> VmSafety.RunSafe(pt, run)
    {
      hide WFCode, AllResolved, Named, Checker.Accepted, VmSafety.IsRun, VmSafety.RunSafe, IsList;
      ghost var code0, js := code, Set(jl);
      JumpsToHere(code, jpc, jl);
      LandedResolved(code, js);
      pt := header;
      var pc;
      st, pc := Code(Return(0, 1));
      if st.Success? {
        ghost var code1 := Landed(code0, js);
        assert code[..|code1|] == code1;
        NamedLess(code, maxstacksize, nk, nups, |code1|);
        ClosedIsSound(code1, maxstacksize, nk, nups, Return(0, 1));
        pt := header.(code := Words(code), lineinfo := lines, maxstacksize := maxstacksize);
        FinishedIsAccepted(pt, code1, maxstacksize, nk, nups, Return(0, 1));
      }
    }

    /** A whole function, from the first statement to the words: what the interpreter returns when it runs them is
        what the block means, and the checker accepts them. */
    method CompileFunction(ss: seq<Stmt>, ret: Expr, header: Proto, line: nat) returns (st: Status, pt: Proto)
      requires Valid() && code == [] && jl == [] && freereg == nactvar && nk <= MAXARG_BX
      requires forall s :: s in ss ==> StmtOK(s, nactvar) && Uses(s.e, nk, nups)
      requires Supported(ret, nactvar) && Uses(ret, nk, nups)
      requires |header.k| == nk && header.nups == nups && |header.upvalues| <= nups
      requires header.numparams + (if HasArg(header) then 1 else 0) <= nactvar && (NeedsArg(header) ==> HasArg(header))
      modifies this`code, this`jpc, this`jl, this`freereg, this`maxstacksize
      ensures st.Success? ==> pt.k == header.k && pt.nups == header.nups && Checker.Accepted(pt)
      ensures st.Success? ==>
                forall env, r ::
                  VmRun.Call(env, pt.code, 0, r, |pt.code|) == Some([Eval(env, ret, ExecAll(env, ss, r))])
      ensures st.Failure? ==>
                BlockCost(ss) + Cost(ret) + 9 > MAXARG_SBX || nactvar + BlockNeed(ss, ret) >= MAXSTACK
    {
      assert AllResolved(code, Set(jl), 0);
      hide Returns, AllResolved, Checker.Accepted, Named, IsList, WFCode, Words, AllEncodable, VmSafety.RunSafe,
           VmSafety.IsRun, VmRun.Call, Emit, Set;
      pt := header;
      var first;
      ghost var stop;
      st, first, stop := Block(ss, ret);
      if st.Failure? {
        return;
      }
      ghost var code0 := code;
      NothingLands(code, Return(0, 1));
      st, pt := CloseFunc(header, seq(|code| + 1, _ => line));
      if st.Success? {
        forall env, r
          ensures VmRun.Call(env, pt.code, 0, r, |pt.code|) == Some([Eval(env, ret, ExecAll(env, ss, r))])
        {
          CodeWords.BlockWords(env, ss, ret, code0, Return(0, 1), stop, first, r);
        }
      }
    }
  }

  lemma NothingLands(code: Code, i: Instr)
    ensures Emit(code, Set([]), i) == code + [i]
  {
    assert Landed(code, Set([])) == code;
  }

  lemma JumpsToHere(code: Code, l: int, s: seq<nat>)
    requires IsList(code, l, s)
    ensures forall j :: j in Set(s) ==> j < |code| && code[j].Jmp?
  {
    ListMembers(code, l, s);
  }

  // The code before a statement and the code of the statement.
  lemma StillResolved(b: Base, ex: Expr, code: Code, js: set<nat>, reg: nat)
    requires InRegister(b, ex, code, js, {}, {}, reg) && AllResolved(b.code, b.js, 0)
    ensures AllResolved(code, js, 0)
  {
    assert js + {} + {} == js;
    hide Denotes, AllResolved;
    GrownResolved(b.code, b.js, b.js, code, js, js, 0);
  }

  lemma ReturnResolved(code: Code, js: set<nat>, i: Instr)
    requires WFCode(code) && AllResolved(code, js, 0) && i.Return?
    requires forall j :: j in js ==> j < |code| && code[j].Jmp?
    ensures WFCode(Emit(code, js, i)) && AllResolved(Emit(code, js, i), Set([]), 0)
  {
    LandedResolved(code, js);
    var code1 := Landed(code, js);
    ChangeResolved(code1, {}, code1 + [i], Set([]), 0);
    assert forall k :: 0 <= k < |code1| ==> (code1 + [i])[k] == code1[k];
  }

  function BlockCost(ss: seq<Stmt>): nat {
    if ss == [] then 0 else BlockCost(ss[..|ss| - 1]) + Cost(ss[|ss| - 1].e) + 5
  }

  function BlockNeed(ss: seq<Stmt>, ret: Expr): nat {
    if ss == [] then Need(ret)
    else
      var n := BlockNeed(ss[1..], ret);
      if n < Need(ss[0].e) then Need(ss[0].e) else n
  }

  // No statement takes more than the block does.
  lemma Costs(ss: seq<Stmt>, k: nat, ret: Expr)
    requires k < |ss|
    ensures BlockCost(ss[..k + 1]) == BlockCost(ss[..k]) + Cost(ss[k].e) + 5 <= BlockCost(ss)
    ensures Need(ss[k].e) <= BlockNeed(ss, ret)
  {
    assert ss[..k + 1][..k] == ss[..k];
    CostsGrow(ss, k + 1);
    NeedsAtMost(ss, k, ret);
  }

  lemma {:induction false} CostsGrow(ss: seq<Stmt>, k: nat)
    requires k <= |ss|
    ensures BlockCost(ss[..k]) <= BlockCost(ss)
    decreases |ss| - k
  {
    if k < |ss| {
      assert ss[..k + 1][..k] == ss[..k];
      CostsGrow(ss, k + 1);
    } else {
      assert ss[..k] == ss;
    }
  }

  lemma {:induction false} NeedsAtMost(ss: seq<Stmt>, k: nat, ret: Expr)
    requires k < |ss|
    ensures Need(ss[k].e) <= BlockNeed(ss, ret)
  {
    if k > 0 {
      assert ss[1..][k - 1] == ss[k];
      NeedsAtMost(ss[1..], k - 1, ret);
    }
  }

  lemma {:induction false} RetNeed(ss: seq<Stmt>, ret: Expr)
    ensures Need(ret) <= BlockNeed(ss, ret)
  {
    if ss != [] {
      RetNeed(ss[1..], ret);
    }
  }

  // Constants, upvalues and operations that there are.
  predicate Uses(ex: Expr, nk: nat, nu: nat) {
    match ex
    case Local(_) => true
    case Upval(i) => i < nu
    case Const(i) => i < nk
    case Not(a) => Uses(a, nk, nu)
    case And(a, b) => Uses(a, nk, nu) && Uses(b, nk, nu)
    case Or(a, b) => Uses(a, nk, nu) && Uses(b, nk, nu)
    case Compare(_, a, b) => Uses(a, nk, nu) && Uses(b, nk, nu)
    case Arith(op, a, b) => op < 6 && Uses(a, nk, nu) && Uses(b, nk, nu)
  }

  // Registers and instructions that the code of an expression needs at most.
  function Need(ex: Expr): (n: nat)
    ensures n >= 1
  {
    match ex
    case Not(a) => Need(a)
    case And(a, b) => if Need(a) < Need(b) then Need(b) else Need(a)
    case Or(a, b) => if Need(a) < Need(b) then Need(b) else Need(a)
    case Compare(_, a, b) => if Need(a) <= Need(b) then 1 + Need(b) else Need(a)
    case Arith(_, a, b) => if Need(a) <= Need(b) then 1 + Need(b) else Need(a)
    case _ => 1
  }

  function Cost(ex: Expr): nat {
    match ex
    case Not(a) => Cost(a) + 4
    case And(a, b) => Cost(a) + Cost(b) + 6
    case Or(a, b) => Cost(a) + Cost(b) + 6
    case Compare(_, a, b) => Cost(a) + Cost(b) + 18
    case Arith(_, a, b) => Cost(a) + Cost(b) + 18
    case _ => 0
  }

  lemma FirstOf(code: Code, l: int, s: seq<nat>)
    requires IsList(code, l, s)
    ensures l == if s == [] then NO_JUMP else s[0]
  {
  }

  lemma PatchNone(code: Code, s: seq<nat>, vt: nat, reg: nat, dt: nat)
    requires reg < NREGS
    ensures Patched(code, Set(s[..0]), vt, reg, dt) == code
  {
  }

  lemma PatchOne(code: Code, s: seq<nat>, k: nat, vt: nat, reg: nat, dt: nat)
    requires k < |s| && s[k] < |code| && reg < NREGS && NoDup(s) && forall j :: j in s ==> j < |code| && code[j].Jmp?
    ensures var c0, j := Patched(code, Set(s[..k]), vt, reg, dt), s[k];
            Patched(code, Set(s[..k + 1]), vt, reg, dt) ==
              if IsTestSet(code, j) then c0[j - 1 := PatchTest(code[j - 1], reg)][j := Jmp(vt - (j + 1))]
              else c0[j := Jmp(dt - (j + 1))]
    ensures var c0, j := Patched(code, Set(s[..k]), vt, reg, dt), s[k];
            && c0[j] == code[j] && IsTestSet(c0, j) == IsTestSet(code, j)
            && (IsTestSet(code, j) ==> c0[j - 1] == code[j - 1])
  {
    SetPrefix(s, k);
    hide NoDup, PatchTest, Set;
  }

  lemma SetPrefix(s: seq<nat>, k: nat)
    requires k < |s| && NoDup(s)
    ensures s[k] in s && s[k] !in Set(s[..k]) && Set(s[..k + 1]) == Set(s[..k]) + {s[k]}
    ensures forall i :: i in Set(s[..k]) ==> i in s
  {
    assert s[..k + 1] == s[..k] + [s[k]];
  }

  // ---------- lists of an expression ----------

  lemma NoList(code: Code)
    ensures IsList(code, NO_JUMP, []) && Set([]) == {}
  {
  }

  lemma GoodLocal(b: Base, ex: Expr, code: Code, js: set<nat>, ts: set<nat>, fs: set<nat>, info: nat, m: nat)
    requires Good(b, ex, code, js, ts, fs, VLOCAL, info, m)
    ensures info < m
  {
  }

  lemma GoodApart(b: Base, ex: Expr, code: Code, jl: seq<nat>, tl: seq<nat>, fl: seq<nat>, k: Kind, info: nat, m: nat)
    requires Good(b, ex, code, Set(jl), Set(tl), Set(fl), k, info, m)
    ensures Disjoint(jl, tl) && Disjoint(jl, fl) && Disjoint(tl, fl)
  {
    SetApart(jl, tl);
    SetApart(jl, fl);
    SetApart(tl, fl);
  }

  lemma SetApart(s: seq<nat>, t: seq<nat>)
    ensures Set(s) !! Set(t) <==> Disjoint(s, t)
  {
    if Set(s) !! Set(t) {
      forall j | j in s ensures j !in t {
        assert j in Set(s);
      }
    }
  }

  // Lists survive when jumps outside them land.
  lemma EmitLists(code: Code, jl: seq<nat>, i: Instr, e: Exp, tl: seq<nat>, fl: seq<nat>)
    requires IsList(code, e.t, tl) && IsList(code, e.f, fl) && Disjoint(jl, tl) && Disjoint(jl, fl)
    ensures IsList(Emit(code, Set(jl), i), e.t, tl) && IsList(Emit(code, Set(jl), i), e.f, fl)
  {
    EmitList(code, jl, i, e.t, tl);
    EmitList(code, jl, i, e.f, fl);
  }

  lemma EmitList(code: Code, jl: seq<nat>, i: Instr, l: int, s: seq<nat>)
    requires IsList(code, l, s) && Disjoint(jl, s)
    ensures IsList(Emit(code, Set(jl), i), l, s)
  {
    ListMembers(code, l, s);
    forall j | j in s ensures Emit(code, Set(jl), i)[j] == code[j] {
      assert j !in jl;
    }
    ListFrame(code, Emit(code, Set(jl), i), l, s);
  }

  lemma GoodInfo(b: Base, ex: Expr, code: Code, js: set<nat>, ts: set<nat>, fs: set<nat>, k: Kind, info: nat, m: nat)
    requires Good(b, ex, code, js, ts, fs, k, info, m)
    ensures m <= b.free < MAXSTACK && Supported(ex, m)
    ensures k == VNONRELOC || k == VLOCAL ==> info < MAXSTACK && (k == VNONRELOC && info >= m ==> info == b.free)
    ensures k == VRELOCABLE ==> info < |code| && HasResult(code[info])
  {
  }

  // An instruction that is no jump is changed.
  lemma UpdateList(code: Code, code1: Code, pc: nat, l: int, s: seq<nat>)
    requires IsList(code, l, s) && pc < |code| && !code[pc].Jmp? && |code1| == |code|
    requires forall i :: 0 <= i < |code| && i != pc ==> code1[i] == code[i]
    ensures IsList(code1, l, s)
  {
    ListMembers(code, l, s);
    ListFrame(code, code1, l, s);
  }

  lemma UpdateLists(code: Code, code1: Code, pc: nat, e: Exp, tl: seq<nat>, fl: seq<nat>)
    requires IsList(code, e.t, tl) && IsList(code, e.f, fl) && pc < |code| && !code[pc].Jmp? && |code1| == |code|
    requires forall i :: 0 <= i < |code| && i != pc ==> code1[i] == code[i]
    ensures IsList(code1, e.t, tl) && IsList(code1, e.f, fl)
  {
    UpdateList(code, code1, pc, e.t, tl);
    UpdateList(code, code1, pc, e.f, fl);
  }

  lemma PrefixList(code: Code, code1: Code, l: int, s: seq<nat>)
    requires IsList(code, l, s) && |code| <= |code1| && code1[..|code|] == code
    ensures IsList(code1, l, s)
  {
    ListMembers(code, l, s);
    assert forall i :: 0 <= i < |code| ==> code1[i] == code1[..|code|][i];
    ListFrame(code, code1, l, s);
  }

  lemma PrefixLists(code: Code, code1: Code, e: Exp, tl: seq<nat>, fl: seq<nat>)
    requires IsList(code, e.t, tl) && IsList(code, e.f, fl) && |code| <= |code1| && code1[..|code|] == code
    ensures IsList(code1, e.t, tl) && IsList(code1, e.f, fl)
  {
    PrefixList(code, code1, e.t, tl);
    PrefixList(code, code1, e.f, fl);
  }

  lemma RegisterApart(b: Base, ex: Expr, code: Code, jl: seq<nat>, tl: seq<nat>, fl: seq<nat>, reg: nat)
    requires InRegister(b, ex, code, Set(jl), Set(tl), Set(fl), reg)
    ensures Disjoint(jl, tl) && Disjoint(jl, fl) && Disjoint(tl, fl) && reg < MAXSTACK
  {
    SetApart(jl, tl);
    SetApart(jl, fl);
    SetApart(tl, fl);
  }

  // A jump over two labels, on which other jumps wait.
  lemma SkipPlaced(b: Base, ex: Expr, code: Code, jl: seq<nat>, e: Exp, tl: seq<nat>, fl: seq<nat>, reg: nat,
                   code1: Code, code2: Code)
    requires InRegister(b, ex, code, Set(jl), Set(tl), Set(fl), reg) && |b.code| < |code|
    requires IsList(code, e.t, tl) && IsList(code, e.f, fl)
    requires |code1| == |code| + 1 && code1[..|code|] == code && code1[|code|].Jmp?
    requires code2 == code1 + [LoadBool(reg, false, true), LoadBool(reg, true, false)]
    ensures InRegister(b, ex, code2, Set([|code|] + jl), Set(tl), Set(fl), reg) && HasLabels(code2, reg)
    ensures IsList(code2, e.t, tl) && IsList(code2, e.f, fl)
  {
    assert code2[..|code|] == code by {
      assert forall i :: 0 <= i < |code| ==> code2[i] == code1[..|code|][i];
    }
    hide InRegister, IsList;
    SkipInRegister(b, ex, code, Set(jl), Set(tl), Set(fl), reg, code2);
    PrefixLists(code, code2, e, tl, fl);
    assert Set([|code|] + jl) == Set(jl) + {|code|};
  }

  // Something is emitted before the first jump of an expression.
  lemma RegisterEmitted(b: Base, ex: Expr, code: Code, js: set<nat>, e: Exp, tl: seq<nat>, fl: seq<nat>, reg: nat)
    requires InRegister(b, ex, code, js, Set(tl), Set(fl), reg) && IsList(code, e.t, tl) && IsList(code, e.f, fl)
    requires tl != [] || fl != []
    ensures |b.code| < |code|
  {
    ListMembers(code, e.t, tl);
    ListMembers(code, e.f, fl);
    if tl != [] {
      assert tl[0] in tl && tl[0] in Set(tl);
    } else {
      assert fl[0] in fl && fl[0] in Set(fl);
    }
  }

  predicate AllTestSet(code: Code, s: seq<nat>) { forall j :: j in s ==> IsTestSet(code, j) }

  lemma KeptCanPatch(code: Code, js: set<nat>, ts: set<nat>, fs: set<nat>, b: Base, ex: Expr, reg: nat,
                     df: nat, dt: nat)
    requires InRegister(b, ex, code, js, ts, fs, reg) && CanPatch(code, ts, reg, true, dt)
    ensures CanPatch(Patched(code, fs, |code|, reg, df), ts, reg, true, dt)
  {
    var code1 := Patched(code, fs, |code|, reg, df);
    SameMembers(js, ts, fs, js, ts, fs);
    forall j | j in ts ensures SameTest(code, code1, j) {
      PatchTests(code, fs, |code|, reg, df, j);
    }
    if HasLabels(code, reg) {
      PatchLabels(code, fs, reg, df);
    }
  }

  lemma KeptTestSets(code: Code, s: seq<nat>, vt: nat, reg: nat, dt: nat, t: seq<nat>)
    requires reg < NREGS && Disjoint(s, t) && forall j :: j in s || j in t ==> j < |code| && code[j].Jmp?
    ensures AllTestSet(code, t) ==> AllTestSet(Patched(code, Set(s), vt, reg, dt), t)
  {
    forall j | j in t && AllTestSet(code, t) ensures IsTestSet(Patched(code, Set(s), vt, reg, dt), j) {
      PatchTests(code, Set(s), vt, reg, dt, j);
    }
  }

  lemma PatchedList(code: Code, s: seq<nat>, vt: nat, reg: nat, dt: nat, l: int, t: seq<nat>)
    requires reg < NREGS && Disjoint(s, t) && IsList(code, l, t)
    ensures IsList(Patched(code, Set(s), vt, reg, dt), l, t)
    ensures forall j :: j in t ==> j < |code| && code[j].Jmp?
  {
    ListMembers(code, l, t);
    var code1 := Patched(code, Set(s), vt, reg, dt);
    forall j | j in t ensures code1[j] == code[j] {
      assert j !in s;
    }
    ListFrame(code, code1, l, t);
  }

  lemma SetNonEmpty(s: seq<nat>)
    requires s != []
    ensures Set(s) != {}
  {
    assert s[0] in Set(s);
  }

  lemma HeadsDiffer(s: seq<nat>, t: seq<nat>)
    requires s != [] && t != [] && Disjoint(s, t)
    ensures s[0] != t[0]
  {
    assert s[0] in s && t[0] in t;
  }

  lemma CompareList(b: Base, ex: Expr, code: Code, jl: seq<nat>, tl: seq<nat>, fl: seq<nat>, info: nat, m: nat)
    requires Good(b, ex, code, Set(jl), Set(tl), Set(fl), VJMP, info, m)
    ensures jl == [] && IsList(code, info, [info]) && Disjoint(tl, [info]) && Disjoint(tl + [info], fl)
    ensures |b.code| < |code| && b.free < MAXSTACK
  {
    if jl != [] {
      SetNonEmpty(jl);
    }
    GoodApart(b, ex, code, jl, tl, fl, VJMP, info, m);
    forall j | j in tl || j in fl ensures j != info {
      assert j in Set(tl) + Set(fl);
    }
  }

  // The jump of a comparison is linked behind the list of true jumps.
  lemma CompareLinked(b: Base, ex: Expr, code: Code, code1: Code, jl: seq<nat>, tl: seq<nat>, fl: seq<nat>, e: Exp,
                      m: nat)
    requires Good(b, ex, code, Set(jl), Set(tl), Set(fl), VJMP, e.info, m) && IsList(code, e.f, fl) && e.info >= 0
    requires code1 == code || (tl != [] && tl[|tl| - 1] < |code| && code1 == Linked(code, tl, e.info))
    ensures IsList(code1, e.f, fl) && Placed(b, code1, {}, Set(tl + [e.info]), Set(fl)) && |code1| == |code|
    ensures Denotes(ex, code1, {}, Set(tl + [e.info]), Set(fl), |b.code|, |code1|, b.free, NO_REG, Is(false))
    ensures AllResolved(code1, {} + Set(tl + [e.info]) + Set(fl), |b.code|)
  {
    var ts, fs := Set(tl), Set(fl);
    CompareList(b, ex, code, jl, tl, fl, e.info, m);
    CompareTested(b, ex, code, Set(jl), ts, fs, e.info, m);
    SetAdd(tl, e.info);
    assert forall j :: j in tl ==> j in ts && j in {} + (ts + {e.info}) + fs;
    hide Denotes, Good, IsList;
    LinkedOnly(b, code, code1, tl, e.info, {}, ts + {e.info}, fs);
    if code1 != code {
      LinkedPlaced(b, code, {}, ts + {e.info}, fs, code1);
    }
    RelinkDenotes(ex, code, code1, {}, ts + {e.info}, fs, |b.code|, |code|, b.free, NO_REG, Is(false));
    LinkedList(code, code1, tl, e.info, e.f, fl);
    ChangeResolved(code, Set(jl) + (ts + {e.info}) + fs, code1, {} + (ts + {e.info}) + fs, |b.code|);
  }

  // What Concat did to the code changed links of pending jumps only.
  lemma LinkedOnly(b: Base, code: Code, code1: Code, s1: seq<nat>, l2: int, js: set<nat>, ts: set<nat>, fs: set<nat>)
    requires Placed(b, code, js, ts, fs)
    requires forall j :: j in s1 ==> j in js + ts + fs && j >= |b.code|
    requires code1 == code || (s1 != [] && s1[|s1| - 1] < |code| && code1 == Linked(code, s1, l2))
    ensures LinksOnly(b, code, code1, js + ts + fs)
  {
    SameMembers(js, ts, fs, js, ts, fs);
    if code1 != code {
      assert s1[|s1| - 1] in s1;
    }
  }

  lemma LinkedList(code: Code, code1: Code, s1: seq<nat>, l2: int, l: int, t: seq<nat>)
    requires IsList(code, l, t) && Disjoint(s1, t)
    requires code1 == code || (s1 != [] && s1[|s1| - 1] < |code| && code1 == Linked(code, s1, l2))
    ensures IsList(code1, l, t)
  {
    ListMembers(code, l, t);
    if code1 != code {
      assert s1[|s1| - 1] in s1;
      ListFrame(code, code1, l, t);
    }
  }

  lemma LabelsPatch(code: Code, s: seq<nat>, reg: nat, c: bool, dt: nat)
    requires HasLabels(code, reg) && dt == (if c then |code| - 1 else |code| - 2)
    requires forall j :: j in s ==> j < |code| - 2
    ensures CanPatch(code, Set(s), reg, c, dt)
  {
  }

  lemma TestSetsPatch(code: Code, s: seq<nat>, reg: nat, c: bool, dt: nat)
    requires AllTestSet(code, s)
    ensures CanPatch(code, Set(s), reg, c, dt)
  {
  }

  lemma NoJumps(code: Code, d: Exp, tl: seq<nat>, fl: seq<nat>)
    requires IsList(code, d.t, tl) && IsList(code, d.f, fl) && Disjoint(tl, fl) && d.t == d.f
    ensures tl == [] && fl == [] && d.t == NO_JUMP && d.f == NO_JUMP
  {
    if tl != [] && fl != [] {
      HeadsDiffer(tl, fl);
    }
  }

  lemma SomeJumps(code: Code, d: Exp, tl: seq<nat>, fl: seq<nat>)
    requires IsList(code, d.t, tl) && IsList(code, d.f, fl) && d.t != d.f
    ensures tl != [] || fl != []
  {
  }

  lemma GoodReloc(b: Base, ex: Expr, code: Code, jl: seq<nat>, tl: seq<nat>, fl: seq<nat>, info: nat, m: nat)
    requires Good(b, ex, code, Set(jl), Set(tl), Set(fl), VRELOCABLE, info, m)
    ensures jl == [] && |code| == info + 1 && info !in tl && info !in fl && m <= b.free < MAXSTACK
  {
    if jl != [] {
      SetNonEmpty(jl);
    }
    forall j | j in tl || j in fl ensures j != info {
      assert j in Set(tl) + Set(fl);
    }
  }

  lemma CompareIsCmp(b: Base, ex: Expr, code: Code, js: set<nat>, ts: set<nat>, fs: set<nat>, info: nat, m: nat)
    requires Good(b, ex, code, js, ts, fs, VJMP, info, m)
    ensures 1 <= info && |code| == info + 1 && code[info - 1].Cmp? && code[info] == Jmp(NO_JUMP) && js == {}
  {
  }

  lemma NotRetested(code: Code, i: Instr)
    requires code != []
    ensures Emit(code[..|code| - 1], Set([]), i) + [Jmp(NO_JUMP)] == Retested(code, i)
  {
    assert Landed(code[..|code| - 1], Set([])) == code[..|code| - 1];
  }

  // The last instruction goes.
  lemma ShorterLists(code: Code, code1: Code, e: Exp, tl: seq<nat>, fl: seq<nat>)
    requires IsList(code, e.t, tl) && IsList(code, e.f, fl) && code != [] && code1 == code[..|code| - 1]
    requires |code| - 1 !in tl && |code| - 1 !in fl
    ensures IsList(code1, e.t, tl) && IsList(code1, e.f, fl)
  {
    ListMembers(code, e.t, tl);
    ListMembers(code, e.f, fl);
    ListFrame(code, code1, e.t, tl);
    ListFrame(code, code1, e.f, fl);
  }

  lemma NewJump(code: Code, pc: nat)
    requires pc < |code| && code[pc] == Jmp(NO_JUMP)
    ensures IsList(code, pc, [pc])
  {
    assert IsList(code, NO_JUMP, []);
  }

  lemma SetAdd(s: seq<nat>, j: nat)
    ensures Set(s + [j]) == Set(s) + {j}
  {
  }

  lemma TestedSets(b: Base, ex: Expr, code: Code, tl: seq<nat>, fl: seq<nat>, cond: bool, pc: nat)
    requires var ts, fs := if cond then Set(tl) + {pc} else Set(tl), if cond then Set(fl) else Set(fl) + {pc};
             Tested(b, ex, code, {}, ts, fs, !cond)
    ensures var tl1, fl1 := if cond then tl + [pc] else tl, if cond then fl else fl + [pc];
            Tested(b, ex, code, Set([]), Set(tl1), Set(fl1), !cond)
  {
    hide Tested;
    SetAdd(tl, pc);
    SetAdd(fl, pc);
    assert Set([]) == {};
  }

  lemma TestedApart(b: Base, ex: Expr, code: Code, jl: seq<nat>, tl: seq<nat>, fl: seq<nat>, c: bool)
    requires Tested(b, ex, code, Set(jl), Set(tl), Set(fl), c)
    ensures Disjoint(jl, tl) && Disjoint(jl, fl) && Disjoint(tl, fl)
    ensures forall j :: j in tl || j in fl ==> j >= |b.code|
  {
    SetApart(jl, tl);
    SetApart(jl, fl);
    SetApart(tl, fl);
    forall j | j in tl || j in fl ensures j >= |b.code| {
      assert j in Set(tl) || j in Set(fl);
    }
  }

  lemma TestedLinked(b: Base, ex: Expr, code: Code, code1: Code, s1: seq<nat>, l2: int,
                     js: set<nat>, ts: set<nat>, fs: set<nat>, c: bool)
    requires Tested(b, ex, code, js, ts, fs, c)
    requires code1 == code || (s1 != [] && s1[|s1| - 1] < |code| && code1 == Linked(code, s1, l2))
    requires code1 == code || forall j :: j in s1 ==> j >= |b.code| && (j in js || j in ts || j in fs)
    ensures Tested(b, ex, code1, js, ts, fs, c)
  {
    if code1 != code {
      SameMembers(js, ts, fs, js, ts, fs);
      LinkedOnly(b, code, code1, s1, l2, js, ts, fs);
      LinkTested(b, ex, code, js, ts, fs, c, code1);
    }
  }

  // When the expression has jumps of its own, those to here are its own too.
  lemma TestedHere(b: Base, ex: Expr, code: Code, js: set<nat>, ts: set<nat>, fs: set<nat>, c: bool,
                   jl: seq<nat>, land: seq<nat>)
    requires Tested(b, ex, code, js, ts, fs, c) && js == Set(jl) && (if c then ts else fs) == Set(land)
    ensures land != [] ==> forall j :: j in jl ==> j >= |b.code| && j in js
  {
    if land != [] {
      SetNonEmpty(land);
      SameMembers(js, ts, fs, js, ts, fs);
      var j0 :| j0 in Set(land);
      assert j0 >= |b.code| && j0 < |code|;
      assert forall j :: j in jl ==> j in Set(jl);
    }
  }

  lemma NotConst(b: Base, ex: Expr, code: Code, js: set<nat>, ts: set<nat>, fs: set<nat>, k: Kind, info: nat, m: nat)
    requires Good(b, ex, code, js, ts, fs, k, info, m) && !EndsInConst(ex)
    ensures k != VK
  {
  }

  lemma NoValuesBoth(code: Code, s: set<nat>, t: set<nat>)
    ensures NoValues(NoValues(code, s), t) == NoValues(code, s + t)
  {
  }

  lemma NoValuesList(code: Code, s: seq<nat>, l: int, t: seq<nat>)
    requires IsList(code, l, t)
    ensures IsList(NoValues(code, Set(s)), l, t)
  {
    ListMembers(code, l, t);
    ListFrame(code, NoValues(code, Set(s)), l, t);
  }

  lemma OperandInfo(b: Base, ex: Expr, code: Code, js: set<nat>, k: Kind, info: nat, m: nat)
    requires Operand(b, ex, code, js, k, info, m)
    ensures (k == VK && info <= MAXINDEXRK) || (k == VNONRELOC && info < MAXSTACK && (info >= m ==> info == b.free))
    ensures m <= b.free < MAXSTACK
  {
  }

  lemma OperandNamed(k: Kind, info: nat, mx: nat, nk: nat)
    requires (k == VK && info <= MAXINDEXRK && info < nk) || (k == VNONRELOC && info < mx < MAXSTACK)
    ensures RKNamed(RKOf(k, info), mx, nk)
  {
  }

  lemma CompareIs(rel: Rel, o1: nat, o2: nat)
    ensures var op := if rel == Eq || rel == Ne then EQ else if rel == Lt || rel == Gt then LT else LE;
            CompareInstr(rel, o1, o2) ==
            if rel == Gt || rel == Ge then Cmp(op, rel != Ne, o2, o1) else Cmp(op, rel != Ne, o1, o2)
  {
  }

  lemma SetConcat(s: seq<nat>, t: seq<nat>)
    ensures Set(s + t) == Set(s) + Set(t)
  {
  }

  // The list of the first operand is still there after the second one.
  lemma JunctionList(b: Base, ex1: Expr, code1: Code, jl1: seq<nat>, c: bool, l: int, s: seq<nat>,
                     b2: Base, ex2: Expr, code: Code, js: set<nat>, ts: set<nat>, fs: set<nat>, k: Kind,
                         info: nat, m: nat)
    requires Branched(b, ex1, code1, Set(jl1), c, Set(s), m) && IsList(code1, l, s)
    requires b2 == Base(code1, Set(jl1), b.free) && Good(b2, ex2, code, js, ts, fs, k, info, m)
    ensures IsList(code, l, s) && |b.code| <= |b2.code| && forall j :: j in s ==> j < |b2.code|
  {
    ListMembers(code1, l, s);
    assert Set(jl1) !! Set(s);
    GrownJumps(code1, Set(jl1), code, js, Set(s));
    ListFrame(code1, code, l, s);
  }

  lemma NewMembers(b: Base, ex: Expr, code: Code, jl: seq<nat>, tl: seq<nat>, fl: seq<nat>, k: Kind, info: nat,
                   m: nat, s: seq<nat>)
    requires Good(b, ex, code, Set(jl), Set(tl), Set(fl), k, info, m) && forall j :: j in s ==> j < |b.code|
    ensures forall j :: j in tl || j in fl ==> j >= |b.code|
    ensures Disjoint(tl, s) && Disjoint(fl, s)
  {
    forall j | j in tl || j in fl ensures j >= |b.code| {
      assert j in Set(tl) || j in Set(fl);
    }
  }

  lemma PosLinked(b: Base, ex: Expr, code: Code, code1: Code, s1: seq<nat>, l2: int, jl: seq<nat>,
                  tl: seq<nat>, fl: seq<nat>,
                  k: Kind, info: nat, m: nat, b2: Base)
    requires Good(b, ex, code, Set(jl), Set(tl), Set(fl), k, info, m) && |b.code| <= |b2.code|
    requires code1 == code || (s1 != [] && s1[|s1| - 1] < |code| && code1 == Linked(code, s1, l2))
    requires forall j :: j in s1 ==> j >= |b2.code| && (j in tl || j in fl)
    ensures Good(b, ex, code1, Set(jl), Set(tl), Set(fl), k, info, m)
  {
    SameMembers(Set(jl), Set(tl), Set(fl), Set(jl), Set(tl), Set(fl));
    forall j | j in s1 ensures j in Set(jl) + Set(tl) + Set(fl) {
      assert j in Set(tl) || j in Set(fl);
    }
    LinkedOnly(b, code, code1, s1, l2, Set(jl), Set(tl), Set(fl));
    hide Denotes;
    LinkGood(b, ex, code, Set(jl), Set(tl), Set(fl), k, info, m, code1);
  }

  lemma BranchedInfo(b: Base, ex: Expr, code: Code, js: set<nat>, c: bool, es: set<nat>, m: nat)
    requires Branched(b, ex, code, js, c, es, m)
    ensures WFCode(code)
  {
  }

  lemma GoodPlaced(b: Base, ex: Expr, code: Code, js: set<nat>, ts: set<nat>, fs: set<nat>, k: Kind, info: nat, m: nat)
    requires Good(b, ex, code, js, ts, fs, k, info, m)
    ensures WFCode(code)
  {
  }

  lemma RegisterPlaced(b: Base, ex: Expr, code: Code, js: set<nat>, ts: set<nat>, fs: set<nat>, reg: nat)
    requires InRegister(b, ex, code, js, ts, fs, reg)
    ensures WFCode(code) && Grown(b.code, b.js, code, js) && |b.code| <= |code|
  {
  }
}
