/** The interpreter loop of lvm.c on the words of a function: what each instruction that the model of the code
    generator uses does to the registers, decoded from its fields. */
module VmRun {
  import opened Basics
  import opened Opcodes
  import opened CodeSem

  datatype Effect = Go(pc: nat, r: Regs) | Returned(vs: seq<Value>) | Fault

  // RK(x): a register or a constant.
  function RegOrConst(env: Env, r: Regs, x: nat): Value { if x < 256 then r[x] else Konst(env, x - 256) }

  // dojump
  function Jump(pc: nat, w: Word, r: Regs): Effect {
    var dest := pc + (w.c + 512 * w.b) - 131071;
    if dest < 0 then Fault else Go(dest, r)
  }

  // The jump behind a test is taken or skipped; r1 are the registers if it is taken.
  function Branch(code: seq<Word>, pc: nat, taken: bool, r: Regs, r1: Regs): Effect {
    if pc + 1 >= |code| then Fault else if taken then Jump(pc + 2, code[pc + 1], r1) else Go(pc + 2, r)
  }

  function OneIf(b: bool): nat { if b then 1 else 0 }

  function Execute(env: Env, code: seq<Word>, pc: nat, r: Regs): Effect
    requires pc < |code|
  {
    var w := code[pc];
    var a, b, c := w.a, w.b, w.c;
    if w.op == 0 && b < 256 then Go(pc + 1, r[a := r[b]])                         // MOVE
    else if w.op == 1 then Go(pc + 1, r[a := Konst(env, c + 512 * b)])              // LOADK
    else if w.op == 2 then Go(if c != 0 then pc + 2 else pc + 1, r[a := Bool(b != 0)])  // LOADBOOL
    else if w.op == 4 then Go(pc + 1, r[a := env.up(b)])                          // GETUPVAL
    else if 12 <= w.op <= 17 then                                                 // ADD, SUB, MUL, DIV, MOD, POW
      Go(pc + 1, r[a := env.arith(w.op - 12, RegOrConst(env, r, b), RegOrConst(env, r, c))])
    else if w.op == 19 && b < 256 then Go(pc + 1, r[a := Bool(Falsy(r[b]))])       // NOT
    else if w.op == 22 then Jump(pc + 1, w, r)                                    // JMP
    else if 23 <= w.op <= 25 then                                                 // EQ, LT, LE
      var op := if w.op == 23 then EQ else if w.op == 24 then LT else LE;
      Branch(code, pc, OneIf(env.cmp(op, RegOrConst(env, r, b), RegOrConst(env, r, c))) == a, r, r)
    else if w.op == 26 then Branch(code, pc, OneIf(Falsy(r[a])) != c, r, r)          // TEST
    else if w.op == 27 && b < 256 then                                            // TESTSET
      Branch(code, pc, OneIf(Falsy(r[b])) != c, r, r[a := r[b]])
    else if w.op == 30 && b > 0 && a + b - 1 <= 256 then Returned(r[a..a + b - 1])   // RETURN
    else Fault
  }

  /** What a function returns when it is run from pc on, in so many steps at most. */
  function Call(env: Env, code: seq<Word>, pc: nat, r: Regs, steps: nat): Option<seq<Value>>
    decreases steps
  {
    if steps == 0 || pc >= |code| then None
    else
      match Execute(env, code, pc, r)
      case Go(next, r1) => Call(env, code, next, r1, steps - 1)
      case Returned(vs) => Some(vs)
      case Fault => None
  }
}
