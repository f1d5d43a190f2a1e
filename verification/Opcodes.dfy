/** The 32-bit instruction word and the operation table that both the bytecode checker
    and the virtual machine decode. */
module Opcodes {
  import opened Limits

  type Byte = b: nat | b < 256

  /** A 32-bit instruction word, as the four bit fields it is made of: the opcode in the low
      6 bits, then A (8 bits), C (9 bits) and B (9 bits). */
  datatype Fields = Fields(op: nat, a: nat, c: nat, b: nat)

  type Word = w: Fields | w.op < 64 && w.a < 256 && w.c < 512 && w.b < 512
    witness Fields(0, 0, 0, 0)

  const ZERO: Word := Fields(0, 0, 0, 0)

  // C and B read together as one 18-bit field.
  function GetBx(w: Word): nat { w.c + 512 * w.b }

  function GetSBx(w: Word): int { GetBx(w) - MAXARG_SBX }

  predicate IsK(r: nat) { r >= BITRK }

  function IndexK(r: nat): nat
    requires IsK(r)
  {
    r - BITRK
  }

  const OP_MOVE := 0
  const OP_LOADK := 1
  const OP_LOADBOOL := 2
  const OP_LOADNIL := 3
  const OP_GETUPVAL := 4
  const OP_GETGLOBAL := 5
  const OP_GETTABLE := 6
  const OP_SETGLOBAL := 7
  const OP_SETUPVAL := 8
  const OP_SETTABLE := 9
  const OP_NEWTABLE := 10
  const OP_SELF := 11
  const OP_ADD := 12
  const OP_SUB := 13
  const OP_MUL := 14
  const OP_DIV := 15
  const OP_MOD := 16
  const OP_POW := 17
  const OP_UNM := 18
  const OP_NOT := 19
  const OP_LEN := 20
  const OP_CONCAT := 21
  const OP_JMP := 22
  const OP_EQ := 23
  const OP_LT := 24
  const OP_LE := 25
  const OP_TEST := 26
  const OP_TESTSET := 27
  const OP_CALL := 28
  const OP_TAILCALL := 29
  const OP_RETURN := 30
  const OP_FORLOOP := 31
  const OP_FORPREP := 32
  const OP_TFORLOOP := 33
  const OP_SETLIST := 34
  const OP_CLOSE := 35
  const OP_CLOSURE := 36
  const OP_VARARG := 37
  const NUM_OPCODES := 38

  datatype OpMode = IABC | IABx | IAsBx
  datatype ArgMode = ArgN | ArgU | ArgR | ArgK
  datatype OpInfo = OpInfo(isTest: bool, setsA: bool, b: ArgMode, c: ArgMode, mode: OpMode)

  // One row per opcode, in opcode order.
  const OPMODES: seq<OpInfo> := [
    OpInfo(false, true, ArgR, ArgN, IABC),
    OpInfo(false, true, ArgK, ArgN, IABx),
    OpInfo(false, true, ArgU, ArgU, IABC),
    OpInfo(false, true, ArgR, ArgN, IABC),
    OpInfo(false, true, ArgU, ArgN, IABC),
    OpInfo(false, true, ArgK, ArgN, IABx),
    OpInfo(false, true, ArgR, ArgK, IABC),
    OpInfo(false, false, ArgK, ArgN, IABx),
    OpInfo(false, false, ArgU, ArgN, IABC),
    OpInfo(false, false, ArgK, ArgK, IABC),
    OpInfo(false, true, ArgU, ArgU, IABC),
    OpInfo(false, true, ArgR, ArgK, IABC),
    OpInfo(false, true, ArgK, ArgK, IABC),
    OpInfo(false, true, ArgK, ArgK, IABC),
    OpInfo(false, true, ArgK, ArgK, IABC),
    OpInfo(false, true, ArgK, ArgK, IABC),
    OpInfo(false, true, ArgK, ArgK, IABC),
    OpInfo(false, true, ArgK, ArgK, IABC),
    OpInfo(false, true, ArgR, ArgN, IABC),
    OpInfo(false, true, ArgR, ArgN, IABC),
    OpInfo(false, true, ArgR, ArgN, IABC),
    OpInfo(false, true, ArgR, ArgR, IABC),
    OpInfo(false, false, ArgR, ArgN, IAsBx),
    OpInfo(true, false, ArgK, ArgK, IABC),
    OpInfo(true, false, ArgK, ArgK, IABC),
    OpInfo(true, false, ArgK, ArgK, IABC),
    OpInfo(true, true, ArgR, ArgU, IABC),
    OpInfo(true, true, ArgR, ArgU, IABC),
    OpInfo(false, true, ArgU, ArgU, IABC),
    OpInfo(false, true, ArgU, ArgU, IABC),
    OpInfo(false, false, ArgU, ArgN, IABC),
    OpInfo(false, true, ArgR, ArgN, IAsBx),
    OpInfo(false, true, ArgR, ArgN, IAsBx),
    OpInfo(true, false, ArgN, ArgU, IABC),
    OpInfo(false, false, ArgU, ArgU, IABC),
    OpInfo(false, false, ArgN, ArgN, IABC),
    OpInfo(false, true, ArgU, ArgN, IABx),
    OpInfo(false, true, ArgU, ArgN, IABC)
  ]
}

/** A compiled function: what the compiler emits, the dumper writes and the checker reads. */
module Protos {
  import opened Basics
  import opened Opcodes

  type Bytes = seq<Byte>

  datatype Const = KNil | KBool(b: bool) | KNumber(n: int) | KString(s: Option<Bytes>)

  datatype LocVar = LocVar(varname: Option<Bytes>, startpc: nat, endpc: nat)

  datatype Proto = Proto(
    source: Option<Bytes>,
    linedefined: nat,
    lastlinedefined: nat,
    nups: Byte,
    numparams: Byte,
    isVararg: Byte,
    maxstacksize: Byte,
    code: seq<Word>,
    k: seq<Const>,
    p: seq<Proto>,
    lineinfo: seq<nat>,
    locvars: seq<LocVar>,
    upvalues: seq<Option<Bytes>>)

  // Bits of isVararg.
  predicate HasArg(pt: Proto) { pt.isVararg % 2 == 1 }

  predicate IsVarArg(pt: Proto) { pt.isVararg / 2 % 2 == 1 }

  predicate NeedsArg(pt: Proto) { pt.isVararg / 4 % 2 == 1 }
}
