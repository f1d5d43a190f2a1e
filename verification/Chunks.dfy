/** The layout of precompiled chunks (ldump.c), as functions from prototypes to bytes. */
module Chunks {
  import opened Basics
  import opened Limits
  import opened Opcodes
  import opened Protos
  import opened Checker

  const TWO31: nat := 0x8000_0000
  const TWO32: nat := 0x1_0000_0000

  // ---------- numbers ----------

  // Four bytes, the least significant first.
  function Put4(n: nat): (b: Bytes)
    requires n < TWO32
    ensures |b| == 4
  {
    [n % 256, n / 256 % 256, n / 65536 % 256, n / 16777216]
  }

  function Get4(b: Bytes): nat
    requires |b| == 4
  {
    var b0: nat, b1: nat, b2: nat, b3: nat := b[0], b[1], b[2], b[3];
    b0 + 256 * b1 + 65536 * b2 + 16777216 * b3
  }

  lemma Put4Get4(n: nat)
    requires n < TWO32
    ensures Get4(Put4(n)) == n
  {
    var q := n / 256;
    assert n == 256 * q + n % 256;
    assert q == 256 * (q / 256) + q % 256;
    assert n / 65536 == q / 256 && n / 16777216 == q / 65536;
    assert q / 256 == 256 * (q / 65536) + q / 256 % 256;
  }

  // An instruction word as a number.
  function WordNum(w: Word): (n: nat)
    ensures n < TWO32
  {
    w.op + 64 * w.a + 16384 * w.c + 8388608 * w.b
  }

  function NumWord(n: nat): Word
    requires n < TWO32
  {
    Fields(n % 64, n / 64 % 256, n / 16384 % 512, n / 8388608)
  }

  lemma WordNumWord(w: Word)
    ensures NumWord(WordNum(w)) == w
  {
    var n := WordNum(w);
    assert n / 8388608 == w.b;
    assert n / 16384 == w.c + 512 * w.b;
    assert n / 64 == w.a + 256 * (w.c + 512 * w.b);
  }

  // ---------- what can be written ----------

  predicate StringFits(s: Option<Bytes>) { s.Some? ==> |s.value| + 1 < TWO32 }

  predicate ConstFits(c: Const) {
    match c
    case KNumber(n) => 0 <= n < TWO32  // the bits of a long
    case KString(s) => StringFits(s)
    case _ => true
  }

  predicate LocVarFits(v: LocVar) { StringFits(v.varname) && v.startpc < TWO31 && v.endpc < TWO31 }

  predicate PartsFit(f: Proto) {
    && StringFits(f.source) && f.linedefined < TWO31 && f.lastlinedefined < TWO31
    && |f.code| < TWO31 && |f.k| < TWO31 && |f.p| < TWO31
    && |f.lineinfo| < TWO31 && |f.locvars| < TWO31 && |f.upvalues| < TWO31
    && (forall i :: 0 <= i < |f.k| ==> ConstFits(f.k[i]))
    && (forall i :: 0 <= i < |f.lineinfo| ==> f.lineinfo[i] < TWO31)
    && (forall i :: 0 <= i < |f.locvars| ==> LocVarFits(f.locvars[i]))
    && (forall i :: 0 <= i < |f.upvalues| ==> StringFits(f.upvalues[i]))
  }

  /** A checked prototype tree, with sizes that C integers can hold, nested at most as deep as
      the loader allows from `level' on. */
  ghost predicate Dumpable(f: Proto, level: nat)
    decreases f, 1
  {
    level + 1 <= LUAI_MAXCCALLS && PartsFit(f) && Accepted(f) && AllDumpable(f.p, level + 1)
  }

  ghost predicate AllDumpable(ps: seq<Proto>, level: nat)
    decreases ps, 0
  {
    forall i :: 0 <= i < |ps| ==> Dumpable(ps[i], level)
  }

  // ---------- the layout ----------

  function PutString(s: Option<Bytes>): Bytes
    requires StringFits(s)
  {
    match s
    case None => Put4(0)
    case Some(b) => Put4(|b| + 1) + b + [0]
  }

  const LUA_TNIL: Byte := 0
  const LUA_TBOOLEAN: Byte := 1
  const LUA_TNUMBER: Byte := 3
  const LUA_TSTRING: Byte := 4

  function PutConst(c: Const): Bytes
    requires ConstFits(c)
  {
    match c
    case KNil => [LUA_TNIL]
    case KBool(b) => [LUA_TBOOLEAN, if b then 1 else 0]
    case KNumber(n) => [LUA_TNUMBER] + Put4(n)
    case KString(s) => [LUA_TSTRING] + PutString(s)
  }

  function PutLocVar(v: LocVar): Bytes
    requires LocVarFits(v)
  {
    PutString(v.varname) + Put4(v.startpc) + Put4(v.endpc)
  }

  function PutWords(ws: seq<Word>): Bytes { if ws == [] then [] else Put4(WordNum(ws[0])) + PutWords(ws[1..]) }

  function PutInts(ns: seq<nat>): Bytes
    requires forall i :: 0 <= i < |ns| ==> ns[i] < TWO31
  {
    if ns == [] then [] else Put4(ns[0]) + PutInts(ns[1..])
  }

  function PutConsts(cs: seq<Const>): Bytes
    requires forall i :: 0 <= i < |cs| ==> ConstFits(cs[i])
  {
    if cs == [] then [] else PutConst(cs[0]) + PutConsts(cs[1..])
  }

  function PutLocVars(vs: seq<LocVar>): Bytes
    requires forall i :: 0 <= i < |vs| ==> LocVarFits(vs[i])
  {
    if vs == [] then [] else PutLocVar(vs[0]) + PutLocVars(vs[1..])
  }

  function PutStrings(ss: seq<Option<Bytes>>): Bytes
    requires forall i :: 0 <= i < |ss| ==> StringFits(ss[i])
  {
    if ss == [] then [] else PutString(ss[0]) + PutStrings(ss[1..])
  }

  function PutDebug(f: Proto, strip: bool): Bytes
    requires PartsFit(f)
  {
    var li := if strip then [] else f.lineinfo;
    var lv := if strip then [] else f.locvars;
    var uv := if strip then [] else f.upvalues;
    Put4(|li|) + PutInts(li) + (Put4(|lv|) + PutLocVars(lv)) + (Put4(|uv|) + PutStrings(uv))
  }

  function PutHead(f: Proto, parent: Option<Bytes>, strip: bool): Bytes
    requires PartsFit(f)
  {
    PutString(if f.source == parent || strip then None else f.source)
    + Put4(f.linedefined) + Put4(f.lastlinedefined) + [f.nups, f.numparams, f.isVararg, f.maxstacksize]
  }

  function PutFunction(f: Proto, parent: Option<Bytes>, strip: bool, level: nat): Bytes
    requires Dumpable(f, level)
    decreases f, 1
  {
    PutHead(f, parent, strip) + (Put4(|f.code|) + PutWords(f.code)) + (Put4(|f.k|) + PutConsts(f.k))
    + (Put4(|f.p|) + PutFunctions(f.p, f.source, strip, level + 1)) + PutDebug(f, strip)
  }

  function PutFunctions(ps: seq<Proto>, parent: Option<Bytes>, strip: bool, level: nat): Bytes
    requires AllDumpable(ps, level)
    decreases ps, 0
  {
    if ps == [] then [] else
      assert Dumpable(ps[0], level);
      assert forall i :: 0 <= i < |ps[1..]| ==> ps[1..][i] == ps[i + 1];
      PutFunction(ps[0], parent, strip, level) + PutFunctions(ps[1..], parent, strip, level)
  }

  // ---------- what comes back ----------

  // A function without a source of its own has that of the function around it.
  function SourceOf(f: Proto, parent: Option<Bytes>, strip: bool): Option<Bytes> {
    if strip || f.source.None? then parent else f.source
  }

  /** The tree that loading a dump gives: the same code, constants and children, the debug
      information unless it was stripped, and every source known. */
  function Loaded(f: Proto, parent: Option<Bytes>, strip: bool): Proto
    decreases f, 1
  {
    var source := SourceOf(f, parent, strip);
    f.(source := source, p := LoadedAll(f.p, source, strip),
       lineinfo := if strip then [] else f.lineinfo,
       locvars := if strip then [] else f.locvars,
       upvalues := if strip then [] else f.upvalues)
  }

  function LoadedAll(ps: seq<Proto>, parent: Option<Bytes>, strip: bool): (r: seq<Proto>)
    ensures |r| == |ps|
    decreases ps, 0
  {
    if ps == [] then [] else [Loaded(ps[0], parent, strip)] + LoadedAll(ps[1..], parent, strip)
  }

  // Every function of the tree knows its source.
  predicate SourcesKnown(f: Proto)
    decreases f, 1
  {
    f.source.Some? && forall i :: 0 <= i < |f.p| ==> SourcesKnown(f.p[i])
  }

  /** Without stripping, the same tree comes back exactly if every function has a source. */
  lemma {:induction false} LoadedIsSame(f: Proto, parent: Option<Bytes>)
    requires parent.Some?
    ensures Loaded(f, parent, false) == f <==> SourcesKnown(f)
    ensures SourcesKnown(Loaded(f, parent, false))
    decreases f, 1
  {
    var source := SourceOf(f, parent, false);
    LoadedAllSame(f.p, source);
  }

  // A function that only returns and does not know its source.
  const SOURCELESS: Proto := Proto(None, 0, 0, 0, 0, 0, 2, [Fields(OP_RETURN, 0, 0, 1)], [], [], [], [], [])

  /** One that comes back different: it has got the source of the function around it. */
  lemma SourcelessIsChanged(parent: Bytes)
    ensures Dumpable(SOURCELESS, 0)
    ensures Loaded(SOURCELESS, Some(parent), false) == SOURCELESS.(source := Some(parent))
  {
    assert OPMODES[OP_RETURN] == OpInfo(false, false, ArgU, ArgN, IABC);
    assert InstrOK(SOURCELESS, 0);
  }

  lemma {:induction false} LoadedAllSame(ps: seq<Proto>, parent: Option<Bytes>)
    requires parent.Some?
    ensures (forall i :: 0 <= i < |ps| ==> SourcesKnown(ps[i])) ==> LoadedAll(ps, parent, false) == ps
    ensures forall i :: 0 <= i < |ps| ==> SourcesKnown(LoadedAll(ps, parent, false)[i])
    decreases ps, 0
  {
    if ps != [] {
      LoadedIsSame(ps[0], parent);
      LoadedAllSame(ps[1..], parent);
      assert ps == [ps[0]] + ps[1..];
    }
  }

  lemma {:induction false} LoadedAllAt(ps: seq<Proto>, parent: Option<Bytes>, strip: bool, i: nat)
    requires i < |ps|
    ensures LoadedAll(ps, parent, strip)[i] == Loaded(ps[i], parent, strip)
    decreases |ps|
  {
    if i > 0 {
      LoadedAllAt(ps[1..], parent, strip, i - 1);
    }
  }

  /** Stripping takes the debug information and the source from every function of the tree and nothing else. */
  lemma Stripped(f: Proto, parent: Option<Bytes>)
    ensures var g := Loaded(f, parent, true);
            && g.source == parent && g.lineinfo == [] && g.locvars == [] && g.upvalues == []
            && g.linedefined == f.linedefined && g.lastlinedefined == f.lastlinedefined
            && g.nups == f.nups && g.numparams == f.numparams && g.isVararg == f.isVararg
            && g.maxstacksize == f.maxstacksize && g.code == f.code && g.k == f.k
            && |g.p| == |f.p| && forall i :: 0 <= i < |f.p| ==> g.p[i] == Loaded(f.p[i], parent, true)
  {
    forall i | 0 <= i < |f.p| ensures LoadedAll(f.p, parent, true)[i] == Loaded(f.p[i], parent, true) {
      LoadedAllAt(f.p, parent, true, i);
    }
  }

  /** What comes back passes the checker if what went out did. */
  lemma LoadedAccepted(f: Proto, parent: Option<Bytes>, strip: bool)
    requires Accepted(f)
    ensures Accepted(Loaded(f, parent, strip))
  {
    var g := Loaded(f, parent, strip);
    assert forall i :: 0 <= i < |f.p| ==> g.p[i].nups == f.p[i].nups by {
      forall i | 0 <= i < |f.p| ensures g.p[i].nups == f.p[i].nups {
        LoadedAllAt(f.p, SourceOf(f, parent, strip), strip, i);
      }
    }
    forall pc | 0 <= pc < |g.code| && IsInstr(g.code, pc) ensures InstrOK(g, pc) {
      assert InstrOK(f, pc);
      SameInstrOK(f, g, pc);
    }
  }

  lemma SameInstrOK(f: Proto, g: Proto, pc: nat)
    requires pc < |f.code| && InstrOK(f, pc)
    requires g.code == f.code && g.k == f.k && g.nups == f.nups && g.maxstacksize == f.maxstacksize
    requires g.isVararg == f.isVararg && |g.p| == |f.p| && forall i :: 0 <= i < |f.p| ==> g.p[i].nups == f.p[i].nups
    ensures InstrOK(g, pc)
  {
  }
}
