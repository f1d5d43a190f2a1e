/** Writing and reading precompiled chunks: ldump.c, lundump.c and the buffered stream of
    lzio.c, whose reader delivers the input in pieces of any size. */
module Dump {
  import opened Basics
  import opened Limits
  import opened Opcodes
  import opened Protos
  import opened Checker
  import opened Chunks

  // ---------- the stream ----------

  // What a reader still delivers; an empty piece ends the stream.
  function Pieces(chunks: seq<Bytes>): Bytes {
    if chunks == [] || chunks[0] == [] then [] else chunks[0] + Pieces(chunks[1..])
  }

  class Zio {
    var p: Bytes             // bytes still unread
    var reader: seq<Bytes>   // the pieces to come

    constructor (chunks: seq<Bytes>)
      ensures Stream() == Pieces(chunks)
    {
      p, reader := [], chunks;
    }

    ghost function Stream(): Bytes
      reads this
    {
      p + Pieces(reader)
    }

    /** luaZ_lookahead: fills the buffer if it is empty. */
    method Lookahead() returns (eoz: bool)
      modifies this
      ensures eoz <==> old(Stream()) == []
      ensures !eoz ==> Stream() == old(Stream()) && p != []
    {
      if p == [] {
        if reader == [] {
          return true;
        }
        var buff := reader[0];
        reader := reader[1..];
        if buff == [] {
          return true;
        }
        p := buff;
      }
      return false;
    }

    /** luaZ_read: the next n bytes, whatever pieces they come in. */
    method Read(n: nat) returns (b: Bytes, missing: nat)
      modifies this
      ensures missing == if n <= |old(Stream())| then 0 else n - |old(Stream())|
      ensures missing == 0 ==> |b| == n && old(Stream()) == b + Stream()
    {
      hide Pieces;
      b := [];
      missing := n;
      ghost var s0 := Stream();
      assert s0 == b + Stream();
      while missing > 0
        invariant |b| + missing == n && s0 == b + Stream()
        decreases missing
      {
        ghost var s := Stream();
        var eoz := Lookahead();
        if eoz {
          return;
        }
        var m := if missing <= |p| then missing else |p|;  // as much as the buffer has
        Consumed(b, p, m, Pieces(reader));
        b := b + p[..m];
        p := p[m..];
        missing := missing - m;
      }
    }
  }

  lemma Consumed(b: Bytes, p: Bytes, m: nat, rest: Bytes)
    requires m <= |p|
    ensures b + (p + rest) == (b + p[..m]) + (p[m..] + rest)
  {
    assert p == p[..m] + p[m..];
  }

  lemma OneMore(n: Bytes, done: Bytes, one: Bytes, rest: Bytes, out: Bytes)
    ensures done + (one + rest) == (done + one) + rest
    ensures out + (n + done) + one == out + (n + (done + one))
  {
  }

  lemma NoFunctions(p: Option<Bytes>, strip: bool, level: nat, done: Bytes)
    ensures AllDumpable([], level) && done + PutFunctions([], p, strip, level) == done
  {
  }

  // ---------- dumping ----------

  lemma FirstOf(ps: seq<Proto>, p: Option<Bytes>, strip: bool, level: nat, i: nat)
    requires i < |ps| && AllDumpable(ps[i..], level)
    ensures Dumpable(ps[i], level) && AllDumpable(ps[i + 1..], level)
    ensures PutFunctions(ps[i..], p, strip, level) ==
            PutFunction(ps[i], p, strip, level) + PutFunctions(ps[i + 1..], p, strip, level)
  {
    hide PutFunction;
    assert ps[i..][0] == ps[i] && ps[i..][1..] == ps[i + 1..];
    assert Dumpable(ps[i..][0], level);
    forall j | i < j < |ps| ensures Dumpable(ps[j], level) {
      assert Dumpable(ps[i..][j - i], level);
    }
  }

  class Dumper {
    const strip: bool
    var status: int
    var out: Bytes
    var quota: nat   // how many blocks the writer accepts

    constructor (s: bool, blocks: nat)
      ensures strip == s && status == 0 && out == []
    {
      strip, status, out, quota := s, 0, [], blocks;
    }

    // As long as the status is 0, exactly b was written; once it is not, nothing is.
    twostate predicate Wrote(b: Bytes)
      reads this
    {
      && (status == 0 ==> old(status) == 0 && out == old(out) + b)
      && (old(status) != 0 ==> status != 0 && out == old(out))
    }

    method DumpBlock(b: Bytes)
      modifies this`status, this`out, this`quota
      ensures Wrote(b)
    {
      if status == 0 {
        if quota == 0 {
          status := 1;
        } else {
          quota := quota - 1;
          out := out + b;
        }
      }
    }

    method DumpString(s: Option<Bytes>)
      requires StringFits(s)
      modifies this`status, this`out, this`quota
      ensures Wrote(PutString(s))
    {
      hide Put4;
      if s.None? {
        DumpBlock(Put4(0));
      } else {
        DumpBlock(Put4(|s.value| + 1));  // the terminating zero counts
        DumpBlock(s.value + [0]);
        assert PutString(s) == Put4(|s.value| + 1) + (s.value + [0]);
      }
    }

    method DumpCode(ws: seq<Word>)
      requires |ws| < TWO31
      modifies this`status, this`out, this`quota
      ensures Wrote(Put4(|ws|) + PutWords(ws))
    {
      hide Put4, PutWords;
      DumpBlock(Put4(|ws|));
      DumpBlock(PutWords(ws));
    }

    method DumpConstants(cs: seq<Const>)
      requires |cs| < TWO31 && forall i :: 0 <= i < |cs| ==> ConstFits(cs[i])
      modifies this`status, this`out, this`quota
      ensures Wrote(Put4(|cs|) + PutConsts(cs))
    {
      hide Put4, PutConst;
      ghost var out0 := out;
      DumpBlock(Put4(|cs|));
      ghost var n := Put4(|cs|);
      ghost var done: Bytes := [];
      assert cs[0..] == cs;
      for i := 0 to |cs|
        invariant status == 0 ==> old(status) == 0 && out == out0 + (n + done)
        invariant old(status) != 0 ==> status != 0 && out == out0
        invariant done + PutConsts(cs[i..]) == PutConsts(cs)
      {
        DumpConst(cs[i]);
        assert cs[i..][1..] == cs[i + 1..];
        done := done + PutConst(cs[i]);
      }
      assert done == PutConsts(cs);
    }

    method DumpConst(o: Const)
      requires ConstFits(o)
      modifies this`status, this`out, this`quota
      ensures Wrote(PutConst(o))
    {
      hide Put4, PutString;
      match o {
        case KNil =>
          DumpBlock([LUA_TNIL]);
        case KBool(b) =>
          DumpBlock([LUA_TBOOLEAN]);
          DumpBlock([if b then 1 else 0]);
        case KNumber(v) =>
          DumpBlock([LUA_TNUMBER]);
          DumpBlock(Put4(v));
        case KString(s) =>
          DumpBlock([LUA_TSTRING]);
          DumpString(s);
      }
    }

    method DumpDebug(f: Proto)
      requires PartsFit(f)
      modifies this`status, this`out, this`quota
      ensures Wrote(PutDebug(f, strip))
    {
      hide Put4, PutInts, PutLocVars, PutStrings;
      ghost var out0 := out;
      var lineinfo := if strip then [] else f.lineinfo;
      var locvars := if strip then [] else f.locvars;
      var upvalues := if strip then [] else f.upvalues;
      DumpBlock(Put4(|lineinfo|));
      DumpBlock(PutInts(lineinfo));
      DumpLocVars(locvars);
      DumpStrings(upvalues);
      Join(out0, [Put4(|lineinfo|), PutInts(lineinfo), Put4(|locvars|) + PutLocVars(locvars),
           Put4(|upvalues|) + PutStrings(upvalues)]);
    }

    method DumpLocVars(vs: seq<LocVar>)
      requires |vs| < TWO31 && forall i :: 0 <= i < |vs| ==> LocVarFits(vs[i])
      modifies this`status, this`out, this`quota
      ensures Wrote(Put4(|vs|) + PutLocVars(vs))
    {
      hide Put4, PutLocVar;
      ghost var out0, n := out, Put4(|vs|);
      DumpBlock(Put4(|vs|));
      ghost var done: Bytes := [];
      assert vs[0..] == vs;
      for i := 0 to |vs|
        invariant status == 0 ==> old(status) == 0 && out == out0 + (n + done)
        invariant old(status) != 0 ==> status != 0 && out == out0
        invariant done + PutLocVars(vs[i..]) == PutLocVars(vs)
      {
        DumpLocVar(vs[i]);
        assert vs[i..][1..] == vs[i + 1..];
        done := done + PutLocVar(vs[i]);
      }
      assert done == PutLocVars(vs);
    }

    method DumpLocVar(v: LocVar)
      requires LocVarFits(v)
      modifies this`status, this`out, this`quota
      ensures Wrote(PutLocVar(v))
    {
      hide Put4, PutString;
      DumpString(v.varname);
      DumpBlock(Put4(v.startpc));
      DumpBlock(Put4(v.endpc));
    }

    method DumpStrings(ss: seq<Option<Bytes>>)
      requires |ss| < TWO31 && forall i :: 0 <= i < |ss| ==> StringFits(ss[i])
      modifies this`status, this`out, this`quota
      ensures Wrote(Put4(|ss|) + PutStrings(ss))
    {
      hide Put4, PutString;
      ghost var out0, n := out, Put4(|ss|);
      DumpBlock(Put4(|ss|));
      ghost var done: Bytes := [];
      assert ss[0..] == ss;
      for i := 0 to |ss|
        invariant status == 0 ==> old(status) == 0 && out == out0 + (n + done)
        invariant old(status) != 0 ==> status != 0 && out == out0
        invariant done + PutStrings(ss[i..]) == PutStrings(ss)
      {
        DumpString(ss[i]);
        assert ss[i..][1..] == ss[i + 1..];
        done := done + PutString(ss[i]);
      }
      assert done == PutStrings(ss);
    }

    /** DumpFunction: the source is left out if it is that of the function around it. */
    method DumpFunction(f: Proto, p: Option<Bytes>, ghost level: nat)
      requires Dumpable(f, level)
      modifies this`status, this`out, this`quota
      ensures Wrote(PutFunction(f, p, strip, level))
      decreases f, 1
    {
      hide Put4, PutHead, PutWords, PutConsts, PutFunctions, PutDebug;
      ghost var out0 := out;
      DumpHead(f, p);
      DumpCode(f.code);
      DumpConstants(f.k);
      DumpChildren(f.p, f.source, level + 1);
      DumpDebug(f);
      Join(out0, [PutHead(f, p, strip), Put4(|f.code|) + PutWords(f.code), Put4(|f.k|) + PutConsts(f.k),
                  Put4(|f.p|) + PutFunctions(f.p, f.source, strip, level + 1), PutDebug(f, strip)]);
    }

    method DumpHead(f: Proto, p: Option<Bytes>)
      requires PartsFit(f)
      modifies this`status, this`out, this`quota
      ensures Wrote(PutHead(f, p, strip))
    {
      hide Put4, PutString;
      ghost var out0 := out;
      var source := if f.source == p || strip then None else f.source;
      DumpString(source);
      DumpBlock(Put4(f.linedefined));
      DumpBlock(Put4(f.lastlinedefined));
      DumpChars(f);
      Join(out0, [PutString(source), Put4(f.linedefined), Put4(f.lastlinedefined),
                  [f.nups, f.numparams, f.isVararg, f.maxstacksize]]);
    }

    method DumpChars(f: Proto)
      modifies this`status, this`out, this`quota
      ensures Wrote([f.nups, f.numparams, f.isVararg, f.maxstacksize])
    {
      DumpBlock([f.nups]);
      DumpBlock([f.numparams]);
      DumpBlock([f.isVararg]);
      DumpBlock([f.maxstacksize]);
      assert [f.nups] + [f.numparams] + [f.isVararg] + [f.maxstacksize] == [f.nups, f.numparams, f.isVararg,
        f.maxstacksize];
    }

    method DumpChildren(ps: seq<Proto>, p: Option<Bytes>, ghost level: nat)
      requires AllDumpable(ps, level) && |ps| < TWO31
      modifies this`status, this`out, this`quota
      ensures Wrote(Put4(|ps|) + PutFunctions(ps, p, strip, level))
      decreases ps, 0
    {
      hide Put4, PutFunction, PutFunctions, Dumpable, AllDumpable;
      ghost var out0, n := out, Put4(|ps|);
      DumpBlock(Put4(|ps|));
      ghost var done: Bytes := [];
      assert ps[0..] == ps;
      for i := 0 to |ps|
        invariant status == 0 ==> old(status) == 0 && out == out0 + (n + done)
        invariant old(status) != 0 ==> status != 0 && out == out0
        invariant AllDumpable(ps[i..], level)
        invariant done + PutFunctions(ps[i..], p, strip, level) == PutFunctions(ps, p, strip, level)
      {
        FirstOf(ps, p, strip, level, i);
        DumpFunction(ps[i], p, level);
        ghost var one, rest := PutFunction(ps[i], p, strip, level), PutFunctions(ps[i + 1..], p, strip, level);
        OneMore(n, done, one, rest, out0);
        done := done + one;
      }
      assert ps[|ps|..] == [];
      NoFunctions(p, strip, level, done);
    }

    /** luaU_dump */
    method Dump(f: Proto)
      requires Dumpable(f, 0) && status == 0 && out == []
      modifies this
      ensures status == 0 ==> out == HEADER + PutFunction(f, None, strip, 0)
    {
      hide PutFunction;
      DumpBlock(HEADER);
      DumpFunction(f, None, 0);
    }
  }

  // ---------- loading ----------

  datatype Result<T> = Ok(value: T) | Error(msg: string)

  /** Each method reads what the stream holds, whatever that is. In the contracts, the ghost
      parameters stand for any value that was written: if the stream begins with its bytes,
      the value comes back and the rest of the stream is left. */
  class Loader {
    const z: Zio
    var nCcalls: nat

    constructor (zio: Zio, level: nat)
      ensures z == zio && nCcalls == level
    {
      z, nCcalls := zio, level;
    }

    ghost predicate Begins(b: Bytes, rest: Bytes)
      reads this, z
    {
      z.Stream() == b + rest
    }

    method LoadBlock(n: nat, ghost b: Bytes, ghost rest: Bytes) returns (r: Result<Bytes>)
      modifies z
      ensures r.Ok? ==> |r.value| == n
      ensures |b| == n && old(Begins(b, rest)) ==> r == Ok(b) && z.Stream() == rest
    {
      ghost var s := z.Stream();
      var block, missing := z.Read(n);
      if missing != 0 {
        return Error("unexpected end");
      }
      if |b| == n && s == b + rest {
        assert block == s[..n] == b;
        assert z.Stream() == s[n..] == rest;
      }
      return Ok(block);
    }

    method LoadChar(ghost c: Byte, ghost rest: Bytes) returns (r: Result<Byte>)
      modifies z
      ensures old(Begins([c], rest)) ==> r == Ok(c) && z.Stream() == rest
    {
      var b := LoadBlock(1, [c], rest);
      return match b case Ok(v) => Ok(v[0]) case Error(e) => Error(e);
    }

    method LoadInt(ghost n: nat, ghost rest: Bytes) returns (r: Result<nat>)
      requires n < TWO31
      modifies z
      ensures r.Ok? ==> r.value < TWO31
      ensures old(Begins(Put4(n), rest)) ==> r == Ok(n) && z.Stream() == rest
    {
      Put4Get4(n);
      hide Put4, Get4;
      var b := LoadBlock(4, Put4(n), rest);
      if b.Error? {
        return Error(b.msg);
      }
      var x := Get4(b.value);
      if x >= TWO31 {
        return Error("bad integer");
      }
      return Ok(x);
    }

    method LoadString(ghost s: Option<Bytes>, ghost rest: Bytes) returns (r: Result<Option<Bytes>>)
      requires StringFits(s)
      modifies z
      ensures old(Begins(PutString(s), rest)) ==> r == Ok(s) && z.Stream() == rest
    {
      ghost var len := if s.Some? then |s.value| + 1 else 0;
      ghost var text: Bytes := if s.Some? then s.value + [0] else [];
      assert PutString(s) + rest == Put4(len) + (text + rest);
      Put4Get4(len);
      hide Put4, Get4;
      var b := LoadBlock(4, Put4(len), text + rest);
      if b.Error? {
        return Error(b.msg);
      }
      var size := Get4(b.value);
      if size == 0 {
        return Ok(None);
      }
      var t := LoadBlock(size, text, rest);
      if t.Error? {
        return Error(t.msg);
      }
      return Ok(Some(t.value[..size - 1]));  // without the terminating zero
    }

    method LoadCode(ghost ws: seq<Word>, ghost rest: Bytes) returns (r: Result<seq<Word>>)
      requires |ws| < TWO31
      modifies z
      ensures old(Begins(Put4(|ws|) + PutWords(ws), rest)) ==> r == Ok(ws) && z.Stream() == rest
    {
      WordsLoad(ws);
      hide Put4, PutWords, WordsOf;
      assert Put4(|ws|) + PutWords(ws) + rest == Put4(|ws|) + (PutWords(ws) + rest);
      var n := LoadInt(|ws|, PutWords(ws) + rest);
      if n.Error? {
        return Error(n.msg);
      }
      var b := LoadBlock(4 * n.value, PutWords(ws), rest);
      if b.Error? {
        return Error(b.msg);
      }
      return Ok(WordsOf(b.value));
    }

    method LoadLines(ghost ns: seq<nat>, ghost rest: Bytes) returns (r: Result<seq<nat>>)
      requires |ns| < TWO31 && forall i :: 0 <= i < |ns| ==> ns[i] < TWO31
      modifies z
      ensures old(Begins(Put4(|ns|) + PutInts(ns), rest)) ==> r == Ok(ns) && z.Stream() == rest
    {
      IntsLoad(ns);
      hide Put4, PutInts, IntsOf;
      assert Put4(|ns|) + PutInts(ns) + rest == Put4(|ns|) + (PutInts(ns) + rest);
      var n := LoadInt(|ns|, PutInts(ns) + rest);
      if n.Error? {
        return Error(n.msg);
      }
      var b := LoadBlock(4 * n.value, PutInts(ns), rest);
      if b.Error? {
        return Error(b.msg);
      }
      return Ok(IntsOf(b.value));
    }

    method LoadConst(ghost c: Const, ghost rest: Bytes) returns (r: Result<Const>)
      requires ConstFits(c)
      modifies z
      ensures old(Begins(PutConst(c), rest)) ==> r == Ok(c) && z.Stream() == rest
    {
      hide Put4, Get4, PutString;
      ghost var body := PutConst(c)[1..];
      assert PutConst(c) == [PutConst(c)[0]] + body;
      assert PutConst(c) + rest == [PutConst(c)[0]] + (body + rest);
      ghost var n: nat := if c.KNumber? then c.n else 0;
      Put4Get4(n);
      var t := LoadChar(PutConst(c)[0], body + rest);
      if t.Error? {
        return Error(t.msg);
      }
      if t.value == LUA_TNIL {
        assert c.KNil? ==> body + rest == rest;
        return Ok(KNil);
      } else if t.value == LUA_TBOOLEAN {
        var b := LoadChar(if c.KBool? && c.b then 1 else 0, rest);
        return match b case Ok(v) => Ok(KBool(v != 0)) case Error(e) => Error(e);
      } else if t.value == LUA_TNUMBER {
        var b := LoadBlock(4, Put4(n), rest);
        return match b case Ok(v) => Ok(KNumber(Get4(v))) case Error(e) => Error(e);
      } else if t.value == LUA_TSTRING {
        var b := LoadString(if c.KString? then c.s else None, rest);
        return match b case Ok(v) => Ok(KString(v)) case Error(e) => Error(e);
      }
      return Error("bad constant");
    }

    method LoadConsts(ghost cs: seq<Const>, ghost rest: Bytes) returns (r: Result<seq<Const>>)
      requires |cs| < TWO31 && forall i :: 0 <= i < |cs| ==> ConstFits(cs[i])
      modifies z
      ensures old(Begins(Put4(|cs|) + PutConsts(cs), rest)) ==> r == Ok(cs) && z.Stream() == rest
    {
      hide Put4, PutConst;
      assert Put4(|cs|) + PutConsts(cs) + rest == Put4(|cs|) + (PutConsts(cs) + rest);
      ghost var right := Begins(Put4(|cs|) + PutConsts(cs), rest);
      var n := LoadInt(|cs|, PutConsts(cs) + rest);
      if n.Error? {
        return Error(n.msg);
      }
      var k: seq<Const> := [];
      assert cs[0..] == cs;
      for i := 0 to n.value
        invariant |k| == i && (right ==> n.value == |cs| && k == cs[..i] && z.Stream() == PutConsts(cs[i..]) + rest)
      {
        ghost var c := if i < |cs| then cs[i] else KNil;
        ghost var more := if i < |cs| then PutConsts(cs[i + 1..]) else [];
        assert right ==> cs[i..][1..] == cs[i + 1..] && z.Stream() == PutConst(c) + (more + rest);
        var o := LoadConst(c, more + rest);
        if o.Error? {
          return Error(o.msg);
        }
        k := k + [o.value];
      }
      assert right ==> cs[..|cs|] == cs && z.Stream() == [] + rest == rest;
      return Ok(k);
    }

    method LoadLocVar(ghost v: LocVar, ghost rest: Bytes) returns (r: Result<LocVar>)
      requires LocVarFits(v)
      modifies z
      ensures old(Begins(PutLocVar(v), rest)) ==> r == Ok(v) && z.Stream() == rest
    {
      hide Put4, PutString;
      assert PutLocVar(v) + rest == PutString(v.varname) + (Put4(v.startpc) + (Put4(v.endpc) + rest));
      var name := LoadString(v.varname, Put4(v.startpc) + (Put4(v.endpc) + rest));
      if name.Error? {
        return Error(name.msg);
      }
      var start := LoadInt(v.startpc, Put4(v.endpc) + rest);
      if start.Error? {
        return Error(start.msg);
      }
      var end := LoadInt(v.endpc, rest);
      if end.Error? {
        return Error(end.msg);
      }
      return Ok(LocVar(name.value, start.value, end.value));
    }

    method LoadLocVars(ghost vs: seq<LocVar>, ghost rest: Bytes) returns (r: Result<seq<LocVar>>)
      requires |vs| < TWO31 && forall i :: 0 <= i < |vs| ==> LocVarFits(vs[i])
      modifies z
      ensures old(Begins(Put4(|vs|) + PutLocVars(vs), rest)) ==> r == Ok(vs) && z.Stream() == rest
    {
      hide Put4, PutLocVar;
      assert Put4(|vs|) + PutLocVars(vs) + rest == Put4(|vs|) + (PutLocVars(vs) + rest);
      ghost var right := Begins(Put4(|vs|) + PutLocVars(vs), rest);
      var n := LoadInt(|vs|, PutLocVars(vs) + rest);
      if n.Error? {
        return Error(n.msg);
      }
      var k: seq<LocVar> := [];
      assert vs[0..] == vs;
      for i := 0 to n.value
        invariant |k| == i && (right ==> n.value == |vs| && k == vs[..i] && z.Stream() == PutLocVars(vs[i..]) + rest)
      {
        ghost var v := if i < |vs| then vs[i] else LocVar(None, 0, 0);
        ghost var more := if i < |vs| then PutLocVars(vs[i + 1..]) else [];
        assert right ==> vs[i..][1..] == vs[i + 1..] && z.Stream() == PutLocVar(v) + (more + rest);
        var o := LoadLocVar(v, more + rest);
        if o.Error? {
          return Error(o.msg);
        }
        k := k + [o.value];
      }
      assert right ==> vs[..|vs|] == vs && z.Stream() == [] + rest == rest;
      return Ok(k);
    }

    method LoadStrings(ghost ss: seq<Option<Bytes>>, ghost rest: Bytes) returns (r: Result<seq<Option<Bytes>>>)
      requires |ss| < TWO31 && forall i :: 0 <= i < |ss| ==> StringFits(ss[i])
      modifies z
      ensures old(Begins(Put4(|ss|) + PutStrings(ss), rest)) ==> r == Ok(ss) && z.Stream() == rest
    {
      hide Put4, PutString;
      assert Put4(|ss|) + PutStrings(ss) + rest == Put4(|ss|) + (PutStrings(ss) + rest);
      ghost var right := Begins(Put4(|ss|) + PutStrings(ss), rest);
      var n := LoadInt(|ss|, PutStrings(ss) + rest);
      if n.Error? {
        return Error(n.msg);
      }
      var k: seq<Option<Bytes>> := [];
      assert ss[0..] == ss;
      for i := 0 to n.value
        invariant |k| == i && (right ==> n.value == |ss| && k == ss[..i] && z.Stream() == PutStrings(ss[i..]) + rest)
      {
        ghost var s: Option<Bytes> := if i < |ss| then ss[i] else None;
        ghost var more := if i < |ss| then PutStrings(ss[i + 1..]) else [];
        assert right ==> ss[i..][1..] == ss[i + 1..] && z.Stream() == PutString(s) + (more + rest);
        var o := LoadString(s, more + rest);
        if o.Error? {
          return Error(o.msg);
        }
        k := k + [o.value];
      }
      assert right ==> ss[..|ss|] == ss && z.Stream() == [] + rest == rest;
      return Ok(k);
    }

    method LoadHead(ghost f: Proto, p: Option<Bytes>, ghost parent: Option<Bytes>, ghost strip: bool, ghost rest: Bytes)
      returns (r: Result<Proto>)
      requires PartsFit(f) && (parent.Some? && !strip ==> p == parent)
      modifies z
      ensures old(Begins(PutHead(f, parent, strip), rest)) ==>
                r == Ok(EMPTY.(source := SourceOf(f, p, strip), linedefined := f.linedefined,
                    lastlinedefined := f.lastlinedefined,
                               nups := f.nups, numparams := f.numparams, isVararg := f.isVararg,
                                   maxstacksize := f.maxstacksize))
                && z.Stream() == rest
    {
      hide Put4, PutString;
      ghost var src := if f.source == parent || strip then None else f.source;
      ghost var b4 := [f.nups] + ([f.numparams] + ([f.isVararg] + ([f.maxstacksize] + rest)));
      assert PutHead(f, parent,
        strip) + rest == PutString(src) + (Put4(f.linedefined) + (Put4(f.lastlinedefined) + b4));
      var s := LoadString(src, Put4(f.linedefined) + (Put4(f.lastlinedefined) + b4));
      if s.Error? {
        return Error(s.msg);
      }
      var source := if s.value.None? then p else s.value;
      var l := LoadInt(f.linedefined, Put4(f.lastlinedefined) + b4);
      if l.Error? {
        return Error(l.msg);
      }
      var ll := LoadInt(f.lastlinedefined, b4);
      if ll.Error? {
        return Error(ll.msg);
      }
      r := LoadBytes(f, EMPTY.(source := source, linedefined := l.value, lastlinedefined := ll.value), rest);
    }

    method LoadBytes(ghost f: Proto, g: Proto, ghost rest: Bytes) returns (r: Result<Proto>)
      modifies z
      ensures old(z.Stream()) == [f.nups] + ([f.numparams] + ([f.isVararg] + ([f.maxstacksize] + rest))) ==>
                r == Ok(g.(nups := f.nups, numparams := f.numparams, isVararg := f.isVararg,
                    maxstacksize := f.maxstacksize))
                && z.Stream() == rest
    {
      var nups := LoadChar(f.nups, [f.numparams] + ([f.isVararg] + ([f.maxstacksize] + rest)));
      if nups.Error? {
        return Error(nups.msg);
      }
      var numparams := LoadChar(f.numparams, [f.isVararg] + ([f.maxstacksize] + rest));
      if numparams.Error? {
        return Error(numparams.msg);
      }
      var isVararg := LoadChar(f.isVararg, [f.maxstacksize] + rest);
      if isVararg.Error? {
        return Error(isVararg.msg);
      }
      var maxstack := LoadChar(f.maxstacksize, rest);
      if maxstack.Error? {
        return Error(maxstack.msg);
      }
      return Ok(g.(nups := nups.value, numparams := numparams.value, isVararg := isVararg.value,
        maxstacksize := maxstack.value));
    }

    method LoadDebug(ghost f: Proto, g: Proto, ghost strip: bool, ghost rest: Bytes) returns (r: Result<Proto>)
      requires PartsFit(f)
      modifies z
      ensures r.Ok? ==>
                r.value == g.(lineinfo := r.value.lineinfo, locvars := r.value.locvars, upvalues := r.value.upvalues)
      ensures old(Begins(PutDebug(f, strip), rest)) ==>
                r == Ok(g.(lineinfo := if strip then [] else f.lineinfo, locvars := if strip then [] else f.locvars,
                           upvalues := if strip then [] else f.upvalues))
                && z.Stream() == rest
    {
      hide Put4, PutInts, PutLocVars, PutStrings;
      ghost var li := if strip then [] else f.lineinfo;
      ghost var lv := if strip then [] else f.locvars;
      ghost var uv := if strip then [] else f.upvalues;
      ghost var b2 := Put4(|uv|) + PutStrings(uv) + rest;
      ghost var b1 := Put4(|lv|) + PutLocVars(lv) + b2;
      assert PutDebug(f, strip) + rest == Put4(|li|) + PutInts(li) + b1;
      var lines := LoadLines(li, b1);
      if lines.Error? {
        return Error(lines.msg);
      }
      var locvars := LoadLocVars(lv, b2);
      if locvars.Error? {
        return Error(locvars.msg);
      }
      var upvalues := LoadStrings(uv, rest);
      if upvalues.Error? {
        return Error(upvalues.msg);
      }
      return Ok(g.(lineinfo := lines.value, locvars := locvars.value, upvalues := upvalues.value));
    }

    /** LoadFunction: whatever the stream holds, what is returned passed the checker; and if it
        holds a dumped tree, that tree comes back. */
    method LoadFunction(p: Option<Bytes>, ghost f: Proto, ghost parent: Option<Bytes>, ghost strip: bool,
                        ghost rest: Bytes)
      returns (r: Result<Proto>)
      requires parent.Some? && !strip ==> p == parent
      modifies this, z
      ensures r.Ok? ==> Accepted(r.value) && nCcalls == old(nCcalls)
      ensures Dumpable(f, old(nCcalls)) && old(Begins(PutFunction(f, parent, strip, nCcalls), rest)) ==>
                r == Ok(Loaded(f, p, strip)) && z.Stream() == rest
      decreases LUAI_MAXCCALLS + 1 - nCcalls, 0
    {
      hide Accepted, Put4, PutHead, PutWords, PutConsts, PutFunctions, PutDebug, LoadedAll, PutFunction;
      ghost var level := nCcalls;
      nCcalls := nCcalls + 1;
      if nCcalls > LUAI_MAXCCALLS {
        return Error("code too deep");
      }
      ghost var right := Dumpable(f, level) && Begins(PutFunction(f, parent, strip, level), rest);
      ghost var g := if right then f else EMPTY;
      EmptyFits(level);
      ghost var b4 := PutDebug(g, strip) + rest;
      ghost var b3 := Put4(|g.p|) + PutFunctions(g.p, g.source, strip, level + 1) + b4;
      ghost var b2 := Put4(|g.k|) + PutConsts(g.k) + b3;
      ghost var b1 := Put4(|g.code|) + PutWords(g.code) + b2;
      if right {
        FunctionBytes(f, parent, strip, level, rest);
      }
      r := LoadHead(g, p, parent, strip, b1);
      if r.Error? {
        return;
      }
      var h := r.value;
      var code := LoadCode(g.code, b2);
      if code.Error? {
        return Error(code.msg);
      }
      var k := LoadConsts(g.k, b3);
      if k.Error? {
        return Error(k.msg);
      }
      var ps := LoadChildren(h.source, g.p, g.source, strip, b4);
      if ps.Error? {
        return Error(ps.msg);
      }
      r := LoadDebug(g, h.(code := code.value, k := k.value, p := ps.value), strip, rest);
      if r.Error? {
        return;
      }
      if right {
        LoadedAccepted(f, p, strip);
      }
      var ok := CheckCode(r.value);
      if !ok {
        return Error("bad code");
      }
      nCcalls := nCcalls - 1;
    }

    method LoadChildren(p: Option<Bytes>, ghost fs: seq<Proto>, ghost parent: Option<Bytes>, ghost strip: bool,
                        ghost rest: Bytes)
      returns (r: Result<seq<Proto>>)
      requires |fs| < TWO31 && AllDumpable(fs, nCcalls) && nCcalls <= LUAI_MAXCCALLS
      modifies this, z
      ensures r.Ok? ==> nCcalls == old(nCcalls)
      ensures (parent.Some? && !strip ==> p == parent) && old(Begins(Put4(|fs|) + PutFunctions(fs, parent, strip,
          nCcalls), rest)) ==>
                r == Ok(LoadedAll(fs, p, strip)) && z.Stream() == rest
      decreases LUAI_MAXCCALLS + 1 - nCcalls, 1
    {
      hide Put4, PutFunctions, LoadedAll, AllDumpable;
      ghost var level := nCcalls;
      assert Put4(|fs|) + PutFunctions(fs, parent, strip, level) + rest == Put4(|fs|) + (PutFunctions(fs, parent,
        strip, level) + rest);
      var n := LoadInt(|fs|, PutFunctions(fs, parent, strip, level) + rest);
      if n.Error? {
        return Error(n.msg);
      }
      r := LoadEach(n.value, p, fs, parent, strip, rest);
    }

    method LoadEach(n: nat, p: Option<Bytes>, ghost fs: seq<Proto>, ghost parent: Option<Bytes>,
                    ghost strip: bool, ghost rest: Bytes)
      returns (r: Result<seq<Proto>>)
      requires AllDumpable(fs, nCcalls) && nCcalls <= LUAI_MAXCCALLS
      modifies this, z
      ensures r.Ok? ==> nCcalls == old(nCcalls)
      ensures n == |fs| && (parent.Some? && !strip ==> p == parent)
              && old(z.Stream()) == old(PutFunctions(fs, parent, strip, nCcalls)) + rest ==>
                r == Ok(LoadedAll(fs, p, strip)) && z.Stream() == rest
      decreases LUAI_MAXCCALLS + 1 - nCcalls, 1, n
    {
      hide PutFunction, Loaded, Accepted, PartsFit, Begins;
      ghost var level := nCcalls;
      if n == 0 {
        return Ok([]);
      }
      ghost var f := if fs == [] then EMPTY else fs[0];
      ghost var more: seq<Proto> := if fs == [] then [] else fs[1..];
      ghost var tail := PutFunctions(more, parent, strip, level) + rest;
      assert fs != [] ==> Dumpable(f, level) && fs == [f] + more;
      assert AllDumpable(more, level);
      if fs != [] {
        ChildBytes(fs, parent, strip, level, rest);
      }
      StreamBegins(f, parent, strip, level, tail);
      var o := LoadFunction(p, f, if parent.Some? && !strip && p != parent then None else parent, strip, tail);
      if o.Error? {
        return Error(o.msg);
      }
      var os := LoadEach(n - 1, p, more, parent, strip, rest);
      if os.Error? {
        return Error(os.msg);
      }
      return Ok([o.value] + os.value);
    }

    lemma StreamBegins(f: Proto, parent: Option<Bytes>, strip: bool, level: nat, tail: Bytes)
      ensures Dumpable(f, level) && z.Stream() == PutFunction(f, parent, strip, level) + tail ==>
                Begins(PutFunction(f, parent, strip, level), tail)
    {
    }

    /** luaU_undump */
    method Undump(ghost f: Proto, ghost strip: bool, ghost rest: Bytes) returns (r: Result<Proto>)
      modifies this, z
      ensures r.Ok? ==> Accepted(r.value)
      ensures Dumpable(f, old(nCcalls)) && old(Begins(HEADER + PutFunction(f, None, strip, nCcalls), rest)) ==>
                r == Ok(Loaded(f, Some(UNKNOWN), strip)) && z.Stream() == rest
    {
      hide Accepted, PutFunction, Loaded;
      ghost var right := Dumpable(f, nCcalls) && Begins(HEADER + PutFunction(f, None, strip, nCcalls), rest);
      ghost var body := if right then PutFunction(f, None, strip, nCcalls) + rest else [];
      assert right ==> z.Stream() == HEADER + body;
      var h := LoadBlock(|HEADER|, HEADER, body);
      if h.Error? {
        return Error(h.msg);
      }
      if h.value != HEADER {
        return Error("bad header");
      }
      r := LoadFunction(Some(UNKNOWN), f, None, strip, rest);
    }
  }

  const UNKNOWN: Bytes := [61, 63]  // "=?"

  const EMPTY: Proto := Proto(None, 0, 0, 0, 0, 0, 0, [], [], [], [], [], [])

  lemma EmptyFits(level: nat)
    ensures PartsFit(EMPTY) && AllDumpable(EMPTY.p, level + 1)
  {
  }

  lemma FunctionBytes(f: Proto, parent: Option<Bytes>, strip: bool, level: nat, rest: Bytes)
    requires Dumpable(f, level)
    ensures PutFunction(f, parent, strip, level) + rest ==
            PutHead(f, parent, strip) + (Put4(|f.code|) + PutWords(f.code) + (Put4(|f.k|) + PutConsts(f.k)
              + (Put4(|f.p|) + PutFunctions(f.p, f.source, strip, level + 1) + (PutDebug(f, strip) + rest))))
  {
    hide Put4, PutHead, PutWords, PutConsts, PutFunctions, PutDebug;
    Join([], [PutHead(f, parent, strip), Put4(|f.code|) + PutWords(f.code), Put4(|f.k|) + PutConsts(f.k),
              Put4(|f.p|) + PutFunctions(f.p, f.source, strip, level + 1), PutDebug(f, strip)]);
    Regroup(PutHead(f, parent, strip), Put4(|f.code|) + PutWords(f.code), Put4(|f.k|) + PutConsts(f.k),
            Put4(|f.p|) + PutFunctions(f.p, f.source, strip, level + 1), PutDebug(f, strip), rest);
  }

  lemma ChildBytes(fs: seq<Proto>, parent: Option<Bytes>, strip: bool, level: nat, rest: Bytes)
    requires AllDumpable(fs, level) && fs != [] && Dumpable(fs[0], level) && AllDumpable(fs[1..], level)
    ensures PutFunctions(fs, parent, strip, level) + rest ==
            PutFunction(fs[0], parent, strip, level) + (PutFunctions(fs[1..], parent, strip, level) + rest)
  {
    hide PutFunction;
  }

  lemma Regroup(a: Bytes, b: Bytes, c: Bytes, d: Bytes, e: Bytes, rest: Bytes)
    ensures a + b + c + d + e + rest == a + (b + (c + (d + (e + rest))))
  {
  }

  /** Dumping a checked tree and loading the dump, in pieces of any sizes, gives the tree that `Loaded' describes. */
  method RoundTrip(f: Proto, strip: bool, blocks: nat, chunks: seq<Bytes>)
    returns (status: int, dumped: Bytes, r: Result<Proto>)
    requires Dumpable(f, 0)
    requires Pieces(chunks) == HEADER + PutFunction(f, None, strip, 0)
    ensures status == 0 ==> dumped == Pieces(chunks)
    ensures r == Ok(Loaded(f, Some(UNKNOWN), strip))
    ensures !strip && SourcesKnown(f) ==> r == Ok(f)
  {
    var d := new Dumper(strip, blocks);
    d.Dump(f);
    status, dumped := d.status, d.out;
    var zio := new Zio(chunks);
    var l := new Loader(zio, 0);
    assert HEADER + PutFunction(f, None, strip, 0) + [] == HEADER + PutFunction(f, None, strip, 0);
    r := l.Undump(f, strip, []);
    LoadedIsSame(f, Some(UNKNOWN));
  }

  // ---------- vectors ----------

  function WordsOf(b: Bytes): seq<Word> {
    if |b| < 4 then [] else
      var n := Get4(b[..4]);
      if n < TWO32 then [NumWord(n)] + WordsOf(b[4..]) else []
  }

  lemma {:induction false} WordsLoad(ws: seq<Word>)
    ensures |PutWords(ws)| == 4 * |ws| && WordsOf(PutWords(ws)) == ws
  {
    if ws != [] {
      var b := PutWords(ws);
      WordsLoad(ws[1..]);
      Put4Get4(WordNum(ws[0]));
      WordNumWord(ws[0]);
      hide Put4, Get4, WordNum, NumWord;
      assert b[..4] == Put4(WordNum(ws[0])) && b[4..] == PutWords(ws[1..]);
    }
  }

  function IntsOf(b: Bytes): seq<nat> {
    if |b| < 4 then [] else [Get4(b[..4])] + IntsOf(b[4..])
  }

  lemma {:induction false} IntsLoad(ns: seq<nat>)
    requires forall i :: 0 <= i < |ns| ==> ns[i] < TWO31
    ensures |PutInts(ns)| == 4 * |ns| && IntsOf(PutInts(ns)) == ns
  {
    if ns != [] {
      var b := PutInts(ns);
      IntsLoad(ns[1..]);
      Put4Get4(ns[0]);
      hide Put4, Get4;
      assert b[..4] == Put4(ns[0]) && b[4..] == PutInts(ns[1..]);
    }
  }

  // Appending one by one is appending the whole.
  lemma Join(a: Bytes, bs: seq<Bytes>)
    ensures |bs| == 4 ==> a + bs[0] + bs[1] + bs[2] + bs[3] == a + (bs[0] + bs[1] + bs[2] + bs[3])
    ensures |bs| == 5 ==> a + bs[0] + bs[1] + bs[2] + bs[3] + bs[4] == a + (bs[0] + bs[1] + bs[2] + bs[3] + bs[4])
  {
  }

  // "\x1bLua", version 5.1, official format, little endian, and the sizes of int, size_t,
  // Instruction and lua_Number, which is integral on the device.
  const HEADER: Bytes := [27, 76, 117, 97, 0x51, 0, 1, 4, 4, 4, 4, 1]
}
