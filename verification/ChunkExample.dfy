/** A known answer for the chunks of ldump.c: a function with a function in it, with something in every part. */
module ChunkExample {
  import opened Basics
  import opened Opcodes
  import opened Protos
  import opened Checker
  import opened CheckerRules
  import opened Chunks
  import opened Dump

  // Only returns; its source is that of the function around it.
  const INNER: Proto :=
    Proto(Some([0x40, 0x78]), 9, 10, 0, 1, 0, 2, [Fields(30, 0, 0, 1)], [], [], [], [], [])

  // MOVE 1 2, LOADK 3 1 and RETURN 0 1.
  const OUTER: Proto :=
    Proto(Some([0x40, 0x78]), 300, 70000, 2, 3, 2, 5,
          [Fields(0, 1, 0, 2), Fields(1, 3, 1, 0), Fields(30, 0, 0, 1)],
          [KNil, KBool(true), KNumber(0x0403_0201), KString(Some([0x73]))],
          [INNER], [11, 12, 13], [LocVar(Some([0x76]), 1, 2)], [Some([0x75]), None])

  lemma InnerDumpable(level: nat)
    requires level < 200
    ensures Dumpable(INNER, level)
  {
    CallRules(INNER, 0);
  }

  lemma OuterAccepted()
    ensures Accepted(OUTER)
  {
    LoadRules(OUTER, 0);
    LoadRules(OUTER, 1);
    CallRules(OUTER, 2);
  }

  lemma OuterDumpable()
    ensures Dumpable(OUTER, 0)
  {
    OuterAccepted();
    InnerDumpable(1);
    hide Accepted;
  }

  lemma ExampleHead()
    requires PartsFit(OUTER)
    ensures PutHead(OUTER, None, false) == [3, 0, 0, 0, 0x40, 0x78, 0, 0x2c, 1, 0, 0, 0x70, 0x11, 1, 0, 2, 3, 2, 5]
  {
  }

  lemma ExampleCode()
    ensures PutWords(OUTER.code) == [0x40, 0, 0, 1, 0xc1, 0x40, 0, 0, 0x1e, 0, 0x80, 0]
  {
    var ws := OUTER.code;
    assert ws[1..] == [ws[1], ws[2]] && ws[1..][1..] == [ws[2]] && ws[1..][1..][1..] == [];
    assert Put4(WordNum(ws[0])) == [0x40, 0, 0, 1] && Put4(WordNum(ws[1])) == [0xc1, 0x40, 0, 0];
    assert Put4(WordNum(ws[2])) == [0x1e, 0, 0x80, 0];
    hide Put4, WordNum;
  }

  lemma ExampleConsts()
    requires PartsFit(OUTER)
    ensures PutConsts(OUTER.k) == [0, 1, 1, 3, 1, 2, 3, 4, 4, 2, 0, 0, 0, 0x73, 0]
  {
    var ks := OUTER.k;
    assert ks[1..] == [ks[1], ks[2], ks[3]] && ks[2..] == [ks[2], ks[3]] && ks[3..] == [ks[3]] && ks[4..] == [];
    assert PutConst(ks[0]) == [0] && PutConst(ks[1]) == [1, 1] && PutConst(ks[2]) == [3, 1, 2, 3, 4];
    assert PutConst(ks[3]) == [4, 2, 0, 0, 0, 0x73, 0];
    hide PutConst;
    assert PutConsts(ks[4..]) == [];
    assert PutConsts(ks[3..]) == PutConst(ks[3]);
    assert ks[2..][1..] == ks[3..] && ks[1..][1..] == ks[2..];
    assert PutConsts(ks[2..]) == PutConst(ks[2]) + PutConst(ks[3]);
    assert PutConsts(ks[1..]) == PutConst(ks[1]) + (PutConst(ks[2]) + PutConst(ks[3]));
  }

  lemma ExampleInner()
    requires Dumpable(INNER, 1)
    ensures PutFunction(INNER, OUTER.source, false, 1) ==
            [0, 0, 0, 0, 9, 0, 0, 0, 10, 0, 0, 0, 0, 1, 0, 2] + [1, 0, 0, 0, 0x1e, 0, 0x80, 0]
            + [0, 0, 0, 0] + [0, 0, 0, 0] + [0, 0, 0, 0] + [0, 0, 0, 0] + [0, 0, 0, 0]
  {
    hide Dumpable, AllDumpable;
  }

  lemma ExampleFunctions()
    requires Dumpable(INNER, 1) && AllDumpable([INNER], 1)
    ensures PutFunctions([INNER], OUTER.source, false, 1) ==
            [0, 0, 0, 0, 9, 0, 0, 0, 10, 0, 0, 0, 0, 1, 0, 2] + [1, 0, 0, 0, 0x1e, 0, 0x80, 0]
            + [0, 0, 0, 0] + [0, 0, 0, 0] + [0, 0, 0, 0] + [0, 0, 0, 0] + [0, 0, 0, 0]
  {
    ExampleInner();
    hide Dumpable, PutFunction, INNER;
    assert [INNER][1..] == [];
    assert PutFunctions([], OUTER.source, false, 1) == [];
  }

  lemma Counts()
    ensures Put4(1) == [1, 0, 0, 0] && Put4(2) == [2, 0, 0, 0] && Put4(3) == [3, 0, 0, 0] && Put4(4) == [4, 0, 0, 0]
  {
  }

  lemma ExampleLines()
    ensures PutInts([11, 12, 13]) == [11, 0, 0, 0, 12, 0, 0, 0, 13, 0, 0, 0]
  {
    assert Put4(11) == [11, 0, 0, 0] && Put4(12) == [12, 0, 0, 0] && Put4(13) == [13, 0, 0, 0];
    hide Put4;
    assert [11, 12, 13][1..] == [12, 13] && [12, 13][1..] == [13] && [13][1..] == [];
  }

  lemma ExampleLocals()
    ensures PutLocVars([LocVar(Some([0x76]), 1, 2)]) == [2, 0, 0, 0, 0x76, 0, 1, 0, 0, 0, 2, 0, 0, 0]
  {
    assert [LocVar(Some([0x76]), 1, 2)][1..] == [];
  }

  lemma ExampleUpvalues()
    ensures PutStrings([Some([0x75]), None]) == [2, 0, 0, 0, 0x75, 0, 0, 0, 0, 0]
  {
    var ss: seq<Option<Protos.Bytes>> := [Some([0x75]), None];
    assert ss[1..] == [None] && ss[1..][1..] == [];
    assert PutString(ss[0]) == [2, 0, 0, 0, 0x75, 0] && PutString(ss[1]) == [0, 0, 0, 0];
    hide PutString;
  }

  lemma ExampleDebug()
    requires PartsFit(OUTER)
    ensures PutDebug(OUTER, false) ==
            [3, 0, 0, 0, 11, 0, 0, 0, 12, 0, 0, 0, 13, 0, 0, 0]
            + [1, 0, 0, 0, 2, 0, 0, 0, 0x76, 0, 1, 0, 0, 0, 2, 0, 0, 0]
            + [2, 0, 0, 0, 2, 0, 0, 0, 0x75, 0, 0, 0, 0, 0]
  {
    hide Put4, PutInts, PutLocVars, PutStrings, PartsFit;
    Counts();
    ExampleLines();
    ExampleLocals();
    ExampleUpvalues();
  }

  lemma OuterFits()
    ensures PartsFit(OUTER) && OUTER.p == [INNER] && |OUTER.code| == 3 && |OUTER.k| == 4
  {
  }

  /** The chunk, byte by byte. */
  lemma ChunkOfExample()
    ensures HEADER == [0x1b, 0x4c, 0x75, 0x61, 0x51, 0, 1, 4, 4, 4, 4, 1]
    ensures Dumpable(OUTER, 0)
    ensures PutFunction(OUTER, None, false, 0) ==
            // source, lines and numbers of a byte
            [3, 0, 0, 0, 0x40, 0x78, 0, 0x2c, 1, 0, 0, 0x70, 0x11, 1, 0, 2, 3, 2, 5]
            // instructions
            + ([3, 0, 0, 0] + [0x40, 0, 0, 1, 0xc1, 0x40, 0, 0, 0x1e, 0, 0x80, 0])
            // constants
            + ([4, 0, 0, 0] + [0, 1, 1, 3, 1, 2, 3, 4, 4, 2, 0, 0, 0, 0x73, 0])
            // functions: one, without a source of its own
            + ([1, 0, 0, 0]
               + ([0, 0, 0, 0, 9, 0, 0, 0, 10, 0, 0, 0, 0, 1, 0, 2] + [1, 0, 0, 0, 0x1e, 0, 0x80, 0]
                  + [0, 0, 0, 0] + [0, 0, 0, 0] + [0, 0, 0, 0] + [0, 0, 0, 0] + [0, 0, 0, 0]))
            // line numbers, local variables, names of upvalues
            + ([3, 0, 0, 0, 11, 0, 0, 0, 12, 0, 0, 0, 13, 0, 0, 0]
               + [1, 0, 0, 0, 2, 0, 0, 0, 0x76, 0, 1, 0, 0, 0, 2, 0, 0, 0]
               + [2, 0, 0, 0, 2, 0, 0, 0, 0x75, 0, 0, 0, 0, 0])
  {
    hide PutHead, PutWords, PutConsts, PutFunctions, PutDebug, Put4, Accepted, PartsFit, OUTER;
    OuterDumpable();
    OuterFits();
    InnerDumpable(1);
    ExampleHead();
    ExampleCode();
    ExampleConsts();
    ExampleFunctions();
    ExampleDebug();
    Counts();
  }
}
