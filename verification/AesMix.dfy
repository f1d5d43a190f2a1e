/** Mixing a column in AES (aes.c), and why the inverse undoes it: both are linear over
    GF(2^8), so it is enough to look at columns with one byte that is not zero. */
module AesMix {

  function Xtime(x: bv8): bv8 { (x << 1) ^ (((x >> 7) & 1) * 0x1b) }

  function Multiply(x: bv8, y: bv8): bv8 {
    ((y & 1) * x) ^ (((y >> 1) & 1) * Xtime(x)) ^ (((y >> 2) & 1) * Xtime(Xtime(x)))
    ^ (((y >> 3) & 1) * Xtime(Xtime(Xtime(x)))) ^ (((y >> 4) & 1) * Xtime(Xtime(Xtime(Xtime(x)))))
  }

  datatype Col = Col(a: bv8, b: bv8, c: bv8, d: bv8)

  function Xor(p: bv8, q: bv8): bv8 { p ^ q }

  function Sum3(p: bv8, q: bv8, r: bv8): bv8 { p ^ (q ^ r) }

  function MixByte(a: bv8, b: bv8, t: bv8): bv8 { Sum3(a, Xtime(Xor(a, b)), t) }

  function MixCol(s: Col): Col {
    var t := Sum4(s.a, s.b, s.c, s.d);
    Col(MixByte(s.a, s.b, t), MixByte(s.b, s.c, t), MixByte(s.c, s.d, t), MixByte(s.d, s.a, t))
  }

  function Sum4(p: bv8, q: bv8, r: bv8, s: bv8): bv8 { p ^ q ^ r ^ s }

  function InvMixCol(s: Col): Col {
    Col(Sum4(Multiply(s.a, 0x0e), Multiply(s.b, 0x0b), Multiply(s.c, 0x0d), Multiply(s.d, 0x09)),
        Sum4(Multiply(s.a, 0x09), Multiply(s.b, 0x0e), Multiply(s.c, 0x0b), Multiply(s.d, 0x0d)),
        Sum4(Multiply(s.a, 0x0d), Multiply(s.b, 0x09), Multiply(s.c, 0x0e), Multiply(s.d, 0x0b)),
        Sum4(Multiply(s.a, 0x0b), Multiply(s.b, 0x0d), Multiply(s.c, 0x09), Multiply(s.d, 0x0e)))
  }

  // ---------- linearity ----------

  function Plus(s: Col, t: Col): Col { Col(Xor(s.a, t.a), Xor(s.b, t.b), Xor(s.c, t.c), Xor(s.d, t.d)) }

  lemma XtimeLinear(x: bv8, y: bv8)
    ensures Xtime(Xor(x, y)) == Xor(Xtime(x), Xtime(y))
  {
  }

  lemma XorAssoc(p: bv8, q: bv8, r: bv8)
    ensures Xor(Xor(p, q), r) == Xor(p, Xor(q, r))
  {
  }

  lemma XorComm(p: bv8, q: bv8)
    ensures Xor(p, q) == Xor(q, p)
  {
  }

  lemma XorLinear(p: bv8, q: bv8, p': bv8, q': bv8)
    ensures Xor(Xor(p, p'), Xor(q, q')) == Xor(Xor(p, q), Xor(p', q'))
  {
    hide Xor;
    XorAssoc(p, p', Xor(q, q'));
    XorAssoc(p', q, q');
    XorComm(p', q);
    XorAssoc(q, p', q');
    XorAssoc(p, q, Xor(p', q'));
  }

  lemma SumsAreXor(p: bv8, q: bv8, r: bv8, s: bv8)
    ensures Sum3(p, q, r) == Xor(p, Xor(q, r)) && Sum4(p, q, r, s) == Xor(Xor(Xor(p, q), r), s)
  {
  }

  lemma Sum3Linear(p: bv8, q: bv8, r: bv8, p': bv8, q': bv8, r': bv8)
    ensures Sum3(Xor(p, p'), Xor(q, q'), Xor(r, r')) == Xor(Sum3(p, q, r), Sum3(p', q', r'))
  {
    hide Xor, Sum3;
    SumsAreXor(p, q, r, r);
    SumsAreXor(p', q', r', r');
    SumsAreXor(Xor(p, p'), Xor(q, q'), Xor(r, r'), r);
    XorLinear(q, r, q', r');
    XorLinear(p, Xor(q, r), p', Xor(q', r'));
  }

  lemma Sum4Linear(p: bv8, q: bv8, r: bv8, s: bv8, p': bv8, q': bv8, r': bv8, s': bv8)
    ensures Sum4(Xor(p, p'), Xor(q, q'), Xor(r, r'), Xor(s, s')) == Xor(Sum4(p, q, r, s), Sum4(p', q', r', s'))
  {
    hide Xor, Sum4;
    SumsAreXor(p, q, r, s);
    SumsAreXor(p', q', r', s');
    SumsAreXor(Xor(p, p'), Xor(q, q'), Xor(r, r'), Xor(s, s'));
    XorLinear(p, q, p', q');
    XorLinear(Xor(p, q), r, Xor(p', q'), r');
    XorLinear(Xor(Xor(p, q), r), s, Xor(Xor(p', q'), r'), s');
  }

  function Twice(x: bv8): bv8 { Xtime(Xtime(x)) }

  function Thrice(x: bv8): bv8 { Xtime(Twice(x)) }

  // The four factors of the inverse.
  lemma Factors(x: bv8)
    ensures Multiply(x, 0x09) == Xor(Thrice(x), x)
    ensures Multiply(x, 0x0b) == Sum3(Thrice(x), Xtime(x), x)
    ensures Multiply(x, 0x0d) == Sum3(Thrice(x), Twice(x), x)
    ensures Multiply(x, 0x0e) == Sum3(Thrice(x), Twice(x), Xtime(x))
  {
  }

  lemma PowersLinear(x: bv8, y: bv8)
    ensures Twice(Xor(x, y)) == Xor(Twice(x), Twice(y)) && Thrice(Xor(x, y)) == Xor(Thrice(x), Thrice(y))
  {
    hide Xtime, Xor;
    XtimeLinear(x, y);
    XtimeLinear(Xtime(x), Xtime(y));
    XtimeLinear(Twice(x), Twice(y));
  }

  lemma MultiplyLinear(x: bv8, y: bv8)
    ensures Multiply(Xor(x, y), 0x09) == Xor(Multiply(x, 0x09), Multiply(y, 0x09))
    ensures Multiply(Xor(x, y), 0x0b) == Xor(Multiply(x, 0x0b), Multiply(y, 0x0b))
    ensures Multiply(Xor(x, y), 0x0d) == Xor(Multiply(x, 0x0d), Multiply(y, 0x0d))
    ensures Multiply(Xor(x, y), 0x0e) == Xor(Multiply(x, 0x0e), Multiply(y, 0x0e))
  {
    hide Multiply, Xtime, Twice, Thrice, Xor, Sum3;
    Factors(x);
    Factors(y);
    Factors(Xor(x, y));
    XtimeLinear(x, y);
    PowersLinear(x, y);
    XorLinear(Thrice(x), x, Thrice(y), y);
    Sum3Linear(Thrice(x), Xtime(x), x, Thrice(y), Xtime(y), y);
    Sum3Linear(Thrice(x), Twice(x), x, Thrice(y), Twice(y), y);
    Sum3Linear(Thrice(x), Twice(x), Xtime(x), Thrice(y), Twice(y), Xtime(y));
  }

  lemma MixByteLinear(a: bv8, b: bv8, t: bv8, a': bv8, b': bv8, t': bv8)
    ensures MixByte(Xor(a, a'), Xor(b, b'), Xor(t, t')) == Xor(MixByte(a, b, t), MixByte(a', b', t'))
  {
    hide Xtime, Xor, Sum3;
    XorLinear(a, b, a', b');
    XtimeLinear(Xor(a, b), Xor(a', b'));
    Sum3Linear(a, Xtime(Xor(a, b)), t, a', Xtime(Xor(a', b')), t');
  }

  lemma MixColLinear(s: Col, t: Col)
    ensures MixCol(Plus(s, t)) == Plus(MixCol(s), MixCol(t))
  {
    hide MixByte, Sum4, Xor;
    var p, q := Sum4(s.a, s.b, s.c, s.d), Sum4(t.a, t.b, t.c, t.d);
    Sum4Linear(s.a, s.b, s.c, s.d, t.a, t.b, t.c, t.d);
    MixByteLinear(s.a, s.b, p, t.a, t.b, q);
    MixByteLinear(s.b, s.c, p, t.b, t.c, q);
    MixByteLinear(s.c, s.d, p, t.c, t.d, q);
    MixByteLinear(s.d, s.a, p, t.d, t.a, q);
  }

  lemma InvMixColLinear(s: Col, t: Col)
    ensures InvMixCol(Plus(s, t)) == Plus(InvMixCol(s), InvMixCol(t))
  {
    hide Multiply, Sum4, Xor;
    MultiplyLinear(s.a, t.a);
    MultiplyLinear(s.b, t.b);
    MultiplyLinear(s.c, t.c);
    MultiplyLinear(s.d, t.d);
    Sum4Linear(Multiply(s.a, 0x0e), Multiply(s.b, 0x0b), Multiply(s.c, 0x0d), Multiply(s.d, 0x09),
               Multiply(t.a, 0x0e), Multiply(t.b, 0x0b), Multiply(t.c, 0x0d), Multiply(t.d, 0x09));
    Sum4Linear(Multiply(s.a, 0x09), Multiply(s.b, 0x0e), Multiply(s.c, 0x0b), Multiply(s.d, 0x0d),
               Multiply(t.a, 0x09), Multiply(t.b, 0x0e), Multiply(t.c, 0x0b), Multiply(t.d, 0x0d));
    Sum4Linear(Multiply(s.a, 0x0d), Multiply(s.b, 0x09), Multiply(s.c, 0x0e), Multiply(s.d, 0x0b),
               Multiply(t.a, 0x0d), Multiply(t.b, 0x09), Multiply(t.c, 0x0e), Multiply(t.d, 0x0b));
    Sum4Linear(Multiply(s.a, 0x0b), Multiply(s.b, 0x0d), Multiply(s.c, 0x09), Multiply(s.d, 0x0e),
               Multiply(t.a, 0x0b), Multiply(t.b, 0x0d), Multiply(t.c, 0x09), Multiply(t.d, 0x0e));
  }

  // ---------- one byte at a time ----------

  lemma SingleA(x: bv8)
    ensures InvMixCol(MixCol(Col(x, 0, 0, 0))) == Col(x, 0, 0, 0)
  {
  }

  lemma SingleB(x: bv8)
    ensures InvMixCol(MixCol(Col(0, x, 0, 0))) == Col(0, x, 0, 0)
  {
  }

  lemma SingleC(x: bv8)
    ensures InvMixCol(MixCol(Col(0, 0, x, 0))) == Col(0, 0, x, 0)
  {
  }

  lemma SingleD(x: bv8)
    ensures InvMixCol(MixCol(Col(0, 0, 0, x))) == Col(0, 0, 0, x)
  {
  }

  lemma Parts(s: Col)
    ensures s == Plus(Plus(Col(s.a, 0, 0, 0), Col(0, s.b, 0, 0)), Plus(Col(0, 0, s.c, 0), Col(0, 0, 0, s.d)))
  {
  }

  lemma UndoPlus(s: Col, t: Col)
    requires InvMixCol(MixCol(s)) == s && InvMixCol(MixCol(t)) == t
    ensures InvMixCol(MixCol(Plus(s, t))) == Plus(s, t)
  {
    MixColLinear(s, t);
    InvMixColLinear(MixCol(s), MixCol(t));
    hide MixCol, InvMixCol, Plus;
  }

  /** Every mixed column is unmixed. */
  lemma InvMixUndoesMix(s: Col)
    ensures InvMixCol(MixCol(s)) == s
  {
    SingleA(s.a);
    SingleB(s.b);
    SingleC(s.c);
    SingleD(s.d);
    Parts(s);
    hide MixCol, InvMixCol, Plus;
    UndoPlus(Col(s.a, 0, 0, 0), Col(0, s.b, 0, 0));
    UndoPlus(Col(0, 0, s.c, 0), Col(0, 0, 0, s.d));
    UndoPlus(Plus(Col(s.a, 0, 0, 0), Col(0, s.b, 0, 0)), Plus(Col(0, 0, s.c, 0), Col(0, 0, 0, s.d)));
  }
}
