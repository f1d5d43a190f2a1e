/** What the strings of a JSON text mean by section 7 of RFC 8259, and that lua_cjson.c writes and reads them so. */
module JsonGrammar {
  import opened Basics
  import opened JsonText

  // ---------- what the characters mean ----------

  // The table of two-character escapes.
  function LetterMeans(c: bv8): bv8 {
    if c == 0x62 then 0x08
    else if c == 0x66 then 0x0c
    else if c == 0x6e then 0x0a
    else if c == 0x72 then 0x0d
    else if c == 0x74 then 0x09
    else c
  }

  function HexMeans(c: bv8): bv32
    requires IsHex(c)
  {
    if c <= 0x39 then c as bv32 - 0x30 else if c <= 0x46 then c as bv32 - 0x37 else c as bv32 - 0x57
  }

  predicate IsUnit(t: Bytes, i: nat) {
    && i + 6 <= |t| && t[i] == 0x5c && t[i + 1] == 0x75
    && IsHex(t[i + 2]) && IsHex(t[i + 3]) && IsHex(t[i + 4]) && IsHex(t[i + 5])
  }

  // The UTF-16 code unit of an escape.
  function UnitMeans(t: Bytes, i: nat): bv32
    requires IsUnit(t, i)
  {
    FourMean(HexMeans(t[i + 2]), HexMeans(t[i + 3]), HexMeans(t[i + 4]), HexMeans(t[i + 5]))
  }

  function FourMean(a: bv32, b: bv32, c: bv32, d: bv32): bv32 { 0x1000 * a + 0x100 * b + 0x10 * c + d }

  // The code point of a surrogate pair.
  function PairMeans(hi: bv32, lo: bv32): bv32 { 0x1_0000 + 0x400 * (hi - 0xd800) + (lo - 0xdc00) }

  function Before(b: Bytes, s: Option<Bytes>): Option<Bytes> { if s.Some? then Some(b + s.value) else None }

  /** The bytes that the characters between two quotes stand for: none if half a surrogate pair stands alone. */
  function CharsMean(t: Bytes): Option<Bytes>
    requires IsChars(t)
  {
    if t == [] then Some([])
    else if t[0] != 0x5c then Before([t[0]], CharsMean(t[1..]))
    else if t[1] != 0x75 then Before([LetterMeans(t[1])], CharsMean(t[2..]))
    else
      var u := UnitMeans(t, 0);
      if u < 0xd800 || u > 0xdfff then Before(Utf8(u), CharsMean(t[6..]))
      else if u < 0xdc00 && IsUnit(t, 6) && 0xdc00 <= UnitMeans(t, 6) <= 0xdfff then
        SecondUnit(t);
        Before(Utf8(PairMeans(u, UnitMeans(t, 6))), CharsMean(t[12..]))
      else None
  }

  lemma SecondUnit(t: Bytes)
    requires IsUnit(t, 0) && IsChars(t)
    ensures IsChars(t[6..])
    ensures IsUnit(t, 6) ==> IsChars(t[12..])
    ensures IsUnit(t, 6) <==> |t| >= 8 && t[6] == 0x5c && t[7] == 0x75
    ensures |t| >= 6 && (|t| == 7 ==> t[6] != 0x5c)
  {
    var u := t[6..];
    if |u| >= 2 && u[0] == 0x5c && u[1] == 0x75 {
      assert u[6..] == t[12..];
    }
  }

  // ---------- they are read as that ----------

  lemma DigitMeans(c: bv8)
    ensures IsHex(c) <==> 0x30 <= c <= 0x39 || 0x41 <= c <= 0x46 || 0x61 <= c <= 0x66
    ensures IsHex(c) ==> HexDigit(c) == Some(HexMeans(c)) && HexMeans(c) <= 15
    ensures 0x30 <= c <= 0x39 ==> HexDigit(c) == Some(c as bv32 - 0x30)
    ensures 0x41 <= c <= 0x46 ==> HexDigit(c) == Some(c as bv32 - 0x41 + 10)
    ensures 0x61 <= c <= 0x66 ==> HexDigit(c) == Some(c as bv32 - 0x61 + 10)
  {
  }

  lemma FourDigitsMean(a: bv32, b: bv32, c: bv32, d: bv32)
    requires a <= 15 && b <= 15 && c <= 15 && d <= 15
    ensures FourDigits(a, b, c, d) == FourMean(a, b, c, d) == 0x1000 * a + 0x100 * b + 0x10 * c + d <= 0xffff
  {
  }

  lemma ReadsUnit(t: Bytes, i: nat)
    requires IsUnit(t, i)
    ensures Hex4(t, i + 2) == Some(UnitMeans(t, i)) && UnitMeans(t, i) <= 0xffff
  {
    DigitMeans(t[i + 2]);
    DigitMeans(t[i + 3]);
    DigitMeans(t[i + 4]);
    DigitMeans(t[i + 5]);
    FourDigitsMean(HexMeans(t[i + 2]), HexMeans(t[i + 3]), HexMeans(t[i + 4]), HexMeans(t[i + 5]));
    hide HexDigit, HexMeans, FourDigits, FourMean, IsHex;
  }

  // The masks of the code are the ranges of the standard.
  lemma Surrogates(u: bv32)
    requires u <= 0xffff
    ensures u & 0xf800 == 0xd800 <==> 0xd800 <= u <= 0xdfff
    ensures u & 0xf800 == 0xd800 ==> (u & 0x400 == 0 <==> u < 0xdc00)
    ensures u & 0xfc00 == 0xdc00 <==> 0xdc00 <= u <= 0xdfff
  {
  }

  lemma SameUnit(t: Bytes, w: Bytes, i: nat)
    requires t <= w && IsUnit(t, i)
    ensures IsUnit(w, i) && UnitMeans(w, i) == UnitMeans(t, i)
  {
    hide IsHex, HexMeans, FourMean;
  }

  // The escape at the front of a text that has these digits.
  lemma UnescapedUnit(w: Bytes)
    requires Hex4(w, 2).Some?
    ensures var u, q := Hex4(w, 2).value, Hex4(w, 8);
            Unescaped(w) ==
            if u < 0xd800 || u > 0xdfff then Some((Utf8(u), 6))
            else if u < 0xdc00 && At(w, 6) == 0x5c && At(w, 7) == 0x75 && q.Some? && 0xdc00 <= q.value <= 0xdfff then
              Some((Utf8(PairMeans(u, q.value)), 12))
            else None
  {
    hide Hex4, Utf8, Joined, PairMeans;
    Hex4Bound(w, 2);
    Hex4Bound(w, 8);
    var u, q := Hex4(w, 2).value, Hex4(w, 8);
    Surrogates(u);
    if q.Some? {
      Surrogates(q.value);
      if 0xd800 <= u < 0xdc00 && 0xdc00 <= q.value <= 0xdfff {
        Pairs(u, q.value);
      }
    }
  }

  lemma NoSecondUnit(t: Bytes, rest: Bytes)
    requires |t| >= 6 && (|t| == 7 ==> t[6] != 0x5c) && !(|t| >= 8 && t[6] == 0x5c && t[7] == 0x75)
    ensures var w := t + [0x22] + rest; At(w, 6) != 0x5c || At(w, 7) != 0x75
  {
    var w := t + [0x22] + rest;
    if |t| == 6 {
      assert w[6] == 0x22;
    } else if |t| == 7 {
      assert w[6] == t[6];
    } else {
      assert w[6] == t[6] && w[7] == t[7];
    }
  }

  // An escape with a code unit, and with the one behind it if it needs one.
  lemma ReadsEscapedUnit(t: Bytes, rest: Bytes)
    requires IsChars(t) && IsUnit(t, 0)
    ensures var u := UnitMeans(t, 0);
            Unescaped(t + [0x22] + rest) ==
            if u < 0xd800 || u > 0xdfff then Some((Utf8(u), 6))
            else if u < 0xdc00 && IsUnit(t, 6) && 0xdc00 <= UnitMeans(t, 6) <= 0xdfff then
              Some((Utf8(PairMeans(u, UnitMeans(t, 6))), 12))
            else None
  {
    hide IsUnit, UnitMeans, Hex4, Utf8, PairMeans, IsChars, Unescaped;
    var w := t + [0x22] + rest;
    SameUnit(t, w, 0);
    ReadsUnit(w, 0);
    UnescapedUnit(w);
    SecondUnit(t);
    if IsUnit(t, 6) {
      SameUnit(t, w, 6);
      ReadsUnit(w, 6);
    } else {
      NoSecondUnit(t, rest);
    }
  }

  lemma Pairs(hi: bv32, lo: bv32)
    requires 0xd800 <= hi < 0xdc00 && 0xdc00 <= lo <= 0xdfff
    ensures Joined(hi, lo) == PairMeans(hi, lo) == 0x1_0000 + 0x400 * (hi - 0xd800) + (lo - 0xdc00)
  {
  }

  /** The two-character escapes, one by one: so they are read, and so they are written. */
  lemma Letters()
    ensures EscapeChar(0x62) == 0x08 && EscapeChar(0x66) == 0x0c && EscapeChar(0x6e) == 0x0a
    ensures EscapeChar(0x72) == 0x0d && EscapeChar(0x74) == 0x09
    ensures EscapeChar(0x22) == 0x22 && EscapeChar(0x5c) == 0x5c && EscapeChar(0x2f) == 0x2f
    ensures Escape(0x08) == [0x5c, 0x62] && Escape(0x0c) == [0x5c, 0x66] && Escape(0x0a) == [0x5c, 0x6e]
    ensures Escape(0x0d) == [0x5c, 0x72] && Escape(0x09) == [0x5c, 0x74]
    ensures Escape(0x22) == [0x5c, 0x22] && Escape(0x5c) == [0x5c, 0x5c] && Escape(0x2f) == [0x5c, 0x2f]
  {
  }

  /** Every other byte is written as itself, or as its code in six characters if it is a control character. */
  lemma OtherBytes(c: bv8)
    requires c !in {0x08, 0x0c, 0x0a, 0x0d, 0x09, 0x22, 0x5c, 0x2f}
    ensures 0x20 <= c && c != 0x7f ==> Escape(c) == [c]
    ensures c < 0x10 ==> Escape(c) == [0x5c, 0x75, 0x30, 0x30, 0x30, if c < 10 then 0x30 + c else 0x61 + (c - 10)]
    ensures 0x10 <= c < 0x20 ==>
              Escape(c) == [0x5c, 0x75, 0x30, 0x30, 0x31, if c < 26 then 0x30 + (c - 16) else 0x61 + (c - 26)]
    ensures c == 0x7f ==> Escape(c) == [0x5c, 0x75, 0x30, 0x30, 0x37, 0x66]
  {
  }

  lemma LetterIsRead(c: bv8)
    requires MayFollow(c)
    ensures EscapeChar(c) == LetterMeans(c) != 0 && c != LOWER_U
  {
  }

  /** The characters of a string are read as what they mean, and refused exactly if they mean nothing. */
  lemma {:induction false} ReadsChars(t: Bytes, rest: Bytes)
    requires IsChars(t)
    ensures ReadString(t + [0x22] + rest) ==
            if CharsMean(t).Some? then Got(CharsMean(t).value, rest) else Wrong("invalid unicode escape code")
    decreases |t|
  {
    hide ReadString, Unescaped, UnitMeans, PairMeans, Utf8, EscapeChar, LetterMeans;
    var w := t + [0x22] + rest;
    if t == [] {
      StringEnds(w);
      assert w[1..] == rest;
    } else if t[0] != 0x5c {
      assert w == [t[0]] + (t[1..] + [0x22] + rest);
      ReadsPlain(t[0], t[1..] + [0x22] + rest);
      ReadsChars(t[1..], rest);
    } else if t[1] != 0x75 {
      assert w == [BACKSLASH, t[1]] + (t[2..] + [0x22] + rest);
      LetterIsRead(t[1]);
      ReadsShort(t[1], t[2..] + [0x22] + rest);
      ReadsChars(t[2..], rest);
    } else {
      ReadsEscapedUnit(t, rest);
      SecondUnit(t);
      UnitEscape(w);
      if Unescaped(w).Some? {
        var n := Unescaped(w).value.1;
        assert w[n..] == t[n..] + [0x22] + rest;
        ReadsChars(t[n..], rest);
      }
    }
  }

  lemma UnitEscape(t: Bytes)
    requires |t| >= 2 && t[0] == 0x5c && t[1] == 0x75
    ensures var u := Unescaped(t);
            if u.None? then ReadString(t) == Wrong("invalid unicode escape code")
            else u.value.1 <= |t| && ReadString(t) == Prefixed(u.value.0, ReadString(t[u.value.1..]))
  {
    hide Unescaped;
    UnescapedInside(t);
    assert EscapeChar(0x75) == LOWER_U;
  }

  /** How a code point is written in bytes. */
  lemma Utf8Bytes(p: bv32)
    requires p <= 0x1f_ffff
    ensures p <= 0x7f ==> Utf8(p) == [p as bv8]
    ensures 0x80 <= p <= 0x7ff ==> Utf8(p) == [(p >> 6) as bv8 + 0xc0, (p & 0x3f) as bv8 + 0x80]
    ensures 0x800 <= p <= 0xffff ==>
              Utf8(p) == [(p >> 12) as bv8 + 0xe0, ((p >> 6) & 0x3f) as bv8 + 0x80, (p & 0x3f) as bv8 + 0x80]
    ensures 0x1_0000 <= p ==>
              Utf8(p) == [(p >> 18) as bv8 + 0xf0, ((p >> 12) & 0x3f) as bv8 + 0x80,
                          ((p >> 6) & 0x3f) as bv8 + 0x80, (p & 0x3f) as bv8 + 0x80]
  {
  }

  /** What the encoder writes between two quotes means the bytes that it wrote. */
  lemma EscapedMeans(s: Bytes)
    ensures IsChars(EscapeAll(s)) && CharsMean(EscapeAll(s)) == Some(s)
  {
    EscapedIsChars(s);
    ReadsChars(EscapeAll(s), []);
    ReadsQuoted(s, []);
  }
}
