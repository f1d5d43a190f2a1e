/** The characters, strings, numbers and tokens of JSON (lua_cjson.c). Strings are bytes; escapes are
    those of section 7 of RFC 8259, code points are written as in section 3 of RFC 3629. */
module JsonText {
  import opened Basics

  type Bytes = seq<bv8>

  // The byte at a position of a C string, which ends with a zero.
  function At(t: Bytes, i: nat): bv8 { if i < |t| then t[i] else 0 }

  // ---------- characters ----------

  const QUOTE: bv8 := 0x22
  const SLASH: bv8 := 0x2f
  const BACKSLASH: bv8 := 0x5c
  const DEL: bv8 := 0x7f
  const LOWER_U: bv8 := 0x75

  function HexChar(n: bv8): bv8 { if n < 10 then 0x30 + n else 0x57 + n }

  // Half a byte at a time.
  function UnicodeEscape(c: bv8): Bytes { [BACKSLASH, LOWER_U, 0x30, 0x30, HexChar(c >> 4), HexChar(c & 0xf)] }

  // char2escape: how a byte is written in a string.
  function Escape(c: bv8): Bytes {
    if c == 0x08 then [BACKSLASH, 0x62]
    else if c == 0x09 then [BACKSLASH, 0x74]
    else if c == 0x0a then [BACKSLASH, 0x6e]
    else if c == 0x0c then [BACKSLASH, 0x66]
    else if c == 0x0d then [BACKSLASH, 0x72]
    else if c < 0x20 || c == DEL then UnicodeEscape(c)
    else if c == QUOTE || c == SLASH || c == BACKSLASH then [BACKSLASH, c]
    else [c]
  }

  // escape2char: what stands for what behind a backslash; 0 for an error.
  function EscapeChar(c: bv8): bv8 {
    if c == QUOTE || c == BACKSLASH || c == SLASH || c == LOWER_U then c
    else if c == 0x62 then 0x08
    else if c == 0x74 then 0x09
    else if c == 0x6e then 0x0a
    else if c == 0x66 then 0x0c
    else if c == 0x72 then 0x0d
    else 0
  }

  function HexDigit(c: bv8): Option<bv32> {
    if 0x30 <= c <= 0x39 then Some((c - 0x30) as bv32)
    else
      var d := c | 0x20;  // lower case
      if 0x61 <= d <= 0x66 then Some((d - 0x57) as bv32) else None
  }

  // decode_hex4
  function Hex4(t: Bytes, i: nat): Option<bv32> {
    var a, b, c, d := HexDigit(At(t, i)), HexDigit(At(t, i + 1)), HexDigit(At(t, i + 2)), HexDigit(At(t, i + 3));
    if a.None? || b.None? || c.None? || d.None? then None
    else Some(FourDigits(a.value, b.value, c.value, d.value))
  }

  function FourDigits(a: bv32, b: bv32, c: bv32, d: bv32): bv32 { (a << 12) + (b << 8) + (c << 4) + d }

  // codepoint_to_utf8
  function Utf8(p: bv32): (b: Bytes)
    ensures |b| <= 4
  {
    if p <= 0x7f then [Low(p)]
    else if p <= 0x7ff then [Low((p >> 6) | 0xc0), Low((p & 0x3f) | 0x80)]
    else if p <= 0xffff then [Low((p >> 12) | 0xe0), Low(((p >> 6) & 0x3f) | 0x80), Low((p & 0x3f) | 0x80)]
    else if p <= 0x1fffff then
      [Low((p >> 18) | 0xf0), Low(((p >> 12) & 0x3f) | 0x80), Low(((p >> 6) & 0x3f) | 0x80), Low((p & 0x3f) | 0x80)]
    else []
  }

  // The low byte, as an assignment to a char keeps it.
  function Low(p: bv32): bv8 { (p & 0xff) as bv8 }

  // The code point that bytes in the form of section 3 of RFC 3629 stand for.
  function CodePoint(b: Bytes): bv32 {
    if |b| == 1 then b[0] as bv32
    else if |b| == 2 then ((b[0] as bv32 & 0x1f) << 6) | Tail(b[1])
    else if |b| == 3 then ((b[0] as bv32 & 0x0f) << 12) | (Tail(b[1]) << 6) | Tail(b[2])
    else if |b| == 4 then ((b[0] as bv32 & 0x07) << 18) | (Tail(b[1]) << 12) | (Tail(b[2]) << 6) | Tail(b[3])
    else 0
  }

  function Tail(b: bv8): bv32 { b as bv32 & 0x3f }

  // Leading byte and continuation bytes in the ranges that the number of bytes asks for.
  predicate WellFormed(b: Bytes) {
    && 1 <= |b| <= 4
    && (|b| == 1 ==> b[0] <= 0x7f)
    && (|b| == 2 ==> 0xc0 <= b[0] <= 0xdf)
    && (|b| == 3 ==> 0xe0 <= b[0] <= 0xef)
    && (|b| == 4 ==> 0xf0 <= b[0] <= 0xf7)
    && forall i :: 1 <= i < |b| ==> 0x80 <= b[i] <= 0xbf
  }

  // The least code point that needs so many bytes.
  function Least(n: nat): bv32 { if n <= 1 then 0 else if n == 2 then 0x80 else if n == 3 then 0x800 else 0x10000 }

  /** Every code point of up to 21 bits is written in the shortest form and can be read back. */
  lemma Utf8IsShortest(p: bv32)
    requires p <= 0x1fffff
    ensures WellFormed(Utf8(p)) && CodePoint(Utf8(p)) == p && Least(|Utf8(p)|) <= p
  {
    hide WellFormed, CodePoint, Low, Tail;
    if p <= 0x7f {
      Utf8One(p);
    } else if p <= 0x7ff {
      Utf8Two(p);
    } else if p <= 0xffff {
      Utf8Three(p);
    } else {
      Utf8Four(p);
    }
  }

  lemma Utf8One(p: bv32)
    requires p <= 0x7f
    ensures WellFormed([Low(p)]) && CodePoint([Low(p)]) == p
  {
  }

  lemma Utf8Two(p: bv32)
    requires 0x80 <= p <= 0x7ff
    ensures var b := [Low((p >> 6) | 0xc0), Low((p & 0x3f) | 0x80)];
            WellFormed(b) && CodePoint(b) == p
  {
    var b0, b1 := Low((p >> 6) | 0xc0), Low((p & 0x3f) | 0x80);
    TwoBytes(p);
    hide Low, Tail;
    assert [b0, b1][1] == b1;
  }

  lemma TwoBytes(p: bv32)
    requires 0x80 <= p <= 0x7ff
    ensures var b0, b1 := Low((p >> 6) | 0xc0), Low((p & 0x3f) | 0x80);
            0xc0 <= b0 <= 0xdf && 0x80 <= b1 <= 0xbf && ((b0 as bv32 & 0x1f) << 6) | Tail(b1) == p
  {
  }

  lemma Utf8Three(p: bv32)
    requires 0x800 <= p <= 0xffff
    ensures var b := [Low((p >> 12) | 0xe0), Low(((p >> 6) & 0x3f) | 0x80), Low((p & 0x3f) | 0x80)];
            WellFormed(b) && CodePoint(b) == p
  {
    ThreeBytes(p);
    hide Low, Tail;
  }

  lemma ThreeBytes(p: bv32)
    requires 0x800 <= p <= 0xffff
    ensures var b0, b1, b2 := Low((p >> 12) | 0xe0), Low(((p >> 6) & 0x3f) | 0x80), Low((p & 0x3f) | 0x80);
            && 0xe0 <= b0 <= 0xef && 0x80 <= b1 <= 0xbf && 0x80 <= b2 <= 0xbf
            && ((b0 as bv32 & 0x0f) << 12) | (Tail(b1) << 6) | Tail(b2) == p
  {
  }

  lemma Utf8Four(p: bv32)
    requires 0x10000 <= p <= 0x1fffff
    ensures var b := [Low((p >> 18) | 0xf0), Low(((p >> 12) & 0x3f) | 0x80),
                      Low(((p >> 6) & 0x3f) | 0x80), Low((p & 0x3f) | 0x80)];
            WellFormed(b) && CodePoint(b) == p
  {
    FourBytes(p);
    hide Low, Tail;
  }

  lemma FourBytes(p: bv32)
    requires 0x10000 <= p <= 0x1fffff
    ensures var b0, b1 := Low((p >> 18) | 0xf0), Low(((p >> 12) & 0x3f) | 0x80);
            var b2, b3 := Low(((p >> 6) & 0x3f) | 0x80), Low((p & 0x3f) | 0x80);
            && 0xf0 <= b0 <= 0xf7 && 0x80 <= b1 <= 0xbf && 0x80 <= b2 <= 0xbf && 0x80 <= b3 <= 0xbf
            && ((b0 as bv32 & 0x07) << 18) | (Tail(b1) << 12) | (Tail(b2) << 6) | Tail(b3) == p
  {
  }

  // A `\u' escape at the front of a text, with its second half if it is a surrogate: the bytes
  // it stands for and its length.
  function Unescaped(t: Bytes): Option<(Bytes, nat)> {
    var p := Hex4(t, 2);
    if p.None? then None
    else if p.value & 0xf800 == 0xd800 then
      if p.value & 0x400 != 0 then None
      else if At(t, 6) != BACKSLASH || At(t, 7) != LOWER_U then None
      else
        var q := Hex4(t, 8);
        if q.None? || q.value & 0xfc00 != 0xdc00 then None else Some((Utf8(Joined(p.value, q.value)), 12))
    else Some((Utf8(p.value), 6))
  }

  function Joined(hi: bv32, lo: bv32): bv32 { (((hi & 0x3ff) << 10) | (lo & 0x3ff)) + 0x10000 }

  /** The two halves of a surrogate pair make the code point that section 7 of RFC 8259 means. */
  lemma JoinedIsPair(hi: bv32, lo: bv32)
    requires 0xd800 <= hi <= 0xdbff && 0xdc00 <= lo <= 0xdfff
    ensures Joined(hi, lo) == 0x10000 + (hi - 0xd800) * 0x400 + (lo - 0xdc00)
    ensures 0x10000 <= Joined(hi, lo) <= 0x10ffff
  {
  }

  lemma Hex4Bound(t: Bytes, i: nat)
    ensures Hex4(t, i).Some? ==> Hex4(t, i).value <= 0xffff && i + 4 <= |t|
  {
    assert HexDigit(0) == None;
    DigitBound(At(t, i));
    DigitBound(At(t, i + 1));
    DigitBound(At(t, i + 2));
    DigitBound(At(t, i + 3));
    if Hex4(t, i).Some? {
      hide HexDigit, FourDigits;
      FourDigitsBound(HexDigit(At(t, i)).value, HexDigit(At(t, i + 1)).value, HexDigit(At(t, i + 2)).value,
                 HexDigit(At(t, i + 3)).value);
    }
  }

  lemma DigitBound(c: bv8)
    ensures HexDigit(c).Some? ==> HexDigit(c).value <= 15
  {
  }

  lemma FourDigitsBound(a: bv32, b: bv32, c: bv32, d: bv32)
    requires a <= 15 && b <= 15 && c <= 15 && d <= 15
    ensures FourDigits(a, b, c, d) <= 0xffff
  {
  }

  // ---------- strings ----------

  function EscapeAll(s: Bytes): Bytes { if s == [] then [] else Escape(s[0]) + EscapeAll(s[1..]) }

  function Quoted(s: Bytes): Bytes { [QUOTE] + EscapeAll(s) + [QUOTE] }

  datatype Read<+T> = Got(value: T, rest: Bytes) | Wrong(found: string)

  function Prefixed(b: Bytes, r: Read<Bytes>): Read<Bytes> { if r.Got? then Got(b + r.value, r.rest) else r }

  // The rest of a string, behind its opening quote. An error says what was found instead.
  function ReadString(t: Bytes): (r: Read<Bytes>)
    ensures r.Got? ==> |r.rest| < |t| && |r.value| < |t| - |r.rest|
    decreases |t|
  {
    if At(t, 0) == QUOTE then Got([], t[1..])
    else if At(t, 0) == 0 then Wrong("unexpected end of string")
    else if t[0] == BACKSLASH then
      var ch := EscapeChar(At(t, 1));
      if ch == LOWER_U then
        var u := Unescaped(t);
        if u.None? then Wrong("invalid unicode escape code")
        else
          UnescapedInside(t);
          Prefixed(u.value.0, ReadString(t[u.value.1..]))
      else if ch == 0 then Wrong("invalid escape code")
      else Prefixed([ch], ReadString(t[2..]))
    else Prefixed([t[0]], ReadString(t[1..]))
  }

  lemma StringEnds(t: Bytes)
    requires At(t, 0) == QUOTE
    ensures ReadString(t) == Got([], t[1..])
  {
  }

  lemma UnescapedInside(t: Bytes)
    ensures var u := Unescaped(t);
            u.Some? ==> 6 <= u.value.1 <= |t| && |u.value.0| <= 4
  {
    Hex4Bound(t, 2);
    Hex4Bound(t, 8);
    hide Hex4, Utf8, Joined;
  }

  /** An escaped byte is read back as that byte, whatever follows. */
  lemma ReadsEscape(c: bv8, rest: Bytes)
    ensures ReadString(Escape(c) + rest) == Prefixed([c], ReadString(rest))
  {
    hide ReadString, HexChar;
    if |Escape(c)| == 1 {
      ReadsPlain(c, rest);
    } else if |Escape(c)| == 2 {
      ReadsShort(Escape(c)[1], rest);
    } else {
      ReadsUnicode(c, rest);
    }
  }

  lemma ReadsPlain(c: bv8, rest: Bytes)
    requires c != QUOTE && c != BACKSLASH && c != 0
    ensures ReadString([c] + rest) == Prefixed([c], ReadString(rest))
  {
    assert ([c] + rest)[1..] == rest;
  }

  lemma ReadsShort(e: bv8, rest: Bytes)
    requires EscapeChar(e) != 0 && e != LOWER_U
    ensures ReadString([BACKSLASH, e] + rest) == Prefixed([EscapeChar(e)], ReadString(rest))
  {
    var t := [BACKSLASH, e] + rest;
    assert EscapeChar(e) != LOWER_U && t[2..] == rest;
  }

  lemma ReadsUnicode(c: bv8, rest: Bytes)
    requires c < 0x20 || c == DEL
    ensures ReadString(UnicodeEscape(c) + rest) == Prefixed([c], ReadString(rest))
  {
    var t := UnicodeEscape(c) + rest;
    HexCharDigit(c >> 4);
    HexCharDigit(c & 0xf);
    Halves(c);
    hide HexChar, HexDigit, FourDigits;
    assert HexDigit(0x30) == Some(0) by {
      ZeroDigit();
    }
    assert Hex4(t, 2) == Some(c as bv32);
    assert Unescaped(t) == Some(([c], 6));
    assert t[6..] == rest;
  }

  lemma ZeroDigit()
    ensures HexDigit(0x30) == Some(0)
  {
  }

  lemma HexCharDigit(n: bv8)
    requires n < 16
    ensures HexDigit(HexChar(n)) == Some(n as bv32)
  {
  }

  lemma Halves(c: bv8)
    requires c <= 0x7f
    ensures c >> 4 < 16 && c & 0xf < 16
    ensures FourDigits(0, 0, (c >> 4) as bv32, (c & 0xf) as bv32) == c as bv32
    ensures (c as bv32) & 0xf800 != 0xd800 && Utf8(c as bv32) == [c]
  {
  }

  /** Reading a quoted string gives it back, and leaves what follows it. */
  lemma {:induction false} ReadsQuoted(s: Bytes, rest: Bytes)
    ensures ReadString(EscapeAll(s) + [QUOTE] + rest) == Got(s, rest)
  {
    hide Escape;
    if s == [] {
      assert EscapeAll(s) + [QUOTE] + rest == [QUOTE] + rest;
      assert ([QUOTE] + rest)[1..] == rest;
    } else {
      var tail := EscapeAll(s[1..]) + [QUOTE] + rest;
      assert EscapeAll(s) + [QUOTE] + rest == Escape(s[0]) + tail;
      ReadsEscape(s[0], tail);
      ReadsQuoted(s[1..], rest);
      assert [s[0]] + s[1..] == s;
    }
  }

  // ---------- the grammar, section 7 of RFC 8259 ----------

  // What may stand in a string for itself (a byte above 0x7f is a part of a longer character).
  predicate MayStand(c: bv8) { c >= 0x20 && c != QUOTE && c != BACKSLASH }

  // What may follow a backslash.
  predicate MayFollow(c: bv8) {
    c == QUOTE || c == BACKSLASH || c == SLASH || c == 0x62 || c == 0x66 || c == 0x6e || c == 0x72 || c == 0x74
  }

  predicate IsHex(c: bv8) { 0x30 <= c <= 0x39 || 0x41 <= c <= 0x46 || 0x61 <= c <= 0x66 }

  // The characters between the quotes of a string.
  predicate IsChars(t: Bytes) {
    || t == []
    || (MayStand(t[0]) && IsChars(t[1..]))
    || (|t| >= 2 && t[0] == BACKSLASH && MayFollow(t[1]) && IsChars(t[2..]))
    || (|t| >= 6 && t[0] == BACKSLASH && t[1] == LOWER_U
        && IsHex(t[2]) && IsHex(t[3]) && IsHex(t[4]) && IsHex(t[5]) && IsChars(t[6..]))
  }

  lemma EscapeIsChar(c: bv8, rest: Bytes)
    requires IsChars(rest)
    ensures IsChars(Escape(c) + rest)
  {
    var t := Escape(c) + rest;
    assert t[|Escape(c)|..] == rest;
    if |Escape(c)| == 6 {
      HexCharIsHex(c >> 4);
      HexCharIsHex(c & 0xf);
      hide HexChar, IsHex, IsChars;
      UnicodeIsChar(t);
    }
  }

  lemma UnicodeIsChar(t: Bytes)
    requires |t| >= 6 && t[0] == BACKSLASH && t[1] == LOWER_U && IsChars(t[6..])
    requires IsHex(t[2]) && IsHex(t[3]) && IsHex(t[4]) && IsHex(t[5])
    ensures IsChars(t)
  {
  }

  lemma HexCharIsHex(n: bv8)
    ensures n < 16 ==> IsHex(HexChar(n))
  {
  }

  /** What the encoder writes between quotes has the form that the standard asks for: no control character,
      quote or backslash stands there bare. */
  lemma {:induction false} EscapedIsChars(s: Bytes)
    ensures IsChars(EscapeAll(s))
  {
    if s != [] {
      hide Escape;
      EscapedIsChars(s[1..]);
      EscapeIsChar(s[0], EscapeAll(s[1..]));
    }
  }

  // ---------- numbers ----------

  function DigitChar(d: nat): bv8
    requires d < 10
  {
    if d == 0 then 0x30 else if d == 1 then 0x31 else if d == 2 then 0x32 else if d == 3 then 0x33
    else if d == 4 then 0x34 else if d == 5 then 0x35 else if d == 6 then 0x36 else if d == 7 then 0x37
    else if d == 8 then 0x38 else 0x39
  }

  predicate IsDigit(c: bv8) { 0x30 <= c <= 0x39 }

  function DigitValue(c: bv8): nat {
    if c == 0x30 then 0 else if c == 0x31 then 1 else if c == 0x32 then 2 else if c == 0x33 then 3
    else if c == 0x34 then 4 else if c == 0x35 then 5 else if c == 0x36 then 6 else if c == 0x37 then 7
    else if c == 0x38 then 8 else 9
  }

  function Digits(n: nat): (t: Bytes)
    ensures t != [] && IsDigit(t[0])
  {
    if n < 10 then [DigitChar(n)] else Digits(n / 10) + [DigitChar(n % 10)]
  }

  const MINUS: bv8 := 0x2d
  const PLUS: bv8 := 0x2b

  // A number of Lua: the device is built with LUA_NUMBER_INTEGRAL.
  type Long = n: int | -0x8000_0000 <= n <= 0x7fff_ffff

  function NumText(n: int): Bytes { if n < 0 then [MINUS] + Digits(-n) else Digits(n) }

  function ReadDigits(t: Bytes, n: nat): (r: (nat, Bytes))
    ensures |r.1| <= |t| && (t != [] && IsDigit(t[0]) ==> |r.1| < |t|)
    decreases |t|
  {
    if t != [] && IsDigit(t[0]) then ReadDigits(t[1..], 10 * n + DigitValue(t[0])) else (n, t)
  }

  function Saturated(n: int): Long {
    if n > 0x7fff_ffff then 0x7fff_ffff else if n < -0x8000_0000 then -0x8000_0000 else n
  }

  // strtol in base 10: an optional sign and digits.
  function ReadNumber(t: Bytes): (r: Read<Long>)
    ensures r.Got? ==> |r.rest| < |t|
  {
    var u := if At(t, 0) == MINUS || At(t, 0) == PLUS then t[1..] else t;
    if IsDigit(At(u, 0)) then
      var (n, rest) := ReadDigits(u, 0);
      Got(Saturated(if At(t, 0) == MINUS then 0 - n else n), rest)
    else Wrong("invalid number")
  }

  lemma {:induction false} ReadsDigits(n: nat, rest: Bytes)
    ensures ReadDigits(Digits(n) + rest, 0) == ReadDigits(rest, n)
  {
    if n < 10 {
      assert Digits(n) + rest == [DigitChar(n)] + rest;
      ReadsDigit(n, rest, 0);
    } else {
      hide IsDigit, DigitChar;
      var last := [DigitChar(n % 10)] + rest;
      assert Digits(n) + rest == Digits(n / 10) + last;
      ReadsDigits(n / 10, last);
      ReadsDigit(n % 10, rest, n / 10);
    }
  }

  lemma ReadsDigit(d: nat, rest: Bytes, n: nat)
    requires d < 10
    ensures ReadDigits([DigitChar(d)] + rest, n) == ReadDigits(rest, 10 * n + d)
  {
    assert ([DigitChar(d)] + rest)[1..] == rest;
  }

  // An integer in the grammar of section 6 of RFC 8259: no leading zeros.
  predicate IsInteger(t: Bytes) {
    var u := Unsigned(t);
    u != [] && (u[0] != 0x30 || |u| == 1) && AllDigits(u)
  }

  function Unsigned(t: Bytes): Bytes { if t != [] && t[0] == MINUS then t[1..] else t }

  predicate AllDigits(u: Bytes) { forall i :: 0 <= i < |u| ==> IsDigit(u[i]) }

  lemma {:induction false} DigitsAreDigits(n: nat)
    ensures forall i :: 0 <= i < |Digits(n)| ==> IsDigit(Digits(n)[i])
    ensures n > 0 ==> Digits(n)[0] != 0x30
  {
    if n >= 10 {
      DigitsAreDigits(n / 10);
    }
  }

  /** What the encoder writes for a number has the form that the standard asks for. */
  lemma NumberIsInteger(n: int)
    ensures IsInteger(NumText(n))
  {
    var m := if n < 0 then -n else n;
    DigitsAreDigits(m);
    if n < 0 {
      assert NumText(n)[1..] == Digits(m);
    }
  }

  function Pow10(k: nat): nat { if k == 0 then 1 else 10 * Pow10(k - 1) }

  lemma {:induction false} DigitsAtMost(n: nat, k: nat)
    requires 1 <= k && n < Pow10(k)
    ensures |Digits(n)| <= k
  {
    if n >= 10 {
      DigitsAtMost(n / 10, k - 1);
    }
  }

  // A number fits the room that the encoder makes for it.
  lemma NumberFits(n: Long)
    ensures |NumText(n)| <= 11
  {
    var i: int := n;
    assert Pow10(10) == 10_000_000_000 by {
      assert Pow10(5) == 100_000;
    }
    DigitsAtMost(if i < 0 then -i else i, 10);
  }

  // What follows a value in a text: nothing that could be part of a number.
  predicate Stops(rest: Bytes) { rest == [] || !IsDigit(rest[0]) }

  /** A number is read back, whatever follows that is no digit. */
  lemma ReadsNumber(n: Long, rest: Bytes)
    requires Stops(rest)
    ensures ReadNumber(NumText(n) + rest) == Got(n, rest)
  {
    var i: int := n;
    var m: nat := if i < 0 then -i else i;
    ReadsDigits(m, rest);
    if n < 0 {
      assert (NumText(n) + rest)[1..] == Digits(m) + rest;
    }
    assert IsDigit((Digits(m) + rest)[0]);
  }

  // ---------- tokens ----------

  datatype Token =
    | ObjBegin | ObjEnd | ArrBegin | ArrEnd | TString(s: Bytes) | TNumber(n: Long) | TBool(b: bool) | TNull
    | Colon | Comma | End | Bad(found: string)

  predicate IsSpace(c: bv8) { c == 0x20 || c == 0x09 || c == 0x0a || c == 0x0d }

  // Characters that are a token by themselves.
  function Single(c: bv8): Option<Token> {
    if c == 0x7b then Some(ObjBegin)
    else if c == 0x7d then Some(ObjEnd)
    else if c == 0x5b then Some(ArrBegin)
    else if c == 0x5d then Some(ArrEnd)
    else if c == 0x2c then Some(Comma)
    else if c == 0x3a then Some(Colon)
    else None
  }

  // Characters that may begin a longer token.
  predicate Begins(c: bv8) {
    c == 0x66 || c == 0x69 || c == 0x49 || c == 0x6e || c == 0x4e || c == 0x74 || c == QUOTE
    || c == PLUS || c == MINUS || IsDigit(c)
  }

  const TRUE: Bytes := [0x74, 0x72, 0x75, 0x65]
  const FALSE: Bytes := [0x66, 0x61, 0x6c, 0x73, 0x65]
  const NULL: Bytes := [0x6e, 0x75, 0x6c, 0x6c]
  const INF: Bytes := [0x69, 0x6e, 0x66]
  const NAN: Bytes := [0x6e, 0x61, 0x6e]

  predicate StartsWith(t: Bytes, w: Bytes) { |w| <= |t| && t[..|w|] == w }

  // The same without regard to case, for three lower case letters.
  predicate StartsLike(t: Bytes, w: Bytes)
    requires |w| == 3
  {
    forall i :: 0 <= i < 3 ==> At(t, i) | 0x20 == w[i]
  }

  function StringToken(t: Bytes): (Token, Bytes)
    requires t != []
  {
    match ReadString(t[1..])
    case Got(s, rest) => (TString(s), rest)
    case Wrong(found) => (Bad(found), t)
  }

  function NumberToken(t: Bytes): (Token, Bytes) {
    match ReadNumber(t)
    case Got(n, rest) => (TNumber(n), rest)
    case Wrong(found) => (Bad(found), t)
  }

  /** json_next_token: the token at the front of a text, and what follows it. */
  function NextToken(t: Bytes): (r: (Token, Bytes))
    ensures |r.1| <= |t| && (r.0 != End && !r.0.Bad? ==> |r.1| < |t|)
    decreases |t|
  {
    var c := At(t, 0);
    if IsSpace(c) then NextToken(t[1..])
    else if c == 0 then (End, t)
    else if Single(c).Some? then (Single(c).value, t[1..])
    else if !Begins(c) then (Bad("invalid token"), t)
    else if c == QUOTE then StringToken(t)
    else if c == MINUS || IsDigit(c) then NumberToken(t)
    else if StartsWith(t, TRUE) then (TBool(true), t[4..])
    else if StartsWith(t, FALSE) then (TBool(false), t[5..])
    else if StartsWith(t, NULL) then (TNull, t[4..])
    else if c == PLUS || StartsLike(t, INF) || StartsLike(t, NAN) then NumberToken(t)
    else (Bad("invalid token"), t)
  }
}
