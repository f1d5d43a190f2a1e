/** The JSON encoder and decoder (lua_cjson.c) as they work: the encoder appends to a growing buffer,
    the decoder moves a pointer over the text and collects strings in a buffer of fixed size. */
module Json {
  import opened Basics
  import opened JsonText
  import opened JsonCodec
  import opened Strbufs

  // ---------- encoding ----------

  const FPCONV_G_FMT_BUFSIZE := 32

  class Encoder {
    const json: Strbuf

    constructor (buf: Strbuf)
      ensures json == buf
    {
      json := buf;
    }

    /** json_append_string: the room for the worst case is made at once. */
    method AppendString(s: Bytes)
      requires json.Valid()
      modifies json, json.buf
      ensures json.Valid() && (json.buf == old(json.buf) || fresh(json.buf))
      ensures json.Contents() == old(json.Contents()) + Quoted(s)
    {
      hide EscapeAll;
      json.EnsureEmptyLength(|s| * 6 + 2);
      json.AppendCharUnsafe(QUOTE);
      AppendAllEscaped(s);
      json.AppendCharUnsafe(QUOTE);
    }

    method AppendAllEscaped(s: Bytes)
      requires json.Valid() && json.EmptyLength() >= |s| * 6 + 1
      modifies json, json.buf
      ensures json.Valid() && json.buf == old(json.buf) && json.EmptyLength() >= 1
      ensures json.Contents() == old(json.Contents()) + EscapeAll(s)
    {
      hide Escape, EscapeAll;
      NothingEscaped();
      for i := 0 to |s|
        invariant json.Valid() && json.buf == old(json.buf) && json.EmptyLength() >= (|s| - i) * 6 + 1
        invariant json.Contents() == old(json.Contents()) + EscapeAll(s[..i])
      {
        OneMoreEscaped(s, i);
        AppendEscaped(s[i]);
      }
      assert s[..|s|] == s;
    }

    // One byte of a string; there is room for any.
    method AppendEscaped(c: bv8)
      requires json.Valid() && json.EmptyLength() >= 6
      modifies json, json.buf
      ensures json.Valid() && json.buf == old(json.buf) && json.EmptyLength() >= old(json.EmptyLength()) - 6
      ensures json.Contents() == old(json.Contents()) + Escape(c)
    {
      hide Escape;
      EscapeLength(c);
      if Escape(c) != [c] {
        json.AppendString(Escape(c));
      } else {
        json.AppendCharUnsafe(c);
      }
    }

    method AppendNumber(n: Long)
      requires json.Valid()
      modifies json, json.buf
      ensures json.Valid() && (json.buf == old(json.buf) || fresh(json.buf))
      ensures json.Contents() == old(json.Contents()) + NumText(n)
    {
      NumberFits(n);
      json.EnsureEmptyLength(FPCONV_G_FMT_BUFSIZE);
      json.AppendMemUnsafe(NumText(n));
    }

    /** lua_array_length: -1 for an object. */
    method ArraySize(es: seq<Entry>) returns (err: Option<Error>, len: int)
      ensures IsSparse(es) ==> err == Some(CannotSerialise("table", "excessively sparse array"))
      ensures !IsSparse(es) ==> err == None && len == if AllIndices(es) then MaxIndex(es) else -1
    {
      var max, items := 0, 0;
      for i := 0 to |es|
        invariant AllIndices(es[..i]) && max == MaxIndex(es[..i]) && items == i
      {
        if !(es[i].key.KNum? && es[i].key.n != 0 && es[i].key.n >= 1) {
          return None, -1;
        }
        assert es[..i + 1][..i] == es[..i];
        if es[i].key.n > max {
          max := es[i].key.n;
        }
        items := items + 1;
      }
      assert es[..|es|] == es;
      if max > items * SPARSE_RATIO && max > SPARSE_SAFE {
        return Some(CannotSerialise("table", "excessively sparse array")), -1;
      }
      return None, max;
    }

    /** json_append_data: appends the text of the value, or says why there is none. */
    method AppendData(v: Val, depth: nat) returns (err: Option<Error>)
      requires json.Valid() && IsValue(v)
      modifies json, json.buf
      ensures json.Valid() && (json.buf == old(json.buf) || fresh(json.buf))
      ensures match Encode(v, depth)
              case Text(t) => err == None && json.Contents() == old(json.Contents()) + t
              case Fail(e) => err == Some(e)
      decreases v, 1
    {
      err := None;
      match v {
        case Str(s) =>
          AppendString(s);
        case Num(n) =>
          AppendNumber(n);
        case Bool(b) =>
          json.AppendMem(if b then TRUE else FALSE);
        case Tab(es) =>
          err := AppendTable(v, depth + 1);
        case Nil =>
          json.AppendMem(NULL);
        case Null =>
          json.AppendMem(NULL);
        case Other(what) =>
          err := Some(CannotSerialise(what, "type not supported"));
      }
    }

    method AppendTable(v: Val, depth: nat) returns (err: Option<Error>)
      requires json.Valid() && IsValue(v) && v.Tab? && depth > 0
      modifies json, json.buf
      ensures json.Valid() && (json.buf == old(json.buf) || fresh(json.buf))
      ensures match Encode(v, depth - 1)
              case Text(t) => err == None && json.Contents() == old(json.Contents()) + t
              case Fail(e) => err == Some(e)
      decreases v, 0, |v.entries| + 2
    {
      hide IsSparse, MaxIndex;
      if depth > MAX_DEPTH {
        return Some(ExcessiveNesting(depth));
      }
      var len;
      err, len := ArraySize(v.entries);
      if err.Some? {
        return;
      }
      if len > 0 {
        err := AppendArray(v, len, depth);
      } else {
        err := AppendObject(v, depth);
      }
    }

    // A comma if one is due, and what lua_rawgeti finds.
    method AppendItem(v: Val, i: nat, depth: nat, comma: bool) returns (err: Option<Error>)
      requires json.Valid() && IsValue(v) && v.Tab? && comma == (i != 1)
      modifies json, json.buf
      ensures json.Valid() && (json.buf == old(json.buf) || fresh(json.buf))
      ensures match ItemText(v, i, depth)
              case Text(t) => err == None && json.Contents() == old(json.Contents()) + t
              case Fail(e) => err == Some(e)
      decreases v, 0, 0
    {
      hide Encode;
      AppendComma(comma);
      var p := Find(v.entries, KNum(i));
      if p < |v.entries| {
        err := AppendData(v.entries[p].value, depth);
      } else {
        json.AppendMem(NULL);
        err := None;
      }
    }

    method AppendArray(v: Val, n: nat, depth: nat) returns (err: Option<Error>)
      requires json.Valid() && IsValue(v) && v.Tab?
      modifies json, json.buf
      ensures json.Valid() && (json.buf == old(json.buf) || fresh(json.buf))
      ensures match Append([ARR_BEGIN], EncodeItems(v, 1, n, depth))
              case Text(t) => err == None && json.Contents() == old(json.Contents()) + t
              case Fail(e) => err == Some(e)
      decreases v, 0, |v.entries| + 1
    {
      hide Encode, EncodeItem, EncodeItems, ItemText;
      json.AppendChar(ARR_BEGIN);
      ghost var t := [ARR_BEGIN];
      var comma := false;
      for i := 1 to n + 1
        invariant json.Valid() && (json.buf == old(json.buf) || fresh(json.buf)) && comma == (i > 1)
        invariant json.Contents() == old(json.Contents()) + t
        invariant Append([ARR_BEGIN], EncodeItems(v, 1, n, depth)) == Append(t, EncodeItems(v, i, n, depth))
      {
        OneMoreItem(v, i, n, depth, t);
        err := AppendItem(v, i, depth, comma);
        if err.Some? {
          return;
        }
        comma := true;
        t := t + ItemText(v, i, depth).t;
      }
      NoMoreItems(v, n, depth);
      json.AppendChar(ARR_END);
      err := None;
    }

    method AppendComma(comma: bool)
      requires json.Valid()
      modifies json, json.buf
      ensures json.Valid() && (json.buf == old(json.buf) || fresh(json.buf))
      ensures json.Contents() == old(json.Contents()) + Sep(!comma)
    {
      if comma {
        json.AppendChar(COMMA_CHAR);
      }
    }

    method AppendNumberKey(n: Long)
      requires json.Valid()
      modifies json, json.buf
      ensures json.Valid() && (json.buf == old(json.buf) || fresh(json.buf))
      ensures json.Contents() == old(json.Contents()) + ([QUOTE] + NumText(n) + [QUOTE, COLON_CHAR])
    {
      hide NumText;
      json.AppendChar(QUOTE);
      AppendNumber(n);
      json.AppendMem([QUOTE, COLON_CHAR]);
    }

    method AppendKey(k: Key) returns (err: Option<Error>)
      requires json.Valid() && IsLongKey(k)
      modifies json, json.buf
      ensures json.Valid() && (json.buf == old(json.buf) || fresh(json.buf))
      ensures match KeyText(k)
              case Text(t) => err == None && json.Contents() == old(json.Contents()) + t
              case Fail(e) => err == Some(e)
    {
      err := None;
      match k {
        case KNum(n) =>
          AppendNumberKey(n);
        case KStr(s) =>
          AppendString(s);
          json.AppendChar(COLON_CHAR);
        case KOther(what) =>
          err := Some(CannotSerialise(what, "table key must be a number or string"));
      }
    }

    method AppendObject(v: Val, depth: nat) returns (err: Option<Error>)
      requires json.Valid() && IsValue(v) && v.Tab?
      modifies json, json.buf
      ensures json.Valid() && (json.buf == old(json.buf) || fresh(json.buf))
      ensures match Append([OBJ_BEGIN], EncodeFields(v, 0, depth))
              case Text(t) => err == None && json.Contents() == old(json.Contents()) + t
              case Fail(e) => err == Some(e)
      decreases v, 0, |v.entries| + 1
    {
      hide Encode, FieldText, EncodeFields;
      json.AppendChar(OBJ_BEGIN);
      ghost var t := [OBJ_BEGIN];
      var comma := false;
      for k := 0 to |v.entries|
        invariant json.Valid() && (json.buf == old(json.buf) || fresh(json.buf)) && comma == (k > 0)
        invariant json.Contents() == old(json.Contents()) + t
        invariant Append([OBJ_BEGIN], EncodeFields(v, 0, depth)) == Append(t, EncodeFields(v, k, depth))
      {
        OneMoreField(v, k, depth, t);
        err := AppendField(v, k, depth, comma);
        if err.Some? {
          return;
        }
        comma := true;
        t := t + FieldText(v, k, depth).t;
      }
      NoMoreFields(v, depth);
      json.AppendChar(OBJ_END);
      err := None;
    }

    // A comma if one is due, the key and the value.
    method AppendField(v: Val, k: nat, depth: nat, comma: bool) returns (err: Option<Error>)
      requires json.Valid() && IsValue(v) && v.Tab? && k < |v.entries| && comma == (k != 0)
      modifies json, json.buf
      ensures json.Valid() && (json.buf == old(json.buf) || fresh(json.buf))
      ensures match FieldText(v, k, depth)
              case Text(t) => err == None && json.Contents() == old(json.Contents()) + t
              case Fail(e) => err == Some(e)
      decreases v, 0, 0
    {
      hide Encode, KeyText;
      AppendComma(comma);
      err := AppendKey(v.entries[k].key);
      if err.None? {
        err := AppendData(v.entries[k].value, depth);
      }
    }

    /** json_encode, in the buffer that is kept from call to call. */
    method JsonEncode(v: Val) returns (err: Option<Error>, t: Bytes)
      requires json.Valid() && IsValue(v)
      modifies json, json.buf
      ensures json.Valid()
      ensures match Encode(v, 0)
              case Text(text) => err == None && t == text
              case Fail(e) => err == Some(e)
    {
      json.Reset();
      err := AppendData(v, 0);
      t := json.Contents();
    }
  }

  // ---------- decoding ----------

  class Parser {
    const data: Bytes
    var ptr: nat
    const tmp: Strbuf
    var current_depth: nat

    // The buffer for strings has room for the whole text and is never replaced.
    ghost predicate Valid()
      reads this, tmp
    {
      ptr <= |data| && tmp.Valid() && |data| < tmp.buf.Length
    }

    ghost function Rest(): Bytes
      requires Valid()
      reads this, tmp
    {
      data[ptr..]
    }

    constructor (text: Bytes)
      ensures Valid() && fresh(tmp) && fresh(tmp.buf) && data == text && Rest() == text && current_depth == 0
    {
      data, ptr, current_depth := text, 0, 0;
      tmp := new Strbuf(|text|);
    }

    // A byte of the text or the zero at its end, which is as far as the decoder may look.
    function Char(i: nat): bv8
      requires i <= |data|
    {
      At(data, i)
    }

    method DecodeHex4(p: nat) returns (v: Option<bv32>)
      requires p <= |data|
      ensures v == Hex4(data, p)
    {
      hide HexDigit, FourDigits;
      var digit: seq<bv32> := [];
      for i := 0 to 4
        invariant p + i <= |data| && |digit| == i
        invariant forall k :: 0 <= k < i ==> HexDigit(At(data, p + k)) == Some(digit[k])
      {
        var d := HexDigit(Char(p + i));
        if d.None? {
          return None;
        }
        ZeroIsNoDigit();
        digit := digit + [d.value];
      }
      return Some(FourDigits(digit[0], digit[1], digit[2], digit[3]));
    }

    /** json_append_unicode_escape */
    method AppendUnicodeEscape() returns (ok: bool)
      requires Valid() && tmp.length <= ptr && ptr + 2 <= |data|
      modifies this`ptr, tmp, tmp.buf
      ensures Valid() && tmp.buf == old(tmp.buf) && if ok then old(ptr) < ptr else ptr == old(ptr)
      ensures var u := Unescaped(old(Rest()));
              && ok == u.Some?
              && (ok ==> tmp.Contents() == old(tmp.Contents()) + u.value.0 && tmp.length <= ptr == old(ptr) + u.value.1)
    {
      hide Hex4, Utf8, Joined;
      ghost var t := data[ptr..];
      UnescapedInside(t);
      HexShift(data, ptr, 2);
      HexShift(data, ptr, 8);
      Hex4Bound(data, ptr + 2);
      Hex4Bound(data, ptr + 8);
      var escape_len := 6;
      var codepoint := DecodeHex4(ptr + 2);
      if codepoint.None? {
        return false;
      }
      var p := codepoint.value;
      if p & 0xf800 == 0xd800 {
        // a surrogate: it must be the first of a pair
        if p & 0x400 != 0 {
          return false;
        }
        if Char(ptr + escape_len) != BACKSLASH || Char(ptr + escape_len + 1) != LOWER_U {
          return false;
        }
        var low := DecodeHex4(ptr + 2 + escape_len);
        if low.None? || low.value & 0xfc00 != 0xdc00 {
          return false;
        }
        JoinedBound(p, low.value);
        p := Joined(p, low.value);
        escape_len := 12;
      }
      Utf8Some(p);
      var utf8 := Utf8(p);
      if utf8 == [] {
        return false;
      }
      tmp.AppendMemUnsafe(utf8);
      ptr := ptr + escape_len;
      return true;
    }

    /** json_next_string_token */
    method NextStringToken() returns (tok: Token)
      requires Valid() && ptr < |data| && data[ptr] == QUOTE
      modifies this`ptr, tmp, tmp.buf
      ensures Valid() && tmp.buf == old(tmp.buf) && old(ptr) <= ptr
      ensures tok == StringToken(old(Rest())).0
      ensures !tok.Bad? ==> Rest() == StringToken(old(Rest())).1
    {
      hide ReadString, EscapeChar, Unescaped;
      ghost var t := data[ptr + 1..];
      assert data[ptr..][1..] == t;
      ptr := ptr + 1;
      tmp.Reset();
      NothingBefore(ReadString(t));
      while Char(ptr) != QUOTE
        invariant Valid() && tmp.buf == old(tmp.buf) && tmp.length <= ptr && old(ptr) <= ptr
        invariant ReadString(t) == Prefixed(tmp.Contents(), ReadString(data[ptr..]))
        decreases |data| - ptr
      {
        var wrong := NextStringPart(t);
        if wrong.Some? {
          return Bad(wrong.value);
        }
      }
      StringEnds(data[ptr..]);
      assert data[ptr..][1..] == data[ptr + 1..];
      ptr := ptr + 1;  // the closing quote
      tmp.EnsureNull();
      tok := TString(tmp.Contents());
    }

    // A character or an escape inside a string whose text began as t.
    method NextStringPart(ghost t: Bytes) returns (wrong: Option<string>)
      requires Valid() && tmp.length <= ptr && At(data, ptr) != QUOTE
      requires ReadString(t) == Prefixed(tmp.Contents(), ReadString(data[ptr..]))
      modifies this`ptr, tmp, tmp.buf
      ensures Valid() && tmp.buf == old(tmp.buf) && old(ptr) <= ptr
      ensures wrong.Some? ==> ReadString(t) == Wrong(wrong.value)
      ensures wrong.None? ==>
                && old(ptr) < ptr && tmp.length <= ptr
                && ReadString(t) == Prefixed(tmp.Contents(), ReadString(data[ptr..]))
    {
      hide ReadString, EscapeChar, Unescaped;
      StringGoesOn(data, ptr, tmp.Contents());
      var ch := Char(ptr);
      if ch == 0 {
        return Some("unexpected end of string");
      }
      if ch == BACKSLASH {
        ch := EscapeChar(Char(ptr + 1));
        ZeroIsNoEscape();
        if ch == LOWER_U {
          var ok := AppendUnicodeEscape();
          return if ok then None else Some("invalid unicode escape code");
        }
        if ch == 0 {
          return Some("invalid escape code");
        }
        ptr := ptr + 1;
      }
      tmp.AppendCharUnsafe(ch);
      ptr := ptr + 1;
      return None;
    }

    // strtol in base 10, which a sign or a digit made the decoder call.
    method NextNumberToken() returns (tok: Token)
      requires Valid() && ptr < |data|
      modifies this`ptr
      ensures Valid() && tok == NumberToken(old(Rest())).0 && old(ptr) <= ptr
      ensures !tok.Bad? ==> Rest() == NumberToken(old(Rest())).1
    {
      var p := ptr;
      if Char(p) == MINUS || Char(p) == PLUS {
        p := p + 1;
      }
      ghost var u := data[p..];
      assert data[ptr..][1..] == data[ptr + 1..];
      var n: nat, q := 0, p;
      while IsDigit(Char(q))
        invariant p <= q <= |data| && ReadDigits(u, 0) == ReadDigits(data[q..], n)
        decreases |data| - q
      {
        assert data[q..][1..] == data[q + 1..];
        n := 10 * n + DigitValue(Char(q));
        q := q + 1;
      }
      if q == p {
        return Bad("invalid number");
      }
      tok := TNumber(Saturated(if Char(ptr) == MINUS then 0 - n else n));
      ptr := q;
    }

    /** json_next_token; the pointer does not matter any more behind a bad token. */
    method NextToken() returns (tok: Token)
      requires Valid()
      modifies this`ptr, tmp, tmp.buf
      ensures Valid() && tmp.buf == old(tmp.buf) && old(ptr) <= ptr
      ensures tok == JsonText.NextToken(old(Rest())).0
      ensures !tok.Bad? ==> Rest() == JsonText.NextToken(old(Rest())).1
    {
      hide IsSpace, Single, Begins;
      while IsSpace(Char(ptr))
        invariant Valid() && tmp.buf == old(tmp.buf) && old(ptr) <= ptr
        invariant JsonText.NextToken(Rest()) == JsonText.NextToken(old(Rest()))
        decreases |data| - ptr
      {
        ZeroIsNoSpace();
        assert data[ptr..][1..] == data[ptr + 1..];
        ptr := ptr + 1;
      }
      var ch := Char(ptr);
      if ch == 0 {
        return End;
      }
      assert data[ptr..][1..] == data[ptr + 1..];
      if Single(ch).Some? {
        ptr := ptr + 1;
        return Single(ch).value;
      }
      if !Begins(ch) {
        return Bad("invalid token");
      }
      tok := NextLongToken();
    }

    // A token that takes more than a look at its first character.
    method NextLongToken() returns (tok: Token)
      requires Valid() && ptr < |data| && Begins(data[ptr])
      modifies this`ptr, tmp, tmp.buf
      ensures Valid() && tmp.buf == old(tmp.buf) && old(ptr) <= ptr
      ensures tok == JsonText.NextToken(old(Rest())).0
      ensures !tok.Bad? ==> Rest() == JsonText.NextToken(old(Rest())).1
    {
      hide ReadString, ReadNumber, StringToken, NumberToken;
      var ch := Char(ptr);
      if ch == QUOTE {
        tok := NextStringToken();
      } else if ch == MINUS || IsDigit(ch) {
        tok := NextNumberToken();
      } else if StartsWith(data[ptr..], TRUE) {
        ptr := ptr + 4;
        tok := TBool(true);
      } else if StartsWith(data[ptr..], FALSE) {
        ptr := ptr + 5;
        tok := TBool(false);
      } else if StartsWith(data[ptr..], NULL) {
        ptr := ptr + 4;
        tok := TNull;
      } else if ch == PLUS || StartsLike(data[ptr..], INF) || StartsLike(data[ptr..], NAN) {
        tok := NextNumberToken();
      } else {
        tok := Bad("invalid token");
      }
    }

    // What a method leaves that should have computed r.
    ghost predicate Computed(r: Parsed, err: Option<Error>, d: Data, depth: nat)
      reads this, tmp
    {
      match r
      case Ok(v, rest) => err == None && d == v && Valid() && Rest() == rest && current_depth == depth
      case Err(e) => err == Some(e)
    }

    /** json_process_value: the value that a token begins. */
    method ProcessValue(tok: Token) returns (err: Option<Error>, d: Data)
      requires Valid()
      modifies this`ptr, this`current_depth, tmp, tmp.buf
      ensures Valid() && tmp.buf == old(tmp.buf)
      ensures Computed(Value(tok, old(Rest()), old(current_depth)), err, d, old(current_depth))
      decreases Left(tok, data[ptr..]), 0
    {
      hide Object, Array;
      err, d := None, DNull;
      match tok {
        case TString(s) =>
          d := DStr(s);
        case TNumber(n) =>
          d := DNum(n);
        case TBool(b) =>
          d := DBool(b);
        case ObjBegin =>
          err, d := ParseObject();
        case ArrBegin =>
          err, d := ParseArray();
        case TNull =>
        case _ =>
          err := Some(Expected("value", Found(tok)));
      }
    }

    /** json_parse_object_context */
    method ParseObject() returns (err: Option<Error>, d: Data)
      requires Valid()
      modifies this`ptr, this`current_depth, tmp, tmp.buf
      ensures Valid() && tmp.buf == old(tmp.buf)
      ensures Computed(Object(old(Rest()), old(current_depth) + 1), err, d, old(current_depth))
      decreases |data[ptr..]|, 2
    {
      hide Fields, JsonText.NextToken;
      err, d := None, DNull;
      current_depth := current_depth + 1;
      if current_depth > MAX_DEPTH {
        return Some(TooManyNested(current_depth)), d;
      }
      ghost var (_, t) := JsonText.NextToken(data[ptr..]);
      var tok := NextToken();
      if tok.ObjEnd? {
        current_depth := current_depth - 1;
        return None, DTab(map[]);
      }
      NoField(tok, t, data[ptr..], map[], current_depth);
      err, d := ParseFields(tok);
      if err.None? {
        current_depth := current_depth - 1;
      }
    }

    method ParseFields(first: Token) returns (err: Option<Error>, d: Data)
      requires Valid()
      modifies this`ptr, this`current_depth, tmp, tmp.buf
      ensures Valid() && tmp.buf == old(tmp.buf)
      ensures Computed(Fields(first, old(Rest()), map[], old(current_depth)), err, d, old(current_depth))
      decreases Left(first, data[ptr..]), 1
    {
      hide Value, JsonText.NextToken;
      err, d := None, DNull;
      var tok, m := first, map[];
      ghost var r := Fields(tok, Rest(), m, current_depth);
      while true
        invariant Valid() && tmp.buf == old(tmp.buf) && current_depth == old(current_depth)
        invariant r == Fields(tok, Rest(), m, current_depth) && Left(tok, Rest()) <= Left(first, old(Rest()))
        decreases Left(tok, Rest())
      {
        if !tok.TString? {
          return Some(Expected("object key string", Found(tok))), d;
        }
        var colon := NextToken();
        if !colon.Colon? {
          return Some(Expected("colon", Found(colon))), d;
        }
        ghost var (_, t2) := JsonText.NextToken(data[ptr..]);
        var begin := NextToken();
        NoValue(begin, t2, data[ptr..], current_depth);
        var v;
        err, v := ProcessValue(begin);
        if err.Some? {
          return;
        }
        m := m[KStr(tok.s) := v];
        var sep := NextToken();
        if sep.ObjEnd? {
          return None, DTab(m);
        }
        if !sep.Comma? {
          return Some(Expected("comma or object end", Found(sep))), d;
        }
        ghost var (_, t4) := JsonText.NextToken(data[ptr..]);
        tok := NextToken();
        NoField(tok, t4, data[ptr..], m, current_depth);
      }
    }

    /** json_parse_array_context */
    method ParseArray() returns (err: Option<Error>, d: Data)
      requires Valid()
      modifies this`ptr, this`current_depth, tmp, tmp.buf
      ensures Valid() && tmp.buf == old(tmp.buf)
      ensures Computed(Array(old(Rest()), old(current_depth) + 1), err, d, old(current_depth))
      decreases |data[ptr..]|, 2
    {
      hide Items, JsonText.NextToken;
      err, d := None, DNull;
      current_depth := current_depth + 1;
      if current_depth > MAX_DEPTH {
        return Some(TooManyNested(current_depth)), d;
      }
      ghost var (_, t) := JsonText.NextToken(data[ptr..]);
      var tok := NextToken();
      if tok.ArrEnd? {
        current_depth := current_depth - 1;
        return None, DTab(map[]);
      }
      NoItem(tok, t, data[ptr..], 1, map[], current_depth);
      err, d := ParseItems(tok);
      if err.None? {
        current_depth := current_depth - 1;
      }
    }

    method ParseItems(first: Token) returns (err: Option<Error>, d: Data)
      requires Valid()
      modifies this`ptr, this`current_depth, tmp, tmp.buf
      ensures Valid() && tmp.buf == old(tmp.buf)
      ensures Computed(Items(first, old(Rest()), 1, map[], old(current_depth)), err, d, old(current_depth))
      decreases Left(first, data[ptr..]), 1
    {
      hide Value, JsonText.NextToken;
      err, d := None, DNull;
      var tok, m, i := first, map[], 1;
      ghost var r := Items(tok, Rest(), i, m, current_depth);
      while true
        invariant Valid() && tmp.buf == old(tmp.buf) && current_depth == old(current_depth)
        invariant r == Items(tok, Rest(), i, m, current_depth) && Left(tok, Rest()) <= Left(first, old(Rest()))
        decreases Left(tok, Rest())
      {
        var v;
        err, v := ProcessValue(tok);
        if err.Some? {
          return;
        }
        m := m[KNum(i) := v];
        var sep := NextToken();
        if sep.ArrEnd? {
          return None, DTab(m);
        }
        if !sep.Comma? {
          return Some(Expected("comma or array end", Found(sep))), d;
        }
        ghost var (_, t) := JsonText.NextToken(data[ptr..]);
        tok := NextToken();
        i := i + 1;
        NoItem(tok, t, data[ptr..], i, m, current_depth);
      }
    }

    /** json_decode */
    method JsonDecode() returns (err: Option<Error>, d: Data)
      requires Valid() && ptr == 0 && current_depth == 0
      modifies this`ptr, this`current_depth, tmp, tmp.buf
      ensures match Decode(data)
              case Ok(v, _) => err == None && d == v
              case Err(e) => err == Some(e)
    {
      hide Value, JsonText.NextToken;
      err, d := None, DNull;
      if |data| >= 2 && (data[0] == 0 || data[1] == 0) {
        return Some(Utf16), d;
      }
      assert data[0..] == data;
      ghost var (_, t) := JsonText.NextToken(data);
      var tok := NextToken();
      NoValue(tok, t, data[ptr..], 0);
      err, d := ProcessValue(tok);
      if err.Some? {
        return;
      }
      var end := NextToken();
      if !end.End? {
        err := Some(Expected("the end", Found(end)));
      }
    }
  }

  lemma NoValue(tok: Token, t: Bytes, t1: Bytes, depth: nat)
    ensures t == t1 || tok.Bad? ==> Value(tok, t, depth) == Value(tok, t1, depth)
  {
  }

  lemma NoItem(tok: Token, t: Bytes, t1: Bytes, i: nat, m: map<Key, Data>, depth: nat)
    ensures t == t1 || tok.Bad? ==> Items(tok, t, i, m, depth) == Items(tok, t1, i, m, depth)
  {
  }

  // Behind a token that is no key it does not matter where the text goes on.
  lemma NoField(tok: Token, t: Bytes, t1: Bytes, m: map<Key, Data>, depth: nat)
    ensures t == t1 || !tok.TString? ==> Fields(tok, t, m, depth) == Fields(tok, t1, m, depth)
  {
  }

  // The same digits, counted from another place.
  lemma HexShift(t: Bytes, p: nat, i: nat)
    requires p <= |t|
    ensures Hex4(t[p..], i) == Hex4(t, p + i)
  {
    hide HexDigit, FourDigits;
    assert At(t[p..], i) == At(t, p + i) && At(t[p..], i + 1) == At(t, p + i + 1);
    assert At(t[p..], i + 2) == At(t, p + i + 2) && At(t[p..], i + 3) == At(t, p + i + 3);
  }

  lemma JoinedBound(hi: bv32, lo: bv32)
    ensures Joined(hi, lo) <= 0x10ffff
  {
  }

  lemma Utf8Some(p: bv32)
    requires p <= 0x10ffff
    ensures 1 <= |Utf8(p)| <= 4 && (p <= 0xffff ==> |Utf8(p)| <= 3)
  {
    hide Low;
  }

  lemma ZeroIsNoEscape()
    ensures EscapeChar(0) == 0
  {
  }

  lemma ZeroIsNoSpace()
    ensures !IsSpace(0)
  {
  }

  // What a string that was read as far as `got' is, given what comes next.
  lemma StringGoesOn(data: Bytes, p: nat, got: Bytes)
    requires p <= |data| && At(data, p) != QUOTE
    ensures var t, all := data[p..], Prefixed(got, ReadString(data[p..]));
            var e := EscapeChar(At(data, p + 1));
            if At(data, p) == 0 then all == Wrong("unexpected end of string")
            else if At(data, p) != BACKSLASH then all == Prefixed(got + [At(data, p)], ReadString(data[p + 1..]))
            else if e == LOWER_U then
              var u := Unescaped(t);
              if u.None? then all == Wrong("invalid unicode escape code")
              else p + u.value.1 <= |data| && all == Prefixed(got + u.value.0, ReadString(data[p + u.value.1..]))
            else if e == 0 then all == Wrong("invalid escape code")
            else p + 2 <= |data| && all == Prefixed(got + [e], ReadString(data[p + 2..]))
  {
    hide Unescaped;
    var t := data[p..];
    assert At(t, 0) == At(data, p) && At(t, 1) == At(data, p + 1);
    ZeroIsNoEscape();
    if At(data, p) != 0 {
      assert t[1..] == data[p + 1..];
      if At(data, p) != BACKSLASH {
        PrefixedTwice(got, [At(data, p)], ReadString(t[1..]));
      } else if EscapeChar(At(data, p + 1)) != LOWER_U && EscapeChar(At(data, p + 1)) != 0 {
        assert t[2..] == data[p + 2..];
        PrefixedTwice(got, [EscapeChar(At(data, p + 1))], ReadString(t[2..]));
      } else if Unescaped(t).Some? {
        UnescapedInside(t);
        var (b, n) := Unescaped(t).value;
        assert t[n..] == data[p + n..];
        PrefixedTwice(got, b, ReadString(t[n..]));
      }
    }
  }

  lemma PrefixedTwice(a: Bytes, b: Bytes, r: Read<Bytes>)
    ensures Prefixed(a, Prefixed(b, r)) == Prefixed(a + b, r)
  {
    if r.Got? {
      assert a + (b + r.value) == a + b + r.value;
    }
  }

  lemma NothingBefore(r: Read<Bytes>)
    ensures Prefixed([], r) == r
  {
    if r.Got? {
      assert [] + r.value == r.value;
    }
  }

  lemma ZeroIsNoDigit()
    ensures HexDigit(0) == None
  {
  }

  // One item or field with the comma before it.
  function ItemText(v: Val, i: nat, depth: nat): Encoded
    requires v.Tab?
  {
    Append(Sep(i == 1), EncodeItem(v, i, depth))
  }

  function FieldText(v: Val, k: nat, depth: nat): Encoded
    requires v.Tab? && k < |v.entries|
  {
    Append(Sep(k == 0), Then(KeyText(v.entries[k].key), Encode(v.entries[k].value, depth)))
  }

  // What is left to encode, one item or field later.
  lemma OneMoreItem(v: Val, i: nat, n: nat, depth: nat, t: Bytes)
    requires v.Tab? && 1 <= i <= n
    ensures var item := ItemText(v, i, depth);
            Append(t, EncodeItems(v, i, n, depth)) ==
            if item.Text? then Append(t + item.t, EncodeItems(v, i + 1, n, depth)) else item
  {
    hide EncodeItem;
    var item, tail := EncodeItem(v, i, depth), EncodeItems(v, i + 1, n, depth);
    if item.Text? && tail.Text? {
      assert t + (Sep(i == 1) + (item.t + tail.t)) == t + (Sep(i == 1) + item.t) + tail.t;
    }
  }

  lemma NoMoreItems(v: Val, n: nat, depth: nat)
    requires v.Tab?
    ensures EncodeItems(v, n + 1, n, depth) == Text([ARR_END])
  {
  }

  lemma OneMoreField(v: Val, k: nat, depth: nat, t: Bytes)
    requires v.Tab? && k < |v.entries|
    ensures var field := FieldText(v, k, depth);
            Append(t, EncodeFields(v, k, depth)) ==
            if field.Text? then Append(t + field.t, EncodeFields(v, k + 1, depth)) else field
  {
    hide Encode, KeyText;
    var key, value := KeyText(v.entries[k].key), Encode(v.entries[k].value, depth);
    var tail := EncodeFields(v, k + 1, depth);
    if key.Text? && value.Text? && tail.Text? {
      assert t + (Sep(k == 0) + (key.t + (value.t + tail.t))) == t + (Sep(k == 0) + (key.t + value.t)) + tail.t;
    }
  }

  lemma NoMoreFields(v: Val, depth: nat)
    requires v.Tab?
    ensures EncodeFields(v, |v.entries|, depth) == Text([OBJ_END])
  {
  }

  lemma NothingEscaped()
    ensures EscapeAll([]) == []
  {
  }

  lemma {:induction false} OneMoreEscaped(s: Bytes, i: nat)
    requires i < |s|
    ensures EscapeAll(s[..i + 1]) == EscapeAll(s[..i]) + Escape(s[i])
    ensures 1 <= |Escape(s[i])| <= 6
  {
    hide Escape;
    EscapeLength(s[i]);
    if i > 0 {
      OneMoreEscaped(s[1..], i - 1);
      assert s[..i + 1][1..] == s[1..][..i] && s[..i][1..] == s[1..][..i - 1];
    } else {
      assert s[..1] == [s[0]] && s[..1][1..] == [];
    }
  }

  lemma EscapeLength(c: bv8)
    ensures 1 <= |Escape(c)| <= 6
  {
  }
}
