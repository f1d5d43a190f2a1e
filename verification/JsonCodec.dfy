/** What the JSON encoder writes for a Lua value and what the decoder makes of a text (lua_cjson.c),
    as functions, and what becomes of a value on the way there and back. */
module JsonCodec {
  import opened Basics
  import opened JsonText

  // ---------- values ----------

  datatype Key = KNum(n: int) | KStr(s: Bytes) | KOther(what: string)

  // A value as the encoder meets it: the entries of a table stand in the order in which
  // lua_next visits them. (Null is the light userdata that stands for a JSON null.)
  datatype Val =
    | Nil | Null | Bool(b: bool) | Num(n: Long) | Str(s: Bytes) | Other(what: string)
    | Tab(entries: seq<Entry>)

  datatype Entry = Entry(key: Key, value: Val)

  // A value as a script sees it: a table is a map.
  datatype Data =
    | DNil | DNull | DBool(b: bool) | DNum(n: Long) | DStr(s: Bytes) | DOther(what: string)
    | DTab(m: map<Key, Data>)

  function Content(v: Val): Data
    decreases v, 0
  {
    match v
    case Nil => DNil
    case Null => DNull
    case Bool(b) => DBool(b)
    case Num(n) => DNum(n)
    case Str(s) => DStr(s)
    case Other(what) => DOther(what)
    case Tab(es) => DTab(Contents(v, |es|))
  }

  // The first n entries.
  function Contents(v: Val, n: nat): map<Key, Data>
    requires v.Tab? && n <= |v.entries|
    decreases v, 0, n
  {
    if n == 0 then map[]
    else Contents(v, n - 1)[v.entries[n - 1].key := Content(v.entries[n - 1].value)]
  }

  // What every table of Lua is: keys are there once, values are not nil. Numbers as keys are longs.
  ghost predicate IsTable(es: seq<Entry>) {
    && (forall i, j :: 0 <= i < j < |es| ==> es[i].key != es[j].key)
    && (forall i :: 0 <= i < |es| ==> es[i].value != Nil && IsLongKey(es[i].key))
  }

  predicate IsLongKey(k: Key) { k.KNum? ==> -0x8000_0000 <= k.n <= 0x7fff_ffff }

  ghost predicate IsValue(v: Val) {
    v.Tab? ==> IsTable(v.entries) && forall i :: 0 <= i < |v.entries| ==> IsValue(v.entries[i].value)
  }

  // ---------- the encoder ----------

  const MAX_DEPTH := 1000
  const SPARSE_RATIO := 2
  const SPARSE_SAFE := 10

  const COMMA_CHAR: bv8 := 0x2c
  const COLON_CHAR: bv8 := 0x3a
  const ARR_BEGIN: bv8 := 0x5b
  const ARR_END: bv8 := 0x5d
  const OBJ_BEGIN: bv8 := 0x7b
  const OBJ_END: bv8 := 0x7d

  datatype Error =
    | CannotSerialise(what: string, reason: string)
    | ExcessiveNesting(depth: nat)
    | Expected(what: string, found: string)
    | TooManyNested(depth: nat)
    | Utf16

  datatype Encoded = Text(t: Bytes) | Fail(e: Error)

  // Every key is an integer from 1.
  predicate AllIndices(es: seq<Entry>) { forall i :: 0 <= i < |es| ==> es[i].key.KNum? && es[i].key.n >= 1 }

  // The greatest index.
  function MaxIndex(es: seq<Entry>): (m: nat)
    requires AllIndices(es)
    ensures forall i :: 0 <= i < |es| ==> es[i].key.n <= m
    ensures m == 0 || KNum(m) in Keys(es)
  {
    if es == [] then 0
    else
      var m := MaxIndex(es[..|es| - 1]);
      assert es == es[..|es| - 1] + [es[|es| - 1]];
      if es[|es| - 1].key.n > m then es[|es| - 1].key.n else m
  }

  function Keys(es: seq<Entry>): set<Key> { set i | 0 <= i < |es| :: es[i].key }

  // lua_array_length: the length of an array, 0 for an object.
  predicate IsSparse(es: seq<Entry>) {
    AllIndices(es) && MaxIndex(es) > |es| * SPARSE_RATIO && MaxIndex(es) > SPARSE_SAFE
  }

  function ArrayLength(es: seq<Entry>): nat { if AllIndices(es) then MaxIndex(es) else 0 }

  // The entry of a key, |es| if there is none.
  function Find(es: seq<Entry>, k: Key): (i: nat)
    ensures i <= |es| && (i < |es| ==> es[i].key == k)
    ensures forall j :: 0 <= j < i ==> es[j].key != k
  {
    if es == [] then 0
    else if es[0].key == k then 0
    else 1 + Find(es[1..], k)
  }

  function Append(t: Bytes, e: Encoded): Encoded { if e.Text? then Text(t + e.t) else e }

  // The text of e, and then what follows it.
  function Then(e: Encoded, f: Encoded): Encoded { if e.Text? then Append(e.t, f) else e }

  function Sep(first: bool): Bytes { if first then [] else [COMMA_CHAR] }

  function KeyText(k: Key): Encoded {
    match k
    case KNum(n) => Text([QUOTE] + NumText(n) + [QUOTE, COLON_CHAR])
    case KStr(s) => Text(Quoted(s) + [COLON_CHAR])
    case KOther(what) => Fail(CannotSerialise(what, "table key must be a number or string"))
  }

  /** json_append_data: the text of a value in so many tables. */
  function Encode(v: Val, depth: nat): Encoded
    decreases v, 1
  {
    match v
    case Str(s) => Text(Quoted(s))
    case Num(n) => Text(NumText(n))
    case Bool(b) => Text(if b then TRUE else FALSE)
    case Nil => Text(NULL)
    case Null => Text(NULL)
    case Other(what) => Fail(CannotSerialise(what, "type not supported"))
    case Tab(es) =>
      if depth + 1 > MAX_DEPTH then Fail(ExcessiveNesting(depth + 1))
      else if IsSparse(es) then Fail(CannotSerialise("table", "excessively sparse array"))
      else if ArrayLength(es) > 0 then Append([ARR_BEGIN], EncodeItems(v, 1, ArrayLength(es), depth + 1))
      else Append([OBJ_BEGIN], EncodeFields(v, 0, depth + 1))
  }

  // Items i..n of an array and its end.
  function EncodeItems(v: Val, i: nat, n: nat, depth: nat): Encoded
    requires v.Tab? && 1 <= i <= n + 1
    decreases v, 0, n + 1 - i
  {
    if i > n then Text([ARR_END])
    else Append(Sep(i == 1), Then(EncodeItem(v, i, depth), EncodeItems(v, i + 1, n, depth)))
  }

  function EncodeItem(v: Val, i: nat, depth: nat): Encoded
    requires v.Tab?
    decreases v, 0, 0
  {
    var p := Find(v.entries, KNum(i));
    if p < |v.entries| then Encode(v.entries[p].value, depth) else Text(NULL)
  }

  // Entries from number k of an object, and its end.
  function EncodeFields(v: Val, k: nat, depth: nat): Encoded
    requires v.Tab? && k <= |v.entries|
    decreases v, 0, |v.entries| - k
  {
    if k == |v.entries| then Text([OBJ_END])
    else
      var e := v.entries[k];
      Append(Sep(k == 0), Then(KeyText(e.key), Then(Encode(e.value, depth), EncodeFields(v, k + 1, depth))))
  }

  // ---------- the decoder ----------

  datatype Parsed = Ok(d: Data, rest: Bytes) | Err(e: Error)

  function Found(tok: Token): string {
    match tok
    case ObjBegin => "T_OBJ_BEGIN"
    case ObjEnd => "T_OBJ_END"
    case ArrBegin => "T_ARR_BEGIN"
    case ArrEnd => "T_ARR_END"
    case TString(_) => "T_STRING"
    case TNumber(_) => "T_NUMBER"
    case TBool(_) => "T_BOOLEAN"
    case TNull => "T_NULL"
    case Colon => "T_COLON"
    case Comma => "T_COMMA"
    case End => "T_END"
    case Bad(found) => found
  }

  function Unexpected(what: string, tok: Token): Parsed { Err(Expected(what, Found(tok))) }

  // What is still to be read; a bracket that was read counts until its table is begun.
  function Left(tok: Token, t: Bytes): nat { |t| + if tok.ArrBegin? || tok.ObjBegin? then 1 else 0 }

  /** json_process_value: the value that a token begins. */
  function Value(tok: Token, t: Bytes, depth: nat): (r: Parsed)
    ensures r.Ok? ==> |r.rest| <= |t|
    decreases Left(tok, t), 0
  {
    match tok
    case TString(s) => Ok(DStr(s), t)
    case TNumber(n) => Ok(DNum(n), t)
    case TBool(b) => Ok(DBool(b), t)
    case TNull => Ok(DNull, t)
    case ObjBegin => Object(t, depth + 1)
    case ArrBegin => Array(t, depth + 1)
    case _ => Unexpected("value", tok)
  }

  function Object(t: Bytes, depth: nat): (r: Parsed)
    ensures r.Ok? ==> |r.rest| <= |t|
    decreases |t|, 2
  {
    if depth > MAX_DEPTH then Err(TooManyNested(depth))
    else
      var (tok, t1) := NextToken(t);
      if tok.ObjEnd? then Ok(DTab(map[]), t1) else Fields(tok, t1, map[], depth)
  }

  // The fields of an object from a token that should be a key; m are those before.
  function Fields(tok: Token, t: Bytes, m: map<Key, Data>, depth: nat): (r: Parsed)
    ensures r.Ok? ==> |r.rest| <= |t|
    decreases Left(tok, t), 1
  {
    if !tok.TString? then Unexpected("object key string", tok)
    else
      var (colon, t1) := NextToken(t);
      if !colon.Colon? then Unexpected("colon", colon)
      else
        var (first, t2) := NextToken(t1);
        var v := Value(first, t2, depth);
        if v.Err? then v
        else
          var m1 := m[KStr(tok.s) := v.d];
          var (sep, t3) := NextToken(v.rest);
          if sep.ObjEnd? then Ok(DTab(m1), t3)
          else if !sep.Comma? then Unexpected("comma or object end", sep)
          else
            var (next, t4) := NextToken(t3);
            Fields(next, t4, m1, depth)
  }

  function Array(t: Bytes, depth: nat): (r: Parsed)
    ensures r.Ok? ==> |r.rest| <= |t|
    decreases |t|, 2
  {
    if depth > MAX_DEPTH then Err(TooManyNested(depth))
    else
      var (tok, t1) := NextToken(t);
      if tok.ArrEnd? then Ok(DTab(map[]), t1) else Items(tok, t1, 1, map[], depth)
  }

  // The items of an array from number i, which a token begins.
  function Items(tok: Token, t: Bytes, i: nat, m: map<Key, Data>, depth: nat): (r: Parsed)
    ensures r.Ok? ==> |r.rest| <= |t|
    decreases Left(tok, t), 1
  {
    var v := Value(tok, t, depth);
    if v.Err? then v
    else
      var m1 := m[KNum(i) := v.d];
      var (sep, t1) := NextToken(v.rest);
      if sep.ArrEnd? then Ok(DTab(m1), t1)
      else if !sep.Comma? then Unexpected("comma or array end", sep)
      else
        var (next, t2) := NextToken(t1);
        Items(next, t2, i + 1, m1, depth)
  }

  /** json_decode */
  function Decode(t: Bytes): Parsed {
    if |t| >= 2 && (t[0] == 0 || t[1] == 0) then Err(Utf16)
    else
      var (tok, t1) := NextToken(t);
      var v := Value(tok, t1, 0);
      if v.Err? then v
      else
        var (end, t2) := NextToken(v.rest);
        if end.End? then Ok(v.d, t2) else Unexpected("the end", end)
  }

  // ---------- there and back ----------

  // What a value has become when its text was decoded.
  function Image(v: Val): Data
    decreases v, 1
  {
    match v
    case Nil => DNull
    case Null => DNull
    case Bool(b) => DBool(b)
    case Num(n) => DNum(n)
    case Str(s) => DStr(s)
    case Other(what) => DOther(what)
    case Tab(es) => DTab(if ArrayLength(es) > 0 then ItemImages(v, ArrayLength(es)) else FieldImages(v, |es|))
  }

  // Items 1..n of an array: what is missing is null.
  function ItemImages(v: Val, n: nat): map<Key, Data>
    requires v.Tab?
    decreases v, 0, n
  {
    if n == 0 then map[] else ItemImages(v, n - 1)[KNum(n) := ItemImage(v, n)]
  }

  function ItemImage(v: Val, i: nat): Data
    requires v.Tab?
    decreases v, 0, 0
  {
    var p := Find(v.entries, KNum(i));
    if p < |v.entries| then Image(v.entries[p].value) else DNull
  }

  // The first n fields of an object: numbers as keys have become strings.
  function FieldImages(v: Val, n: nat): map<Key, Data>
    requires v.Tab? && n <= |v.entries|
    decreases v, 0, n
  {
    if n == 0 then map[]
    else FieldImages(v, n - 1)[KStr(KeyString(v.entries[n - 1].key)) := Image(v.entries[n - 1].value)]
  }

  function KeyString(k: Key): Bytes {
    match k
    case KNum(n) => NumText(n)
    case KStr(s) => s
    case KOther(_) => []
  }
}
