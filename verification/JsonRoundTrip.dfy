/** Every text that the JSON encoder writes is read back, and what comes back. */
module JsonRoundTrip {
  import opened Basics
  import opened JsonText
  import opened JsonCodec

  // ---------- tokens ----------

  lemma StringIsToken(s: Bytes, rest: Bytes)
    ensures NextToken(Quoted(s) + rest) == (TString(s), rest)
  {
    hide ReadString, EscapeAll, NextToken;
    ReadsQuoted(s, rest);
    var u := EscapeAll(s) + [QUOTE] + rest;
    assert Quoted(s) + rest == [QUOTE] + u;
    QuoteBegins([QUOTE] + u);
    assert ([QUOTE] + u)[1..] == u;
  }

  lemma QuoteBegins(t: Bytes)
    requires t != [] && t[0] == QUOTE
    ensures NextToken(t) == StringToken(t)
  {
    hide ReadString;
  }

  lemma NumberIsToken(n: Long, rest: Bytes)
    requires Stops(rest)
    ensures NextToken(NumText(n) + rest) == (TNumber(n), rest)
  {
    ReadsNumber(n, rest);
    var t := NumText(n) + rest;
    assert t != [] && (t[0] == MINUS || IsDigit(t[0]));
    hide ReadNumber, NumText;
    NumberBegins(t);
  }

  lemma NumberBegins(t: Bytes)
    requires t != [] && (t[0] == MINUS || IsDigit(t[0]))
    ensures NextToken(t) == NumberToken(t)
  {
    hide ReadNumber;
  }

  lemma WordIsToken(rest: Bytes)
    ensures NextToken(TRUE + rest) == (TBool(true), rest)
    ensures NextToken(FALSE + rest) == (TBool(false), rest)
    ensures NextToken(NULL + rest) == (TNull, rest)
  {
    var t, f, n := TRUE + rest, FALSE + rest, NULL + rest;
    assert t[..4] == TRUE && t[4..] == rest && f[..5] == FALSE && f[5..] == rest && n[..4] == NULL && n[4..] == rest;
    assert t[0] == 0x74 && f[0] == 0x66 && n[0] == 0x6e;
    assert !StartsWith(f, TRUE) by {
      assert f[..4][0] != TRUE[0];
    }
    assert !StartsWith(n, TRUE) && !StartsWith(n, FALSE) by {
      assert n[..4][0] != TRUE[0];
      if |n| >= 5 {
        assert n[..5][0] != FALSE[0];
      }
    }
  }

  lemma SingleIsToken(c: bv8, rest: Bytes)
    requires Single(c).Some?
    ensures NextToken([c] + rest) == (Single(c).value, rest)
  {
    assert ([c] + rest)[1..] == rest;
  }

  // ---------- values ----------

  /** The text of a value, with anything behind it that does not prolong a number, is read as the
      image of that value. */
  lemma {:induction false} ReadsValue(v: Val, depth: nat, rest: Bytes)
    requires Encode(v, depth).Text? && Stops(rest)
    ensures var (tok, t1) := NextToken(Encode(v, depth).t + rest);
            Value(tok, t1, depth) == Ok(Image(v), rest)
    decreases v, 1
  {
    hide NextToken, Quoted, NumText, ArrayLength, IsSparse, EncodeItems, EncodeFields, ItemImages, FieldImages;
    match v {
      case Str(s) =>
        StringIsToken(s, rest);
      case Num(n) =>
        NumberIsToken(n, rest);
      case Tab(es) =>
        if ArrayLength(es) > 0 {
          ReadsArray(v, depth, rest);
        } else {
          ReadsObject(v, depth, rest);
        }
      case Other(_) =>
      case _ =>
        WordIsToken(rest);
    }
  }

  lemma {:induction false} ReadsArray(v: Val, depth: nat, rest: Bytes)
    requires v.Tab? && Encode(v, depth).Text? && ArrayLength(v.entries) > 0
    ensures var (tok, t1) := NextToken(Encode(v, depth).t + rest);
            Value(tok, t1, depth) == Ok(Image(v), rest)
    decreases v, 0, ArrayLength(v.entries) + 1
  {
    hide NextToken, ArrayLength, IsSparse, EncodeItems, EncodeFields;
    var n := ArrayLength(v.entries);
    var body := EncodeItems(v, 1, n, depth + 1).t;
    assert Encode(v, depth).t + rest == [ARR_BEGIN] + (body + rest);
    SingleIsToken(ARR_BEGIN, body + rest);
    ReadsItems(v, 1, n, depth + 1, rest);
    assert body[|Sep(true)|..] == body;
  }

  lemma {:induction false} ReadsObject(v: Val, depth: nat, rest: Bytes)
    requires v.Tab? && Encode(v, depth).Text? && ArrayLength(v.entries) == 0
    ensures var (tok, t1) := NextToken(Encode(v, depth).t + rest);
            Value(tok, t1, depth) == Ok(Image(v), rest)
    decreases v, 0, |v.entries| + 1
  {
    hide NextToken, ArrayLength, IsSparse, EncodeItems, EncodeFields, FieldImages, Fields;
    var body := EncodeFields(v, 0, depth + 1).t;
    assert Encode(v, depth).t + rest == [OBJ_BEGIN] + (body + rest);
    SingleIsToken(OBJ_BEGIN, body + rest);
    NoFields(v, depth + 1);
    if v.entries == [] {
      SingleIsToken(OBJ_END, rest);
    } else {
      ReadsFields(v, 0, depth + 1, rest);
      assert body[|Sep(true)|..] == body;
      var (tok, t1) := NextToken(body + rest);
      FieldsBegin(tok, t1, map[], depth + 1);
    }
  }

  lemma FieldsBegin(tok: Token, t: Bytes, m: map<Key, Data>, depth: nat)
    ensures Fields(tok, t, m, depth).Ok? ==> tok.TString?
  {
  }

  lemma NoFields(v: Val, depth: nat)
    requires v.Tab?
    ensures FieldImages(v, 0) == map[]
    ensures v.entries == [] ==> EncodeFields(v, 0, depth) == Text([OBJ_END]) && FieldImages(v, |v.entries|) == map[]
  {
  }

  lemma {:induction false} ReadsItem(v: Val, i: nat, depth: nat, rest: Bytes)
    requires v.Tab? && EncodeItem(v, i, depth).Text? && Stops(rest)
    ensures var (tok, t1) := NextToken(EncodeItem(v, i, depth).t + rest);
            Value(tok, t1, depth) == Ok(ItemImage(v, i), rest)
    decreases v, 0, 0
  {
    var p := Find(v.entries, KNum(i));
    if p < |v.entries| {
      ReadsValue(v.entries[p].value, depth, rest);
    } else {
      WordIsToken(rest);
    }
  }

  lemma {:induction false} ReadsItems(v: Val, i: nat, n: nat, depth: nat, rest: Bytes)
    requires v.Tab? && 1 <= i <= n && EncodeItems(v, i, n, depth).Text?
    ensures var body := EncodeItems(v, i, n, depth).t;
            && |body| >= |Sep(i == 1)|
            && var (tok, t1) := NextToken(body[|Sep(i == 1)|..] + rest);
               Items(tok, t1, i, ItemImages(v, i - 1), depth) == Ok(DTab(ItemImages(v, n)), rest)
    decreases v, 0, n + 1 - i
  {
    hide NextToken, Encode, EncodeItems, EncodeItem, ItemImage, Items, Value, Stops;
    ItemsText(v, i, n, depth, rest);
    var tail := EncodeItems(v, i + 1, n, depth).t;
    ReadsItem(v, i, depth, tail + rest);
    var (tok, t1) := NextToken(EncodeItem(v, i, depth).t + (tail + rest));
    ItemsTurn(tok, t1, i, ItemImages(v, i - 1), depth);
    if i == n {
      SingleIsToken(ARR_END, rest);
    } else {
      SingleIsToken(COMMA_CHAR, tail[1..] + rest);
      ReadsItems(v, i + 1, n, depth, rest);
    }
  }

  // One item of an array.
  lemma ItemsTurn(tok: Token, t: Bytes, i: nat, m: map<Key, Data>, depth: nat)
    requires Value(tok, t, depth).Ok?
    ensures var v := Value(tok, t, depth);
            var (sep, t1) := NextToken(v.rest);
            && (sep == ArrEnd ==> Items(tok, t, i, m, depth) == Ok(DTab(m[KNum(i) := v.d]), t1))
            && (sep == Comma ==>
                  var (next, t2) := NextToken(t1);
                  Items(tok, t, i, m, depth) == Items(next, t2, i + 1, m[KNum(i) := v.d], depth))
  {
    hide NextToken, Value;
  }

  // The parts of the text of items i..n.
  lemma ItemsText(v: Val, i: nat, n: nat, depth: nat, rest: Bytes)
    requires v.Tab? && 1 <= i <= n && EncodeItems(v, i, n, depth).Text?
    ensures EncodeItem(v, i, depth).Text? && EncodeItems(v, i + 1, n, depth).Text?
    ensures var body, tail := EncodeItems(v, i, n, depth).t, EncodeItems(v, i + 1, n, depth).t;
            && |body| >= |Sep(i == 1)| && Stops(tail + rest)
            && body[|Sep(i == 1)|..] + rest == EncodeItem(v, i, depth).t + (tail + rest)
            && tail + rest == if i == n then [ARR_END] + rest else [COMMA_CHAR] + (tail[1..] + rest)
  {
    hide Encode, EncodeItem;
    var body, tail := EncodeItems(v, i, n, depth).t, EncodeItems(v, i + 1, n, depth).t;
    assert body == Sep(i == 1) + (EncodeItem(v, i, depth).t + tail);
  }

  lemma KeyIsToken(k: Key, rest: Bytes)
    requires KeyText(k).Text?
    ensures NextToken(KeyText(k).t + rest) == (TString(KeyString(k)), [COLON_CHAR] + rest)
  {
    var s := KeyString(k);
    if k.KNum? {
      DigitsPlain(k.n);
    }
    assert KeyText(k).t + rest == Quoted(s) + ([COLON_CHAR] + rest);
    StringIsToken(s, [COLON_CHAR] + rest);
  }

  lemma {:induction false} ReadsFields(v: Val, k: nat, depth: nat, rest: Bytes)
    requires v.Tab? && k < |v.entries| && EncodeFields(v, k, depth).Text?
    ensures var body := EncodeFields(v, k, depth).t;
            && |body| >= |Sep(k == 0)|
            && var (tok, t1) := NextToken(body[|Sep(k == 0)|..] + rest);
               Fields(tok, t1, FieldImages(v, k), depth) == Ok(DTab(FieldImages(v, |v.entries|)), rest)
    decreases v, 0, |v.entries| - k
  {
    hide NextToken, Encode, EncodeFields, KeyText, Image, Value, Stops, Fields;
    var e := v.entries[k];
    FieldsText(v, k, depth, rest);
    var tail := EncodeFields(v, k + 1, depth).t;
    var value := Encode(e.value, depth).t;
    KeyIsToken(e.key, value + (tail + rest));
    SingleIsToken(COLON_CHAR, value + (tail + rest));
    ReadsValue(e.value, depth, tail + rest);
    FieldsTurn(KeyString(e.key), [COLON_CHAR] + (value + (tail + rest)), FieldImages(v, k), depth);
    if k + 1 == |v.entries| {
      SingleIsToken(OBJ_END, rest);
    } else {
      SingleIsToken(COMMA_CHAR, tail[1..] + rest);
      ReadsFields(v, k + 1, depth, rest);
    }
  }

  // One field of an object.
  lemma FieldsTurn(s: Bytes, t: Bytes, m: map<Key, Data>, depth: nat)
    ensures var (colon, t1) := NextToken(t);
            var (first, t2) := NextToken(t1);
            var v := Value(first, t2, depth);
            colon == Colon && v.Ok? ==>
              var (sep, t3) := NextToken(v.rest);
              && (sep == ObjEnd ==> Fields(TString(s), t, m, depth) == Ok(DTab(m[KStr(s) := v.d]), t3))
              && (sep == Comma ==>
                    var (next, t4) := NextToken(t3);
                    Fields(TString(s), t, m, depth) == Fields(next, t4, m[KStr(s) := v.d], depth))
  {
    hide NextToken, Value;
  }

  // The parts of the text of the fields from number k.
  lemma FieldsText(v: Val, k: nat, depth: nat, rest: Bytes)
    requires v.Tab? && k < |v.entries| && EncodeFields(v, k, depth).Text?
    ensures KeyText(v.entries[k].key).Text? && Encode(v.entries[k].value, depth).Text?
    ensures EncodeFields(v, k + 1, depth).Text?
    ensures var body, tail := EncodeFields(v, k, depth).t, EncodeFields(v, k + 1, depth).t;
            var key, value := KeyText(v.entries[k].key).t, Encode(v.entries[k].value, depth).t;
            && |body| >= |Sep(k == 0)| && Stops(tail + rest)
            && body[|Sep(k == 0)|..] + rest == key + (value + (tail + rest))
            && tail + rest == if k + 1 == |v.entries| then [OBJ_END] + rest else [COMMA_CHAR] + (tail[1..] + rest)
  {
    hide Encode, KeyText;
    var body, tail := EncodeFields(v, k, depth).t, EncodeFields(v, k + 1, depth).t;
    var key, value := KeyText(v.entries[k].key).t, Encode(v.entries[k].value, depth).t;
    assert body == Sep(k == 0) + (key + (value + tail));
  }

  // ---------- numbers as keys ----------

  lemma {:induction false} PlainUnescaped(s: Bytes)
    requires forall i :: 0 <= i < |s| ==> Escape(s[i]) == [s[i]]
    ensures EscapeAll(s) == s
  {
    if s != [] {
      PlainUnescaped(s[1..]);
    }
  }

  // Nothing in a number needs to be escaped.
  lemma DigitsPlain(n: int)
    ensures Quoted(NumText(n)) == [QUOTE] + NumText(n) + [QUOTE]
  {
    DigitsAreDigits(if n < 0 then -n else n);
    PlainUnescaped(NumText(n));
  }

  // ---------- whole texts ----------

  // A C string that ends only where its length says.
  ghost predicate NoZero(t: Bytes) { forall i :: 0 <= i < |t| ==> t[i] != 0 }

  lemma {:induction false} StringNoZero(s: Bytes)
    ensures NoZero(EscapeAll(s))
  {
    if s != [] {
      EscapeNoZero(s[0]);
      StringNoZero(s[1..]);
    }
  }

  lemma EscapeNoZero(c: bv8)
    ensures NoZero(Escape(c))
  {
    HalfNoZero(c >> 4);
    HalfNoZero(c & 0xf);
  }

  lemma HalfNoZero(n: bv8)
    ensures n < 16 ==> HexChar(n) != 0
  {
  }

  lemma NumberNoZero(n: int)
    ensures NoZero(NumText(n))
  {
    DigitsAreDigits(if n < 0 then -n else n);
  }

  ghost predicate IsClean(e: Encoded) { e.Text? ==> NoZero(e.t) }

  lemma KeyNoZero(k: Key)
    ensures IsClean(KeyText(k))
  {
    match k {
      case KNum(n) => NumberNoZero(n);
      case KStr(s) => StringNoZero(s);
      case KOther(_) =>
    }
  }

  lemma AppendClean(t: Bytes, e: Encoded)
    requires NoZero(t) && IsClean(e)
    ensures IsClean(Append(t, e))
  {
  }

  lemma ThenClean(e: Encoded, f: Encoded)
    requires IsClean(e) && IsClean(f)
    ensures IsClean(Then(e, f))
  {
  }

  /** The encoder never writes a zero byte, which would be the end of the text for the decoder. */
  lemma {:induction false} EncodedNoZero(v: Val, depth: nat)
    ensures IsClean(Encode(v, depth))
    decreases v, 1
  {
    hide EscapeAll, NumText, IsSparse, ArrayLength, EncodeItems, EncodeFields;
    match v {
      case Str(s) =>
        StringNoZero(s);
      case Num(n) =>
        NumberNoZero(n);
      case Tab(es) =>
        if ArrayLength(es) > 0 {
          ItemsNoZero(v, 1, ArrayLength(es), depth + 1);
        } else {
          FieldsNoZero(v, 0, depth + 1);
        }
      case _ =>
    }
  }

  lemma {:induction false} ItemNoZero(v: Val, i: nat, depth: nat)
    requires v.Tab?
    ensures IsClean(EncodeItem(v, i, depth))
    decreases v, 0, 0
  {
    var p := Find(v.entries, KNum(i));
    hide Encode;
    if p < |v.entries| {
      EncodedNoZero(v.entries[p].value, depth);
    }
  }

  lemma {:induction false} ItemsNoZero(v: Val, i: nat, n: nat, depth: nat)
    requires v.Tab? && 1 <= i <= n + 1
    ensures IsClean(EncodeItems(v, i, n, depth))
    decreases v, 0, n + 1 - i
  {
    hide Encode, EncodeItem, Append, Then;
    if i <= n {
      hide IsClean;
      var item, tail := EncodeItem(v, i, depth), EncodeItems(v, i + 1, n, depth);
      ItemNoZero(v, i, depth);
      ItemsNoZero(v, i + 1, n, depth);
      ThenClean(item, tail);
      AppendClean(Sep(i == 1), Then(item, tail));
    }
  }

  lemma {:induction false} FieldsNoZero(v: Val, k: nat, depth: nat)
    requires v.Tab? && k <= |v.entries|
    ensures IsClean(EncodeFields(v, k, depth))
    decreases v, 0, |v.entries| - k
  {
    hide Encode, KeyText, Append, Then;
    if k < |v.entries| {
      hide IsClean;
      var key, value := KeyText(v.entries[k].key), Encode(v.entries[k].value, depth);
      var tail := EncodeFields(v, k + 1, depth);
      KeyNoZero(v.entries[k].key);
      EncodedNoZero(v.entries[k].value, depth);
      FieldsNoZero(v, k + 1, depth);
      ThenClean(value, tail);
      ThenClean(key, Then(value, tail));
      AppendClean(Sep(k == 0), Then(key, Then(value, tail)));
    }
  }

  /** Every text that the encoder produces is accepted by the decoder, which yields the image. */
  lemma DecodesEncoded(v: Val)
    requires Encode(v, 0).Text?
    ensures Decode(Encode(v, 0).t) == Ok(Image(v), [])
  {
    var t := Encode(v, 0).t;
    assert t + [] == t;
    ReadsValue(v, 0, []);
    EncodedNoZero(v, 0);
    hide Encode, Value, Image;
    assert NextToken([]) == (End, []);
  }

  // ---------- which values come back ----------

  predicate AllStrings(es: seq<Entry>) { forall i :: 0 <= i < |es| ==> es[i].key.KStr? }

  // An array without holes.
  predicate IsDense(es: seq<Entry>) {
    es != [] && AllIndices(es) && forall i :: 1 <= i <= MaxIndex(es) ==> Find(es, KNum(i)) < |es|
  }

  /** What JSON has a notation of its own for. */
  predicate Plain(v: Val) {
    match v
    case Nil => false
    case Other(_) => false
    case Tab(es) => (AllStrings(es) || IsDense(es)) && forall i :: 0 <= i < |es| ==> Plain(es[i].value)
    case _ => true
  }

  /** A table is too sparse for an array if its keys are all indices and one of them is above 10 and above twice
      the number of entries; it is written as an array if its keys are all indices and there are any. */
  lemma SparseIff(es: seq<Entry>)
    ensures IsSparse(es) <==>
            && (forall i :: 0 <= i < |es| ==> es[i].key.KNum? && es[i].key.n >= 1)
            && exists i :: 0 <= i < |es| && es[i].key.n > 10 && es[i].key.n > 2 * |es|
    ensures ArrayLength(es) > 0 <==>
            es != [] && forall i :: 0 <= i < |es| ==> es[i].key.KNum? && es[i].key.n >= 1
  {
  }

  // What the first n entries have put into a map.
  ghost predicate Holds(m: map<Key, Data>, es: seq<Entry>, n: nat, f: Val -> Data)
    requires n <= |es|
  {
    forall i :: 0 <= i < n ==> es[i].key in m && m[es[i].key] == f(es[i].value)
  }

  ghost predicate HoldsOnly(m: map<Key, Data>, es: seq<Entry>) { forall k :: k in m ==> Find(es, k) < |es| }

  lemma NothingHeld(es: seq<Entry>, f: Val -> Data)
    ensures Holds(map[], es, 0, f) && HoldsOnly(map[], es)
  {
  }

  lemma OneMoreHeld(m: map<Key, Data>, es: seq<Entry>, n: nat, f: Val -> Data)
    requires IsTable(es) && n < |es| && Holds(m, es, n, f) && HoldsOnly(m, es)
    ensures var m1 := m[es[n].key := f(es[n].value)]; Holds(m1, es, n + 1, f) && HoldsOnly(m1, es)
  {
    var m1 := m[es[n].key := f(es[n].value)];
    assert HoldsOnly(m1, es) by {
      FindsEntry(es, n);
      hide IsTable;
    }
    hide HoldsOnly;
    forall i | 0 <= i < n + 1 ensures es[i].key in m1 && m1[es[i].key] == f(es[i].value) {
      if i < n {
        assert es[i].key != es[n].key;
      }
    }
  }

  lemma {:induction false} ContentsOf(v: Val, n: nat)
    requires v.Tab? && n <= |v.entries| && IsTable(v.entries)
    ensures Holds(Contents(v, n), v.entries, n, Content) && HoldsOnly(Contents(v, n), v.entries)
  {
    hide Holds, HoldsOnly, IsTable, Content;
    NothingHeld(v.entries, Content);
    if n > 0 {
      ContentsOf(v, n - 1);
      OneMoreHeld(Contents(v, n - 1), v.entries, n - 1, Content);
    }
  }

  lemma {:induction false} ItemImagesOf(v: Val, n: nat)
    requires v.Tab?
    ensures forall k :: k in ItemImages(v, n) <==> k.KNum? && 1 <= k.n <= n
    ensures forall i :: 1 <= i <= n ==> ItemImages(v, n)[KNum(i)] == ItemImage(v, i)
  {
    if n > 0 {
      ItemImagesOf(v, n - 1);
    }
  }

  lemma {:induction false} FieldImagesOf(v: Val, n: nat)
    requires v.Tab? && n <= |v.entries|
    ensures forall k :: k in FieldImages(v, n) ==> k.KStr?
  {
    if n > 0 {
      FieldImagesOf(v, n - 1);
    }
  }

  lemma {:induction false} StringImagesOf(v: Val, n: nat)
    requires v.Tab? && n <= |v.entries| && IsTable(v.entries) && AllStrings(v.entries)
    ensures Holds(FieldImages(v, n), v.entries, n, Image) && HoldsOnly(FieldImages(v, n), v.entries)
  {
    hide Holds, HoldsOnly, IsTable, Image;
    NothingHeld(v.entries, Image);
    if n > 0 {
      StringImagesOf(v, n - 1);
      OneMoreHeld(FieldImages(v, n - 1), v.entries, n - 1, Image);
      assert KStr(KeyString(v.entries[n - 1].key)) == v.entries[n - 1].key;
    }
  }

  // With every key there once, its entry is the one that is found.
  lemma FindsEntry(es: seq<Entry>, i: nat)
    requires IsTable(es) && i < |es|
    ensures Find(es, es[i].key) == i
  {
  }

  lemma {:induction false} ItemsAreTexts(v: Val, i: nat, n: nat, depth: nat, j: nat)
    requires v.Tab? && 1 <= i <= j <= n && EncodeItems(v, i, n, depth).Text?
    ensures EncodeItem(v, j, depth).Text?
    decreases n - i
  {
    hide Encode;
    if i < j {
      ItemsAreTexts(v, i + 1, n, depth, j);
    }
  }

  lemma {:induction false} FieldsAreTexts(v: Val, k: nat, depth: nat, j: nat)
    requires v.Tab? && k <= j < |v.entries| && EncodeFields(v, k, depth).Text?
    ensures KeyText(v.entries[j].key).Text? && Encode(v.entries[j].value, depth).Text?
    decreases j - k
  {
    hide Encode, KeyText;
    if k < j {
      FieldsAreTexts(v, k + 1, depth, j);
    }
  }

  // Where the values in a table are encoded.
  lemma EntriesAreTexts(v: Val, depth: nat, j: nat)
    requires v.Tab? && IsTable(v.entries) && Encode(v, depth).Text? && j < |v.entries|
    ensures Encode(v.entries[j].value, depth + 1).Text?
  {
    hide IsSparse, EncodeItems, EncodeFields;
    var n := ArrayLength(v.entries);
    if n > 0 {
      FindsEntry(v.entries, j);
      ItemsAreTexts(v, 1, n, depth + 1, v.entries[j].key.n);
    } else {
      FieldsAreTexts(v, 0, depth + 1, j);
    }
  }

  /** A value comes back as it was exactly if it is plain all through. */
  lemma {:induction false} SameIff(v: Val, depth: nat)
    requires IsValue(v) && Encode(v, depth).Text?
    ensures Image(v) == Content(v) <==> Plain(v)
    decreases v
  {
    if v.Tab? {
      var es := v.entries;
      forall j | 0 <= j < |es| ensures Image(es[j].value) == Content(es[j].value) <==> Plain(es[j].value) {
        EntriesAreTexts(v, depth, j);
        SameIff(es[j].value, depth + 1);
      }
      if ArrayLength(es) > 0 {
        SameArrayIff(v);
      } else {
        SameObjectIff(v);
      }
    }
  }

  ghost predicate SameEntries(es: seq<Entry>) {
    forall j :: 0 <= j < |es| ==> Image(es[j].value) == Content(es[j].value)
  }

  lemma SameArrayIff(v: Val)
    requires v.Tab? && IsTable(v.entries) && ArrayLength(v.entries) > 0
    ensures Image(v) == Content(v) <==> IsDense(v.entries) && SameEntries(v.entries)
  {
    var es, n := v.entries, ArrayLength(v.entries);
    var m := ItemImages(v, n);
    ImageOfTable(v);
    ContentsOf(v, |es|);
    ItemsHeld(v);
    SameMaps(es, m, Contents(v, |es|));
    hide Image, Content, Contents, SameEntries, Holds;
    ItemImagesOf(v, n);
    assert HoldsOnly(m, es) <==> IsDense(es) by {
      hide ItemImages, MaxIndex, IsTable;
      if HoldsOnly(m, es) {
        assert forall i :: 1 <= i <= n ==> KNum(i) in m;
      }
    }
  }

  lemma ItemsHeld(v: Val)
    requires v.Tab? && IsTable(v.entries) && ArrayLength(v.entries) > 0
    ensures Holds(ItemImages(v, ArrayLength(v.entries)), v.entries, |v.entries|, Image)
  {
    var es, n := v.entries, ArrayLength(v.entries);
    var m := ItemImages(v, n);
    ItemImagesOf(v, n);
    forall j | 0 <= j < |es| ensures es[j].key in m && m[es[j].key] == Image(es[j].value) {
      FindsEntry(es, j);
    }
  }

  // Two maps that have the images and the contents of all entries.
  lemma SameMaps(es: seq<Entry>, m: map<Key, Data>, c: map<Key, Data>)
    requires Holds(m, es, |es|, Image) && Holds(c, es, |es|, Content) && HoldsOnly(c, es)
    ensures m == c <==> HoldsOnly(m, es) && SameEntries(es)
  {
    hide Image, Content;
    if HoldsOnly(m, es) && SameEntries(es) {
      forall k | k in m ensures k in c && c[k] == m[k] {
        assert es[Find(es, k)].key == k;
      }
      forall k | k in c ensures k in m {
        assert es[Find(es, k)].key == k;
      }
    }
    if m == c {
      assert forall j :: 0 <= j < |es| ==> m[es[j].key] == c[es[j].key];
    }
  }

  lemma SameObjectIff(v: Val)
    requires v.Tab? && IsTable(v.entries) && ArrayLength(v.entries) == 0
    ensures Image(v) == Content(v) <==> AllStrings(v.entries) && SameEntries(v.entries)
    ensures !IsDense(v.entries)
  {
    var es := v.entries;
    var m, c := FieldImages(v, |es|), Contents(v, |es|);
    ImageOfTable(v);
    ContentsOf(v, |es|);
    if AllStrings(es) {
      StringImagesOf(v, |es|);
      SameMaps(es, m, c);
      hide Image, Content, FieldImages, Contents, SameEntries, Holds, HoldsOnly;
    } else {
      FieldImagesOf(v, |es|);
      hide Image, Content, FieldImages, Contents, SameEntries, HoldsOnly;
      assert forall j :: 0 <= j < |es| ==> es[j].key in c;
    }
  }

  lemma ImageOfTable(v: Val)
    requires v.Tab?
    ensures Content(v) == DTab(Contents(v, |v.entries|))
    ensures Image(v) == DTab(if ArrayLength(v.entries) > 0 then ItemImages(v, ArrayLength(v.entries))
                             else FieldImages(v, |v.entries|))
  {
  }

  // ---------- which values have a text ----------

  // No more than n tables in one another.
  predicate NestedUpTo(v: Val, n: nat) {
    v.Tab? ==> n > 0 && forall i :: 0 <= i < |v.entries| ==> NestedUpTo(v.entries[i].value, n - 1)
  }

  predicate Serialisable(v: Val) {
    && !v.Other?
    && (v.Tab? ==>
          && !IsSparse(v.entries)
          && (forall i :: 0 <= i < |v.entries| ==> !v.entries[i].key.KOther?)
          && forall i :: 0 <= i < |v.entries| ==> Serialisable(v.entries[i].value))
  }

  /** The encoder fails on unknown types, sparse arrays and nesting that is too deep, and on nothing else. */
  lemma {:induction false} EncodesIff(v: Val, depth: nat)
    requires IsValue(v) && depth <= MAX_DEPTH
    ensures Encode(v, depth).Text? <==> Serialisable(v) && NestedUpTo(v, MAX_DEPTH - depth)
    decreases v
  {
    if v.Tab? && depth < MAX_DEPTH {
      var es := v.entries;
      forall j | 0 <= j < |es|
        ensures Encode(es[j].value, depth + 1).Text? <==>
                Serialisable(es[j].value) && NestedUpTo(es[j].value, MAX_DEPTH - depth - 1)
      {
        EncodesIff(es[j].value, depth + 1);
      }
      TableEncodesIff(v, depth);
      hide Encode, IsSparse, IsTable;
    }
  }

  // A table has a text exactly if it may have one and all values in it have.
  lemma TableEncodesIff(v: Val, depth: nat)
    requires v.Tab? && IsTable(v.entries) && depth < MAX_DEPTH
    ensures Encode(v, depth).Text? <==>
            && !IsSparse(v.entries)
            && forall j :: 0 <= j < |v.entries| ==>
                             Encode(v.entries[j].value, depth + 1).Text? && !v.entries[j].key.KOther?
  {
    var es := v.entries;
    TableText(v, depth);
    if Encode(v, depth).Text? {
      forall j | 0 <= j < |es| ensures Encode(es[j].value, depth + 1).Text? && !es[j].key.KOther? {
        EntriesAreTexts(v, depth, j);
        if ArrayLength(es) == 0 {
          FieldsAreTexts(v, 0, depth + 1, j);
        }
      }
    } else if forall j :: 0 <= j < |es| ==> Encode(es[j].value, depth + 1).Text? && !es[j].key.KOther? {
      if ArrayLength(es) > 0 {
        TextsAreItems(v, 1, ArrayLength(es), depth + 1);
      } else {
        TextsAreFields(v, 0, depth + 1);
      }
    }
    hide Encode, IsSparse, IsTable, EncodeItems, EncodeFields;
  }

  lemma TableText(v: Val, depth: nat)
    requires v.Tab? && depth < MAX_DEPTH
    ensures Encode(v, depth).Text? <==>
            && !IsSparse(v.entries)
            && if ArrayLength(v.entries) > 0 then EncodeItems(v, 1, ArrayLength(v.entries), depth + 1).Text?
               else EncodeFields(v, 0, depth + 1).Text?
  {
    hide IsSparse, EncodeItems, EncodeFields;
  }

  lemma {:induction false} TextsAreItems(v: Val, i: nat, n: nat, depth: nat)
    requires v.Tab? && 1 <= i <= n + 1
    requires forall j :: 0 <= j < |v.entries| ==> Encode(v.entries[j].value, depth).Text?
    ensures EncodeItems(v, i, n, depth).Text?
    decreases n + 1 - i
  {
    hide Encode;
    if i <= n {
      TextsAreItems(v, i + 1, n, depth);
    }
  }

  lemma {:induction false} TextsAreFields(v: Val, k: nat, depth: nat)
    requires v.Tab? && k <= |v.entries|
    requires forall j :: 0 <= j < |v.entries| ==>
                           Encode(v.entries[j].value, depth).Text? && !v.entries[j].key.KOther?
    ensures EncodeFields(v, k, depth).Text?
    decreases |v.entries| - k
  {
    hide Encode;
    if k < |v.entries| {
      TextsAreFields(v, k + 1, depth);
    }
  }

  lemma {:induction false} FewKeys(es: seq<Entry>)
    ensures |Keys(es)| <= |es|
  {
    if es != [] {
      var rest := es[..|es| - 1];
      FewKeys(rest);
      assert Keys(es) == Keys(rest) + {es[|es| - 1].key};
    }
  }

  function FirstIndices(n: nat): set<Key> { set i | 1 <= i <= n :: KNum(i) }

  lemma {:induction false} ManyIndices(n: nat)
    ensures |FirstIndices(n)| == n
  {
    if n > 0 {
      ManyIndices(n - 1);
      assert FirstIndices(n) == FirstIndices(n - 1) + {KNum(n)};
    }
  }

  // An array without holes is never sparse.
  lemma DenseNotSparse(es: seq<Entry>)
    requires IsDense(es)
    ensures !IsSparse(es)
  {
    var n := MaxIndex(es);
    FewKeys(es);
    ManyIndices(n);
    forall k | k in FirstIndices(n) ensures k in Keys(es) {
      assert es[Find(es, k)].key == k;
    }
    Subset(FirstIndices(n), Keys(es));
  }

  lemma {:induction false} Subset(a: set<Key>, b: set<Key>)
    requires a <= b
    ensures |a| <= |b|
  {
    if a != {} {
      var x :| x in a;
      Subset(a - {x}, b - {x});
    }
  }

  lemma {:induction false} PlainIsSerialisable(v: Val)
    requires Plain(v)
    ensures Serialisable(v)
  {
    if v.Tab? {
      if IsDense(v.entries) {
        DenseNotSparse(v.entries);
      }
      forall i | 0 <= i < |v.entries| ensures Serialisable(v.entries[i].value) {
        PlainIsSerialisable(v.entries[i].value);
      }
    }
  }

  /** Null, booleans, integers, strings of any bytes, arrays without holes and tables with string keys, up to
      1000 of them in one another, have a text, and decoding it gives the same value. */
  lemma RoundTrip(v: Val)
    requires IsValue(v) && Plain(v) && NestedUpTo(v, MAX_DEPTH)
    ensures Encode(v, 0).Text? && Decode(Encode(v, 0).t) == Ok(Content(v), [])
  {
    PlainIsSerialisable(v);
    EncodesIff(v, 0);
    SameIff(v, 0);
    DecodesEncoded(v);
  }

  /** Of all values that have a text, the plain ones are exactly those that come back as they were. */
  lemma ComesBackIff(v: Val)
    requires IsValue(v) && Encode(v, 0).Text?
    ensures Decode(Encode(v, 0).t) == Ok(Content(v), []) <==> Plain(v)
  {
    SameIff(v, 0);
    DecodesEncoded(v);
  }

  // An array with a hole, and a table with a number among its keys.
  const HOLED: Val := Tab([Entry(KNum(1), Num(7)), Entry(KNum(3), Num(9))])
  const MIXED: Val := Tab([Entry(KStr([0x61]), Num(7)), Entry(KNum(3), Num(9))])

  /** Two values that have a text and come back different: the hole is null then, the number a string. */
  lemma SomeAreChanged()
    ensures IsValue(HOLED) && Encode(HOLED, 0).Text? && Image(HOLED).m.Keys == {KNum(1), KNum(2), KNum(3)}
    ensures IsValue(MIXED) && Encode(MIXED, 0).Text? && Image(MIXED).m.Keys == {KStr([0x61]), KStr([0x33])}
    ensures Decode(Encode(HOLED, 0).t) != Ok(Content(HOLED), []) && Decode(Encode(MIXED, 0).t) != Ok(Content(MIXED), [])
  {
    HoledHasText();
    HoledIsChanged();
    MixedHasText();
    MixedIsChanged();
    ComesBackIff(HOLED);
    ComesBackIff(MIXED);
    hide Encode, Image, Plain, IsValue;
  }

  lemma HoledHasText()
    ensures IsValue(HOLED) && Encode(HOLED, 0).Text?
  {
    HoledLength(HOLED.entries);
    hide MaxIndex, IsSparse, ArrayLength, AllIndices;
    TableEncodesIff(HOLED, 0);
    hide EncodeItems, EncodeFields;
  }

  lemma HoledIsChanged()
    ensures Image(HOLED).m.Keys == {KNum(1), KNum(2), KNum(3)} && !Plain(HOLED)
  {
    HoledLength(HOLED.entries);
    hide MaxIndex, ArrayLength, ItemImage, Encode;
    ItemImagesOf(HOLED, 3);
    assert Find(HOLED.entries, KNum(2)) == 2;
  }

  lemma HoledLength(es: seq<Entry>)
    requires es == HOLED.entries
    ensures AllIndices(es) && MaxIndex(es) == ArrayLength(es) == 3 && !IsSparse(es)
  {
    assert KNum(3) == es[1].key;
  }

  lemma MixedHasText()
    ensures IsValue(MIXED) && Encode(MIXED, 0).Text?
  {
    var es := MIXED.entries;
    assert !AllIndices(es) by {
      assert !es[0].key.KNum?;
    }
    hide MaxIndex, ArrayLength, AllIndices;
    TableEncodesIff(MIXED, 0);
    hide EncodeItems, EncodeFields;
  }

  lemma MixedIsChanged()
    ensures Image(MIXED).m.Keys == {KStr([0x61]), KStr([0x33])} && !Plain(MIXED)
  {
    var es := MIXED.entries;
    assert !AllIndices(es) by {
      assert !es[0].key.KNum?;
    }
    assert NumText(3) == [0x33];
    hide NumText, MaxIndex, AllIndices, Encode;
    assert FieldImages(MIXED, 1) == FieldImages(MIXED, 0)[KStr([0x61]) := Image(Num(7))];
    assert FieldImages(MIXED, 2) == FieldImages(MIXED, 1)[KStr([0x33]) := Image(Num(9))];
  }
}
