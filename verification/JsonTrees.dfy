/** The texts of JSON as trees, white space and all (RFC 8259, sections 2 to 7), with what they mean to Lua:
    lua_cjson.c reads every one of them as its meaning, or refuses it for one of two reasons. */
module JsonTrees {
  import opened Basics
  import opened JsonText
  import opened JsonCodec
  import opened JsonGrammar
  import opened JsonRoundTrip

  // ---------- trees and their texts ----------

  // Numbers are those without fraction and exponent.
  datatype Tree =
    | JNull | JTrue | JFalse | JInteger(text: Bytes) | JString(chars: Bytes)
    | JArray(gap: Bytes, items: seq<Item>) | JObject(gap: Bytes, members: seq<Member>)

  // A value with the white space before and after it.
  datatype Item = Item(before: Bytes, value: Tree, after: Bytes)

  datatype Member = Member(before: Bytes, name: Bytes, after: Bytes, item: Item)

  predicate IsSpaces(t: Bytes) {
    forall i :: 0 <= i < |t| ==> t[i] == 0x20 || t[i] == 0x09 || t[i] == 0x0a || t[i] == 0x0d
  }

  predicate IsTree(t: Tree) {
    match t
    case JInteger(text) => IsInteger(text)
    case JString(chars) => IsChars(chars)
    case JArray(gap, items) => IsSpaces(gap) && forall i :: 0 <= i < |items| ==> IsItem(items[i])
    case JObject(gap, members) => IsSpaces(gap) && forall i :: 0 <= i < |members| ==> IsMember(members[i])
    case _ => true
  }

  predicate IsItem(i: Item) { IsSpaces(i.before) && IsTree(i.value) && IsSpaces(i.after) }

  predicate IsMember(m: Member) {
    IsSpaces(m.before) && IsChars(m.name) && IsSpaces(m.after) && IsItem(m.item)
  }

  function Write(t: Tree): Bytes
    decreases t, 1
  {
    match t
    case JNull => [0x6e, 0x75, 0x6c, 0x6c]
    case JTrue => [0x74, 0x72, 0x75, 0x65]
    case JFalse => [0x66, 0x61, 0x6c, 0x73, 0x65]
    case JInteger(text) => text
    case JString(chars) => [0x22] + chars + [0x22]
    case JArray(gap, items) => [0x5b] + if items == [] then gap + [0x5d] else WriteItems(t, 0)
    case JObject(gap, members) => [0x7b] + if members == [] then gap + [0x7d] else WriteMembers(t, 0)
  }

  // From item number i to the bracket.
  function WriteItems(t: Tree, i: nat): Bytes
    requires t.JArray? && i < |t.items|
    decreases t, 0, |t.items| - i
  {
    var it := t.items[i];
    it.before + Write(it.value) + it.after
      + if i + 1 == |t.items| then [0x5d] else [0x2c] + WriteItems(t, i + 1)
  }

  function WriteMembers(t: Tree, i: nat): Bytes
    requires t.JObject? && i < |t.members|
    decreases t, 0, |t.members| - i
  {
    var m := t.members[i];
    WriteName(m) + m.item.before + Write(m.item.value) + m.item.after
      + if i + 1 == |t.members| then [0x7d] else [0x2c] + WriteMembers(t, i + 1)
  }

  function WriteName(m: Member): Bytes { m.before + [0x22] + m.name + [0x22] + m.after + [0x3a] }

  // ---------- what they mean ----------

  function Figure(c: bv8): nat
    requires IsDigit(c)
  {
    c as nat - 0x30
  }

  // Digits in positional notation.
  function Amount(u: Bytes): nat
    requires AllDigits(u)
  {
    if u == [] then 0 else Figure(u[0]) * Pow10(|u| - 1) + Amount(u[1..])
  }

  function IntegerMeans(t: Bytes): int
    requires IsInteger(t)
  {
    if t[0] == 0x2d then 0 - Amount(Unsigned(t)) else Amount(t)
  }

  // Every string in it has a meaning.
  predicate Means(t: Tree) {
    match t
    case JString(chars) => IsChars(chars) && CharsMean(chars).Some?
    case JInteger(text) => IsInteger(text)
    case JArray(_, items) => forall i :: 0 <= i < |items| ==> Means(items[i].value)
    case JObject(_, members) => forall i :: 0 <= i < |members| ==> MemberMeans(members[i])
    case _ => true
  }

  predicate MemberMeans(m: Member) { IsChars(m.name) && CharsMean(m.name).Some? && Means(m.item.value) }

  // At most n brackets are open at any place.
  predicate Nested(t: Tree, n: nat) {
    match t
    case JArray(_, items) => n > 0 && forall i :: 0 <= i < |items| ==> Nested(items[i].value, n - 1)
    case JObject(_, members) => n > 0 && forall i :: 0 <= i < |members| ==> Nested(members[i].item.value, n - 1)
    case _ => true
  }

  // A number of Lua holds 32 bits.
  function Clamped(n: int): Long {
    if n > 2147483647 then 2147483647 else if n < -2147483648 then -2147483648 else n
  }

  function Meaning(t: Tree): Data
    requires Means(t)
    decreases t, 1
  {
    match t
    case JNull => DNull
    case JTrue => DBool(true)
    case JFalse => DBool(false)
    case JInteger(text) => DNum(Clamped(IntegerMeans(text)))
    case JString(chars) => DStr(CharsMean(chars).value)
    case JArray(_, items) => DTab(ItemMeanings(t, |items|))
    case JObject(_, members) => DTab(MemberMeanings(t, |members|))
  }

  // The first n items have the indices from 1 to n.
  function ItemMeanings(t: Tree, n: nat): map<Key, Data>
    requires t.JArray? && n <= |t.items| && Means(t)
    decreases t, 0, n
  {
    if n == 0 then map[] else ItemMeanings(t, n - 1)[KNum(n) := Meaning(t.items[n - 1].value)]
  }

  // Of two members with the same name the later one counts.
  function MemberMeanings(t: Tree, n: nat): map<Key, Data>
    requires t.JObject? && n <= |t.members| && Means(t)
    decreases t, 0, n
  {
    if n == 0 then map[]
    else
      var m := t.members[n - 1];
      assert MemberMeans(m);
      MemberMeanings(t, n - 1)[KStr(CharsMean(m.name).value) := Meaning(m.item.value)]
  }

  // ---------- numbers are read as what they mean ----------

  lemma FigureIsValue(c: bv8)
    requires IsDigit(c)
    ensures DigitValue(c) == Figure(c) == c as nat - 0x30
  {
  }

  lemma FrontFigure(u: Bytes)
    requires u != [] && AllDigits(u)
    ensures AllDigits(u[1..])
    ensures Amount(u) == Figure(u[0]) * Pow10(|u| - 1) + Amount(u[1..]) && Pow10(|u|) == 10 * Pow10(|u| - 1)
  {
    hide IsDigit, Figure;
  }

  lemma FrontRead(u: Bytes, n: nat)
    requires u != [] && IsDigit(u[0])
    ensures ReadDigits(u, n) == ReadDigits(u[1..], 10 * n + Figure(u[0]))
  {
    FigureIsValue(u[0]);
    hide IsDigit, DigitValue, Figure;
  }

  lemma Shifted(n: nat, d: nat, p: nat, a: nat)
    ensures (10 * n + d) * p + a == n * (10 * p) + (d * p + a)
  {
  }

  lemma {:induction false} ReadsAmount(u: Bytes, rest: Bytes, n: nat)
    requires AllDigits(u) && Stops(rest)
    ensures ReadDigits(u + rest, n) == (n * Pow10(|u|) + Amount(u), rest)
  {
    if u == [] {
      assert u + rest == rest;
    } else {
      hide IsDigit, Figure, ReadDigits, Amount, Pow10;
      assert IsDigit(u[0]) && (u + rest)[1..] == u[1..] + rest && (u + rest)[0] == u[0];
      FrontRead(u + rest, n);
      FrontFigure(u);
      ReadsAmount(u[1..], rest, 10 * n + Figure(u[0]));
      Shifted(n, Figure(u[0]), Pow10(|u| - 1), Amount(u[1..]));
    }
  }

  /** An integer is read as what its digits mean, or as the nearest number of 32 bits. */
  lemma ReadsInteger(t: Bytes, rest: Bytes)
    requires IsInteger(t) && Stops(rest)
    ensures var n := IntegerMeans(t);
            ReadNumber(t + rest) ==
            Got(if n > 2147483647 then 2147483647 else if n < -2147483648 then -2147483648 else n, rest)
  {
    var u := Unsigned(t);
    ReadsAmount(u, rest, 0);
    assert u[0] == (u + rest)[0] && IsDigit(u[0]);
    if t[0] == MINUS {
      assert (t + rest)[1..] == u + rest;
    }
    hide ReadDigits, Amount;
  }

  /** What the encoder writes for a number means that number. */
  lemma NumberMeans(n: int)
    ensures IsInteger(NumText(n)) && IntegerMeans(NumText(n)) == n
  {
    NumberIsInteger(n);
    var m := if n < 0 then -n else n;
    DigitsAreDigits(m);
    ReadsDigits(m, []);
    ReadsAmount(Digits(m), [], 0);
    if n < 0 {
      assert NumText(n)[1..] == Digits(m);
    }
  }

  // ---------- tokens ----------

  lemma {:induction false} SkipsSpaces(s: Bytes, t: Bytes)
    requires IsSpaces(s)
    ensures NextToken(s + t) == NextToken(t)
    ensures Stops(t) ==> Stops(s + t)
  {
    if s == [] {
      assert s + t == t;
    } else {
      assert (s + t)[1..] == s[1..] + t;
      SpaceSkipped(s + t);
      SkipsSpaces(s[1..], t);
    }
  }

  lemma SpaceSkipped(t: Bytes)
    requires t != [] && (t[0] == 0x20 || t[0] == 0x09 || t[0] == 0x0a || t[0] == 0x0d)
    ensures NextToken(t) == NextToken(t[1..]) && !IsDigit(t[0])
  {
  }

  lemma StringIsTokenIff(chars: Bytes, rest: Bytes)
    requires IsChars(chars)
    ensures var (tok, t1) := NextToken([0x22] + chars + [0x22] + rest);
            if CharsMean(chars).Some? then tok == TString(CharsMean(chars).value) && t1 == rest else tok.Bad?
  {
    hide ReadString, NextToken, CharsMean, IsChars;
    var u := chars + [0x22] + rest;
    assert [0x22] + chars + [0x22] + rest == [0x22] + u;
    QuoteBegins([0x22] + u);
    ReadsChars(chars, rest);
    assert ([0x22] + u)[1..] == u;
  }

  lemma IntegerIsToken(t: Bytes, rest: Bytes)
    requires IsInteger(t) && Stops(rest)
    ensures NextToken(t + rest) == (TNumber(Clamped(IntegerMeans(t))), rest)
  {
    ReadsInteger(t, rest);
    assert t[0] == MINUS || IsDigit(t[0]);
    hide ReadNumber, IntegerMeans, IsInteger, NextToken;
    NumberBegins(t + rest);
  }

  /** Behind a number, a fraction or an exponent is no token: a build with integers reads none. */
  lemma NoFraction(t: Bytes, c: bv8, rest: Bytes)
    requires IsInteger(t) && c in {0x2e, 0x65, 0x45}
    ensures NextToken(t + [c] + rest) == (TNumber(Clamped(IntegerMeans(t))), [c] + rest)
    ensures NextToken([c] + rest).0 == Bad("invalid token")
  {
    hide IsInteger, IntegerMeans, Clamped, NextToken;
    assert t + [c] + rest == t + ([c] + rest);
    PointIsNoToken(c, rest);
    IntegerIsToken(t, [c] + rest);
  }

  lemma PointIsNoToken(c: bv8, rest: Bytes)
    requires c in {0x2e, 0x65, 0x45}
    ensures NextToken([c] + rest).0 == Bad("invalid token") && Stops([c] + rest)
  {
    assert At([c] + rest, 0) == c;
  }

  /** The words and the six characters of structure. */
  lemma Words(rest: Bytes)
    ensures NextToken([0x74, 0x72, 0x75, 0x65] + rest) == (TBool(true), rest)
    ensures NextToken([0x66, 0x61, 0x6c, 0x73, 0x65] + rest) == (TBool(false), rest)
    ensures NextToken([0x6e, 0x75, 0x6c, 0x6c] + rest) == (TNull, rest)
  {
    WordIsToken(rest);
    hide NextToken;
  }

  lemma Structure(rest: Bytes)
    ensures NextToken([0x5b] + rest) == (ArrBegin, rest) && NextToken([0x5d] + rest) == (ArrEnd, rest)
    ensures NextToken([0x7b] + rest) == (ObjBegin, rest) && NextToken([0x7d] + rest) == (ObjEnd, rest)
    ensures NextToken([0x2c] + rest) == (Comma, rest) && NextToken([0x3a] + rest) == (Colon, rest)
  {
    hide NextToken;
    SingleIsToken(0x5b, rest);
    SingleIsToken(0x5d, rest);
    SingleIsToken(0x7b, rest);
    SingleIsToken(0x7d, rest);
    SingleIsToken(0x2c, rest);
    SingleIsToken(0x3a, rest);
  }

  // ---------- trees ----------

  predicate Readable(t: Tree, room: nat) { Means(t) && Nested(t, room) }

  // What reading a tree yields where so many tables may still be opened.
  predicate ReadAs(p: Parsed, t: Tree, room: nat, rest: Bytes) {
    if Readable(t, room) then p == Ok(Meaning(t), rest) else p.Err?
  }

  predicate ReadableItems(t: Tree, i: nat, room: nat)
    requires t.JArray?
  {
    forall j :: i <= j < |t.items| ==> Readable(t.items[j].value, room)
  }

  predicate ReadableMembers(t: Tree, i: nat, room: nat)
    requires t.JObject?
  {
    forall j :: i <= j < |t.members| ==> MemberMeans(t.members[j]) && Nested(t.members[j].item.value, room)
  }

  // The text from item number i.
  lemma ItemsText(t: Tree, i: nat, rest: Bytes)
    requires t.JArray? && i < |t.items|
    ensures var it := t.items[i];
            var end := if i + 1 == |t.items| then [0x5d] else [0x2c] + WriteItems(t, i + 1);
            WriteItems(t, i) + rest == it.before + (Write(it.value) + (it.after + (end + rest)))
  {
    hide Write;
    var it := t.items[i];
    var end := if i + 1 == |t.items| then [0x5d] else [0x2c] + WriteItems(t, i + 1);
    Regrouped(it.before, Write(it.value), it.after, end, rest);
  }

  // The parts of the text from item number i.
  lemma ItemsShape(t: Tree, i: nat, rest: Bytes)
    requires t.JArray? && i < |t.items| && IsTree(t)
    ensures var it := t.items[i];
            var tail := if i + 1 == |t.items| then [0x5d] + rest else [0x2c] + (WriteItems(t, i + 1) + rest);
            && IsSpaces(it.before) && IsTree(it.value) && IsSpaces(it.after) && Stops(it.after + tail)
            && WriteItems(t, i) + rest == it.before + (Write(it.value) + (it.after + tail))
  {
    var it := t.items[i];
    assert IsItem(it);
    hide Write, WriteItems, IsSpaces, IsTree;
    ItemsText(t, i, rest);
    var end := if i + 1 == |t.items| then [0x5d] else [0x2c] + WriteItems(t, i + 1);
    var tail := if i + 1 == |t.items| then [0x5d] + rest else [0x2c] + (WriteItems(t, i + 1) + rest);
    assert end + rest == tail;
    SkipsSpaces(it.after, tail);
  }

  lemma Regrouped(a: Bytes, b: Bytes, c: Bytes, d: Bytes, e: Bytes)
    ensures a + b + c + d + e == a + (b + (c + (d + e)))
  {
  }

  /** A text, with anything behind it that does not prolong a number, is read as what it means:
      it is refused exactly if a string in it means nothing or too many brackets are open at some place. */
  lemma {:induction false} ReadsTree(t: Tree, depth: nat, rest: Bytes)
    requires IsTree(t) && Stops(rest) && depth <= 1000
    ensures var (tok, t1) := NextToken(Write(t) + rest);
            !tok.ArrEnd? && ReadAs(Value(tok, t1, depth), t, 1000 - depth, rest)
    decreases t, 1
  {
    hide NextToken, CharsMean, IsChars, IsInteger, IntegerMeans, Clamped, WriteItems, WriteMembers, ItemMeanings,
      MemberMeanings;
    match t {
      case JInteger(text) =>
        IntegerIsToken(text, rest);
      case JString(chars) =>
        StringIsTokenIff(chars, rest);
      case JArray(_, _) =>
        ReadsJArray(t, depth, rest);
      case JObject(_, _) =>
        ReadsJObject(t, depth, rest);
      case _ =>
        Words(rest);
    }
  }

  lemma {:induction false} ReadsJArray(t: Tree, depth: nat, rest: Bytes)
    requires t.JArray? && IsTree(t) && depth <= 1000
    ensures var (tok, t1) := NextToken(Write(t) + rest);
            !tok.ArrEnd? && ReadAs(Value(tok, t1, depth), t, 1000 - depth, rest)
    decreases t, 0, |t.items| + 1
  {
    hide NextToken, Items, WriteItems, IsSpaces;
    var body := if t.items == [] then t.gap + [0x5d] else WriteItems(t, 0);
    assert Write(t) + rest == [0x5b] + (body + rest);
    Structure(body + rest);
    if depth < 1000 {
      ArrayReadable(t, 1000 - depth);
      if t.items == [] {
        assert body + rest == t.gap + ([0x5d] + rest);
        SkipsSpaces(t.gap, [0x5d] + rest);
        Structure(rest);
      } else {
        ReadsJItems(t, 0, depth + 1, map[], rest);
      }
    }
  }

  lemma ArrayReadable(t: Tree, room: nat)
    requires t.JArray? && room > 0
    ensures Readable(t, room) <==> ReadableItems(t, 0, room - 1)
    ensures Means(t) ==> ItemMeanings(t, 0) == map[]
  {
  }

  lemma {:induction false} ReadsJItems(t: Tree, i: nat, depth: nat, m: map<Key, Data>, rest: Bytes)
    requires t.JArray? && IsTree(t) && i < |t.items| && depth <= 1000
    ensures var (tok, t1) := NextToken(WriteItems(t, i) + rest);
            var p := Items(tok, t1, i + 1, m, depth);
            && !tok.ArrEnd?
            && if ReadableItems(t, i, 1000 - depth) then
                 Means(t) && m == ItemMeanings(t, i) ==> p == Ok(DTab(ItemMeanings(t, |t.items|)), rest)
               else p.Err?
    decreases t, 0, |t.items| - i
  {
    hide NextToken, Items, Value, Write, WriteItems, Means, Nested, Stops, IsSpaces, IsTree, ReadableItems,
      ItemMeanings;
    OneMoreItem(t, i, 1000 - depth);
    var it := t.items[i];
    var tail := if i + 1 == |t.items| then [0x5d] + rest else [0x2c] + (WriteItems(t, i + 1) + rest);
    ItemsShape(t, i, rest);
    SkipsSpaces(it.before, Write(it.value) + (it.after + tail));
    ReadsTree(it.value, depth, it.after + tail);
    SkipsSpaces(it.after, tail);
    var (tok, t1) := NextToken(WriteItems(t, i) + rest);
    ItemFails(tok, t1, i + 1, m, depth);
    if Readable(it.value, 1000 - depth) {
      ItemsTurn(tok, t1, i + 1, m, depth);
      if i + 1 == |t.items| {
        Structure(rest);
      } else {
        Structure(WriteItems(t, i + 1) + rest);
        ReadsJItems(t, i + 1, depth, m[KNum(i + 1) := Meaning(it.value)], rest);
      }
    }
  }

  lemma OneMoreItem(t: Tree, i: nat, room: nat)
    requires t.JArray? && i < |t.items|
    ensures ReadableItems(t, i, room) <==> Readable(t.items[i].value, room) && ReadableItems(t, i + 1, room)
    ensures i + 1 == |t.items| ==> ReadableItems(t, i + 1, room)
    ensures Means(t) ==>
              && Means(t.items[i].value)
              && ItemMeanings(t, i + 1) == ItemMeanings(t, i)[KNum(i + 1) := Meaning(t.items[i].value)]
  {
    hide Nested;
  }

  lemma ItemFails(tok: Token, t: Bytes, i: nat, m: map<Key, Data>, depth: nat)
    ensures Value(tok, t, depth).Err? ==> Items(tok, t, i, m, depth).Err?
  {
  }

  // The text from member number i.
  lemma MembersText(t: Tree, i: nat, rest: Bytes)
    requires t.JObject? && i < |t.members|
    ensures var m, it := t.members[i], t.members[i].item;
            var end := if i + 1 == |t.members| then [0x7d] else [0x2c] + WriteMembers(t, i + 1);
            WriteMembers(t, i) + rest == WriteName(m) + (it.before + (Write(it.value) + (it.after + (end + rest))))
  {
    hide Write, WriteName;
    var m, it := t.members[i], t.members[i].item;
    var end := if i + 1 == |t.members| then [0x7d] else [0x2c] + WriteMembers(t, i + 1);
    Regrouped(WriteName(m) + it.before, Write(it.value), it.after, end, rest);
    assert WriteMembers(t, i) + rest == WriteName(m) + it.before + (Write(it.value) + (it.after + (end + rest)));
  }

  // The parts of the text from member number i.
  lemma MembersShape(t: Tree, i: nat, rest: Bytes)
    requires t.JObject? && i < |t.members| && IsTree(t)
    ensures var m, it := t.members[i], t.members[i].item;
            var tail := if i + 1 == |t.members| then [0x7d] + rest else [0x2c] + (WriteMembers(t, i + 1) + rest);
            && IsMember(m) && IsSpaces(it.before) && IsTree(it.value) && IsSpaces(it.after) && Stops(it.after + tail)
            && WriteMembers(t, i) + rest == WriteName(m) + (it.before + (Write(it.value) + (it.after + tail)))
  {
    var it := t.members[i].item;
    assert IsMember(t.members[i]) && IsItem(it);
    hide Write, WriteName, WriteMembers, IsSpaces, IsChars, IsTree;
    MembersText(t, i, rest);
    var end := if i + 1 == |t.members| then [0x7d] else [0x2c] + WriteMembers(t, i + 1);
    var tail := if i + 1 == |t.members| then [0x7d] + rest else [0x2c] + (WriteMembers(t, i + 1) + rest);
    assert end + rest == tail;
    SkipsSpaces(it.after, tail);
  }

  // A name and its colon.
  lemma ReadsName(m: Member, rest: Bytes)
    requires IsMember(m)
    ensures IsChars(m.name)
    ensures var (tok, t1) := NextToken(WriteName(m) + rest);
            if CharsMean(m.name).Some? then tok == TString(CharsMean(m.name).value) && NextToken(t1) == (Colon, rest)
            else tok.Bad?
  {
    hide NextToken, CharsMean, IsChars, IsSpaces;
    var colon := m.after + ([0x3a] + rest);
    assert WriteName(m) + rest == m.before + ([0x22] + m.name + [0x22] + colon);
    SkipsSpaces(m.before, [0x22] + m.name + [0x22] + colon);
    StringIsTokenIff(m.name, colon);
    SkipsSpaces(m.after, [0x3a] + rest);
    Structure(rest);
  }

  lemma {:induction false} ReadsJObject(t: Tree, depth: nat, rest: Bytes)
    requires t.JObject? && IsTree(t) && depth <= 1000
    ensures var (tok, t1) := NextToken(Write(t) + rest);
            !tok.ArrEnd? && ReadAs(Value(tok, t1, depth), t, 1000 - depth, rest)
    decreases t, 0, |t.members| + 1
  {
    hide NextToken, Fields, WriteMembers, IsSpaces;
    var body := if t.members == [] then t.gap + [0x7d] else WriteMembers(t, 0);
    assert Write(t) + rest == [0x7b] + (body + rest);
    Structure(body + rest);
    if depth < 1000 {
      ObjectReadable(t, 1000 - depth);
      if t.members == [] {
        assert body + rest == t.gap + ([0x7d] + rest);
        SkipsSpaces(t.gap, [0x7d] + rest);
        Structure(rest);
      } else {
        ReadsJMembers(t, 0, depth + 1, map[], rest);
      }
    }
  }

  lemma ObjectReadable(t: Tree, room: nat)
    requires t.JObject? && room > 0
    ensures Readable(t, room) <==> ReadableMembers(t, 0, room - 1)
    ensures Means(t) ==> MemberMeanings(t, 0) == map[]
  {
    hide MemberMeans;
  }

  lemma {:induction false} ReadsJMembers(t: Tree, i: nat, depth: nat, m: map<Key, Data>, rest: Bytes)
    requires t.JObject? && IsTree(t) && i < |t.members| && depth <= 1000
    ensures var (tok, t1) := NextToken(WriteMembers(t, i) + rest);
            var p := Fields(tok, t1, m, depth);
            && !tok.ObjEnd?
            && if ReadableMembers(t, i, 1000 - depth) then
                 Means(t) && m == MemberMeanings(t, i) ==> p == Ok(DTab(MemberMeanings(t, |t.members|)), rest)
               else p.Err?
    decreases t, 0, |t.members| - i
  {
    hide NextToken, Fields, Value, Write, WriteName, WriteMembers, Means, Nested, Stops, IsSpaces, IsTree, IsMember,
      CharsMean, IsChars, ReadableMembers, MemberMeanings;
    OneMoreMember(t, i, 1000 - depth);
    var mb := t.members[i];
    var it := mb.item;
    var tail := if i + 1 == |t.members| then [0x7d] + rest else [0x2c] + (WriteMembers(t, i + 1) + rest);
    MembersShape(t, i, rest);
    ReadsName(mb, it.before + (Write(it.value) + (it.after + tail)));
    var (tok, t1) := NextToken(WriteMembers(t, i) + rest);
    if tok.Bad? {
      NoFieldName(tok, t1, m, depth);
    } else {
      SkipsSpaces(it.before, Write(it.value) + (it.after + tail));
      ReadsTree(it.value, depth, it.after + tail);
      SkipsSpaces(it.after, tail);
      FieldFails(tok.s, t1, m, depth);
      if Readable(it.value, 1000 - depth) {
        FieldsTurn(tok.s, t1, m, depth);
        if i + 1 == |t.members| {
          Structure(rest);
        } else {
          Structure(WriteMembers(t, i + 1) + rest);
          ReadsJMembers(t, i + 1, depth, m[KStr(tok.s) := Meaning(it.value)], rest);
        }
      }
    }
  }

  lemma OneMoreMember(t: Tree, i: nat, room: nat)
    requires t.JObject? && i < |t.members|
    ensures var m := t.members[i];
            && (ReadableMembers(t, i, room)
                <==> MemberMeans(m) && Nested(m.item.value, room) && ReadableMembers(t, i + 1, room))
            && (i + 1 == |t.members| ==> ReadableMembers(t, i + 1, room))
            && (Means(t) ==>
                  && MemberMeans(m)
                  && MemberMeanings(t, i + 1) ==
                     MemberMeanings(t, i)[KStr(CharsMean(m.name).value) := Meaning(m.item.value)])
  {
    hide MemberMeans, Nested, CharsMean;
  }

  lemma NoFieldName(tok: Token, t: Bytes, m: map<Key, Data>, depth: nat)
    ensures !tok.TString? ==> Fields(tok, t, m, depth).Err?
  {
  }

  lemma FieldFails(s: Bytes, t: Bytes, m: map<Key, Data>, depth: nat)
    ensures var (colon, t1) := NextToken(t);
            var (first, t2) := NextToken(t1);
            Value(first, t2, depth).Err? ==> Fields(TString(s), t, m, depth).Err?
  {
    hide NextToken, Value;
  }

  // ---------- whole texts ----------

  lemma {:induction false} CharsNoZero(t: Bytes)
    requires IsChars(t)
    ensures NoZero(t)
    decreases |t|
  {
    if t != [] {
      var n := if t[0] != 0x5c then 1 else if t[1] != 0x75 then 2 else 6;
      CharsNoZero(t[n..]);
      FirstNoZero(t, n);
      assert t == t[..n] + t[n..];
    }
  }

  lemma FirstNoZero(t: Bytes, n: nat)
    requires IsChars(t) && t != [] && n == if t[0] != 0x5c then 1 else if t[1] != 0x75 then 2 else 6
    ensures n <= |t| && NoZero(t[..n])
  {
  }

  lemma {:induction false} TreeNoZero(t: Tree)
    requires IsTree(t)
    ensures NoZero(Write(t))
    decreases t, 1
  {
    hide IsChars;
    match t {
      case JInteger(text) =>
        assert AllDigits(Unsigned(text));
        assert text == Unsigned(text) || text == [MINUS] + Unsigned(text);
      case JString(chars) =>
        CharsNoZero(chars);
      case JArray(_, items) =>
        if items != [] {
          ItemsNoZero(t, 0);
        }
      case JObject(_, members) =>
        if members != [] {
          MembersNoZero(t, 0);
        }
      case _ =>
    }
  }

  lemma {:induction false} ItemsNoZero(t: Tree, i: nat)
    requires t.JArray? && IsTree(t) && i < |t.items|
    ensures NoZero(WriteItems(t, i))
    decreases t, 0, |t.items| - i
  {
    hide Write;
    assert IsItem(t.items[i]);
    TreeNoZero(t.items[i].value);
    if i + 1 < |t.items| {
      ItemsNoZero(t, i + 1);
    }
  }

  lemma {:induction false} MembersNoZero(t: Tree, i: nat)
    requires t.JObject? && IsTree(t) && i < |t.members|
    ensures NoZero(WriteMembers(t, i))
    decreases t, 0, |t.members| - i
  {
    hide Write, IsChars;
    var m := t.members[i];
    assert IsMember(m);
    CharsNoZero(m.name);
    assert NoZero(WriteName(m));
    assert IsItem(m.item);
    TreeNoZero(m.item.value);
    if i + 1 < |t.members| {
      MembersNoZero(t, i + 1);
    }
  }

  /** The decoder yields what a text means, if all its strings mean something and at most 1000 brackets are
      open at once, and an error otherwise. */
  lemma DecodesText(before: Bytes, t: Tree, after: Bytes)
    requires IsSpaces(before) && IsTree(t) && IsSpaces(after)
    ensures if Means(t) && Nested(t, 1000) then Decode(before + Write(t) + after) == Ok(Meaning(t), [])
            else Decode(before + Write(t) + after).Err?
  {
    hide NextToken, Value, Write, Means, Nested, Meaning;
    var text := before + Write(t) + after;
    TreeNoZero(t);
    assert NoZero(text);
    assert text == before + (Write(t) + after) && after == after + [];
    SkipsSpaces(before, Write(t) + after);
    SkipsSpaces(after, []);
    ReadsTree(t, 0, after);
    NothingLeft();
  }

  lemma NothingLeft()
    ensures NextToken([]) == (End, []) && Stops([])
  {
  }

  // ---------- what the encoder writes ----------

  // A tree for a value: its text, without white space, and what has become of the value in it.
  predicate IsTreeOf(t: Tree, text: Bytes, d: Data) { IsTree(t) && Write(t) == text && Means(t) && Meaning(t) == d }

  /** The text of a value is in the grammar and means its image. */
  lemma {:induction false} EncodedMeans(v: Val, depth: nat) returns (t: Tree)
    requires Encode(v, depth).Text?
    ensures IsTree(t) && Write(t) == Encode(v, depth).t && Means(t) && Meaning(t) == Image(v)
    decreases v, 1
  {
    hide EncodeItems, EncodeFields, IsSparse, ArrayLength, ItemImages, FieldImages, CharsMean, IsChars, EscapeAll,
      NumText, IsInteger, IntegerMeans;
    match v {
      case Str(s) =>
        EscapedMeans(s);
        t := JString(EscapeAll(s));
      case Num(n) =>
        NumberMeans(n);
        t := JInteger(NumText(n));
      case Bool(b) =>
        t := if b then JTrue else JFalse;
      case Tab(es) =>
        if ArrayLength(es) > 0 {
          t := ArrayMeans(v, depth);
        } else {
          t := ObjectMeans(v, depth);
        }
      case _ =>
        t := JNull;
    }
  }

  lemma {:induction false} ArrayMeans(v: Val, depth: nat) returns (t: Tree)
    requires v.Tab? && Encode(v, depth).Text? && ArrayLength(v.entries) > 0
    ensures IsTreeOf(t, Encode(v, depth).t, Image(v))
    decreases v, 0, ArrayLength(v.entries) + 1
  {
    hide EncodeItems, IsSparse, ArrayLength, ItemImages, WriteItems;
    var n := ArrayLength(v.entries);
    var items := ItemTrees(v, n, n, depth + 1);
    t := JArray([], items);
    ItemsWritten(v, items, 0, depth + 1);
    ItemsMean(v, items, n, depth + 1);
  }

  ghost predicate ItemsAre(v: Val, items: seq<Item>, depth: nat)
    requires v.Tab?
  {
    forall i :: 0 <= i < |items| ==> ItemIs(v, items[i], i + 1, depth)
  }

  predicate ItemIs(v: Val, it: Item, i: nat, depth: nat)
    requires v.Tab?
  {
    && it.before == it.after == []
    && EncodeItem(v, i, depth).Text? && IsTreeOf(it.value, EncodeItem(v, i, depth).t, ItemImage(v, i))
  }

  // Trees of the first k items.
  lemma {:induction false} ItemTrees(v: Val, k: nat, n: nat, depth: nat) returns (items: seq<Item>)
    requires v.Tab? && k <= n && EncodeItems(v, 1, n, depth).Text?
    ensures |items| == k && ItemsAre(v, items, depth)
    decreases v, 0, k
  {
    hide EncodeItems, EncodeItem, ItemImage, IsTreeOf;
    if k == 0 {
      items := [];
    } else {
      items := ItemTrees(v, k - 1, n, depth);
      ItemsAreTexts(v, 1, n, depth, k);
      var t := ItemMeans(v, k, depth);
      items := items + [Item([], t, [])];
    }
  }

  lemma {:induction false} ItemMeans(v: Val, i: nat, depth: nat) returns (t: Tree)
    requires v.Tab? && EncodeItem(v, i, depth).Text?
    ensures IsTreeOf(t, EncodeItem(v, i, depth).t, ItemImage(v, i))
    decreases v, 0, 0
  {
    hide Encode, Image, Meaning;
    var p := Find(v.entries, KNum(i));
    if p < |v.entries| {
      t := EncodedMeans(v.entries[p].value, depth);
    } else {
      t := JNull;
      assert Meaning(JNull) == DNull by {
        NullMeans();
      }
    }
  }

  lemma NullMeans()
    ensures Meaning(JNull) == DNull
  {
  }

  lemma {:induction false} ItemsWritten(v: Val, items: seq<Item>, i: nat, depth: nat)
    requires v.Tab? && i < |items| && ItemsAre(v, items, depth)
    ensures EncodeItems(v, i + 1, |items|, depth).Text?
    ensures EncodeItems(v, i + 1, |items|, depth).t == Sep(i == 0) + WriteItems(JArray([], items), i)
    decreases |items| - i
  {
    hide EncodeItem, ItemImage, Write, Means, Meaning;
    assert ItemIs(v, items[i], i + 1, depth);
    if i + 1 < |items| {
      ItemsWritten(v, items, i + 1, depth);
    }
    Bare([], Write(items[i].value),
         if i + 1 < |items| then [0x2c] + WriteItems(JArray([], items), i + 1) else [0x5d]);
    assert [] + [] == items[i].before;
  }

  lemma {:induction false} ItemsMean(v: Val, items: seq<Item>, n: nat, depth: nat)
    requires v.Tab? && n <= |items| && ItemsAre(v, items, depth)
    ensures var t := JArray([], items); IsTree(t) && Means(t) && ItemMeanings(t, n) == ItemImages(v, n)
    decreases n
  {
    hide EncodeItem, ItemImage, Write, Meaning;
    assert forall i :: 0 <= i < |items| ==> ItemIs(v, items[i], i + 1, depth);
    if n > 0 {
      ItemsMean(v, items, n - 1, depth);
    }
  }

  lemma {:induction false} ObjectMeans(v: Val, depth: nat) returns (t: Tree)
    requires v.Tab? && Encode(v, depth).Text? && ArrayLength(v.entries) == 0
    ensures IsTreeOf(t, Encode(v, depth).t, Image(v))
    decreases v, 0, |v.entries| + 1
  {
    hide EncodeFields, IsSparse, ArrayLength, FieldImages, WriteMembers, MembersAre;
    var n := |v.entries|;
    var members := FieldTrees(v, n, depth + 1);
    t := JObject([], members);
    if n == 0 {
      NoFields(v, depth + 1);
    } else {
      MembersWritten(v, members, 0, depth + 1);
    }
    MembersMean(v, members, n, depth + 1);
  }

  ghost predicate MembersAre(v: Val, members: seq<Member>, depth: nat)
    requires v.Tab? && |members| <= |v.entries|
  {
    forall i :: 0 <= i < |members| ==> MemberIs(v.entries[i], members[i], depth)
  }

  predicate MemberIs(e: Entry, m: Member, depth: nat) {
    && m.before == m.after == m.item.before == m.item.after == []
    && IsChars(m.name) && CharsMean(m.name) == Some(KeyString(e.key)) && KeyText(e.key) == Text(WriteName(m))
    && Encode(e.value, depth).Text? && IsTreeOf(m.item.value, Encode(e.value, depth).t, Image(e.value))
  }

  // Trees of the first k entries.
  lemma {:induction false} FieldTrees(v: Val, k: nat, depth: nat) returns (members: seq<Member>)
    requires v.Tab? && k <= |v.entries| && EncodeFields(v, 0, depth).Text?
    ensures |members| == k && MembersAre(v, members, depth)
    decreases v, 0, k
  {
    hide EncodeFields, MemberIs;
    if k == 0 {
      members := [];
    } else {
      members := FieldTrees(v, k - 1, depth);
      FieldsAreTexts(v, 0, depth, k - 1);
      var e := v.entries[k - 1];
      var t := EncodedMeans(e.value, depth);
      var m := Member([], EscapeAll(KeyString(e.key)), [], Item([], t, []));
      MemberIsEntry(e, m, depth);
      members := members + [m];
    }
  }

  lemma MemberIsEntry(e: Entry, m: Member, depth: nat)
    requires KeyText(e.key).Text? && Encode(e.value, depth).Text?
    requires IsTreeOf(m.item.value, Encode(e.value, depth).t, Image(e.value))
    requires m == Member([], EscapeAll(KeyString(e.key)), [], Item([], m.item.value, []))
    ensures MemberIs(e, m, depth)
  {
    hide EscapeAll, NumText, IsChars, CharsMean, Encode, Image, IsTreeOf;
    EscapedMeans(KeyString(e.key));
    if e.key.KNum? {
      DigitsPlain(e.key.n);
    }
    assert KeyText(e.key).t == Quoted(KeyString(e.key)) + [0x3a];
    assert WriteName(m) == Quoted(KeyString(e.key)) + [0x3a];
  }

  lemma {:induction false} MembersWritten(v: Val, members: seq<Member>, k: nat, depth: nat)
    requires v.Tab? && k < |members| == |v.entries| && MembersAre(v, members, depth)
    ensures EncodeFields(v, k, depth).Text?
    ensures EncodeFields(v, k, depth).t == Sep(k == 0) + WriteMembers(JObject([], members), k)
    decreases |members| - k
  {
    hide KeyText, Encode, WriteName, Image, Write, Means, Meaning, IsChars, CharsMean;
    assert MemberIs(v.entries[k], members[k], depth);
    var t := JObject([], members);
    if k + 1 < |members| {
      MembersWritten(v, members, k + 1, depth);
    }
    Bare(WriteName(members[k]), Write(members[k].item.value),
         if k + 1 < |members| then [0x2c] + WriteMembers(t, k + 1) else [0x7d]);
  }

  lemma Bare(a: Bytes, b: Bytes, c: Bytes)
    ensures a + [] + b + [] + c == a + (b + c)
  {
  }

  lemma MemberIsMember(e: Entry, m: Member, depth: nat)
    requires MemberIs(e, m, depth)
    ensures IsMember(m) && MemberMeans(m)
  {
  }

  lemma {:induction false} MembersMean(v: Val, members: seq<Member>, n: nat, depth: nat)
    requires v.Tab? && n <= |members| == |v.entries| && MembersAre(v, members, depth)
    ensures var t := JObject([], members); IsTree(t) && Means(t) && MemberMeanings(t, n) == FieldImages(v, n)
    decreases n
  {
    hide KeyText, Encode, WriteName, Image, Write, Meaning, IsChars, CharsMean;
    var t := JObject([], members);
    forall i | 0 <= i < |members| ensures IsMember(members[i]) && MemberMeans(members[i]) {
      MemberIsMember(v.entries[i], members[i], depth);
    }
    assert IsTree(t) && Means(t);
    if n > 0 {
      MembersMean(v, members, n - 1, depth);
      assert MemberIs(v.entries[n - 1], members[n - 1], depth);
    }
  }

  /** Null, booleans, integers, strings, arrays without holes and tables with string keys are written as texts that
      mean those values. */
  lemma PlainMeans(v: Val) returns (t: Tree)
    requires IsValue(v) && Plain(v) && NestedUpTo(v, 1000)
    ensures Encode(v, 0).Text? && IsTree(t) && Write(t) == Encode(v, 0).t && Means(t) && Meaning(t) == Content(v)
  {
    hide Encode, Meaning, Image, Content, Plain, IsValue, NestedUpTo, Serialisable, IsTree, Means, Write;
    PlainIsSerialisable(v);
    EncodesIff(v, 0);
    SameIff(v, 0);
    t := EncodedMeans(v, 0);
  }

  // ---------- arrays and objects by their keys ----------

  /** The table of an array has the indices from 1 to the number of items, each with the meaning of its item. */
  lemma {:induction false} ArrayHolds(t: Tree, n: nat)
    requires t.JArray? && n <= |t.items| && Means(t)
    ensures forall k :: k in ItemMeanings(t, n) <==> k.KNum? && 1 <= k.n <= n
    ensures forall i :: 0 <= i < n ==> ItemMeanings(t, n)[KNum(i + 1)] == Meaning(t.items[i].value)
    decreases n
  {
    hide Meaning;
    if n > 0 {
      ArrayHolds(t, n - 1);
    }
  }

  function NameOf(m: Member): Option<Bytes> { if IsChars(m.name) then CharsMean(m.name) else None }

  /** The table of an object has the names as keys, each with the meaning of the last member of that name. */
  lemma {:induction false} ObjectHolds(t: Tree, n: nat, i: nat)
    requires t.JObject? && i < n <= |t.members| && Means(t)
    requires forall j :: i < j < n ==> NameOf(t.members[j]) != NameOf(t.members[i])
    ensures var name := NameOf(t.members[i]);
            && name.Some? && KStr(name.value) in MemberMeanings(t, n)
            && MemberMeanings(t, n)[KStr(name.value)] == Meaning(t.members[i].item.value)
    decreases n
  {
    hide Meaning, CharsMean, IsChars;
    assert MemberMeans(t.members[i]) && MemberMeans(t.members[n - 1]);
    if i < n - 1 {
      ObjectHolds(t, n - 1, i);
    }
  }

  lemma {:induction false} ObjectHoldsOnly(t: Tree, n: nat, k: Key)
    requires t.JObject? && n <= |t.members| && Means(t) && k in MemberMeanings(t, n)
    ensures k.KStr? && exists i :: 0 <= i < n && NameOf(t.members[i]) == Some(k.s)
    decreases n
  {
    hide Meaning, CharsMean, IsChars;
    assert MemberMeans(t.members[n - 1]);
    if NameOf(t.members[n - 1]) != (if k.KStr? then Some(k.s) else None) {
      ObjectHoldsOnly(t, n - 1, k);
    }
  }

  // ---------- the simplest texts ----------

  lemma {:induction false} DecodesBare(t: Tree)
    requires IsTree(t) && Means(t) && Nested(t, 1000)
    ensures Decode(Write(t)) == Ok(Meaning(t), [])
  {
    hide Decode, Write, Meaning, Means, Nested;
    DecodesText([], t, []);
    assert [] + Write(t) + [] == Write(t);
  }

  /** The words, byte by byte, as they are read and as they are written. */
  lemma Smallest(depth: nat)
    ensures Decode([0x6e, 0x75, 0x6c, 0x6c]) == Ok(DNull, [])
    ensures Decode([0x74, 0x72, 0x75, 0x65]) == Ok(DBool(true), [])
    ensures Decode([0x66, 0x61, 0x6c, 0x73, 0x65]) == Ok(DBool(false), [])
    ensures Encode(Nil, depth) == Encode(Null, depth) == Text([0x6e, 0x75, 0x6c, 0x6c])
    ensures Encode(Bool(true), depth) == Text([0x74, 0x72, 0x75, 0x65])
    ensures Encode(Bool(false), depth) == Text([0x66, 0x61, 0x6c, 0x73, 0x65])
  {
    hide Decode;
    DecodesBare(JNull);
    DecodesBare(JTrue);
    DecodesBare(JFalse);
  }

  /** A string, an array and an object with nothing in them. */
  lemma Empty()
    ensures Decode([0x22, 0x22]) == Ok(DStr([]), [])
    ensures Decode([0x5b, 0x5d]) == Ok(DTab(map[]), []) && Decode([0x7b, 0x7d]) == Ok(DTab(map[]), [])
  {
    hide Decode;
    DecodesBare(JString([]));
    DecodesBare(JArray([], []));
    DecodesBare(JObject([], []));
    assert Write(JString([])) == [0x22, 0x22];
    assert Write(JArray([], [])) == [0x5b, 0x5d] && Write(JObject([], [])) == [0x7b, 0x7d];
  }

  /** Minus twelve. */
  lemma MinusTwelve(depth: nat)
    ensures Decode([0x2d, 0x31, 0x32]) == Ok(DNum(-12), [])
    ensures Encode(Num(-12), depth) == Text([0x2d, 0x31, 0x32])
  {
    assert Digits(12) == [0x31, 0x32] by {
      assert Digits(1) == [0x31];
    }
    hide Decode, Digits;
    var t := NumText(-12);
    assert t == [0x2d, 0x31, 0x32];
    NumberMeans(-12);
    DecodesBare(JInteger(t));
  }
}
