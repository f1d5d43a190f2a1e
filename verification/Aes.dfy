/** AES-128 in CBC mode (aes.c): the rounds of FIPS 197, section 5, and the chaining of
    SP 800-38A, section 6.2. */
module Aes {
  import opened AesTables
  import opened AesMix

  const NB := 4
  const NR := 10

  type Bytes = seq<bv8>
  type State = s: Bytes | |s| == 16 witness seq(16, _ => 0)
  type Keys = w: Bytes | |w| == 176 witness seq(176, _ => 0)

  // ---------- the steps of a round ----------

  // Byte 4c + r of the state is in column c and row r.

  function SubBytes(s: State): State { seq(16, k requires 0 <= k < 16 => Sbox(s[k])) }

  function InvSubBytes(s: State): State { seq(16, k requires 0 <= k < 16 => Rsbox(s[k])) }

  function ShiftRows(s: State): State {
    [s[0], s[5], s[10], s[15], s[4], s[9], s[14], s[3], s[8], s[13], s[2], s[7], s[12], s[1], s[6], s[11]]
  }

  function InvShiftRows(s: State): State {
    [s[0], s[13], s[10], s[7], s[4], s[1], s[14], s[11], s[8], s[5], s[2], s[15], s[12], s[9], s[6], s[3]]
  }

  /** Row r moves r columns to the left, and back. */
  lemma ShiftsRows(s: State, c: nat, r: nat)
    requires c < 4 && r < 4
    ensures ShiftRows(s)[4 * c + r] == s[4 * ((c + r) % 4) + r]
    ensures InvShiftRows(s)[4 * ((c + r) % 4) + r] == s[4 * c + r]
  {
  }

  function Column(s: State, c: nat): Col
    requires c < 4
  {
    Col(s[4 * c], s[4 * c + 1], s[4 * c + 2], s[4 * c + 3])
  }

  function FromCols(p: Col, q: Col, r: Col, t: Col): State {
    [p.a, p.b, p.c, p.d, q.a, q.b, q.c, q.d, r.a, r.b, r.c, r.d, t.a, t.b, t.c, t.d]
  }

  function MixColumns(s: State): State {
    FromCols(MixCol(Column(s, 0)), MixCol(Column(s, 1)), MixCol(Column(s, 2)), MixCol(Column(s, 3)))
  }

  function InvMixColumns(s: State): State {
    FromCols(InvMixCol(Column(s, 0)), InvMixCol(Column(s, 1)), InvMixCol(Column(s, 2)), InvMixCol(Column(s, 3)))
  }

  function AddKey(s: State, w: Keys, round: nat): State
    requires round <= NR
  {
    seq(16, k requires 0 <= k < 16 => Xor(s[k], w[16 * round + k]))
  }

  // ---------- each step is undone ----------

  lemma UndoSub(s: State)
    ensures InvSubBytes(SubBytes(s)) == s
  {
    hide Sbox, Rsbox;
    forall k | 0 <= k < 16 ensures InvSubBytes(SubBytes(s))[k] == s[k] {
      RsboxInvertsSbox(s[k]);
    }
  }

  lemma UndoShift(s: State)
    ensures InvShiftRows(ShiftRows(s)) == s
  {
  }

  lemma UndoMix(s: State)
    ensures InvMixColumns(MixColumns(s)) == s
  {
    hide MixCol, InvMixCol;
    InvMixUndoesMix(Column(s, 0));
    InvMixUndoesMix(Column(s, 1));
    InvMixUndoesMix(Column(s, 2));
    InvMixUndoesMix(Column(s, 3));
    var m := MixColumns(s);
    assert Column(m, 0) == MixCol(Column(s, 0)) && Column(m, 1) == MixCol(Column(s, 1));
    assert Column(m, 2) == MixCol(Column(s, 2)) && Column(m, 3) == MixCol(Column(s, 3));
  }

  lemma XorTwice(x: bv8, y: bv8)
    ensures Xor(Xor(x, y), y) == x
  {
  }

  lemma UndoKey(s: State, w: Keys, round: nat)
    requires round <= NR
    ensures AddKey(AddKey(s, w, round), w, round) == s
  {
    hide Xor;
    forall k | 0 <= k < 16 ensures AddKey(AddKey(s, w, round), w, round)[k] == s[k] {
      XorTwice(s[k], w[16 * round + k]);
    }
  }

  // ---------- the cipher ----------

  // The number of full rounds, as the size of the key schedule gives it.
  function FullRounds(w: Keys): (n: nat)
    ensures n == NR - 1
  {
    |w| / 16 - 2
  }

  // The state after the given number of rounds.
  function Rounds(s: State, w: Keys, n: nat): State
    requires n < NR
  {
    if n == 0 then AddKey(s, w, 0) else AddKey(MixColumns(ShiftRows(SubBytes(Rounds(s, w, n - 1)))), w, n)
  }

  function Cipher(s: State, w: Keys): State { AddKey(ShiftRows(SubBytes(Rounds(s, w, FullRounds(w)))), w, NR) }

  function Unshifted(s: State): State { InvSubBytes(InvShiftRows(s)) }

  // The inverse rounds n, n-1, ..., 1 and the last one.
  function InvRounds(s: State, w: Keys, n: nat): State
    requires n < NR
    decreases n
  {
    hide InvRound, AddKey, Unshifted;
    if n == 0 then AddKey(Unshifted(s), w, 0)
    else InvRounds(InvRound(s, w, n), w, n - 1)
  }

  function InvRound(s: State, w: Keys, n: nat): State
    requires n < NR
  {
    InvMixColumns(AddKey(Unshifted(s), w, n))
  }

  function InvCipher(s: State, w: Keys): State { InvRounds(AddKey(s, w, NR), w, FullRounds(w)) }

  lemma {:induction false} InvRoundsUndo(s: State, w: Keys, n: nat)
    requires n < NR
    ensures InvRounds(ShiftRows(SubBytes(Rounds(s, w, n))), w, n) == s
  {
    hide SubBytes, InvSubBytes, ShiftRows, InvShiftRows, MixColumns, InvMixColumns, AddKey;
    var r := Rounds(s, w, n);
    UndoShift(SubBytes(r));
    UndoSub(r);
    assert Unshifted(ShiftRows(SubBytes(r))) == r;
    if n == 0 {
      UndoKey(s, w, 0);
    } else {
      var m := ShiftRows(SubBytes(Rounds(s, w, n - 1)));
      UndoKey(MixColumns(m), w, n);
      UndoMix(m);
      InvRoundsUndo(s, w, n - 1);
    }
  }

  /** Decryption undoes encryption, for every state and whatever the round keys are. */
  lemma InvCipherUndoesCipher(s: State, w: Keys)
    ensures InvCipher(Cipher(s, w), w) == s
  {
    hide SubBytes, ShiftRows, AddKey, Rounds, InvRounds;
    UndoKey(ShiftRows(SubBytes(Rounds(s, w, FullRounds(w)))), w, NR);
    InvRoundsUndo(s, w, FullRounds(w));
  }

  // ---------- the key schedule ----------

  function Rcon(i: nat): bv8
    requires i <= NR
  {
    match i
    case 0 => 0x8d
    case 1 => 0x01
    case 2 => 0x02
    case 3 => 0x04
    case 4 => 0x08
    case 5 => 0x10
    case 6 => 0x20
    case 7 => 0x40
    case 8 => 0x80
    case 9 => 0x1b
    case _ => 0x36
  }

  /** The round constants are the powers of x in the field. */
  lemma RconPowers(i: nat)
    requires 1 <= i < NR
    ensures Rcon(1) == 1 && Rcon(i + 1) == Xtime(Rcon(i))
  {
    match i {
      case 1 => case 2 => case 3 => case 4 => case 5 => case 6 => case 7 => case 8 => case _ =>
    }
  }

  type Quad = q: Bytes | |q| == 4 witness [0, 0, 0, 0]

  function XorQuad(p: Quad, q: Quad): Quad { [Xor(p[0], q[0]), Xor(p[1], q[1]), Xor(p[2], q[2]), Xor(p[3], q[3])] }

  // SubWord( RotWord( q ) ) with the round constant added.
  function Turned(q: Quad, i: nat): Quad
    requires i <= NR
  {
    [Xor(Sbox(q[1]), Rcon(i)), Sbox(q[2]), Sbox(q[3]), Sbox(q[0])]
  }

  /** Word i of the expanded key. */
  function KeyWord(key: State, i: nat): Quad
    requires i < NB * (NR + 1)
  {
    if i < 4 then [key[4 * i], key[4 * i + 1], key[4 * i + 2], key[4 * i + 3]]
    else XorQuad(KeyWord(key, i - 4), if i % 4 == 0 then Turned(KeyWord(key, i - 1), i / 4) else KeyWord(key, i - 1))
  }

  ghost predicate IsSchedule(w: Keys, key: State) {
    forall i :: 0 <= i < NB * (NR + 1) ==> w[4 * i..4 * i + 4] == KeyWord(key, i)
  }

  // The first i words.
  ghost predicate AreWords(w: Bytes, key: State, i: nat)
    requires i <= NB * (NR + 1)
  {
    |w| == 4 * i && forall j :: 0 <= j < i ==> w[4 * j..4 * j + 4] == KeyWord(key, j)
  }

  lemma FirstWords(key: State)
    ensures AreWords(key, key, 4)
  {
  }

  lemma NextWord(w: Bytes, key: State, i: nat)
    requires 4 <= i < NB * (NR + 1) && AreWords(w, key, i)
    ensures var before := w[4 * (i - 1)..4 * (i - 1) + 4];
            KeyWord(key, i) == XorQuad(w[4 * (i - 4)..4 * (i - 4) + 4],
                                       if i % 4 == 0 then Turned(before, i / 4) else before)
  {
    hide XorQuad, Turned;
  }

  lemma OneMoreWord(w: Bytes, key: State, i: nat)
    requires i < NB * (NR + 1) && AreWords(w, key, i)
    ensures AreWords(w + KeyWord(key, i), key, i + 1)
  {
    hide KeyWord;
    var w1 := w + KeyWord(key, i);
    forall j | 0 <= j < i + 1 ensures w1[4 * j..4 * j + 4] == KeyWord(key, j) {
      if j < i {
        assert w1[4 * j..4 * j + 4] == w[4 * j..4 * j + 4];
      }
    }
  }

  // The polynomial x to the power n.
  function XPower(n: nat): bv8 { if n == 0 then 1 else Xtime(XPower(n - 1)) }

  lemma {:induction false} RconIsPower(i: nat)
    requires 1 <= i <= NR
    ensures Rcon(i) == XPower(i - 1)
  {
    if i > 1 {
      RconIsPower(i - 1);
      RconPowers(i - 1);
      hide Rcon;
    }
  }

  lemma WordByte(w: Keys, key: State, i: nat, r: nat)
    requires IsSchedule(w, key) && i < NB * (NR + 1) && r < 4
    ensures w[4 * i + r] == KeyWord(key, i)[r]
  {
    hide KeyWord;
    assert w[4 * i..4 * i + 4][r] == w[4 * i + r];
  }

  lemma PlainWord(key: State, i: nat, r: nat)
    requires 4 <= i < NB * (NR + 1) && i % 4 != 0 && r < 4
    ensures KeyWord(key, i)[r] == Xor(KeyWord(key, i - 4)[r], KeyWord(key, i - 1)[r])
  {
    hide Xor, Turned, XorQuad;
    var p, q := KeyWord(key, i - 4), KeyWord(key, i - 1);
    assert KeyWord(key, i) == XorQuad(p, q);
    hide KeyWord;
    QuadByte(p, q, r);
  }

  lemma QuadByte(p: Quad, q: Quad, r: nat)
    requires r < 4
    ensures XorQuad(p, q)[r] == Xor(p[r], q[r])
  {
    hide Xor;
  }

  lemma TurnedWord(key: State, i: nat, r: nat)
    requires 4 <= i < NB * (NR + 1) && i % 4 == 0 && r < 4
    ensures KeyWord(key, i)[r] == Xor(KeyWord(key, i - 4)[r], TurnedFrom(KeyWord(key, i - 1), i / 4, r))
  {
    hide Xor, Sbox, Rcon, XPower, Turned, XorQuad;
    var p, q := KeyWord(key, i - 4), KeyWord(key, i - 1);
    assert KeyWord(key, i) == XorQuad(p, Turned(q, i / 4));
    hide KeyWord;
    QuadByte(p, Turned(q, i / 4), r);
    RconIsPower(i / 4);
    TurnedByte(q, i / 4, r);
  }

  // Byte r of a word that is turned in round n.
  function TurnedFrom(q: Quad, n: nat, r: nat): bv8
    requires 1 <= n && r < 4
  {
    if r == 0 then Xor(Sbox(q[1]), XPower(n - 1)) else Sbox(q[(r + 1) % 4])
  }

  lemma TurnedByte(q: Quad, n: nat, r: nat)
    requires 1 <= n <= NR && r < 4 && Rcon(n) == XPower(n - 1)
    ensures Turned(q, n)[r] == TurnedFrom(q, n, r)
  {
    hide Sbox, Rcon, XPower, Xor;
  }

  lemma WordPlain(w: Keys, key: State, i: nat, r: nat)
    requires IsSchedule(w, key) && 4 <= i < NB * (NR + 1) && r < 4 && i % 4 != 0
    ensures w[4 * i + r] == Xor(w[4 * (i - 4) + r], w[4 * (i - 1) + r])
  {
    hide IsSchedule, KeyWord, Xor;
    WordByte(w, key, i, r);
    WordByte(w, key, i - 4, r);
    WordByte(w, key, i - 1, r);
    PlainWord(key, i, r);
  }

  lemma WordTurned(w: Keys, key: State, i: nat, r: nat)
    requires IsSchedule(w, key) && 4 <= i < NB * (NR + 1) && r < 4 && i % 4 == 0
    ensures r == 0 ==> w[4 * i] == Xor(w[4 * (i - 4)], Xor(Sbox(w[4 * (i - 1) + 1]), XPower(i / 4 - 1)))
    ensures r > 0 ==> w[4 * i + r] == Xor(w[4 * (i - 4) + r], Sbox(w[4 * (i - 1) + (r + 1) % 4]))
  {
    hide IsSchedule, KeyWord, Sbox, XPower, Xor;
    WordByte(w, key, i, r);
    WordByte(w, key, i - 4, r);
    WordByte(w, key, i - 1, (r + 1) % 4);
    TurnedWord(key, i, r);
  }

  /** The key expansion of section 5.2 of FIPS 197, byte by byte. */
  lemma ScheduleBytes(w: Keys, key: State)
    requires IsSchedule(w, key)
    ensures forall k :: 0 <= k < 16 ==> w[k] == key[k]
    ensures forall k :: 16 <= k < 176 && k % 16 >= 4 ==> w[k] == Xor(w[k - 16], w[k - 4])
    ensures forall k :: 16 <= k < 176 && k % 16 == 0 ==>
                          w[k] == Xor(w[k - 16], Xor(Sbox(w[k - 3]), XPower(k / 16 - 1)))
    ensures forall k :: 16 <= k < 176 && 1 <= k % 16 <= 2 ==> w[k] == Xor(w[k - 16], Sbox(w[k - 3]))
    ensures forall k :: 16 <= k < 176 && k % 16 == 3 ==> w[k] == Xor(w[k - 16], Sbox(w[k - 7]))
  {
    hide IsSchedule, Sbox, XPower, Xor;
    forall k | 0 <= k < 16 ensures w[k] == key[k] {
      FirstByte(w, key, k);
    }
    forall k | 16 <= k < 176
      ensures k % 16 >= 4 ==> w[k] == Xor(w[k - 16], w[k - 4])
      ensures k % 16 == 0 ==> w[k] == Xor(w[k - 16], Xor(Sbox(w[k - 3]), XPower(k / 16 - 1)))
      ensures 1 <= k % 16 <= 2 ==> w[k] == Xor(w[k - 16], Sbox(w[k - 3]))
      ensures k % 16 == 3 ==> w[k] == Xor(w[k - 16], Sbox(w[k - 7]))
    {
      ByteFrom(w, key, k);
    }
  }

  lemma FirstByte(w: Keys, key: State, k: nat)
    requires IsSchedule(w, key) && k < 16
    ensures w[k] == key[k]
  {
    WordByte(w, key, k / 4, k % 4);
  }

  lemma ByteFrom(w: Keys, key: State, k: nat)
    requires IsSchedule(w, key) && 16 <= k < 176
    ensures k % 16 >= 4 ==> w[k] == Xor(w[k - 16], w[k - 4])
    ensures k % 16 == 0 ==> w[k] == Xor(w[k - 16], Xor(Sbox(w[k - 3]), XPower(k / 16 - 1)))
    ensures 1 <= k % 16 <= 2 ==> w[k] == Xor(w[k - 16], Sbox(w[k - 3]))
    ensures k % 16 == 3 ==> w[k] == Xor(w[k - 16], Sbox(w[k - 7]))
  {
    hide IsSchedule, Sbox, XPower, Xor;
    var q, i, r := k / 16, k / 4, k % 4;
    if k % 16 >= 4 {
      assert k == 4 * i + r && i % 4 != 0;
      WordPlain(w, key, i, r);
    } else {
      assert k == 16 * q + r && i == 4 * q;
      WordTurned(w, key, i, r);
    }
  }

  // ---------- chaining ----------

  function XorBlock(s: State, t: State): State { seq(16, k requires 0 <= k < 16 => Xor(s[k], t[k])) }

  function CbcEncrypt(w: Keys, iv: State, m: Bytes): (c: Bytes)
    decreases |m|
  {
    hide Cipher, XorBlock;
    if |m| < 16 then [] else
      var c := Cipher(XorBlock(m[..16], iv), w);
      c + CbcEncrypt(w, c, m[16..])
  }

  function CbcDecrypt(w: Keys, iv: State, c: Bytes): (m: Bytes)
    decreases |c|
  {
    hide InvCipher, XorBlock;
    if |c| < 16 then [] else XorBlock(InvCipher(c[..16], w), iv) + CbcDecrypt(w, c[..16], c[16..])
  }

  lemma {:induction false} SameLength(w: Keys, iv: State, m: Bytes)
    requires |m| % 16 == 0
    ensures |CbcEncrypt(w, iv, m)| == |m| && |CbcDecrypt(w, iv, m)| == |m|
    decreases |m|
  {
    hide Cipher, InvCipher, XorBlock;
    if |m| >= 16 {
      SameLength(w, Cipher(XorBlock(m[..16], iv), w), m[16..]);
      SameLength(w, m[..16], m[16..]);
    }
  }

  lemma UndoXor(s: State, t: State)
    ensures XorBlock(XorBlock(s, t), t) == s
  {
    hide Xor;
    forall k | 0 <= k < 16 ensures XorBlock(XorBlock(s, t), t)[k] == s[k] {
      XorTwice(s[k], t[k]);
    }
  }

  /** Decrypting an encrypted message gives the message, for every key schedule, initial vector
      and message of whole blocks. */
  lemma {:induction false} CbcRoundTrip(w: Keys, iv: State, m: Bytes)
    requires |m| % 16 == 0
    ensures CbcDecrypt(w, iv, CbcEncrypt(w, iv, m)) == m
    decreases |m|
  {
    hide Cipher, InvCipher, XorBlock;
    if |m| >= 16 {
      var x := XorBlock(m[..16], iv);
      var c := Cipher(x, w);
      var e := CbcEncrypt(w, iv, m);
      assert e[..16] == c && e[16..] == CbcEncrypt(w, c, m[16..]);
      InvCipherUndoesCipher(x, w);
      UndoXor(m[..16], iv);
      CbcRoundTrip(w, c, m[16..]);
      assert m == m[..16] + m[16..];
    }
  }

  // The block that the next one is chained to.
  function LastBlock(iv: State, c: Bytes): State { if |c| < 16 then iv else c[|c| - 16..] }

  // Encrypting a message that starts with a given block.
  lemma EncryptFirst(w: Keys, iv: State, a: State, m: Bytes)
    ensures CbcEncrypt(w, iv, a + m) ==
            Cipher(XorBlock(a, iv), w) + CbcEncrypt(w, Cipher(XorBlock(a, iv), w), m)
  {
    hide Cipher, XorBlock;
    assert (a + m)[..16] == a && (a + m)[16..] == m;
  }

  lemma LastIsLater(iv: State, c: State, e: Bytes)
    requires |e| % 16 == 0
    ensures LastBlock(iv, c + e) == LastBlock(c, e)
  {
    if |e| < 16 {
      assert e == [] && c + e == c && c[0..] == c;
    }
  }

  lemma {:induction false} EncryptSnoc(w: Keys, iv: State, m: Bytes, b: State)
    requires |m| % 16 == 0
    ensures CbcEncrypt(w, iv, m + b) ==
            CbcEncrypt(w, iv, m) + Cipher(XorBlock(b, LastBlock(iv, CbcEncrypt(w, iv, m))), w)
    decreases |m|
  {
    hide Cipher, XorBlock, LastBlock, CbcEncrypt;
    if |m| < 16 {
      EncryptSnocEmpty(w, iv, m, b);
    } else {
      var a, rest := m[..16], m[16..];
      var c := Cipher(XorBlock(a, iv), w);
      var e := CbcEncrypt(w, c, rest);
      assert m == a + rest && m + b == a + (rest + b);
      EncryptFirst(w, iv, a, rest);
      EncryptFirst(w, iv, a, rest + b);
      EncryptSnoc(w, c, rest, b);
      SameLength(w, c, rest);
      LastIsLater(iv, c, e);
      JoinLast(c, e, Cipher(XorBlock(b, LastBlock(c, e)), w));
    }
  }

  lemma JoinLast(c: Bytes, e: Bytes, z: Bytes)
    ensures c + (e + z) == (c + e) + z
  {
  }

  lemma EncryptSnocEmpty(w: Keys, iv: State, m: Bytes, b: State)
    requires |m| % 16 == 0 && |m| < 16
    ensures CbcEncrypt(w, iv, m + b) ==
            CbcEncrypt(w, iv, m) + Cipher(XorBlock(b, LastBlock(iv, CbcEncrypt(w, iv, m))), w)
  {
    hide Cipher, XorBlock;
    assert m + b == b + [] && m == [];
    EncryptFirst(w, iv, b, []);
  }

  lemma {:induction false} DecryptSnoc(w: Keys, iv: State, c: Bytes, b: State)
    requires |c| % 16 == 0
    ensures CbcDecrypt(w, iv, c + b) == CbcDecrypt(w, iv, c) + XorBlock(InvCipher(b, w), LastBlock(iv, c))
    decreases |c|
  {
    hide InvCipher, XorBlock;
    if |c| < 16 {
      assert c + b == b && b[..16] == b && b[16..] == [];
    } else {
      assert (c + b)[..16] == c[..16] && (c + b)[16..] == c[16..] + b;
      DecryptSnoc(w, c[..16], c[16..], b);
      assert LastBlock(iv, c) == LastBlock(c[..16], c[16..]);
    }
  }

  // ---------- the code ----------

  class AesContext {
    var state: State
    var RoundKey: Keys
    var Iv: array<bv8>
    var ivAt: nat        // Iv points into its array

    constructor ()
    {
      state := seq(16, _ => 0);
      RoundKey := seq(176, _ => 0);
      Iv := new bv8[16];
      ivAt := 0;
    }

    /** KeyExpansion */
    method KeyExpansion(key: State)
      modifies this`RoundKey
      ensures IsSchedule(RoundKey, key)
      ensures forall k :: 0 <= k < 16 ==> RoundKey[k] == key[k]
      ensures forall k :: 16 <= k < 176 && k % 16 >= 4 ==> RoundKey[k] == Xor(RoundKey[k - 16], RoundKey[k - 4])
      ensures forall k :: 16 <= k < 176 && k % 16 == 0 ==>
                            RoundKey[k] == Xor(RoundKey[k - 16], Xor(Sbox(RoundKey[k - 3]), XPower(k / 16 - 1)))
      ensures forall k :: 16 <= k < 176 && 1 <= k % 16 <= 2 ==>
                            RoundKey[k] == Xor(RoundKey[k - 16], Sbox(RoundKey[k - 3]))
      ensures forall k :: 16 <= k < 176 && k % 16 == 3 ==>
                            RoundKey[k] == Xor(RoundKey[k - 16], Sbox(RoundKey[k - 7]))
    {
      hide KeyWord, Xor, Sbox, Turned, XorQuad, XPower;
      // round 0 uses the cipher key
      var w: Bytes := key;
      FirstWords(key);
      // each later word comes from the one before and the one four before
      for i := 4 to NB * (NR + 1)
        invariant AreWords(w, key, i)
      {
        NextWord(w, key, i);
        var tempa := w[4 * (i - 1)..4 * (i - 1) + 4];
        if i % 4 == 0 {
          tempa := Turned(tempa, i / 4);
        }
        var w1 := w + XorQuad(w[4 * (i - 4)..4 * (i - 4) + 4], tempa);
        OneMoreWord(w, key, i);
        w := w1;
      }
      RoundKey := w;
      ScheduleBytes(RoundKey, key);
    }

    method DoAddRoundKey(round: nat)
      requires round <= NR
      modifies this`state
      ensures state == AddKey(old(state), RoundKey, round)
    {
      for k := 0 to 16
        invariant forall j :: 0 <= j < 16 ==>
                  state[j] == if j < k then Xor(old(state)[j], RoundKey[16 * round + j]) else old(state)[j]
      {
        state := state[k := state[k] ^ RoundKey[16 * round + k]];
      }
    }

    method DoSubBytes()
      modifies this`state
      ensures state == SubBytes(old(state))
    {
      hide Sbox;
      for k := 0 to 16
        invariant forall j :: 0 <= j < 16 ==> state[j] == if j < k then Sbox(old(state)[j]) else old(state)[j]
      {
        state := state[k := Sbox(state[k])];
      }
    }

    method DoInvSubBytes()
      modifies this`state
      ensures state == InvSubBytes(old(state))
    {
      hide Rsbox;
      for k := 0 to 16
        invariant forall j :: 0 <= j < 16 ==> state[j] == if j < k then Rsbox(old(state)[j]) else old(state)[j]
      {
        state := state[k := Rsbox(state[k])];
      }
    }

    // temp = state[p]; state[p] = state[q]; state[q] = state[r]; state[r] = state[t]; state[t] = temp
    method Rotate(p: nat, q: nat, r: nat, t: nat)
      requires p < 16 && q < 16 && r < 16 && t < 16 && p != q && p != r && p != t && q != r && q != t && r != t
      modifies this`state
      ensures state == old(state)[p := old(state)[q]][q := old(state)[r]][r := old(state)[t]][t := old(state)[p]]
    {
      var temp := state[p];
      state := state[p := state[q]];
      state := state[q := state[r]];
      state := state[r := state[t]];
      state := state[t := temp];
    }

    method Swap(p: nat, q: nat)
      requires p < 16 && q < 16
      modifies this`state
      ensures state == old(state)[p := old(state)[q]][q := old(state)[p]]
    {
      var temp := state[p];
      state := state[p := state[q]];
      state := state[q := temp];
    }

    method DoShiftRows()
      modifies this`state
      ensures state == ShiftRows(old(state))
    {
      Rotate(1, 5, 9, 13);   // rotate first row 1 column to left
      Swap(2, 10);           // row 2 moves by two columns
      Swap(6, 14);
      Rotate(3, 15, 11, 7);  // row 3 moves by three columns
    }

    method DoInvShiftRows()
      modifies this`state
      ensures state == InvShiftRows(old(state))
    {
      Rotate(13, 9, 5, 1);   // rotate first row 1 column to right
      Swap(2, 10);           // row 2 moves back by two columns
      Swap(6, 14);
      Rotate(3, 7, 11, 15);  // row 3 moves back by three columns
    }

    method SetColumn(c: nat, q: Col)
      requires c < 4
      modifies this`state
      ensures state == old(state)[4 * c := q.a][4 * c + 1 := q.b][4 * c + 2 := q.c][4 * c + 3 := q.d]
    {
      state := state[4 * c := q.a];
      state := state[4 * c + 1 := q.b];
      state := state[4 * c + 2 := q.c];
      state := state[4 * c + 3 := q.d];
    }

    method DoMixColumns()
      modifies this`state
      ensures state == MixColumns(old(state))
    {
      hide MixCol, Column, MixColumns;
      for c := 0 to 4
        invariant forall d :: 0 <= d < 4 ==>
                  Column(state, d) == if d < c then MixCol(Column(old(state), d)) else Column(old(state), d)
      {
        ghost var s := state;
        SetColumn(c, MixCol(Column(state, c)));
        ColumnsSet(s, state, c, MixCol(Column(s, c)));
      }
      ColumnsOfMixColumns(old(state));
      ColumnsAre(state, MixColumns(old(state)));
    }

    method DoInvMixColumns()
      modifies this`state
      ensures state == InvMixColumns(old(state))
    {
      hide InvMixCol, Column, InvMixColumns;
      for c := 0 to 4
        invariant forall d :: 0 <= d < 4 ==>
                  Column(state, d) == if d < c then InvMixCol(Column(old(state), d)) else Column(old(state), d)
      {
        ghost var s := state;
        SetColumn(c, InvMixCol(Column(state, c)));
        ColumnsSet(s, state, c, InvMixCol(Column(s, c)));
      }
      ColumnsOfInvMixColumns(old(state));
      ColumnsAre(state, InvMixColumns(old(state)));
    }

    method DoCipher()
      modifies this`state
      ensures state == Cipher(old(state), RoundKey)
    {
      hide SubBytes, ShiftRows, MixColumns, AddKey;
      ghost var s := state;
      DoAddRoundKey(0);
      for round := 1 to NR
        invariant state == Rounds(s, RoundKey, round - 1)
      {
        DoSubBytes();
        DoShiftRows();
        DoMixColumns();
        DoAddRoundKey(round);
      }
      DoSubBytes();
      DoShiftRows();
      DoAddRoundKey(NR);
    }

    method DoInvCipher()
      modifies this`state
      ensures state == InvCipher(old(state), RoundKey)
    {
      hide InvSubBytes, InvShiftRows, InvMixColumns, AddKey;
      ghost var s := state;
      DoAddRoundKey(NR);
      var round := NR - 1;
      while round > 0
        invariant 0 <= round < NR && InvRounds(state, RoundKey, round) == InvCipher(s, RoundKey)
        decreases round
      {
        DoInvShiftRows();
        DoInvSubBytes();
        DoAddRoundKey(round);
        DoInvMixColumns();
        round := round - 1;
      }
      DoInvShiftRows();
      DoInvSubBytes();
      DoAddRoundKey(0);
    }

    // ---------- buffers ----------

    method BlockCopy(output: array<bv8>, o: nat, input: array<bv8>, i: nat)
      requires o + 16 <= output.Length && i + 16 <= input.Length && output != input
      modifies output
      ensures output[o..o + 16] == input[i..i + 16]
      ensures output[..o] == old(output[..o]) && output[o + 16..] == old(output[o + 16..])
    {
      for k := 0 to 16
        invariant forall j :: o <= j < o + k ==> output[j] == input[i + j - o]
        invariant forall j :: 0 <= j < output.Length && !(o <= j < o + k) ==> output[j] == old(output[j])
      {
        output[o + k] := input[i + k];
      }
      assert forall j :: o <= j < o + 16 ==> output[j] == input[i + j - o];
      assert output[..o] == old(output[..o]);
      assert output[o + 16..] == old(output[o + 16..]);
    }

    method XorWithIv(buf: array<bv8>, b: nat)
      requires b + 16 <= buf.Length && buf != Iv && ivAt + 16 <= Iv.Length
      modifies buf
      ensures buf[b..b + 16] == XorBlock(old(buf[b..b + 16]), Iv[ivAt..ivAt + 16])
      ensures buf[..b] == old(buf[..b]) && buf[b + 16..] == old(buf[b + 16..])
    {
      ghost var s, v := buf[b..b + 16], Iv[ivAt..ivAt + 16];
      for k := 0 to 16
        invariant Iv[ivAt..ivAt + 16] == v
        invariant forall j :: b <= j < b + 16 ==> buf[j] == if j < b + k then Xor(s[j - b], v[j - b]) else s[j - b]
        invariant forall j :: 0 <= j < buf.Length && !(b <= j < b + 16) ==> buf[j] == old(buf[j])
      {
        assert buf[b + k] == s[k] && Iv[ivAt + k] == v[k];
        buf[b + k] := buf[b + k] ^ Iv[ivAt + k];
      }
      forall k | 0 <= k < 16 ensures buf[b..b + 16][k] == XorBlock(s, v)[k] {
        assert buf[b..b + 16][k] == buf[b + k];
      }
    }

    // The block of the output that `state' stands for is written back.
    method StoreState(output: array<bv8>, o: nat)
      requires o + 16 <= output.Length
      modifies output
      ensures output[o..o + 16] == state
      ensures output[..o] == old(output[..o]) && output[o + 16..] == old(output[o + 16..])
    {
      for k := 0 to 16
        invariant forall j :: o <= j < o + k ==> output[j] == state[j - o]
        invariant forall j :: 0 <= j < output.Length && !(o <= j < o + k) ==> output[j] == old(output[j])
      {
        output[o + k] := state[k];
      }
    }

    // One block of the loop of AES128_CBC_encrypt_buffer.
    method EncryptBlock(output: array<bv8>, input: array<bv8>, i: nat, ghost v: State, ghost m: Bytes)
      requires i % 16 == 0 && i + 16 <= |m| && |m| <= output.Length && |m| <= input.Length && output != input
      requires Iv != input && ivAt + 16 <= Iv.Length && Iv[ivAt..ivAt + 16] == LastBlock(v, output[..i])
      requires output[..i] == CbcEncrypt(RoundKey, v, m[..i]) && input[i..|m|] == m[i..]
      modifies this`state, this`Iv, this`ivAt, output, input
      ensures output[..i + 16] == CbcEncrypt(RoundKey, v, m[..i + 16]) && input[i + 16..|m|] == m[i + 16..]
      ensures Iv == output && ivAt == i && Iv[ivAt..ivAt + 16] == LastBlock(v, output[..i + 16])
    {
      hide Cipher, XorBlock, CbcEncrypt, LastBlock;
      ghost var done, b := output[..i], m[i..i + 16];
      ghost var last := LastBlock(v, done);
      assert input[i..|m|][..16] == input[i..i + 16] && m[i..][..16] == b;
      ghost var rest := input[i + 16..];
      assert input[i..|m|][16..] == input[i + 16..|m|] && m[i..][16..] == m[i + 16..];
      XorWithIv(input, i);
      BlockCopy(output, i, input, i);
      state := output[i..i + 16];
      DoCipher();
      StoreState(output, i);
      EncryptSnoc(RoundKey, v, m[..i], b);
      assert m[..i] + b == m[..i + 16];
      assert output[..i] == done;
      assert output[..i + 16] == done + output[i..i + 16];
      Iv, ivAt := output, i;
      LastIs(v, done, output[i..i + 16]);
      assert input[i + 16..|m|] == rest[..|m| - i - 16];
    }

    /** AES128_CBC_encrypt_buffer: the output is the encrypted input. (The input is overwritten
        on the way.) */
    method EncryptBuffer(output: array<bv8>, input: array<bv8>, length: nat, key: array?<bv8>, iv: array<bv8>)
      requires length % 16 == 0 && 16 <= output.Length && 16 <= input.Length
      requires length <= output.Length && length <= input.Length
      requires output != input && iv.Length == 16 && iv != output && iv != input
      requires key != null ==> key.Length == 16 && key != output
      modifies this, output, input
      ensures key != null ==> IsSchedule(RoundKey, old(key[..]))
      ensures key == null ==> RoundKey == old(RoundKey)
      ensures output[..length] == CbcEncrypt(RoundKey, old(iv[..]), old(input[..length]))
    {
      hide IsSchedule, CbcEncrypt;
      BlockCopy(output, 0, input, 0);
      if key != null {
        KeyExpansion(key[..]);
      }
      Iv, ivAt := iv, 0;
      assert iv[0..16] == iv[..];
      EncryptBlocks(output, input, length, iv[..]);
    }

    method EncryptBlocks(output: array<bv8>, input: array<bv8>, length: nat, ghost v: State)
      requires length % 16 == 0 && length <= output.Length && length <= input.Length && output != input
      requires Iv != input && ivAt + 16 <= Iv.Length && Iv[ivAt..ivAt + 16] == v
      modifies this`state, this`Iv, this`ivAt, output, input
      ensures output[..length] == CbcEncrypt(RoundKey, v, old(input[..length]))
    {
      hide CbcEncrypt, LastBlock;
      ghost var w, m := RoundKey, input[..length];
      NothingYet(w, v);
      assert output[..0] == [] && m[..0] == [];
      var i := 0;
      while i < length
        invariant 0 <= i <= length && i % 16 == 0 && RoundKey == w
        invariant Iv != input && ivAt + 16 <= Iv.Length && Iv[ivAt..ivAt + 16] == LastBlock(v, output[..i])
        invariant output[..i] == CbcEncrypt(w, v, m[..i]) && input[i..length] == m[i..]
        decreases length - i
      {
        EncryptBlock(output, input, i, v, m);
        i := i + 16;
      }
      assert m[..length] == m;
    }

    // One block of the loop of AES128_CBC_decrypt_buffer.
    method DecryptBlock(output: array<bv8>, input: array<bv8>, i: nat, ghost v: State, ghost c: Bytes)
      requires i % 16 == 0 && i + 16 <= |c| && |c| <= output.Length && |c| <= input.Length && output != input
      requires Iv != output && ivAt + 16 <= Iv.Length && Iv[ivAt..ivAt + 16] == LastBlock(v, c[..i])
      requires output[..i] == CbcDecrypt(RoundKey, v, c[..i]) && input[..|c|] == c
      modifies this`state, this`Iv, this`ivAt, output
      ensures output[..i + 16] == CbcDecrypt(RoundKey, v, c[..i + 16])
      ensures Iv == input && ivAt == i && Iv[ivAt..ivAt + 16] == LastBlock(v, c[..i + 16])
    {
      hide InvCipher, XorBlock, CbcDecrypt, LastBlock;
      ghost var done, b := output[..i], c[i..i + 16];
      SliceOfPrefix(input, i, c);
      BlockCopy(output, i, input, i);
      state := output[i..i + 16];
      DoInvCipher();
      StoreState(output, i);
      XorWithIv(output, i);
      DecryptSnoc(RoundKey, v, c[..i], b);
      assert c[..i] + b == c[..i + 16];
      assert output[..i] == done;
      assert output[..i + 16] == done + output[i..i + 16];
      Iv, ivAt := input, i;
      LastIs(v, c[..i], b);
    }

    /** AES128_CBC_decrypt_buffer */
    method DecryptBuffer(output: array<bv8>, input: array<bv8>, length: nat, key: array?<bv8>, iv: array<bv8>)
      requires length % 16 == 0 && 16 <= output.Length && 16 <= input.Length
      requires length <= output.Length && length <= input.Length
      requires output != input && iv.Length == 16 && iv != output
      requires key != null ==> key.Length == 16 && key != output
      modifies this, output
      ensures key != null ==> IsSchedule(RoundKey, old(key[..]))
      ensures key == null ==> RoundKey == old(RoundKey)
      ensures output[..length] == CbcDecrypt(RoundKey, iv[..], input[..length])
    {
      hide IsSchedule, CbcDecrypt;
      BlockCopy(output, 0, input, 0);
      if key != null {
        KeyExpansion(key[..]);
      }
      Iv, ivAt := iv, 0;
      assert iv[0..16] == iv[..];
      DecryptBlocks(output, input, length, iv[..]);
    }

    method DecryptBlocks(output: array<bv8>, input: array<bv8>, length: nat, ghost v: State)
      requires length % 16 == 0 && length <= output.Length && length <= input.Length && output != input
      requires Iv != output && ivAt + 16 <= Iv.Length && Iv[ivAt..ivAt + 16] == v
      modifies this`state, this`Iv, this`ivAt, output
      ensures output[..length] == CbcDecrypt(RoundKey, v, input[..length])
    {
      hide CbcDecrypt, LastBlock;
      ghost var w, c := RoundKey, input[..length];
      NothingYet(w, v);
      assert output[..0] == [] && c[..0] == [];
      var i := 0;
      while i < length
        invariant 0 <= i <= length && i % 16 == 0 && RoundKey == w && input[..length] == c
        invariant Iv != output && ivAt + 16 <= Iv.Length && Iv[ivAt..ivAt + 16] == LastBlock(v, c[..i])
        invariant output[..i] == CbcDecrypt(w, v, c[..i])
        decreases length - i
      {
        DecryptBlock(output, input, i, v, c);
        i := i + 16;
      }
      assert c[..length] == c;
    }
  }

  /** What encrypt writes, decrypt turns back into the message. */
  method CbcRoundTripBuffers(message: seq<bv8>, key: array<bv8>, iv: array<bv8>) returns (result: seq<bv8>)
    requires |message| % 16 == 0 && key.Length == 16 && iv.Length == 16
    ensures result == message
  {
    hide CbcEncrypt, CbcDecrypt;
    var n := |message|;
    var input := new bv8[n + 16];
    forall k | 0 <= k < n { input[k] := message[k]; }
    var output := new bv8[n + 16];
    var plain := new bv8[n + 16];
    assert input[..n] == message;
    var ctx := new AesContext();
    ctx.EncryptBuffer(output, input, n, key, iv);
    ghost var w := ctx.RoundKey;
    ctx.DecryptBuffer(plain, output, n, null, iv);
    CbcRoundTrip(w, iv[..], message);
    result := plain[..n];
  }

  lemma NothingYet(w: Keys, v: State)
    ensures CbcEncrypt(w, v, []) == [] && CbcDecrypt(w, v, []) == [] && LastBlock(v, []) == v
  {
  }

  lemma LastIs(v: State, c: Bytes, b: State)
    ensures LastBlock(v, c + b) == b
  {
  }

  // ---------- columns ----------

  lemma ColumnsSet(s: State, s1: State, c: nat, q: Col)
    requires c < 4 && s1 == s[4 * c := q.a][4 * c + 1 := q.b][4 * c + 2 := q.c][4 * c + 3 := q.d]
    ensures forall d :: 0 <= d < 4 ==> Column(s1, d) == if d == c then q else Column(s, d)
  {
  }

  lemma ColumnsOfMixColumns(s: State)
    ensures forall d :: 0 <= d < 4 ==> Column(MixColumns(s), d) == MixCol(Column(s, d))
  {
    hide MixCol;
  }

  lemma ColumnsOfInvMixColumns(s: State)
    ensures forall d :: 0 <= d < 4 ==> Column(InvMixColumns(s), d) == InvMixCol(Column(s, d))
  {
    hide InvMixCol;
  }

  lemma ColumnsAre(s: State, t: State)
    requires forall d :: 0 <= d < 4 ==> Column(s, d) == Column(t, d)
    ensures s == t
  {
    assert Column(s, 0) == Column(t, 0) && Column(s, 1) == Column(t, 1);
    assert Column(s, 2) == Column(t, 2) && Column(s, 3) == Column(t, 3);
  }

  lemma SliceOfPrefix(a: array<bv8>, i: nat, c: Bytes)
    requires i + 16 <= |c| <= a.Length && a[..|c|] == c
    ensures a[i..i + 16] == c[i..i + 16]
  {
    assert a[..|c|][i..i + 16] == a[i..i + 16];
  }
}
