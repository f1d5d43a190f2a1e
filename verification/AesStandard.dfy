/** What aes.c computes, in the terms of FIPS 197 and SP 800-38A alone: byte by byte, over the field. */
module AesStandard {
  import opened AesMix
  import opened AesTables
  import opened AesField
  import opened Aes

  // ---------- the rounds, section 5.1 of FIPS 197 ----------

  // Byte r of column c after SubBytes and ShiftRows.
  lemma ShiftedByte(prev: State, c: nat, r: nat)
    requires c < 4 && r < 4
    ensures ShiftRows(SubBytes(prev))[4 * c + r] == Sbox(prev[4 * ((c + r) % 4) + r])
  {
    hide Sbox, ShiftRows;
    ShiftsRows(SubBytes(prev), c, r);
  }

  // Row r of the product of a column with the matrix.
  lemma MatrixRows(a: bv8, b: bv8, c: bv8, d: bv8)
    ensures MixCol(Col(a, b, c, d)) ==
            Col(Sum4(Mul(a, 0x02), Mul(b, 0x03), c, d), Sum4(Mul(b, 0x02), Mul(c, 0x03), d, a),
                Sum4(Mul(c, 0x02), Mul(d, 0x03), a, b), Sum4(Mul(d, 0x02), Mul(a, 0x03), b, c))
  {
    hide Sum4, Mul, MixCol;
    MixColIsMatrix(Col(a, b, c, d));
    Rotations(Mul(b, 0x02), Mul(c, 0x03), d, a);
    Rotations(Mul(c, 0x02), Mul(d, 0x03), a, b);
    Rotations(Mul(d, 0x02), Mul(a, 0x03), b, c);
  }

  lemma KeyByte(s: State, w: Keys, n: nat, k: nat)
    requires n <= NR && k < 16
    ensures AddKey(s, w, n)[k] == Xor(s[k], w[16 * n + k])
  {
    hide Xor;
  }

  /** At first the first round key is added. */
  lemma FirstRound(s: State, w: Keys, k: nat)
    requires k < 16
    ensures Rounds(s, w, 0)[k] == Xor(s[k], w[k])
  {
    hide AddKey, Xor;
    KeyByte(s, w, 0, k);
  }

  /** Round n of the nine full ones, column c: the four bytes that the rotation of the rows brings there are
      substituted, multiplied with the matrix of section 5.1.3, and get the round key of number n. */
  lemma MiddleRound(s: State, w: Keys, n: nat, c: nat)
    requires 1 <= n < 10 && c < 4
    ensures var prev, st := Rounds(s, w, n - 1), Rounds(s, w, n);
            var p, q := Sbox(prev[4 * c]), Sbox(prev[4 * ((c + 1) % 4) + 1]);
            var t, u := Sbox(prev[4 * ((c + 2) % 4) + 2]), Sbox(prev[4 * ((c + 3) % 4) + 3]);
            && st[4 * c] == Xor(Sum4(Mul(p, 0x02), Mul(q, 0x03), t, u), w[16 * n + 4 * c])
            && st[4 * c + 1] == Xor(Sum4(Mul(q, 0x02), Mul(t, 0x03), u, p), w[16 * n + 4 * c + 1])
            && st[4 * c + 2] == Xor(Sum4(Mul(t, 0x02), Mul(u, 0x03), p, q), w[16 * n + 4 * c + 2])
            && st[4 * c + 3] == Xor(Sum4(Mul(u, 0x02), Mul(p, 0x03), q, t), w[16 * n + 4 * c + 3])
  {
    hide Sbox, Mul, Sum4, Xor, AddKey, MixColumns, ShiftRows, SubBytes;
    RoundColumn(Rounds(s, w, n - 1), w, n, c);
  }

  lemma RoundColumn(prev: State, w: Keys, n: nat, c: nat)
    requires 1 <= n < 10 && c < 4
    ensures var st := AddKey(MixColumns(ShiftRows(SubBytes(prev))), w, n);
            var p, q := Sbox(prev[4 * c]), Sbox(prev[4 * ((c + 1) % 4) + 1]);
            var t, u := Sbox(prev[4 * ((c + 2) % 4) + 2]), Sbox(prev[4 * ((c + 3) % 4) + 3]);
            && st[4 * c] == Xor(Sum4(Mul(p, 0x02), Mul(q, 0x03), t, u), w[16 * n + 4 * c])
            && st[4 * c + 1] == Xor(Sum4(Mul(q, 0x02), Mul(t, 0x03), u, p), w[16 * n + 4 * c + 1])
            && st[4 * c + 2] == Xor(Sum4(Mul(t, 0x02), Mul(u, 0x03), p, q), w[16 * n + 4 * c + 2])
            && st[4 * c + 3] == Xor(Sum4(Mul(u, 0x02), Mul(p, 0x03), q, t), w[16 * n + 4 * c + 3])
  {
    hide Sbox, Mul, Sum4, Xor, MixCol, AddKey, MixColumns, ShiftRows, SubBytes;
    var m := ShiftRows(SubBytes(prev));
    ShiftedByte(prev, c, 0);
    ShiftedByte(prev, c, 1);
    ShiftedByte(prev, c, 2);
    ShiftedByte(prev, c, 3);
    ColumnsOfMixColumns(m);
    MatrixRows(m[4 * c], m[4 * c + 1], m[4 * c + 2], m[4 * c + 3]);
    KeyColumn(MixColumns(m), w, n, c);
  }

  lemma KeyColumn(x: State, w: Keys, n: nat, c: nat)
    requires n <= NR && c < 4
    ensures var st, p := AddKey(x, w, n), Column(x, c);
            && st[4 * c] == Xor(p.a, w[16 * n + 4 * c]) && st[4 * c + 1] == Xor(p.b, w[16 * n + 4 * c + 1])
            && st[4 * c + 2] == Xor(p.c, w[16 * n + 4 * c + 2]) && st[4 * c + 3] == Xor(p.d, w[16 * n + 4 * c + 3])
  {
    hide Xor, AddKey;
    KeyByte(x, w, n, 4 * c);
    KeyByte(x, w, n, 4 * c + 1);
    KeyByte(x, w, n, 4 * c + 2);
    KeyByte(x, w, n, 4 * c + 3);
  }

  /** The tenth round has no MixColumns and uses the last round key. */
  lemma LastRound(s: State, w: Keys, c: nat, r: nat)
    requires c < 4 && r < 4
    ensures Cipher(s, w)[4 * c + r] == Xor(Sbox(Rounds(s, w, 9)[4 * ((c + r) % 4) + r]), w[160 + 4 * c + r])
  {
    hide Sbox, Xor, AddKey, ShiftRows, SubBytes, Rounds;
    var prev := Rounds(s, w, 9);
    ShiftedByte(prev, c, r);
    KeyByte(ShiftRows(SubBytes(prev)), w, 10, 4 * c + r);
  }

  // ---------- chaining, section 6.2 of SP 800-38A ----------

  // The block of the message with the one before it in the ciphertext added.
  ghost predicate IsSum(x: State, s: State, t: State) { forall k :: 0 <= k < 16 ==> x[k] == Xor(s[k], t[k]) }

  lemma SumIsXorBlock(x: State, s: State, t: State)
    requires IsSum(x, s, t)
    ensures x == XorBlock(s, t)
  {
    hide Xor;
  }

  /** The first block of the ciphertext is the cipher of the first block of the message xored with the initial
      vector, and the rest is the encryption of the rest with that block as its initial vector. */
  lemma CbcBlocks(w: Keys, iv: State, a: State, rest: Bytes, x: State)
    requires forall k :: 0 <= k < 16 ==> x[k] == Xor(a[k], iv[k])
    ensures CbcEncrypt(w, iv, a + rest) == Cipher(x, w) + CbcEncrypt(w, Cipher(x, w), rest)
    ensures CbcEncrypt(w, iv, []) == []
  {
    assert IsSum(x, a, iv);
    SumIsXorBlock(x, a, iv);
    EncryptFirst(w, iv, a, rest);
    hide Cipher, XorBlock;
  }

  // ---------- worked examples ----------

  /** Values that FIPS 197 gives: sections 4.2, 4.2.1, 5.1.1, 5.1.3 (as in appendix B) and appendix A.1. */
  lemma FieldExamples()
    ensures Mul(0x57, 0x83) == 0xc1 && Mul(0x57, 0x13) == 0xfe
    ensures Xtime(0x57) == 0xae && Xtime(0xae) == 0x47 && Xtime(0x47) == 0x8e && Xtime(0x8e) == 0x07
    ensures Sbox(0x53) == 0xed && Sbox(0x00) == 0x63 && Rsbox(0xed) == 0x53 && Xor(0x53, 0xed) == 0xbe
  {
  }

  lemma ColumnExample()
    ensures MixCol(Col(0xd4, 0xbf, 0x5d, 0x30)) == Col(0x04, 0x66, 0x81, 0xe5)
  {
  }

  lemma KeyExample()
    ensures var key := [0x2b, 0x7e, 0x15, 0x16, 0x28, 0xae, 0xd2, 0xa6, 0xab, 0xf7, 0x15, 0x88, 0x09, 0xcf, 0x4f, 0x3c];
            KeyWord(key, 4) == [0xa0, 0xfa, 0xfe, 0x17] && KeyWord(key, 5) == [0x88, 0x54, 0x2c, 0xb1]
  {
    var key := [0x2b, 0x7e, 0x15, 0x16, 0x28, 0xae, 0xd2, 0xa6, 0xab, 0xf7, 0x15, 0x88, 0x09, 0xcf, 0x4f, 0x3c];
    assert Turned([0x09, 0xcf, 0x4f, 0x3c], 1) == [0x8b, 0x84, 0xeb, 0x01];
    hide Turned;
    assert KeyWord(key, 0) == [0x2b, 0x7e, 0x15, 0x16] && KeyWord(key, 3) == [0x09, 0xcf, 0x4f, 0x3c];
    assert KeyWord(key, 1) == [0x28, 0xae, 0xd2, 0xa6];
    assert KeyWord(key, 4) == XorQuad(KeyWord(key, 0), [0x8b, 0x84, 0xeb, 0x01]);
    assert KeyWord(key, 5) == XorQuad(KeyWord(key, 1), KeyWord(key, 4));
  }
}
