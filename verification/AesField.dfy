/** The arithmetic by which FIPS 197 defines AES, and that the shortcuts and tables of aes.c compute it. */
module AesField {
  import opened AesMix
  import opened AesTables

  // ---------- the field GF(2^8), section 4.2 of FIPS 197 ----------

  // The product of two polynomials over GF(2).
  function Product(x: bv8, y: bv8): bv16 {
    var w := x as bv16;
    (if y & 0x01 != 0 then w else 0) ^ (if y & 0x02 != 0 then w << 1 else 0)
    ^ (if y & 0x04 != 0 then w << 2 else 0) ^ (if y & 0x08 != 0 then w << 3 else 0)
    ^ (if y & 0x10 != 0 then w << 4 else 0) ^ (if y & 0x20 != 0 then w << 5 else 0)
    ^ (if y & 0x40 != 0 then w << 6 else 0) ^ (if y & 0x80 != 0 then w << 7 else 0)
  }

  // One step of a division: the power of x in `top' goes.
  function Fold(p: bv16, top: bv16, multiple: bv16): bv16 { if p & top != 0 then p ^ multiple else p }

  // The remainder of the division by x^8 + x^4 + x^3 + x + 1.
  function Remainder(p: bv16): bv16 {
    Fold(Fold(Fold(Fold(Fold(Fold(Fold(p, 0x4000, 0x11b << 6), 0x2000, 0x11b << 5), 0x1000, 0x11b << 4),
                             0x0800, 0x11b << 3), 0x0400, 0x11b << 2), 0x0200, 0x11b << 1), 0x0100, 0x11b)
  }

  function Mul(x: bv8, y: bv8): bv8 { (Remainder(Product(x, y)) & 0xff) as bv8 }

  /** xtime multiplies by x. */
  lemma XtimeIsMul(x: bv8)
    ensures Mul(x, 0x02) == Xtime(x)
  {
  }

  lemma Three(x: bv8)
    ensures Mul(x, 0x03) == Xor(Xtime(x), x)
  {
  }

  // The four factors of the inverse, one by one.
  lemma Nine(x: bv8)
    ensures Multiply(x, 0x09) == Mul(x, 0x09)
  {
  }

  lemma Eleven(x: bv8)
    ensures Multiply(x, 0x0b) == Mul(x, 0x0b)
  {
  }

  lemma Thirteen(x: bv8)
    ensures Multiply(x, 0x0d) == Mul(x, 0x0d)
  {
  }

  lemma Fourteen(x: bv8)
    ensures Multiply(x, 0x0e) == Mul(x, 0x0e)
  {
  }

  // ---------- MixColumns, sections 5.1.3 and 5.3.3 ----------

  lemma MixByteIs(a: bv8, b: bv8, c: bv8, d: bv8, t: bv8)
    requires t == Sum4(a, b, c, d)
    ensures MixByte(a, b, t) == Sum4(Xtime(a), Xor(Xtime(b), b), c, d)
  {
    XtimeLinear(a, b);
    hide Xtime;
  }

  lemma Rotations(a: bv8, b: bv8, c: bv8, d: bv8)
    ensures Sum4(a, b, c, d) == Sum4(b, c, d, a) == Sum4(c, d, a, b) == Sum4(d, a, b, c)
  {
    hide Sum4;
    Rotation(a, b, c, d);
    Rotation(b, c, d, a);
    Rotation(c, d, a, b);
  }

  lemma Rotation(a: bv8, b: bv8, c: bv8, d: bv8)
    ensures Sum4(a, b, c, d) == Sum4(b, c, d, a)
  {
    hide Sum4, Sum3, Xor;
    SumsAreXor(a, b, c, d);
    SumsAreXor(b, c, d, a);
    XorAssoc(a, b, c);
    XorAssoc(a, Xor(b, c), d);
    XorComm(a, Xor(Xor(b, c), d));
  }

  /** A mixed column is the product with the matrix of equation 5.6. */
  lemma MixColIsMatrix(s: Col)
    ensures MixCol(s) == Col(Sum4(Mul(s.a, 0x02), Mul(s.b, 0x03), s.c, s.d),
                             Sum4(s.a, Mul(s.b, 0x02), Mul(s.c, 0x03), s.d),
                             Sum4(s.a, s.b, Mul(s.c, 0x02), Mul(s.d, 0x03)),
                             Sum4(Mul(s.a, 0x03), s.b, s.c, Mul(s.d, 0x02)))
  {
    hide Sum4, MixByte, Mul, Xtime, Xor;
    var t := Sum4(s.a, s.b, s.c, s.d);
    XtimeIsMul(s.a);
    XtimeIsMul(s.b);
    XtimeIsMul(s.c);
    XtimeIsMul(s.d);
    Three(s.a);
    Three(s.b);
    Three(s.c);
    Three(s.d);
    Rotations(s.a, s.b, s.c, s.d);
    MixByteIs(s.a, s.b, s.c, s.d, t);
    MixByteIs(s.b, s.c, s.d, s.a, t);
    MixByteIs(s.c, s.d, s.a, s.b, t);
    MixByteIs(s.d, s.a, s.b, s.c, t);
    Rotations(Mul(s.b, 0x02), Mul(s.c, 0x03), s.d, s.a);
    Rotations(Mul(s.c, 0x02), Mul(s.d, 0x03), s.a, s.b);
    Rotations(Mul(s.d, 0x02), Mul(s.a, 0x03), s.b, s.c);
  }

  /** The inverse is the product with the matrix of equation 5.10. */
  lemma InvMixColIsMatrix(s: Col)
    ensures InvMixCol(s) ==
            Col(Sum4(Mul(s.a, 0x0e), Mul(s.b, 0x0b), Mul(s.c, 0x0d), Mul(s.d, 0x09)),
                Sum4(Mul(s.a, 0x09), Mul(s.b, 0x0e), Mul(s.c, 0x0b), Mul(s.d, 0x0d)),
                Sum4(Mul(s.a, 0x0d), Mul(s.b, 0x09), Mul(s.c, 0x0e), Mul(s.d, 0x0b)),
                Sum4(Mul(s.a, 0x0b), Mul(s.b, 0x0d), Mul(s.c, 0x09), Mul(s.d, 0x0e)))
  {
    hide Sum4, Mul, Multiply;
    Factored(s.a);
    Factored(s.b);
    Factored(s.c);
    Factored(s.d);
  }

  lemma Factored(x: bv8)
    ensures Multiply(x, 0x09) == Mul(x, 0x09) && Multiply(x, 0x0b) == Mul(x, 0x0b)
    ensures Multiply(x, 0x0d) == Mul(x, 0x0d) && Multiply(x, 0x0e) == Mul(x, 0x0e)
  {
    hide Mul, Multiply;
    Nine(x);
    Eleven(x);
    Thirteen(x);
    Fourteen(x);
  }

  // ---------- the S-box, section 5.1.1 ----------

  // Equation 5.1: bit i of the result is the sum of the bits i, i+4, i+5, i+6 and i+7 and of bit i of 0x63.
  function Affine(b: bv8): bv8 {
    b ^ ((b << 1) | (b >> 7)) ^ ((b << 2) | (b >> 6)) ^ ((b << 3) | (b >> 5)) ^ ((b << 4) | (b >> 4)) ^ 0x63
  }

  // What undoes it.
  function InvAffine(z: bv8): bv8 {
    ((z << 1) | (z >> 7)) ^ ((z << 3) | (z >> 5)) ^ ((z << 6) | (z >> 2)) ^ 0x05
  }

  lemma Exists00(x: bv8)
    requires 1 <= x < 0x08
    ensures Mul(x, InvAffine(Sbox(x))) == 1
  {
  }

  lemma Exists08(x: bv8)
    requires 0x08 <= x < 0x10
    ensures Mul(x, InvAffine(Sbox(x))) == 1
  {
  }

  lemma Exists10(x: bv8)
    requires 0x10 <= x < 0x18
    ensures Mul(x, InvAffine(Sbox(x))) == 1
  {
  }

  lemma Exists18(x: bv8)
    requires 0x18 <= x < 0x20
    ensures Mul(x, InvAffine(Sbox(x))) == 1
  {
  }

  lemma Exists20(x: bv8)
    requires 0x20 <= x < 0x28
    ensures Mul(x, InvAffine(Sbox(x))) == 1
  {
  }

  lemma Exists28(x: bv8)
    requires 0x28 <= x < 0x30
    ensures Mul(x, InvAffine(Sbox(x))) == 1
  {
  }

  lemma Exists30(x: bv8)
    requires 0x30 <= x < 0x38
    ensures Mul(x, InvAffine(Sbox(x))) == 1
  {
  }

  lemma Exists38(x: bv8)
    requires 0x38 <= x < 0x40
    ensures Mul(x, InvAffine(Sbox(x))) == 1
  {
  }

  lemma Exists40(x: bv8)
    requires 0x40 <= x < 0x48
    ensures Mul(x, InvAffine(Sbox(x))) == 1
  {
  }

  lemma Exists48(x: bv8)
    requires 0x48 <= x < 0x50
    ensures Mul(x, InvAffine(Sbox(x))) == 1
  {
  }

  lemma Exists50(x: bv8)
    requires 0x50 <= x < 0x58
    ensures Mul(x, InvAffine(Sbox(x))) == 1
  {
  }

  lemma Exists58(x: bv8)
    requires 0x58 <= x < 0x60
    ensures Mul(x, InvAffine(Sbox(x))) == 1
  {
  }

  lemma Exists60(x: bv8)
    requires 0x60 <= x < 0x68
    ensures Mul(x, InvAffine(Sbox(x))) == 1
  {
  }

  lemma Exists68(x: bv8)
    requires 0x68 <= x < 0x70
    ensures Mul(x, InvAffine(Sbox(x))) == 1
  {
  }

  lemma Exists70(x: bv8)
    requires 0x70 <= x < 0x78
    ensures Mul(x, InvAffine(Sbox(x))) == 1
  {
  }

  lemma Exists78(x: bv8)
    requires 0x78 <= x < 0x80
    ensures Mul(x, InvAffine(Sbox(x))) == 1
  {
  }

  lemma Exists80(x: bv8)
    requires 0x80 <= x < 0x88
    ensures Mul(x, InvAffine(Sbox(x))) == 1
  {
  }

  lemma Exists88(x: bv8)
    requires 0x88 <= x < 0x90
    ensures Mul(x, InvAffine(Sbox(x))) == 1
  {
  }

  lemma Exists90(x: bv8)
    requires 0x90 <= x < 0x98
    ensures Mul(x, InvAffine(Sbox(x))) == 1
  {
  }

  lemma Exists98(x: bv8)
    requires 0x98 <= x < 0xa0
    ensures Mul(x, InvAffine(Sbox(x))) == 1
  {
  }

  lemma ExistsA0(x: bv8)
    requires 0xa0 <= x < 0xa8
    ensures Mul(x, InvAffine(Sbox(x))) == 1
  {
  }

  lemma ExistsA8(x: bv8)
    requires 0xa8 <= x < 0xb0
    ensures Mul(x, InvAffine(Sbox(x))) == 1
  {
  }

  lemma ExistsB0(x: bv8)
    requires 0xb0 <= x < 0xb8
    ensures Mul(x, InvAffine(Sbox(x))) == 1
  {
  }

  lemma ExistsB8(x: bv8)
    requires 0xb8 <= x < 0xc0
    ensures Mul(x, InvAffine(Sbox(x))) == 1
  {
  }

  lemma ExistsC0(x: bv8)
    requires 0xc0 <= x < 0xc8
    ensures Mul(x, InvAffine(Sbox(x))) == 1
  {
  }

  lemma ExistsC8(x: bv8)
    requires 0xc8 <= x < 0xd0
    ensures Mul(x, InvAffine(Sbox(x))) == 1
  {
  }

  lemma ExistsD0(x: bv8)
    requires 0xd0 <= x < 0xd8
    ensures Mul(x, InvAffine(Sbox(x))) == 1
  {
  }

  lemma ExistsD8(x: bv8)
    requires 0xd8 <= x < 0xe0
    ensures Mul(x, InvAffine(Sbox(x))) == 1
  {
  }

  lemma ExistsE0(x: bv8)
    requires 0xe0 <= x < 0xe8
    ensures Mul(x, InvAffine(Sbox(x))) == 1
  {
  }

  lemma ExistsE8(x: bv8)
    requires 0xe8 <= x < 0xf0
    ensures Mul(x, InvAffine(Sbox(x))) == 1
  {
  }

  lemma ExistsF0(x: bv8)
    requires 0xf0 <= x < 0xf8
    ensures Mul(x, InvAffine(Sbox(x))) == 1
  {
  }

  lemma ExistsF8(x: bv8)
    requires 0xf8 <= x
    ensures Mul(x, InvAffine(Sbox(x))) == 1
  {
  }

  /** Every byte but 0 has an inverse. */
  lemma HasInverse(x: bv8) returns (y: bv8)
    requires x != 0
    ensures Mul(x, y) == 1
  {
    hide Mul, Sbox, InvAffine;
    y := InvAffine(Sbox(x));
    if x < 0x08 {
      Exists00(x);
    } else if x < 0x10 {
      Exists08(x);
    } else if x < 0x18 {
      Exists10(x);
    } else if x < 0x20 {
      Exists18(x);
    } else if x < 0x28 {
      Exists20(x);
    } else if x < 0x30 {
      Exists28(x);
    } else if x < 0x38 {
      Exists30(x);
    } else if x < 0x40 {
      Exists38(x);
    } else if x < 0x48 {
      Exists40(x);
    } else if x < 0x50 {
      Exists48(x);
    } else if x < 0x58 {
      Exists50(x);
    } else if x < 0x60 {
      Exists58(x);
    } else if x < 0x68 {
      Exists60(x);
    } else if x < 0x70 {
      Exists68(x);
    } else if x < 0x78 {
      Exists70(x);
    } else if x < 0x80 {
      Exists78(x);
    } else if x < 0x88 {
      Exists80(x);
    } else if x < 0x90 {
      Exists88(x);
    } else if x < 0x98 {
      Exists90(x);
    } else if x < 0xa0 {
      Exists98(x);
    } else if x < 0xa8 {
      ExistsA0(x);
    } else if x < 0xb0 {
      ExistsA8(x);
    } else if x < 0xb8 {
      ExistsB0(x);
    } else if x < 0xc0 {
      ExistsB8(x);
    } else if x < 0xc8 {
      ExistsC0(x);
    } else if x < 0xd0 {
      ExistsC8(x);
    } else if x < 0xd8 {
      ExistsD0(x);
    } else if x < 0xe0 {
      ExistsD8(x);
    } else if x < 0xe8 {
      ExistsE0(x);
    } else if x < 0xf0 {
      ExistsE8(x);
    } else if x < 0xf8 {
      ExistsF0(x);
    } else {
      ExistsF8(x);
    }
  }

  lemma Inverse00(x: bv8, y: bv8)
    requires x < 0x08 && Mul(x, y) == 1
    ensures Sbox(x) == Affine(y)
  {
  }

  lemma Inverse08(x: bv8, y: bv8)
    requires 0x08 <= x < 0x10 && Mul(x, y) == 1
    ensures Sbox(x) == Affine(y)
  {
  }

  lemma Inverse10(x: bv8, y: bv8)
    requires 0x10 <= x < 0x18 && Mul(x, y) == 1
    ensures Sbox(x) == Affine(y)
  {
  }

  lemma Inverse18(x: bv8, y: bv8)
    requires 0x18 <= x < 0x20 && Mul(x, y) == 1
    ensures Sbox(x) == Affine(y)
  {
  }

  lemma Inverse20(x: bv8, y: bv8)
    requires 0x20 <= x < 0x28 && Mul(x, y) == 1
    ensures Sbox(x) == Affine(y)
  {
  }

  lemma Inverse28(x: bv8, y: bv8)
    requires 0x28 <= x < 0x30 && Mul(x, y) == 1
    ensures Sbox(x) == Affine(y)
  {
  }

  lemma Inverse30(x: bv8, y: bv8)
    requires 0x30 <= x < 0x38 && Mul(x, y) == 1
    ensures Sbox(x) == Affine(y)
  {
  }

  lemma Inverse38(x: bv8, y: bv8)
    requires 0x38 <= x < 0x40 && Mul(x, y) == 1
    ensures Sbox(x) == Affine(y)
  {
  }

  lemma Inverse40(x: bv8, y: bv8)
    requires 0x40 <= x < 0x48 && Mul(x, y) == 1
    ensures Sbox(x) == Affine(y)
  {
  }

  lemma Inverse48(x: bv8, y: bv8)
    requires 0x48 <= x < 0x50 && Mul(x, y) == 1
    ensures Sbox(x) == Affine(y)
  {
  }

  lemma Inverse50(x: bv8, y: bv8)
    requires 0x50 <= x < 0x58 && Mul(x, y) == 1
    ensures Sbox(x) == Affine(y)
  {
  }

  lemma Inverse58(x: bv8, y: bv8)
    requires 0x58 <= x < 0x60 && Mul(x, y) == 1
    ensures Sbox(x) == Affine(y)
  {
  }

  lemma Inverse60(x: bv8, y: bv8)
    requires 0x60 <= x < 0x68 && Mul(x, y) == 1
    ensures Sbox(x) == Affine(y)
  {
  }

  lemma Inverse68(x: bv8, y: bv8)
    requires 0x68 <= x < 0x70 && Mul(x, y) == 1
    ensures Sbox(x) == Affine(y)
  {
  }

  lemma Inverse70(x: bv8, y: bv8)
    requires 0x70 <= x < 0x78 && Mul(x, y) == 1
    ensures Sbox(x) == Affine(y)
  {
  }

  lemma Inverse78(x: bv8, y: bv8)
    requires 0x78 <= x < 0x80 && Mul(x, y) == 1
    ensures Sbox(x) == Affine(y)
  {
  }

  lemma Inverse80(x: bv8, y: bv8)
    requires 0x80 <= x < 0x88 && Mul(x, y) == 1
    ensures Sbox(x) == Affine(y)
  {
  }

  lemma Inverse88(x: bv8, y: bv8)
    requires 0x88 <= x < 0x90 && Mul(x, y) == 1
    ensures Sbox(x) == Affine(y)
  {
  }

  lemma Inverse90(x: bv8, y: bv8)
    requires 0x90 <= x < 0x98 && Mul(x, y) == 1
    ensures Sbox(x) == Affine(y)
  {
  }

  lemma Inverse98(x: bv8, y: bv8)
    requires 0x98 <= x < 0xa0 && Mul(x, y) == 1
    ensures Sbox(x) == Affine(y)
  {
  }

  lemma InverseA0(x: bv8, y: bv8)
    requires 0xa0 <= x < 0xa8 && Mul(x, y) == 1
    ensures Sbox(x) == Affine(y)
  {
  }

  lemma InverseA8(x: bv8, y: bv8)
    requires 0xa8 <= x < 0xb0 && Mul(x, y) == 1
    ensures Sbox(x) == Affine(y)
  {
  }

  lemma InverseB0(x: bv8, y: bv8)
    requires 0xb0 <= x < 0xb8 && Mul(x, y) == 1
    ensures Sbox(x) == Affine(y)
  {
  }

  lemma InverseB8(x: bv8, y: bv8)
    requires 0xb8 <= x < 0xc0 && Mul(x, y) == 1
    ensures Sbox(x) == Affine(y)
  {
  }

  lemma InverseC0(x: bv8, y: bv8)
    requires 0xc0 <= x < 0xc8 && Mul(x, y) == 1
    ensures Sbox(x) == Affine(y)
  {
  }

  lemma InverseC8(x: bv8, y: bv8)
    requires 0xc8 <= x < 0xd0 && Mul(x, y) == 1
    ensures Sbox(x) == Affine(y)
  {
  }

  lemma InverseD0(x: bv8, y: bv8)
    requires 0xd0 <= x < 0xd8 && Mul(x, y) == 1
    ensures Sbox(x) == Affine(y)
  {
  }

  lemma InverseD8(x: bv8, y: bv8)
    requires 0xd8 <= x < 0xe0 && Mul(x, y) == 1
    ensures Sbox(x) == Affine(y)
  {
  }

  lemma InverseE0(x: bv8, y: bv8)
    requires 0xe0 <= x < 0xe8 && Mul(x, y) == 1
    ensures Sbox(x) == Affine(y)
  {
  }

  lemma InverseE8(x: bv8, y: bv8)
    requires 0xe8 <= x < 0xf0 && Mul(x, y) == 1
    ensures Sbox(x) == Affine(y)
  {
  }

  lemma InverseF0(x: bv8, y: bv8)
    requires 0xf0 <= x < 0xf8 && Mul(x, y) == 1
    ensures Sbox(x) == Affine(y)
  {
  }

  lemma InverseF8(x: bv8, y: bv8)
    requires 0xf8 <= x && Mul(x, y) == 1
    ensures Sbox(x) == Affine(y)
  {
  }

  /** A byte is substituted by its inverse in the field (0 by 0), transformed as in equation 5.1. */
  lemma SboxIsAffineInverse(x: bv8, y: bv8)
    requires if x == 0 then y == 0 else Mul(x, y) == 1
    ensures Sbox(x) == Affine(y)
  {
    if x == 0 {
      assert Sbox(0) == 0x63 == Affine(0);
      return;
    }
    hide Mul, Sbox, Affine;
    if x < 0x08 {
      Inverse00(x, y);
    } else if x < 0x10 {
      Inverse08(x, y);
    } else if x < 0x18 {
      Inverse10(x, y);
    } else if x < 0x20 {
      Inverse18(x, y);
    } else if x < 0x28 {
      Inverse20(x, y);
    } else if x < 0x30 {
      Inverse28(x, y);
    } else if x < 0x38 {
      Inverse30(x, y);
    } else if x < 0x40 {
      Inverse38(x, y);
    } else if x < 0x48 {
      Inverse40(x, y);
    } else if x < 0x50 {
      Inverse48(x, y);
    } else if x < 0x58 {
      Inverse50(x, y);
    } else if x < 0x60 {
      Inverse58(x, y);
    } else if x < 0x68 {
      Inverse60(x, y);
    } else if x < 0x70 {
      Inverse68(x, y);
    } else if x < 0x78 {
      Inverse70(x, y);
    } else if x < 0x80 {
      Inverse78(x, y);
    } else if x < 0x88 {
      Inverse80(x, y);
    } else if x < 0x90 {
      Inverse88(x, y);
    } else if x < 0x98 {
      Inverse90(x, y);
    } else if x < 0xa0 {
      Inverse98(x, y);
    } else if x < 0xa8 {
      InverseA0(x, y);
    } else if x < 0xb0 {
      InverseA8(x, y);
    } else if x < 0xb8 {
      InverseB0(x, y);
    } else if x < 0xc0 {
      InverseB8(x, y);
    } else if x < 0xc8 {
      InverseC0(x, y);
    } else if x < 0xd0 {
      InverseC8(x, y);
    } else if x < 0xd8 {
      InverseD0(x, y);
    } else if x < 0xe0 {
      InverseD8(x, y);
    } else if x < 0xe8 {
      InverseE0(x, y);
    } else if x < 0xf0 {
      InverseE8(x, y);
    } else if x < 0xf8 {
      InverseF0(x, y);
    } else {
      InverseF8(x, y);
    }
  }
}
