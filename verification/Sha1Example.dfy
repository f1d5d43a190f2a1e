/** The first example of FIPS 180-4: what the definitions of module Sha1 give for the message "abc". */
module Sha1Example {
  import opened Sha1

  const ABC: Bytes := [0x61, 0x62, 0x63]

  // The only block of the padded message.
  const BLOCK: Block := [0x61, 0x62, 0x63, 0x80] + seq(59, _ => 0) + [0x18]

  lemma First0()
    ensures Schedule(BLOCK, 0) == 0x61626380
    ensures Schedule(BLOCK, 1) == 0x00000000
    ensures Schedule(BLOCK, 2) == 0x00000000
    ensures Schedule(BLOCK, 3) == 0x00000000
  {
  }

  lemma First1()
    ensures Schedule(BLOCK, 4) == 0x00000000
    ensures Schedule(BLOCK, 5) == 0x00000000
    ensures Schedule(BLOCK, 6) == 0x00000000
    ensures Schedule(BLOCK, 7) == 0x00000000
  {
    assert BigEndian(0, 0, 0, 0) == 0;
  }

  lemma First2()
    ensures Schedule(BLOCK, 8) == 0x00000000
    ensures Schedule(BLOCK, 9) == 0x00000000
    ensures Schedule(BLOCK, 10) == 0x00000000
    ensures Schedule(BLOCK, 11) == 0x00000000
  {
    assert BigEndian(0, 0, 0, 0) == 0;
  }

  lemma First3()
    ensures Schedule(BLOCK, 12) == 0x00000000
    ensures Schedule(BLOCK, 13) == 0x00000000
    ensures Schedule(BLOCK, 14) == 0x00000000
    ensures Schedule(BLOCK, 15) == 0x00000018
  {
  }

  lemma Words0()
    ensures Schedule(BLOCK, 0) == 0x61626380 && Schedule(BLOCK, 1) == 0x00000000
    ensures Schedule(BLOCK, 2) == 0x00000000 && Schedule(BLOCK, 3) == 0x00000000
    ensures Schedule(BLOCK, 4) == 0x00000000 && Schedule(BLOCK, 5) == 0x00000000
    ensures Schedule(BLOCK, 6) == 0x00000000 && Schedule(BLOCK, 7) == 0x00000000
    ensures Schedule(BLOCK, 8) == 0x00000000 && Schedule(BLOCK, 9) == 0x00000000
    ensures Schedule(BLOCK, 10) == 0x00000000 && Schedule(BLOCK, 11) == 0x00000000
    ensures Schedule(BLOCK, 12) == 0x00000000 && Schedule(BLOCK, 13) == 0x00000000
    ensures Schedule(BLOCK, 14) == 0x00000000 && Schedule(BLOCK, 15) == 0x00000018
  {
    hide Schedule;
    First0();
    First1();
    First2();
    First3();
  }

  lemma Words1()
    ensures Schedule(BLOCK, 16) == 0xc2c4c700 && Schedule(BLOCK, 17) == 0x00000000
    ensures Schedule(BLOCK, 18) == 0x00000030 && Schedule(BLOCK, 19) == 0x85898e01
    ensures Schedule(BLOCK, 20) == 0x00000000 && Schedule(BLOCK, 21) == 0x00000060
    ensures Schedule(BLOCK, 22) == 0x0b131c03 && Schedule(BLOCK, 23) == 0x00000030
    ensures Schedule(BLOCK, 24) == 0x85898ec1 && Schedule(BLOCK, 25) == 0x16263806
    ensures Schedule(BLOCK, 26) == 0x00000000 && Schedule(BLOCK, 27) == 0x00000180
    ensures Schedule(BLOCK, 28) == 0x2c4c700c && Schedule(BLOCK, 29) == 0x000000f0
    ensures Schedule(BLOCK, 30) == 0x93afb507 && Schedule(BLOCK, 31) == 0x5898e048
  {
    hide Schedule;
    Words0();
    Next(16, 0x00000000, 0x00000000, 0x00000000, 0x61626380);
    Next(17, 0x00000000, 0x00000000, 0x00000000, 0x00000000);
    Next(18, 0x00000018, 0x00000000, 0x00000000, 0x00000000);
    Next(19, 0xc2c4c700, 0x00000000, 0x00000000, 0x00000000);
    Next(20, 0x00000000, 0x00000000, 0x00000000, 0x00000000);
    Next(21, 0x00000030, 0x00000000, 0x00000000, 0x00000000);
    Next(22, 0x85898e01, 0x00000000, 0x00000000, 0x00000000);
    Next(23, 0x00000000, 0x00000018, 0x00000000, 0x00000000);
    Next(24, 0x00000060, 0xc2c4c700, 0x00000000, 0x00000000);
    Next(25, 0x0b131c03, 0x00000000, 0x00000000, 0x00000000);
    Next(26, 0x00000030, 0x00000030, 0x00000000, 0x00000000);
    Next(27, 0x85898ec1, 0x85898e01, 0x00000000, 0x00000000);
    Next(28, 0x16263806, 0x00000000, 0x00000000, 0x00000000);
    Next(29, 0x00000000, 0x00000060, 0x00000018, 0x00000000);
    Next(30, 0x00000180, 0x0b131c03, 0xc2c4c700, 0x00000000);
    Next(31, 0x2c4c700c, 0x00000030, 0x00000000, 0x00000018);
  }

  lemma Words2()
    ensures Schedule(BLOCK, 32) == 0x8e9a9202 && Schedule(BLOCK, 33) == 0x00000600
    ensures Schedule(BLOCK, 34) == 0xb131c0f0 && Schedule(BLOCK, 35) == 0x16263bc6
    ensures Schedule(BLOCK, 36) == 0x4ebed41e && Schedule(BLOCK, 37) == 0x626380a1
    ensures Schedule(BLOCK, 38) == 0x16263806 && Schedule(BLOCK, 39) == 0x000018c0
    ensures Schedule(BLOCK, 40) == 0xd2e138c4 && Schedule(BLOCK, 41) == 0x00000f00
    ensures Schedule(BLOCK, 42) == 0x3afb5079 && Schedule(BLOCK, 43) == 0x898e04e5
    ensures Schedule(BLOCK, 44) == 0xe2ba3c2b && Schedule(BLOCK, 45) == 0x000060c0
    ensures Schedule(BLOCK, 46) == 0x053a37cd && Schedule(BLOCK, 47) == 0x74458547
  {
    hide Schedule;
    Words1();
    Next(32, 0x000000f0, 0x85898ec1, 0x00000030, 0xc2c4c700);
    Next(33, 0x93afb507, 0x16263806, 0x85898e01, 0x00000000);
    Next(34, 0x5898e048, 0x00000000, 0x00000000, 0x00000030);
    Next(35, 0x8e9a9202, 0x00000180, 0x00000060, 0x85898e01);
    Next(36, 0x00000600, 0x2c4c700c, 0x0b131c03, 0x00000000);
    Next(37, 0xb131c0f0, 0x000000f0, 0x00000030, 0x00000060);
    Next(38, 0x16263bc6, 0x93afb507, 0x85898ec1, 0x0b131c03);
    Next(39, 0x4ebed41e, 0x5898e048, 0x16263806, 0x00000030);
    Next(40, 0x626380a1, 0x8e9a9202, 0x00000000, 0x85898ec1);
    Next(41, 0x16263806, 0x00000600, 0x00000180, 0x16263806);
    Next(42, 0x000018c0, 0xb131c0f0, 0x2c4c700c, 0x00000000);
    Next(43, 0xd2e138c4, 0x16263bc6, 0x000000f0, 0x00000180);
    Next(44, 0x00000f00, 0x4ebed41e, 0x93afb507, 0x2c4c700c);
    Next(45, 0x3afb5079, 0x626380a1, 0x5898e048, 0x000000f0);
    Next(46, 0x898e04e5, 0x16263806, 0x8e9a9202, 0x93afb507);
    Next(47, 0xe2ba3c2b, 0x000018c0, 0x00000600, 0x5898e048);
  }

  lemma Words3()
    ensures Schedule(BLOCK, 48) == 0xda9415ed && Schedule(BLOCK, 49) == 0x26380a16
    ensures Schedule(BLOCK, 50) == 0x626383a1 && Schedule(BLOCK, 51) == 0x4ebf54de
    ensures Schedule(BLOCK, 52) == 0x3835b44b && Schedule(BLOCK, 53) == 0x0000f600
    ensures Schedule(BLOCK, 54) == 0x1e84c7a3 && Schedule(BLOCK, 55) == 0x98e04d98
    ensures Schedule(BLOCK, 56) == 0x651d16a0 && Schedule(BLOCK, 57) == 0x62658ca1
    ensures Schedule(BLOCK, 58) == 0x458544d6 && Schedule(BLOCK, 59) == 0x44584cb7
    ensures Schedule(BLOCK, 60) == 0x7ba06619 && Schedule(BLOCK, 61) == 0x6380aea2
    ensures Schedule(BLOCK, 62) == 0x0ae55269 && Schedule(BLOCK, 63) == 0x627b49a1
  {
    hide Schedule;
    Words2();
    Next(48, 0x000060c0, 0xd2e138c4, 0xb131c0f0, 0x8e9a9202);
    Next(49, 0x053a37cd, 0x00000f00, 0x16263bc6, 0x00000600);
    Next(50, 0x74458547, 0x3afb5079, 0x4ebed41e, 0xb131c0f0);
    Next(51, 0xda9415ed, 0x898e04e5, 0x626380a1, 0x16263bc6);
    Next(52, 0x26380a16, 0xe2ba3c2b, 0x16263806, 0x4ebed41e);
    Next(53, 0x626383a1, 0x000060c0, 0x000018c0, 0x626380a1);
    Next(54, 0x4ebf54de, 0x053a37cd, 0xd2e138c4, 0x16263806);
    Next(55, 0x3835b44b, 0x74458547, 0x00000f00, 0x000018c0);
    Next(56, 0x0000f600, 0xda9415ed, 0x3afb5079, 0xd2e138c4);
    Next(57, 0x1e84c7a3, 0x26380a16, 0x898e04e5, 0x00000f00);
    Next(58, 0x98e04d98, 0x626383a1, 0xe2ba3c2b, 0x3afb5079);
    Next(59, 0x651d16a0, 0x4ebf54de, 0x000060c0, 0x898e04e5);
    Next(60, 0x62658ca1, 0x3835b44b, 0x053a37cd, 0xe2ba3c2b);
    Next(61, 0x458544d6, 0x0000f600, 0x74458547, 0x000060c0);
    Next(62, 0x44584cb7, 0x1e84c7a3, 0xda9415ed, 0x053a37cd);
    Next(63, 0x7ba06619, 0x98e04d98, 0x26380a16, 0x74458547);
  }

  lemma Words4()
    ensures Schedule(BLOCK, 64) == 0x7cd45c9d && Schedule(BLOCK, 65) == 0x000f0000
    ensures Schedule(BLOCK, 66) == 0xfb50753a && Schedule(BLOCK, 67) == 0xec6765e8
    ensures Schedule(BLOCK, 68) == 0xba3c2be2 && Schedule(BLOCK, 69) == 0x0060c000
    ensures Schedule(BLOCK, 70) == 0x3a37cd05 && Schedule(BLOCK, 71) == 0x458546f4
    ensures Schedule(BLOCK, 72) == 0xb8599dd6 && Schedule(BLOCK, 73) == 0x380a1a26
    ensures Schedule(BLOCK, 74) == 0x01e02203 && Schedule(BLOCK, 75) == 0xe7cc3456
    ensures Schedule(BLOCK, 76) == 0xe6e60b69 && Schedule(BLOCK, 77) == 0x00f60a00
    ensures Schedule(BLOCK, 78) == 0x5795ef4f && Schedule(BLOCK, 79) == 0x822e0879
  {
    hide Schedule;
    Words3();
    Next(64, 0x6380aea2, 0x651d16a0, 0x626383a1, 0xda9415ed);
    Next(65, 0x0ae55269, 0x62658ca1, 0x4ebf54de, 0x26380a16);
    Next(66, 0x627b49a1, 0x458544d6, 0x3835b44b, 0x626383a1);
    Next(67, 0x7cd45c9d, 0x44584cb7, 0x0000f600, 0x4ebf54de);
    Next(68, 0x000f0000, 0x7ba06619, 0x1e84c7a3, 0x3835b44b);
    Next(69, 0xfb50753a, 0x6380aea2, 0x98e04d98, 0x0000f600);
    Next(70, 0xec6765e8, 0x0ae55269, 0x651d16a0, 0x1e84c7a3);
    Next(71, 0xba3c2be2, 0x627b49a1, 0x62658ca1, 0x98e04d98);
    Next(72, 0x0060c000, 0x7cd45c9d, 0x458544d6, 0x651d16a0);
    Next(73, 0x3a37cd05, 0x000f0000, 0x44584cb7, 0x62658ca1);
    Next(74, 0x458546f4, 0xfb50753a, 0x7ba06619, 0x458544d6);
    Next(75, 0xb8599dd6, 0xec6765e8, 0x6380aea2, 0x44584cb7);
    Next(76, 0x380a1a26, 0xba3c2be2, 0x0ae55269, 0x7ba06619);
    Next(77, 0x01e02203, 0x0060c000, 0x627b49a1, 0x6380aea2);
    Next(78, 0xe7cc3456, 0x3a37cd05, 0x7cd45c9d, 0x0ae55269);
    Next(79, 0xe6e60b69, 0x458546f4, 0x000f0000, 0x627b49a1);
  }

  lemma Next(t: nat, p: Word, q: Word, r: Word, s: Word)
    requires 16 <= t && Schedule(BLOCK, t - 3) == p && Schedule(BLOCK, t - 8) == q
    requires Schedule(BLOCK, t - 14) == r && Schedule(BLOCK, t - 16) == s
    ensures Schedule(BLOCK, t) == Mix(p, q, r, s)
  {
  }

  lemma OneRound(t: nat, s: State, w: Word)
    requires Rounds(H0, BLOCK, t) == s && Schedule(BLOCK, t) == w
    ensures Rounds(H0, BLOCK, t + 1) == Round(s, t, w)
  {
  }

  lemma Rounds0()
    ensures Rounds(H0, BLOCK, 10) == State(0x8351f929, 0x4b6ae328, 0x27a301f5, 0x664f8c30, 0x0ff1f290)
  {
    hide Schedule, Rounds;
    Start();
    Words0();
    OneRound(0, State(0x67452301, 0xefcdab89, 0x98badcfe, 0x10325476, 0xc3d2e1f0), 0x61626380);
    OneRound(1, State(0x0116fc33, 0x67452301, 0x7bf36ae2, 0x98badcfe, 0x10325476), 0x00000000);
    OneRound(2, State(0x8990536d, 0x0116fc33, 0x59d148c0, 0x7bf36ae2, 0x98badcfe), 0x00000000);
    OneRound(3, State(0xa1390f08, 0x8990536d, 0xc045bf0c, 0x59d148c0, 0x7bf36ae2), 0x00000000);
    OneRound(4, State(0xcdd8e11b, 0xa1390f08, 0x626414db, 0xc045bf0c, 0x59d148c0), 0x00000000);
    OneRound(5, State(0xcfd499de, 0xcdd8e11b, 0x284e43c2, 0x626414db, 0xc045bf0c), 0x00000000);
    OneRound(6, State(0x3fc7ca40, 0xcfd499de, 0xf3763846, 0x284e43c2, 0x626414db), 0x00000000);
    OneRound(7, State(0x993e30c1, 0x3fc7ca40, 0xb3f52677, 0xf3763846, 0x284e43c2), 0x00000000);
    OneRound(8, State(0x9e8c07d4, 0x993e30c1, 0x0ff1f290, 0xb3f52677, 0xf3763846), 0x00000000);
    OneRound(9, State(0x4b6ae328, 0x9e8c07d4, 0x664f8c30, 0x0ff1f290, 0xb3f52677), 0x00000000);
  }

  lemma Rounds1()
    ensures Rounds(H0, BLOCK, 20) == State(0xfd9e1d7d, 0xdc64901d, 0x20aa99ca, 0xd3a49608, 0xc82f758b)
  {
    hide Schedule, Rounds;
    Rounds0();
    Words0();
    Words1();
    OneRound(10, State(0x8351f929, 0x4b6ae328, 0x27a301f5, 0x664f8c30, 0x0ff1f290), 0x00000000);
    OneRound(11, State(0xfbda9e89, 0x8351f929, 0x12dab8ca, 0x27a301f5, 0x664f8c30), 0x00000000);
    OneRound(12, State(0x63188fe4, 0xfbda9e89, 0x60d47e4a, 0x12dab8ca, 0x27a301f5), 0x00000000);
    OneRound(13, State(0x4607b664, 0x63188fe4, 0x7ef6a7a2, 0x60d47e4a, 0x12dab8ca), 0x00000000);
    OneRound(14, State(0x9128f695, 0x4607b664, 0x18c623f9, 0x7ef6a7a2, 0x60d47e4a), 0x00000000);
    OneRound(15, State(0x196bee77, 0x9128f695, 0x1181ed99, 0x18c623f9, 0x7ef6a7a2), 0x00000018);
    OneRound(16, State(0x20bdd62f, 0x196bee77, 0x644a3da5, 0x1181ed99, 0x18c623f9), 0xc2c4c700);
    OneRound(17, State(0x4e925823, 0x20bdd62f, 0xc65afb9d, 0x644a3da5, 0x1181ed99), 0x00000000);
    OneRound(18, State(0x82aa6728, 0x4e925823, 0xc82f758b, 0xc65afb9d, 0x644a3da5), 0x00000030);
    OneRound(19, State(0xdc64901d, 0x82aa6728, 0xd3a49608, 0xc82f758b, 0xc65afb9d), 0x85898e01);
  }

  lemma Rounds2()
    ensures Rounds(H0, BLOCK, 30) == State(0xc5fbaf5d, 0x8370b52e, 0xd2aa1365, 0x6f8d7ef5, 0x12104ee9)
  {
    hide Schedule, Rounds;
    Rounds1();
    Words1();
    OneRound(20, State(0xfd9e1d7d, 0xdc64901d, 0x20aa99ca, 0xd3a49608, 0xc82f758b), 0x00000000);
    OneRound(21, State(0x1a37b0ca, 0xfd9e1d7d, 0x77192407, 0x20aa99ca, 0xd3a49608), 0x00000060);
    OneRound(22, State(0x33a23bfc, 0x1a37b0ca, 0x7f67875f, 0x77192407, 0x20aa99ca), 0x0b131c03);
    OneRound(23, State(0x21283486, 0x33a23bfc, 0x868dec32, 0x7f67875f, 0x77192407), 0x00000030);
    OneRound(24, State(0xd541f12d, 0x21283486, 0x0ce88eff, 0x868dec32, 0x7f67875f), 0x85898ec1);
    OneRound(25, State(0xc7567dc6, 0xd541f12d, 0x884a0d21, 0x0ce88eff, 0x868dec32), 0x16263806);
    OneRound(26, State(0x48413ba4, 0xc7567dc6, 0x75507c4b, 0x884a0d21, 0x0ce88eff), 0x00000000);
    OneRound(27, State(0xbe35fbd5, 0x48413ba4, 0xb1d59f71, 0x75507c4b, 0x884a0d21), 0x00000180);
    OneRound(28, State(0x4aa84d97, 0xbe35fbd5, 0x12104ee9, 0xb1d59f71, 0x75507c4b), 0x2c4c700c);
    OneRound(29, State(0x8370b52e, 0x4aa84d97, 0x6f8d7ef5, 0x12104ee9, 0xb1d59f71), 0x000000f0);
  }

  lemma Rounds3()
    ensures Rounds(H0, BLOCK, 40) == State(0x32de1cba, 0x4c986405, 0xf718e5cf, 0x03d447f6, 0xf72eec32)
  {
    hide Schedule, Rounds;
    Rounds2();
    Words1();
    Words2();
    OneRound(30, State(0xc5fbaf5d, 0x8370b52e, 0xd2aa1365, 0x6f8d7ef5, 0x12104ee9), 0x93afb507);
    OneRound(31, State(0x1267b407, 0xc5fbaf5d, 0xa0dc2d4b, 0xd2aa1365, 0x6f8d7ef5), 0x5898e048);
    OneRound(32, State(0x3b845d33, 0x1267b407, 0x717eebd7, 0xa0dc2d4b, 0xd2aa1365), 0x8e9a9202);
    OneRound(33, State(0x046faa0a, 0x3b845d33, 0xc499ed01, 0x717eebd7, 0xa0dc2d4b), 0x00000600);
    OneRound(34, State(0x2c0ebc11, 0x046faa0a, 0xcee1174c, 0xc499ed01, 0x717eebd7), 0xb131c0f0);
    OneRound(35, State(0x21796ad4, 0x2c0ebc11, 0x811bea82, 0xcee1174c, 0xc499ed01), 0x16263bc6);
    OneRound(36, State(0xdcbbb0cb, 0x21796ad4, 0x4b03af04, 0x811bea82, 0xcee1174c), 0x4ebed41e);
    OneRound(37, State(0x0f511fd8, 0xdcbbb0cb, 0x085e5ab5, 0x4b03af04, 0x811bea82), 0x626380a1);
    OneRound(38, State(0xdc63973f, 0x0f511fd8, 0xf72eec32, 0x085e5ab5, 0x4b03af04), 0x16263806);
    OneRound(39, State(0x4c986405, 0xdc63973f, 0x03d447f6, 0xf72eec32, 0x085e5ab5), 0x000018c0);
  }

  lemma Rounds4()
    ensures Rounds(H0, BLOCK, 50) == State(0x120731c5, 0xbaf39337, 0xafab40b2, 0x2806e11b, 0x8714787c)
  {
    hide Schedule, Rounds;
    Rounds3();
    Words2();
    Words3();
    OneRound(40, State(0x32de1cba, 0x4c986405, 0xf718e5cf, 0x03d447f6, 0xf72eec32), 0xd2e138c4);
    OneRound(41, State(0xfc87dedf, 0x32de1cba, 0x53261901, 0xf718e5cf, 0x03d447f6), 0x00000f00);
    OneRound(42, State(0x970a0d5c, 0xfc87dedf, 0x8cb7872e, 0x53261901, 0xf718e5cf), 0x3afb5079);
    OneRound(43, State(0x7f193dc5, 0x970a0d5c, 0xff21f7b7, 0x8cb7872e, 0x53261901), 0x898e04e5);
    OneRound(44, State(0xee1b1aaf, 0x7f193dc5, 0x25c28357, 0xff21f7b7, 0x8cb7872e), 0xe2ba3c2b);
    OneRound(45, State(0x40f28e09, 0xee1b1aaf, 0x5fc64f71, 0x25c28357, 0xff21f7b7), 0x000060c0);
    OneRound(46, State(0x1c51e1f2, 0x40f28e09, 0xfb86c6ab, 0x5fc64f71, 0x25c28357), 0x053a37cd);
    OneRound(47, State(0xa01b846c, 0x1c51e1f2, 0x503ca382, 0xfb86c6ab, 0x5fc64f71), 0x74458547);
    OneRound(48, State(0xbead02ca, 0xa01b846c, 0x8714787c, 0x503ca382, 0xfb86c6ab), 0xda9415ed);
    OneRound(49, State(0xbaf39337, 0xbead02ca, 0x2806e11b, 0x8714787c, 0x503ca382), 0x26380a16);
  }

  lemma Rounds5()
    ensures Rounds(H0, BLOCK, 60) == State(0x3f52de5a, 0x09d785fd, 0x3498bfd4, 0xf211824f, 0xd79915ab)
  {
    hide Schedule, Rounds;
    Rounds4();
    Words3();
    OneRound(50, State(0x120731c5, 0xbaf39337, 0xafab40b2, 0x2806e11b, 0x8714787c), 0x626383a1);
    OneRound(51, State(0x641db2ce, 0x120731c5, 0xeebce4cd, 0xafab40b2, 0x2806e11b), 0x4ebf54de);
    OneRound(52, State(0x3847ad66, 0x641db2ce, 0x4481cc71, 0xeebce4cd, 0xafab40b2), 0x3835b44b);
    OneRound(53, State(0xe490436d, 0x3847ad66, 0x99076cb3, 0x4481cc71, 0xeebce4cd), 0x0000f600);
    OneRound(54, State(0x27e9f1d8, 0xe490436d, 0x8e11eb59, 0x99076cb3, 0x4481cc71), 0x1e84c7a3);
    OneRound(55, State(0x7b71f76d, 0x27e9f1d8, 0x792410db, 0x8e11eb59, 0x99076cb3), 0x98e04d98);
    OneRound(56, State(0x5e6456af, 0x7b71f76d, 0x09fa7c76, 0x792410db, 0x8e11eb59), 0x651d16a0);
    OneRound(57, State(0xc846093f, 0x5e6456af, 0x5edc7ddb, 0x09fa7c76, 0x792410db), 0x62658ca1);
    OneRound(58, State(0xd262ff50, 0xc846093f, 0xd79915ab, 0x5edc7ddb, 0x09fa7c76), 0x458544d6);
    OneRound(59, State(0x09d785fd, 0xd262ff50, 0xf211824f, 0xd79915ab, 0x5edc7ddb), 0x44584cb7);
  }

  lemma Rounds6()
    ensures Rounds(H0, BLOCK, 70) == State(0x3f2588c2, 0x497093c0, 0xde37534a, 0x030f7cad, 0x4405957e)
  {
    hide Schedule, Rounds;
    Rounds5();
    Words3();
    Words4();
    OneRound(60, State(0x3f52de5a, 0x09d785fd, 0x3498bfd4, 0xf211824f, 0xd79915ab), 0x7ba06619);
    OneRound(61, State(0xd756c147, 0x3f52de5a, 0x4275e17f, 0x3498bfd4, 0xf211824f), 0x6380aea2);
    OneRound(62, State(0x548c9cb2, 0xd756c147, 0x8fd4b796, 0x4275e17f, 0x3498bfd4), 0x0ae55269);
    OneRound(63, State(0xb66c020b, 0x548c9cb2, 0xf5d5b051, 0x8fd4b796, 0x4275e17f), 0x627b49a1);
    OneRound(64, State(0x6b61c9e1, 0xb66c020b, 0x9523272c, 0xf5d5b051, 0x8fd4b796), 0x7cd45c9d);
    OneRound(65, State(0x19dfa7ac, 0x6b61c9e1, 0xed9b0082, 0x9523272c, 0xf5d5b051), 0x000f0000);
    OneRound(66, State(0x101655f9, 0x19dfa7ac, 0x5ad87278, 0xed9b0082, 0x9523272c), 0xfb50753a);
    OneRound(67, State(0x0c3df2b4, 0x101655f9, 0x0677e9eb, 0x5ad87278, 0xed9b0082), 0xec6765e8);
    OneRound(68, State(0x78dd4d2b, 0x0c3df2b4, 0x4405957e, 0x0677e9eb, 0x5ad87278), 0xba3c2be2);
    OneRound(69, State(0x497093c0, 0x78dd4d2b, 0x030f7cad, 0x4405957e, 0x0677e9eb), 0x0060c000);
  }

  lemma Rounds7()
    ensures Rounds(H0, BLOCK, 80) == State(0x42541b35, 0x5738d5e1, 0x21834873, 0x681e6df6, 0xd8fdf6ad)
  {
    hide Schedule, Rounds;
    Rounds6();
    Words4();
    OneRound(70, State(0x3f2588c2, 0x497093c0, 0xde37534a, 0x030f7cad, 0x4405957e), 0x3a37cd05);
    OneRound(71, State(0xc199f8c7, 0x3f2588c2, 0x125c24f0, 0xde37534a, 0x030f7cad), 0x458546f4);
    OneRound(72, State(0x39859de7, 0xc199f8c7, 0x8fc96230, 0x125c24f0, 0xde37534a), 0xb8599dd6);
    OneRound(73, State(0xedb42de4, 0x39859de7, 0xf0667e31, 0x8fc96230, 0x125c24f0), 0x380a1a26);
    OneRound(74, State(0x11793f6f, 0xedb42de4, 0xce616779, 0xf0667e31, 0x8fc96230), 0x01e02203);
    OneRound(75, State(0x5ee76897, 0x11793f6f, 0x3b6d0b79, 0xce616779, 0xf0667e31), 0xe7cc3456);
    OneRound(76, State(0x63f7dab7, 0x5ee76897, 0xc45e4fdb, 0x3b6d0b79, 0xce616779), 0xe6e60b69);
    OneRound(77, State(0xa079b7d9, 0x63f7dab7, 0xd7b9da25, 0xc45e4fdb, 0x3b6d0b79), 0x00f60a00);
    OneRound(78, State(0x860d21cc, 0xa079b7d9, 0xd8fdf6ad, 0xd7b9da25, 0xc45e4fdb), 0x5795ef4f);
    OneRound(79, State(0x5738d5e1, 0x860d21cc, 0x681e6df6, 0xd8fdf6ad, 0xd7b9da25), 0x822e0879);
  }

  lemma Start()
    ensures Rounds(H0, BLOCK, 0) == State(0x67452301, 0xefcdab89, 0x98badcfe, 0x10325476, 0xc3d2e1f0)
  {
  }

  lemma Padded()
    ensures ABC + Padding(3) == BLOCK
  {
  }

  lemma Split(n: nat, a: nat, b: nat, c: nat, d: nat)
    requires a < 256 && b < 256 && c < 256 && d < 256 && n == a * 0x100_0000 + b * 0x1_0000 + c * 0x100 + d
    ensures n < TWO32 && Put32(n) == [a as bv8, b as bv8, c as bv8, d as bv8]
  {
    Quotients(n, a, b, c, d);
  }

  lemma Quotients(n: nat, a: nat, b: nat, c: nat, d: nat)
    requires a < 256 && b < 256 && c < 256 && d < 256 && n == a * 0x100_0000 + b * 0x1_0000 + c * 0x100 + d
    ensures n < TWO32 && n / 0x100_0000 == a && n / 0x1_0000 % 0x100 == b && n / 0x100 % 0x100 == c && n % 0x100 == d
  {
    By24(n, a, b * 0x1_0000 + c * 0x100 + d);
    By16(n, a * 0x100 + b, c * 0x100 + d);
    By8(n, a * 0x1_0000 + b * 0x100 + c, d);
    By8(a * 0x100 + b, a, b);
    By8(a * 0x1_0000 + b * 0x100 + c, a * 0x100 + b, c);
  }

  lemma By24(n: nat, q: nat, r: nat)
    requires r < 0x100_0000 && n == q * 0x100_0000 + r
    ensures n / 0x100_0000 == q
  {
  }

  lemma By16(n: nat, q: nat, r: nat)
    requires r < 0x1_0000 && n == q * 0x1_0000 + r
    ensures n / 0x1_0000 == q
  {
  }

  lemma By8(n: nat, q: nat, r: nat)
    requires r < 0x100 && n == q * 0x100 + r
    ensures n / 0x100 == q && n % 0x100 == r
  {
  }

  lemma Output0()
    ensures PutWord(0xa9993e36) == [0xa9, 0x99, 0x3e, 0x36]
  {
    Split(0xa9993e36, 0xa9, 0x99, 0x3e, 0x36);
    hide Put32;
  }

  lemma Output1()
    ensures PutWord(0x4706816a) == [0x47, 0x06, 0x81, 0x6a]
  {
    Split(0x4706816a, 0x47, 0x06, 0x81, 0x6a);
    hide Put32;
  }

  lemma Output2()
    ensures PutWord(0xba3e2571) == [0xba, 0x3e, 0x25, 0x71]
  {
    Split(0xba3e2571, 0xba, 0x3e, 0x25, 0x71);
    hide Put32;
  }

  lemma Output3()
    ensures PutWord(0x7850c26c) == [0x78, 0x50, 0xc2, 0x6c]
  {
    Split(0x7850c26c, 0x78, 0x50, 0xc2, 0x6c);
    hide Put32;
  }

  lemma Output4()
    ensures PutWord(0x9cd0d89d) == [0x9c, 0xd0, 0xd8, 0x9d]
  {
    Split(0x9cd0d89d, 0x9c, 0xd0, 0xd8, 0x9d);
    hide Put32;
  }

  lemma Output()
    ensures PutState(State(0xa9993e36, 0x4706816a, 0xba3e2571, 0x7850c26c, 0x9cd0d89d)) ==
            [0xa9, 0x99, 0x3e, 0x36, 0x47, 0x06, 0x81, 0x6a, 0xba, 0x3e,
             0x25, 0x71, 0x78, 0x50, 0xc2, 0x6c, 0x9c, 0xd0, 0xd8, 0x9d]
  {
    Output0();
    Output1();
    Output2();
    Output3();
    Output4();
    hide PutWord;
  }

  /** The constants are the integer parts of 2^30 times the square roots of 2, 3, 5 and 10. */
  lemma KtIsRoot(t: nat)
    ensures var k, n := Kt(t) as nat, if t < 20 then 2 else if t < 40 then 3 else if t < 60 then 5 else 10;
            k * k <= n * 0x1000_0000_0000_0000 < (k + 1) * (k + 1)
  {
  }

  /** The initial state, with the bytes of each word in reverse: counting up and down in nibbles. */
  lemma InitialState()
    ensures BigEndian(0x01, 0x23, 0x45, 0x67) == Reversed(H0.a) && BigEndian(0x89, 0xab, 0xcd, 0xef) == Reversed(H0.b)
    ensures BigEndian(0xfe, 0xdc, 0xba, 0x98) == Reversed(H0.c) && BigEndian(0x76, 0x54, 0x32, 0x10) == Reversed(H0.d)
    ensures BigEndian(0xf0, 0xe1, 0xd2, 0xc3) == Reversed(H0.e)
  {
  }

  function Reversed(w: Word): Word {
    (w << 24) | ((w & 0xff00) << 8) | ((w >> 8) & 0xff00) | (w >> 24)
  }

  /** The digest of "abc". */
  lemma DigestOfAbc()
    ensures Digest(ABC) ==
            [0xa9, 0x99, 0x3e, 0x36, 0x47, 0x06, 0x81, 0x6a, 0xba, 0x3e,
             0x25, 0x71, 0x78, 0x50, 0xc2, 0x6c, 0x9c, 0xd0, 0xd8, 0x9d]
  {
    Padded();
    Rounds7();
    Output();
    var m := ABC + Padding(3);
    assert m[..64] == BLOCK && m[64..] == [];
    hide Rounds, PutState;
    assert Blocks(H0, m) == Compress(H0, BLOCK);
  }
}
