/** The example of a message of three characters: "abc" through the specification of SHA-1, word by word
    and step by step, to the digest a9993e36 4706816a ba3e2571 7850c26c 9cd0d89d. */
module Sha1Sample {
  import opened HashSpec
  import opened Sha1Block
  import opened Hmac

  // "abc" and its padding.
  const ABC: Block := [0x61, 0x62, 0x63] + [0x80] + seq(59, _ => 0) + [24]

  lemma ZeroWord(t: nat)
    requires 0 < t < 15
    ensures Wt(ABC, t) == 0
  {
    assert ABC[4 * t] == 0 && ABC[4 * t + 1] == 0 && ABC[4 * t + 2] == 0 && ABC[4 * t + 3] == 0;
  }

  lemma OuterWords()
    ensures Wt(ABC, 0) == 0x61626380 && Wt(ABC, 15) == 24
  {
    assert ABC[60] == 0 && ABC[61] == 0 && ABC[62] == 0 && ABC[63] == 24;
  }

  lemma FirstWords()
    ensures Wt(ABC, 0) == 0x61626380 && Wt(ABC, 15) == 24
    ensures Wt(ABC, 1) == 0 && Wt(ABC, 2) == 0 && Wt(ABC, 3) == 0 && Wt(ABC, 4) == 0 && Wt(ABC, 5) == 0 && Wt(ABC, 6) == 0 && Wt(ABC, 7) == 0
    ensures Wt(ABC, 8) == 0 && Wt(ABC, 9) == 0 && Wt(ABC, 10) == 0 && Wt(ABC, 11) == 0 && Wt(ABC, 12) == 0 && Wt(ABC, 13) == 0 && Wt(ABC, 14) == 0
  {
    hide Wt;
    OuterWords();
    ZeroWord(1); ZeroWord(2); ZeroWord(3); ZeroWord(4); ZeroWord(5); ZeroWord(6); ZeroWord(7); ZeroWord(8); ZeroWord(9); ZeroWord(10); ZeroWord(11); ZeroWord(12); ZeroWord(13); ZeroWord(14);
  }

  lemma NextWt(t: nat)
    requires t >= 16
    ensures Wt(ABC, t) == Rotl1(Wt(ABC, t - 3) ^ Wt(ABC, t - 8) ^ Wt(ABC, t - 14) ^ Wt(ABC, t - 16))
  {}

  lemma Words16()
    ensures Wt(ABC, 16) == 0xc2c4c700 && Wt(ABC, 17) == 0x00000000 && Wt(ABC, 18) == 0x00000030 && Wt(ABC, 19) == 0x85898e01
    ensures Wt(ABC, 20) == 0x00000000 && Wt(ABC, 21) == 0x00000060 && Wt(ABC, 22) == 0x0b131c03 && Wt(ABC, 23) == 0x00000030
  {
    hide Wt;
    FirstWords();
    NextWt(16); NextWt(17); NextWt(18); NextWt(19); NextWt(20); NextWt(21); NextWt(22); NextWt(23);
  }

  lemma Words24()
    ensures Wt(ABC, 24) == 0x85898ec1 && Wt(ABC, 25) == 0x16263806 && Wt(ABC, 26) == 0x00000000 && Wt(ABC, 27) == 0x00000180
    ensures Wt(ABC, 28) == 0x2c4c700c && Wt(ABC, 29) == 0x000000f0 && Wt(ABC, 30) == 0x93afb507 && Wt(ABC, 31) == 0x5898e048
  {
    hide Wt;
    FirstWords();
    Words16();
    NextWt(24); NextWt(25); NextWt(26); NextWt(27); NextWt(28); NextWt(29); NextWt(30); NextWt(31);
  }

  lemma Words32()
    ensures Wt(ABC, 32) == 0x8e9a9202 && Wt(ABC, 33) == 0x00000600 && Wt(ABC, 34) == 0xb131c0f0 && Wt(ABC, 35) == 0x16263bc6
    ensures Wt(ABC, 36) == 0x4ebed41e && Wt(ABC, 37) == 0x626380a1 && Wt(ABC, 38) == 0x16263806 && Wt(ABC, 39) == 0x000018c0
  {
    hide Wt;
    Words16();
    Words24();
    NextWt(32); NextWt(33); NextWt(34); NextWt(35); NextWt(36); NextWt(37); NextWt(38); NextWt(39);
  }

  lemma Words40()
    ensures Wt(ABC, 40) == 0xd2e138c4 && Wt(ABC, 41) == 0x00000f00 && Wt(ABC, 42) == 0x3afb5079 && Wt(ABC, 43) == 0x898e04e5
    ensures Wt(ABC, 44) == 0xe2ba3c2b && Wt(ABC, 45) == 0x000060c0 && Wt(ABC, 46) == 0x053a37cd && Wt(ABC, 47) == 0x74458547
  {
    hide Wt;
    Words24();
    Words32();
    NextWt(40); NextWt(41); NextWt(42); NextWt(43); NextWt(44); NextWt(45); NextWt(46); NextWt(47);
  }

  lemma Words48()
    ensures Wt(ABC, 48) == 0xda9415ed && Wt(ABC, 49) == 0x26380a16 && Wt(ABC, 50) == 0x626383a1 && Wt(ABC, 51) == 0x4ebf54de
    ensures Wt(ABC, 52) == 0x3835b44b && Wt(ABC, 53) == 0x0000f600 && Wt(ABC, 54) == 0x1e84c7a3 && Wt(ABC, 55) == 0x98e04d98
  {
    hide Wt;
    Words32();
    Words40();
    NextWt(48); NextWt(49); NextWt(50); NextWt(51); NextWt(52); NextWt(53); NextWt(54); NextWt(55);
  }

  lemma Words56()
    ensures Wt(ABC, 56) == 0x651d16a0 && Wt(ABC, 57) == 0x62658ca1 && Wt(ABC, 58) == 0x458544d6 && Wt(ABC, 59) == 0x44584cb7
    ensures Wt(ABC, 60) == 0x7ba06619 && Wt(ABC, 61) == 0x6380aea2 && Wt(ABC, 62) == 0x0ae55269 && Wt(ABC, 63) == 0x627b49a1
  {
    hide Wt;
    Words40();
    Words48();
    NextWt(56); NextWt(57); NextWt(58); NextWt(59); NextWt(60); NextWt(61); NextWt(62); NextWt(63);
  }

  lemma Words64()
    ensures Wt(ABC, 64) == 0x7cd45c9d && Wt(ABC, 65) == 0x000f0000 && Wt(ABC, 66) == 0xfb50753a && Wt(ABC, 67) == 0xec6765e8
    ensures Wt(ABC, 68) == 0xba3c2be2 && Wt(ABC, 69) == 0x0060c000 && Wt(ABC, 70) == 0x3a37cd05 && Wt(ABC, 71) == 0x458546f4
  {
    hide Wt;
    Words48();
    Words56();
    NextWt(64); NextWt(65); NextWt(66); NextWt(67); NextWt(68); NextWt(69); NextWt(70); NextWt(71);
  }

  lemma Words72()
    ensures Wt(ABC, 72) == 0xb8599dd6 && Wt(ABC, 73) == 0x380a1a26 && Wt(ABC, 74) == 0x01e02203 && Wt(ABC, 75) == 0xe7cc3456
    ensures Wt(ABC, 76) == 0xe6e60b69 && Wt(ABC, 77) == 0x00f60a00 && Wt(ABC, 78) == 0x5795ef4f && Wt(ABC, 79) == 0x822e0879
  {
    hide Wt;
    Words56();
    Words64();
    NextWt(72); NextWt(73); NextWt(74); NextWt(75); NextWt(76); NextWt(77); NextWt(78); NextWt(79);
  }

  lemma NextRound(s: Sha1State, t: nat, r: Sha1State, w: Word)
    requires Rounds(SHA1.iv, ABC, t) == s && Wt(ABC, t) == w && Round(s, t, w) == r
    ensures Rounds(SHA1.iv, ABC, t + 1) == r
  {
    hide Wt, Round;
  }

  lemma Rounds0()
    ensures Rounds(SHA1.iv, ABC, 8) == Sha1State(0x9e8c07d4, 0x993e30c1, 0x0ff1f290, 0xb3f52677, 0xf3763846)
  {
    hide Wt, Rounds;
    Start();
    FirstWords();
    NextRound(Sha1State(0x67452301, 0xefcdab89, 0x98badcfe, 0x10325476, 0xc3d2e1f0), 0, Sha1State(0x0116fc33, 0x67452301, 0x7bf36ae2, 0x98badcfe, 0x10325476), 0x61626380);
    NextRound(Sha1State(0x0116fc33, 0x67452301, 0x7bf36ae2, 0x98badcfe, 0x10325476), 1, Sha1State(0x8990536d, 0x0116fc33, 0x59d148c0, 0x7bf36ae2, 0x98badcfe), 0x00000000);
    NextRound(Sha1State(0x8990536d, 0x0116fc33, 0x59d148c0, 0x7bf36ae2, 0x98badcfe), 2, Sha1State(0xa1390f08, 0x8990536d, 0xc045bf0c, 0x59d148c0, 0x7bf36ae2), 0x00000000);
    NextRound(Sha1State(0xa1390f08, 0x8990536d, 0xc045bf0c, 0x59d148c0, 0x7bf36ae2), 3, Sha1State(0xcdd8e11b, 0xa1390f08, 0x626414db, 0xc045bf0c, 0x59d148c0), 0x00000000);
    NextRound(Sha1State(0xcdd8e11b, 0xa1390f08, 0x626414db, 0xc045bf0c, 0x59d148c0), 4, Sha1State(0xcfd499de, 0xcdd8e11b, 0x284e43c2, 0x626414db, 0xc045bf0c), 0x00000000);
    NextRound(Sha1State(0xcfd499de, 0xcdd8e11b, 0x284e43c2, 0x626414db, 0xc045bf0c), 5, Sha1State(0x3fc7ca40, 0xcfd499de, 0xf3763846, 0x284e43c2, 0x626414db), 0x00000000);
    NextRound(Sha1State(0x3fc7ca40, 0xcfd499de, 0xf3763846, 0x284e43c2, 0x626414db), 6, Sha1State(0x993e30c1, 0x3fc7ca40, 0xb3f52677, 0xf3763846, 0x284e43c2), 0x00000000);
    NextRound(Sha1State(0x993e30c1, 0x3fc7ca40, 0xb3f52677, 0xf3763846, 0x284e43c2), 7, Sha1State(0x9e8c07d4, 0x993e30c1, 0x0ff1f290, 0xb3f52677, 0xf3763846), 0x00000000);
  }

  lemma Rounds8()
    ensures Rounds(SHA1.iv, ABC, 16) == Sha1State(0x20bdd62f, 0x196bee77, 0x644a3da5, 0x1181ed99, 0x18c623f9)
  {
    hide Wt, Rounds;
    Rounds0();
    FirstWords();
    NextRound(Sha1State(0x9e8c07d4, 0x993e30c1, 0x0ff1f290, 0xb3f52677, 0xf3763846), 8, Sha1State(0x4b6ae328, 0x9e8c07d4, 0x664f8c30, 0x0ff1f290, 0xb3f52677), 0x00000000);
    NextRound(Sha1State(0x4b6ae328, 0x9e8c07d4, 0x664f8c30, 0x0ff1f290, 0xb3f52677), 9, Sha1State(0x8351f929, 0x4b6ae328, 0x27a301f5, 0x664f8c30, 0x0ff1f290), 0x00000000);
    NextRound(Sha1State(0x8351f929, 0x4b6ae328, 0x27a301f5, 0x664f8c30, 0x0ff1f290), 10, Sha1State(0xfbda9e89, 0x8351f929, 0x12dab8ca, 0x27a301f5, 0x664f8c30), 0x00000000);
    NextRound(Sha1State(0xfbda9e89, 0x8351f929, 0x12dab8ca, 0x27a301f5, 0x664f8c30), 11, Sha1State(0x63188fe4, 0xfbda9e89, 0x60d47e4a, 0x12dab8ca, 0x27a301f5), 0x00000000);
    NextRound(Sha1State(0x63188fe4, 0xfbda9e89, 0x60d47e4a, 0x12dab8ca, 0x27a301f5), 12, Sha1State(0x4607b664, 0x63188fe4, 0x7ef6a7a2, 0x60d47e4a, 0x12dab8ca), 0x00000000);
    NextRound(Sha1State(0x4607b664, 0x63188fe4, 0x7ef6a7a2, 0x60d47e4a, 0x12dab8ca), 13, Sha1State(0x9128f695, 0x4607b664, 0x18c623f9, 0x7ef6a7a2, 0x60d47e4a), 0x00000000);
    NextRound(Sha1State(0x9128f695, 0x4607b664, 0x18c623f9, 0x7ef6a7a2, 0x60d47e4a), 14, Sha1State(0x196bee77, 0x9128f695, 0x1181ed99, 0x18c623f9, 0x7ef6a7a2), 0x00000000);
    NextRound(Sha1State(0x196bee77, 0x9128f695, 0x1181ed99, 0x18c623f9, 0x7ef6a7a2), 15, Sha1State(0x20bdd62f, 0x196bee77, 0x644a3da5, 0x1181ed99, 0x18c623f9), 0x00000018);
  }

  lemma Rounds16()
    ensures Rounds(SHA1.iv, ABC, 24) == Sha1State(0xd541f12d, 0x21283486, 0x0ce88eff, 0x868dec32, 0x7f67875f)
  {
    hide Wt, Rounds;
    Rounds8();
    Words16();
    NextRound(Sha1State(0x20bdd62f, 0x196bee77, 0x644a3da5, 0x1181ed99, 0x18c623f9), 16, Sha1State(0x4e925823, 0x20bdd62f, 0xc65afb9d, 0x644a3da5, 0x1181ed99), 0xc2c4c700);
    NextRound(Sha1State(0x4e925823, 0x20bdd62f, 0xc65afb9d, 0x644a3da5, 0x1181ed99), 17, Sha1State(0x82aa6728, 0x4e925823, 0xc82f758b, 0xc65afb9d, 0x644a3da5), 0x00000000);
    NextRound(Sha1State(0x82aa6728, 0x4e925823, 0xc82f758b, 0xc65afb9d, 0x644a3da5), 18, Sha1State(0xdc64901d, 0x82aa6728, 0xd3a49608, 0xc82f758b, 0xc65afb9d), 0x00000030);
    NextRound(Sha1State(0xdc64901d, 0x82aa6728, 0xd3a49608, 0xc82f758b, 0xc65afb9d), 19, Sha1State(0xfd9e1d7d, 0xdc64901d, 0x20aa99ca, 0xd3a49608, 0xc82f758b), 0x85898e01);
    NextRound(Sha1State(0xfd9e1d7d, 0xdc64901d, 0x20aa99ca, 0xd3a49608, 0xc82f758b), 20, Sha1State(0x1a37b0ca, 0xfd9e1d7d, 0x77192407, 0x20aa99ca, 0xd3a49608), 0x00000000);
    NextRound(Sha1State(0x1a37b0ca, 0xfd9e1d7d, 0x77192407, 0x20aa99ca, 0xd3a49608), 21, Sha1State(0x33a23bfc, 0x1a37b0ca, 0x7f67875f, 0x77192407, 0x20aa99ca), 0x00000060);
    NextRound(Sha1State(0x33a23bfc, 0x1a37b0ca, 0x7f67875f, 0x77192407, 0x20aa99ca), 22, Sha1State(0x21283486, 0x33a23bfc, 0x868dec32, 0x7f67875f, 0x77192407), 0x0b131c03);
    NextRound(Sha1State(0x21283486, 0x33a23bfc, 0x868dec32, 0x7f67875f, 0x77192407), 23, Sha1State(0xd541f12d, 0x21283486, 0x0ce88eff, 0x868dec32, 0x7f67875f), 0x00000030);
  }

  lemma Rounds24()
    ensures Rounds(SHA1.iv, ABC, 32) == Sha1State(0x3b845d33, 0x1267b407, 0x717eebd7, 0xa0dc2d4b, 0xd2aa1365)
  {
    hide Wt, Rounds;
    Rounds16();
    Words24();
    NextRound(Sha1State(0xd541f12d, 0x21283486, 0x0ce88eff, 0x868dec32, 0x7f67875f), 24, Sha1State(0xc7567dc6, 0xd541f12d, 0x884a0d21, 0x0ce88eff, 0x868dec32), 0x85898ec1);
    NextRound(Sha1State(0xc7567dc6, 0xd541f12d, 0x884a0d21, 0x0ce88eff, 0x868dec32), 25, Sha1State(0x48413ba4, 0xc7567dc6, 0x75507c4b, 0x884a0d21, 0x0ce88eff), 0x16263806);
    NextRound(Sha1State(0x48413ba4, 0xc7567dc6, 0x75507c4b, 0x884a0d21, 0x0ce88eff), 26, Sha1State(0xbe35fbd5, 0x48413ba4, 0xb1d59f71, 0x75507c4b, 0x884a0d21), 0x00000000);
    NextRound(Sha1State(0xbe35fbd5, 0x48413ba4, 0xb1d59f71, 0x75507c4b, 0x884a0d21), 27, Sha1State(0x4aa84d97, 0xbe35fbd5, 0x12104ee9, 0xb1d59f71, 0x75507c4b), 0x00000180);
    NextRound(Sha1State(0x4aa84d97, 0xbe35fbd5, 0x12104ee9, 0xb1d59f71, 0x75507c4b), 28, Sha1State(0x8370b52e, 0x4aa84d97, 0x6f8d7ef5, 0x12104ee9, 0xb1d59f71), 0x2c4c700c);
    NextRound(Sha1State(0x8370b52e, 0x4aa84d97, 0x6f8d7ef5, 0x12104ee9, 0xb1d59f71), 29, Sha1State(0xc5fbaf5d, 0x8370b52e, 0xd2aa1365, 0x6f8d7ef5, 0x12104ee9), 0x000000f0);
    NextRound(Sha1State(0xc5fbaf5d, 0x8370b52e, 0xd2aa1365, 0x6f8d7ef5, 0x12104ee9), 30, Sha1State(0x1267b407, 0xc5fbaf5d, 0xa0dc2d4b, 0xd2aa1365, 0x6f8d7ef5), 0x93afb507);
    NextRound(Sha1State(0x1267b407, 0xc5fbaf5d, 0xa0dc2d4b, 0xd2aa1365, 0x6f8d7ef5), 31, Sha1State(0x3b845d33, 0x1267b407, 0x717eebd7, 0xa0dc2d4b, 0xd2aa1365), 0x5898e048);
  }

  lemma Rounds32()
    ensures Rounds(SHA1.iv, ABC, 40) == Sha1State(0x32de1cba, 0x4c986405, 0xf718e5cf, 0x03d447f6, 0xf72eec32)
  {
    hide Wt, Rounds;
    Rounds24();
    Words32();
    NextRound(Sha1State(0x3b845d33, 0x1267b407, 0x717eebd7, 0xa0dc2d4b, 0xd2aa1365), 32, Sha1State(0x046faa0a, 0x3b845d33, 0xc499ed01, 0x717eebd7, 0xa0dc2d4b), 0x8e9a9202);
    NextRound(Sha1State(0x046faa0a, 0x3b845d33, 0xc499ed01, 0x717eebd7, 0xa0dc2d4b), 33, Sha1State(0x2c0ebc11, 0x046faa0a, 0xcee1174c, 0xc499ed01, 0x717eebd7), 0x00000600);
    NextRound(Sha1State(0x2c0ebc11, 0x046faa0a, 0xcee1174c, 0xc499ed01, 0x717eebd7), 34, Sha1State(0x21796ad4, 0x2c0ebc11, 0x811bea82, 0xcee1174c, 0xc499ed01), 0xb131c0f0);
    NextRound(Sha1State(0x21796ad4, 0x2c0ebc11, 0x811bea82, 0xcee1174c, 0xc499ed01), 35, Sha1State(0xdcbbb0cb, 0x21796ad4, 0x4b03af04, 0x811bea82, 0xcee1174c), 0x16263bc6);
    NextRound(Sha1State(0xdcbbb0cb, 0x21796ad4, 0x4b03af04, 0x811bea82, 0xcee1174c), 36, Sha1State(0x0f511fd8, 0xdcbbb0cb, 0x085e5ab5, 0x4b03af04, 0x811bea82), 0x4ebed41e);
    NextRound(Sha1State(0x0f511fd8, 0xdcbbb0cb, 0x085e5ab5, 0x4b03af04, 0x811bea82), 37, Sha1State(0xdc63973f, 0x0f511fd8, 0xf72eec32, 0x085e5ab5, 0x4b03af04), 0x626380a1);
    NextRound(Sha1State(0xdc63973f, 0x0f511fd8, 0xf72eec32, 0x085e5ab5, 0x4b03af04), 38, Sha1State(0x4c986405, 0xdc63973f, 0x03d447f6, 0xf72eec32, 0x085e5ab5), 0x16263806);
    NextRound(Sha1State(0x4c986405, 0xdc63973f, 0x03d447f6, 0xf72eec32, 0x085e5ab5), 39, Sha1State(0x32de1cba, 0x4c986405, 0xf718e5cf, 0x03d447f6, 0xf72eec32), 0x000018c0);
  }

  lemma Rounds40()
    ensures Rounds(SHA1.iv, ABC, 48) == Sha1State(0xbead02ca, 0xa01b846c, 0x8714787c, 0x503ca382, 0xfb86c6ab)
  {
    hide Wt, Rounds;
    Rounds32();
    Words40();
    NextRound(Sha1State(0x32de1cba, 0x4c986405, 0xf718e5cf, 0x03d447f6, 0xf72eec32), 40, Sha1State(0xfc87dedf, 0x32de1cba, 0x53261901, 0xf718e5cf, 0x03d447f6), 0xd2e138c4);
    NextRound(Sha1State(0xfc87dedf, 0x32de1cba, 0x53261901, 0xf718e5cf, 0x03d447f6), 41, Sha1State(0x970a0d5c, 0xfc87dedf, 0x8cb7872e, 0x53261901, 0xf718e5cf), 0x00000f00);
    NextRound(Sha1State(0x970a0d5c, 0xfc87dedf, 0x8cb7872e, 0x53261901, 0xf718e5cf), 42, Sha1State(0x7f193dc5, 0x970a0d5c, 0xff21f7b7, 0x8cb7872e, 0x53261901), 0x3afb5079);
    NextRound(Sha1State(0x7f193dc5, 0x970a0d5c, 0xff21f7b7, 0x8cb7872e, 0x53261901), 43, Sha1State(0xee1b1aaf, 0x7f193dc5, 0x25c28357, 0xff21f7b7, 0x8cb7872e), 0x898e04e5);
    NextRound(Sha1State(0xee1b1aaf, 0x7f193dc5, 0x25c28357, 0xff21f7b7, 0x8cb7872e), 44, Sha1State(0x40f28e09, 0xee1b1aaf, 0x5fc64f71, 0x25c28357, 0xff21f7b7), 0xe2ba3c2b);
    NextRound(Sha1State(0x40f28e09, 0xee1b1aaf, 0x5fc64f71, 0x25c28357, 0xff21f7b7), 45, Sha1State(0x1c51e1f2, 0x40f28e09, 0xfb86c6ab, 0x5fc64f71, 0x25c28357), 0x000060c0);
    NextRound(Sha1State(0x1c51e1f2, 0x40f28e09, 0xfb86c6ab, 0x5fc64f71, 0x25c28357), 46, Sha1State(0xa01b846c, 0x1c51e1f2, 0x503ca382, 0xfb86c6ab, 0x5fc64f71), 0x053a37cd);
    NextRound(Sha1State(0xa01b846c, 0x1c51e1f2, 0x503ca382, 0xfb86c6ab, 0x5fc64f71), 47, Sha1State(0xbead02ca, 0xa01b846c, 0x8714787c, 0x503ca382, 0xfb86c6ab), 0x74458547);
  }

  lemma Rounds48()
    ensures Rounds(SHA1.iv, ABC, 56) == Sha1State(0x5e6456af, 0x7b71f76d, 0x09fa7c76, 0x792410db, 0x8e11eb59)
  {
    hide Wt, Rounds;
    Rounds40();
    Words48();
    NextRound(Sha1State(0xbead02ca, 0xa01b846c, 0x8714787c, 0x503ca382, 0xfb86c6ab), 48, Sha1State(0xbaf39337, 0xbead02ca, 0x2806e11b, 0x8714787c, 0x503ca382), 0xda9415ed);
    NextRound(Sha1State(0xbaf39337, 0xbead02ca, 0x2806e11b, 0x8714787c, 0x503ca382), 49, Sha1State(0x120731c5, 0xbaf39337, 0xafab40b2, 0x2806e11b, 0x8714787c), 0x26380a16);
    NextRound(Sha1State(0x120731c5, 0xbaf39337, 0xafab40b2, 0x2806e11b, 0x8714787c), 50, Sha1State(0x641db2ce, 0x120731c5, 0xeebce4cd, 0xafab40b2, 0x2806e11b), 0x626383a1);
    NextRound(Sha1State(0x641db2ce, 0x120731c5, 0xeebce4cd, 0xafab40b2, 0x2806e11b), 51, Sha1State(0x3847ad66, 0x641db2ce, 0x4481cc71, 0xeebce4cd, 0xafab40b2), 0x4ebf54de);
    NextRound(Sha1State(0x3847ad66, 0x641db2ce, 0x4481cc71, 0xeebce4cd, 0xafab40b2), 52, Sha1State(0xe490436d, 0x3847ad66, 0x99076cb3, 0x4481cc71, 0xeebce4cd), 0x3835b44b);
    NextRound(Sha1State(0xe490436d, 0x3847ad66, 0x99076cb3, 0x4481cc71, 0xeebce4cd), 53, Sha1State(0x27e9f1d8, 0xe490436d, 0x8e11eb59, 0x99076cb3, 0x4481cc71), 0x0000f600);
    NextRound(Sha1State(0x27e9f1d8, 0xe490436d, 0x8e11eb59, 0x99076cb3, 0x4481cc71), 54, Sha1State(0x7b71f76d, 0x27e9f1d8, 0x792410db, 0x8e11eb59, 0x99076cb3), 0x1e84c7a3);
    NextRound(Sha1State(0x7b71f76d, 0x27e9f1d8, 0x792410db, 0x8e11eb59, 0x99076cb3), 55, Sha1State(0x5e6456af, 0x7b71f76d, 0x09fa7c76, 0x792410db, 0x8e11eb59), 0x98e04d98);
  }

  lemma Rounds56()
    ensures Rounds(SHA1.iv, ABC, 64) == Sha1State(0x6b61c9e1, 0xb66c020b, 0x9523272c, 0xf5d5b051, 0x8fd4b796)
  {
    hide Wt, Rounds;
    Rounds48();
    Words56();
    NextRound(Sha1State(0x5e6456af, 0x7b71f76d, 0x09fa7c76, 0x792410db, 0x8e11eb59), 56, Sha1State(0xc846093f, 0x5e6456af, 0x5edc7ddb, 0x09fa7c76, 0x792410db), 0x651d16a0);
    NextRound(Sha1State(0xc846093f, 0x5e6456af, 0x5edc7ddb, 0x09fa7c76, 0x792410db), 57, Sha1State(0xd262ff50, 0xc846093f, 0xd79915ab, 0x5edc7ddb, 0x09fa7c76), 0x62658ca1);
    NextRound(Sha1State(0xd262ff50, 0xc846093f, 0xd79915ab, 0x5edc7ddb, 0x09fa7c76), 58, Sha1State(0x09d785fd, 0xd262ff50, 0xf211824f, 0xd79915ab, 0x5edc7ddb), 0x458544d6);
    NextRound(Sha1State(0x09d785fd, 0xd262ff50, 0xf211824f, 0xd79915ab, 0x5edc7ddb), 59, Sha1State(0x3f52de5a, 0x09d785fd, 0x3498bfd4, 0xf211824f, 0xd79915ab), 0x44584cb7);
    NextRound(Sha1State(0x3f52de5a, 0x09d785fd, 0x3498bfd4, 0xf211824f, 0xd79915ab), 60, Sha1State(0xd756c147, 0x3f52de5a, 0x4275e17f, 0x3498bfd4, 0xf211824f), 0x7ba06619);
    NextRound(Sha1State(0xd756c147, 0x3f52de5a, 0x4275e17f, 0x3498bfd4, 0xf211824f), 61, Sha1State(0x548c9cb2, 0xd756c147, 0x8fd4b796, 0x4275e17f, 0x3498bfd4), 0x6380aea2);
    NextRound(Sha1State(0x548c9cb2, 0xd756c147, 0x8fd4b796, 0x4275e17f, 0x3498bfd4), 62, Sha1State(0xb66c020b, 0x548c9cb2, 0xf5d5b051, 0x8fd4b796, 0x4275e17f), 0x0ae55269);
    NextRound(Sha1State(0xb66c020b, 0x548c9cb2, 0xf5d5b051, 0x8fd4b796, 0x4275e17f), 63, Sha1State(0x6b61c9e1, 0xb66c020b, 0x9523272c, 0xf5d5b051, 0x8fd4b796), 0x627b49a1);
  }

  lemma Rounds64()
    ensures Rounds(SHA1.iv, ABC, 72) == Sha1State(0x39859de7, 0xc199f8c7, 0x8fc96230, 0x125c24f0, 0xde37534a)
  {
    hide Wt, Rounds;
    Rounds56();
    Words64();
    NextRound(Sha1State(0x6b61c9e1, 0xb66c020b, 0x9523272c, 0xf5d5b051, 0x8fd4b796), 64, Sha1State(0x19dfa7ac, 0x6b61c9e1, 0xed9b0082, 0x9523272c, 0xf5d5b051), 0x7cd45c9d);
    NextRound(Sha1State(0x19dfa7ac, 0x6b61c9e1, 0xed9b0082, 0x9523272c, 0xf5d5b051), 65, Sha1State(0x101655f9, 0x19dfa7ac, 0x5ad87278, 0xed9b0082, 0x9523272c), 0x000f0000);
    NextRound(Sha1State(0x101655f9, 0x19dfa7ac, 0x5ad87278, 0xed9b0082, 0x9523272c), 66, Sha1State(0x0c3df2b4, 0x101655f9, 0x0677e9eb, 0x5ad87278, 0xed9b0082), 0xfb50753a);
    NextRound(Sha1State(0x0c3df2b4, 0x101655f9, 0x0677e9eb, 0x5ad87278, 0xed9b0082), 67, Sha1State(0x78dd4d2b, 0x0c3df2b4, 0x4405957e, 0x0677e9eb, 0x5ad87278), 0xec6765e8);
    NextRound(Sha1State(0x78dd4d2b, 0x0c3df2b4, 0x4405957e, 0x0677e9eb, 0x5ad87278), 68, Sha1State(0x497093c0, 0x78dd4d2b, 0x030f7cad, 0x4405957e, 0x0677e9eb), 0xba3c2be2);
    NextRound(Sha1State(0x497093c0, 0x78dd4d2b, 0x030f7cad, 0x4405957e, 0x0677e9eb), 69, Sha1State(0x3f2588c2, 0x497093c0, 0xde37534a, 0x030f7cad, 0x4405957e), 0x0060c000);
    NextRound(Sha1State(0x3f2588c2, 0x497093c0, 0xde37534a, 0x030f7cad, 0x4405957e), 70, Sha1State(0xc199f8c7, 0x3f2588c2, 0x125c24f0, 0xde37534a, 0x030f7cad), 0x3a37cd05);
    NextRound(Sha1State(0xc199f8c7, 0x3f2588c2, 0x125c24f0, 0xde37534a, 0x030f7cad), 71, Sha1State(0x39859de7, 0xc199f8c7, 0x8fc96230, 0x125c24f0, 0xde37534a), 0x458546f4);
  }

  lemma Rounds72()
    ensures Rounds(SHA1.iv, ABC, 80) == Sha1State(0x42541b35, 0x5738d5e1, 0x21834873, 0x681e6df6, 0xd8fdf6ad)
  {
    hide Wt, Rounds;
    Rounds64();
    Words72();
    NextRound(Sha1State(0x39859de7, 0xc199f8c7, 0x8fc96230, 0x125c24f0, 0xde37534a), 72, Sha1State(0xedb42de4, 0x39859de7, 0xf0667e31, 0x8fc96230, 0x125c24f0), 0xb8599dd6);
    NextRound(Sha1State(0xedb42de4, 0x39859de7, 0xf0667e31, 0x8fc96230, 0x125c24f0), 73, Sha1State(0x11793f6f, 0xedb42de4, 0xce616779, 0xf0667e31, 0x8fc96230), 0x380a1a26);
    NextRound(Sha1State(0x11793f6f, 0xedb42de4, 0xce616779, 0xf0667e31, 0x8fc96230), 74, Sha1State(0x5ee76897, 0x11793f6f, 0x3b6d0b79, 0xce616779, 0xf0667e31), 0x01e02203);
    NextRound(Sha1State(0x5ee76897, 0x11793f6f, 0x3b6d0b79, 0xce616779, 0xf0667e31), 75, Sha1State(0x63f7dab7, 0x5ee76897, 0xc45e4fdb, 0x3b6d0b79, 0xce616779), 0xe7cc3456);
    NextRound(Sha1State(0x63f7dab7, 0x5ee76897, 0xc45e4fdb, 0x3b6d0b79, 0xce616779), 76, Sha1State(0xa079b7d9, 0x63f7dab7, 0xd7b9da25, 0xc45e4fdb, 0x3b6d0b79), 0xe6e60b69);
    NextRound(Sha1State(0xa079b7d9, 0x63f7dab7, 0xd7b9da25, 0xc45e4fdb, 0x3b6d0b79), 77, Sha1State(0x860d21cc, 0xa079b7d9, 0xd8fdf6ad, 0xd7b9da25, 0xc45e4fdb), 0x00f60a00);
    NextRound(Sha1State(0x860d21cc, 0xa079b7d9, 0xd8fdf6ad, 0xd7b9da25, 0xc45e4fdb), 78, Sha1State(0x5738d5e1, 0x860d21cc, 0x681e6df6, 0xd8fdf6ad, 0xd7b9da25), 0x5795ef4f);
    NextRound(Sha1State(0x5738d5e1, 0x860d21cc, 0x681e6df6, 0xd8fdf6ad, 0xd7b9da25), 79, Sha1State(0x42541b35, 0x5738d5e1, 0x21834873, 0x681e6df6, 0xd8fdf6ad), 0x822e0879);
  }

  lemma Start()
    ensures Rounds(SHA1.iv, ABC, 0) == Sha1State(0x67452301, 0xefcdab89, 0x98badcfe, 0x10325476, 0xc3d2e1f0)
  {}

  lemma AbcState()
    ensures Compress(SHA1.iv, ABC) == Sha1State(0xa9993e36, 0x4706816a, 0xba3e2571, 0x7850c26c, 0x9cd0d89d)
  {
    hide Rounds;
    Rounds72();
  }

  lemma AbcLength()
    ensures LengthBytes(3, true) == Zeros(7) + [24]
  {
    LengthIs24();
    Low24();
    hide LengthBytes, BigEndianBytes, LowByte, Zeros;
    BytesUnfold(24, 8);
    ZeroBytes(7);
  }

  lemma LengthIs24()
    ensures LengthBytes(3, true) == BigEndianBytes(24, 8)
  {
    hide BigEndianBytes;
  }

  lemma Low24()
    ensures LowByte(24) == 24
  {
    OctetIs(24);
    ThereAndBack(24);
  }

  lemma {:induction false} ZeroBytes(k: nat)
    ensures BigEndianBytes(0, k) == Zeros(k)
  {
    if k > 0 {
      ZeroBytes(k - 1);
      ZerosEnd(k - 1);
    }
  }

  lemma {:induction false} ZerosEnd(k: nat)
    ensures Zeros(k) + [0] == Zeros(k + 1)
  {}

  lemma AbcPadded()
    ensures Pad([0x61, 0x62, 0x63], true) == ABC
  {
    AbcLength();
    assert ZeroCount(3) == 52;
    hide Zeros, LengthBytes;
    ZerosJoin(Zeros(52), Zeros(7));
    Joined([0x61, 0x62, 0x63], [0x80], Zeros(52), Zeros(7), [24]);
  }

  lemma ZerosJoin(a: seq<Octet>, b: seq<Octet>)
    requires |a| == 52 && |b| == 7 && (forall i :: 0 <= i < |a| ==> a[i] == 0) && forall i :: 0 <= i < |b| ==> b[i] == 0
    ensures a + b == seq(59, _ => 0)
  {}

  lemma Joined(m: seq<Octet>, x: seq<Octet>, a: seq<Octet>, b: seq<Octet>, y: seq<Octet>)
    ensures m + (x + a) + (b + y) == m + x + (a + b) + y
  {}

  lemma OneBlock<S>(compress: (S, Block) -> S, s: S, b: Block)
    ensures Fold(compress, s, b) == compress(s, b)
  {
    assert b[..64] == b && b[64..] == [];
  }

  lemma AbcEncoded()
    ensures SHA1.encode(Compress(SHA1.iv, ABC)) ==
      [0xa9, 0x99, 0x3e, 0x36, 0x47, 0x06, 0x81, 0x6a, 0xba, 0x3e, 0x25, 0x71, 0x78, 0x50, 0xc2, 0x6c, 0x9c, 0xd0, 0xd8, 0x9d]
  {
    AbcState();
    hide Compress;
  }

  // The digest of "abc".
  lemma AbcDigest()
    ensures Digest(SHA1, [0x61, 0x62, 0x63]) ==
      [0xa9, 0x99, 0x3e, 0x36, 0x47, 0x06, 0x81, 0x6a, 0xba, 0x3e, 0x25, 0x71, 0x78, 0x50, 0xc2, 0x6c, 0x9c, 0xd0, 0xd8, 0x9d]
  {
    hide Pad, Fold, Compress;
    AbcPadded();
    OneBlock(SHA1.compress, SHA1.iv, ABC);
    AbcEncoded();
  }
}
