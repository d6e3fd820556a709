/** The digest of "abc" under FIPS 180-4, round by round. */
module Sha1Known {
  import opened Bytes
  import opened HashBlocks
  import opened Sha1

  /** The padded message: one block. */
  function Block(): (b: seq<byte>)
    ensures |b| == 64
  {
    [0x61, 0x62, 0x63, 0x80] + Zeros(52) + [0, 0, 0, 0, 0, 0, 0, 24]
  }

  lemma PaddedIs()
    ensures Padded([0x61, 0x62, 0x63], Length64(24)) == Block()
  {
    assert Length64(24) == [0, 0, 0, 0, 0, 0, 0, 24];
    assert ZeroCount(3) == 52;
    assert [0x61, 0x62, 0x63] + [0x80] == [0x61, 0x62, 0x63, 0x80];
  }

  /** Word `t` of the schedule. */
  ghost predicate Is(t: nat, w: word)
  {
    Schedule(Block(), t) == w
  }

  lemma FirstWords()
    ensures Is(0, 0x61626380) && Is(15, 24) && forall t :: 1 <= t < 15 ==> Is(t, 0)
  {
    hide Schedule, Block, BigBytes;
    EndBytes();
    SomeWords();
    ScheduleStep(Block(), 0);
    forall t | 1 <= t < 15
      ensures Is(t, 0)
    {
      ScheduleStep(Block(), t);
      ZeroBytes(t);
    }
    ScheduleStep(Block(), 15);
  }

  lemma SomeWords()
    ensures BigBytes(0x61, 0x62, 0x63, 0x80) == 0x61626380 && BigBytes(0, 0, 0, 24) == 24 && BigBytes(0, 0, 0, 0) == 0
  {
  }

  lemma ZeroBytes(t: nat)
    requires 1 <= t < 15
    ensures Block()[4 * t] == 0 && Block()[4 * t + 1] == 0 && Block()[4 * t + 2] == 0 && Block()[4 * t + 3] == 0
  {
  }

  lemma EndBytes()
    ensures Block()[0] == 0x61 && Block()[1] == 0x62 && Block()[2] == 0x63 && Block()[3] == 0x80
    ensures Block()[60] == 0 && Block()[61] == 0 && Block()[62] == 0 && Block()[63] == 24
  {
  }

  /** One more word of the schedule. */
  lemma Word(t: nat, a: word, b: word, c: word, d: word, w: word)
    requires t >= 16 && Is(t - 3, a) && Is(t - 8, b) && Is(t - 14, c) && Is(t - 16, d)
    requires w == RotateLeft(a ^ b ^ c ^ d, 1)
    ensures Is(t, w)
  {
    hide RotateLeft, BigWord, Schedule, Block;
    ScheduleStep(Block(), t);
  }

  /** One more round. */
  lemma Round(t: nat, s: State, w: word, s': State)
    requires Rounds(INIT, Block(), t) == s && Is(t, w)
    requires s'.a == Plus(Plus(Plus(Plus(RotateLeft(s.a, 5), F(t, s.b, s.c, s.d)), s.e), w), K(t))
    requires s'.c == RotateLeft(s.b, 30) && s'.b == s.a && s'.d == s.c && s'.e == s.d
    ensures Rounds(INIT, Block(), t + 1) == s'
  {
    hide RotateLeft, F, K, Plus, Schedule, Block;
    RoundStep(INIT, Block(), t);
  }

  lemma Words16()
    ensures Is(16, 0xc2c4c700) && Is(17, 0x00000000) && Is(18, 0x00000030) && Is(19, 0x85898e01)
    ensures Is(20, 0x00000000) && Is(21, 0x00000060) && Is(22, 0x0b131c03) && Is(23, 0x00000030)
  {
    hide Is;
    FirstWords();
    Word(16, 0x00000000, 0x00000000, 0x00000000, 0x61626380, 0xc2c4c700);
    Word(17, 0x00000000, 0x00000000, 0x00000000, 0x00000000, 0x00000000);
    Word(18, 0x00000018, 0x00000000, 0x00000000, 0x00000000, 0x00000030);
    Word(19, 0xc2c4c700, 0x00000000, 0x00000000, 0x00000000, 0x85898e01);
    Word(20, 0x00000000, 0x00000000, 0x00000000, 0x00000000, 0x00000000);
    Word(21, 0x00000030, 0x00000000, 0x00000000, 0x00000000, 0x00000060);
    Word(22, 0x85898e01, 0x00000000, 0x00000000, 0x00000000, 0x0b131c03);
    Word(23, 0x00000000, 0x00000018, 0x00000000, 0x00000000, 0x00000030);
  }

  lemma Words24()
    ensures Is(24, 0x85898ec1) && Is(25, 0x16263806) && Is(26, 0x00000000) && Is(27, 0x00000180)
    ensures Is(28, 0x2c4c700c) && Is(29, 0x000000f0) && Is(30, 0x93afb507) && Is(31, 0x5898e048)
  {
    hide Is;
    FirstWords();
    Words16();
    Word(24, 0x00000060, 0xc2c4c700, 0x00000000, 0x00000000, 0x85898ec1);
    Word(25, 0x0b131c03, 0x00000000, 0x00000000, 0x00000000, 0x16263806);
    Word(26, 0x00000030, 0x00000030, 0x00000000, 0x00000000, 0x00000000);
    Word(27, 0x85898ec1, 0x85898e01, 0x00000000, 0x00000000, 0x00000180);
    Word(28, 0x16263806, 0x00000000, 0x00000000, 0x00000000, 0x2c4c700c);
    Word(29, 0x00000000, 0x00000060, 0x00000018, 0x00000000, 0x000000f0);
    Word(30, 0x00000180, 0x0b131c03, 0xc2c4c700, 0x00000000, 0x93afb507);
    Word(31, 0x2c4c700c, 0x00000030, 0x00000000, 0x00000018, 0x5898e048);
  }

  lemma Words32()
    ensures Is(32, 0x8e9a9202) && Is(33, 0x00000600) && Is(34, 0xb131c0f0) && Is(35, 0x16263bc6)
    ensures Is(36, 0x4ebed41e) && Is(37, 0x626380a1) && Is(38, 0x16263806) && Is(39, 0x000018c0)
  {
    hide Is;
    Words16();
    Words24();
    Word(32, 0x000000f0, 0x85898ec1, 0x00000030, 0xc2c4c700, 0x8e9a9202);
    Word(33, 0x93afb507, 0x16263806, 0x85898e01, 0x00000000, 0x00000600);
    Word(34, 0x5898e048, 0x00000000, 0x00000000, 0x00000030, 0xb131c0f0);
    Word(35, 0x8e9a9202, 0x00000180, 0x00000060, 0x85898e01, 0x16263bc6);
    Word(36, 0x00000600, 0x2c4c700c, 0x0b131c03, 0x00000000, 0x4ebed41e);
    Word(37, 0xb131c0f0, 0x000000f0, 0x00000030, 0x00000060, 0x626380a1);
    Word(38, 0x16263bc6, 0x93afb507, 0x85898ec1, 0x0b131c03, 0x16263806);
    Word(39, 0x4ebed41e, 0x5898e048, 0x16263806, 0x00000030, 0x000018c0);
  }

  lemma Words40()
    ensures Is(40, 0xd2e138c4) && Is(41, 0x00000f00) && Is(42, 0x3afb5079) && Is(43, 0x898e04e5)
    ensures Is(44, 0xe2ba3c2b) && Is(45, 0x000060c0) && Is(46, 0x053a37cd) && Is(47, 0x74458547)
  {
    hide Is;
    Words24();
    Words32();
    Word(40, 0x626380a1, 0x8e9a9202, 0x00000000, 0x85898ec1, 0xd2e138c4);
    Word(41, 0x16263806, 0x00000600, 0x00000180, 0x16263806, 0x00000f00);
    Word(42, 0x000018c0, 0xb131c0f0, 0x2c4c700c, 0x00000000, 0x3afb5079);
    Word(43, 0xd2e138c4, 0x16263bc6, 0x000000f0, 0x00000180, 0x898e04e5);
    Word(44, 0x00000f00, 0x4ebed41e, 0x93afb507, 0x2c4c700c, 0xe2ba3c2b);
    Word(45, 0x3afb5079, 0x626380a1, 0x5898e048, 0x000000f0, 0x000060c0);
    Word(46, 0x898e04e5, 0x16263806, 0x8e9a9202, 0x93afb507, 0x053a37cd);
    Word(47, 0xe2ba3c2b, 0x000018c0, 0x00000600, 0x5898e048, 0x74458547);
  }

  lemma Words48()
    ensures Is(48, 0xda9415ed) && Is(49, 0x26380a16) && Is(50, 0x626383a1) && Is(51, 0x4ebf54de)
    ensures Is(52, 0x3835b44b) && Is(53, 0x0000f600) && Is(54, 0x1e84c7a3) && Is(55, 0x98e04d98)
  {
    hide Is;
    Words32();
    Words40();
    Word(48, 0x000060c0, 0xd2e138c4, 0xb131c0f0, 0x8e9a9202, 0xda9415ed);
    Word(49, 0x053a37cd, 0x00000f00, 0x16263bc6, 0x00000600, 0x26380a16);
    Word(50, 0x74458547, 0x3afb5079, 0x4ebed41e, 0xb131c0f0, 0x626383a1);
    Word(51, 0xda9415ed, 0x898e04e5, 0x626380a1, 0x16263bc6, 0x4ebf54de);
    Word(52, 0x26380a16, 0xe2ba3c2b, 0x16263806, 0x4ebed41e, 0x3835b44b);
    Word(53, 0x626383a1, 0x000060c0, 0x000018c0, 0x626380a1, 0x0000f600);
    Word(54, 0x4ebf54de, 0x053a37cd, 0xd2e138c4, 0x16263806, 0x1e84c7a3);
    Word(55, 0x3835b44b, 0x74458547, 0x00000f00, 0x000018c0, 0x98e04d98);
  }

  lemma Words56()
    ensures Is(56, 0x651d16a0) && Is(57, 0x62658ca1) && Is(58, 0x458544d6) && Is(59, 0x44584cb7)
    ensures Is(60, 0x7ba06619) && Is(61, 0x6380aea2) && Is(62, 0x0ae55269) && Is(63, 0x627b49a1)
  {
    hide Is;
    Words40();
    Words48();
    Word(56, 0x0000f600, 0xda9415ed, 0x3afb5079, 0xd2e138c4, 0x651d16a0);
    Word(57, 0x1e84c7a3, 0x26380a16, 0x898e04e5, 0x00000f00, 0x62658ca1);
    Word(58, 0x98e04d98, 0x626383a1, 0xe2ba3c2b, 0x3afb5079, 0x458544d6);
    Word(59, 0x651d16a0, 0x4ebf54de, 0x000060c0, 0x898e04e5, 0x44584cb7);
    Word(60, 0x62658ca1, 0x3835b44b, 0x053a37cd, 0xe2ba3c2b, 0x7ba06619);
    Word(61, 0x458544d6, 0x0000f600, 0x74458547, 0x000060c0, 0x6380aea2);
    Word(62, 0x44584cb7, 0x1e84c7a3, 0xda9415ed, 0x053a37cd, 0x0ae55269);
    Word(63, 0x7ba06619, 0x98e04d98, 0x26380a16, 0x74458547, 0x627b49a1);
  }

  lemma Words64()
    ensures Is(64, 0x7cd45c9d) && Is(65, 0x000f0000) && Is(66, 0xfb50753a) && Is(67, 0xec6765e8)
    ensures Is(68, 0xba3c2be2) && Is(69, 0x0060c000) && Is(70, 0x3a37cd05) && Is(71, 0x458546f4)
  {
    hide Is;
    Words48();
    Words56();
    Word(64, 0x6380aea2, 0x651d16a0, 0x626383a1, 0xda9415ed, 0x7cd45c9d);
    Word(65, 0x0ae55269, 0x62658ca1, 0x4ebf54de, 0x26380a16, 0x000f0000);
    Word(66, 0x627b49a1, 0x458544d6, 0x3835b44b, 0x626383a1, 0xfb50753a);
    Word(67, 0x7cd45c9d, 0x44584cb7, 0x0000f600, 0x4ebf54de, 0xec6765e8);
    Word(68, 0x000f0000, 0x7ba06619, 0x1e84c7a3, 0x3835b44b, 0xba3c2be2);
    Word(69, 0xfb50753a, 0x6380aea2, 0x98e04d98, 0x0000f600, 0x0060c000);
    Word(70, 0xec6765e8, 0x0ae55269, 0x651d16a0, 0x1e84c7a3, 0x3a37cd05);
    Word(71, 0xba3c2be2, 0x627b49a1, 0x62658ca1, 0x98e04d98, 0x458546f4);
  }

  lemma Words72()
    ensures Is(72, 0xb8599dd6) && Is(73, 0x380a1a26) && Is(74, 0x01e02203) && Is(75, 0xe7cc3456)
    ensures Is(76, 0xe6e60b69) && Is(77, 0x00f60a00) && Is(78, 0x5795ef4f) && Is(79, 0x822e0879)
  {
    hide Is;
    Words56();
    Words64();
    Word(72, 0x0060c000, 0x7cd45c9d, 0x458544d6, 0x651d16a0, 0xb8599dd6);
    Word(73, 0x3a37cd05, 0x000f0000, 0x44584cb7, 0x62658ca1, 0x380a1a26);
    Word(74, 0x458546f4, 0xfb50753a, 0x7ba06619, 0x458544d6, 0x01e02203);
    Word(75, 0xb8599dd6, 0xec6765e8, 0x6380aea2, 0x44584cb7, 0xe7cc3456);
    Word(76, 0x380a1a26, 0xba3c2be2, 0x0ae55269, 0x7ba06619, 0xe6e60b69);
    Word(77, 0x01e02203, 0x0060c000, 0x627b49a1, 0x6380aea2, 0x00f60a00);
    Word(78, 0xe7cc3456, 0x3a37cd05, 0x7cd45c9d, 0x0ae55269, 0x5795ef4f);
    Word(79, 0xe6e60b69, 0x458546f4, 0x000f0000, 0x627b49a1, 0x822e0879);
  }

  lemma Rounds8()
    ensures Rounds(INIT, Block(), 8) == State(0x9e8c07d4, 0x993e30c1, 0x0ff1f290, 0xb3f52677, 0xf3763846)
  {
    hide Rounds, Is;
    RoundsNone(INIT, Block());
    FirstWords();
    Round(0, State(0x67452301, 0xefcdab89, 0x98badcfe, 0x10325476, 0xc3d2e1f0), 0x61626380,
          State(0x0116fc33, 0x67452301, 0x7bf36ae2, 0x98badcfe, 0x10325476));
    Round(1, State(0x0116fc33, 0x67452301, 0x7bf36ae2, 0x98badcfe, 0x10325476), 0x00000000,
          State(0x8990536d, 0x0116fc33, 0x59d148c0, 0x7bf36ae2, 0x98badcfe));
    Round(2, State(0x8990536d, 0x0116fc33, 0x59d148c0, 0x7bf36ae2, 0x98badcfe), 0x00000000,
          State(0xa1390f08, 0x8990536d, 0xc045bf0c, 0x59d148c0, 0x7bf36ae2));
    Round(3, State(0xa1390f08, 0x8990536d, 0xc045bf0c, 0x59d148c0, 0x7bf36ae2), 0x00000000,
          State(0xcdd8e11b, 0xa1390f08, 0x626414db, 0xc045bf0c, 0x59d148c0));
    Round(4, State(0xcdd8e11b, 0xa1390f08, 0x626414db, 0xc045bf0c, 0x59d148c0), 0x00000000,
          State(0xcfd499de, 0xcdd8e11b, 0x284e43c2, 0x626414db, 0xc045bf0c));
    Round(5, State(0xcfd499de, 0xcdd8e11b, 0x284e43c2, 0x626414db, 0xc045bf0c), 0x00000000,
          State(0x3fc7ca40, 0xcfd499de, 0xf3763846, 0x284e43c2, 0x626414db));
    Round(6, State(0x3fc7ca40, 0xcfd499de, 0xf3763846, 0x284e43c2, 0x626414db), 0x00000000,
          State(0x993e30c1, 0x3fc7ca40, 0xb3f52677, 0xf3763846, 0x284e43c2));
    Round(7, State(0x993e30c1, 0x3fc7ca40, 0xb3f52677, 0xf3763846, 0x284e43c2), 0x00000000,
          State(0x9e8c07d4, 0x993e30c1, 0x0ff1f290, 0xb3f52677, 0xf3763846));
  }

  lemma Rounds16()
    ensures Rounds(INIT, Block(), 16) == State(0x20bdd62f, 0x196bee77, 0x644a3da5, 0x1181ed99, 0x18c623f9)
  {
    hide Rounds, Is;
    Rounds8();
    FirstWords();
    Round(8, State(0x9e8c07d4, 0x993e30c1, 0x0ff1f290, 0xb3f52677, 0xf3763846), 0x00000000,
          State(0x4b6ae328, 0x9e8c07d4, 0x664f8c30, 0x0ff1f290, 0xb3f52677));
    Round(9, State(0x4b6ae328, 0x9e8c07d4, 0x664f8c30, 0x0ff1f290, 0xb3f52677), 0x00000000,
          State(0x8351f929, 0x4b6ae328, 0x27a301f5, 0x664f8c30, 0x0ff1f290));
    Round(10, State(0x8351f929, 0x4b6ae328, 0x27a301f5, 0x664f8c30, 0x0ff1f290), 0x00000000,
          State(0xfbda9e89, 0x8351f929, 0x12dab8ca, 0x27a301f5, 0x664f8c30));
    Round(11, State(0xfbda9e89, 0x8351f929, 0x12dab8ca, 0x27a301f5, 0x664f8c30), 0x00000000,
          State(0x63188fe4, 0xfbda9e89, 0x60d47e4a, 0x12dab8ca, 0x27a301f5));
    Round(12, State(0x63188fe4, 0xfbda9e89, 0x60d47e4a, 0x12dab8ca, 0x27a301f5), 0x00000000,
          State(0x4607b664, 0x63188fe4, 0x7ef6a7a2, 0x60d47e4a, 0x12dab8ca));
    Round(13, State(0x4607b664, 0x63188fe4, 0x7ef6a7a2, 0x60d47e4a, 0x12dab8ca), 0x00000000,
          State(0x9128f695, 0x4607b664, 0x18c623f9, 0x7ef6a7a2, 0x60d47e4a));
    Round(14, State(0x9128f695, 0x4607b664, 0x18c623f9, 0x7ef6a7a2, 0x60d47e4a), 0x00000000,
          State(0x196bee77, 0x9128f695, 0x1181ed99, 0x18c623f9, 0x7ef6a7a2));
    Round(15, State(0x196bee77, 0x9128f695, 0x1181ed99, 0x18c623f9, 0x7ef6a7a2), 0x00000018,
          State(0x20bdd62f, 0x196bee77, 0x644a3da5, 0x1181ed99, 0x18c623f9));
  }

  lemma Rounds24()
    ensures Rounds(INIT, Block(), 24) == State(0xd541f12d, 0x21283486, 0x0ce88eff, 0x868dec32, 0x7f67875f)
  {
    hide Rounds, Is;
    Rounds16();
    Words16();
    Round(16, State(0x20bdd62f, 0x196bee77, 0x644a3da5, 0x1181ed99, 0x18c623f9), 0xc2c4c700,
          State(0x4e925823, 0x20bdd62f, 0xc65afb9d, 0x644a3da5, 0x1181ed99));
    Round(17, State(0x4e925823, 0x20bdd62f, 0xc65afb9d, 0x644a3da5, 0x1181ed99), 0x00000000,
          State(0x82aa6728, 0x4e925823, 0xc82f758b, 0xc65afb9d, 0x644a3da5));
    Round(18, State(0x82aa6728, 0x4e925823, 0xc82f758b, 0xc65afb9d, 0x644a3da5), 0x00000030,
          State(0xdc64901d, 0x82aa6728, 0xd3a49608, 0xc82f758b, 0xc65afb9d));
    Round(19, State(0xdc64901d, 0x82aa6728, 0xd3a49608, 0xc82f758b, 0xc65afb9d), 0x85898e01,
          State(0xfd9e1d7d, 0xdc64901d, 0x20aa99ca, 0xd3a49608, 0xc82f758b));
    Round(20, State(0xfd9e1d7d, 0xdc64901d, 0x20aa99ca, 0xd3a49608, 0xc82f758b), 0x00000000,
          State(0x1a37b0ca, 0xfd9e1d7d, 0x77192407, 0x20aa99ca, 0xd3a49608));
    Round(21, State(0x1a37b0ca, 0xfd9e1d7d, 0x77192407, 0x20aa99ca, 0xd3a49608), 0x00000060,
          State(0x33a23bfc, 0x1a37b0ca, 0x7f67875f, 0x77192407, 0x20aa99ca));
    Round(22, State(0x33a23bfc, 0x1a37b0ca, 0x7f67875f, 0x77192407, 0x20aa99ca), 0x0b131c03,
          State(0x21283486, 0x33a23bfc, 0x868dec32, 0x7f67875f, 0x77192407));
    Round(23, State(0x21283486, 0x33a23bfc, 0x868dec32, 0x7f67875f, 0x77192407), 0x00000030,
          State(0xd541f12d, 0x21283486, 0x0ce88eff, 0x868dec32, 0x7f67875f));
  }

  lemma Rounds32()
    ensures Rounds(INIT, Block(), 32) == State(0x3b845d33, 0x1267b407, 0x717eebd7, 0xa0dc2d4b, 0xd2aa1365)
  {
    hide Rounds, Is;
    Rounds24();
    Words24();
    Round(24, State(0xd541f12d, 0x21283486, 0x0ce88eff, 0x868dec32, 0x7f67875f), 0x85898ec1,
          State(0xc7567dc6, 0xd541f12d, 0x884a0d21, 0x0ce88eff, 0x868dec32));
    Round(25, State(0xc7567dc6, 0xd541f12d, 0x884a0d21, 0x0ce88eff, 0x868dec32), 0x16263806,
          State(0x48413ba4, 0xc7567dc6, 0x75507c4b, 0x884a0d21, 0x0ce88eff));
    Round(26, State(0x48413ba4, 0xc7567dc6, 0x75507c4b, 0x884a0d21, 0x0ce88eff), 0x00000000,
          State(0xbe35fbd5, 0x48413ba4, 0xb1d59f71, 0x75507c4b, 0x884a0d21));
    Round(27, State(0xbe35fbd5, 0x48413ba4, 0xb1d59f71, 0x75507c4b, 0x884a0d21), 0x00000180,
          State(0x4aa84d97, 0xbe35fbd5, 0x12104ee9, 0xb1d59f71, 0x75507c4b));
    Round(28, State(0x4aa84d97, 0xbe35fbd5, 0x12104ee9, 0xb1d59f71, 0x75507c4b), 0x2c4c700c,
          State(0x8370b52e, 0x4aa84d97, 0x6f8d7ef5, 0x12104ee9, 0xb1d59f71));
    Round(29, State(0x8370b52e, 0x4aa84d97, 0x6f8d7ef5, 0x12104ee9, 0xb1d59f71), 0x000000f0,
          State(0xc5fbaf5d, 0x8370b52e, 0xd2aa1365, 0x6f8d7ef5, 0x12104ee9));
    Round(30, State(0xc5fbaf5d, 0x8370b52e, 0xd2aa1365, 0x6f8d7ef5, 0x12104ee9), 0x93afb507,
          State(0x1267b407, 0xc5fbaf5d, 0xa0dc2d4b, 0xd2aa1365, 0x6f8d7ef5));
    Round(31, State(0x1267b407, 0xc5fbaf5d, 0xa0dc2d4b, 0xd2aa1365, 0x6f8d7ef5), 0x5898e048,
          State(0x3b845d33, 0x1267b407, 0x717eebd7, 0xa0dc2d4b, 0xd2aa1365));
  }

  lemma Rounds40()
    ensures Rounds(INIT, Block(), 40) == State(0x32de1cba, 0x4c986405, 0xf718e5cf, 0x03d447f6, 0xf72eec32)
  {
    hide Rounds, Is;
    Rounds32();
    Words32();
    Round(32, State(0x3b845d33, 0x1267b407, 0x717eebd7, 0xa0dc2d4b, 0xd2aa1365), 0x8e9a9202,
          State(0x046faa0a, 0x3b845d33, 0xc499ed01, 0x717eebd7, 0xa0dc2d4b));
    Round(33, State(0x046faa0a, 0x3b845d33, 0xc499ed01, 0x717eebd7, 0xa0dc2d4b), 0x00000600,
          State(0x2c0ebc11, 0x046faa0a, 0xcee1174c, 0xc499ed01, 0x717eebd7));
    Round(34, State(0x2c0ebc11, 0x046faa0a, 0xcee1174c, 0xc499ed01, 0x717eebd7), 0xb131c0f0,
          State(0x21796ad4, 0x2c0ebc11, 0x811bea82, 0xcee1174c, 0xc499ed01));
    Round(35, State(0x21796ad4, 0x2c0ebc11, 0x811bea82, 0xcee1174c, 0xc499ed01), 0x16263bc6,
          State(0xdcbbb0cb, 0x21796ad4, 0x4b03af04, 0x811bea82, 0xcee1174c));
    Round(36, State(0xdcbbb0cb, 0x21796ad4, 0x4b03af04, 0x811bea82, 0xcee1174c), 0x4ebed41e,
          State(0x0f511fd8, 0xdcbbb0cb, 0x085e5ab5, 0x4b03af04, 0x811bea82));
    Round(37, State(0x0f511fd8, 0xdcbbb0cb, 0x085e5ab5, 0x4b03af04, 0x811bea82), 0x626380a1,
          State(0xdc63973f, 0x0f511fd8, 0xf72eec32, 0x085e5ab5, 0x4b03af04));
    Round(38, State(0xdc63973f, 0x0f511fd8, 0xf72eec32, 0x085e5ab5, 0x4b03af04), 0x16263806,
          State(0x4c986405, 0xdc63973f, 0x03d447f6, 0xf72eec32, 0x085e5ab5));
    Round(39, State(0x4c986405, 0xdc63973f, 0x03d447f6, 0xf72eec32, 0x085e5ab5), 0x000018c0,
          State(0x32de1cba, 0x4c986405, 0xf718e5cf, 0x03d447f6, 0xf72eec32));
  }

  lemma Rounds48()
    ensures Rounds(INIT, Block(), 48) == State(0xbead02ca, 0xa01b846c, 0x8714787c, 0x503ca382, 0xfb86c6ab)
  {
    hide Rounds, Is;
    Rounds40();
    Words40();
    Round(40, State(0x32de1cba, 0x4c986405, 0xf718e5cf, 0x03d447f6, 0xf72eec32), 0xd2e138c4,
          State(0xfc87dedf, 0x32de1cba, 0x53261901, 0xf718e5cf, 0x03d447f6));
    Round(41, State(0xfc87dedf, 0x32de1cba, 0x53261901, 0xf718e5cf, 0x03d447f6), 0x00000f00,
          State(0x970a0d5c, 0xfc87dedf, 0x8cb7872e, 0x53261901, 0xf718e5cf));
    Round(42, State(0x970a0d5c, 0xfc87dedf, 0x8cb7872e, 0x53261901, 0xf718e5cf), 0x3afb5079,
          State(0x7f193dc5, 0x970a0d5c, 0xff21f7b7, 0x8cb7872e, 0x53261901));
    Round(43, State(0x7f193dc5, 0x970a0d5c, 0xff21f7b7, 0x8cb7872e, 0x53261901), 0x898e04e5,
          State(0xee1b1aaf, 0x7f193dc5, 0x25c28357, 0xff21f7b7, 0x8cb7872e));
    Round(44, State(0xee1b1aaf, 0x7f193dc5, 0x25c28357, 0xff21f7b7, 0x8cb7872e), 0xe2ba3c2b,
          State(0x40f28e09, 0xee1b1aaf, 0x5fc64f71, 0x25c28357, 0xff21f7b7));
    Round(45, State(0x40f28e09, 0xee1b1aaf, 0x5fc64f71, 0x25c28357, 0xff21f7b7), 0x000060c0,
          State(0x1c51e1f2, 0x40f28e09, 0xfb86c6ab, 0x5fc64f71, 0x25c28357));
    Round(46, State(0x1c51e1f2, 0x40f28e09, 0xfb86c6ab, 0x5fc64f71, 0x25c28357), 0x053a37cd,
          State(0xa01b846c, 0x1c51e1f2, 0x503ca382, 0xfb86c6ab, 0x5fc64f71));
    Round(47, State(0xa01b846c, 0x1c51e1f2, 0x503ca382, 0xfb86c6ab, 0x5fc64f71), 0x74458547,
          State(0xbead02ca, 0xa01b846c, 0x8714787c, 0x503ca382, 0xfb86c6ab));
  }

  lemma Rounds56()
    ensures Rounds(INIT, Block(), 56) == State(0x5e6456af, 0x7b71f76d, 0x09fa7c76, 0x792410db, 0x8e11eb59)
  {
    hide Rounds, Is;
    Rounds48();
    Words48();
    Round(48, State(0xbead02ca, 0xa01b846c, 0x8714787c, 0x503ca382, 0xfb86c6ab), 0xda9415ed,
          State(0xbaf39337, 0xbead02ca, 0x2806e11b, 0x8714787c, 0x503ca382));
    Round(49, State(0xbaf39337, 0xbead02ca, 0x2806e11b, 0x8714787c, 0x503ca382), 0x26380a16,
          State(0x120731c5, 0xbaf39337, 0xafab40b2, 0x2806e11b, 0x8714787c));
    Round(50, State(0x120731c5, 0xbaf39337, 0xafab40b2, 0x2806e11b, 0x8714787c), 0x626383a1,
          State(0x641db2ce, 0x120731c5, 0xeebce4cd, 0xafab40b2, 0x2806e11b));
    Round(51, State(0x641db2ce, 0x120731c5, 0xeebce4cd, 0xafab40b2, 0x2806e11b), 0x4ebf54de,
          State(0x3847ad66, 0x641db2ce, 0x4481cc71, 0xeebce4cd, 0xafab40b2));
    Round(52, State(0x3847ad66, 0x641db2ce, 0x4481cc71, 0xeebce4cd, 0xafab40b2), 0x3835b44b,
          State(0xe490436d, 0x3847ad66, 0x99076cb3, 0x4481cc71, 0xeebce4cd));
    Round(53, State(0xe490436d, 0x3847ad66, 0x99076cb3, 0x4481cc71, 0xeebce4cd), 0x0000f600,
          State(0x27e9f1d8, 0xe490436d, 0x8e11eb59, 0x99076cb3, 0x4481cc71));
    Round(54, State(0x27e9f1d8, 0xe490436d, 0x8e11eb59, 0x99076cb3, 0x4481cc71), 0x1e84c7a3,
          State(0x7b71f76d, 0x27e9f1d8, 0x792410db, 0x8e11eb59, 0x99076cb3));
    Round(55, State(0x7b71f76d, 0x27e9f1d8, 0x792410db, 0x8e11eb59, 0x99076cb3), 0x98e04d98,
          State(0x5e6456af, 0x7b71f76d, 0x09fa7c76, 0x792410db, 0x8e11eb59));
  }

  lemma Rounds64()
    ensures Rounds(INIT, Block(), 64) == State(0x6b61c9e1, 0xb66c020b, 0x9523272c, 0xf5d5b051, 0x8fd4b796)
  {
    hide Rounds, Is;
    Rounds56();
    Words56();
    Round(56, State(0x5e6456af, 0x7b71f76d, 0x09fa7c76, 0x792410db, 0x8e11eb59), 0x651d16a0,
          State(0xc846093f, 0x5e6456af, 0x5edc7ddb, 0x09fa7c76, 0x792410db));
    Round(57, State(0xc846093f, 0x5e6456af, 0x5edc7ddb, 0x09fa7c76, 0x792410db), 0x62658ca1,
          State(0xd262ff50, 0xc846093f, 0xd79915ab, 0x5edc7ddb, 0x09fa7c76));
    Round(58, State(0xd262ff50, 0xc846093f, 0xd79915ab, 0x5edc7ddb, 0x09fa7c76), 0x458544d6,
          State(0x09d785fd, 0xd262ff50, 0xf211824f, 0xd79915ab, 0x5edc7ddb));
    Round(59, State(0x09d785fd, 0xd262ff50, 0xf211824f, 0xd79915ab, 0x5edc7ddb), 0x44584cb7,
          State(0x3f52de5a, 0x09d785fd, 0x3498bfd4, 0xf211824f, 0xd79915ab));
    Round(60, State(0x3f52de5a, 0x09d785fd, 0x3498bfd4, 0xf211824f, 0xd79915ab), 0x7ba06619,
          State(0xd756c147, 0x3f52de5a, 0x4275e17f, 0x3498bfd4, 0xf211824f));
    Round(61, State(0xd756c147, 0x3f52de5a, 0x4275e17f, 0x3498bfd4, 0xf211824f), 0x6380aea2,
          State(0x548c9cb2, 0xd756c147, 0x8fd4b796, 0x4275e17f, 0x3498bfd4));
    Round(62, State(0x548c9cb2, 0xd756c147, 0x8fd4b796, 0x4275e17f, 0x3498bfd4), 0x0ae55269,
          State(0xb66c020b, 0x548c9cb2, 0xf5d5b051, 0x8fd4b796, 0x4275e17f));
    Round(63, State(0xb66c020b, 0x548c9cb2, 0xf5d5b051, 0x8fd4b796, 0x4275e17f), 0x627b49a1,
          State(0x6b61c9e1, 0xb66c020b, 0x9523272c, 0xf5d5b051, 0x8fd4b796));
  }

  lemma Rounds72()
    ensures Rounds(INIT, Block(), 72) == State(0x39859de7, 0xc199f8c7, 0x8fc96230, 0x125c24f0, 0xde37534a)
  {
    hide Rounds, Is;
    Rounds64();
    Words64();
    Round(64, State(0x6b61c9e1, 0xb66c020b, 0x9523272c, 0xf5d5b051, 0x8fd4b796), 0x7cd45c9d,
          State(0x19dfa7ac, 0x6b61c9e1, 0xed9b0082, 0x9523272c, 0xf5d5b051));
    Round(65, State(0x19dfa7ac, 0x6b61c9e1, 0xed9b0082, 0x9523272c, 0xf5d5b051), 0x000f0000,
          State(0x101655f9, 0x19dfa7ac, 0x5ad87278, 0xed9b0082, 0x9523272c));
    Round(66, State(0x101655f9, 0x19dfa7ac, 0x5ad87278, 0xed9b0082, 0x9523272c), 0xfb50753a,
          State(0x0c3df2b4, 0x101655f9, 0x0677e9eb, 0x5ad87278, 0xed9b0082));
    Round(67, State(0x0c3df2b4, 0x101655f9, 0x0677e9eb, 0x5ad87278, 0xed9b0082), 0xec6765e8,
          State(0x78dd4d2b, 0x0c3df2b4, 0x4405957e, 0x0677e9eb, 0x5ad87278));
    Round(68, State(0x78dd4d2b, 0x0c3df2b4, 0x4405957e, 0x0677e9eb, 0x5ad87278), 0xba3c2be2,
          State(0x497093c0, 0x78dd4d2b, 0x030f7cad, 0x4405957e, 0x0677e9eb));
    Round(69, State(0x497093c0, 0x78dd4d2b, 0x030f7cad, 0x4405957e, 0x0677e9eb), 0x0060c000,
          State(0x3f2588c2, 0x497093c0, 0xde37534a, 0x030f7cad, 0x4405957e));
    Round(70, State(0x3f2588c2, 0x497093c0, 0xde37534a, 0x030f7cad, 0x4405957e), 0x3a37cd05,
          State(0xc199f8c7, 0x3f2588c2, 0x125c24f0, 0xde37534a, 0x030f7cad));
    Round(71, State(0xc199f8c7, 0x3f2588c2, 0x125c24f0, 0xde37534a, 0x030f7cad), 0x458546f4,
          State(0x39859de7, 0xc199f8c7, 0x8fc96230, 0x125c24f0, 0xde37534a));
  }

  lemma Rounds80()
    ensures Rounds(INIT, Block(), 80) == State(0x42541b35, 0x5738d5e1, 0x21834873, 0x681e6df6, 0xd8fdf6ad)
  {
    hide Rounds, Is;
    Rounds72();
    Words72();
    Round(72, State(0x39859de7, 0xc199f8c7, 0x8fc96230, 0x125c24f0, 0xde37534a), 0xb8599dd6,
          State(0xedb42de4, 0x39859de7, 0xf0667e31, 0x8fc96230, 0x125c24f0));
    Round(73, State(0xedb42de4, 0x39859de7, 0xf0667e31, 0x8fc96230, 0x125c24f0), 0x380a1a26,
          State(0x11793f6f, 0xedb42de4, 0xce616779, 0xf0667e31, 0x8fc96230));
    Round(74, State(0x11793f6f, 0xedb42de4, 0xce616779, 0xf0667e31, 0x8fc96230), 0x01e02203,
          State(0x5ee76897, 0x11793f6f, 0x3b6d0b79, 0xce616779, 0xf0667e31));
    Round(75, State(0x5ee76897, 0x11793f6f, 0x3b6d0b79, 0xce616779, 0xf0667e31), 0xe7cc3456,
          State(0x63f7dab7, 0x5ee76897, 0xc45e4fdb, 0x3b6d0b79, 0xce616779));
    Round(76, State(0x63f7dab7, 0x5ee76897, 0xc45e4fdb, 0x3b6d0b79, 0xce616779), 0xe6e60b69,
          State(0xa079b7d9, 0x63f7dab7, 0xd7b9da25, 0xc45e4fdb, 0x3b6d0b79));
    Round(77, State(0xa079b7d9, 0x63f7dab7, 0xd7b9da25, 0xc45e4fdb, 0x3b6d0b79), 0x00f60a00,
          State(0x860d21cc, 0xa079b7d9, 0xd8fdf6ad, 0xd7b9da25, 0xc45e4fdb));
    Round(78, State(0x860d21cc, 0xa079b7d9, 0xd8fdf6ad, 0xd7b9da25, 0xc45e4fdb), 0x5795ef4f,
          State(0x5738d5e1, 0x860d21cc, 0x681e6df6, 0xd8fdf6ad, 0xd7b9da25));
    Round(79, State(0x5738d5e1, 0x860d21cc, 0x681e6df6, 0xd8fdf6ad, 0xd7b9da25), 0x822e0879,
          State(0x42541b35, 0x5738d5e1, 0x21834873, 0x681e6df6, 0xd8fdf6ad));
  }

  lemma RoundsNone(h: State, block: seq<byte>)
    requires |block| == 64
    ensures Rounds(h, block, 0) == h
  {
  }

  lemma LastSum()
    ensures Add(INIT, State(0x42541b35, 0x5738d5e1, 0x21834873, 0x681e6df6, 0xd8fdf6ad))
         == State(0xa9993e36, 0x4706816a, 0xba3e2571, 0x7850c26c, 0x9cd0d89d)
  {
  }

  lemma OutputIs()
    ensures Output(State(0xa9993e36, 0x4706816a, 0xba3e2571, 0x7850c26c, 0x9cd0d89d))
         == [0xa9, 0x99, 0x3e, 0x36, 0x47, 0x06, 0x81, 0x6a, 0xba, 0x3e,
               0x25, 0x71, 0x78, 0x50, 0xc2, 0x6c, 0x9c, 0xd0, 0xd8, 0x9d]
  {
  }

  /** The example of the standard. */
  lemma DigestOfAbc()
    ensures Digest([0x61, 0x62, 0x63])
         == [0xa9, 0x99, 0x3e, 0x36, 0x47, 0x06, 0x81, 0x6a, 0xba, 0x3e,
               0x25, 0x71, 0x78, 0x50, 0xc2, 0x6c, 0x9c, 0xd0, 0xd8, 0x9d]
  {
    hide Rounds, Output, Add, Fold;
    PaddedIs();
    FoldOne(Compress, INIT, Block());
    Rounds80();
    LastSum();
    OutputIs();
  }
}
