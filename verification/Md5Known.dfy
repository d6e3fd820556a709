/** The digest of "abc" under RFC 1321, step by step. */
module Md5Known {
  import opened Bytes
  import opened HashBlocks
  import opened Md5

  /** The padded message: one block. */
  function Block(): (b: seq<byte>)
    ensures |b| == 64
  {
    [0x61, 0x62, 0x63, 0x80] + Zeros(52) + [24, 0, 0, 0, 0, 0, 0, 0]
  }

  lemma PaddedIs()
    ensures Padded([0x61, 0x62, 0x63], Length64(24)) == Block()
  {
    assert Length64(24) == [24, 0, 0, 0, 0, 0, 0, 0];
    assert ZeroCount(3) == 52;
    assert [0x61, 0x62, 0x63] + [0x80] == [0x61, 0x62, 0x63, 0x80];
  }

  lemma WordsAre()
    ensures var x := Words(Block());
            x[0] == 0x80636261 && x[14] == 24 && x[15] == 0 && forall t :: 1 <= t < 14 ==> x[t] == 0
  {
    hide LittleBytes, Block;
    EndBytes();
    SomeWords();
    forall t | 1 <= t < 14
      ensures Words(Block())[t] == 0
    {
      ZeroBytes(t);
    }
  }

  lemma SomeWords()
    ensures LittleBytes(0x61, 0x62, 0x63, 0x80) == 0x80636261
    ensures LittleBytes(24, 0, 0, 0) == 24 && LittleBytes(0, 0, 0, 0) == 0
  {
  }

  lemma ZeroBytes(t: nat)
    requires 1 <= t < 14
    ensures Block()[4 * t] == 0 && Block()[4 * t + 1] == 0 && Block()[4 * t + 2] == 0 && Block()[4 * t + 3] == 0
  {
  }

  lemma EndBytes()
    ensures Block()[0] == 0x61 && Block()[1] == 0x62 && Block()[2] == 0x63 && Block()[3] == 0x80
    ensures Block()[56] == 24 && Block()[57] == 0 && Block()[58] == 0 && Block()[59] == 0
    ensures Block()[60] == 0 && Block()[61] == 0 && Block()[62] == 0 && Block()[63] == 0
  {
  }

  /** One more step, with word `k` of the block. */
  lemma Step(i: nat, k: nat, s: Sum, s': Sum)
    requires i < 64 && k == Index(i) && Steps(INIT, Words(Block()), i) == s
    requires s'.b == StepWord(Aux(i, s.b, s.c, s.d), s.a, s.b, Words(Block())[k], Sine(i), Shift(i))
    requires s'.a == s.d && s'.c == s.b && s'.d == s.c
    ensures Steps(INIT, Words(Block()), i + 1) == s'
  {
    hide StepWord, Aux, Sine, Shift, Index, Words;
  }

  lemma Steps8()
    ensures Steps(INIT, Words(Block()), 8) == Sum(0xc73741ef, 0x928d99f6, 0x207dc67b, 0x8bac3051)
  {
    hide Steps, Words;
    StepsNone(INIT, Words(Block()));
    WordsAre();
    Step(0, 0, Sum(0x67452301, 0xefcdab89, 0x98badcfe, 0x10325476),
         Sum(0x10325476, 0xd6d117b4, 0xefcdab89, 0x98badcfe));
    Step(1, 1, Sum(0x10325476, 0xd6d117b4, 0xefcdab89, 0x98badcfe),
         Sum(0x98badcfe, 0x344a8432, 0xd6d117b4, 0xefcdab89));
    Step(2, 2, Sum(0x98badcfe, 0x344a8432, 0xd6d117b4, 0xefcdab89),
         Sum(0xefcdab89, 0x2f6fbd72, 0x344a8432, 0xd6d117b4));
    Step(3, 3, Sum(0xefcdab89, 0x2f6fbd72, 0x344a8432, 0xd6d117b4),
         Sum(0xd6d117b4, 0x7ad956f2, 0x2f6fbd72, 0x344a8432));
    Step(4, 4, Sum(0xd6d117b4, 0x7ad956f2, 0x2f6fbd72, 0x344a8432),
         Sum(0x344a8432, 0xc73741ef, 0x7ad956f2, 0x2f6fbd72));
    Step(5, 5, Sum(0x344a8432, 0xc73741ef, 0x7ad956f2, 0x2f6fbd72),
         Sum(0x2f6fbd72, 0x8bac3051, 0xc73741ef, 0x7ad956f2));
    Step(6, 6, Sum(0x2f6fbd72, 0x8bac3051, 0xc73741ef, 0x7ad956f2),
         Sum(0x7ad956f2, 0x207dc67b, 0x8bac3051, 0xc73741ef));
    Step(7, 7, Sum(0x7ad956f2, 0x207dc67b, 0x8bac3051, 0xc73741ef),
         Sum(0xc73741ef, 0x928d99f6, 0x207dc67b, 0x8bac3051));
  }

  lemma Steps16()
    ensures Steps(INIT, Words(Block()), 16) == Sum(0xdda9b9a6, 0x72aff2e0, 0xe396856b, 0xa1051895)
  {
    hide Steps, Words;
    Steps8();
    WordsAre();
    Step(8, 8, Sum(0xc73741ef, 0x928d99f6, 0x207dc67b, 0x8bac3051),
         Sum(0x8bac3051, 0x854b3712, 0x928d99f6, 0x207dc67b));
    Step(9, 9, Sum(0x8bac3051, 0x854b3712, 0x928d99f6, 0x207dc67b),
         Sum(0x207dc67b, 0x74e2f284, 0x854b3712, 0x928d99f6));
    Step(10, 10, Sum(0x207dc67b, 0x74e2f284, 0x854b3712, 0x928d99f6),
         Sum(0x928d99f6, 0x3020401c, 0x74e2f284, 0x854b3712));
    Step(11, 11, Sum(0x928d99f6, 0x3020401c, 0x74e2f284, 0x854b3712),
         Sum(0x854b3712, 0x5ed49596, 0x3020401c, 0x74e2f284));
    Step(12, 12, Sum(0x854b3712, 0x5ed49596, 0x3020401c, 0x74e2f284),
         Sum(0x74e2f284, 0xdda9b9a6, 0x5ed49596, 0x3020401c));
    Step(13, 13, Sum(0x74e2f284, 0xdda9b9a6, 0x5ed49596, 0x3020401c),
         Sum(0x3020401c, 0xa1051895, 0xdda9b9a6, 0x5ed49596));
    Step(14, 14, Sum(0x3020401c, 0xa1051895, 0xdda9b9a6, 0x5ed49596),
         Sum(0x5ed49596, 0xe396856b, 0xa1051895, 0xdda9b9a6));
    Step(15, 15, Sum(0x5ed49596, 0xe396856b, 0xa1051895, 0xdda9b9a6),
         Sum(0xdda9b9a6, 0x72aff2e0, 0xe396856b, 0xa1051895));
  }

  lemma Steps24()
    ensures Steps(INIT, Words(Block()), 24) == Sum(0x59a8ffda, 0x47092c07, 0xabfc7920, 0x6d002f1e)
  {
    hide Steps, Words;
    Steps16();
    WordsAre();
    Step(16, 1, Sum(0xdda9b9a6, 0x72aff2e0, 0xe396856b, 0xa1051895),
         Sum(0xa1051895, 0x3e9e9126, 0x72aff2e0, 0xe396856b));
    Step(17, 6, Sum(0xa1051895, 0x3e9e9126, 0x72aff2e0, 0xe396856b),
         Sum(0xe396856b, 0x4a1d804e, 0x3e9e9126, 0x72aff2e0));
    Step(18, 11, Sum(0xe396856b, 0x4a1d804e, 0x3e9e9126, 0x72aff2e0),
         Sum(0x72aff2e0, 0xe25e1652, 0x4a1d804e, 0x3e9e9126));
    Step(19, 0, Sum(0x72aff2e0, 0xe25e1652, 0x4a1d804e, 0x3e9e9126),
         Sum(0x3e9e9126, 0xb5b204e4, 0xe25e1652, 0x4a1d804e));
    Step(20, 5, Sum(0x3e9e9126, 0xb5b204e4, 0xe25e1652, 0x4a1d804e),
         Sum(0x4a1d804e, 0x59a8ffda, 0xb5b204e4, 0xe25e1652));
    Step(21, 10, Sum(0x4a1d804e, 0x59a8ffda, 0xb5b204e4, 0xe25e1652),
         Sum(0xe25e1652, 0x6d002f1e, 0x59a8ffda, 0xb5b204e4));
    Step(22, 15, Sum(0xe25e1652, 0x6d002f1e, 0x59a8ffda, 0xb5b204e4),
         Sum(0xb5b204e4, 0xabfc7920, 0x6d002f1e, 0x59a8ffda));
    Step(23, 4, Sum(0xb5b204e4, 0xabfc7920, 0x6d002f1e, 0x59a8ffda),
         Sum(0x59a8ffda, 0x47092c07, 0xabfc7920, 0x6d002f1e));
  }

  lemma Steps32()
    ensures Steps(INIT, Words(Block()), 32) == Sum(0x790a77fb, 0x726342d3, 0xa62884aa, 0x9f47e4f8)
  {
    hide Steps, Words;
    Steps24();
    WordsAre();
    Step(24, 9, Sum(0x59a8ffda, 0x47092c07, 0xabfc7920, 0x6d002f1e),
         Sum(0x6d002f1e, 0xb7f268cf, 0x47092c07, 0xabfc7920));
    Step(25, 14, Sum(0x6d002f1e, 0xb7f268cf, 0x47092c07, 0xabfc7920),
         Sum(0xabfc7920, 0x09388eff, 0xb7f268cf, 0x47092c07));
    Step(26, 3, Sum(0xabfc7920, 0x09388eff, 0xb7f268cf, 0x47092c07),
         Sum(0x47092c07, 0xfe1623b1, 0x09388eff, 0xb7f268cf));
    Step(27, 8, Sum(0x47092c07, 0xfe1623b1, 0x09388eff, 0xb7f268cf),
         Sum(0xb7f268cf, 0x786acb8f, 0xfe1623b1, 0x09388eff));
    Step(28, 13, Sum(0xb7f268cf, 0x786acb8f, 0xfe1623b1, 0x09388eff),
         Sum(0x09388eff, 0x790a77fb, 0x786acb8f, 0xfe1623b1));
    Step(29, 2, Sum(0x09388eff, 0x790a77fb, 0x786acb8f, 0xfe1623b1),
         Sum(0xfe1623b1, 0x9f47e4f8, 0x790a77fb, 0x786acb8f));
    Step(30, 7, Sum(0xfe1623b1, 0x9f47e4f8, 0x790a77fb, 0x786acb8f),
         Sum(0x786acb8f, 0xa62884aa, 0x9f47e4f8, 0x790a77fb));
    Step(31, 12, Sum(0x786acb8f, 0xa62884aa, 0x9f47e4f8, 0x790a77fb),
         Sum(0x790a77fb, 0x726342d3, 0xa62884aa, 0x9f47e4f8));
  }

  lemma Steps40()
    ensures Steps(INIT, Words(Block()), 40) == Sum(0x21b117b9, 0x5a2f5ea5, 0x3575227e, 0x6e7429d5)
  {
    hide Steps, Words;
    Steps32();
    WordsAre();
    Step(32, 5, Sum(0x790a77fb, 0x726342d3, 0xa62884aa, 0x9f47e4f8),
         Sum(0x9f47e4f8, 0xb3707ebf, 0x726342d3, 0xa62884aa));
    Step(33, 8, Sum(0x9f47e4f8, 0xb3707ebf, 0x726342d3, 0xa62884aa),
         Sum(0xa62884aa, 0x60127b2e, 0xb3707ebf, 0x726342d3));
    Step(34, 11, Sum(0xa62884aa, 0x60127b2e, 0xb3707ebf, 0x726342d3),
         Sum(0x726342d3, 0x8d212ff5, 0x60127b2e, 0xb3707ebf));
    Step(35, 14, Sum(0x726342d3, 0x8d212ff5, 0x60127b2e, 0xb3707ebf),
         Sum(0xb3707ebf, 0x3b0875c7, 0x8d212ff5, 0x60127b2e));
    Step(36, 1, Sum(0xb3707ebf, 0x3b0875c7, 0x8d212ff5, 0x60127b2e),
         Sum(0x60127b2e, 0x21b117b9, 0x3b0875c7, 0x8d212ff5));
    Step(37, 4, Sum(0x60127b2e, 0x21b117b9, 0x3b0875c7, 0x8d212ff5),
         Sum(0x8d212ff5, 0x6e7429d5, 0x21b117b9, 0x3b0875c7));
    Step(38, 7, Sum(0x8d212ff5, 0x6e7429d5, 0x21b117b9, 0x3b0875c7),
         Sum(0x3b0875c7, 0x3575227e, 0x6e7429d5, 0x21b117b9));
    Step(39, 10, Sum(0x3b0875c7, 0x3575227e, 0x6e7429d5, 0x21b117b9),
         Sum(0x21b117b9, 0x5a2f5ea5, 0x3575227e, 0x6e7429d5));
  }

  lemma Steps48()
    ensures Steps(INIT, Words(Block()), 48) == Sum(0x7f2e507b, 0x7beb9700, 0x8fae6399, 0x99d9679d)
  {
    hide Steps, Words;
    Steps40();
    WordsAre();
    Step(40, 13, Sum(0x21b117b9, 0x5a2f5ea5, 0x3575227e, 0x6e7429d5),
         Sum(0x6e7429d5, 0x11de1779, 0x5a2f5ea5, 0x3575227e));
    Step(41, 0, Sum(0x6e7429d5, 0x11de1779, 0x5a2f5ea5, 0x3575227e),
         Sum(0x3575227e, 0xfadcaa38, 0x11de1779, 0x5a2f5ea5));
    Step(42, 3, Sum(0x3575227e, 0xfadcaa38, 0x11de1779, 0x5a2f5ea5),
         Sum(0x5a2f5ea5, 0x31c465ca, 0xfadcaa38, 0x11de1779));
    Step(43, 6, Sum(0x5a2f5ea5, 0x31c465ca, 0xfadcaa38, 0x11de1779),
         Sum(0x11de1779, 0x4c6124f4, 0x31c465ca, 0xfadcaa38));
    Step(44, 9, Sum(0x11de1779, 0x4c6124f4, 0x31c465ca, 0xfadcaa38),
         Sum(0xfadcaa38, 0x7f2e507b, 0x4c6124f4, 0x31c465ca));
    Step(45, 12, Sum(0xfadcaa38, 0x7f2e507b, 0x4c6124f4, 0x31c465ca),
         Sum(0x31c465ca, 0x99d9679d, 0x7f2e507b, 0x4c6124f4));
    Step(46, 15, Sum(0x31c465ca, 0x99d9679d, 0x7f2e507b, 0x4c6124f4),
         Sum(0x4c6124f4, 0x8fae6399, 0x99d9679d, 0x7f2e507b));
    Step(47, 2, Sum(0x4c6124f4, 0x8fae6399, 0x99d9679d, 0x7f2e507b),
         Sum(0x7f2e507b, 0x7beb9700, 0x8fae6399, 0x99d9679d));
  }

  lemma Steps56()
    ensures Steps(INIT, Words(Block()), 56) == Sum(0x06cc5e8a, 0x3bfa2c27, 0x7d632dd0, 0x5b0d97aa)
  {
    hide Steps, Words;
    Steps48();
    WordsAre();
    Step(48, 0, Sum(0x7f2e507b, 0x7beb9700, 0x8fae6399, 0x99d9679d),
         Sum(0x99d9679d, 0x7b201df8, 0x7beb9700, 0x8fae6399));
    Step(49, 7, Sum(0x99d9679d, 0x7b201df8, 0x7beb9700, 0x8fae6399),
         Sum(0x8fae6399, 0xf4e8e96e, 0x7b201df8, 0x7beb9700));
    Step(50, 14, Sum(0x8fae6399, 0xf4e8e96e, 0x7b201df8, 0x7beb9700),
         Sum(0x7beb9700, 0xb298cefd, 0xf4e8e96e, 0x7b201df8));
    Step(51, 5, Sum(0x7beb9700, 0xb298cefd, 0xf4e8e96e, 0x7b201df8),
         Sum(0x7b201df8, 0x8bf025c4, 0xb298cefd, 0xf4e8e96e));
    Step(52, 12, Sum(0x7b201df8, 0x8bf025c4, 0xb298cefd, 0xf4e8e96e),
         Sum(0xf4e8e96e, 0x06cc5e8a, 0x8bf025c4, 0xb298cefd));
    Step(53, 3, Sum(0xf4e8e96e, 0x06cc5e8a, 0x8bf025c4, 0xb298cefd),
         Sum(0xb298cefd, 0x5b0d97aa, 0x06cc5e8a, 0x8bf025c4));
    Step(54, 10, Sum(0xb298cefd, 0x5b0d97aa, 0x06cc5e8a, 0x8bf025c4),
         Sum(0x8bf025c4, 0x7d632dd0, 0x5b0d97aa, 0x06cc5e8a));
    Step(55, 1, Sum(0x8bf025c4, 0x7d632dd0, 0x5b0d97aa, 0x06cc5e8a),
         Sum(0x06cc5e8a, 0x3bfa2c27, 0x7d632dd0, 0x5b0d97aa));
  }

  lemma Steps64()
    ensures Steps(INIT, Words(Block()), 64) == Sum(0x310ade8f, 0xc08226b3, 0xe484b9d8, 0x624d8cb2)
  {
    hide Steps, Words;
    Steps56();
    WordsAre();
    Step(56, 8, Sum(0x06cc5e8a, 0x3bfa2c27, 0x7d632dd0, 0x5b0d97aa),
         Sum(0x5b0d97aa, 0x7f81cc35, 0x3bfa2c27, 0x7d632dd0));
    Step(57, 15, Sum(0x5b0d97aa, 0x7f81cc35, 0x3bfa2c27, 0x7d632dd0),
         Sum(0x7d632dd0, 0x094454ab, 0x7f81cc35, 0x3bfa2c27));
    Step(58, 6, Sum(0x7d632dd0, 0x094454ab, 0x7f81cc35, 0x3bfa2c27),
         Sum(0x3bfa2c27, 0x4f9dbe3f, 0x094454ab, 0x7f81cc35));
    Step(59, 13, Sum(0x3bfa2c27, 0x4f9dbe3f, 0x094454ab, 0x7f81cc35),
         Sum(0x7f81cc35, 0x7327d604, 0x4f9dbe3f, 0x094454ab));
    Step(60, 4, Sum(0x7f81cc35, 0x7327d604, 0x4f9dbe3f, 0x094454ab),
         Sum(0x094454ab, 0x310ade8f, 0x7327d604, 0x4f9dbe3f));
    Step(61, 11, Sum(0x094454ab, 0x310ade8f, 0x7327d604, 0x4f9dbe3f),
         Sum(0x4f9dbe3f, 0x624d8cb2, 0x310ade8f, 0x7327d604));
    Step(62, 2, Sum(0x4f9dbe3f, 0x624d8cb2, 0x310ade8f, 0x7327d604),
         Sum(0x7327d604, 0xe484b9d8, 0x624d8cb2, 0x310ade8f));
    Step(63, 9, Sum(0x7327d604, 0xe484b9d8, 0x624d8cb2, 0x310ade8f),
         Sum(0x310ade8f, 0xc08226b3, 0xe484b9d8, 0x624d8cb2));
  }

  lemma LastSum()
    ensures Add(INIT, Sum(0x310ade8f, 0xc08226b3, 0xe484b9d8, 0x624d8cb2))
         == Sum(0x98500190, 0xb04fd23c, 0x7d3f96d6, 0x727fe128)
  {
  }

  lemma OutputIs()
    ensures Output(Sum(0x98500190, 0xb04fd23c, 0x7d3f96d6, 0x727fe128))
         == [0x90, 0x01, 0x50, 0x98, 0x3c, 0xd2, 0x4f, 0xb0, 0xd6, 0x96, 0x3f, 0x7d, 0x28, 0xe1, 0x7f, 0x72]
  {
  }

  /** The third example of appendix A.5 of the standard. */
  lemma DigestOfAbc()
    ensures Digest([0x61, 0x62, 0x63])
         == [0x90, 0x01, 0x50, 0x98, 0x3c, 0xd2, 0x4f, 0xb0, 0xd6, 0x96, 0x3f, 0x7d, 0x28, 0xe1, 0x7f, 0x72]
  {
    hide Steps, Output, Add, Fold, Words;
    PaddedIs();
    FoldOne(Compress, INIT, Block());
    Steps64();
    LastSum();
    OutputIs();
  }
}
