/** The MD5 digest, fed in pieces, on a host that stores words least significant byte first. */
module Md5 {
  import opened Bytes
  import opened HashBlocks

  datatype Sum = Sum(a: word, b: word, c: word, d: word)

  const INIT := Sum(0x67452301, 0xEFCDAB89, 0x98BADCFE, 0x10325476)

  // ---- Section 3.4 of RFC 1321 ----

  function F(x: word, y: word, z: word): word { (x & y) | (!x & z) }

  function G(x: word, y: word, z: word): word { (x & z) | (y & !z) }

  function H(x: word, y: word, z: word): word { x ^ y ^ z }

  function I(x: word, y: word, z: word): word { y ^ (x | !z) }

  /** The function of step `i`, counted from 0. */
  function Aux(i: nat, x: word, y: word, z: word): word
  {
    if i < 16 then F(x, y, z) else if i < 32 then G(x, y, z) else if i < 48 then H(x, y, z) else I(x, y, z)
  }

  /** Which word of the block step `i` takes. */
  function Index(i: nat): (k: nat)
    ensures k < 16
  {
    if i < 16 then i else if i < 32 then (5 * i + 1) % 16 else if i < 48 then (3 * i + 5) % 16 else 7 * i % 16
  }

  /** How far step `i` rotates. */
  function Shift(i: nat): (s: bv6)
    ensures s < 32
  {
    var k := i % 4;
    if i < 16 then (if k == 0 then 7 else if k == 1 then 12 else if k == 2 then 17 else 22)
    else if i < 32 then (if k == 0 then 5 else if k == 1 then 9 else if k == 2 then 14 else 20)
    else if i < 48 then (if k == 0 then 4 else if k == 1 then 11 else if k == 2 then 16 else 23)
    else (if k == 0 then 6 else if k == 1 then 10 else if k == 2 then 15 else 21)
  }

  /** The table of the standard: the integer part of 2^32 times |sin(i + 1)|. */
  function Sine(i: nat): word
    requires i < 64
  {
    if i < 32 then (if i < 16 then Sine1(i) else Sine2(i - 16)) else if i < 48 then Sine3(i - 32) else Sine4(i - 48)
  }

  function Pick(k: nat, a: word, b: word, c: word, d: word): word
  {
    if k == 0 then a else if k == 1 then b else if k == 2 then c else d
  }

  function Sine1(i: nat): word
    requires i < 16
  {
    if i < 4 then Pick(i, 0xd76aa478, 0xe8c7b756, 0x242070db, 0xc1bdceee)
    else if i < 8 then Pick(i - 4, 0xf57c0faf, 0x4787c62a, 0xa8304613, 0xfd469501)
    else if i < 12 then Pick(i - 8, 0x698098d8, 0x8b44f7af, 0xffff5bb1, 0x895cd7be)
    else Pick(i - 12, 0x6b901122, 0xfd987193, 0xa679438e, 0x49b40821)
  }

  function Sine2(i: nat): word
    requires i < 16
  {
    if i < 4 then Pick(i, 0xf61e2562, 0xc040b340, 0x265e5a51, 0xe9b6c7aa)
    else if i < 8 then Pick(i - 4, 0xd62f105d, 0x02441453, 0xd8a1e681, 0xe7d3fbc8)
    else if i < 12 then Pick(i - 8, 0x21e1cde6, 0xc33707d6, 0xf4d50d87, 0x455a14ed)
    else Pick(i - 12, 0xa9e3e905, 0xfcefa3f8, 0x676f02d9, 0x8d2a4c8a)
  }

  function Sine3(i: nat): word
    requires i < 16
  {
    if i < 4 then Pick(i, 0xfffa3942, 0x8771f681, 0x6d9d6122, 0xfde5380c)
    else if i < 8 then Pick(i - 4, 0xa4beea44, 0x4bdecfa9, 0xf6bb4b60, 0xbebfbc70)
    else if i < 12 then Pick(i - 8, 0x289b7ec6, 0xeaa127fa, 0xd4ef3085, 0x04881d05)
    else Pick(i - 12, 0xd9d4d039, 0xe6db99e5, 0x1fa27cf8, 0xc4ac5665)
  }

  function Sine4(i: nat): word
    requires i < 16
  {
    if i < 4 then Pick(i, 0xf4292244, 0x432aff97, 0xab9423a7, 0xfc93a039)
    else if i < 8 then Pick(i - 4, 0x655b59c3, 0x8f0ccc92, 0xffeff47d, 0x85845dd1)
    else if i < 12 then Pick(i - 8, 0x6fa87e4f, 0xfe2ce6e0, 0xa3014314, 0x4e0811a1)
    else Pick(i - 12, 0xf7537e82, 0xbd3af235, 0x2ad7d2bb, 0xeb86d391)
  }

  function StepWord(f: word, w: word, x: word, data: word, t: word, s: bv6): word
    requires s < 32
  {
    Plus(RotateLeft(Plus(w, Plus(f, Plus(data, t))), s), x)
  }

  /** The four words after `n` steps; each step replaces the first of them and moves it to the second place. */
  function Steps(h: Sum, x: seq<word>, n: nat): Sum
    requires |x| == 16 && n <= 64
  {
    if n == 0 then h
    else
      var s, i := Steps(h, x, n - 1), n - 1;
      Sum(s.d, StepWord(Aux(i, s.b, s.c, s.d), s.a, s.b, x[Index(i)], Sine(i), Shift(i)), s.b, s.c)
  }

  function LittleWord(block: seq<byte>, t: nat): word
    requires 4 * t + 4 <= |block|
  {
    LittleBytes(block[4 * t], block[4 * t + 1], block[4 * t + 2], block[4 * t + 3])
  }

  function LittleBytes(a: byte, b: byte, c: byte, d: byte): word
  {
    a as bv32 + (b as bv32 << 8) + (c as bv32 << 16) + (d as bv32 << 24)
  }

  function Words(block: seq<byte>): (x: seq<word>)
    requires |block| == 64
    ensures |x| == 16
  {
    seq<word>(16, t requires 0 <= t < 16 => LittleWord(block, t))
  }

  function Add(h: Sum, s: Sum): Sum
  {
    Sum(Plus(h.a, s.a), Plus(h.b, s.b), Plus(h.c, s.c), Plus(h.d, s.d))
  }

  function Compress(h: Sum, block: seq<byte>): Sum
  {
    if |block| == 64 then Add(h, Steps(h, Words(block), 64)) else h
  }

  // ---- The functions as the code computes them ----

  function F1(x: word, y: word, z: word): word { z ^ (x & (y ^ z)) }

  function F2(x: word, y: word, z: word): word { F1(z, x, y) }

  function F3(x: word, y: word, z: word): word { x ^ y ^ z }

  function F4(x: word, y: word, z: word): word { y ^ (x | !z) }

  lemma SelectF(x: word, y: word, z: word)
    ensures z ^ (x & (y ^ z)) == (x & y) | (!x & z)
  {
  }

  lemma SelectG(x: word, y: word, z: word)
    ensures y ^ (z & (x ^ y)) == (x & z) | (y & !z)
  {
  }

  lemma SameF(x: word, y: word, z: word)
    ensures F1(x, y, z) == F(x, y, z)
  {
    SelectF(x, y, z);
  }

  lemma SameG(x: word, y: word, z: word)
    ensures F2(x, y, z) == G(x, y, z)
  {
    SelectG(x, y, z);
  }

  lemma SameHAndI(x: word, y: word, z: word)
    ensures F3(x, y, z) == H(x, y, z) && F4(x, y, z) == I(x, y, z)
  {
  }

  lemma SameFunctions(x: word, y: word, z: word)
    ensures F1(x, y, z) == F(x, y, z) && F2(x, y, z) == G(x, y, z)
    ensures F3(x, y, z) == H(x, y, z) && F4(x, y, z) == I(x, y, z)
  {
    hide *;
    SameF(x, y, z);
    SameG(x, y, z);
    SameHAndI(x, y, z);
  }

  /** One step of the specification, in the code's terms. */
  lemma StepAt(h: Sum, x: seq<word>, i: nat, k: nat, t: word, n: bv6)
    requires |x| == 16 && i < 64 && k == Index(i) && t == Sine(i) && n == Shift(i)
    ensures var s := Steps(h, x, i);
            Steps(h, x, i + 1)
            == Sum(s.d, StepWord(CodeAux(i / 16, s.b, s.c, s.d), s.a, s.b, x[k], t, n), s.b, s.c)
  {
    hide F, G, H, I, F1, F2, F3, F4, StepWord, Index, Shift, Sine;
    var s := Steps(h, x, i);
    SameFunctions(s.b, s.c, s.d);
  }

  /** The function of a round, as the code computes it. */
  function CodeAux(round: nat, x: word, y: word, z: word): word
  {
    if round == 0 then F1(x, y, z) else if round == 1 then F2(x, y, z) else if round == 2 then F3(x, y, z)
      else F4(x, y, z)
  }

  /** Steps 1 to 8. */
  method Half1(a0: word, b0: word, c0: word, d0: word, x: seq<word>, ghost h: Sum)
    returns (a: word, b: word, c: word, d: word)
    requires |x| == 16 && Sum(a0, b0, c0, d0) == Steps(h, x, 0)
    ensures Sum(a, b, c, d) == Steps(h, x, 8)
  {
    hide Steps, StepWord, F1, F2, F3, F4;
    a, b, c, d := a0, b0, c0, d0;
    StepAt(h, x, 0, 0, 0xd76aa478, 7);
    a := StepWord(F1(b, c, d), a, b, x[0], 0xd76aa478, 7);
    StepAt(h, x, 1, 1, 0xe8c7b756, 12);
    d := StepWord(F1(a, b, c), d, a, x[1], 0xe8c7b756, 12);
    StepAt(h, x, 2, 2, 0x242070db, 17);
    c := StepWord(F1(d, a, b), c, d, x[2], 0x242070db, 17);
    StepAt(h, x, 3, 3, 0xc1bdceee, 22);
    b := StepWord(F1(c, d, a), b, c, x[3], 0xc1bdceee, 22);
    StepAt(h, x, 4, 4, 0xf57c0faf, 7);
    a := StepWord(F1(b, c, d), a, b, x[4], 0xf57c0faf, 7);
    StepAt(h, x, 5, 5, 0x4787c62a, 12);
    d := StepWord(F1(a, b, c), d, a, x[5], 0x4787c62a, 12);
    StepAt(h, x, 6, 6, 0xa8304613, 17);
    c := StepWord(F1(d, a, b), c, d, x[6], 0xa8304613, 17);
    StepAt(h, x, 7, 7, 0xfd469501, 22);
    b := StepWord(F1(c, d, a), b, c, x[7], 0xfd469501, 22);
  }

  /** Steps 9 to 16. */
  method Half2(a0: word, b0: word, c0: word, d0: word, x: seq<word>, ghost h: Sum)
    returns (a: word, b: word, c: word, d: word)
    requires |x| == 16 && Sum(a0, b0, c0, d0) == Steps(h, x, 8)
    ensures Sum(a, b, c, d) == Steps(h, x, 16)
  {
    hide Steps, StepWord, F1, F2, F3, F4;
    a, b, c, d := a0, b0, c0, d0;
    StepAt(h, x, 8, 8, 0x698098d8, 7);
    a := StepWord(F1(b, c, d), a, b, x[8], 0x698098d8, 7);
    StepAt(h, x, 9, 9, 0x8b44f7af, 12);
    d := StepWord(F1(a, b, c), d, a, x[9], 0x8b44f7af, 12);
    StepAt(h, x, 10, 10, 0xffff5bb1, 17);
    c := StepWord(F1(d, a, b), c, d, x[10], 0xffff5bb1, 17);
    StepAt(h, x, 11, 11, 0x895cd7be, 22);
    b := StepWord(F1(c, d, a), b, c, x[11], 0x895cd7be, 22);
    StepAt(h, x, 12, 12, 0x6b901122, 7);
    a := StepWord(F1(b, c, d), a, b, x[12], 0x6b901122, 7);
    StepAt(h, x, 13, 13, 0xfd987193, 12);
    d := StepWord(F1(a, b, c), d, a, x[13], 0xfd987193, 12);
    StepAt(h, x, 14, 14, 0xa679438e, 17);
    c := StepWord(F1(d, a, b), c, d, x[14], 0xa679438e, 17);
    StepAt(h, x, 15, 15, 0x49b40821, 22);
    b := StepWord(F1(c, d, a), b, c, x[15], 0x49b40821, 22);
  }

  /** Steps 17 to 24. */
  method Half3(a0: word, b0: word, c0: word, d0: word, x: seq<word>, ghost h: Sum)
    returns (a: word, b: word, c: word, d: word)
    requires |x| == 16 && Sum(a0, b0, c0, d0) == Steps(h, x, 16)
    ensures Sum(a, b, c, d) == Steps(h, x, 24)
  {
    hide Steps, StepWord, F1, F2, F3, F4;
    a, b, c, d := a0, b0, c0, d0;
    StepAt(h, x, 16, 1, 0xf61e2562, 5);
    a := StepWord(F2(b, c, d), a, b, x[1], 0xf61e2562, 5);
    StepAt(h, x, 17, 6, 0xc040b340, 9);
    d := StepWord(F2(a, b, c), d, a, x[6], 0xc040b340, 9);
    StepAt(h, x, 18, 11, 0x265e5a51, 14);
    c := StepWord(F2(d, a, b), c, d, x[11], 0x265e5a51, 14);
    StepAt(h, x, 19, 0, 0xe9b6c7aa, 20);
    b := StepWord(F2(c, d, a), b, c, x[0], 0xe9b6c7aa, 20);
    StepAt(h, x, 20, 5, 0xd62f105d, 5);
    a := StepWord(F2(b, c, d), a, b, x[5], 0xd62f105d, 5);
    StepAt(h, x, 21, 10, 0x02441453, 9);
    d := StepWord(F2(a, b, c), d, a, x[10], 0x02441453, 9);
    StepAt(h, x, 22, 15, 0xd8a1e681, 14);
    c := StepWord(F2(d, a, b), c, d, x[15], 0xd8a1e681, 14);
    StepAt(h, x, 23, 4, 0xe7d3fbc8, 20);
    b := StepWord(F2(c, d, a), b, c, x[4], 0xe7d3fbc8, 20);
  }

  /** Steps 25 to 32. */
  method Half4(a0: word, b0: word, c0: word, d0: word, x: seq<word>, ghost h: Sum)
    returns (a: word, b: word, c: word, d: word)
    requires |x| == 16 && Sum(a0, b0, c0, d0) == Steps(h, x, 24)
    ensures Sum(a, b, c, d) == Steps(h, x, 32)
  {
    hide Steps, StepWord, F1, F2, F3, F4;
    a, b, c, d := a0, b0, c0, d0;
    StepAt(h, x, 24, 9, 0x21e1cde6, 5);
    a := StepWord(F2(b, c, d), a, b, x[9], 0x21e1cde6, 5);
    StepAt(h, x, 25, 14, 0xc33707d6, 9);
    d := StepWord(F2(a, b, c), d, a, x[14], 0xc33707d6, 9);
    StepAt(h, x, 26, 3, 0xf4d50d87, 14);
    c := StepWord(F2(d, a, b), c, d, x[3], 0xf4d50d87, 14);
    StepAt(h, x, 27, 8, 0x455a14ed, 20);
    b := StepWord(F2(c, d, a), b, c, x[8], 0x455a14ed, 20);
    StepAt(h, x, 28, 13, 0xa9e3e905, 5);
    a := StepWord(F2(b, c, d), a, b, x[13], 0xa9e3e905, 5);
    StepAt(h, x, 29, 2, 0xfcefa3f8, 9);
    d := StepWord(F2(a, b, c), d, a, x[2], 0xfcefa3f8, 9);
    StepAt(h, x, 30, 7, 0x676f02d9, 14);
    c := StepWord(F2(d, a, b), c, d, x[7], 0x676f02d9, 14);
    StepAt(h, x, 31, 12, 0x8d2a4c8a, 20);
    b := StepWord(F2(c, d, a), b, c, x[12], 0x8d2a4c8a, 20);
  }

  /** Steps 33 to 40. */
  method Half5(a0: word, b0: word, c0: word, d0: word, x: seq<word>, ghost h: Sum)
    returns (a: word, b: word, c: word, d: word)
    requires |x| == 16 && Sum(a0, b0, c0, d0) == Steps(h, x, 32)
    ensures Sum(a, b, c, d) == Steps(h, x, 40)
  {
    hide Steps, StepWord, F1, F2, F3, F4;
    a, b, c, d := a0, b0, c0, d0;
    StepAt(h, x, 32, 5, 0xfffa3942, 4);
    a := StepWord(F3(b, c, d), a, b, x[5], 0xfffa3942, 4);
    StepAt(h, x, 33, 8, 0x8771f681, 11);
    d := StepWord(F3(a, b, c), d, a, x[8], 0x8771f681, 11);
    StepAt(h, x, 34, 11, 0x6d9d6122, 16);
    c := StepWord(F3(d, a, b), c, d, x[11], 0x6d9d6122, 16);
    StepAt(h, x, 35, 14, 0xfde5380c, 23);
    b := StepWord(F3(c, d, a), b, c, x[14], 0xfde5380c, 23);
    StepAt(h, x, 36, 1, 0xa4beea44, 4);
    a := StepWord(F3(b, c, d), a, b, x[1], 0xa4beea44, 4);
    StepAt(h, x, 37, 4, 0x4bdecfa9, 11);
    d := StepWord(F3(a, b, c), d, a, x[4], 0x4bdecfa9, 11);
    StepAt(h, x, 38, 7, 0xf6bb4b60, 16);
    c := StepWord(F3(d, a, b), c, d, x[7], 0xf6bb4b60, 16);
    StepAt(h, x, 39, 10, 0xbebfbc70, 23);
    b := StepWord(F3(c, d, a), b, c, x[10], 0xbebfbc70, 23);
  }

  /** Steps 41 to 48. */
  method Half6(a0: word, b0: word, c0: word, d0: word, x: seq<word>, ghost h: Sum)
    returns (a: word, b: word, c: word, d: word)
    requires |x| == 16 && Sum(a0, b0, c0, d0) == Steps(h, x, 40)
    ensures Sum(a, b, c, d) == Steps(h, x, 48)
  {
    hide Steps, StepWord, F1, F2, F3, F4;
    a, b, c, d := a0, b0, c0, d0;
    StepAt(h, x, 40, 13, 0x289b7ec6, 4);
    a := StepWord(F3(b, c, d), a, b, x[13], 0x289b7ec6, 4);
    StepAt(h, x, 41, 0, 0xeaa127fa, 11);
    d := StepWord(F3(a, b, c), d, a, x[0], 0xeaa127fa, 11);
    StepAt(h, x, 42, 3, 0xd4ef3085, 16);
    c := StepWord(F3(d, a, b), c, d, x[3], 0xd4ef3085, 16);
    StepAt(h, x, 43, 6, 0x04881d05, 23);
    b := StepWord(F3(c, d, a), b, c, x[6], 0x04881d05, 23);
    StepAt(h, x, 44, 9, 0xd9d4d039, 4);
    a := StepWord(F3(b, c, d), a, b, x[9], 0xd9d4d039, 4);
    StepAt(h, x, 45, 12, 0xe6db99e5, 11);
    d := StepWord(F3(a, b, c), d, a, x[12], 0xe6db99e5, 11);
    StepAt(h, x, 46, 15, 0x1fa27cf8, 16);
    c := StepWord(F3(d, a, b), c, d, x[15], 0x1fa27cf8, 16);
    StepAt(h, x, 47, 2, 0xc4ac5665, 23);
    b := StepWord(F3(c, d, a), b, c, x[2], 0xc4ac5665, 23);
  }

  /** Steps 49 to 56. */
  method Half7(a0: word, b0: word, c0: word, d0: word, x: seq<word>, ghost h: Sum)
    returns (a: word, b: word, c: word, d: word)
    requires |x| == 16 && Sum(a0, b0, c0, d0) == Steps(h, x, 48)
    ensures Sum(a, b, c, d) == Steps(h, x, 56)
  {
    hide Steps, StepWord, F1, F2, F3, F4;
    a, b, c, d := a0, b0, c0, d0;
    StepAt(h, x, 48, 0, 0xf4292244, 6);
    a := StepWord(F4(b, c, d), a, b, x[0], 0xf4292244, 6);
    StepAt(h, x, 49, 7, 0x432aff97, 10);
    d := StepWord(F4(a, b, c), d, a, x[7], 0x432aff97, 10);
    StepAt(h, x, 50, 14, 0xab9423a7, 15);
    c := StepWord(F4(d, a, b), c, d, x[14], 0xab9423a7, 15);
    StepAt(h, x, 51, 5, 0xfc93a039, 21);
    b := StepWord(F4(c, d, a), b, c, x[5], 0xfc93a039, 21);
    StepAt(h, x, 52, 12, 0x655b59c3, 6);
    a := StepWord(F4(b, c, d), a, b, x[12], 0x655b59c3, 6);
    StepAt(h, x, 53, 3, 0x8f0ccc92, 10);
    d := StepWord(F4(a, b, c), d, a, x[3], 0x8f0ccc92, 10);
    StepAt(h, x, 54, 10, 0xffeff47d, 15);
    c := StepWord(F4(d, a, b), c, d, x[10], 0xffeff47d, 15);
    StepAt(h, x, 55, 1, 0x85845dd1, 21);
    b := StepWord(F4(c, d, a), b, c, x[1], 0x85845dd1, 21);
  }

  /** Steps 57 to 64. */
  method Half8(a0: word, b0: word, c0: word, d0: word, x: seq<word>, ghost h: Sum)
    returns (a: word, b: word, c: word, d: word)
    requires |x| == 16 && Sum(a0, b0, c0, d0) == Steps(h, x, 56)
    ensures Sum(a, b, c, d) == Steps(h, x, 64)
  {
    hide Steps, StepWord, F1, F2, F3, F4;
    a, b, c, d := a0, b0, c0, d0;
    StepAt(h, x, 56, 8, 0x6fa87e4f, 6);
    a := StepWord(F4(b, c, d), a, b, x[8], 0x6fa87e4f, 6);
    StepAt(h, x, 57, 15, 0xfe2ce6e0, 10);
    d := StepWord(F4(a, b, c), d, a, x[15], 0xfe2ce6e0, 10);
    StepAt(h, x, 58, 6, 0xa3014314, 15);
    c := StepWord(F4(d, a, b), c, d, x[6], 0xa3014314, 15);
    StepAt(h, x, 59, 13, 0x4e0811a1, 21);
    b := StepWord(F4(c, d, a), b, c, x[13], 0x4e0811a1, 21);
    StepAt(h, x, 60, 4, 0xf7537e82, 6);
    a := StepWord(F4(b, c, d), a, b, x[4], 0xf7537e82, 6);
    StepAt(h, x, 61, 11, 0xbd3af235, 10);
    d := StepWord(F4(a, b, c), d, a, x[11], 0xbd3af235, 10);
    StepAt(h, x, 62, 2, 0x2ad7d2bb, 15);
    c := StepWord(F4(d, a, b), c, d, x[2], 0x2ad7d2bb, 15);
    StepAt(h, x, 63, 9, 0xeb86d391, 21);
    b := StepWord(F4(c, d, a), b, c, x[9], 0xeb86d391, 21);
  }

  /** Take a block into the sum. */
  method CompBlock(sum: Sum, x: seq<word>) returns (r: Sum)
    requires |x| == 16
    ensures r == Add(sum, Steps(sum, x, 64))
  {
    hide Steps, StepWord, Plus;
    StepsNone(sum, x);
    var a, b, c, d := sum.a, sum.b, sum.c, sum.d;
    a, b, c, d := Half1(a, b, c, d, x, sum);
    a, b, c, d := Half2(a, b, c, d, x, sum);
    a, b, c, d := Half3(a, b, c, d, x, sum);
    a, b, c, d := Half4(a, b, c, d, x, sum);
    a, b, c, d := Half5(a, b, c, d, x, sum);
    a, b, c, d := Half6(a, b, c, d, x, sum);
    a, b, c, d := Half7(a, b, c, d, x, sum);
    a, b, c, d := Half8(a, b, c, d, x, sum);
    r := Sum(Plus(sum.a, a), Plus(sum.b, b), Plus(sum.c, c), Plus(sum.d, d));
  }

  lemma StepsNone(h: Sum, x: seq<word>)
    requires |x| == 16
    ensures Steps(h, x, 0) == h
  {
  }

  // ---- Sections 3.1 to 3.3 and 3.5 of RFC 1321 ----

  function LittleEndian(n: nat): (s: seq<byte>)
    ensures |s| == 4
  {
    [(n % 256) as byte, (n / 0x100 % 256) as byte, (n / 0x1_0000 % 256) as byte, (n / 0x100_0000 % 256) as byte]
  }

  /** The low 64 bits of a length, the low word first. */
  function Length64(bits: nat): (s: seq<byte>)
    ensures |s| == 8
  {
    LittleEndian(bits % TWO_TO_THE_32) + LittleEndian(bits / TWO_TO_THE_32 % TWO_TO_THE_32)
  }

  function Output(h: Sum): seq<byte>
  {
    LittleEndian(h.a as nat) + LittleEndian(h.b as nat) + LittleEndian(h.c as nat) + LittleEndian(h.d as nat)
  }

  /** The digest of a message of any length. */
  function Digest(message: seq<byte>): seq<byte>
  {
    Output(Fold(Compress, INIT, Padded(message, Length64(8 * |message|))))
  }

  /** Counting bits in two words, with the carry as the code finds it. */
  lemma BitsAdded(n: nat, k: nat)
    requires k < 0x8000_0000
    ensures var low, high := 8 * n % TWO_TO_THE_32, 8 * n / TWO_TO_THE_32 % TWO_TO_THE_32;
            var low' := (low + 8 * k % TWO_TO_THE_32) % TWO_TO_THE_32;
            && low' == 8 * (n + k) % TWO_TO_THE_32
            && ((if low' < low then (high + 1) % TWO_TO_THE_32 else high) + k / 0x2000_0000) % TWO_TO_THE_32
               == 8 * (n + k) / TWO_TO_THE_32 % TWO_TO_THE_32
  {
    var m, a := n / 0x2000_0000, n % 0x2000_0000;
    var q, b := k / 0x2000_0000, k % 0x2000_0000;
    EightTimes(n);
    EightTimes(k);
    EightTimes(n + k);
    AddWithCarry(n, k);
    CarryModulo(m, q, if a + b < 0x2000_0000 then 0 else 1);
  }

  lemma AddWithCarry(n: nat, k: nat)
    ensures var c := if n % 0x2000_0000 + k % 0x2000_0000 < 0x2000_0000 then 0 else 1;
            && (n + k) / 0x2000_0000 == n / 0x2000_0000 + k / 0x2000_0000 + c
            && (n + k) % 0x2000_0000 == n % 0x2000_0000 + k % 0x2000_0000 - c * 0x2000_0000
  {
  }

  lemma CarryModulo(m: nat, q: nat, c: nat)
    requires c <= 1
    ensures ((if c == 1 then (m % TWO_TO_THE_32 + 1) % TWO_TO_THE_32 else m % TWO_TO_THE_32) + q) % TWO_TO_THE_32
         == (m + q + c) % TWO_TO_THE_32
  {
  }

  lemma EightTimes(n: nat)
    ensures 8 * n % TWO_TO_THE_32 == 8 * (n % 0x2000_0000) && 8 * n / TWO_TO_THE_32 == n / 0x2000_0000
  {
    var m, r := n / 0x2000_0000, n % 0x2000_0000;
    assert n == m * 0x2000_0000 + r;
    assert 8 * n == m * TWO_TO_THE_32 + 8 * r && 8 * r < TWO_TO_THE_32;
  }

  /** How many bytes are buffered can be told from the low word. */
  lemma BufferedBytes(n: nat)
    ensures 8 * n % TWO_TO_THE_32 / 8 % 64 == n % 64
  {
    EightTimes(n);
    var m, r := n / 0x2000_0000, n % 0x2000_0000;
    assert n == 64 * (m * 0x80_0000) + r;
  }

  class Md5 {
    var sum: Sum
    var inbuf: array<byte>
    var low: nat
    var high: nat
    /** Everything added so far. */
    ghost var data: seq<byte>

    constructor ()
      ensures Valid() && data == [] && fresh(inbuf)
    {
      hide Fold, Compress, Whole, Rest;
      inbuf := new byte[64](_ => 0);
      sum, low, high, data := INIT, 0, 0, [];
      new;
      FoldNothing();
    }

    static lemma FoldNothing()
      ensures Fold(Compress, INIT, Whole([])) == INIT && Rest([]) == []
    {
    }

    /** The whole blocks of `d` were taken in, and the rest is in the buffer. */
    ghost predicate Holding(d: seq<byte>)
      reads `sum, `inbuf, inbuf
    {
      && inbuf.Length == 64 && inbuf[..|Rest(d)|] == Rest(d)
      && sum == Fold(Compress, INIT, Whole(d))
    }

    /** The length in bits is counted in two words. */
    ghost predicate Counting(n: nat)
      reads `low, `high
    {
      low == 8 * n % TWO_TO_THE_32 && high == 8 * n / TWO_TO_THE_32 % TWO_TO_THE_32
    }

    ghost predicate Valid()
      reads this, inbuf
    {
      Holding(data) && Counting(|data|)
    }

    method CountBits(n: nat)
      requires Valid() && n < 0x8000_0000
      modifies `low, `high
      ensures Counting(|data| + n)
    {
      hide Holding;
      BitsAdded(|data|, n);
      var t := low;
      low := (t + 8 * n % TWO_TO_THE_32) % TWO_TO_THE_32;
      if low < t {
        high := (high + 1) % TWO_TO_THE_32;
      }
      high := (high + n / 0x2000_0000) % TWO_TO_THE_32;
    }

    method CopyIn(at: nat, piece: seq<byte>)
      requires inbuf.Length == 64 && at + |piece| <= 64
      modifies inbuf
      ensures inbuf[..at] == old(inbuf[..at]) && inbuf[at..at + |piece|] == piece
    {
      for i := 0 to |piece|
        invariant inbuf[..at] == old(inbuf[..at]) && inbuf[at..at + i] == piece[..i]
      {
        inbuf[at + i] := piece[i];
      }
    }

    /** Copy a piece behind the `at` buffered bytes, and take the buffer in when it is full. */
    method AddPiece(at: nat, piece: seq<byte>, ghost d: seq<byte>)
      requires Holding(d) && at == |Rest(d)| && at + |piece| <= 64
      modifies `sum, inbuf
      ensures Holding(d + piece)
    {
      hide Fold, Compress, Whole, Rest, Words;
      CopyIn(at, piece);
      assert inbuf[..at + |piece|] == Rest(d) + piece;
      if at + |piece| == 64 {
        RestFull(Compress, INIT, d, piece);
        assert inbuf[..] == Rest(d) + piece;
        CompressIs(sum, inbuf[..]);
        sum := CompBlock(sum, Words(inbuf[..]));
      } else {
        RestMore(d, piece);
      }
    }

    /** Take whole blocks out of the message, from byte `start` on, and keep what is left. */
    method AddBlocks(message: seq<byte>, start: nat)
      requires start <= |message| && Holding(data + message[..start]) && Rest(data + message[..start]) == []
      modifies `sum, inbuf
      ensures Holding(data + message)
    {
      hide Fold, Compress, Whole, Rest;
      var done := start;
      while |message| - done >= 64
        invariant done <= |message|
        invariant Holding(data + message[..done]) && Rest(data + message[..done]) == []
      {
        ghost var d := data + message[..done];
        assert d + message[done..done + 64] == data + message[..done + 64];
        AddPiece(0, message[done..done + 64], d);
        FillUp(d, message[done..done + 64]);
        done := done + 64;
      }
      assert data + message[..done] + message[done..] == data + message;
      AddPiece(0, message[done..], data + message[..done]);
    }

    /** Add data; its size is an `int`. */
    method AddData(message: seq<byte>)
      requires Valid() && |message| < 0x8000_0000
      modifies this, inbuf
      ensures Valid() && data == old(data) + message && inbuf == old(inbuf)
    {
      hide Fold, Compress, Whole, Rest;
      BufferedBytes(|data|);
      RestLength(data);
      var t := low / 8 % 64;
      CountBits(|message|);
      if t > 0 && |message| < 64 - t {
        AddPiece(t, message, data);
      } else {
        var done := if t > 0 then 64 - t else 0;
        if t > 0 {
          AddPiece(t, message[..done], data);
          FillUp(data, message[..done]);
        } else {
          assert data + message[..0] == data;
        }
        AddBlocks(message, done);
      }
      data := data + message;
    }

    static lemma RestLength(s: seq<byte>)
      ensures |Rest(s)| == |s| % 64
    {
    }

    /** The digest of what was added so far. Nothing changes, so more can be added afterwards. */
    method GetResult() returns (digest: seq<byte>)
      requires Valid()
      ensures digest == Digest(data)
    {
      hide Fold, Compress, Whole, Words, LittleEndian, Padded, Steps, Add;
      BufferedBytes(|data|);
      RestLength(data);
      var count := low / 8 % 64;
      var length := LittleEndian(low) + LittleEndian(high);
      assert length == Length64(8 * |data|);
      PadBlocks(Compress, INIT, data, length);
      var tmp := inbuf[..count] + [0x80];
      var r := sum;
      if 63 - count < 8 {
        tmp := tmp + Zeros(63 - count);
        CompressIs(r, tmp);
        r := CompBlock(r, Words(tmp));
        tmp := Zeros(56);
      } else {
        tmp := tmp + Zeros(55 - count);
      }
      tmp := tmp + length;
      CompressIs(r, tmp);
      r := CompBlock(r, Words(tmp));
      digest := LittleEndian(r.a as nat) + LittleEndian(r.b as nat) + LittleEndian(r.c as nat)
        + LittleEndian(r.d as nat);
    }
  }

  lemma CompressIs(h: Sum, block: seq<byte>)
    requires |block| == 64
    ensures Compress(h, block) == Add(h, Steps(h, Words(block), 64))
  {
  }
}
